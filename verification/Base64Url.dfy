/**
 Unpadded base64url (section 5 of RFC 4648) as Go's `base64.RawURLEncoding` reads and writes it: the
 decoder skips line breaks and does not insist that the unused low bits of the last letter are zero.
 */
module Base64Url {
  import opened Basics
  import opened Bytes

  /** Six bits, the value of one letter. */
  type sextet = n: int | 0 <= n < 64

  // ---------------------------------------------------------------------------------------------
  // The alphabet
  // ---------------------------------------------------------------------------------------------

  predicate IsLetter(c: char) {
    'A' <= c <= 'Z' || 'a' <= c <= 'z' || '0' <= c <= '9' || c == '-' || c == '_'
  }

  function Letter(v: sextet): (c: char)
    ensures IsLetter(c) && Value(c) == v
  {
    if v < 26 then ('A' as int + v) as char
    else if v < 52 then ('a' as int + v - 26) as char
    else if v < 62 then ('0' as int + v - 52) as char
    else if v == 62 then '-'
    else '_'
  }

  function Value(c: char): sextet
    requires IsLetter(c)
  {
    if 'A' <= c <= 'Z' then c as int - 'A' as int
    else if 'a' <= c <= 'z' then c as int - 'a' as int + 26
    else if '0' <= c <= '9' then c as int - '0' as int + 52
    else if c == '-' then 62
    else 63
  }

  lemma LetterOfValue(c: char)
    requires IsLetter(c)
    ensures Letter(Value(c)) == c
  {}

  /** Table 2 of RFC 4648, by character codes: A to Z, a to z, 0 to 9, minus and underline. */
  lemma LetterCodes(v: sextet, c: char)
    ensures var code := Letter(v) as int;
            && (0 <= v <= 25 ==> code == 65 + v) && (26 <= v <= 51 ==> code == 97 + (v - 26))
            && (52 <= v <= 61 ==> code == 48 + (v - 52)) && (v == 62 ==> code == 45) && (v == 63 ==> code == 95)
    ensures IsLetter(c) ==> Letter(Value(c)) == c
  {
    if IsLetter(c) {
      LetterOfValue(c);
    }
  }

  predicate AllLetters(t: string) {
    forall i :: 0 <= i < |t| ==> IsLetter(t[i])
  }

  function Letters(v: seq<sextet>): (t: string)
    ensures |t| == |v| && AllLetters(t)
  {
    seq(|v|, i requires 0 <= i < |v| => Letter(v[i]))
  }

  function Values(t: string): (v: seq<sextet>)
    requires AllLetters(t)
    ensures |v| == |t|
  {
    seq(|t|, i requires 0 <= i < |t| => Value(t[i]))
  }

  lemma ValuesOfLetters(v: seq<sextet>)
    ensures Values(Letters(v)) == v
  {}

  lemma LettersOfValues(t: string)
    requires AllLetters(t)
    ensures Letters(Values(t)) == t
  {
    forall i | 0 <= i < |t| ensures Letter(Value(t[i])) == t[i] {
      LetterOfValue(t[i]);
    }
  }

  // ---------------------------------------------------------------------------------------------
  // Regrouping eight bits into six and back
  // ---------------------------------------------------------------------------------------------

  function Split(a: byte, b: byte, c: byte): (g: seq<sextet>)
    ensures |g| == 4
  {
    [a / 4, a % 4 * 16 + b / 16, b % 16 * 4 + c / 64, c % 64]
  }

  function Merge(w: sextet, x: sextet, y: sextet, z: sextet): (g: seq<byte>)
    ensures |g| == 3
  {
    [w * 4 + x / 16, x % 16 * 16 + y / 4, y % 4 * 64 + z]
  }

  /** A last group of one or two bytes is filled up with zeros and cut to two or three sextets. */
  function Sextets(s: seq<byte>): seq<sextet> {
    if |s| >= 3 then Split(s[0], s[1], s[2]) + Sextets(s[3..])
    else if |s| == 2 then Split(s[0], s[1], 0)[..3]
    else if |s| == 1 then Split(s[0], 0, 0)[..2]
    else []
  }

  function Join(v: seq<sextet>): seq<byte> {
    if |v| >= 4 then Merge(v[0], v[1], v[2], v[3]) + Join(v[4..])
    else if |v| == 3 then Merge(v[0], v[1], v[2], 0)[..2]
    else if |v| == 2 then Merge(v[0], v[1], 0, 0)[..1]
    else []
  }

  /** The bits of the last sextet that no byte uses are zero. */
  predicate ZeroTail(v: seq<sextet>) {
    if |v| >= 4 then ZeroTail(v[4..])
    else if |v| == 3 then v[2] % 4 == 0
    else if |v| == 2 then v[1] % 16 == 0
    else true
  }

  lemma MergeOfSplit(a: byte, b: byte, c: byte)
    ensures var g := Split(a, b, c); Merge(g[0], g[1], g[2], g[3]) == [a, b, c]
  {
    var x, y := a % 4 * 16 + b / 16, b % 16 * 4 + c / 64;
    assert x / 16 == a % 4 && x % 16 == b / 16;
    assert y / 4 == b % 16 && y % 4 == c / 64;
  }

  lemma SplitOfMerge(w: sextet, x: sextet, y: sextet, z: sextet)
    ensures var g := Merge(w, x, y, z); Split(g[0], g[1], g[2]) == [w, x, y, z]
  {
    var a, b, c := w * 4 + x / 16, x % 16 * 16 + y / 4, y % 4 * 64 + z;
    assert a / 4 == w && a % 4 == x / 16;
    assert b / 16 == x % 16 && b % 16 == y / 4;
    assert c / 64 == y % 4 && c % 64 == z;
  }

  lemma {:induction false} JoinInvertsSextets(s: seq<byte>)
    ensures Join(Sextets(s)) == s && |Sextets(s)| % 4 != 1
  {
    if |s| >= 3 {
      JoinInvertsSextets(s[3..]);
      MergeOfSplit(s[0], s[1], s[2]);
      assert Sextets(s)[4..] == Sextets(s[3..]);
      assert s == [s[0], s[1], s[2]] + s[3..];
    } else if |s| == 2 {
      MergeOfSplit(s[0], s[1], 0);
      assert s == [s[0], s[1], 0][..2];
    } else if |s| == 1 {
      MergeOfSplit(s[0], 0, 0);
      assert s == [s[0], 0, 0][..1];
    }
  }

  lemma {:induction false} SextetsInvertJoin(v: seq<sextet>)
    requires |v| % 4 != 1
    ensures Sextets(Join(v)) == v <==> ZeroTail(v)
  {
    if |v| >= 4 {
      SextetsInvertJoin(v[4..]);
      SplitOfMerge(v[0], v[1], v[2], v[3]);
      var g := Merge(v[0], v[1], v[2], v[3]);
      assert (g + Join(v[4..]))[3..] == Join(v[4..]);
      assert Sextets(Join(v)) == [v[0], v[1], v[2], v[3]] + Sextets(Join(v[4..]));
      assert v == [v[0], v[1], v[2], v[3]] + v[4..];
      assert Sextets(Join(v))[4..] == Sextets(Join(v[4..]));
    } else if |v| == 3 {
      LastOfThree(v[0], v[1], v[2]);
    } else if |v| == 2 {
      LastOfTwo(v[0], v[1]);
    }
  }

  lemma JoinThree(w: sextet, x: sextet, y: sextet)
    ensures Join([w, x, y]) == [w * 4 + x / 16, x % 16 * 16 + y / 4]
  {}

  lemma SextetsOfTwo(a: byte, b: byte)
    ensures Sextets([a, b]) == [a / 4, a % 4 * 16 + b / 16, b % 16 * 4]
  {}

  lemma LastOfThree(w: sextet, x: sextet, y: sextet)
    ensures Sextets(Join([w, x, y])) == [w, x, y] <==> y % 4 == 0
  {
    var a, b := w * 4 + x / 16, x % 16 * 16 + y / 4;
    JoinThree(w, x, y);
    SextetsOfTwo(a, b);
    assert a / 4 == w && a % 4 == x / 16 && b / 16 == x % 16 && b % 16 == y / 4;
    assert [w, x, y / 4 * 4][2] == y / 4 * 4 && [w, x, y][2] == y;
  }

  lemma LastOfTwo(w: sextet, x: sextet)
    ensures Sextets(Join([w, x])) == [w, x] <==> x % 16 == 0
  {
    SplitOfMerge(w, x / 16 * 16, 0, 0);
    assert Merge(w, x / 16 * 16, 0, 0)[0] == Merge(w, x, 0, 0)[0];
    assert Merge(w, x / 16 * 16, 0, 0)[1..] == [0, 0];
    assert Sextets(Join([w, x])) == [w, x / 16 * 16];
    assert [w, x / 16 * 16][1] == x / 16 * 16 && [w, x][1] == x;
  }

  // ---------------------------------------------------------------------------------------------
  // Encoding and decoding
  // ---------------------------------------------------------------------------------------------

  function Encode(s: seq<byte>): string {
    Letters(Sextets(s))
  }

  function WithoutBreaks(t: string): string {
    if t == [] then []
    else (if t[0] == '\r' || t[0] == '\n' then [] else [t[0]]) + WithoutBreaks(t[1..])
  }

  function Decode(t: string): Option<seq<byte>> {
    var letters := WithoutBreaks(t);
    if AllLetters(letters) && |letters| % 4 != 1 then Some(Join(Values(letters))) else None
  }

  lemma {:induction false} WithoutBreaksIsIdentity(t: string)
    requires AllLetters(t)
    ensures WithoutBreaks(t) == t
  {
    if t != [] {
      assert IsLetter(t[0]) && t == [t[0]] + t[1..];
      WithoutBreaksIsIdentity(t[1..]);
    }
  }

  lemma {:induction false} OnlyBreaksDisappear(t: string, c: char)
    requires c in t && c != '\r' && c != '\n'
    ensures c in WithoutBreaks(t)
  {
    if t[0] != c {
      assert c in t[1..];
      OnlyBreaksDisappear(t[1..], c);
    }
  }

  /** What is encoded decodes to itself, for every byte string. */
  lemma {:induction false} DecodeInvertsEncode(s: seq<byte>)
    ensures Decode(Encode(s)) == Some(s)
  {
    JoinInvertsSextets(s);
    WithoutBreaksIsIdentity(Encode(s));
    ValuesOfLetters(Sextets(s));
  }

  lemma {:induction false} SextetCount(s: seq<byte>)
    ensures |Sextets(s)| == |s| / 3 * 4 + (if |s| % 3 == 0 then 0 else |s| % 3 + 1)
  {
    if |s| >= 3 {
      SextetCount(s[3..]);
    }
  }

  /** The numbers that a group of bytes and its group of sextets write down, most significant first. */
  ghost predicate SameGroup(s: seq<byte>, v: seq<sextet>) {
    if |s| >= 3 then
      |v| >= 4 && ((v[0] as int * 64 + v[1]) * 64 + v[2]) * 64 + v[3] == (s[0] as int * 256 + s[1]) * 256 + s[2]
    else if |s| == 2 then |v| == 3 && (v[0] as int * 64 + v[1]) * 64 + v[2] == (s[0] as int * 256 + s[1]) * 4
    else if |s| == 1 then |v| == 2 && v[0] as int * 64 + v[1] == s[0] as int * 16
    else v == []
  }

  lemma SplitWritesTheSameNumber(a: byte, b: byte, c: byte)
    ensures var g := Split(a, b, c);
            ((g[0] as int * 64 + g[1]) * 64 + g[2]) * 64 + g[3] == (a as int * 256 + b) * 256 + c
  {}

  lemma {:induction false} FirstGroup(s: seq<byte>)
    ensures SameGroup(s, Sextets(s))
  {
    if |s| >= 3 {
      SplitWritesTheSameNumber(s[0], s[1], s[2]);
    } else if |s| == 2 {
      SplitWritesTheSameNumber(s[0], s[1], 0);
    } else if |s| == 1 {
      SplitWritesTheSameNumber(s[0], 0, 0);
    }
  }

  lemma {:induction false} GroupsOfSextets(s: seq<byte>, i: nat)
    requires 3 * i <= |s|
    ensures 4 * i <= |Sextets(s)| && SameGroup(s[3 * i..], Sextets(s)[4 * i..])
    decreases i
  {
    if i > 0 {
      GroupsOfSextets(s[3..], i - 1);
      assert s[3..][3 * (i - 1)..] == s[3 * i..];
      assert Sextets(s)[4..] == Sextets(s[3..]);
      assert Sextets(s[3..])[4 * (i - 1)..] == Sextets(s)[4 * i..];
    } else {
      FirstGroup(s);
      assert s[0..] == s && Sextets(s)[0..] == Sextets(s);
    }
  }

  /**
   Encoding group by group, as section 5 of RFC 4648 describes it: three bytes are four letters that write
   the same number, and one or two bytes at the end are filled up with zero bits to two or three letters.
   */
  lemma {:induction false} GroupsWriteTheSameNumber(s: seq<byte>, i: nat)
    requires 3 * i <= |s|
    ensures var t := Encode(s);
            && |t| == |s| / 3 * 4 + (if |s| % 3 == 0 then 0 else |s| % 3 + 1)
            && AllLetters(t) && 4 * i <= |t| && SameGroup(s[3 * i..], Values(t)[4 * i..])
  {
    SextetCount(s);
    GroupsOfSextets(s, i);
    ValuesOfLetters(Sextets(s));
  }

  predicate IsBreak(c: char) {
    c == '\r' || c == '\n'
  }

  lemma {:induction false} BreaksDisappear(a: string, c: char, b: string)
    requires IsBreak(c)
    ensures WithoutBreaks(a + [c] + b) == WithoutBreaks(a + b)
  {
    if a == [] {
      assert ([c] + b)[1..] == b && a + [c] + b == [c] + b && a + b == b;
    } else {
      assert (a + [c] + b)[1..] == a[1..] + [c] + b && (a + b)[1..] == a[1..] + b;
      BreaksDisappear(a[1..], c, b);
    }
  }

  /** A line break anywhere in a text makes no difference. */
  lemma {:induction false} DecodeIgnoresBreaks(a: string, c: char, b: string)
    requires IsBreak(c)
    ensures Decode(a + [c] + b) == Decode(a + b)
  {
    BreaksDisappear(a, c, b);
  }

  /** Without line breaks, exactly the texts of letters whose number is not one more than a multiple of four decode. */
  lemma {:induction false} DecodableExactly(t: string)
    requires forall i :: 0 <= i < |t| ==> !IsBreak(t[i])
    ensures Decode(t).Some? <==> AllLetters(t) && |t| % 4 != 1
  {
    NothingToSkip(t);
  }

  lemma {:induction false} NothingToSkip(t: string)
    requires forall i :: 0 <= i < |t| ==> !IsBreak(t[i])
    ensures WithoutBreaks(t) == t
  {
    if t != [] {
      assert t == [t[0]] + t[1..] && !IsBreak(t[0]);
      NothingToSkip(t[1..]);
    }
  }

  /** A decodable text is the encoding of what it decodes to exactly when it has no line break and a zero tail. */
  lemma {:induction false} EncodeInvertsDecode(t: string)
    requires Decode(t).Some?
    ensures Encode(Decode(t).value) == t <==> AllLetters(t) && ZeroTail(Values(t))
  {
    if AllLetters(t) {
      WithoutBreaksIsIdentity(t);
      SextetsInvertJoin(Values(t));
      LettersOfValues(t);
      ValuesOfLetters(Sextets(Decode(t).value));
    }
  }

  lemma {:induction false} WithoutLastBreak(t: string)
    ensures WithoutBreaks(t + "\n") == WithoutBreaks(t)
  {
    if t == [] {
      assert t + "\n" == ['\n'] && WithoutBreaks(['\n'][1..]) == [];
    } else {
      assert (t + "\n")[1..] == t[1..] + "\n";
      WithoutLastBreak(t[1..]);
    }
  }

  /** Every byte string is also what a second text decodes to: its encoding followed by a line break. */
  lemma {:induction false} LineBreakDecodes(s: seq<byte>)
    ensures Decode(Encode(s) + "\n") == Some(s) && Encode(s) != Encode(s) + "\n"
  {
    WithoutLastBreak(Encode(s));
    DecodeInvertsEncode(s);
  }

  /** A single byte has sixteen texts of two letters; only the one with a zero tail is its encoding. */
  lemma {:induction false} NonzeroTailDecodes(b: byte, tail: nat)
    requires tail < 16
    ensures var t := [Letter(b / 4), Letter(b % 4 * 16 + tail)];
            Decode(t) == Some([b]) && (Encode([b]) == t <==> tail == 0)
  {
    var t := [Letter(b / 4), Letter(b % 4 * 16 + tail)];
    var v := [b / 4, b % 4 * 16 + tail];
    WithoutBreaksIsIdentity(t);
    assert t == Letters(v);
    ValuesOfLetters(v);
    assert v[1] / 16 == b % 4;
    assert Join(v) == [b];
    EncodeInvertsDecode(t);
    assert v[1] % 16 == tail;
  }

  /** Dots never occur in an encoding, and a text with a dot does not decode. */
  lemma {:induction false} NoDots(s: seq<byte>, t: string)
    ensures '.' !in Encode(s)
    ensures Decode(t).Some? ==> '.' !in t
  {
    if '.' in t {
      OnlyBreaksDisappear(t, '.');
    }
  }
}
