/**
 JWE compact serialization with direct encryption (`alg` "dir"): framing, the dot-split parser, the
 provider registry with its software fall-back, and the entry point that reads the header.

 A Go string is a sequence of bytes; a character here stands for one byte.  The AEAD primitives and the
 JSON header codec are parameters, constrained only by decrypt-inverts-encrypt.
 */
module JweDir {
  import opened Basics
  import opened Bytes
  import Base64Url
  import CbcContent

  datatype Alg = Dir | OtherAlg(name: string)

  datatype Header = Header(alg: Alg, enc: Enc)

  /** Sealing takes key, IV, plaintext and additional data; opening takes the sealed bytes in place of the plaintext. */
  type Sealer = (seq<byte>, seq<byte>, seq<byte>, seq<byte>) -> Result<seq<byte>>

  /**
   `encryptor` and `decryptor` are the registry; `seal` and `open` are the AEAD primitives for a key and
   a nonce of the right length, where opening may find that the tag does not match.
   */
  datatype Env = Env(
    encryptor: Enc -> Option<Sealer>,
    decryptor: Enc -> Option<Sealer>,
    seal: (Enc, seq<byte>, seq<byte>, seq<byte>, seq<byte>) -> seq<byte>,
    open: (Enc, seq<byte>, seq<byte>, seq<byte>, seq<byte>) -> Option<seq<byte>>,
    marshal: Header -> seq<byte>,
    unmarshal: seq<byte> -> Option<Header>)
  {
    /** The wrappers around the primitives, which look at the key and then at the nonce. */
    function AeadSeal(enc: Enc): Sealer {
      (k, iv, x, aad) =>
        match Refused(enc, k, iv)
        case Some(error) => Err(error)
        case None => Ok(seal(enc, k, iv, x, aad))
    }

    function AeadOpen(enc: Enc): Sealer {
      (k, iv, x, aad) =>
        match Refused(enc, k, iv)
        case Some(error) => Err(error)
        case None => var plain := open(enc, k, iv, x, aad); if plain.None? then Err(TagMismatch) else Ok(plain.value)
    }

    /** The switch over `enc` of the software `dir` mode. */
    function StdSeal(enc: Enc): Sealer {
      if StdDirEnc(enc) then AeadSeal(enc) else (k, iv, x, aad) => Err(UnsupportedEnc)
    }

    function StdOpen(enc: Enc): Sealer {
      if StdDirEnc(enc) then AeadOpen(enc) else (k, iv, x, aad) => Err(UnsupportedEnc)
    }

    /** How a plaintext is sealed: by the registered provider, or in software. */
    function SealPath(enc: Enc): Sealer {
      if encryptor(enc).Some? then encryptor(enc).value else StdSeal(enc)
    }

    function OpenPath(enc: Enc): Sealer {
      if decryptor(enc).Some? then decryptor(enc).value else StdOpen(enc)
    }

    ghost predicate OpensWhatItSeals(enc: Enc) {
      forall k, iv, p, aad :: SealPath(enc)(k, iv, p, aad).Ok? ==>
        OpenPath(enc)(k, iv, SealPath(enc)(k, iv, p, aad).value, aad) == Ok(p)
    }

    ghost predicate ReadsItsHeaders() {
      forall enc :: unmarshal(marshal(Header(Dir, enc))) == Some(Header(Dir, enc))
    }
  }

  predicate IsAesGcm(enc: Enc) {
    enc == A128GCM || enc == A192GCM || enc == A256GCM
  }

  /** Any AES key length goes with any of the three names. */
  predicate IsAesKey(key: seq<byte>) {
    |key| == 16 || |key| == 24 || |key| == 32
  }

  /** Go's GCM panics on a nonce of another length; the SM4 wrappers check it and return an error. */
  function Refused(enc: Enc, key: seq<byte>, iv: seq<byte>): Option<Error> {
    if IsAesGcm(enc) then
      if !IsAesKey(key) then Some(BadKeyLength) else if |iv| != NONCE_SIZE then Some(Panic) else None
    else
      if |key| != 16 then Some(BadKeyLength) else if |iv| != NONCE_SIZE then Some(BadIVLength) else None
  }

  /** The algorithms of the software `dir` mode. */
  predicate StdDirEnc(enc: Enc) {
    IsAesGcm(enc) || enc == SGD_SM4_GCM || enc == SGD_SM4_CCM
  }

  const TAG_SIZE: nat := 16

  const NONCE_SIZE: nat := 12

  // ---------------------------------------------------------------------------------------------
  // Dots
  // ---------------------------------------------------------------------------------------------

  /** The index of the first dot, or -1. */
  function FirstDot(s: string): (i: int)
    ensures -1 <= i < |s|
  {
    if s == [] then -1
    else if s[0] == '.' then 0
    else
      var i := FirstDot(s[1..]);
      if i < 0 then -1 else i + 1
  }

  function CountDots(s: string): nat {
    if s == [] then 0 else (if s[0] == '.' then 1 else 0) + CountDots(s[1..])
  }

  /** `strings.Split(s, ".")`. */
  function Split(s: string): seq<string>
    decreases |s|
  {
    var i := FirstDot(s);
    if i < 0 then [s] else [s[..i]] + Split(s[i + 1..])
  }

  function Prefixed(front: seq<string>, rest: Option<seq<string>>): Option<seq<string>> {
    if rest.None? then None else Some(front + rest.value)
  }

  /** Splits off `k` parts at the first `k` dots and keeps the rest in one piece. */
  function Cut(s: string, k: nat): Option<seq<string>> {
    if k == 0 then Some([s])
    else
      var i := FirstDot(s);
      if i < 0 then None else Prefixed([s[..i]], Cut(s[i + 1..], k - 1))
  }

  function Compact(parts: seq<string>): string {
    if parts == [] then [] else if |parts| == 1 then parts[0] else parts[0] + "." + Compact(parts[1..])
  }

  lemma {:induction false} FirstDotIsFirst(s: string)
    ensures var i := FirstDot(s);
            if i < 0 then '.' !in s else s[i] == '.' && '.' !in s[..i]
  {
    if s != [] && s[0] != '.' {
      FirstDotIsFirst(s[1..]);
      assert s == [s[0]] + s[1..];
      var i := FirstDot(s[1..]);
      if i >= 0 {
        assert s[..i + 1] == [s[0]] + s[1..][..i];
      }
    }
  }

  lemma {:induction false} FirstDotAfter(a: string, rest: string)
    requires '.' !in a
    ensures FirstDot(a + "." + rest) == |a|
  {
    var s := a + "." + rest;
    if a != [] {
      assert a[0] in a && forall c :: c in a[1..] ==> c in a;
      FirstDotAfter(a[1..], rest);
      assert s[1..] == a[1..] + "." + rest;
    }
  }

  /** Joining dot-free parts and splitting again gives the parts back. */
  lemma {:induction false} SplitInvertsCompact(parts: seq<string>)
    requires parts != [] && forall i :: 0 <= i < |parts| ==> '.' !in parts[i]
    ensures Split(Compact(parts)) == parts
    ensures Cut(Compact(parts), |parts| - 1) == Some(parts)
  {
    var s := Compact(parts);
    if |parts| > 1 {
      var rest := Compact(parts[1..]);
      FirstDotAfter(parts[0], rest);
      assert s[..|parts[0]|] == parts[0] && s[|parts[0]| + 1..] == rest;
      SplitInvertsCompact(parts[1..]);
    } else {
      assert parts == [s] && '.' !in s;
      FirstDotIsFirst(s);
    }
  }

  lemma {:induction false} CountDotsAround(a: string, rest: string)
    requires '.' !in a
    ensures CountDots(a) == 0 && CountDots(a + "." + rest) == 1 + CountDots(rest)
  {
    if a != [] {
      assert a[0] in a && forall c :: c in a[1..] ==> c in a;
      CountDotsAround(a[1..], rest);
      assert (a + "." + rest)[1..] == a[1..] + "." + rest;
    } else {
      assert (a + "." + rest)[1..] == rest;
    }
  }

  lemma {:induction false} FirstDotSplits(s: string)
    ensures var i := FirstDot(s);
            if i < 0 then CountDots(s) == 0
            else s == s[..i] + "." + s[i + 1..] && CountDots(s) == 1 + CountDots(s[i + 1..])
  {
    FirstDotIsFirst(s);
    var i := FirstDot(s);
    if i < 0 {
      CountDotsAround(s, []);
    } else {
      CountDotsAround(s[..i], s[i + 1..]);
      assert s == s[..i] + "." + s[i + 1..];
    }
  }

  /** Cutting `k` times needs `k` dots; the further dots stay in the last part. */
  lemma {:induction false} CutCountsDots(s: string, k: nat)
    ensures Cut(s, k).Some? <==> CountDots(s) >= k
    ensures Cut(s, k).Some? ==>
              var parts := Cut(s, k).value;
              |parts| == k + 1 && CountDots(parts[k]) == CountDots(s) - k && Compact(parts) == s
  {
    FirstDotSplits(s);
    var i := FirstDot(s);
    if k > 0 && i >= 0 {
      var tail := s[i + 1..];
      CutCountsDots(tail, k - 1);
      if Cut(tail, k - 1).Some? {
        var rest := Cut(tail, k - 1).value;
        CompactCons(s[..i], rest);
        assert ([s[..i]] + rest)[k] == rest[k - 1];
      }
    }
  }

  lemma CompactCons(part: string, rest: seq<string>)
    requires rest != []
    ensures Compact([part] + rest) == part + "." + Compact(rest)
  {
    assert ([part] + rest)[1..] == rest;
  }

  // ---------------------------------------------------------------------------------------------
  // Encryption and decryption
  // ---------------------------------------------------------------------------------------------

  function Ascii(s: string): seq<byte> {
    seq(|s|, i requires 0 <= i < |s| => s[i] as int % 256)
  }

  /** The compact form of sealed bytes cut into ciphertext and tag at a given place. */
  function Frame(header: string, iv: seq<byte>, sealed: seq<byte>, cut: nat): string
    requires cut <= |sealed|
  {
    Compact(FrameParts(header, iv, sealed, cut))
  }

  /** An empty encrypted key stands between the header and the IV. */
  function FrameParts(header: string, iv: seq<byte>, sealed: seq<byte>, cut: nat): seq<string>
    requires cut <= |sealed|
  {
    [header, "", Base64Url.Encode(iv), Base64Url.Encode(sealed[..cut]), Base64Url.Encode(sealed[cut..])]
  }

  /** Header, sealing and framing; `iv` is what the random source delivered. */
  function SealAndFrame(e: Env, seal: Sealer, plain: seq<byte>, key: seq<byte>, enc: Enc, iv: seq<byte>)
    : Result<string>
  {
    var header := Base64Url.Encode(e.marshal(Header(Dir, enc)));
    match seal(key, iv, plain, Ascii(header))
    case Err(x) => Err(x)
    case Ok(sealed) =>
      if |sealed| < TAG_SIZE then Err(TooShort) else Ok(Frame(header, iv, sealed, |sealed| - TAG_SIZE))
  }

  /** The `dir` branch of `EncryptJWE`. */
  function EncryptDir(e: Env, plain: seq<byte>, key: seq<byte>, enc: Enc, iv: seq<byte>): Result<string> {
    SealAndFrame(e, e.SealPath(enc), plain, key, enc, iv)
  }

  /** What both `dir` decryptors do with five parts. */
  function OpenParts(open: Sealer, key: seq<byte>, parts: seq<string>): Result<seq<byte>>
    requires |parts| == 5
  {
    if parts[1] != "" then Err(EncryptedKeyNotEmpty)
    else
      var iv, cipher, tag := Base64Url.Decode(parts[2]), Base64Url.Decode(parts[3]), Base64Url.Decode(parts[4]);
      if iv.None? || cipher.None? || tag.None? then Err(BadBase64)
      else open(key, iv.value, cipher.value + tag.value, Ascii(parts[0]))
  }

  /** `std.DecryptJWEDir`, which cuts at the first four dots only. */
  function StdDecryptDir(e: Env, compact: string, key: seq<byte>, enc: Enc): Result<seq<byte>> {
    match Cut(compact, 4)
    case None => Err(BadCompact)
    case Some(parts) =>
      assert |parts| == 5 by { CutCountsDots(compact, 4); }
      OpenParts(e.StdOpen(enc), key, parts)
  }

  datatype Output = Plain(bytes: seq<byte>) | PassedThrough(compact: string)

  /** `DecryptJWE` with a byte key; other algorithms than `dir` are not part of this model. */
  function DecryptJWE(e: Env, compact: string, key: seq<byte>): Result<Output> {
    var parts := Split(compact);
    if |parts| == 3 then Ok(PassedThrough(compact))
    else if |parts| != 5 then Err(BadCompact)
    else
      match Base64Url.Decode(parts[0])
      case None => Err(BadBase64)
      case Some(json) =>
        match e.unmarshal(json)
        case None => Err(BadHeader)
        case Some(h) =>
          if h.alg != Dir then Err(NoProvider)
          else
            var r := if e.decryptor(h.enc).Some? then OpenParts(e.decryptor(h.enc).value, key, parts)
                     else StdDecryptDir(e, compact, key, h.enc);
            if r.Ok? then Ok(Plain(r.value)) else Err(r.error)
  }

  // ---------------------------------------------------------------------------------------------
  // The parser and the framing as code
  // ---------------------------------------------------------------------------------------------

  method FindDot(s: string) returns (i: int)
    ensures i == FirstDot(s)
  {
    i := 0;
    while i < |s|
      invariant 0 <= i <= |s| && '.' !in s[..i]
    {
      if s[i] == '.' {
        FirstDotIsUnique(s, i);
        return;
      }
      i := i + 1;
    }
    FirstDotIsFirst(s);
    i := -1;
  }

  lemma FirstDotIsUnique(s: string, i: nat)
    requires i < |s| && s[i] == '.' && '.' !in s[..i]
    ensures FirstDot(s) == i
  {
    FirstDotAfter(s[..i], s[i + 1..]);
    assert s == s[..i] + "." + s[i + 1..];
  }

  lemma PrefixedAppends(a: seq<string>, b: seq<string>, r: Option<seq<string>>)
    ensures Prefixed(a, Prefixed(b, r)) == Prefixed(a + b, r) && Prefixed([], r) == r
  {
    if r.Some? {
      assert a + (b + r.value) == a + b + r.value && [] + r.value == r.value;
    }
  }

  method ParseCompactParts(compact: string) returns (r: Option<seq<string>>)
    ensures r == Cut(compact, 4)
  {
    var parts: array<string> := new string[5](_ => "");
    var s := compact;
    ghost var whole, front: seq<string> := Cut(compact, 4), [];
    PrefixedAppends([], [], whole);
    for i := 0 to 4
      invariant parts[..i] == front && whole == Prefixed(front, Cut(s, 4 - i))
    {
      var idx := FindDot(s);
      if idx == -1 {
        return None;
      }
      PrefixedAppends(front, [s[..idx]], Cut(s[idx + 1..], 3 - i));
      parts[i] := s[..idx];
      front := front + [s[..idx]];
      s := s[idx + 1..];
    }
    parts[4] := s;
    assert parts[..] == front + [s];
    return Some(parts[..]);
  }

  lemma {:induction false} ConcatenationIsCompact(header: string, a: string, b: string, c: string)
    ensures header + ".." + a + "." + b + "." + c == Compact([header, "", a, b, c])
  {
    var bc := b + "." + c;
    var abc := a + "." + bc;
    assert [header, "", a, b, c] == [header] + ([""] + ([a] + ([b] + [c])));
    CompactCons(b, [c]);
    CompactCons(a, [b] + [c]);
    CompactCons("", [a] + ([b] + [c]));
    CompactCons(header, [""] + ([a] + ([b] + [c])));
    assert header + ".." + a + "." + b + "." + c == header + ".." + a + "." + bc;
    assert header + ".." + a + "." + bc == header + ".." + abc;
    assert header + "." + ("" + "." + abc) == header + ".." + abc;
  }

  /** `std.EncryptJWEDir`: the software mode, with the IV buffer filled from the random source. */
  method StdEncryptDir(e: Env, plain: seq<byte>, key: seq<byte>, enc: Enc, random: seq<byte>)
    returns (r: Result<string>)
    requires |random| == NONCE_SIZE
    ensures r == SealAndFrame(e, e.StdSeal(enc), plain, key, enc, random)
    ensures r.Ok? ==> SoftwareSeals(enc, key, random)
    ensures r.Ok? ==> SealsItsHeader(e, Primitive(e, enc), plain, key, enc, random, r.value)
    ensures r == Err(UnsupportedEnc) <==> enc !in {A128GCM, A192GCM, A256GCM, SGD_SM4_GCM, SGD_SM4_CCM}
  {
    if SealAndFrame(e, e.StdSeal(enc), plain, key, enc, random).Ok? {
      SoftwareSealsItsHeader(e, plain, key, enc, random);
    }
    var header := Base64Url.Encode(e.marshal(Header(Dir, enc)));
    if !StdDirEnc(enc) {
      return Err(UnsupportedEnc);
    }
    var iv := new byte[NONCE_SIZE];
    for i := 0 to NONCE_SIZE
      invariant iv[..i] == random[..i]
    {
      iv[i] := random[i];
    }
    assert iv[..] == random;
    var sealed := e.AeadSeal(enc)(key, iv[..], plain, Ascii(header));
    if sealed.Err? {
      assert sealed == Err(Refused(enc, key, iv[..]).value);
      return Err(sealed.error);
    }
    if |sealed.value| < TAG_SIZE {
      return Err(TooShort);
    }
    var cut := |sealed.value| - TAG_SIZE;
    var cipher, tag := sealed.value[..cut], sealed.value[cut..];
    ConcatenationIsCompact(header, Base64Url.Encode(iv[..]), Base64Url.Encode(cipher), Base64Url.Encode(tag));
    return Ok(header + ".." + Base64Url.Encode(iv[..]) + "." + Base64Url.Encode(cipher) + "." + Base64Url.Encode(tag));
  }

  method StdDecryptDirCode(e: Env, compact: string, key: seq<byte>, enc: Enc) returns (r: Result<seq<byte>>)
    ensures r == StdDecryptDir(e, compact, key, enc)
  {
    var parsed := ParseCompactParts(compact);
    if parsed.None? {
      return Err(BadCompact);
    }
    var parts := parsed.value;
    CutCountsDots(compact, 4);
    if parts[1] != "" {
      return Err(EncryptedKeyNotEmpty);
    }
    var iv := Base64Url.Decode(parts[2]);
    var cipher := Base64Url.Decode(parts[3]);
    var tag := Base64Url.Decode(parts[4]);
    if iv.None? || cipher.None? || tag.None? {
      return Err(BadBase64);
    }
    if !StdDirEnc(enc) {
      return Err(UnsupportedEnc);
    }
    r := e.AeadOpen(enc)(key, iv.value, cipher.value + tag.value, Ascii(parts[0]));
  }

  // ---------------------------------------------------------------------------------------------
  // Round trip
  // ---------------------------------------------------------------------------------------------

  /** The parts of a frame are found again, by the full split and by the four cuts alike. */
  lemma {:induction false} FrameSplits(header: string, iv: seq<byte>, sealed: seq<byte>, cut: nat)
    requires '.' !in header && cut <= |sealed|
    ensures Split(Frame(header, iv, sealed, cut)) == FrameParts(header, iv, sealed, cut)
    ensures Cut(Frame(header, iv, sealed, cut), 4) == Some(FrameParts(header, iv, sealed, cut))
  {
    var parts := FrameParts(header, iv, sealed, cut);
    Base64Url.NoDots(iv, "");
    Base64Url.NoDots(sealed[..cut], "");
    Base64Url.NoDots(sealed[cut..], "");
    SplitInvertsCompact(parts);
  }

  /** Wherever the sealed bytes were cut, the decoder puts them together again. */
  lemma {:induction false} OpensAnyCut(open: Sealer, key: seq<byte>, header: string, iv: seq<byte>,
                                       sealed: seq<byte>, cut: nat)
    requires cut <= |sealed|
    ensures OpenParts(open, key, FrameParts(header, iv, sealed, cut)) == open(key, iv, sealed, Ascii(header))
  {
    PartsOfFrame(header, iv, sealed, cut);
    OpenPartsOf(open, key, FrameParts(header, iv, sealed, cut), iv, sealed[..cut], sealed[cut..]);
    assert sealed[..cut] + sealed[cut..] == sealed;
  }

  lemma PartsOfFrame(header: string, iv: seq<byte>, sealed: seq<byte>, cut: nat)
    requires cut <= |sealed|
    ensures var parts := FrameParts(header, iv, sealed, cut);
            && |parts| == 5 && parts[0] == header && parts[1] == "" && Base64Url.Decode(parts[2]) == Some(iv)
            && Base64Url.Decode(parts[3]) == Some(sealed[..cut]) && Base64Url.Decode(parts[4]) == Some(sealed[cut..])
  {
    Base64Url.DecodeInvertsEncode(iv);
    Base64Url.DecodeInvertsEncode(sealed[..cut]);
    Base64Url.DecodeInvertsEncode(sealed[cut..]);
  }

  lemma OpenPartsOf(open: Sealer, key: seq<byte>, parts: seq<string>, iv: seq<byte>, cipher: seq<byte>, tag: seq<byte>)
    requires |parts| == 5 && parts[1] == "" && Base64Url.Decode(parts[2]) == Some(iv)
    requires Base64Url.Decode(parts[3]) == Some(cipher) && Base64Url.Decode(parts[4]) == Some(tag)
    ensures OpenParts(open, key, parts) == open(key, iv, cipher + tag, Ascii(parts[0]))
  {}

  lemma {:induction false} FramesDecrypt(e: Env, plain: seq<byte>, key: seq<byte>, enc: Enc, iv: seq<byte>, cut: nat)
    requires e.ReadsItsHeaders() && e.OpensWhatItSeals(enc)
    requires var header := Base64Url.Encode(e.marshal(Header(Dir, enc)));
             var sealed := e.SealPath(enc)(key, iv, plain, Ascii(header));
             sealed.Ok? && cut <= |sealed.value|
    ensures var header := Base64Url.Encode(e.marshal(Header(Dir, enc)));
            var sealed := e.SealPath(enc)(key, iv, plain, Ascii(header)).value;
            DecryptJWE(e, Frame(header, iv, sealed, cut), key) == Ok(Plain(plain))
  {
    var json := e.marshal(Header(Dir, enc));
    var header := Base64Url.Encode(json);
    var sealed := e.SealPath(enc)(key, iv, plain, Ascii(header)).value;
    Base64Url.NoDots(json, "");
    Base64Url.DecodeInvertsEncode(json);
    FrameSplits(header, iv, sealed, cut);
    OpensAnyCut(e.OpenPath(enc), key, header, iv, sealed, cut);
    assert e.OpenPath(enc)(key, iv, sealed, Ascii(header)) == Ok(plain);
  }

  /** Whenever encryption in `dir` mode succeeds, decryption under the same key returns the plaintext, empty or not. */
  lemma {:induction false} DecryptInvertsEncrypt(e: Env, plain: seq<byte>, key: seq<byte>, enc: Enc, iv: seq<byte>)
    requires e.ReadsItsHeaders() && e.OpensWhatItSeals(enc) && EncryptDir(e, plain, key, enc, iv).Ok?
    ensures DecryptJWE(e, EncryptDir(e, plain, key, enc, iv).value, key) == Ok(Plain(plain))
  {
    var header := Base64Url.Encode(e.marshal(Header(Dir, enc)));
    var sealed := e.SealPath(enc)(key, iv, plain, Ascii(header)).value;
    FramesDecrypt(e, plain, key, enc, iv, |sealed| - TAG_SIZE);
  }

  /**
   The parser cuts any text with at least four dots, but a text with more never decrypts: the further
   dots are in the tag, which then is no base64url.
   */
  lemma {:induction false} OnlyFourDotsDecrypt(e: Env, compact: string, key: seq<byte>, enc: Enc)
    ensures Cut(compact, 4).Some? <==> CountDots(compact) >= 4
    ensures StdDecryptDir(e, compact, key, enc).Ok? ==> CountDots(compact) == 4
  {
    CutCountsDots(compact, 4);
    if StdDecryptDir(e, compact, key, enc).Ok? {
      var tag := Cut(compact, 4).value[4];
      Base64Url.NoDots([], tag);
      CountDotsAround(tag, []);
    }
  }

  // ---------------------------------------------------------------------------------------------
  // What a frame holds, and under which data it was sealed
  // ---------------------------------------------------------------------------------------------

  /** The bytes are the characters of the text. */
  ghost predicate AreBytesOf(bytes: seq<byte>, text: string) {
    |bytes| == |text| && forall i :: 0 <= i < |text| ==> bytes[i] == text[i] as int
  }

  lemma AsciiBytes(text: string)
    requires forall i :: 0 <= i < |text| ==> text[i] as int < 256
    ensures AreBytesOf(Ascii(text), text)
  {}

  /** A frame: header, no encrypted key, IV, and the sealed bytes with the last sixteen of them apart. */
  ghost predicate IsFrameOf(e: Env, enc: Enc, iv: seq<byte>, sealed: seq<byte>, text: string) {
    var parts, n := Split(text), |sealed| - 16;
    && |parts| == 5 && n >= 0
    && Base64Url.Decode(parts[0]) == Some(e.marshal(Header(Dir, enc))) && parts[1] == ""
    && Base64Url.Decode(parts[2]) == Some(iv)
    && Base64Url.Decode(parts[3]) == Some(sealed[..n]) && Base64Url.Decode(parts[4]) == Some(sealed[n..])
  }

  /** The text was sealed with the characters of its own first part as additional data. */
  ghost predicate SealsItsHeader(e: Env, seal: Sealer, plain: seq<byte>, key: seq<byte>,
                                 enc: Enc, iv: seq<byte>, text: string)
  {
    exists aad :: SealedUnder(e, seal, plain, key, enc, iv, text, aad)
  }

  ghost predicate SealedUnder(e: Env, seal: Sealer, plain: seq<byte>, key: seq<byte>,
                              enc: Enc, iv: seq<byte>, text: string, aad: seq<byte>)
  {
    && Split(text) != [] && AreBytesOf(aad, Split(text)[0])
    && seal(key, iv, plain, aad).Ok? && IsFrameOf(e, enc, iv, seal(key, iv, plain, aad).value, text)
  }

  lemma HeaderIsBytes(json: seq<byte>)
    ensures '.' !in Base64Url.Encode(json) && AreBytesOf(Ascii(Base64Url.Encode(json)), Base64Url.Encode(json))
  {
    Base64Url.NoDots(json, "");
    AsciiBytes(Base64Url.Encode(json));
  }

  lemma {:induction false} FrameIsFrame(e: Env, enc: Enc, iv: seq<byte>, sealed: seq<byte>)
    requires |sealed| >= 16
    ensures var header := Base64Url.Encode(e.marshal(Header(Dir, enc)));
            var text := Frame(header, iv, sealed, |sealed| - 16);
            IsFrameOf(e, enc, iv, sealed, text) && Split(text) == FrameParts(header, iv, sealed, |sealed| - 16)
  {
    var json, n := e.marshal(Header(Dir, enc)), |sealed| - 16;
    HeaderIsBytes(json);
    FrameSplits(Base64Url.Encode(json), iv, sealed, n);
    Base64Url.DecodeInvertsEncode(json);
    PartsOfFrame(Base64Url.Encode(json), iv, sealed, n);
  }

  lemma {:induction false} FramedTextSealsItsHeader(e: Env, seal: Sealer, plain: seq<byte>, key: seq<byte>,
                                                    enc: Enc, iv: seq<byte>)
    requires SealAndFrame(e, seal, plain, key, enc, iv).Ok?
    ensures SealsItsHeader(e, seal, plain, key, enc, iv, SealAndFrame(e, seal, plain, key, enc, iv).value)
  {
    var json := e.marshal(Header(Dir, enc));
    var aad := Ascii(Base64Url.Encode(json));
    HeaderIsBytes(json);
    FrameIsFrame(e, enc, iv, seal(key, iv, plain, aad).value);
    assert SealedUnder(e, seal, plain, key, enc, iv, SealAndFrame(e, seal, plain, key, enc, iv).value, aad);
  }

  /** The AEAD primitive of an algorithm, which accepts any key and nonce. */
  function Primitive(e: Env, enc: Enc): Sealer {
    (k, iv, x, aad) => Ok(e.seal(enc, k, iv, x, aad))
  }

  /** The algorithms, key lengths and nonce length for which the software mode seals. */
  predicate SoftwareSeals(enc: Enc, key: seq<byte>, iv: seq<byte>) {
    && |iv| == 12
    && match enc
       case A128GCM => |key| in {16, 24, 32}
       case A192GCM => |key| in {16, 24, 32}
       case A256GCM => |key| in {16, 24, 32}
       case SGD_SM4_GCM => |key| == 16
       case SGD_SM4_CCM => |key| == 16
       case _ => false
  }

  lemma {:induction false} SoftwareSealsExactly(e: Env, plain: seq<byte>, key: seq<byte>, enc: Enc,
                                                iv: seq<byte>, aad: seq<byte>)
    ensures var r := e.StdSeal(enc)(key, iv, plain, aad);
            (r.Ok? <==> SoftwareSeals(enc, key, iv)) && (r.Ok? ==> r == Primitive(e, enc)(key, iv, plain, aad))
  {
    var r, refused := e.StdSeal(enc)(key, iv, plain, aad), Refused(enc, key, iv);
    if StdDirEnc(enc) {
      assert r == e.AeadSeal(enc)(key, iv, plain, aad);
      assert refused.Some? ==> r == Err(refused.value);
    } else {
      assert r == Err(UnsupportedEnc);
    }
  }

  lemma {:induction false} SoftwareSealsItsHeader(e: Env, plain: seq<byte>, key: seq<byte>, enc: Enc, iv: seq<byte>)
    requires SealAndFrame(e, e.StdSeal(enc), plain, key, enc, iv).Ok?
    ensures SoftwareSeals(enc, key, iv)
    ensures SealsItsHeader(e, Primitive(e, enc), plain, key, enc, iv,
                           SealAndFrame(e, e.StdSeal(enc), plain, key, enc, iv).value)
  {
    var text := SealAndFrame(e, e.StdSeal(enc), plain, key, enc, iv).value;
    FramedTextSealsItsHeader(e, e.StdSeal(enc), plain, key, enc, iv);
    var aad :| SealedUnder(e, e.StdSeal(enc), plain, key, enc, iv, text, aad);
    SoftwareSealsExactly(e, plain, key, enc, iv, aad);
    assert SealedUnder(e, Primitive(e, enc), plain, key, enc, iv, text, aad);
  }

  /**
   What `EncryptJWE` hands out in `dir` mode was sealed under its own header: by the provider registered
   for the algorithm if there is one, and otherwise by the AEAD primitive.
   */
  lemma {:induction false} EncryptDirSealsItsHeader(e: Env, plain: seq<byte>, key: seq<byte>, enc: Enc, iv: seq<byte>)
    requires EncryptDir(e, plain, key, enc, iv).Ok?
    ensures var text, provider := EncryptDir(e, plain, key, enc, iv).value, e.encryptor(enc);
            if provider.Some? then SealsItsHeader(e, provider.value, plain, key, enc, iv, text)
            else SoftwareSeals(enc, key, iv) && SealsItsHeader(e, Primitive(e, enc), plain, key, enc, iv, text)
  {
    if e.encryptor(enc).Some? {
      FramedTextSealsItsHeader(e, e.encryptor(enc).value, plain, key, enc, iv);
    } else {
      SoftwareSealsItsHeader(e, plain, key, enc, iv);
    }
  }

  lemma BytesDetermine(bytes: seq<byte>, a: string, b: string)
    requires AreBytesOf(bytes, a) && AreBytesOf(bytes, b)
    ensures a == b
  {
    forall i | 0 <= i < |a| ensures a[i] == b[i] {
      assert a[i] as int == bytes[i] == b[i] as int;
    }
  }

  lemma {:induction false} SplitCountsDots(s: string)
    ensures |Split(s)| == CountDots(s) + 1
    decreases |s|
  {
    FirstDotSplits(s);
    if FirstDot(s) >= 0 {
      SplitCountsDots(s[FirstDot(s) + 1..]);
    }
  }

  /** Two dots: the text is handed back as it came.  Neither two nor four: it is refused. */
  lemma {:induction false} DecryptCountsDots(e: Env, compact: string, key: seq<byte>)
    ensures DecryptJWE(e, compact, key) == Ok(PassedThrough(compact)) <==> CountDots(compact) == 2
    ensures CountDots(compact) != 2 && CountDots(compact) != 4 ==> DecryptJWE(e, compact, key) == Err(BadCompact)
  {
    SplitCountsDots(compact);
  }

  lemma {:induction false} DotsOfParts(header: string, rest: seq<string>)
    requires rest != []
    ensures CountDots(Compact([header] + rest)) == CountDots(header) + 1 + CountDots(Compact(rest))
  {
    CompactCons(header, rest);
    DotsAdd(header, "." + Compact(rest));
    assert header + "." + Compact(rest) == header + ("." + Compact(rest));
    assert ("." + Compact(rest))[1..] == Compact(rest);
  }

  lemma {:induction false} DotsAdd(a: string, b: string)
    ensures CountDots(a + b) == CountDots(a) + CountDots(b)
  {
    if a == [] {
      assert a + b == b;
    } else {
      DotsAdd(a[1..], b);
      assert (a + b)[1..] == a[1..] + b;
    }
  }

  lemma {:induction false} DotInside(s: string)
    requires '.' in s
    ensures CountDots(s) > 0
  {
    if s[0] != '.' {
      DotInside(s[1..]);
    }
  }

  lemma {:induction false} PartsHaveNoDots(s: string)
    ensures forall i :: 0 <= i < |Split(s)| ==> '.' !in Split(s)[i]
    decreases |s|
  {
    FirstDotIsFirst(s);
    var i := FirstDot(s);
    if i >= 0 {
      PartsHaveNoDots(s[i + 1..]);
      assert Split(s) == [s[..i]] + Split(s[i + 1..]);
    }
  }

  /** The parts after the header: no encrypted key, the IV, and the sealed bytes in two pieces. */
  ghost predicate IsTailOf(rest: seq<string>, iv: seq<byte>, sealed: seq<byte>) {
    && |rest| == 4 && rest[0] == "" && (forall i :: 0 <= i < 4 ==> '.' !in rest[i])
    && Base64Url.Decode(rest[1]) == Some(iv)
    && Base64Url.Decode(rest[2]).Some? && Base64Url.Decode(rest[3]).Some?
    && Base64Url.Decode(rest[2]).value + Base64Url.Decode(rest[3]).value == sealed
  }

  /** Five parts are opened, under the header in front of them, by the opener of the algorithm that header names. */
  lemma {:induction false} DecryptOpens(e: Env, key: seq<byte>, header: string, rest: seq<string>,
                                        iv: seq<byte>, sealed: seq<byte>)
    requires '.' !in header && IsTailOf(rest, iv, sealed)
    ensures var r := DecryptJWE(e, Compact([header] + rest), key);
            r.Ok? ==> exists enc :: e.OpenPath(enc)(key, iv, sealed, Ascii(header)).Ok?
  {
    var parts := [header] + rest;
    SplitInvertsCompact(parts);
    var json := Base64Url.Decode(header);
    if json.Some? && e.unmarshal(json.value).Some? && e.unmarshal(json.value).value.alg == Dir {
      var enc := e.unmarshal(json.value).value.enc;
      OpenPartsOf(e.OpenPath(enc), key, parts, iv, Base64Url.Decode(rest[2]).value, Base64Url.Decode(rest[3]).value);
      assert e.decryptor(enc).None? ==> e.OpenPath(enc) == e.StdOpen(enc);
    }
  }

  /**
   The header is authenticated: if no opener accepts these sealed bytes under other additional data than
   the characters of the header, the text with any other first part never decrypts.
   */
  lemma {:induction false} ReplacedHeaderNeverDecrypts(e: Env, key: seq<byte>, enc: Enc, iv: seq<byte>,
                                                       sealed: seq<byte>, text: string, aad: seq<byte>, other: string)
    requires IsFrameOf(e, enc, iv, sealed, text) && AreBytesOf(aad, Split(text)[0]) && other != Split(text)[0]
    requires forall i :: 0 <= i < |other| ==> other[i] as int < 256
    requires forall enc', aad' :: aad' != aad ==> e.OpenPath(enc')(key, iv, sealed, aad').Err?
    ensures DecryptJWE(e, Compact([other] + Split(text)[1..]), key).Err?
  {
    var rest, n := Split(text)[1..], |sealed| - 16;
    PartsHaveNoDots(text);
    assert sealed[..n] + sealed[n..] == sealed;
    assert IsTailOf(rest, iv, sealed);
    if '.' in other {
      DotInside(other);
      DotsOfParts(other, rest);
      SplitInvertsCompact(rest);
      SplitCountsDots(Compact(rest));
      DecryptCountsDots(e, Compact([other] + rest), key);
    } else {
      AsciiBytes(other);
      if Ascii(other) == aad {
        BytesDetermine(aad, other, Split(text)[0]);
      }
      DecryptOpens(e, key, other, rest, iv, sealed);
    }
  }

  // ---------------------------------------------------------------------------------------------
  // The default registry
  // ---------------------------------------------------------------------------------------------

  predicate IsCbc(enc: Enc) {
    enc == A128CBC_HS256 || enc == A192CBC_HS384 || enc == A256CBC_HS512
  }

  /** The providers registered at start-up: GCM by the AEAD wrappers, CBC by the buffer code; CCM has none. */
  ghost predicate DefaultRegistry(e: Env, p: CbcContent.Primitives) {
    forall enc ::
      if IsCbc(enc) then
        && e.encryptor(enc).Some? && e.decryptor(enc).Some?
        && (forall k, iv, x, aad :: e.encryptor(enc).value(k, iv, x, aad) == CbcContent.Seal(p, enc, k, iv, x, aad))
        && (forall k, iv, x, aad :: e.decryptor(enc).value(k, iv, x, aad) == CbcContent.Open(p, enc, k, iv, x, aad))
      else if StdDirEnc(enc) && enc != SGD_SM4_CCM then
        && e.encryptor(enc).Some? && e.decryptor(enc).Some?
        && (forall k, iv, x, aad :: e.encryptor(enc).value(k, iv, x, aad) == e.AeadSeal(enc)(k, iv, x, aad))
        && (forall k, iv, x, aad :: e.decryptor(enc).value(k, iv, x, aad) == e.AeadOpen(enc)(k, iv, x, aad))
      else e.encryptor(enc).None? && e.decryptor(enc).None?
  }

  ghost predicate LawfulAead(e: Env) {
    forall enc, k, iv, x, aad :: Refused(enc, k, iv).None? ==>
      e.open(enc, k, iv, e.seal(enc, k, iv, x, aad), aad) == Some(x)
  }

  /** With the default providers every algorithm opens what it seals. */
  lemma {:induction false} DefaultRegistryOpensWhatItSeals(e: Env, p: CbcContent.Primitives, enc: Enc)
    requires DefaultRegistry(e, p) && p.Lawful() && LawfulAead(e)
    ensures e.OpensWhatItSeals(enc)
  {
    forall k, iv, x, aad | e.SealPath(enc)(k, iv, x, aad).Ok?
      ensures e.OpenPath(enc)(k, iv, e.SealPath(enc)(k, iv, x, aad).value, aad) == Ok(x)
    {
      if IsCbc(enc) {
        CbcContent.OpenInvertsSeal(p, enc, k, iv, x, aad);
      }
    }
  }

  /** In `dir` mode the CBC algorithms never encrypt: the framing draws a 12-byte IV and they want a whole block. */
  lemma {:induction false} CbcNeverEncryptsInDirMode(e: Env, p: CbcContent.Primitives, plain: seq<byte>, key: seq<byte>,
                                                     enc: Enc, iv: seq<byte>)
    requires DefaultRegistry(e, p) && p.Lawful() && IsCbc(enc) && |iv| == NONCE_SIZE
    ensures EncryptDir(e, plain, key, enc, iv).Err?
  {
    CbcContent.SealSucceeds(p, enc, key, iv, plain, Ascii(Base64Url.Encode(e.marshal(Header(Dir, enc)))));
  }

  // ---------------------------------------------------------------------------------------------
  // Where decryption does not return
  // ---------------------------------------------------------------------------------------------

  /** The parts hold base64url, with an empty encrypted key, and an IV that is not a nonce. */
  predicate HasWrongNonce(parts: seq<string>)
    requires |parts| == 5
  {
    var iv := Base64Url.Decode(parts[2]);
    && parts[1] == "" && iv.Some? && |iv.value| != NONCE_SIZE
    && Base64Url.Decode(parts[3]).Some? && Base64Url.Decode(parts[4]).Some?
  }

  lemma AeadOpenPanicsExactly(e: Env, enc: Enc, key: seq<byte>, iv: seq<byte>, sealed: seq<byte>, aad: seq<byte>)
    ensures e.AeadOpen(enc)(key, iv, sealed, aad) == Err(Panic) <==>
              IsAesGcm(enc) && IsAesKey(key) && |iv| != NONCE_SIZE
  {
    var r, refused := e.AeadOpen(enc)(key, iv, sealed, aad), Refused(enc, key, iv);
    if refused.Some? {
      assert r == Err(refused.value);
    } else {
      assert r.Ok? || r == Err(TagMismatch);
    }
  }

  /** Reaching the opener with an IV that makes it panic is the only way. */
  lemma OpenPartsPanicsExactly(open: Sealer, panics: bool, key: seq<byte>, parts: seq<string>)
    requires |parts| == 5
    requires forall iv, sealed, aad :: open(key, iv, sealed, aad) == Err(Panic) <==> panics && |iv| != NONCE_SIZE
    ensures OpenParts(open, key, parts) == Err(Panic) <==> panics && HasWrongNonce(parts)
  {
    if parts[1] == "" {
      var iv, cipher, tag := Base64Url.Decode(parts[2]), Base64Url.Decode(parts[3]), Base64Url.Decode(parts[4]);
      if iv.Some? && cipher.Some? && tag.Some? {
        assert open(key, iv.value, cipher.value + tag.value, Ascii(parts[0])) == Err(Panic) <==>
               panics && |iv.value| != NONCE_SIZE;
      }
    }
  }

  lemma ProviderPanicsExactly(e: Env, p: CbcContent.Primitives, key: seq<byte>, parts: seq<string>, enc: Enc)
    requires DefaultRegistry(e, p) && |parts| == 5 && e.decryptor(enc).Some?
    ensures OpenParts(e.decryptor(enc).value, key, parts) == Err(Panic) <==>
              IsAesGcm(enc) && IsAesKey(key) && HasWrongNonce(parts)
  {
    forall iv, sealed, aad
      ensures e.decryptor(enc).value(key, iv, sealed, aad) == Err(Panic) <==>
                IsAesGcm(enc) && IsAesKey(key) && |iv| != NONCE_SIZE
    {
      if IsCbc(enc) {
        assert e.decryptor(enc).value(key, iv, sealed, aad) == CbcContent.Open(p, enc, key, iv, sealed, aad);
      } else {
        AeadOpenPanicsExactly(e, enc, key, iv, sealed, aad);
      }
    }
    OpenPartsPanicsExactly(e.decryptor(enc).value, IsAesGcm(enc) && IsAesKey(key), key, parts);
  }

  lemma SoftwareNeverPanics(e: Env, p: CbcContent.Primitives, compact: string, key: seq<byte>, enc: Enc)
    requires DefaultRegistry(e, p) && e.decryptor(enc).None?
    ensures StdDecryptDir(e, compact, key, enc) != Err(Panic)
  {
    CutCountsDots(compact, 4);
    if Cut(compact, 4).Some? {
      forall iv, sealed, aad ensures e.StdOpen(enc)(key, iv, sealed, aad) != Err(Panic) {
        AeadOpenPanicsExactly(e, enc, key, iv, sealed, aad);
      }
      OpenPartsPanicsExactly(e.StdOpen(enc), false, key, Cut(compact, 4).value);
    }
  }

  /**
   With the default providers decryption panics exactly for AES-GCM, under a key of an AES length, on a
   text whose decoded IV is not 12 bytes long.
   */
  lemma {:induction false} DecryptPanicsExactly(e: Env, p: CbcContent.Primitives, compact: string, key: seq<byte>)
    requires DefaultRegistry(e, p)
    ensures var parts := Split(compact);
            DecryptJWE(e, compact, key) == Err(Panic) <==>
              && |parts| == 5 && HasWrongNonce(parts) && IsAesKey(key)
              && var json := Base64Url.Decode(parts[0]);
                 json.Some? && exists enc :: IsAesGcm(enc) && e.unmarshal(json.value) == Some(Header(Dir, enc))
  {
    var parts := Split(compact);
    if |parts| == 5 {
      var json := Base64Url.Decode(parts[0]);
      if json.Some? && e.unmarshal(json.value).Some? && e.unmarshal(json.value).value.alg == Dir {
        var enc := e.unmarshal(json.value).value.enc;
        assert e.unmarshal(json.value) == Some(Header(Dir, enc));
        if e.decryptor(enc).Some? {
          ProviderPanicsExactly(e, p, key, parts, enc);
        } else {
          SoftwareNeverPanics(e, p, compact, key, enc);
        }
      }
    }
  }

  /** A frame with any such IV is such a text, whatever it seals. */
  lemma {:induction false} WrongNoncePanics(e: Env, p: CbcContent.Primitives, key: seq<byte>, enc: Enc,
                                            iv: seq<byte>, sealed: seq<byte>, cut: nat)
    requires DefaultRegistry(e, p) && e.ReadsItsHeaders() && IsAesGcm(enc) && IsAesKey(key)
    requires |iv| != NONCE_SIZE && cut <= |sealed|
    ensures DecryptJWE(e, Frame(Base64Url.Encode(e.marshal(Header(Dir, enc))), iv, sealed, cut), key) == Err(Panic)
  {
    var json := e.marshal(Header(Dir, enc));
    var header := Base64Url.Encode(json);
    Base64Url.NoDots(json, "");
    Base64Url.DecodeInvertsEncode(json);
    Base64Url.DecodeInvertsEncode(iv);
    Base64Url.DecodeInvertsEncode(sealed[..cut]);
    Base64Url.DecodeInvertsEncode(sealed[cut..]);
    FrameSplits(header, iv, sealed, cut);
    DecryptPanicsExactly(e, p, Frame(header, iv, sealed, cut), key);
  }
}
