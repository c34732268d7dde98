/**
 AES-CBC with PKCS#7 padding and a truncated HMAC tag, over byte buffers.

 The block cipher and the MAC are parameters.  CBC chaining, the padding of section 6.3 of RFC 5652,
 and the length field of section 5.2.2.1 of RFC 7518 are written out.  As in the code, the MAC gets no
 key, so nothing here is a claim about that section's tag.
 */
module CbcContent {
  import opened Basics
  import opened Bytes

  /** `encrypt` and `decrypt` take a key and one block; `mac` takes the algorithm and the data. */
  datatype Primitives = Primitives(
    encrypt: (seq<byte>, seq<byte>) -> seq<byte>,
    decrypt: (seq<byte>, seq<byte>) -> seq<byte>,
    mac: (Enc, seq<byte>) -> seq<byte>)
  {
    /** A keyed permutation of the 16-byte blocks. */
    ghost predicate Permutes() {
      forall k, b :: |b| == BLOCK ==>
        && |encrypt(k, b)| == BLOCK && |decrypt(k, b)| == BLOCK
        && decrypt(k, encrypt(k, b)) == b && encrypt(k, decrypt(k, b)) == b
    }

    ghost predicate FullMac() {
      forall e, d :: |mac(e, d)| == match e case A192CBC_HS384 => 48 case A256CBC_HS512 => 64 case _ => 32
    }

    ghost predicate Lawful() {
      Permutes() && FullMac()
    }
  }

  const BLOCK: nat := 16

  datatype Parameters = Parameters(encKeySize: nat, tagSize: nat, macKeySize: nat)

  function CbcParameters(enc: Enc): Option<Parameters> {
    match enc
    case A128CBC_HS256 => Some(Parameters(16, 16, 16))
    case A192CBC_HS384 => Some(Parameters(24, 24, 24))
    case A256CBC_HS512 => Some(Parameters(32, 32, 32))
    case _ => None
  }

  // ---------------------------------------------------------------------------------------------
  // Chaining
  // ---------------------------------------------------------------------------------------------

  function Xor(a: seq<byte>, b: seq<byte>): (r: seq<byte>)
    requires |a| == |b|
    ensures |r| == |a|
  {
    seq(|a|, i requires 0 <= i < |a| => XorByte(a[i], b[i]))
  }

  function CbcEncrypt(p: Primitives, key: seq<byte>, iv: seq<byte>, plain: seq<byte>): seq<byte>
    decreases |plain|
  {
    if |plain| < BLOCK || |iv| != BLOCK then []
    else
      var c := p.encrypt(key, Xor(plain[..BLOCK], iv));
      c + CbcEncrypt(p, key, c, plain[BLOCK..])
  }

  function CbcDecrypt(p: Primitives, key: seq<byte>, iv: seq<byte>, cipher: seq<byte>): seq<byte>
    decreases |cipher|
  {
    if |cipher| < BLOCK || |iv| != BLOCK || |p.decrypt(key, cipher[..BLOCK])| != BLOCK then []
    else Xor(p.decrypt(key, cipher[..BLOCK]), iv) + CbcDecrypt(p, key, cipher[..BLOCK], cipher[BLOCK..])
  }

  lemma XorCancels(a: seq<byte>, b: seq<byte>)
    requires |a| == |b|
    ensures Xor(Xor(a, b), b) == a
  {
    forall i | 0 <= i < |a| ensures Xor(Xor(a, b), b)[i] == a[i] {
      XorByteCancels(a[i], b[i]);
    }
  }

  lemma {:induction false} CbcDecryptInverts(p: Primitives, key: seq<byte>, iv: seq<byte>, plain: seq<byte>)
    requires p.Permutes() && |iv| == BLOCK && |plain| % BLOCK == 0
    ensures |CbcEncrypt(p, key, iv, plain)| == |plain|
    ensures CbcDecrypt(p, key, iv, CbcEncrypt(p, key, iv, plain)) == plain
    decreases |plain|
  {
    if plain != [] {
      var x := Xor(plain[..BLOCK], iv);
      var c := p.encrypt(key, x);
      CbcDecryptInverts(p, key, c, plain[BLOCK..]);
      XorCancels(plain[..BLOCK], iv);
      var rest := CbcEncrypt(p, key, c, plain[BLOCK..]);
      assert (c + rest)[..BLOCK] == c && (c + rest)[BLOCK..] == rest;
      assert plain[..BLOCK] + plain[BLOCK..] == plain;
    }
  }

  lemma {:induction false} CbcEncryptInverts(p: Primitives, key: seq<byte>, iv: seq<byte>, cipher: seq<byte>)
    requires p.Permutes() && |iv| == BLOCK && |cipher| % BLOCK == 0
    ensures |CbcDecrypt(p, key, iv, cipher)| == |cipher|
    ensures CbcEncrypt(p, key, iv, CbcDecrypt(p, key, iv, cipher)) == cipher
    decreases |cipher|
  {
    if cipher != [] {
      var c := cipher[..BLOCK];
      var x := Xor(p.decrypt(key, c), iv);
      CbcEncryptInverts(p, key, c, cipher[BLOCK..]);
      XorCancels(p.decrypt(key, c), iv);
      var rest := CbcDecrypt(p, key, c, cipher[BLOCK..]);
      assert (x + rest)[..BLOCK] == x && (x + rest)[BLOCK..] == rest;
      assert c + cipher[BLOCK..] == cipher;
    }
  }

  // ---------------------------------------------------------------------------------------------
  // Padding
  // ---------------------------------------------------------------------------------------------

  function PadLength(n: nat): (k: nat)
    ensures 1 <= k <= BLOCK && (n + k) % BLOCK == 0
  {
    BLOCK - n % BLOCK
  }

  function Pad(plain: seq<byte>): (r: seq<byte>)
    ensures |r| % BLOCK == 0 && |r| > 0
  {
    var k := PadLength(|plain|);
    plain + seq(k, i => k)
  }

  /** `None` when the last byte is no padding length or the padding bytes differ from it. */
  function Unpad(padded: seq<byte>): Option<seq<byte>> {
    if padded == [] then Some([])
    else
      var k := padded[|padded| - 1];
      if k == 0 || k > BLOCK || k > |padded| then None
      else if forall i :: |padded| - k <= i < |padded| ==> padded[i] == k then Some(padded[..|padded| - k])
      else None
  }

  lemma {:induction false} UnpadInvertsPad(plain: seq<byte>)
    ensures Unpad(Pad(plain)) == Some(plain)
  {
    var k := PadLength(|plain|);
    var padded := Pad(plain);
    assert padded[|padded| - 1] == k;
    assert padded[..|padded| - k] == plain;
  }

  /** Only the canonical padding is accepted. */
  lemma {:induction false} PadInvertsUnpad(padded: seq<byte>)
    requires |padded| % BLOCK == 0 && padded != [] && Unpad(padded).Some?
    ensures Pad(Unpad(padded).value) == padded
  {
    var k := padded[|padded| - 1];
    var plain := Unpad(padded).value;
    assert |plain| == |padded| - k;
    assert PadLength(|plain|) == k;
    assert padded == padded[..|padded| - k] + padded[|padded| - k..];
  }

  // ---------------------------------------------------------------------------------------------
  // The length field
  // ---------------------------------------------------------------------------------------------

  /** The AL field: a bit length as eight bytes, most significant first. */
  function LengthField(bits: nat): (al: seq<byte>)
    ensures |al| == 8
  {
    seq(8, i requires 0 <= i < 8 => ShiftedByte(bits, 7 - i))
  }

  /** The bytes written so far have the value of the number shifted right by the bytes still to come. */
  lemma {:induction false} LengthPrefix(bits: nat, n: nat)
    requires n <= 8 && ShiftRight(bits, 8) == 0
    ensures BigEndian(LengthField(bits)[..n]) == ShiftRight(bits, 8 - n)
  {
    if n > 0 {
      LengthPrefix(bits, n - 1);
      var al := LengthField(bits);
      assert al[..n][..n - 1] == al[..n - 1];
      assert al[n - 1] == ShiftedByte(bits, 8 - n);
      assert ShiftRight(bits, 8 - n + 1) == ShiftRight(bits, 8 - n) / 256;
    }
  }

  function Pow256(k: nat): (r: nat)
    ensures r > 0
  {
    if k == 0 then 1 else 256 * Pow256(k - 1)
  }

  lemma {:induction false} ShiftRightBound(n: nat, k: nat, j: nat)
    requires n < Pow256(k) && j <= k
    ensures ShiftRight(n, j) < Pow256(k - j)
  {
    if j > 0 {
      ShiftRightBound(n, k, j - 1);
    }
  }

  /** The length field decodes to the bit length it was made from. */
  lemma {:induction false} LengthFieldDecodes(bits: nat)
    requires bits < 0x1_0000_0000_0000_0000
    ensures BigEndian(LengthField(bits)) == bits
  {
    assert Pow256(8) == 0x1_0000_0000_0000_0000;
    ShiftRightBound(bits, 8, 8);
    LengthPrefix(bits, 8);
    assert LengthField(bits)[..8] == LengthField(bits);
  }

  // ---------------------------------------------------------------------------------------------
  // Sealing and opening
  // ---------------------------------------------------------------------------------------------

  function Check(enc: Enc, key: seq<byte>, iv: seq<byte>): Result<Parameters> {
    match CbcParameters(enc)
    case None => Err(UnsupportedEnc)
    case Some(q) =>
      if |key| != q.encKeySize + q.macKeySize then Err(BadKeyLength)
      else if |iv| != BLOCK then Err(BadIVLength)
      else Ok(q)
  }

  /** What the tag is computed over. */
  function MacInput(iv: seq<byte>, cipher: seq<byte>, aad: seq<byte>): seq<byte> {
    aad + iv + cipher + LengthField(|aad| * 8)
  }

  /** The length field makes the concatenation unambiguous: no two different triples share a MAC input. */
  lemma {:induction false} MacInputIsUnambiguous(iv: seq<byte>, cipher: seq<byte>, aad: seq<byte>,
                                                 iv': seq<byte>, cipher': seq<byte>, aad': seq<byte>)
    requires |iv| == BLOCK == |iv'|
    requires |aad| * 8 < 0x1_0000_0000_0000_0000 && |aad'| * 8 < 0x1_0000_0000_0000_0000
    requires MacInput(iv, cipher, aad) == MacInput(iv', cipher', aad')
    ensures iv == iv' && cipher == cipher' && aad == aad'
  {
    var m := MacInput(iv, cipher, aad);
    var n, a := |m| - 8, |aad|;
    assert m[n..] == LengthField(|aad| * 8);
    assert m[n..] == LengthField(|aad'| * 8);
    LengthFieldDecodes(|aad| * 8);
    LengthFieldDecodes(|aad'| * 8);
    assert |aad'| == a;
    assert m[..a] == aad && m[a..a + BLOCK] == iv && m[a + BLOCK..n] == cipher;
    assert m[..a] == aad' && m[a..a + BLOCK] == iv' && m[a + BLOCK..n] == cipher';
  }

  function Tag(p: Primitives, enc: Enc, tagSize: nat, iv: seq<byte>, cipher: seq<byte>, aad: seq<byte>): seq<byte> {
    var full := p.mac(enc, MacInput(iv, cipher, aad));
    if |full| < tagSize then full else full[..tagSize]
  }

  function Seal(p: Primitives, enc: Enc, key: seq<byte>, iv: seq<byte>, plain: seq<byte>, aad: seq<byte>)
    : Result<seq<byte>>
  {
    match Check(enc, key, iv)
    case Err(e) => Err(e)
    case Ok(q) =>
      var cipher := CbcEncrypt(p, key[q.macKeySize..], iv, Pad(plain));
      Ok(cipher + Tag(p, enc, q.tagSize, iv, cipher, aad))
  }

  function Open(p: Primitives, enc: Enc, key: seq<byte>, iv: seq<byte>, sealed: seq<byte>, aad: seq<byte>)
    : Result<seq<byte>>
  {
    match Check(enc, key, iv)
    case Err(e) => Err(e)
    case Ok(q) =>
      if |sealed| < q.tagSize then Err(TooShort)
      else
        var cipher, tag := sealed[..|sealed| - q.tagSize], sealed[|sealed| - q.tagSize..];
        if tag != Tag(p, enc, q.tagSize, iv, cipher, aad) then Err(TagMismatch)
        else if |cipher| % BLOCK != 0 then Err(NotBlockAligned)
        else
          var plain := Unpad(CbcDecrypt(p, key[q.macKeySize..], iv, cipher));
          if plain.Some? then Ok(plain.value) else Err(BadPadding)
  }

  /** What is sealed opens to itself, for every algorithm, key, IV, length and additional data. */
  lemma {:induction false} OpenInvertsSeal(p: Primitives, enc: Enc, key: seq<byte>, iv: seq<byte>,
                                           plain: seq<byte>, aad: seq<byte>)
    requires p.Lawful() && Seal(p, enc, key, iv, plain, aad).Ok?
    ensures Open(p, enc, key, iv, Seal(p, enc, key, iv, plain, aad).value, aad) == Ok(plain)
  {
    var q := CbcParameters(enc).value;
    var cipher := CbcEncrypt(p, key[q.macKeySize..], iv, Pad(plain));
    var tag := Tag(p, enc, q.tagSize, iv, cipher, aad);
    CbcDecryptInverts(p, key[q.macKeySize..], iv, Pad(plain));
    UnpadInvertsPad(plain);
    var sealed := cipher + tag;
    assert |tag| == q.tagSize;
    assert sealed[..|sealed| - q.tagSize] == cipher && sealed[|sealed| - q.tagSize..] == tag;
  }

  /** Sealing is refused for exactly three reasons, all visible before the call. */
  lemma SealSucceeds(p: Primitives, enc: Enc, key: seq<byte>, iv: seq<byte>, plain: seq<byte>, aad: seq<byte>)
    requires p.Lawful()
    ensures var q := CbcParameters(enc);
            Seal(p, enc, key, iv, plain, aad).Ok? <==>
              q.Some? && |key| == q.value.encKeySize + q.value.macKeySize && |iv| == BLOCK
    ensures var r := Seal(p, enc, key, iv, plain, aad);
            r.Ok? ==> |r.value| == |plain| + PadLength(|plain|) + CbcParameters(enc).value.tagSize
  {
    var q := Check(enc, key, iv);
    if q.Ok? {
      CbcDecryptInverts(p, key[q.value.macKeySize..], iv, Pad(plain));
    }
  }

  lemma DecryptedPlaintextReseals(p: Primitives, key: seq<byte>, iv: seq<byte>, cipher: seq<byte>)
    requires p.Permutes() && |iv| == BLOCK && |cipher| % BLOCK == 0 && cipher != []
    requires Unpad(CbcDecrypt(p, key, iv, cipher)).Some?
    ensures CbcEncrypt(p, key, iv, Pad(Unpad(CbcDecrypt(p, key, iv, cipher)).value)) == cipher
  {
    CbcEncryptInverts(p, key, iv, cipher);
    PadInvertsUnpad(CbcDecrypt(p, key, iv, cipher));
  }

  /**
   What opens is what sealing the result yields, except that a bare tag over the empty ciphertext also
   opens, to the empty plaintext, which sealing would pad to a whole block.
   */
  lemma {:induction false} SealInvertsOpen(p: Primitives, enc: Enc, key: seq<byte>, iv: seq<byte>,
                                           sealed: seq<byte>, aad: seq<byte>)
    requires p.Lawful() && Open(p, enc, key, iv, sealed, aad).Ok?
    ensures Seal(p, enc, key, iv, Open(p, enc, key, iv, sealed, aad).value, aad) == Ok(sealed) <==>
              |sealed| > CbcParameters(enc).value.tagSize
  {
    var q := CbcParameters(enc).value;
    var cipher, tag := sealed[..|sealed| - q.tagSize], sealed[|sealed| - q.tagSize..];
    var plain := Open(p, enc, key, iv, sealed, aad).value;
    if cipher != [] {
      DecryptedPlaintextReseals(p, key[q.macKeySize..], iv, cipher);
      ResealedCipher(p, enc, key, iv, plain, aad, cipher);
      assert cipher + tag == sealed;
    } else {
      SealSucceeds(p, enc, key, iv, plain, aad);
    }
  }

  lemma ResealedCipher(p: Primitives, enc: Enc, key: seq<byte>, iv: seq<byte>, plain: seq<byte>,
                       aad: seq<byte>, cipher: seq<byte>)
    requires Check(enc, key, iv).Ok?
    requires CbcEncrypt(p, key[CbcParameters(enc).value.macKeySize..], iv, Pad(plain)) == cipher
    ensures Seal(p, enc, key, iv, plain, aad) ==
            Ok(cipher + Tag(p, enc, CbcParameters(enc).value.tagSize, iv, cipher, aad))
  {}

  /** The value that opens and is never the result of sealing: the tag over the empty ciphertext, on its own. */
  lemma BareTagOpens(p: Primitives, enc: Enc, key: seq<byte>, iv: seq<byte>, aad: seq<byte>)
    requires p.Lawful() && Check(enc, key, iv).Ok?
    ensures var tag := Tag(p, enc, CbcParameters(enc).value.tagSize, iv, [], aad);
            && Open(p, enc, key, iv, tag, aad) == Ok([])
            && Seal(p, enc, key, iv, [], aad) != Ok(tag)
  {
    var tag := Tag(p, enc, CbcParameters(enc).value.tagSize, iv, [], aad);
    assert tag[..0] == [] && tag[0..] == tag;
    SealSucceeds(p, enc, key, iv, [], aad);
  }

  // ---------------------------------------------------------------------------------------------
  // The bytes of a sealed value
  // ---------------------------------------------------------------------------------------------

  /** Padding as in section 6.3 of RFC 5652: to the next multiple of 16, with bytes that give their own number. */
  ghost predicate IsPadding(plain: seq<byte>, padded: seq<byte>) {
    && |padded| % 16 == 0 && |plain| < |padded| <= |plain| + 16
    && padded[..|plain|] == plain
    && forall i :: |plain| <= i < |padded| ==> padded[i] == |padded| - |plain|
  }

  lemma PadIsPadding(plain: seq<byte>)
    ensures IsPadding(plain, Pad(plain))
  {}

  /** The block before block `i` of a ciphertext: the IV before the first one. */
  function Previous(iv: seq<byte>, cipher: seq<byte>, i: nat): (b: seq<byte>)
    requires |iv| == 16 && 16 * i + 16 <= |cipher|
    ensures |b| == 16
  {
    if i == 0 then iv else cipher[16 * i - 16..16 * i]
  }

  ghost predicate IsBlockXor(x: seq<byte>, a: seq<byte>, b: seq<byte>) {
    |x| == |a| == |b| == 16 && forall j :: 0 <= j < 16 ==> IsExclusiveOr(x[j], a[j], b[j])
  }

  /** Block `i`, deciphered, is the plaintext block combined digit by digit with the block before. */
  ghost predicate ChainsAt(p: Primitives, key: seq<byte>, iv: seq<byte>, plain: seq<byte>, cipher: seq<byte>, i: nat)
    requires |iv| == 16 && |plain| == |cipher| && 16 * i + 16 <= |cipher|
  {
    IsBlockXor(p.decrypt(key, cipher[16 * i..16 * i + 16]), plain[16 * i..16 * i + 16], Previous(iv, cipher, i))
  }

  lemma XorIsBlockXor(a: seq<byte>, b: seq<byte>)
    requires |a| == |b| == 16
    ensures IsBlockXor(Xor(a, b), a, b)
  {
    forall j | 0 <= j < 16 ensures IsExclusiveOr(Xor(a, b)[j], a[j], b[j]) {
      XorByteDigits(a[j], b[j], Xor(a, b)[j]);
    }
  }

  lemma Unchain(p: Primitives, key: seq<byte>, iv: seq<byte>, plain: seq<byte>)
    requires p.Permutes() && |iv| == 16 && |plain| % 16 == 0 && |plain| >= 16
    ensures var c := p.encrypt(key, Xor(plain[..16], iv));
            CbcEncrypt(p, key, iv, plain) == c + CbcEncrypt(p, key, c, plain[16..]) && |c| == 16
  {}

  lemma ChainsFurther(p: Primitives, key: seq<byte>, iv: seq<byte>, plain: seq<byte>,
                      c: seq<byte>, rest: seq<byte>, i: nat)
    requires |iv| == |c| == 16 && |plain| == 16 + |rest| && 16 * i + 16 <= |rest|
    requires ChainsAt(p, key, c, plain[16..], rest, i)
    ensures ChainsAt(p, key, iv, plain, c + rest, i + 1)
  {
    var n := 16 * i + 16;
    assert (c + rest)[n..n + 16] == rest[16 * i..n];
    assert plain[n..n + 16] == plain[16..][16 * i..n];
    assert Previous(iv, c + rest, i + 1) == Previous(c, rest, i);
  }

  lemma {:induction false} EveryBlockChains(p: Primitives, key: seq<byte>, iv: seq<byte>, plain: seq<byte>, i: nat)
    requires p.Permutes() && |iv| == 16 && |plain| % 16 == 0 && 16 * i + 16 <= |plain|
    ensures |CbcEncrypt(p, key, iv, plain)| == |plain|
    ensures ChainsAt(p, key, iv, plain, CbcEncrypt(p, key, iv, plain), i)
    decreases i
  {
    CbcDecryptInverts(p, key, iv, plain);
    Unchain(p, key, iv, plain);
    var x := Xor(plain[..16], iv);
    var c := p.encrypt(key, x);
    var rest := CbcEncrypt(p, key, c, plain[16..]);
    if i == 0 {
      assert (c + rest)[0..16] == c && plain[0..16] == plain[..16];
      XorIsBlockXor(plain[..16], iv);
    } else {
      EveryBlockChains(p, key, c, plain[16..], i - 1);
      ChainsFurther(p, key, iv, plain, c, rest, i - 1);
    }
  }

  /**
   A sealed value byte by byte: the first half of the key is the MAC's, the second enciphers the padded
   plaintext block by block, and the tag is the front of the MAC, half as long as the key.
   */
  ghost predicate SealedForm(p: Primitives, enc: Enc, key: seq<byte>, iv: seq<byte>,
                             plain: seq<byte>, aad: seq<byte>, sealed: seq<byte>)
  {
    exists padded :: SealedFrom(p, enc, key, iv, plain, padded, aad, sealed)
  }

  ghost predicate SealedFrom(p: Primitives, enc: Enc, key: seq<byte>, iv: seq<byte>,
                             plain: seq<byte>, padded: seq<byte>, aad: seq<byte>, sealed: seq<byte>)
  {
    var n, half := |padded|, |key| / 2;
    && IsPadding(plain, padded) && |sealed| == n + half && |iv| == 16
    && (forall i :: 0 <= i < n / 16 ==> ChainsAt(p, key[half..], iv, padded, sealed[..n], i))
    && var mac := p.mac(enc, aad + iv + sealed[..n] + LengthField(|aad| * 8));
       half <= |mac| && sealed[n..] == mac[..half]
  }

  /** The key length of an algorithm, twice the length of its tag. */
  predicate IsKeyFor(enc: Enc, key: seq<byte>) {
    match enc
    case A128CBC_HS256 => |key| == 32
    case A192CBC_HS384 => |key| == 48
    case A256CBC_HS512 => |key| == 64
    case _ => false
  }

  lemma {:induction false} SealHasItsForm(p: Primitives, enc: Enc, key: seq<byte>, iv: seq<byte>,
                                          plain: seq<byte>, aad: seq<byte>)
    requires p.Lawful()
    ensures var r := Seal(p, enc, key, iv, plain, aad);
            && (r.Ok? <==> IsKeyFor(enc, key) && |iv| == 16)
            && (r.Ok? ==> SealedForm(p, enc, key, iv, plain, aad, r.value))
  {
    var r := Seal(p, enc, key, iv, plain, aad);
    if r.Ok? {
      var padded, half := Pad(plain), |key| / 2;
      var cipher := CbcEncrypt(p, key[half..], iv, padded);
      PadIsPadding(plain);
      CbcDecryptInverts(p, key[half..], iv, padded);
      ResealedCipher(p, enc, key, iv, plain, aad, cipher);
      forall i | 0 <= i < |padded| / 16 ensures ChainsAt(p, key[half..], iv, padded, cipher, i) {
        EveryBlockChains(p, key[half..], iv, padded, i);
      }
      AssembledForm(p, enc, key, iv, plain, padded, aad, cipher);
    }
  }

  lemma AssembledForm(p: Primitives, enc: Enc, key: seq<byte>, iv: seq<byte>,
                      plain: seq<byte>, padded: seq<byte>, aad: seq<byte>, cipher: seq<byte>)
    requires p.FullMac() && IsKeyFor(enc, key) && |iv| == 16 && IsPadding(plain, padded) && |cipher| == |padded|
    requires forall i :: 0 <= i < |padded| / 16 ==> ChainsAt(p, key[|key| / 2..], iv, padded, cipher, i)
    ensures SealedForm(p, enc, key, iv, plain, aad, cipher + Tag(p, enc, |key| / 2, iv, cipher, aad))
  {
    var sealed := cipher + Tag(p, enc, |key| / 2, iv, cipher, aad);
    assert sealed[..|padded|] == cipher && sealed[|padded|..] == Tag(p, enc, |key| / 2, iv, cipher, aad);
    assert SealedFrom(p, enc, key, iv, plain, padded, aad, sealed);
  }

  /** The tag that a sealed value would need under these parameters, for the ciphertext it carries. */
  function DueTag(p: Primitives, enc: Enc, key: seq<byte>, iv: seq<byte>, sealed: seq<byte>, aad: seq<byte>): seq<byte>
    requires p.FullMac() && IsKeyFor(enc, key) && |sealed| >= |key| / 2
  {
    p.mac(enc, aad + iv + sealed[..|sealed| - |key| / 2] + LengthField(|aad| * 8))[..|key| / 2]
  }

  /** Every way of refusing a value, in the order in which the code looks. */
  lemma {:induction false} OpenRefusesExactly(p: Primitives, enc: Enc, key: seq<byte>, iv: seq<byte>,
                                              sealed: seq<byte>, aad: seq<byte>)
    requires p.Lawful() && IsKeyFor(enc, key) && |iv| == 16
    ensures var r, half := Open(p, enc, key, iv, sealed, aad), |key| / 2;
            && (r == Err(TooShort) <==> |sealed| < half)
            && (|sealed| >= half ==>
                  var tagged := sealed[|sealed| - half..] == DueTag(p, enc, key, iv, sealed, aad);
                  && (r == Err(TagMismatch) <==> !tagged)
                  && (r == Err(NotBlockAligned) <==> tagged && (|sealed| - half) % 16 != 0)
                  && (r == Err(BadPadding) <==>
                        tagged && |sealed| > half && (|sealed| - half) % 16 == 0
                        && forall plain :: Seal(p, enc, key, iv, plain, aad) != Ok(sealed))
                  && (r.Ok? || r.error == TagMismatch || r.error == NotBlockAligned || r.error == BadPadding))
  {
    var r, half := Open(p, enc, key, iv, sealed, aad), |key| / 2;
    OpenLooksInOrder(p, enc, key, iv, sealed, aad);
    if r.Ok? && |sealed| > half {
      SealInvertsOpen(p, enc, key, iv, sealed, aad);
    } else if r.Err? {
      forall plain | Seal(p, enc, key, iv, plain, aad) == Ok(sealed) ensures false {
        OpenInvertsSeal(p, enc, key, iv, plain, aad);
      }
    }
  }

  lemma OpenLooksInOrder(p: Primitives, enc: Enc, key: seq<byte>, iv: seq<byte>, sealed: seq<byte>, aad: seq<byte>)
    requires p.FullMac() && IsKeyFor(enc, key) && |iv| == 16
    ensures var r, half := Open(p, enc, key, iv, sealed, aad), |key| / 2;
            if |sealed| < half then r == Err(TooShort)
            else if sealed[|sealed| - half..] != DueTag(p, enc, key, iv, sealed, aad) then r == Err(TagMismatch)
            else if (|sealed| - half) % 16 != 0 then r == Err(NotBlockAligned)
            else (r.Ok? || r == Err(BadPadding)) && (|sealed| == half ==> r.Ok?)
  {
    var half := |key| / 2;
    assert CbcParameters(enc) == Some(Parameters(half, half, half));
    if |sealed| >= half {
      DueTagIsTag(p, enc, key, iv, sealed, aad);
      if |sealed| == half {
        assert sealed[..|sealed| - half] == [] && CbcDecrypt(p, key[half..], iv, []) == [];
      }
    }
  }

  lemma DueTagIsTag(p: Primitives, enc: Enc, key: seq<byte>, iv: seq<byte>, sealed: seq<byte>, aad: seq<byte>)
    requires p.FullMac() && IsKeyFor(enc, key) && |sealed| >= |key| / 2
    ensures Tag(p, enc, |key| / 2, iv, sealed[..|sealed| - |key| / 2], aad) == DueTag(p, enc, key, iv, sealed, aad)
  {}

  /**
   A sealed value is bound to its IV and its additional data: under others it is refused as a tag mismatch,
   unless the MAC collides on two inputs that are certainly different.
   */
  lemma {:induction false} OtherDataIsRefused(p: Primitives, enc: Enc, key: seq<byte>, iv: seq<byte>, plain: seq<byte>,
                                              aad: seq<byte>, iv': seq<byte>, aad': seq<byte>)
    requires p.Lawful() && Seal(p, enc, key, iv, plain, aad).Ok? && |iv'| == 16 && (iv, aad) != (iv', aad')
    requires |aad| * 8 < 0x1_0000_0000_0000_0000 && |aad'| * 8 < 0x1_0000_0000_0000_0000
    ensures var sealed, half := Seal(p, enc, key, iv, plain, aad).value, |key| / 2;
            && IsKeyFor(enc, key) && |sealed| >= half
            && var cipher := sealed[..|sealed| - half];
               var was, now := MacInput(iv, cipher, aad), MacInput(iv', cipher, aad');
               && was != now
               && (Open(p, enc, key, iv', sealed, aad') == Err(TagMismatch) <==>
                     p.mac(enc, was)[..half] != p.mac(enc, now)[..half])
  {
    SealSucceeds(p, enc, key, iv, plain, aad);
    var sealed, half := Seal(p, enc, key, iv, plain, aad).value, |key| / 2;
    var cipher := sealed[..|sealed| - half];
    if MacInput(iv, cipher, aad) == MacInput(iv', cipher, aad') {
      MacInputIsUnambiguous(iv, cipher, aad, iv', cipher, aad');
    }
    OpenInvertsSeal(p, enc, key, iv, plain, aad);
    OpenRefusesExactly(p, enc, key, iv, sealed, aad);
    OpenRefusesExactly(p, enc, key, iv', sealed, aad');
  }

  // ---------------------------------------------------------------------------------------------
  // The buffer code
  // ---------------------------------------------------------------------------------------------

  method WriteLengthField(aad: seq<byte>) returns (al: array<byte>)
    ensures fresh(al) && al[..] == LengthField(|aad| * 8)
  {
    al := new byte[8];
    var l := |aad| * 8;
    al[0] := ShiftedByte(l, 7);
    al[1] := ShiftedByte(l, 6);
    al[2] := ShiftedByte(l, 5);
    al[3] := ShiftedByte(l, 4);
    al[4] := ShiftedByte(l, 3);
    al[5] := ShiftedByte(l, 2);
    al[6] := ShiftedByte(l, 1);
    al[7] := ShiftedByte(l, 0);
  }

  method CopyInto(dst: array<byte>, at: nat, src: seq<byte>)
    requires at + |src| <= dst.Length
    modifies dst
    ensures dst[..at] == old(dst[..at]) && dst[at..at + |src|] == src && dst[at + |src|..] == old(dst[at + |src|..])
  {
    forall i | 0 <= i < |src| {
      dst[at + i] := src[i];
    }
  }

  method PadBuffer(plain: seq<byte>) returns (padded: array<byte>)
    ensures fresh(padded) && padded[..] == Pad(plain) && IsPadding(plain, padded[..])
  {
    PadIsPadding(plain);
    var padLen := BLOCK - |plain| % BLOCK;
    padded := new byte[|plain| + padLen];
    CopyInto(padded, 0, plain);
    for i := |plain| to padded.Length
      invariant padded[..|plain|] == plain
      invariant forall j :: |plain| <= j < i ==> padded[j] == padLen
    {
      padded[i] := padLen;
    }
    assert padded[|plain|..] == seq(padLen, i => padLen);
  }

  method ComputeTag(p: Primitives, enc: Enc, tagSize: nat, iv: seq<byte>, cipher: seq<byte>, aad: seq<byte>)
    returns (tag: seq<byte>)
    requires p.FullMac() && CbcParameters(enc).Some? && tagSize == CbcParameters(enc).value.tagSize
    ensures tag == Tag(p, enc, tagSize, iv, cipher, aad) && |tag| == tagSize
  {
    var al := WriteLengthField(aad);
    var fullMac := p.mac(enc, aad + iv + cipher + al[..]);
    tag := fullMac[..tagSize];
  }

  method AESCBCEncrypt(p: Primitives, enc: Enc, key: seq<byte>, iv: seq<byte>, plain: seq<byte>, aad: seq<byte>)
    returns (r: Result<seq<byte>>)
    requires p.Lawful()
    ensures r == Seal(p, enc, key, iv, plain, aad)
    ensures r.Ok? ==> SealedForm(p, enc, key, iv, plain, aad, r.value)
    ensures r == Err(UnsupportedEnc) <==> enc !in {A128CBC_HS256, A192CBC_HS384, A256CBC_HS512}
    ensures r.Ok? <==> IsKeyFor(enc, key) && |iv| == 16
    ensures r == Err(BadIVLength) <==> IsKeyFor(enc, key) && |iv| != 16
  {
    SealHasItsForm(p, enc, key, iv, plain, aad);
    var params := CbcParameters(enc);
    if params.None? {
      return Err(UnsupportedEnc);
    }
    var q := params.value;
    if |key| != q.encKeySize + q.macKeySize {
      return Err(BadKeyLength);
    }
    if |iv| != BLOCK {
      return Err(BadIVLength);
    }
    var padded := PadBuffer(plain);
    var cipher := CbcEncrypt(p, key[q.macKeySize..], iv, padded[..]);
    var tag := ComputeTag(p, enc, q.tagSize, iv, cipher, aad);
    var result := new byte[|cipher| + |tag|];
    CopyInto(result, 0, cipher);
    CopyInto(result, |cipher|, tag);
    assert result[..] == cipher + tag;
    return Ok(result[..]);
  }

  method StripPadding(plain: seq<byte>) returns (r: Result<seq<byte>>)
    ensures r == if Unpad(plain).Some? then Ok(Unpad(plain).value) else Err(BadPadding)
  {
    if |plain| == 0 {
      return Ok(plain);
    }
    var padLen := plain[|plain| - 1];
    if padLen == 0 || padLen > BLOCK || padLen > |plain| {
      return Err(BadPadding);
    }
    for i := |plain| - padLen to |plain|
      invariant forall j :: |plain| - padLen <= j < i ==> plain[j] == padLen
    {
      if plain[i] != padLen {
        return Err(BadPadding);
      }
    }
    return Ok(plain[..|plain| - padLen]);
  }

  method AESCBCDecrypt(p: Primitives, enc: Enc, key: seq<byte>, iv: seq<byte>, sealed: seq<byte>, aad: seq<byte>)
    returns (r: Result<seq<byte>>)
    requires p.Lawful()
    ensures r == Open(p, enc, key, iv, sealed, aad)
  {
    var params := CbcParameters(enc);
    if params.None? {
      return Err(UnsupportedEnc);
    }
    var q := params.value;
    if |key| != q.encKeySize + q.macKeySize {
      return Err(BadKeyLength);
    }
    if |iv| != BLOCK {
      return Err(BadIVLength);
    }
    if |sealed| < q.tagSize {
      return Err(TooShort);
    }
    var tagOffset := |sealed| - q.tagSize;
    var cipher, receivedTag := sealed[..tagOffset], sealed[tagOffset..];
    var expectedTag := ComputeTag(p, enc, q.tagSize, iv, cipher, aad);
    if receivedTag != expectedTag {
      return Err(TagMismatch);
    }
    if |cipher| % BLOCK != 0 {
      return Err(NotBlockAligned);
    }
    r := StripPadding(CbcDecrypt(p, key[q.macKeySize..], iv, cipher));
  }
}
