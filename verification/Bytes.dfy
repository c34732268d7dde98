/** Bytes, results, and the names of the content-encryption algorithms. */
module Bytes {

  type byte = n: int | 0 <= n < 256

  /** `Panic` stands for a call that does not return. */
  datatype Error =
    | Panic | UnsupportedEnc | BadKeyLength | BadIVLength | TooShort | TagMismatch | NotBlockAligned | BadPadding
    | BadCompact | EncryptedKeyNotEmpty | BadBase64 | BadHeader | NoProvider

  datatype Result<+T> = Ok(value: T) | Err(error: Error)

  datatype Enc =
    | A128CBC_HS256 | A192CBC_HS384 | A256CBC_HS512
    | A128GCM | A192GCM | A256GCM | SGD_SM4_GCM | SGD_SM4_CCM
    | OtherEnc(name: string)

  function Pow2(n: nat): (r: nat)
    ensures r > 0
  {
    if n == 0 then 1 else 2 * Pow2(n - 1)
  }

  /** Exclusive or of the lowest `n` binary digits. */
  function XorBits(a: nat, b: nat, n: nat): (r: nat)
    ensures r < Pow2(n)
  {
    if n == 0 then 0 else (a % 2 + b % 2) % 2 + 2 * XorBits(a / 2, b / 2, n - 1)
  }

  function XorByte(a: byte, b: byte): byte {
    assert Pow2(8) == 256;
    XorBits(a, b, 8)
  }

  lemma DigitCancels(a: nat, b: nat, rest: nat)
    ensures var x := (a % 2 + b % 2) % 2 + 2 * rest;
            x / 2 == rest && (x % 2 + b % 2) % 2 == a % 2
  {}

  lemma {:induction false} XorBitsCancels(a: nat, b: nat, n: nat)
    requires a < Pow2(n)
    ensures XorBits(XorBits(a, b, n), b, n) == a
  {
    if n > 0 {
      var rest := XorBits(a / 2, b / 2, n - 1);
      DigitCancels(a, b, rest);
      XorBitsCancels(a / 2, b / 2, n - 1);
      assert XorBits(XorBits(a, b, n), b, n) == a % 2 + 2 * (a / 2);
    }
  }

  lemma XorByteCancels(a: byte, b: byte)
    ensures XorByte(XorByte(a, b), b) == a
  {
    assert Pow2(8) == 256;
    XorBitsCancels(a, b, 8);
  }

  /** Binary digit `k` of a number, counted from the lowest. */
  function Digit(n: nat, k: nat): nat {
    if k == 0 then n % 2 else Digit(n / 2, k - 1)
  }

  /** One byte is the exclusive or of two others: each digit is 1 iff exactly one of the two digits is. */
  ghost predicate IsExclusiveOr(x: byte, a: byte, b: byte) {
    forall k :: 0 <= k < 8 ==> (Digit(x, k) == 1 <==> (Digit(a, k) == 1) != (Digit(b, k) == 1))
  }

  lemma {:induction false} XorBitsDigit(a: nat, b: nat, n: nat, k: nat)
    requires k < n
    ensures Digit(XorBits(a, b, n), k) == 1 <==> (Digit(a, k) == 1) != (Digit(b, k) == 1)
  {
    var rest := XorBits(a / 2, b / 2, n - 1);
    DigitCancels(a, b, rest);
    if k > 0 {
      XorBitsDigit(a / 2, b / 2, n - 1, k - 1);
    }
  }

  lemma {:induction false} DigitsDetermine(x: nat, y: nat, n: nat)
    requires x < Pow2(n) && y < Pow2(n)
    requires forall k :: 0 <= k < n ==> (Digit(x, k) == 1 <==> Digit(y, k) == 1)
    ensures x == y
  {
    if n > 0 {
      assert Digit(x, 0) == 1 <==> Digit(y, 0) == 1;
      forall k | 0 <= k < n - 1 ensures Digit(x / 2, k) == 1 <==> Digit(y / 2, k) == 1 {
        assert Digit(x, k + 1) == 1 <==> Digit(y, k + 1) == 1;
      }
      DigitsDetermine(x / 2, y / 2, n - 1);
    }
  }

  /** `XorByte` is the exclusive or, and the only byte that is. */
  lemma {:induction false} XorByteDigits(a: byte, b: byte, x: byte)
    ensures IsExclusiveOr(x, a, b) <==> x == XorByte(a, b)
  {
    assert Pow2(8) == 256;
    forall k | 0 <= k < 8 ensures Digit(XorByte(a, b), k) == 1 <==> (Digit(a, k) == 1) != (Digit(b, k) == 1) {
      XorBitsDigit(a, b, 8, k);
    }
    if IsExclusiveOr(x, a, b) {
      DigitsDetermine(x, XorByte(a, b), 8);
    }
  }

  /** `n >> 8*k` for a non-negative number. */
  function ShiftRight(n: nat, k: nat): nat {
    if k == 0 then n else ShiftRight(n, k - 1) / 256
  }

  /** The truncating conversion `byte(n >> 8*k)`. */
  function ShiftedByte(n: nat, k: nat): byte {
    ShiftRight(n, k) % 256
  }

  /** The value of a big-endian byte string. */
  function BigEndian(s: seq<byte>): nat {
    if s == [] then 0 else 256 * BigEndian(s[..|s| - 1]) + s[|s| - 1]
  }
}
