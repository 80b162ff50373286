/**
  The public exponent of a JSON Web Key: bytes folded into a 64-bit signed integer by shift and
  or, against the Base64urlUInt value of section 2 of RFC 7518.
 */
module Exponent {
  import opened Prelude

  const TWO56 := 0x100_0000_0000_0000

  type Byte = b: int | 0 <= b < 256

  /** The unsigned big-endian value of a byte string. */
  function BigEndian(bytes: seq<Byte>): nat {
    if bytes == [] then 0 else BigEndian(bytes[..|bytes| - 1]) * 256 + bytes[|bytes| - 1]
  }

  function ShiftLeft8(word: nat): nat {
    word * 256 % TWO64
  }

  /** Bitwise or, bit by bit. */
  function Or(x: nat, y: nat): nat
    decreases x + y
  {
    if x == 0 && y == 0 then 0
    else (if x % 2 == 1 || y % 2 == 1 then 1 else 0) + 2 * Or(x / 2, y / 2)
  }

  /** Or into cleared low bits adds. */
  lemma {:induction false} OrIntoZeros(high: nat, low: nat, k: nat)
    requires low < Pow2(k)
    ensures Or(high * Pow2(k), low) == high * Pow2(k) + low
    decreases k
  {
    if k == 0 {
      OrZero(high);
    } else {
      var half := high * Pow2(k - 1);
      assert high * Pow2(k) == 2 * half;
      OrIntoZeros(high, low / 2, k - 1);
    }
  }

  lemma {:induction false} OrZero(x: nat)
    ensures Or(x, 0) == x
    decreases x
  {
    if x == 0 {
    } else {
      OrZero(x / 2);
    }
  }

  lemma {:induction false} Remainder(x: nat, d: nat, r: nat)
    requires x == d * TWO64 + r && r < TWO64
    ensures x % TWO64 == r
  {
  }

  lemma {:induction false} FoldStep(value: nat, b: Byte)
    ensures Or(ShiftLeft8(value % TWO64), b) == (value * 256 + b) % TWO64
  {
    var word := value % TWO64;
    var d, r := word / TWO56, word % TWO56;
    Remainder(word * 256, d, r * 256);
    Remainder(value * 256 + b, value / TWO64 * 256 + d, r * 256 + b);
    assert Pow2(8) == 256;
    OrIntoZeros(r, b, 8);
  }

  /** For byte strings of any length: the low 64 bits of the value, read as a signed integer. */
  method FoldExponent(bytes: seq<Byte>) returns (e: int)
    ensures e == Signed(BigEndian(bytes) % TWO64)
  {
    var word := 0;
    for i := 0 to |bytes|
      invariant word == BigEndian(bytes[..i]) % TWO64
    {
      assert bytes[..i + 1][..i] == bytes[..i];
      FoldStep(BigEndian(bytes[..i]), bytes[i]);
      word := Or(ShiftLeft8(word), bytes[i]);
    }
    assert bytes[..|bytes|] == bytes;
    return Signed(word);
  }

  /** The decoded exponent is the number the key states exactly when that is below 2^63. */
  lemma {:induction false} ExponentExactly(bytes: seq<Byte>)
    ensures Signed(BigEndian(bytes) % TWO64) == BigEndian(bytes) <==> BigEndian(bytes) < 0x8000_0000_0000_0000
  {
  }

  /** The shortest big-endian encoding; zero is one zero byte. */
  function Encode(value: nat): (bytes: seq<Byte>)
    ensures bytes != []
  {
    if value < 256 then [value] else Encode(value / 256) + [value % 256]
  }

  lemma {:induction false} DecodeEncode(value: nat)
    ensures BigEndian(Encode(value)) == value
    decreases value
  {
    if value < 256 {
      assert BigEndian([]) == 0;
    } else {
      DecodeEncode(value / 256);
      var bytes := Encode(value);
      assert bytes[..|bytes| - 1] == Encode(value / 256);
    }
  }

  /** The fold undoes the encoding of every exponent below 2^63. */
  lemma {:induction false} ExponentRoundTrip(value: nat)
    requires value < TWO63
    ensures Signed(BigEndian(Encode(value)) % TWO64) == value
  {
    DecodeEncode(value);
  }
}
