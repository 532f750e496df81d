/** Bytes and the little-endian integer encodings that numpy reads from a WAV file. */
module Bytes {

  type byte = b: int | 0 <= b < 256

  /** 256 to the power n: the number of values an n-byte field can hold. */
  function Pow256(n: nat): (r: nat)
    ensures r >= 1
  {
    if n == 0 then 1 else 256 * Pow256(n - 1)
  }

  /** Half of Pow256(n): the first value whose n-byte two's-complement reading is negative. */
  function HalfRange(n: nat): (r: int)
    requires n > 0
    ensures r > 0 && 2 * r == Pow256(n)
  {
    128 * Pow256(n - 1)
  }

  /** The unsigned integer whose little-endian encoding is s (s[0] is least significant). */
  function LeUnsigned(s: seq<byte>): (r: nat)
    ensures r < Pow256(|s|)
  {
    if s == [] then 0 else s[0] + 256 * LeUnsigned(s[1..])
  }

  /** The n-byte little-endian encoding of v, keeping the low n bytes. */
  function LeEncode(v: nat, n: nat): (s: seq<byte>)
    ensures |s| == n
  {
    if n == 0 then [] else [v % 256] + LeEncode(v / 256, n - 1)
  }

  /** Reading back an encoding gives the value, when the value fits in n bytes. */
  lemma {:induction false} LeUnsignedOfEncode(v: nat, n: nat)
    requires v < Pow256(n)
    ensures LeUnsigned(LeEncode(v, n)) == v
  {
    if n > 0 {
      var s := LeEncode(v, n);
      assert s[1..] == LeEncode(v / 256, n - 1);
      LeUnsignedOfEncode(v / 256, n - 1);
    }
  }

  /** Encoding the value of a byte sequence gives the sequence back. */
  lemma {:induction false} LeEncodeOfUnsigned(s: seq<byte>)
    ensures LeEncode(LeUnsigned(s), |s|) == s
  {
    if s != [] {
      var v := LeUnsigned(s);
      assert v % 256 == s[0] && v / 256 == LeUnsigned(s[1..]);
      LeEncodeOfUnsigned(s[1..]);
    }
  }

  /** Zero and the modulus itself are both multiples of the modulus. */
  lemma MultipleOfModulus(m: nat)
    requires m > 0
    ensures 0 % m == 0 && m % m == 0
  {
  }

  /** Two's-complement reading of an unsigned n-byte value (numpy's int16, int32, int64). */
  function ToSigned(u: nat, n: nat): (x: int)
    requires 0 < n && u < Pow256(n)
    ensures -HalfRange(n) <= x < HalfRange(n)
    ensures x >= 0 <==> u < HalfRange(n)
    ensures (u - x) % Pow256(n) == 0
  {
    MultipleOfModulus(Pow256(n));
    if u < HalfRange(n) then u else u - Pow256(n)
  }

  /** Two's-complement encoding of a value that fits in n bytes; ToSigned undoes it. */
  function ToUnsigned(x: int, n: nat): (u: nat)
    requires 0 < n && -HalfRange(n) <= x < HalfRange(n)
    ensures u < Pow256(n)
    ensures ToSigned(u, n) == x
  {
    if x < 0 then x + Pow256(n) else x
  }

  /** ToUnsigned undoes ToSigned: the two readings are a bijection. */
  lemma SignedRoundTrip(u: nat, n: nat)
    requires 0 < n && u < Pow256(n)
    ensures ToUnsigned(ToSigned(u, n), n) == u
  {
  }
}
