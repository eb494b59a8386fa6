/**
 * Bytes and the fixed-width integer arithmetic of C# that the byte-level
 * code relies on: 32-bit `int` shifts, signed 16- and 64-bit reads, and
 * the XOR used by WebSocket masking.
 */
module Bytes {

  /** A C# `byte`. */
  type byte = b: int | 0 <= b < 256

  const INT32_MAX: int := 0x7FFF_FFFF
  const INT32_MIN: int := -0x8000_0000
  const INT64_MAX: int := 0x7FFF_FFFF_FFFF_FFFF

  /** Whether `x` fits a C# `int`. */
  predicate IsInt32(x: int) { INT32_MIN <= x <= INT32_MAX }

  /** `256` to the power `k`. */
  function Pow256(k: nat): (r: nat)
    ensures r >= 1
  {
    if k == 0 then 1 else 256 * Pow256(k - 1)
  }

  /**
   * C# `x >> n` on an `int`, for the whole-byte shift counts the code uses:
   * only the low five bits of the count are used (so `>> 40` is `>> 8`),
   * and the shift is arithmetic (Dafny's `/` by a positive divisor rounds
   * towards minus infinity, as an arithmetic shift does).
   */
  function ShiftRightInt32(x: int, n: nat): (r: int)
    requires IsInt32(x) && n % 8 == 0
  {
    x / Pow256((n % 32) / 8)
  }

  /** C# unchecked `int` arithmetic: reduce `x` to the signed 32-bit range. */
  function WrapInt32(x: int): (r: int)
    ensures IsInt32(r)
    ensures IsInt32(x) ==> r == x
  {
    var m := x % 0x1_0000_0000;
    if m <= INT32_MAX then m else m - 0x1_0000_0000
  }

  /**
   * C# `x << n` on an `int`, for whole-byte shift counts: the count is
   * taken modulo 32 and the bits shifted out of the 32-bit word are lost.
   */
  function ShiftLeftInt32(x: int, n: nat): (r: int)
    requires IsInt32(x) && n % 8 == 0
    ensures IsInt32(r)
  {
    WrapInt32(x * Pow256((n % 32) / 8))
  }

  lemma Pow256Values()
    ensures Pow256(1) == 0x100 && Pow256(2) == 0x1_0000 && Pow256(3) == 0x100_0000
    ensures Pow256(4) == 0x1_0000_0000 && Pow256(8) == 0x1_0000_0000_0000_0000
  {
  }

  /** `x & 0xFF` for a non-negative `x`, i.e. the low byte. */
  function LowByte(x: int): (r: byte)
  {
    x % 256
  }

  /** `2` to the power `n`. */
  function Pow2(n: nat): (r: nat)
    ensures r >= 1
  {
    if n == 0 then 1 else 2 * Pow2(n - 1)
  }

  /** Bitwise exclusive or of the low `n` bits of `a` and `b`. */
  function XorBits(a: nat, b: nat, n: nat): (r: nat)
    ensures r < Pow2(n)
  {
    if n == 0 then 0
    else (if a % 2 == b % 2 then 0 else 1) + 2 * XorBits(a / 2, b / 2, n - 1)
  }

  /** C# `a ^ b` on two bytes. */
  function Xor(a: byte, b: byte): (r: byte)
  {
    XorBits(a, b, 8)
  }

  lemma {:induction false} XorBitsInvolution(a: nat, k: nat, n: nat)
    requires a < Pow2(n)
    ensures XorBits(XorBits(a, k, n), k, n) == a
  {
    if n > 0 {
      var x := XorBits(a, k, n);
      assert x / 2 == XorBits(a / 2, k / 2, n - 1);
      assert x % 2 == (if a % 2 == k % 2 then 0 else 1);
      XorBitsInvolution(a / 2, k / 2, n - 1);
    }
  }

  /** Masking a byte twice with the same key byte restores it. */
  lemma XorInvolution(a: byte, k: byte)
    ensures Xor(Xor(a, k), k) == a
  {
    XorBitsInvolution(a, k, 8);
  }

  /** The unsigned value of a big-endian byte sequence. */
  function BigEndian(s: seq<byte>): (r: nat)
    ensures r < Pow256(|s|)
  {
    if s == [] then 0 else BigEndian(s[..|s| - 1]) * 256 + s[|s| - 1]
  }

  /** `BitConverter.ToInt16`: a 16-bit value read as two's complement. */
  function Int16(u: nat): (r: int)
    requires u < 0x1_0000
  {
    if u < 0x8000 then u else u - 0x1_0000
  }

  /** `BitConverter.ToInt64`: a 64-bit value read as two's complement. */
  function Int64(u: nat): (r: int)
    requires u < 0x1_0000_0000_0000_0000
  {
    if u <= INT64_MAX then u else u - 0x1_0000_0000_0000_0000
  }

  /** C# unchecked `long` arithmetic: reduce `x` to the signed 64-bit range. */
  function WrapInt64(x: int): (r: int)
    ensures -INT64_MAX - 1 <= r <= INT64_MAX
    ensures -INT64_MAX - 1 <= x <= INT64_MAX ==> r == x
  {
    var m := x % 0x1_0000_0000_0000_0000;
    if m <= INT64_MAX then m else m - 0x1_0000_0000_0000_0000
  }

  /** Two bytes read big-endian. */
  lemma BigEndian2(s: seq<byte>)
    requires |s| == 2
    ensures BigEndian(s) == (s[0] as int) * 256 + (s[1] as int)
  {
    assert s[..1][..0] == [];
  }

  /** The sequence of the `n` bytes of `x`, most significant first. */
  function ToBigEndian(x: nat, n: nat): (r: seq<byte>)
    ensures |r| == n
  {
    if n == 0 then [] else ToBigEndian(x / 256, n - 1) + [x % 256]
  }

  lemma {:induction false} BigEndianRoundTrip(x: nat, n: nat)
    requires x < Pow256(n)
    ensures BigEndian(ToBigEndian(x, n)) == x
  {
    if n > 0 {
      var r := ToBigEndian(x, n);
      var hi := ToBigEndian(x / 256, n - 1);
      LastByteSplit(r, hi, x % 256);
      DivideBelow(x, Pow256(n - 1));
      BigEndianRoundTrip(x / 256, n - 1);
      Recombine(BigEndian(r), BigEndian(hi), x % 256, x);
    }
  }

  lemma Recombine(b: nat, q: nat, last: nat, x: nat)
    requires b == q * 256 + last && q == x / 256 && last == x % 256
    ensures b == x
  {
  }

  /** The big-endian value of a sequence that ends in `last`. */
  lemma LastByteSplit(r: seq<byte>, hi: seq<byte>, last: byte)
    requires r == hi + [last]
    ensures BigEndian(r) == BigEndian(hi) * 256 + last as int
  {
    assert r[..|r| - 1] == hi;
  }

  lemma DivideBelow(x: nat, p: nat)
    requires x < 256 * p
    ensures x / 256 < p && x == (x / 256) * 256 + x % 256
  {
  }

  lemma ShiftByte(hi: int, p: int, lo: int, last: int)
    ensures (hi * p + lo) * 256 + last == hi * (p * 256) + (lo * 256 + last)
  {
  }

  /** A big-endian number splits at any byte into a high and a low part. */
  lemma {:induction false} BigEndianSplit(s: seq<byte>, k: nat)
    requires k <= |s|
    ensures BigEndian(s) == BigEndian(s[..k]) * Pow256(|s| - k) + BigEndian(s[k..])
    decreases |s|
  {
    if |s| == k {
      assert s[k..] == [];
      assert s[..k] == s;
    } else {
      var t := s[..|s| - 1];
      var last := s[|s| - 1];
      BigEndianSplit(t, k);
      assert t[..k] == s[..k];
      assert s[k..][..|s| - k - 1] == t[k..];
      var p := Pow256(|t| - k);
      assert BigEndian(s) == BigEndian(t) * 256 + last;
      assert BigEndian(s[k..]) == BigEndian(t[k..]) * 256 + last;
      assert Pow256(|s| - k) == 256 * p;
      ShiftByte(BigEndian(s[..k]), p, BigEndian(t[k..]), last);
    }
  }
}
