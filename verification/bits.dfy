/** Integer and bit-level arithmetic of the C# runtime, stated over unbounded
    integers: powers of two, the wrap-around of a 32-bit `int` product, the
    64-bit two's-complement pattern of a `long`, and bitwise AND / XOR on the
    non-negative integers that such patterns denote. */
module Bits {

  /** 2^k */
  function Pow2(k: nat): (r: nat)
    ensures r >= 1
  {
    if k == 0 then 1 else 2 * Pow2(k - 1)
  }

  const Two32: int := 0x1_0000_0000
  const Two64: int := 0x1_0000_0000_0000_0000

  /** The value C#'s unchecked 32-bit `int` arithmetic keeps of the exact
      result `v`: the unique int32 congruent to `v` modulo 2^32. */
  function Wrap32(v: int): (r: int)
    ensures -0x8000_0000 <= r < 0x8000_0000
    ensures (r - v) % Two32 == 0
  {
    (v + 0x8000_0000) % Two32 - 0x8000_0000
  }

  /** The 64 bits of the two's-complement representation of `v`, read as an
      unsigned number. Widening an `int` to `long` (sign extension) keeps the
      value, so the same function gives the pattern of a widened int32. */
  function Bits64(v: int): (r: nat)
    ensures r < Two64
    ensures (r - v) % Two64 == 0
  {
    v % Two64
  }

  /** Bitwise AND of two bit patterns. */
  function BitAnd(a: nat, b: nat): nat
    decreases a + b
  {
    if a == 0 || b == 0 then 0
    else 2 * BitAnd(a / 2, b / 2) + (if a % 2 == 1 && b % 2 == 1 then 1 else 0)
  }

  /** Bitwise XOR of two bit patterns. */
  function BitXor(a: nat, b: nat): nat
    decreases a + b
  {
    if a == 0 && b == 0 then 0
    else 2 * BitXor(a / 2, b / 2) + (if a % 2 != b % 2 then 1 else 0)
  }

  /** Quotient and remainder are determined by the division equation. */
  lemma DivModUnique(a: int, d: int, q: int, r: int)
    requires d > 0 && 0 <= r < d && a == d * q + r
    ensures a / d == q && a % d == r
  {
    var q', r' := a / d, a % d;
    assert d * (q - q') == r' - r;
    if q - q' >= 1 {
      MulAtLeast(d, q - q');
    } else if q' - q >= 1 {
      MulAtLeast(d, q' - q);
    }
  }

  lemma MulAtLeast(d: int, e: int)
    requires d > 0 && e >= 1
    ensures d * e >= d
  {
  }

  /** The lowest bit and the remaining bits of a remainder modulo 2m. */
  lemma ModDouble(a: nat, m: nat)
    requires m > 0
    ensures a % (2 * m) == 2 * ((a / 2) % m) + a % 2
    ensures (a % (2 * m)) / 2 == (a / 2) % m
    ensures (a % (2 * m)) % 2 == a % 2
  {
    var q, s := a / 2, (a / 2) / m;
    var t := q % m;
    assert q == m * s + t;
    assert a == (2 * m) * s + (2 * t + a % 2);
    DivModUnique(a, 2 * m, s, 2 * t + a % 2);
  }

  /** `a & (2^k - 1)` keeps the low k bits of `a`. */
  lemma {:induction false} BitAndLowMask(a: nat, k: nat)
    ensures BitAnd(a, Pow2(k) - 1) == a % Pow2(k)
  {
    if k > 0 && a > 0 {
      BitAndOddMask(a, k);
      BitAndLowMask(a / 2, k - 1);
      ModPow2Step(a, k);
    } else if k == 0 {
      assert Pow2(k) == 1;
    } else {
      DivModUnique(0, Pow2(k), 0, 0);
    }
  }

  /** ANDing with the mask 2^k - 1 keeps the lowest bit and ANDs the
      remaining bits with 2^(k-1) - 1. */
  lemma BitAndOddMask(a: nat, k: nat)
    requires a > 0 && k > 0
    ensures BitAnd(a, Pow2(k) - 1) == 2 * BitAnd(a / 2, Pow2(k - 1) - 1) + a % 2
  {
    var half := Pow2(k - 1);
    assert Pow2(k) - 1 == 2 * (half - 1) + 1;
    DivModUnique(Pow2(k) - 1, 2, half - 1, 1);
  }

  /** The remainder modulo 2^k splits into the lowest bit and the remainder
      of the other bits modulo 2^(k-1). */
  lemma ModPow2Step(a: nat, k: nat)
    requires k > 0
    ensures a % Pow2(k) == 2 * ((a / 2) % Pow2(k - 1)) + a % 2
  {
    ModDouble(a, Pow2(k - 1));
  }

  /** Taking the low k bits commutes with XOR. */
  lemma {:induction false} BitXorLowBits(a: nat, b: nat, k: nat)
    ensures BitXor(a, b) % Pow2(k) == BitXor(a % Pow2(k), b % Pow2(k))
    decreases k
  {
    if k > 0 {
      BitXorHalves(a, b);
      BitXorHalves(a % Pow2(k), b % Pow2(k));
      ModPow2Parts(a, k);
      ModPow2Parts(b, k);
      ModPow2Step(BitXor(a, b), k);
      BitXorLowBits(a / 2, b / 2, k - 1);
    }
  }

  /** The lowest bit of a XOR is the XOR of the lowest bits, and the other
      bits are the XOR of the other bits. */
  lemma BitXorHalves(a: nat, b: nat)
    ensures BitXor(a, b) == 2 * BitXor(a / 2, b / 2) + (if a % 2 != b % 2 then 1 else 0)
    ensures BitXor(a, b) / 2 == BitXor(a / 2, b / 2)
    ensures BitXor(a, b) % 2 == (if a % 2 != b % 2 then 1 else 0)
  {
    var e := if a % 2 != b % 2 then 1 else 0;
    DivModUnique(BitXor(a, b), 2, BitXor(a / 2, b / 2), e);
  }

  /** The lowest bit of a remainder modulo 2^k, and its other bits. */
  lemma ModPow2Parts(a: nat, k: nat)
    requires k > 0
    ensures (a % Pow2(k)) / 2 == (a / 2) % Pow2(k - 1)
    ensures (a % Pow2(k)) % 2 == a % 2
  {
    ModDouble(a, Pow2(k - 1));
  }

  /** XOR of two k-bit patterns is a k-bit pattern. */
  lemma XorBelow(a: nat, b: nat, k: nat)
    requires a < Pow2(k) && b < Pow2(k)
    ensures BitXor(a, b) < Pow2(k)
  {
    BitXorLowBits(a, b, k);
  }

  /** The low ten bits of a wrapped or two's-complement value are those of the
      exact value, because 1024 divides 2^32 and 2^64. */
  lemma LowTenBitsKept(v: int)
    ensures Wrap32(v) % 1024 == v % 1024
    ensures Bits64(v) % 1024 == v % 1024
  {
    var p, u := Wrap32(v), Bits64(v);
    var c, e := (p - v) / Two32, (u - v) / Two64;
    assert p == 1024 * (v / 1024 + 0x40_0000 * c) + v % 1024;
    DivModUnique(p, 1024, v / 1024 + 0x40_0000 * c, v % 1024);
    assert u == 1024 * (v / 1024 + 0x40_0000_0000_0000 * e) + v % 1024;
    DivModUnique(u, 1024, v / 1024 + 0x40_0000_0000_0000 * e, v % 1024);
  }

  /** count * size, accumulated by repeated addition: the value of a loop
      variable that starts at 0 and advances by `size`, `count` times. */
  function Steps(count: nat, size: nat): nat
  {
    if count == 0 then 0 else Steps(count - 1, size) + size
  }

  lemma {:induction false} StepsIsProduct(count: nat, size: nat)
    ensures Steps(count, size) == count * size
  {
    if count > 0 {
      StepsIsProduct(count - 1, size);
      assert count * size == (count - 1) * size + size;
    }
  }

  /** A loop variable that has advanced fewer times is at least one step behind. */
  lemma {:induction false} StepsMonotone(i: nat, j: nat, size: nat)
    requires i < j
    ensures Steps(i, size) + size <= Steps(j, size)
    decreases j
  {
    if i < j - 1 {
      StepsMonotone(i, j - 1, size);
    }
  }

  /** The cell (x, y) of a row-major grid of the given width sits at index
      Steps(y, width) + x, which is y * width + x, and is recovered from it by
      remainder and quotient. */
  lemma CellIndex(x: int, y: nat, width: nat)
    requires 0 <= x < width
    ensures Steps(y, width) + x == y * width + x
    ensures (y * width + x) % width == x && (y * width + x) / width == y
  {
    StepsIsProduct(y, width);
    DivModUnique(y * width + x, width, y, x);
  }

  /** A cell of a width by height grid has a row-major index below
      width * height. */
  lemma RowMajor(x: nat, y: nat, width: nat, height: nat)
    requires x < width && y < height
    ensures Steps(y, width) + x == y * width + x < width * height
  {
    CellIndex(x, y, width);
    StepsMonotone(y, height, width);
    StepsIsProduct(height, width);
  }
}
