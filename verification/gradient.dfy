/** The expression-level part of the gradient (Perlin-style) noise generator:
    the lattice hash, the gradient lookup in the permutation table, the quintic
    fade curve, linear interpolation, the dot product and one noise sample.
    Floating-point values are modelled as reals. */
module Gradient {
  import opened Bits

  /** An element of the permutation table (C# `byte`). */
  type Byte = b: int | 0 <= b < 256

  /** A 2D vector of floats. */
  datatype Vec = Vec(x: real, y: real)

  /** The four gradients, indexed by the low two bits of a table entry. */
  const Gradients: seq<Vec> := [Vec(1.0, 0.0), Vec(-1.0, 0.0), Vec(0.0, 1.0), Vec(0.0, -1.0)]

  const PrimeX: int := 1836311903
  const PrimeY: int := 2971215073
  const HashShift: int := 4807526976

  /** The lattice hash. `x * PrimeX` is an `int` product and wraps at 32 bits;
      `y * PrimeY + HashShift` is computed in `long` (PrimeY does not fit in
      `int`); the int operand is sign-extended, the two are XORed and the
      result is masked with 1023. Only the low ten bits of each operand
      survive. */
  function Hash(x: int, y: int): (v: nat)
    ensures v < 1024
    ensures v == BitXor((x * PrimeX) % 1024, (y * PrimeY + HashShift) % 1024)
  {
    var left := Bits64(Wrap32(x * PrimeX));
    var right := Bits64(y * PrimeY + HashShift);
    HashLowBits(left, right, x * PrimeX, y * PrimeY + HashShift);
    BitAnd(BitXor(left, right), 1023)
  }

  lemma HashLowBits(left: nat, right: nat, p: int, s: int)
    requires left == Bits64(Wrap32(p)) && right == Bits64(s)
    ensures BitAnd(BitXor(left, right), 1023) == BitXor(p % 1024, s % 1024)
    ensures BitXor(p % 1024, s % 1024) < 1024
  {
    assert Pow2(10) == 1024;
    BitAndLowMask(BitXor(left, right), 10);
    BitXorLowBits(left, right, 10);
    LowTenBitsKept(p);
    LowTenBitsKept(Wrap32(p));
    LowTenBitsKept(s);
    XorBelow(p % 1024, s % 1024, 10);
  }

  /** The hash repeats every 1024 lattice points along each axis, so the
      gradient lattice tiles the plane with period 1024. */
  lemma HashPeriodic(x: int, y: int)
    ensures Hash(x + 1024, y) == Hash(x, y)
    ensures Hash(x, y + 1024) == Hash(x, y)
  {
    ShiftedProduct(x, PrimeX, 0);
    ShiftedProduct(y, PrimeY, HashShift);
  }

  /** Adding 1024 to a factor leaves the product plus c unchanged modulo 1024. */
  lemma ShiftedProduct(a: int, k: int, c: int)
    ensures ((a + 1024) * k + c) % 1024 == (a * k + c) % 1024
  {
    assert (a + 1024) * k + c == (a * k + c) + 1024 * k;
  }

  /** The gradient at lattice point (x, y): the low two bits of the table entry
      selected by the hash pick one of the four unit axis vectors. The table
      must have at least 1024 entries for every hash to be a valid index. */
  function GetPseudoRandomGradientVector(table: seq<Byte>, x: int, y: int): (g: Vec)
    requires |table| >= 1024
    ensures g == Gradients[table[Hash(x, y)] % 4]
    ensures forall i :: 0 <= i < 4 ==> (g == Gradients[i] <==> table[Hash(x, y)] % 4 == i)
  {
    var entry := table[Hash(x, y)];
    BitAndLowMask(entry, 2);
    match BitAnd(entry, 3)
    case 0 => Vec(1.0, 0.0)
    case 1 => Vec(-1.0, 0.0)
    case 2 => Vec(0.0, 1.0)
    case _ => Vec(0.0, -1.0)
  }

  /** The quintic fade 6t^5 - 15t^4 + 10t^3. */
  function QunticCurve(t: real): (r: real)
    ensures t == 0.0 ==> r == 0.0
    ensures t == 1.0 ==> r == 1.0
    ensures 0.0 <= t <= 1.0 ==> 0.0 <= r <= 1.0
  {
    QuinticBounds(t);
    t * t * t * (t * (t * 6.0 - 15.0) + 10.0)
  }

  lemma QuinticBounds(t: real)
    ensures 0.0 <= t <= 1.0 ==> 0.0 <= t * t * t * (t * (t * 6.0 - 15.0) + 10.0) <= 1.0
  {
    if 0.0 <= t <= 1.0 {
      var u := 1.0 - t;
      var q := t * t * t * (t * (t * 6.0 - 15.0) + 10.0);
      var p := t * (t * 6.0 - 15.0) + 10.0;
      assert p == 6.0 * (t - 1.25) * (t - 1.25) + 0.625;
      MulNonneg(t - 1.25, t - 1.25);
      MulNonneg(t, t);
      MulNonneg(t * t, t);
      MulNonneg(t * t * t, p);
      var p' := 6.0 * t * t + 3.0 * t + 1.0;
      assert 1.0 - q == u * u * u * p';
      MulNonneg(u, u);
      MulNonneg(u * u, u);
      MulNonneg(u * u * u, p');
    }
  }

  lemma MulNonneg(a: real, b: real)
    requires (a >= 0.0 && b >= 0.0) || (a <= 0.0 && b <= 0.0)
    ensures a * b >= 0.0
  {
  }

  /** Linear interpolation from `a` (at t = 0) to `b` (at t = 1). */
  function Lerp(a: real, b: real, t: real): (r: real)
    ensures t == 0.0 ==> r == a
    ensures t == 1.0 ==> r == b
    ensures 0.0 <= t <= 1.0 && a <= b ==> a <= r <= b
    ensures 0.0 <= t <= 1.0 && b <= a ==> b <= r <= a
  {
    var r := a + (b - a) * t;
    LerpBounds(a, b, t, r);
    r
  }

  lemma LerpBounds(a: real, b: real, t: real, r: real)
    requires r == a + (b - a) * t
    ensures 0.0 <= t <= 1.0 && a <= b ==> a <= r <= b
    ensures 0.0 <= t <= 1.0 && b <= a ==> b <= r <= a
  {
    if 0.0 <= t <= 1.0 {
      if a <= b {
        MulNonneg(b - a, t);
        MulNonneg(b - a, 1.0 - t);
      } else {
        MulNonneg(a - b, t);
        MulNonneg(a - b, 1.0 - t);
      }
    }
  }

  /** The scalar product. Against one of the four gradients it selects one
      coordinate of `a`, possibly negated. */
  function Dot(a: Vec, b: Vec): (r: real)
    ensures b in Gradients ==> r == a.x || r == -a.x || r == a.y || r == -a.y
  {
    a.x * b.x + a.y * b.y
  }

  /** One sample of gradient noise at (fx, fy). */
  function NoisePerline(table: seq<Byte>, fx: real, fy: real): (r: real)
    requires |table| >= 1024
    ensures -1.0 <= r <= 1.0
    ensures fx == fx.Floor as real && fy == fy.Floor as real ==> r == 0.0
  {
    var left, top := fx.Floor, fy.Floor;
    var px, py := fx - left as real, fy - top as real;
    var topLeft := GetPseudoRandomGradientVector(table, left, top);
    var topRight := GetPseudoRandomGradientVector(table, left + 1, top);
    var bottomLeft := GetPseudoRandomGradientVector(table, left, top + 1);
    var bottomRight := GetPseudoRandomGradientVector(table, left + 1, top + 1);
    var tx1 := Dot(Vec(px, py), topLeft);
    var tx2 := Dot(Vec(px - 1.0, py), topRight);
    var bx1 := Dot(Vec(px, py - 1.0), bottomLeft);
    var bx2 := Dot(Vec(px - 1.0, py - 1.0), bottomRight);
    var sx, sy := QunticCurve(px), QunticCurve(py);
    Lerp(Lerp(tx1, tx2, sx), Lerp(bx1, bx2, sx), sy)
  }

  /** Gradient noise over a fixed permutation table, as a function of the
      sample point; every value lies in [-1, 1]. */
  function Sampler(table: seq<Byte>): (noise: (real, real) -> real)
    requires |table| >= 1024
    ensures forall fx, fy :: -1.0 <= noise(fx, fy) <= 1.0
  {
    (fx, fy) => NoisePerline(table, fx, fy)
  }

  /** The noise the map generator samples: gradient noise over the
      permutation table when the table is large enough for every hash to index
      it. A smaller table belongs to a map with fewer than 1024 cells, for
      which the source may index past the table; the model samples 0 there. */
  function TableNoise(table: seq<Byte>): (noise: (real, real) -> real)
    ensures |table| >= 1024 ==> noise == Sampler(table)
    ensures forall fx, fy :: -1.0 <= noise(fx, fy) <= 1.0
  {
    if |table| >= 1024 then Sampler(table) else (fx: real, fy: real) => 0.0
  }
}
