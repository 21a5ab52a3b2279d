/** The index arithmetic and the per-point formulas of the Diamond-Square
    generator, apart from the grid they act on: the points a call of
    `DiamondSquare` writes, the four neighbours `Diamond` averages (with its
    wrap-around rules), the random displacement and its spread, the seeds, and
    the number of calls the level/column/row loops make. Heights are reals. */
module Lattice {
  import opened Bits

  /** A cell [x, y] of the height map: column x in [0, w), row y in [0, h). */
  datatype Point = Point(x: int, y: int)

  /** The four cells a diamond step averages, in the source's order
      a (above), b (left), c (below), d (right). */
  datatype Rhombus = Rhombus(top: Point, left: Point, bottom: Point, right: Point)

  predicate InGrid(p: Point, w: int, h: int)
  {
    0 <= p.x < w && 0 <= p.y < h
  }

  function Min(a: real, b: real): real
  {
    if a <= b then a else b
  }

  function Max(a: real, b: real): real
  {
    if a <= b then b else a
  }

  /** The mean of four heights; it lies between their least and greatest. */
  function Average(a: real, b: real, c: real, d: real): (r: real)
    ensures Min(Min(a, b), Min(c, d)) <= r <= Max(Max(a, b), Max(c, d))
    ensures a == b == c == d ==> r == a
  {
    (a + b + c + d) / 4.0
  }

  /** z = l * 2 * roughness / h: the largest displacement at half-side l. */
  function Spread(l: int, roughness: real, h: int): (z: real)
    ensures h != 0 ==> z * h as real == (2 * l) as real * roughness
    ensures h > 0 && l >= 0 && roughness >= 0.0 ==> z >= 0.0
    ensures l == 0 ==> z == 0.0
  {
    if h == 0 then 0.0 else (2 * l) as real * roughness / h as real
  }

  /** A C# `UInt16`. */
  type UInt16 = n: int | 0 <= n < 0x1_0000

  /** A value `NextDouble` returns: a real in [0, 1). */
  type Draw = r: real | 0.0 <= r < 1.0

  /** The random offset `draw * (z - (-z)) + (-z)` added to an average. For a
      draw in [0, 1) it lies in [-z, z); with z = 0 it is 0. */
  function Displacement(draw: real, z: real): (d: real)
    ensures 0.0 <= draw < 1.0 && z > 0.0 ==> -z <= d < z
    ensures z == 0.0 ==> d == 0.0
    ensures draw == 0.0 ==> d == -z
  {
    Fraction(draw, z - (-z)) + (-z)
  }

  /** A seed height `draw * (RMax - RMin) + RMin`; for a draw in [0, 1) it lies
      in [lo, hi), and it is lo when the two bounds meet. */
  function SeedValue(draw: real, lo: real, hi: real): (v: real)
    ensures 0.0 <= draw < 1.0 && lo < hi ==> lo <= v < hi
    ensures lo == hi ==> v == lo
  {
    Fraction(draw, hi - lo) + lo
  }

  /** draw * span: a draw in [0, 1) scales a positive span to a part of it
      below the whole; an empty span, or a zero draw, gives 0. */
  function Fraction(draw: real, span: real): (p: real)
    ensures 0.0 <= draw < 1.0 && span > 0.0 ==> 0.0 <= p < span
    ensures span == 0.0 || draw == 0.0 ==> p == 0.0
  {
    if 0.0 <= draw < 1.0 && span > 0.0 then
      FractionBelow(draw, span);
      draw * span
    else
      draw * span
  }

  lemma FractionBelow(draw: real, span: real)
    requires 0.0 <= draw < 1.0 && span > 0.0
    ensures 0.0 <= draw * span < span
  {
    var rest := (1.0 - draw) * span;
    assert rest > 0.0;
    assert span - draw * span == rest;
  }

  /** The cells `DiamondSquare(lx, ly, rx, ry)` writes, in call order: the
      centre (by `Square`), then the left, right, bottom and top edge
      midpoints (by `Diamond`). l is the half side (rx - lx) / 2. */
  function Targets(lx: int, ly: int, rx: int, ry: int): (r: seq<Point>)
    ensures |r| == 5
    ensures 0 <= lx <= rx && 0 <= ly && ry - ly == rx - lx ==>
      forall k :: 0 <= k < 5 ==> lx <= r[k].x <= rx && ly <= r[k].y <= ry
  {
    var l := (rx - lx) / 2;
    [Point(lx + l, ly + l), Point(lx, ly + l), Point(rx, ry - l), Point(rx - l, ry), Point(lx + l, ly)]
  }

  /** The neighbours `Diamond` averages for target t at half side l. A
      neighbour that would fall off the grid is replaced by a wrap index:
      row h - l above, column w - l (right-tile column, `lrflag`) or h - l to
      the left, row l below, and column l to the right (beyond column w - 1
      when `lrflag` is set, beyond column h - 1 otherwise). Whatever the flag,
      every neighbour of an in-grid target is in the grid, and at half side 0
      all four are the target itself (for a target right of column h - 1 only
      when the flag is set). */
  function DiamondCorners(t: Point, l: int, lrflag: bool, w: int, h: int): (r: Rhombus)
    ensures InGrid(t, w, h) && 0 <= l < h <= w ==>
      InGrid(r.top, w, h) && InGrid(r.left, w, h) && InGrid(r.bottom, w, h) && InGrid(r.right, w, h)
    ensures l == 0 && 0 <= t.x < (if lrflag then w else h) && 0 <= t.y < h ==> r == Rhombus(t, t, t, t)
  {
    var top := if t.y - l >= 0 then Point(t.x, t.y - l) else Point(t.x, h - l);
    var left :=
      if t.x - l >= 0 then Point(t.x - l, t.y)
      else if lrflag then Point(w - l, t.y)
      else Point(h - l, t.y);
    var bottom := if t.y + l < h then Point(t.x, t.y + l) else Point(t.x, l);
    var right :=
      if lrflag then (if t.x + l < w then Point(t.x + l, t.y) else Point(l, t.y))
      else (if t.x + l < h then Point(t.x + l, t.y) else Point(l, t.y));
    Rhombus(top, left, bottom, right)
  }

  /** `lrflag` is set for the column x when x >= h - l. For columns on the
      lattice of step l (multiples of l, with h - 1 a multiple of l) that is
      exactly x >= h - 1: the flag marks the right tile of a rectangular map. */
  lemma {:induction false} LrFlagMeaning(i: nat, m: nat, l: nat)
    requires l >= 1
    ensures Steps(i, l) >= Steps(m, l) + 1 - l <==> Steps(i, l) >= Steps(m, l)
  {
    if i < m {
      StepsMonotone(i, m, l);
    } else if i > m {
      StepsMonotone(m, i, l);
    }
  }

  /** When `lrflag` is only ever set on columns at or right of h - 1 (which
      LrFlagMeaning shows), a left neighbour is never wrapped to column w - l:
      a wrapping target (x < l) is in the left tile, where the flag is clear. */
  lemma LeftWrapIgnoresFlag(t: Point, l: int, lrflag: bool, w: int, h: int)
    requires 0 <= l < h && (lrflag ==> t.x >= h - 1)
    ensures DiamondCorners(t, l, lrflag, w, h).left
         == if t.x >= l then Point(t.x - l, t.y) else Point(h - l, t.y)
  {
  }

  /** Target t of a diamond step at half side l reads its left neighbour as
      with `lrflag` clear: l columns to the left, or column h - l when that
      falls off the grid, never column w - l. */
  predicate LeftReadUnflagged(t: Point, l: int, lrflag: bool, w: int, h: int)
  {
    DiamondCorners(t, l, lrflag, w, h).left == if t.x >= l then Point(t.x - l, t.y) else Point(h - l, t.y)
  }

  /** The four diamond steps of the square with corners (x, y) and
      (x + s, y + s) all read their left neighbours as with `lrflag` clear. */
  predicate SquareLeftReads(x: int, y: int, s: int, lrflag: bool, w: int, h: int)
  {
    var l := s / 2;
    LeftReadUnflagged(Point(x, y + l), l, lrflag, w, h) && LeftReadUnflagged(Point(x + s, y + s - l), l, lrflag, w, h)
    && LeftReadUnflagged(Point(x + s - l, y + s), l, lrflag, w, h) && LeftReadUnflagged(Point(x + l, y), l, lrflag, w, h)
  }

  /** In a column of squares of side l whose left edge x is at or right of
      h - 1 whenever `lrflag` is set, no diamond step takes the left wrap to
      column w - l. */
  lemma ColumnLeftReads(x: int, l: nat, rows: nat, lrflag: bool, w: int, h: int)
    requires 0 <= x && l >= 1 && h - 1 == Steps(rows, l) && (lrflag ==> x >= h - 1)
    ensures forall j {:trigger SquareLeftReads(x, Steps(j, l), l, lrflag, w, h)} :: 0 <= j < rows ==> SquareLeftReads(x, Steps(j, l), l, lrflag, w, h)
  {
    forall j | 0 <= j < rows
      ensures SquareLeftReads(x, Steps(j, l), l, lrflag, w, h)
    {
      StepsMonotone(j, rows, l);
      var y, half := Steps(j, l), l / 2;
      LeftWrapIgnoresFlag(Point(x, y + half), half, lrflag, w, h);
      LeftWrapIgnoresFlag(Point(x + l, y + l - half), half, lrflag, w, h);
      LeftWrapIgnoresFlag(Point(x + l - half, y + l), half, lrflag, w, h);
      LeftWrapIgnoresFlag(Point(x + half, y), half, lrflag, w, h);
    }
  }

  /** With `lrflag` set as the level loop sets it, for the columns x at or
      right of h - l, no diamond step of any square of a level of side l
      takes the left wrap to column w - l. */
  lemma LevelLeftReads(l: nat, rows: nat, w: int, h: int)
    requires l >= 1 && h - 1 == Steps(rows, l)
    ensures forall i, j ::
      0 <= j < rows ==> SquareLeftReads(Steps(i, l), Steps(j, l), l, Steps(i, l) >= h - l, w, h)
  {
    forall i: nat
      ensures forall j ::
        0 <= j < rows ==> SquareLeftReads(Steps(i, l), Steps(j, l), l, Steps(i, l) >= h - l, w, h)
    {
      LrFlagMeaning(i, rows, l);
      ColumnLeftReads(Steps(i, l), l, rows, Steps(i, l) >= h - l, w, h);
    }
  }

  /** The row read above a target on the top edge is h - l, which is not a
      point of the lattice of step l (for l >= 2 it is one past a multiple of
      l) whenever h - 1 is a positive multiple of 2l. */
  lemma TopWrapOffLattice(m: nat, l: nat)
    requires m >= 1 && l >= 2
    ensures (Steps(m, 2 * l) + 1 - l) % l == 1
  {
    StepsIsProduct(m, 2 * l);
    assert Steps(m, 2 * l) + 1 - l == l * (2 * m - 1) + 1;
    DivModUnique(Steps(m, 2 * l) + 1 - l, l, 2 * m - 1, 1);
  }

  /** In a square map of side 5, the first square's left midpoint [0, 2]
      reads [3, 2] and its top midpoint [2, 0] reads [2, 3]: cells off the
      lattice of side 4, which no write has reached at that point. */
  lemma FirstWrapReads()
    ensures DiamondCorners(Point(0, 2), 2, false, 5, 5).left == Point(3, 2)
    ensures DiamondCorners(Point(2, 0), 2, false, 5, 5).top == Point(2, 3)
  {
  }

  /** In a rectangular map (w = 2h - 1), a target on column h - 1 in a
      left-tile column pass (flag clear) takes its right neighbour from column
      l, although column h - 1 + l exists: the tiles are stitched with a wrap. */
  lemma SeamWrap(t: Point, l: int, w: int, h: int)
    requires w == 2 * h - 1 && 1 <= l < h && t.x == h - 1
    ensures DiamondCorners(t, l, false, w, h).right == Point(l, t.y)
    ensures t.x + l < w
  {
  }

  /** At the last level (side 1, half side 0) a call writes only its first
      corner and the opposite one: the "centre" is (lx, ly) and the four
      "midpoints" coincide with the two corners. */
  lemma UnitSquareTargets(lx: int, ly: int)
    ensures Targets(lx, ly, lx + 1, ly + 1)
         == [Point(lx, ly), Point(lx, ly), Point(lx + 1, ly + 1), Point(lx + 1, ly + 1), Point(lx, ly)]
  {
  }

  /** A diamond step at half side 0 averages four copies of the target and adds
      a zero displacement: it rewrites the target's own height. */
  lemma ZeroHalfDiamondKeepsHeight(v: real, draw: real, roughness: real, h: int)
    ensures Average(v, v, v, v) + Displacement(draw, Spread(0, roughness, h)) == v
  {
  }

  /** Neighbouring squares of one level share an edge midpoint: the right
      midpoint of a square is the left midpoint of the square to its right, and
      its bottom midpoint is the top midpoint of the square below. Such a cell
      is written twice, and the later write stands. */
  lemma SharedMidpoints(x: int, y: int, l: nat)
    requires l % 2 == 0
    ensures Targets(x, y, x + l, y + l)[2] == Targets(x + l, y, x + 2 * l, y + l)[1]
    ensures Targets(x, y, x + l, y + l)[3] == Targets(x, y + l, x + l, y + 2 * l)[4]
  {
  }

  /** Number of seeds drawn before the main loop. */
  function Seeds(rectangle: bool): nat
  {
    if rectangle then 6 else 4
  }

  /** Columns of squares at level t (side 2^(n-t)): twice as many as rows in a
      rectangular map. */
  function Columns(rectangle: bool, t: nat): nat
  {
    if rectangle then Pow2(t + 1) else Pow2(t)
  }

  /** `DiamondSquare` calls made by the levels before level t; level s has
      Columns(s) columns of 2^s squares each. */
  function CallsBefore(rectangle: bool, t: nat): nat
  {
    if t == 0 then 0 else CallsBefore(rectangle, t - 1) + Steps(Columns(rectangle, t - 1), Pow2(t - 1))
  }

  lemma {:induction false} Pow2Add(a: nat, b: nat)
    ensures Pow2(a) * Pow2(b) == Pow2(a + b)
    decreases a
  {
    if a > 0 {
      Pow2Add(a - 1, b);
      DoubleProduct(Pow2(a - 1), Pow2(b));
    }
  }

  lemma DoubleProduct(p: int, q: int)
    ensures (2 * p) * q == 2 * (p * q)
  {
  }

  /** Closed form of the call count: a square map of side 2^n + 1 takes
      (4^(n+1) - 1) / 3 calls, a rectangular one twice that, and each call
      draws five numbers. */
  lemma {:induction false} CallsClosedForm(rectangle: bool, t: nat)
    ensures 3 * CallsBefore(rectangle, t) == if rectangle then 2 * (Pow2(2 * t) - 1) else Pow2(2 * t) - 1
  {
    if t > 0 {
      CallsClosedForm(rectangle, t - 1);
      LevelCalls(rectangle, t - 1);
      Pow2Quad(t - 1);
    }
  }

  lemma Pow2Quad(s: nat)
    ensures Pow2(2 * (s + 1)) == 4 * Pow2(2 * s)
  {
    assert Pow2(2 * s + 2) == 2 * Pow2(2 * s + 1);
  }

  /** Level s makes 4^s calls on a square map, twice that on a rectangular one. */
  lemma LevelCalls(rectangle: bool, s: nat)
    ensures Steps(Columns(rectangle, s), Pow2(s)) == if rectangle then 2 * Pow2(2 * s) else Pow2(2 * s)
  {
    StepsIsProduct(Columns(rectangle, s), Pow2(s));
    if rectangle {
      Pow2Add(s + 1, s);
    } else {
      Pow2Add(s, s);
    }
  }

  /** The squares of level t, of side 2^(n-t), tile a grid of side 2^n in 2^t
      rows; a rectangular grid of width 2^(n+1) in 2^(t+1) columns. */
  lemma LevelGrid(n: nat, t: nat)
    requires t <= n
    ensures Steps(Pow2(t), Pow2(n - t)) == Pow2(n)
    ensures Steps(Pow2(t + 1), Pow2(n - t)) == 2 * Pow2(n)
  {
    StepsIsProduct(Pow2(t), Pow2(n - t));
    StepsIsProduct(Pow2(t + 1), Pow2(n - t));
    Pow2Add(t, n - t);
    Pow2Add(t + 1, n - t);
    assert Pow2(n + 1) == 2 * Pow2(n);
  }

  /** A lattice coordinate short of the last lattice line is at least one
      step short of it; one that is not below it has reached it. */
  lemma StepBelow(i: nat, k: nat, size: nat)
    requires size >= 1 && i <= k
    ensures Steps(i, size) < Steps(k, size) ==> i < k && Steps(i + 1, size) <= Steps(k, size)
    ensures Steps(i, size) >= Steps(k, size) ==> i == k
  {
    if i < k {
      StepsMonotone(i, k, size);
      if i + 1 < k {
        StepsMonotone(i + 1, k, size);
      }
    }
  }

  /** Halving the side moves to the next level; halving side 1 ends the loop. */
  lemma HalveSide(n: nat, t: nat)
    requires t <= n
    ensures Pow2(n - t) / 2 == if t < n then Pow2(n - (t + 1)) else 0
  {
    if t < n {
      assert Pow2(n - t) == 2 * Pow2(n - t - 1);
    }
  }

  /** No square of a level writes the seeds [0, h-1] and [w-1, 0]: every
      target of a square of side l >= 1 inside the grid that lies in the left
      column is above the last row, and one in the last column is below the
      first row. */
  lemma SeedCornersUntouched(x: int, y: int, l: int, w: int, h: int)
    requires 0 <= x && x + l <= w - 1 && 0 <= y && y + l <= h - 1 && l >= 1
    ensures Point(0, h - 1) !in Targets(x, y, x + l, y + l)
    ensures Point(w - 1, 0) !in Targets(x, y, x + l, y + l)
  {
  }

  /** The side of the squares at level t of a map of side 2^n + 1: 2^(n-t)
      for the levels 0..n, and 0 once the loop has halved side 1. */
  function Side(n: nat, t: nat): nat
  {
    if t <= n then Pow2(n - t) else 0
  }

  /** Level t <= n tiles the map: 2^t rows and Columns(t) columns of squares
      of side Side(n, t) >= 1 span h - 1 = 2^n and w - 1; halving the side
      gives the next level's, and the side is 1 exactly at the last level. */
  lemma LevelShape(n: nat, t: nat, rectangle: bool)
    requires t <= n
    ensures Side(n, t) >= 1
    ensures Steps(Pow2(t), Side(n, t)) == Pow2(n)
    ensures Steps(Columns(rectangle, t), Side(n, t)) == (if rectangle then 2 * Pow2(n) else Pow2(n))
    ensures Side(n, t) / 2 == Side(n, t + 1)
    ensures Side(n, t) == 1 <==> t == n
    ensures CallsBefore(rectangle, t + 1) == CallsBefore(rectangle, t) + Steps(Columns(rectangle, t), Pow2(t))
  {
    LevelGrid(n, t);
    HalveSide(n, t);
    if t < n {
      assert Side(n, t) == 2 * Pow2(n - t - 1);
    }
  }

  /** p lies in the block of columns [lx, rx) and rows [ly, ry). */
  predicate InBlock(p: Point, lx: int, ly: int, rx: int, ry: int)
  {
    lx <= p.x < rx && ly <= p.y < ry
  }

  /** A one-column block of cells in s grows by one row once the next cell
      of the column is in s. */
  lemma ColumnBlockGrows(s: set<Point>, x: int, ly: int, y: int)
    requires forall p :: InBlock(p, x, ly, x + 1, y) ==> p in s
    requires Point(x, y) in s
    ensures forall p :: InBlock(p, x, ly, x + 1, y + 1) ==> p in s
  {
  }

  /** s holds, for the unit squares of column x at rows b < y, the top-left
      corner (x, b) and the bottom-right corner (x + 1, b + 1) of each. */
  ghost predicate ColumnCorners(s: set<Point>, x: int, y: int)
  {
    (forall p :: InBlock(p, x, 0, x + 1, y) ==> p in s)
    && (forall p :: InBlock(p, x + 1, 1, x + 2, y + 1) ==> p in s)
  }

  /** A `DiamondSquare` call on the unit square at (x, y), which adds its
      five cells to s0, extends the corners of column x by one row. */
  lemma ColumnCornersGrow(s0: set<Point>, s1: set<Point>, x: int, y: int, l: int)
    requires l == 1 && ColumnCorners(s0, x, y)
    requires var k := (x + l - x) / 2;
      s1 == s0 + {Point(x + k, y + k), Point(x, y + k), Point(x + l, y + l - k), Point(x + l - k, y + l), Point(x + k, y)}
    ensures ColumnCorners(s1, x, y + 1)
  {
    ColumnBlockGrows(s1, x, 0, y);
    ColumnBlockGrows(s1, x + 1, 1, y + 1);
  }

  /** s holds, for every unit square of a w by h grid, its top-left corner
      (x, y) and its bottom-right corner (x + 1, y + 1): the cells the last
      level, of side 1, writes. */
  ghost predicate UnitCorners(s: set<Point>, w: int, h: int)
  {
    (forall p :: InBlock(p, 0, 0, w - 1, h - 1) ==> p in s)
    && (forall p :: InBlock(p, 1, 1, w, h) ==> p in s)
  }

  /** With the two seeds no square reaches, [0, h-1] and [w-1, 0], the unit
      corners are every cell. */
  lemma FullCoverage(s: set<Point>, w: int, h: int)
    requires 2 <= h && 2 <= w
    requires UnitCorners(s, w, h)
    requires Point(0, h - 1) in s && Point(w - 1, 0) in s
    ensures forall p :: InGrid(p, w, h) ==> p in s
  {
    forall p | InGrid(p, w, h)
      ensures p in s
    {
      if InBlock(p, 0, 0, w - 1, h - 1) {
      } else if InBlock(p, 1, 1, w, h) {
      } else if p.x == 0 {
        assert p == Point(0, h - 1);
      } else {
        assert p == Point(w - 1, 0);
      }
    }
  }
}
