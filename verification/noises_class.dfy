/** The `NoisesClass` object: the gradient-noise map generator `PerlineNoise`
    with its permutation table, and the Diamond-Square height-map generator.
    Floats are reals; each random generator is an input stream. */
module NoisesLibrary {
  import opened Bits
  import opened Gradient
  import opened Octaves
  import opened Lattice
  import opened Schedule

  /** The octave loop for cell (x, y) of `PerlineNoise`, for any noise
      function: before octave i, `amplitude`, `frequency` and the compensation
      hold persistence^i, lacunarity^i and Compensation(persistence, i), and
      the height is the sum of the first i octaves. */
  method OctaveHeight(noise: (real, real) -> real, octavesOffset: seq<Vec>, half: Vec, scale: real,
                      persistence: real, lacunarity: real, x: int, y: int) returns (noiseHeight: real)
    requires scale != 0.0
    ensures noiseHeight == OctaveSum(OctaveSamples(noise, octavesOffset, half, scale, lacunarity, x, y), persistence, |octavesOffset|)
  {
    ghost var samples := OctaveSamples(noise, octavesOffset, half, scale, lacunarity, x, y);
    var amplitude, frequency := 1.0, 1.0;
    var superpositionCompensation := 0.0;
    noiseHeight := 0.0;
    var i := 0;
    while i < |octavesOffset|
      invariant 0 <= i <= |octavesOffset|
      invariant amplitude == RPow(persistence, i) && frequency == RPow(lacunarity, i)
      invariant superpositionCompensation == Compensation(persistence, i)
      invariant noiseHeight == OctaveSum(samples, persistence, i)
    {
      var xResult := (x as real - half.x) / scale * frequency + octavesOffset[i].x * frequency;
      var yResult := (y as real - half.y) / scale * frequency + octavesOffset[i].y * frequency;
      var generatedValue := noise(xResult, yResult);
      SampleAt(noise, octavesOffset, half, scale, lacunarity, x, y, i, frequency);
      OctaveStep(samples, persistence, i, amplitude, superpositionCompensation, noiseHeight, generatedValue);
      RPowStep(lacunarity, i, frequency);
      noiseHeight := noiseHeight + generatedValue * amplitude;
      noiseHeight := noiseHeight - superpositionCompensation;
      amplitude := amplitude * persistence;
      frequency := frequency * lacunarity;
      superpositionCompensation := amplitude / 2.0;
      i := i + 1;
    }
  }

  /** The body of the cell loop of `PerlineNoise`: the octave loop, the
      clamp to [-1, 1] and the remap to [0, 1] give the value of cell (x, y). */
  method NoiseCell(noise: (real, real) -> real, offsets: seq<Vec>, half: Vec, scale: real,
                   persistence: real, lacunarity: real, x: int, y: int) returns (value: real)
    requires scale != 0.0
    ensures value == CellValue(noise, offsets, half, scale, persistence, lacunarity, x, y)
  {
    var noiseHeight := OctaveHeight(noise, offsets, half, scale, persistence, lacunarity, x, y);
    ghost var sum := noiseHeight;
    if noiseHeight < -1.0 {
      noiseHeight := -1.0;
    }
    if noiseHeight > 1.0 {
      noiseHeight := 1.0;
    }
    ClampedCell(noise, offsets, half, scale, persistence, lacunarity, x, y, sum, noiseHeight);
    value := (noiseHeight + 1.0) / 2.0;
  }

  /** The sample of octave i, taken at the frequency the loop holds then. */
  lemma SampleAt(noise: (real, real) -> real, offsets: seq<Vec>, half: Vec, scale: real,
                 lacunarity: real, x: int, y: int, i: nat, frequency: real)
    requires scale != 0.0 && i < |offsets| && frequency == RPow(lacunarity, i)
    ensures OctaveSample(noise, offsets, half, scale, lacunarity, x, y, i)
         == noise((x as real - half.x) / scale * frequency + offsets[i].x * frequency,
                  (y as real - half.y) / scale * frequency + offsets[i].y * frequency)
  {
    assert SampleCoord(x, half.x, scale, frequency, offsets[i].x)
        == (x as real - half.x) / scale * frequency + offsets[i].x * frequency;
    assert SampleCoord(y, half.y, scale, frequency, offsets[i].y)
        == (y as real - half.y) / scale * frequency + offsets[i].y * frequency;
  }

  /** One pass of the octave loop extends the accumulated height by one octave. */
  lemma OctaveStep(samples: seq<real>, persistence: real, i: nat,
                   amplitude: real, compensation: real, noiseHeight: real, generatedValue: real)
    requires i < |samples|
    requires amplitude == RPow(persistence, i) && compensation == Compensation(persistence, i)
    requires noiseHeight == OctaveSum(samples, persistence, i) && generatedValue == samples[i]
    ensures noiseHeight + generatedValue * amplitude - compensation == OctaveSum(samples, persistence, i + 1)
    ensures amplitude * persistence == RPow(persistence, i + 1)
    ensures amplitude * persistence / 2.0 == Compensation(persistence, i + 1)
  {
  }

  /** The clamp to [-1, 1] followed by the remap to [0, 1] gives the value of
      the cell whose accumulated height is `sum`. */
  lemma ClampedCell(noise: (real, real) -> real, offsets: seq<Vec>, half: Vec, scale: real,
                    persistence: real, lacunarity: real, x: int, y: int, sum: real, clamped: real)
    requires scale != 0.0
    requires sum == OctaveSum(OctaveSamples(noise, offsets, half, scale, lacunarity, x, y), persistence, |offsets|)
    requires clamped == if sum > 1.0 then 1.0 else if sum < -1.0 then -1.0 else sum
    ensures (clamped + 1.0) / 2.0 == CellValue(noise, offsets, half, scale, persistence, lacunarity, x, y)
  {
  }

  class NoisesClass {
    /** The permutation table of the gradient noise. */
    var permutationTable: array<Byte>
    var w: int
    var h: int
    /** The map `PerlineNoise` fills and returns. */
    var noiseMap: array<real>

    /** The Diamond-Square height map, indexed [x, y] with x < w and y < h. */
    var heighmap: array2<real>
    /** Scale of the random displacements (`asperity`). */
    var roughness: real
    /** The values `NextDouble()` returns, in order, on a `Random` created
        with a given seed; the platform's generator is not modelled, so it is
        fixed when the object is made. */
    const generator: int -> nat -> Draw
    /** The seed `randds` was created with, and how many values it has
        returned since. */
    var seed: int
    var drawn: nat
    /** The running greatest and least height. */
    var maxi: real
    var min: real
    /** Set while the columns of the right tile of a rectangular map are
        processed. */
    var lrflag: bool
    /** The cells of `heighmap` written since it was allocated. */
    ghost var written: set<Point>
    /** The writes of Diamond-Square cells since the last run began, each
        with the index of the draw it used, the latest last. */
    ghost var log: Trail

    constructor(generator: int -> nat -> Draw)
      ensures this.generator == generator
      ensures w == 0 && h == 0 && drawn == 0 && written == {} && log == Start
    {
      permutationTable := new Byte[0];
      noiseMap := new real[0];
      w, h := 0, 0;
      heighmap := new real[0, 0];
      roughness := 1.0;
      this.generator := generator;
      seed := 0;
      drawn := 0;
      maxi, min := 0.0, 0.0;
      lrflag := false;
      written := {};
      log := Start;
    }

    /** The i-th value of the generator (counting from 0). */
    ghost function Drawn(i: nat): real
      reads this`seed
    {
      generator(seed)(i)
    }

    /** The Diamond-Square state is consistent: the map is w by h with
        2 <= h <= w and every written cell is Bracketed. */
    ghost predicate Valid()
      reads this`w, this`h, this`written, this`min, this`maxi, this`heighmap, heighmap
    {
      heighmap.Length0 == w && heighmap.Length1 == h && 2 <= h <= w
      && (forall p {:trigger Bracketed(p)} :: p in written ==> Bracketed(p))
    }

    /** Cell p lies in the grid and its height between `min` and `maxi`. */
    ghost predicate Bracketed(p: Point)
      reads this`min, this`maxi, this`heighmap, heighmap
    {
      InGrid(p, heighmap.Length0, heighmap.Length1) && min <= heighmap[p.x, p.y] <= maxi
    }

    /** One write of `Square` or `Diamond` at cell p: one draw is consumed
        and logged as the write of p, `maxi` and `min` become the running
        maximum and minimum with the new height, and no other cell changes. */
    twostate predicate WroteCell(p: Point)
      reads this`drawn, this`written, this`log, this`min, this`maxi, this`heighmap, heighmap
    {
      heighmap.Length0 == old(heighmap.Length0) && heighmap.Length1 == old(heighmap.Length1)
      && InGrid(p, heighmap.Length0, heighmap.Length1)
      && (forall a, b :: 0 <= a < heighmap.Length0 && 0 <= b < heighmap.Length1 && Point(a, b) != p ==>
            heighmap[a, b] == old(heighmap[a, b]))
      && drawn == old(drawn) + 1 && log == Then(old(log), Write(p, old(drawn)))
      && written == old(written) + {p}
      && maxi == Max(old(maxi), heighmap[p.x, p.y]) && min == Min(old(min), heighmap[p.x, p.y])
      && old(maxi) <= maxi && min <= old(min)
    }

    /** The mean of the heights at the four corners of r. */
    ghost function Mean(r: Rhombus): real
      reads this`heighmap, heighmap
      requires InGrid(r.top, heighmap.Length0, heighmap.Length1) && InGrid(r.left, heighmap.Length0, heighmap.Length1)
      requires InGrid(r.bottom, heighmap.Length0, heighmap.Length1) && InGrid(r.right, heighmap.Length0, heighmap.Length1)
    {
      Average(heighmap[r.top.x, r.top.y], heighmap[r.left.x, r.left.y], heighmap[r.bottom.x, r.bottom.y], heighmap[r.right.x, r.right.y])
    }

    /** `randds.NextDouble()`: the next value of the stream. */
    method NextDouble() returns (r: real)
      modifies this`drawn
      ensures r == Drawn(old(drawn)) && drawn == old(drawn) + 1
    {
      r := generator(seed)(drawn);
      drawn := drawn + 1;
    }

    /** Stores height v, made from draw number `draw`, at cell p and widens
        the running bracket to take it in: `maxi` and `min` become the
        running maximum and minimum. */
    method Record(p: Point, v: real, ghost draw: nat)
      requires Valid() && InGrid(p, w, h)
      modifies heighmap, this`maxi, this`min, this`written, this`log
      ensures heighmap[p.x, p.y] == v
      ensures forall a, b :: 0 <= a < w && 0 <= b < h && Point(a, b) != p ==> heighmap[a, b] == old(heighmap[a, b])
      ensures written == old(written) + {p} && log == Then(old(log), Write(p, draw))
      ensures maxi == Max(old(maxi), v) && min == Min(old(min), v)
      ensures Valid()
    {
      heighmap[p.x, p.y] := v;
      if maxi < v {
        maxi := v;
      }
      if min > v {
        min := v;
      }
      forall q | q in old(written)
        ensures Bracketed(q)
      {
        assert old(Bracketed(q));
      }
      written := written + {p};
      log := Then(log, Write(p, draw));
      assert Bracketed(p);
    }

    /** The square step: the centre of the square with corners (lx, ly) and
        (rx, ry) receives the mean of the four corners plus a displacement in
        [-z, z), z = Spread of the half side. */
    method Square(lx: int, ly: int, rx: int, ry: int)
      requires Valid()
      requires 0 <= lx <= rx < w && 0 <= ly && ry - ly == rx - lx && ry < h
      modifies heighmap, this`drawn, this`maxi, this`min, this`written, this`log
      ensures Valid()
      ensures WroteCell(Point(lx + (rx - lx) / 2, ly + (rx - lx) / 2))
      ensures forall r :: r == Rhombus(Point(lx, ly), Point(lx, ry), Point(rx, ly), Point(rx, ry)) ==>
        heighmap[lx + (rx - lx) / 2, ly + (rx - lx) / 2] == old(Mean(r)) + Displacement(Drawn(old(drawn)), Spread((rx - lx) / 2, roughness, h))
    {
      var l := (rx - lx) / 2;
      var a := heighmap[lx, ly];
      var b := heighmap[lx, ry];
      var c := heighmap[rx, ly];
      var d := heighmap[rx, ry];
      var centerX := lx + l;
      var centerY := ly + l;
      var z := Spread(l, roughness, h);
      ghost var index := drawn;
      var draw := NextDouble();
      Record(Point(centerX, centerY), Average(a, b, c, d) + Displacement(draw, z), index);
    }

    /** The diamond step: target (tgx, tgy) receives the mean of its four
        neighbours at distance l (DiamondCorners, with the wraps) plus a
        displacement in [-z, z), z = Spread of l. */
    method Diamond(tgx: int, tgy: int, l: int)
      requires Valid()
      requires 0 <= tgx < w && 0 <= tgy < h && 0 <= l < h
      modifies heighmap, this`drawn, this`maxi, this`min, this`written, this`log
      ensures Valid()
      ensures WroteCell(Point(tgx, tgy))
      ensures forall r :: r == DiamondCorners(Point(tgx, tgy), l, lrflag, w, h) ==>
        heighmap[tgx, tgy] == old(Mean(r)) + Displacement(Drawn(old(drawn)), Spread(l, roughness, h))
    {
      var r := DiamondCorners(Point(tgx, tgy), l, lrflag, w, h);
      var a := heighmap[r.top.x, r.top.y];
      var b := heighmap[r.left.x, r.left.y];
      var c := heighmap[r.bottom.x, r.bottom.y];
      var d := heighmap[r.right.x, r.right.y];
      var z := Spread(l, roughness, h);
      ghost var index := drawn;
      var draw := NextDouble();
      Record(Point(tgx, tgy), Average(a, b, c, d) + Displacement(draw, z), index);
    }

    /** One square of side rx - lx: its centre, then the left, right, bottom
        and top edge midpoints, five draws in that order (the Targets of the
        square, logged with the next five draws). The five targets join the
        written cells, no other cell changes, and the bracket only widens. */
    method DiamondSquare(lx: int, ly: int, rx: int, ry: int)
      requires Valid()
      requires 0 <= lx < rx < w && 0 <= ly && ry - ly == rx - lx && ry < h
      modifies heighmap, this`drawn, this`maxi, this`min, this`written, this`log
      ensures Valid()
      ensures drawn == old(drawn) + 5 && log == Run(old(log), Part.Square(lx, ly, rx, ry), old(drawn))
      ensures var l := (rx - lx) / 2;
        written == old(written) + {Point(lx + l, ly + l), Point(lx, ly + l), Point(rx, ry - l), Point(rx - l, ry), Point(lx + l, ly)}
      ensures var l := (rx - lx) / 2;
        forall a, b {:trigger heighmap[a, b]} ::
          (0 <= a < w && 0 <= b < h
           && Point(a, b) != Point(lx + l, ly + l) && Point(a, b) != Point(lx, ly + l) && Point(a, b) != Point(rx, ry - l)
           && Point(a, b) != Point(rx - l, ry) && Point(a, b) != Point(lx + l, ly))
          ==> heighmap[a, b] == old(heighmap[a, b])
      ensures old(maxi) <= maxi && min <= old(min)
    {
      Square(lx, ly, rx, ry);
      DiamondSteps(lx, ly, rx, ry);
      SquareCells(old(log), lx, ly, rx, ry, old(drawn));
    }

    /** The four diamond steps of one square, after its centre: the left,
        right, bottom and top edge midpoints, one draw each in that order.
        The four join the written cells, no other cell changes, and the
        bracket only widens. */
    method DiamondSteps(lx: int, ly: int, rx: int, ry: int)
      requires Valid()
      requires 0 <= lx < rx < w && 0 <= ly && ry - ly == rx - lx && ry < h
      modifies heighmap, this`drawn, this`maxi, this`min, this`written, this`log
      ensures Valid()
      ensures var l := (rx - lx) / 2;
        drawn == old(drawn) + 4
        && log == Then(Then(Then(Then(old(log), Write(Point(lx, ly + l), old(drawn))), Write(Point(rx, ry - l), old(drawn) + 1)),
                            Write(Point(rx - l, ry), old(drawn) + 2)), Write(Point(lx + l, ly), old(drawn) + 3))
      ensures var l := (rx - lx) / 2;
        written == old(written) + {Point(lx, ly + l), Point(rx, ry - l), Point(rx - l, ry), Point(lx + l, ly)}
      ensures var l := (rx - lx) / 2;
        forall a, b {:trigger heighmap[a, b]} ::
          (0 <= a < w && 0 <= b < h
           && Point(a, b) != Point(lx, ly + l) && Point(a, b) != Point(rx, ry - l)
           && Point(a, b) != Point(rx - l, ry) && Point(a, b) != Point(lx + l, ly))
          ==> heighmap[a, b] == old(heighmap[a, b])
      ensures old(maxi) <= maxi && min <= old(min)
    {
      var l := (rx - lx) / 2;
      Diamond(lx, ly + l, l);
      Diamond(rx, ry - l, l);
      Diamond(rx - l, ry, l);
      Diamond(lx + l, ly, l);
    }

    /** Every written cell lies in the grid with its height in [lo, hi]. */
    ghost predicate WrittenWithin(lo: real, hi: real)
      reads this`written, this`heighmap, heighmap
    {
      forall p :: p in written ==> InGrid(p, heighmap.Length0, heighmap.Length1) && lo <= heighmap[p.x, p.y] <= hi
    }

    /** Stores the seed `NextDouble() * (hi - lo) + lo` at cell p; a draw in
        [0, 1) keeps every written cell within [lo, hi]. */
    method PlaceSeed(p: Point, lo: real, hi: real)
      requires heighmap.Length0 == w && heighmap.Length1 == h && InGrid(p, w, h)
      requires lo <= hi && WrittenWithin(lo, hi)
      modifies heighmap, this`drawn, this`written, this`log
      ensures heighmap[p.x, p.y] == SeedValue(Drawn(old(drawn)), lo, hi)
      ensures forall a, b :: 0 <= a < w && 0 <= b < h && (a != p.x || b != p.y) ==> heighmap[a, b] == old(heighmap[a, b])
      ensures drawn == old(drawn) + 1 && written == old(written) + {p} && log == Then(old(log), Write(p, old(drawn)))
      ensures WrittenWithin(lo, hi)
    {
      ghost var index := drawn;
      var draw := NextDouble();
      heighmap[p.x, p.y] := SeedValue(draw, lo, hi);
      written := written + {p};
      log := Then(log, Write(p, index));
    }

    /** Allocates the height map, widening it to 2h - 1 columns for a
        rectangular map, and draws the seeds: for a rectangular map
        [h-1, h-1] and [h-1, 0] first, then the four corners. Each seeded
        cell holds the seed of its own draw, and the written cells are
        exactly the seeded ones. */
    method SeedEdges(rectangle: bool, lo: real, hi: real)
      requires w == h >= 2 && written == {}
      requires lo <= hi
      modifies this`w, this`heighmap, this`drawn, this`written, this`log
      ensures w == (if rectangle then 2 * h - 1 else h)
      ensures fresh(heighmap) && heighmap.Length0 == w && heighmap.Length1 == h
      ensures drawn == old(drawn) + Seeds(rectangle)
      ensures log == Continue(old(log), SeedCells(rectangle, w, h), old(drawn))
      ensures rectangle ==> heighmap[h - 1, h - 1] == SeedValue(Drawn(old(drawn)), lo, hi)
      ensures rectangle ==> heighmap[h - 1, 0] == SeedValue(Drawn(old(drawn) + 1), lo, hi)
      ensures var d := old(drawn) + Seeds(rectangle) - 4;
        heighmap[0, 0] == SeedValue(Drawn(d), lo, hi) && heighmap[0, h - 1] == SeedValue(Drawn(d + 1), lo, hi)
        && heighmap[w - 1, h - 1] == SeedValue(Drawn(d + 2), lo, hi) && heighmap[w - 1, 0] == SeedValue(Drawn(d + 3), lo, hi)
      ensures written == (if rectangle then {Point(h - 1, h - 1), Point(h - 1, 0)} else {})
        + {Point(0, 0), Point(0, h - 1), Point(w - 1, h - 1), Point(w - 1, 0)}
      ensures Point(0, h - 1) in written && Point(w - 1, 0) in written
      ensures WrittenWithin(lo, hi)
    {
      if rectangle {
        SeedMiddle(lo, hi);
      } else {
        heighmap := new real[w, h];
      }
      SeedCorners(lo, hi);
      if rectangle {
        ContinueJoin(old(log), [Point(h - 1, h - 1), Point(h - 1, 0)], [Point(0, 0), Point(0, h - 1), Point(w - 1, h - 1), Point(w - 1, 0)], old(drawn));
      } else {
        assert SeedCells(rectangle, w, h) == [Point(0, 0), Point(0, h - 1), Point(w - 1, h - 1), Point(w - 1, 0)];
      }
    }

    /** The rectangular case: the map is widened to 2h - 1 columns and the
        seeds [h-1, h-1] and [h-1, 0] are drawn, in that order. */
    method SeedMiddle(lo: real, hi: real)
      requires w == h >= 2 && written == {}
      requires lo <= hi
      modifies this`w, this`heighmap, this`drawn, this`written, this`log
      ensures w == 2 * h - 1
      ensures fresh(heighmap) && heighmap.Length0 == w && heighmap.Length1 == h
      ensures drawn == old(drawn) + 2
      ensures log == Continue(old(log), [Point(h - 1, h - 1), Point(h - 1, 0)], old(drawn))
      ensures heighmap[h - 1, h - 1] == SeedValue(Drawn(old(drawn)), lo, hi)
      ensures heighmap[h - 1, 0] == SeedValue(Drawn(old(drawn) + 1), lo, hi)
      ensures written == {Point(h - 1, h - 1), Point(h - 1, 0)}
      ensures WrittenWithin(lo, hi)
    {
      w := h * 2 - 1;
      heighmap := new real[w, h];
      PlaceSeed(Point(h - 1, h - 1), lo, hi);
      PlaceSeed(Point(h - 1, 0), lo, hi);
      ContinueTwo(old(log), Point(h - 1, h - 1), Point(h - 1, 0), old(drawn));
    }

    /** The initial values along the edges of the map followed by the
        bracket: after the seeds are drawn, `maxi` and `min` start at the
        ordered bounds, which enclose every seed. */
    method InitialHeights(rectangle: bool, lo: real, hi: real)
      requires w == h >= 2 && written == {}
      requires lo <= hi
      modifies this`w, this`heighmap, this`drawn, this`written, this`log, this`maxi, this`min
      ensures w == (if rectangle then 2 * h - 1 else h)
      ensures fresh(heighmap) && drawn == old(drawn) + Seeds(rectangle)
      ensures log == Continue(old(log), SeedCells(rectangle, w, h), old(drawn))
      ensures Point(0, h - 1) in written && Point(w - 1, 0) in written
      ensures maxi == hi && min == lo && Valid()
    {
      SeedEdges(rectangle, lo, hi);
      maxi := hi;
      min := lo;
      WithinBracket();
    }

    /** The four corner seeds [0, 0], [0, h-1], [w-1, h-1], [w-1, 0], in
        that draw order; they join the written cells and no other cell
        changes. */
    method SeedCorners(lo: real, hi: real)
      requires heighmap.Length0 == w && heighmap.Length1 == h && 2 <= h <= w
      requires lo <= hi && WrittenWithin(lo, hi)
      modifies heighmap, this`drawn, this`written, this`log
      ensures drawn == old(drawn) + 4
      ensures log == Continue(old(log), [Point(0, 0), Point(0, h - 1), Point(w - 1, h - 1), Point(w - 1, 0)], old(drawn))
      ensures heighmap[0, 0] == SeedValue(Drawn(old(drawn)), lo, hi)
      ensures heighmap[0, h - 1] == SeedValue(Drawn(old(drawn) + 1), lo, hi)
      ensures heighmap[w - 1, h - 1] == SeedValue(Drawn(old(drawn) + 2), lo, hi)
      ensures heighmap[w - 1, 0] == SeedValue(Drawn(old(drawn) + 3), lo, hi)
      ensures written == old(written) + {Point(0, 0), Point(0, h - 1), Point(w - 1, h - 1), Point(w - 1, 0)}
      ensures Point(0, h - 1) in written && Point(w - 1, 0) in written
      ensures WrittenWithin(lo, hi)
      ensures forall a, b :: 0 <= a < w && 0 <= b < h && ((a != 0 && a != w - 1) || (b != 0 && b != h - 1)) ==>
        heighmap[a, b] == old(heighmap[a, b])
    {
      PlaceSeed(Point(0, 0), lo, hi);
      PlaceSeed(Point(0, h - 1), lo, hi);
      PlaceSeed(Point(w - 1, h - 1), lo, hi);
      PlaceSeed(Point(w - 1, 0), lo, hi);
      ContinueFour(old(log), Point(0, 0), Point(0, h - 1), Point(w - 1, h - 1), Point(w - 1, 0), old(drawn));
    }

    /** The squares of one column of a level: side l, left edge x, top
        edges y = 0, l, 2l, ... short of h - 1 (`rows` of them), one `DiamondSquare`
        each, with `lrflag` set exactly when the column is at or right of
        h - 1 (the right tile of a rectangular map). The bracket only widens, written cells stay written, 5 draws
        are taken per square, and at side 1 every cell (x, b) and
        (x + 1, b + 1) of the column is written. */
    method DiamondSquareColumn(x: int, l: int, ghost rows: nat)
      requires Valid()
      requires l >= 1 && 0 <= x && x + l <= w - 1 && h - 1 == Steps(rows, l)
      requires lrflag <==> x >= h - 1
      modifies heighmap, this`drawn, this`maxi, this`min, this`written, this`log
      ensures Valid()
      ensures drawn == old(drawn) + 5 * rows && log == Run(old(log), Column(x, l, rows), old(drawn))
      ensures old(written) <= written
      ensures old(maxi) <= maxi && min <= old(min)
      ensures l == 1 ==> forall p :: InBlock(p, x, 0, x + 1, h - 1) ==> p in written
      ensures l == 1 ==> forall p :: InBlock(p, x + 1, 1, x + 2, h) ==> p in written
    {
      var y := 0;
      ghost var j := 0;
      while y < h - 1
        invariant j <= rows && y == Steps(j, l)
        invariant Valid() && heighmap.Length0 == old(heighmap.Length0) && heighmap.Length1 == old(heighmap.Length1)
        invariant drawn == old(drawn) + 5 * j && log == Run(old(log), Column(x, l, j), old(drawn))
        invariant old(written) <= written
        invariant old(maxi) <= maxi && min <= old(min)
        invariant l == 1 ==> ColumnCorners(written, x, y)
      {
        StepBelow(j, rows, l);
        ghost var before, next := log, drawn;
        ColumnSquare(x, y, l, j);
        ColumnNext(old(log), x, l, j, y, old(drawn), next, before, log);
        y := y + l;
        j := j + 1;
      }
      StepBelow(j, rows, l);
    }

    /** One square of a column, the body of the row loop at y = Steps(j, l):
        5 draws logged as the square's `Run`, written cells stay written, the
        bracket only widens, and a unit square extends the corners written
        in column x by one row. */
    method ColumnSquare(x: int, y: int, l: int, ghost j: nat)
      requires Valid()
      requires l >= 1 && 0 <= x && x + l <= w - 1 && y == Steps(j, l) && y + l <= h - 1
      modifies heighmap, this`drawn, this`maxi, this`min, this`written, this`log
      ensures Valid() && heighmap.Length0 == old(heighmap.Length0) && heighmap.Length1 == old(heighmap.Length1)
      ensures drawn == old(drawn) + 5 && log == Run(old(log), Part.Square(x, y, x + l, y + l), old(drawn))
      ensures old(written) <= written
      ensures old(maxi) <= maxi && min <= old(min)
      ensures l == 1 && ColumnCorners(old(written), x, y) ==> ColumnCorners(written, x, y + 1)
    {
      DiamondSquare(x, y, x + l, y + l);
      if l == 1 && ColumnCorners(old(written), x, y) {
        ColumnCornersGrow(old(written), written, x, y, l);
      }
    }

    /** One level of squares of side l: columns x = 0, l, 2l, ... below
        w - 1 (`columns` of them), `lrflag` set for the columns at or right
        of h - l, then the column's squares. The bracket only widens,
        written cells stay written, 5 draws are taken per square, and at
        side 1 every cell is written except possibly [0, h-1] and
        [w-1, 0]. */
    method DiamondSquareLevel(l: int, ghost columns: nat, ghost rows: nat)
      requires Valid()
      requires l >= 1 && w - 1 == Steps(columns, l) && h - 1 == Steps(rows, l)
      modifies heighmap, this`drawn, this`maxi, this`min, this`written, this`log, this`lrflag
      ensures Valid()
      ensures drawn == old(drawn) + 5 * Steps(columns, rows) && log == Run(old(log), Level(l, columns, rows), old(drawn))
      ensures old(written) <= written
      ensures old(maxi) <= maxi && min <= old(min)
      ensures l == 1 ==> UnitCorners(written, w, h)
    {
      var x := 0;
      ghost var i := 0;
      while x < w - 1
        invariant i <= columns && x == Steps(i, l)
        invariant Valid() && heighmap.Length0 == old(heighmap.Length0) && heighmap.Length1 == old(heighmap.Length1)
        invariant drawn == old(drawn) + 5 * Steps(i, rows) && log == Run(old(log), Level(l, i, rows), old(drawn))
        invariant old(written) <= written
        invariant old(maxi) <= maxi && min <= old(min)
        invariant l == 1 ==> forall p :: InBlock(p, 0, 0, x, h - 1) ==> p in written
        invariant l == 1 ==> forall p :: InBlock(p, 1, 1, x + 1, h) ==> p in written
      {
        StepBelow(i, columns, l);
        lrflag := x >= h - l;
        LrFlagMeaning(i, rows, l);
        ghost var before, next := log, drawn;
        DiamondSquareColumn(x, l, rows);
        LevelNext(old(log), l, i, rows, x, old(drawn), next, before, log);
        x := x + l;
        i := i + 1;
      }
      StepBelow(i, columns, l);
    }

    /** Once `min` and `maxi` enclose every written cell, the state is
        consistent. */
    lemma WithinBracket()
      requires heighmap.Length0 == w && heighmap.Length1 == h && 2 <= h <= w
      requires WrittenWithin(min, maxi)
      ensures Valid()
    {
      forall p | p in written
        ensures Bracketed(p)
      {
      }
    }

    /** Once every cell is written, every height lies between `min` and
        `maxi`. */
    lemma EveryCellBracketed()
      requires Valid() && forall p :: InGrid(p, w, h) ==> p in written
      ensures forall a, b :: 0 <= a < w && 0 <= b < h ==> min <= heighmap[a, b] <= maxi
    {
      forall a, b | 0 <= a < w && 0 <= b < h
        ensures min <= heighmap[a, b] <= maxi
      {
        assert Bracketed(Point(a, b));
      }
    }

    /** The level loop: squares of side l = h - 1, (h - 1) / 2, ..., 1, one
        `DiamondSquareLevel` each, for a map of side 2^n + 1 (twice as wide
        less one when `rectangle`). Afterwards every cell is written, 5 draws
        have been taken per square and the bracket has only widened. */
    method DiamondSquareLevels(ghost n: nat, ghost rectangle: bool)
      requires Valid()
      requires h == Pow2(n) + 1 && w == (if rectangle then 2 * h - 1 else h)
      requires Point(0, h - 1) in written && Point(w - 1, 0) in written
      modifies heighmap, this`drawn, this`maxi, this`min, this`written, this`log, this`lrflag
      ensures Valid()
      ensures drawn == old(drawn) + 5 * CallsBefore(rectangle, n + 1)
      ensures log == Run(old(log), Levels(n, rectangle, n + 1), old(drawn))
      ensures old(maxi) <= maxi && min <= old(min)
      ensures forall p :: InGrid(p, w, h) ==> p in written
    {
      var l := h - 1;
      ghost var t := 0;
      ghost var top, right := Point(0, h - 1), Point(w - 1, 0);
      while l > 0
        invariant t <= n + 1 && l == Side(n, t)
        invariant Valid()
        invariant drawn == old(drawn) + 5 * CallsBefore(rectangle, t)
        invariant log == Run(old(log), Levels(n, rectangle, t), old(drawn))
        invariant old(maxi) <= maxi && min <= old(min)
        invariant top in written && right in written
        invariant t == n + 1 ==> UnitCorners(written, w, h)
      {
        LevelShape(n, t, rectangle);
        ghost var before := log;
        DiamondSquareLevel(l, Columns(rectangle, t), Pow2(t));
        LevelsNext(old(log), n, rectangle, t, old(drawn), before, log);
        l := l / 2;
        t := t + 1;
      }
      FullCoverage(written, w, h);
    }

    /** Generates a Diamond-Square height map of side 2^degreeOfTwo + 1 (twice
        as wide less one when `rectangle`), drawing from a generator created
        with `seed`. The bounds are put in order, the seeds are drawn
        between them, and the levels of squares are processed. Every cell is
        written and ends between `min` and `maxi`, which enclose the ordered
        bounds; 5 draws are taken per square. */
    method DiamondSquareNoise(degreeOfTwo: UInt16, seed: UInt16, rectangle: bool, asperity: real, rMin: real, rMax: real)
      returns (result: array2<real>)
      modifies this`seed, this`drawn, this`roughness, this`h, this`w, this`heighmap, this`maxi, this`min, this`lrflag,
        this`written, this`log
      ensures result == heighmap && fresh(result)
      ensures h == Pow2(degreeOfTwo) + 1 && w == (if rectangle then 2 * h - 1 else h)
      ensures result.Length0 == w && result.Length1 == h
      ensures roughness == asperity && this.seed == seed
      ensures drawn == Seeds(rectangle) + 5 * CallsBefore(rectangle, degreeOfTwo + 1)
      ensures log == RunLog(degreeOfTwo, rectangle)
      ensures min <= Min(rMin, rMax) && Max(rMin, rMax) <= maxi
      ensures forall a, b :: 0 <= a < w && 0 <= b < h ==> min <= result[a, b] <= maxi
      ensures Valid()
    {
      this.seed, drawn := seed, 0;
      var lo, hi := rMin, rMax;
      if lo > hi {
        hi := hi + lo;
        lo := hi - lo;
        hi := hi - lo;
      }
      assert lo == Min(rMin, rMax) && hi == Max(rMin, rMax);
      roughness := asperity;
      h := Pow2(degreeOfTwo) + 1;
      w := h;
      written, log := {}, Start;
      GenerateHeights(degreeOfTwo, rectangle, lo, hi);
      result := heighmap;
    }

    /** The body of `DiamondSquareNoise` once the bounds are ordered: the
        seeds, then the levels, from the first draw of the generator. */
    method GenerateHeights(ghost n: nat, rectangle: bool, lo: real, hi: real)
      requires h == Pow2(n) + 1 && w == h && written == {} && log == Start && drawn == 0
      requires lo <= hi
      modifies this`w, this`heighmap, this`drawn, this`written, this`log, this`maxi, this`min, this`lrflag
      ensures w == (if rectangle then 2 * h - 1 else h)
      ensures fresh(heighmap) && heighmap.Length0 == w && heighmap.Length1 == h
      ensures drawn == Seeds(rectangle) + 5 * CallsBefore(rectangle, n + 1)
      ensures log == RunLog(n, rectangle)
      ensures min <= lo && hi <= maxi
      ensures forall a, b :: 0 <= a < w && 0 <= b < h ==> min <= heighmap[a, b] <= maxi
      ensures Valid()
    {
      InitialHeights(rectangle, lo, hi);
      ghost var seeded, width, height := log, w, h;
      DiamondSquareLevels(n, rectangle);
      RunLogAfterSeeds(n, rectangle, width, height, seeded, log);
      EveryCellBracketed();
    }

    /** Fills a fresh permutation table of w * h entries with the bytes the
        generator's `NextBytes` produces, given here as `bytes`. */
    method Perlin2D(bytes: seq<Byte>)
      modifies this`permutationTable
      requires 0 <= w * h <= |bytes|
      ensures fresh(permutationTable) && permutationTable[..] == bytes[..w * h]
    {
      var size := w * h;
      permutationTable := new Byte[size](k requires 0 <= k < size => bytes[k]);
    }

    /** The nested loops of `PerlineNoise` over rows y and columns x: cell
        (x, y) receives the clamped, remapped octave sum of `noise`, at index
        y * w + x. Nothing else in the object changes. */
    method FillNoiseMap(noise: (real, real) -> real, offsets: seq<Vec>, half: Vec, scale: real,
                        persistence: real, lacunarity: real)
      modifies noiseMap
      requires scale != 0.0
      requires w >= 0 && h >= 0 && noiseMap.Length == w * h
      ensures noiseMap[..] == NoiseMapValues(noise, offsets, half, scale, persistence, lacunarity, w, h)
    {
      ghost var values := NoiseMapValues(noise, offsets, half, scale, persistence, lacunarity, w, h);
      StepsIsProduct(h, w);
      var y := 0;
      while y < h
        invariant 0 <= y <= h && Steps(y, w) <= Steps(h, w)
        invariant forall k :: 0 <= k < Steps(y, w) ==> noiseMap[k] == values[k]
      {
        FillRow(noise, offsets, half, scale, persistence, lacunarity, y);
        if y + 1 < h {
          StepsMonotone(y + 1, h, w);
        }
        y := y + 1;
      }
    }

    /** The inner loop of `PerlineNoise` for row y: cells (0, y) to
        (w - 1, y), at indices y * w to y * w + w - 1, receive their values
        and the cells of the rows before keep theirs. */
    method FillRow(noise: (real, real) -> real, offsets: seq<Vec>, half: Vec, scale: real,
                   persistence: real, lacunarity: real, y: int)
      modifies noiseMap
      requires scale != 0.0
      requires 0 <= y < h && w >= 0 && noiseMap.Length == w * h
      ensures Steps(y + 1, w) == Steps(y, w) + w <= noiseMap.Length
      ensures forall k :: 0 <= k < Steps(y, w) ==> noiseMap[k] == old(noiseMap[k])
      ensures forall k :: Steps(y, w) <= k < Steps(y, w) + w ==>
        noiseMap[k] == NoiseMapValues(noise, offsets, half, scale, persistence, lacunarity, w, h)[k]
    {
      var cells := noiseMap;
      ghost var values := NoiseMapValues(noise, offsets, half, scale, persistence, lacunarity, w, h);
      var start := y * w;
      StepsIsProduct(y, w);
      StepsMonotone(y, h, w);
      StepsIsProduct(h, w);
      var x := 0;
      while x < w
        invariant 0 <= x <= w && start + w <= cells.Length == |values|
        invariant forall k :: 0 <= k < start ==> cells[k] == old(cells[k])
        invariant forall k :: start <= k < start + x ==> cells[k] == values[k]
      {
        var value := NoiseCell(noise, offsets, half, scale, persistence, lacunarity, x, y);
        MapCell(noise, offsets, half, scale, persistence, lacunarity, w, h, x, y);
        cells[start + x] := value;
        x := x + 1;
      }
    }

    /** Gradient noise map of width * height cells in row-major order. `shifts`
        stands for the draws of `Next(-100000, 100000)` (two per octave) and
        `tableBytes` for those of `NextBytes`; both seeds are replaced by
        these streams. */
    method PerlineNoise(width: int, height: int, shifts: seq<int>, tableBytes: seq<Byte>, scale: real,
                        octaves: nat, persistence: real, lacunarity: real, startX: real, startY: real)
      returns (result: array<real>)
      modifies this`w, this`h, this`noiseMap, this`permutationTable
      requires width >= 0 && height >= 0
      requires |tableBytes| >= width * height
      requires |shifts| >= 2 * octaves
      requires octaves > 0 && width * height > 0 ==> width * height >= 1024
      ensures w == width && h == height && result == noiseMap && fresh(result)
      ensures result.Length == width * height
      ensures fresh(permutationTable) && permutationTable[..] == tableBytes[..width * height]
      ensures forall k :: 0 <= k < result.Length ==> 0.0 <= result[k] <= 1.0
      ensures result[..] == NoiseMapValues(TableNoise(permutationTable[..]), OctaveOffsets(shifts, octaves, Vec(startX, startY), width, height),
                                     Vec(width as real / 2.0, height as real / 2.0), GuardScale(scale),
                                     persistence, lacunarity, width, height)
      ensures octaves == 0 ==> forall k :: 0 <= k < result.Length ==> result[k] == 0.5
    {
      w := width;
      h := height;
      noiseMap := new real[w * h];
      Perlin2D(tableBytes);
      var cells := noiseMap;
      var tableArray := permutationTable;
      var offset := Vec(startX, startY);
      var octavesOffset := new Vec[octaves];
      var i := 0;
      while i < octaves
        invariant 0 <= i <= octaves
        invariant forall j :: 0 <= j < i ==> octavesOffset[j] == OctaveOffset(shifts, offset, width, height, j)
        invariant w == width && h == height && noiseMap == cells && noiseMap.Length == width * height && fresh(noiseMap)
        invariant permutationTable == tableArray && fresh(permutationTable) && permutationTable[..] == tableBytes[..width * height]
      {
        var xOffset := shifts[2 * i] as real + offset.x;
        var yOffset := shifts[2 * i + 1] as real + offset.y;
        octavesOffset[i] := Vec(Ratio(xOffset, w), Ratio(yOffset, h));
        i := i + 1;
      }
      var offsets := octavesOffset[..];
      assert offsets == OctaveOffsets(shifts, octaves, offset, width, height);
      var s := GuardScale(scale);
      var halfWidth, halfHeight := w as real / 2.0, h as real / 2.0;
      var half := Vec(halfWidth, halfHeight);
      ghost var table := permutationTable[..];
      var noise := TableNoise(permutationTable[..]);
      FillNoiseMap(noise, offsets, half, s, persistence, lacunarity);
      assert permutationTable[..] == table;
      assert noise == TableNoise(permutationTable[..]);
      assert half == Vec(width as real / 2.0, height as real / 2.0);
      assert offsets == OctaveOffsets(shifts, octaves, Vec(startX, startY), width, height);
      result := noiseMap;
      assert result[..] == NoiseMapValues(noise, offsets, half, s, persistence, lacunarity, width, height);
    }
  }
}
