# NoisesLibrary heightmap generators in Dafny

A model of `NoisesClass`, which holds two unrelated heightmap generators.

- **Gradient noise** (`PerlineNoise`). It fills a `width * height` map in row-major order. Each cell sums several octaves of Perlin-style gradient noise. The sum is clamped to [-1, 1] and remapped to [0, 1]. A sample hashes the four surrounding lattice points into a permutation table of random bytes and picks one of four axis gradients per point. It then blends the four dot products with a quintic fade.
- **Diamond-Square** (`DiamondSquareNoise`). It fills a grid of side 2^n + 1 in place, or one twice as wide less one column in rectangular mode. It draws 4 or 6 seed heights, then walks square sides h - 1, (h - 1) / 2, ..., 1, by column, then by row. For each square it writes the centre and then the four edge midpoints. Each is the mean of four cells plus a random displacement. Neighbours that fall off the grid are replaced by wrap indices that depend on `lrflag`. The running `min` and `maxi` widen to take in every value written.

The model has six modules.

- `Bits`: C# integer semantics over unbounded integers. This covers 32-bit wrap-around, the 64-bit two's-complement pattern, and bitwise AND and XOR on patterns. It also has the row-major index arithmetic.
- `Gradient`: the pure parts of the gradient noise. These are the lattice hash, the gradient lookup, `QunticCurve`, `Lerp`, `Dot` and `NoisePerline`.
- `Octaves`: what the octave loop computes for one cell, and the whole map as a sequence.
- `Lattice`: the index arithmetic of Diamond-Square. This covers the wrap resolver, the displacement, the draw count and the coverage of the grid.
- `Schedule`: the order of the Diamond-Square writes. A `Trail` lists each write as a cell and the number of the draw its height used.
  - `Run` extends a trail by a square, a column, a level or all levels, following the nesting of the source's loops: sides h - 1, (h - 1) / 2, ..., 1; columns left to right; squares by increasing y, top to bottom.
  - `RunCells` is an independent flat list of the same cells: the seeds, then each square's five targets in loop order.
  - `RunWrites` proves that write k of a whole run is cell k of that list and uses draw k.
- `NoisesLibrary`: the class `NoisesClass`, with the source's fields, and the imperative methods.
  - The methods are `PerlineNoise`, `Perlin2D`, `DiamondSquareNoise`, `DiamondSquare`, `Square` and `Diamond`.
  - Some loops and blocks of these methods are split out into methods of their own, named below.
  - Each method is proved against the specification functions of the modules above.

Floats are reals. Each random generator is an input stream.
- `NextBytes` and `Next(-100000, 100000)` become sequences passed in.
- `NextDouble` of the generator created with `seed` is `generator(seed)(i)`, where `generator` is fixed when the object is made. The field `drawn` counts the values taken.
- The ghost field `log` is the `Trail` of the current Diamond-Square run. Each write of a seed or a target appends its cell and draw number.

Three behaviours of the code are easy to miss. The model follows the code in each.

- **A map with `degreeOfTwo = 0` does not keep its four seeds unchanged.**
  - The grid is 2 by 2 (3 by 2 in rectangular mode). The level loop runs once, with l = 1.
  - `DiamondSquare(0, 0, 1, 1)` then computes a half side of 0. The square step overwrites [0, 0] with the mean of the four corners, and five draws are consumed (`Lattice.UnitSquareTargets`).
- **`min` and `maxi` are not the exact extremes of the grid.**
  - They start at the ordered bounds, not at the seed values.
  - They keep values that later writes overwrite.
  - The model proves that they enclose every cell (`NoisesLibrary.NoisesClass.DiamondSquareNoise`).
- **A displacement lies in [-z, z), not [-z, z].** `NextDouble` is below 1.

## Model

| member | source | states |
|---|---|---|
| Bits.Wrap32 | NoisesLibrary/NoisesClass.cs:126 | the int32 product `x * 1836311903` as kept by unchecked arithmetic: in [-2^31, 2^31) and congruent to the exact product modulo 2^32 |
| Bits.Bits64 | NoisesLibrary/NoisesClass.cs:126 | the 64-bit pattern of a `long` operand of `^`: below 2^64 and congruent to the value modulo 2^64 |
| Bits.BitAndLowMask | NoisesLibrary/NoisesClass.cs:126-127 | `a & (2^k - 1)` keeps exactly the low k bits, a mod 2^k (used for `& 1023` and `& 3`) |
| Bits.BitXorLowBits | NoisesLibrary/NoisesClass.cs:126 | the low k bits of a XOR are the XOR of the low k bits of the operands |
| Bits.XorBelow | NoisesLibrary/NoisesClass.cs:126 | the XOR of two k-bit patterns is a k-bit pattern |
| Bits.LowTenBitsKept | NoisesLibrary/NoisesClass.cs:126 | wrapping to 32 bits or reading as 64 bits leaves the low ten bits unchanged |
| Bits.StepsIsProduct | NoisesLibrary/NoisesClass.cs:245-253 | a loop variable advanced `count` times by `size` (`x += l`, `y += l`) equals count * size |
| Bits.StepsMonotone | NoisesLibrary/NoisesClass.cs:245-253 | a variable advanced fewer times is at least one step behind |
| Bits.CellIndex | NoisesLibrary/NoisesClass.cs:108 | index y * w + x of cell (x, y) gives back x as remainder and y as quotient |
| Bits.RowMajor | NoisesLibrary/NoisesClass.cs:42-108 | the index y * w + x of an in-grid cell is below w * h, the length of `noiseMap` |
| Gradient.Hash | NoisesLibrary/NoisesClass.cs:126 | the lattice hash, computed as C# does (wrapped int product, long sum, XOR, `& 1023`), is in 0..1023 and equals ((x * 1836311903) mod 1024) XOR ((y * 2971215073 + 4807526976) mod 1024) |
| Gradient.HashPeriodic | NoisesLibrary/NoisesClass.cs:126 | the hash repeats every 1024 lattice points along each axis |
| Gradient.GetPseudoRandomGradientVector | NoisesLibrary/NoisesClass.cs:123-135 | for a table of at least 1024 entries, the gradient is the one of (1,0), (-1,0), (0,1), (0,-1) indexed by `permutationTable[hash] & 3`, and is equal to gradient i exactly when the entry is i mod 4 |
| Gradient.QunticCurve | NoisesLibrary/NoisesClass.cs:138-142 | the fade is 0 at 0 and 1 at 1, and maps [0, 1] into [0, 1] |
| Gradient.Lerp | NoisesLibrary/NoisesClass.cs:144-148 | gives a at t = 0 and b at t = 1, and for t in [0, 1] stays between a and b |
| Gradient.Dot | NoisesLibrary/NoisesClass.cs:150-154 | against one of the four gradients the product is one coordinate of the vector, possibly negated |
| Gradient.NoisePerline | NoisesLibrary/NoisesClass.cs:156-188 | every sample lies in [-1, 1], and a sample at a lattice point (both coordinates integers) is 0 |
| Gradient.Sampler | NoisesLibrary/NoisesClass.cs:88 | the noise function `NoisePerline` over a fixed table is bounded by 1 everywhere |
| Gradient.TableNoise | NoisesLibrary/NoisesClass.cs:88 | the noise sampled by the octave loop: `NoisePerline` over the table when it has at least 1024 entries, always bounded by 1 |
| Octaves.RPowStep | NoisesLibrary/NoisesClass.cs:95-96 | `amplitude *= persistence` and `frequency *= lacunarity` turn b^i into b^(i+1) |
| Octaves.Compensation | NoisesLibrary/NoisesClass.cs:78-97 | the compensation subtracted at octave i is 0 for i = 0 and half of persistence^i afterwards |
| Octaves.AmplitudeDecays | NoisesLibrary/NoisesClass.cs:95 | for 0 < persistence < 1 each octave's amplitude is positive and smaller than the one before |
| Octaves.Ratio | NoisesLibrary/NoisesClass.cs:57 | `offset / w` in float division, the exact quotient when w is not 0 |
| Octaves.OctaveOffset | NoisesLibrary/NoisesClass.cs:53-58 | octave i's offset, times w and h, is the i-th pair of `Next` draws shifted by the start point |
| Octaves.OctaveOffsets | NoisesLibrary/NoisesClass.cs:52-58 | one offset per octave, in draw order |
| Octaves.OctaveSamples | NoisesLibrary/NoisesClass.cs:81-88 | one noise sample per octave, taken at the octave's frequency and offset |
| Octaves.OctaveSumBounded | NoisesLibrary/NoisesClass.cs:81-98 | with samples in [-1, 1] the accumulated height stays within the sum of the amplitude and compensation magnitudes so far, a bound that can exceed 1 |
| Octaves.CellHeightBounded | NoisesLibrary/NoisesClass.cs:75-98 | a cell's height before the clamp is bounded by the octave budget whenever the noise is bounded by 1 |
| Octaves.Remap | NoisesLibrary/NoisesClass.cs:101-108 | clamp then remap gives a value in [0, 1], 0 at or below -1, 1 at or above 1, inverted by 2r - 1 inside [-1, 1] |
| Octaves.RemapMonotone | NoisesLibrary/NoisesClass.cs:101-108 | clamp-and-remap preserves the order of heights |
| Octaves.CellValue | NoisesLibrary/NoisesClass.cs:74-108 | the stored value of a cell lies in [0, 1] |
| Octaves.NoiseMapValues | NoisesLibrary/NoisesClass.cs:70-110 | the map has w * h entries, all in [0, 1], and all 0.5 when there are no octaves |
| Octaves.MapCell | NoisesLibrary/NoisesClass.cs:108 | entry y * w + x of the map, below w * h, holds the value of cell (x, y) |
| Octaves.MapCellsDistinct | NoisesLibrary/NoisesClass.cs:108 | distinct cells have distinct indices, so each entry is written by one cell only |
| Octaves.ScaleGuardAsWritten | NoisesLibrary/NoisesClass.cs:60-63 | the guard as written is never negative and is 0 exactly when the scale is 0 |
| Octaves.GuardScale | NoisesLibrary/NoisesClass.cs:60-63 | the corrected guard is always positive, keeps a positive scale and replaces any other by 0.0001 |
| Octaves.ScaleGuardsAgree | NoisesLibrary/NoisesClass.cs:60-63 | the two guards give the same scale exactly when the scale is not 0 |
| NoisesLibrary.OctaveHeight | NoisesLibrary/NoisesClass.cs:75-98 | the octave loop, with invariants amplitude = persistence^i, frequency = lacunarity^i, compensation = Compensation(i), returns the octave sum of the cell's samples |
| NoisesLibrary.SampleAt | NoisesLibrary/NoisesClass.cs:84-88 | the sample taken at `xResult`, `yResult` is the octave's sample |
| NoisesLibrary.OctaveStep | NoisesLibrary/NoisesClass.cs:90-97 | one pass of the octave loop extends the sum by one octave and advances amplitude and compensation |
| NoisesLibrary.ClampedCell | NoisesLibrary/NoisesClass.cs:101-108 | the two clamping `if`s followed by `(h + 1) / 2` give the cell value |
| NoisesLibrary.NoiseCell | NoisesLibrary/NoisesClass.cs:74-108 | the body of the cell loop returns the cell value |
| NoisesLibrary.NoisesClass.FillRow | NoisesLibrary/NoisesClass.cs:72-109 | row y fills indices y * w to y * w + w - 1 with the map's values and leaves the earlier rows unchanged |
| NoisesLibrary.NoisesClass.FillNoiseMap | NoisesLibrary/NoisesClass.cs:70-110 | the nested loops leave `noiseMap` equal to the map's values |
| NoisesLibrary.NoisesClass.Perlin2D | NoisesLibrary/NoisesClass.cs:115-121 | the permutation table is a fresh array of w * h bytes, the first w * h of the stream |
| NoisesLibrary.NoisesClass.PerlineNoise | NoisesLibrary/NoisesClass.cs:37-113 | returns the fresh `noiseMap` of width * height entries, equal to the map of gradient noise over the fresh table with the drawn offsets and the guarded scale; every entry in [0, 1], all 0.5 without octaves; only `w`, `h`, `noiseMap` and `permutationTable` change, so the Diamond-Square state is left alone |
| NoisesLibrary.NoisesClass.constructor | NoisesLibrary/NoisesClass.cs:195-200 | a fresh object with an empty grid and no draws taken |
| NoisesLibrary.NoisesClass.NextDouble | NoisesLibrary/NoisesClass.cs:292 | returns the next value of the stream and advances it by one |
| NoisesLibrary.NoisesClass.Record | NoisesLibrary/NoisesClass.cs:292-297 | stores a height and makes `maxi` and `min` the running maximum and minimum including it; no other cell changes; the log gains the cell with its draw number |
| NoisesLibrary.NoisesClass.Square | NoisesLibrary/NoisesClass.cs:274-298 | the centre gets the mean of the four corners plus the displacement of the next draw; one draw, one cell written and added to the written set; `maxi` and `min` become the maximum and minimum of their old values and the new height |
| NoisesLibrary.NoisesClass.Diamond | NoisesLibrary/NoisesClass.cs:301-350 | the target gets the mean of its four wrapped neighbours plus the displacement of the next draw; every index read is in the grid; one draw, one cell written and added to the written set; `maxi` and `min` become the maximum and minimum of their old values and the new height |
| NoisesLibrary.NoisesClass.DiamondSteps | NoisesLibrary/NoisesClass.cs:267-271 | the four diamond steps write the left, right, bottom and top midpoints in that order, one draw each, logged in that order; the written set grows by exactly those four cells; no other cell changes and the bracket only widens |
| NoisesLibrary.NoisesClass.DiamondSquare | NoisesLibrary/NoisesClass.cs:259-272 | writes the centre and the left, right, bottom and top midpoints, takes exactly 5 draws, adds exactly those five cells to the written set, changes no other cell, and the bracket only widens; the log gains the square's five `Targets` in that order, with draws old(drawn) to old(drawn) + 4 |
| NoisesLibrary.NoisesClass.PlaceSeed | NoisesLibrary/NoisesClass.cs:236-239 | one seed `NextDouble() * (RMax - RMin) + RMin` is stored at its cell, one draw, no other cell changes; the log gains the cell with that draw |
| NoisesLibrary.NoisesClass.SeedMiddle | NoisesLibrary/NoisesClass.cs:225-231 | rectangular mode: w = 2h - 1, then [h-1, h-1] and [h-1, 0] receive the first two draws, logged in that order |
| NoisesLibrary.NoisesClass.SeedCorners | NoisesLibrary/NoisesClass.cs:236-239 | [0, 0], [0, h-1], [w-1, h-1], [w-1, 0] receive the next four draws in that order, logged in that order; no other cell changes |
| NoisesLibrary.NoisesClass.SeedEdges | NoisesLibrary/NoisesClass.cs:224-239 | the seeding block: 4 or 6 draws, each seed cell holds the seed of its own draw in [RMin, RMax], the written cells are exactly the seeds, and the log gains `SeedCells` in draw order |
| NoisesLibrary.NoisesClass.InitialHeights | NoisesLibrary/NoisesClass.cs:224-242 | after seeding, `maxi` = RMax and `min` = RMin bracket every seed; the log gains `SeedCells` in draw order |
| NoisesLibrary.NoisesClass.WithinBracket | NoisesLibrary/NoisesClass.cs:241-242 | bounds enclosing every written cell make the state consistent |
| NoisesLibrary.NoisesClass.ColumnSquare | NoisesLibrary/NoisesClass.cs:253-254 | one pass of the row loop: one `DiamondSquare` of side l at (x, y), 5 draws logged as that square's `Schedule.Run`, written cells stay written, the bracket only widens, and at side 1 the column's written corners extend by one row |
| NoisesLibrary.NoisesClass.DiamondSquareColumn | NoisesLibrary/NoisesClass.cs:253-254 | called with `lrflag` set exactly when x >= h - 1; the row loop takes 5 draws per square and logs its squares by increasing y, top to bottom (`Schedule.Run` of a column); it keeps written cells written and the bracket widening, and at side 1 writes both corners of every unit square of the column |
| NoisesLibrary.NoisesClass.DiamondSquareLevel | NoisesLibrary/NoisesClass.cs:246-255 | sets `lrflag` to x >= h - l, which it proves is x >= h - 1 (`Lattice.LrFlagMeaning`) as each column requires; the column loop takes 5 draws per square and logs its columns left to right (`Schedule.Run` of a level); at side 1 it writes every cell except possibly [0, h-1] and [w-1, 0] |
| NoisesLibrary.NoisesClass.DiamondSquareLevels | NoisesLibrary/NoisesClass.cs:245-255 | the level loop logs its levels by halving side (`Schedule.Run` of all levels), takes 5 draws per `DiamondSquare` call and writes every cell of the grid |
| NoisesLibrary.NoisesClass.EveryCellBracketed | NoisesLibrary/NoisesClass.cs:256 | once every cell is written, every height lies between `min` and `maxi` |
| NoisesLibrary.NoisesClass.DiamondSquareNoise | NoisesLibrary/NoisesClass.cs:211-257 | returns the fresh grid of side 2^n + 1 (width 2h - 1 if rectangular); `min` and `maxi` enclose the ordered bounds and every cell; Seeds + 5 * CallsBefore draws are taken, and the log is `Schedule.RunLog`, the seeds and then every level; `noiseMap` and `permutationTable` are left alone |
| NoisesLibrary.NoisesClass.GenerateHeights | NoisesLibrary/NoisesClass.cs:224-256 | from a fresh generator and an empty log: seeds, then levels; every cell lies between `min` <= RMin and `maxi` >= RMax, and the log is `Schedule.RunLog` |
| Lattice.Average | NoisesLibrary/NoisesClass.cs:292 | the mean of four heights lies between their least and greatest, and is the height when all four agree |
| Lattice.Spread | NoisesLibrary/NoisesClass.cs:291 | z * h = 2l * roughness, z >= 0 for l >= 0 and roughness >= 0, and z = 0 at half side 0 |
| Lattice.Displacement | NoisesLibrary/NoisesClass.cs:292 | for a draw in [0, 1) the displacement lies in [-z, z); with z = 0 it is 0 |
| Lattice.Fraction | NoisesLibrary/NoisesClass.cs:229 | a draw in [0, 1) scales a positive span to a part below the whole |
| Lattice.SeedValue | NoisesLibrary/NoisesClass.cs:229-239 | a seed lies in [RMin, RMax), and equals RMin when the bounds meet |
| Lattice.Targets | NoisesLibrary/NoisesClass.cs:259-271 | the five cells a `DiamondSquare` call writes, in order, all inside the square |
| Lattice.DiamondCorners | NoisesLibrary/NoisesClass.cs:303-340 | the four neighbours `Diamond` reads, with the wraps h - l (top), w - l or h - l (left), l (bottom), l (right); all in the grid for an in-grid target, and all the target itself at half side 0 when the target's column is below w with the flag set, or below h with it clear |
| Lattice.LrFlagMeaning | NoisesLibrary/NoisesClass.cs:248-251 | on the column lattice, x >= h - l holds exactly when x >= h - 1, so `lrflag` marks the right tile |
| Lattice.LeftWrapIgnoresFlag | NoisesLibrary/NoisesClass.cs:312-318 | the left wrap to column w - l is never taken: a wrapping target is in the left tile |
| Lattice.ColumnLeftReads | NoisesLibrary/NoisesClass.cs:253-254 | in a column whose left edge is at or right of h - 1 whenever `lrflag` is set, every diamond step of every square reads its left neighbour as with the flag clear |
| Lattice.LevelLeftReads | NoisesLibrary/NoisesClass.cs:246-254 | with `lrflag` set as the level loop sets it (x >= h - l), no diamond step of any square of the level takes the left wrap to column w - l |
| Lattice.TopWrapOffLattice | NoisesLibrary/NoisesClass.cs:306-309 | the top wrap row h - l is not a lattice row of the level (one past a multiple of l) |
| Lattice.FirstWrapReads | NoisesLibrary/NoisesClass.cs:306-318 | at n = 2 the first square's left and top midpoints read [3, 2] and [2, 3], which are off the side-4 lattice |
| Lattice.SeamWrap | NoisesLibrary/NoisesClass.cs:334-339 | in rectangular mode a target on column h - 1 with the flag clear reads its right neighbour from column l, although column h - 1 + l exists |
| Lattice.UnitSquareTargets | NoisesLibrary/NoisesClass.cs:259-271 | at side 1 a call writes only (lx, ly) and (lx + 1, ly + 1), each twice or more |
| Lattice.ZeroHalfDiamondKeepsHeight | NoisesLibrary/NoisesClass.cs:343-344 | a diamond step at half side 0 rewrites the target's own height |
| Lattice.SharedMidpoints | NoisesLibrary/NoisesClass.cs:268-271 | neighbouring squares share an edge midpoint, which is written twice |
| Lattice.CallsClosedForm | NoisesLibrary/NoisesClass.cs:245-254 | a square map of side 2^n + 1 makes (4^(n+1) - 1) / 3 `DiamondSquare` calls, a rectangular one twice that |
| Lattice.LevelCalls | NoisesLibrary/NoisesClass.cs:245-254 | level s makes 4^s calls, 2 * 4^s in rectangular mode |
| Lattice.LevelGrid | NoisesLibrary/NoisesClass.cs:245-253 | the squares of a level tile the grid exactly |
| Lattice.LevelShape | NoisesLibrary/NoisesClass.cs:245-253 | level t has side 2^(n-t) >= 1; halving gives the next side, and side 1 is the last level |
| Lattice.StepBelow | NoisesLibrary/NoisesClass.cs:246-253 | a loop coordinate short of the last lattice line is a full step short of it |
| Lattice.HalveSide | NoisesLibrary/NoisesClass.cs:245 | `l /= 2` moves to the next level and ends the loop after side 1 |
| Lattice.SeedCornersUntouched | NoisesLibrary/NoisesClass.cs:245-271 | no square writes the seeds [0, h-1] and [w-1, 0] |
| Lattice.FullCoverage | NoisesLibrary/NoisesClass.cs:245-256 | the two corners of every unit square plus those two seeds are every cell of the grid |
| Lattice.ColumnCornersGrow | NoisesLibrary/NoisesClass.cs:253-254 | a `DiamondSquare` of a unit square at (x, y) adds its corners (x, y) and (x + 1, y + 1), so the corners written in column x extend by one row |
| Lattice.ColumnBlockGrows | NoisesLibrary/NoisesClass.cs:253-254 | a written block of one column grows by a row once the next cell of the column is written |
| Schedule.ContinueEntries | NoisesLibrary/NoisesClass.cs:229-239 | writing a list of cells one draw each adds, after the earlier writes, cell k with draw start + k for every k |
| Schedule.ContinueJoin | NoisesLibrary/NoisesClass.cs:224-239 | writing one list of cells and then another is writing both, the second list's draws following the first's |
| Schedule.ContinueTwo | NoisesLibrary/NoisesClass.cs:229-230 | two seeds written in turn take two consecutive draws |
| Schedule.ContinueFour | NoisesLibrary/NoisesClass.cs:236-239 | four seeds written in turn take four consecutive draws |
| Schedule.SeedCells | NoisesLibrary/NoisesClass.cs:224-239 | the seed cells in draw order, 4 of them or 6 in rectangular mode |
| Schedule.SquareWrites | NoisesLibrary/NoisesClass.cs:259-271 | one square writes its `Targets` in order with five consecutive draws |
| Schedule.SquareCells | NoisesLibrary/NoisesClass.cs:265-271 | one square's writes, cell by cell: centre, left, right, bottom and top midpoints |
| Schedule.LevelsNext | NoisesLibrary/NoisesClass.cs:245 | one more pass of the level loop extends the logged levels by one level |
| Schedule.ColumnNext | NoisesLibrary/NoisesClass.cs:253-254 | one more pass of the row loop extends the logged column by one square |
| Schedule.LevelNext | NoisesLibrary/NoisesClass.cs:246-254 | one more pass of the column loop extends the logged level by one column |
| Schedule.RunLogAfterSeeds | NoisesLibrary/NoisesClass.cs:224-254 | the levels logged after the seeds make the whole run |
| Schedule.ColumnCellsLength | NoisesLibrary/NoisesClass.cs:253-254 | a column of j squares writes 5j cells |
| Schedule.LevelCellsLength | NoisesLibrary/NoisesClass.cs:246-254 | a level writes 5 cells per square |
| Schedule.LevelsCellsLength | NoisesLibrary/NoisesClass.cs:245-254 | the first k levels write 5 * CallsBefore(k) cells |
| Schedule.RunCellsLength | NoisesLibrary/NoisesClass.cs:224-254 | a run writes Seeds + 5 * CallsBefore cells |
| Schedule.ColumnCellsNext | NoisesLibrary/NoisesClass.cs:253-254 | one more square appends its five targets to a column's cells |
| Schedule.LevelCellsNext | NoisesLibrary/NoisesClass.cs:246-254 | one more column appends its cells to a level's cells |
| Schedule.LevelsCellsNext | NoisesLibrary/NoisesClass.cs:245-254 | one more level appends its cells to the earlier levels' cells |
| Schedule.ColumnWrites | NoisesLibrary/NoisesClass.cs:253-254 | the log of a column is its flat list of cells, squares by increasing y (top to bottom), one draw each in order |
| Schedule.LevelWrites | NoisesLibrary/NoisesClass.cs:246-254 | the log of a level is its flat list of cells, columns left to right, one draw each in order |
| Schedule.LevelsWrites | NoisesLibrary/NoisesClass.cs:245-254 | the log of the levels is their flat list of cells, by halving side, one draw each in order |
| Schedule.RunLogCells | NoisesLibrary/NoisesClass.cs:224-254 | a run's log is its flat list of cells, seeds first, written from draw 0 |
| Schedule.RunWrites | NoisesLibrary/NoisesClass.cs:224-254 | write k of a run is cell k of `RunCells` and uses draw k: no draw is skipped or used twice, and the cells follow the loop order |

## Left out

- Floating point: heights, samples, amplitudes and coordinates are reals. Rounding, the exactness of the add-and-subtract swap of `RMin` and `RMax`, and infinities or NaN are not modelled.
- `System.Random` internals. `NextBytes` and `Next(-100000, 100000)` are sequences passed in, and the values `NextDouble` returns are the fixed function `generator` of the seed. Whether one seed gives the platform's values is not modelled.
- `Math.Pow(2, degreeOfTwo)` in double and the `(int)` cast: the side is 2^n exactly. Overflow and failed allocation for large n are not modelled.
- NoisesLibrary.NoisesClass.PerlineNoise: requires w * h >= 1024 whenever an octave samples the noise. The source indexes the table with hashes up to 1023 and may throw for smaller maps.
- NoisesLibrary.NoisesClass.PerlineNoise: uses the corrected scale guard, so scale 0 becomes 0.0001 (see Findings). The source keeps 0 (lines 60-63) and divides by it (lines 84-85). Its sample coordinates are then infinite or NaN, which the real-valued model cannot express.
- NoisesLibrary.NoisesClass.PerlineNoise: requires width >= 0 and height >= 0, and takes `octaves` as a natural number. The source accepts other values.
  - With width = height = -32, the product is 1024. The source allocates 1024 entries, its loops over y < h and x < w do not run, and it returns 1024 zeros.
  - With one negative dimension and the other positive, `new float[w * h]` throws OverflowException (line 42).
  - With one negative dimension and the other 0, the product is 0. Both allocations (lines 42 and 119) succeed, no loop runs, and the source returns an empty map.
  - With negative `octaves`, `new VectorXY[octaves]` throws OverflowException (line 52).
- NoisesLibrary.NoisesClass.PerlineNoise: sizes and indices are unbounded integers. The source computes `w * h` (lines 42 and 119) and `y * w + x` (line 108) in 32-bit arithmetic. For large maps these wrap: 65536 by 65536 allocates 0 entries. The first table lookup (line 127) then indexes out of range, or line 108 does when there are no octaves, where the model returns 2^32 values.
- Gradient.NoisePerline: the floor of a sample coordinate is an unbounded integer. The source casts `Math.Floor` to a 32-bit `int` (lines 159-160) and adds 1 (lines 165-167). A tiny scale and several octaves can push a coordinate beyond the 32-bit range. The cast's result is then unspecified in C#, and `left + 1` or `top + 1` can wrap to the least `int`, so the source may pick other gradients than the model.
- Static fields and concurrency: `heighmap`, `roughness`, `randds`, `maxi`, `min` and `lrflag` are fields of the one object, and calls from several threads are not modelled.
- Fresh arrays are not assumed to hold zeros. A new `float[,]` in the source is all 0; in the model, unwritten cells hold arbitrary heights.
  - The gradient map writes every entry before it is returned (`NoisesLibrary.NoisesClass.FillNoiseMap`).
  - In Diamond-Square, some cells are read before any write reaches them. `Diamond`'s top wrap (row h - l, line 309) and left wrap (column h - l, line 318) fall off the lattice for half sides l >= 2 (`Lattice.TopWrapOffLattice`).
  - Example: in a square map with n = 2, the first call's left midpoint [0, 2] reads [3, 2], and its top midpoint [2, 0] reads [2, 3]. No write has reached either cell yet (`Lattice.FirstWrapReads`).
  - The source averages a 0 into such a mean; the model averages an arbitrary height. `NoisesLibrary.NoisesClass.Diamond` states the mean of whatever the four cells hold, so its value agrees with the source only when those cells hold 0.
  - The bracket proofs hold for any contents, since `Record` widens `min` and `maxi` to every value written.
- NoisesLibrary.NoisesClass.DiamondSteps: its contract names the four cells and draw numbers, not the heights. `NoisesLibrary.NoisesClass.Diamond` states each height, one write at a time. The four are not all means of the heights before the call: in a map of side 3, the top midpoint (1, 0) of the one square wraps to row h - l = 2 and reads the bottom midpoint (1, 2) written just before it (NoisesClass.cs:270-271, :304-307).
- NoisesLibrary.NoisesClass.DiamondSquare: its log contract names the cells and the draw numbers, not the heights. The height of each target is stated by `NoisesLibrary.NoisesClass.Square` and `NoisesLibrary.NoisesClass.Diamond`, one write at a time.
- NoisesLibrary.NoisesClass.DiamondSquareNoise: states that `min` and `maxi` enclose every cell. It does not state that they are the extremes, which they are not (see above). It does not state the seed values either: `NoisesLibrary.NoisesClass.SeedEdges` states them, and the levels may overwrite a seed afterwards, as the last level does with [0, 0].
- NoisesLibrary.NoisesClass.DiamondSquare: its frame clause names the five cells it writes explicitly rather than through `Lattice.Targets`. The two lists agree point for point (`Schedule.SquareCells`).
- NoisesLibrary.NoisesClass.DiamondSquareLevel: the `lrflag` it leaves after the last column is not stated as an ensures. Each column is run with the flag set exactly when x >= h - 1 (`NoisesLibrary.NoisesClass.DiamondSquareColumn`'s requires). The effect on the left wrap is stated about the squares (`Lattice.LevelLeftReads`), not about the heights written.
- Default arguments: the source's `PerlineNoise` defaults (line 37: `seedOctaveShift = 1`, `seedPermutationTable = 1`, `scale = 100`, `octaves = 3`, `persistence = 0.5f`, `lacunarity = 2`, `startX = startY = 0`) and `DiamondSquareNoise` defaults (line 211: `RMin = 0.3f`, `RMax = 0.6f`) are not modelled. Every argument is explicit in the model, and a call that relies on a default is the call with that value written out.
- `VectorXY`, the `float[]` gradients and the statistical quality of the noise are not modelled. Gradients are pairs of reals.

## Findings

| source | as written | input that shows it | evidently intended | confidence | as-written member | corrected member |
|---|---|---|---|---|---|---|
| NoisesLibrary/NoisesClass.cs:60-63 | only `scale < 0` is replaced by 0.0001, so scale 0 passes and every sample coordinate divides by zero | scale = 0 | every non-positive scale replaced by 0.0001, leaving a positive divisor | not executed | Octaves.ScaleGuardAsWritten | Octaves.GuardScale |
