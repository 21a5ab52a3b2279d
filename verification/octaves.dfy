/** What the octave loop of `PerlineNoise` computes for one cell of the noise
    map, stated for an arbitrary noise function `noise` so that the facts about
    the accumulation do not depend on how one sample is produced: per-octave
    amplitude, frequency and compensation, the sampling coordinates, the
    accumulated height, the clamp-and-remap, and the scale guard. */
module Octaves {
  import opened Bits
  import opened Gradient

  /** b^n: the value `amplitude` (b = persistence) or `frequency`
      (b = lacunarity) holds before octave n. */
  function RPow(b: real, n: nat): real
  {
    if n == 0 then 1.0 else RPow(b, n - 1) * b
  }

  /** Multiplying b^n by b gives b^(n+1). */
  lemma RPowStep(b: real, n: nat, v: real)
    requires v == RPow(b, n)
    ensures v * b == RPow(b, n + 1)
  {
  }

  /** The compensation subtracted at octave n: nothing at the first octave,
      then half the amplitude set at the end of the previous octave. */
  function Compensation(persistence: real, n: nat): (c: real)
    ensures n == 0 ==> c == 0.0
    ensures n > 0 ==> 2.0 * c == RPow(persistence, n)
  {
    if n == 0 then 0.0 else RPow(persistence, n) / 2.0
  }

  /** With 0 < persistence < 1 every octave has a smaller, still positive
      amplitude than the one before. */
  lemma {:induction false} AmplitudeDecays(persistence: real, n: nat)
    requires 0.0 < persistence < 1.0
    ensures 0.0 < RPow(persistence, n + 1) < RPow(persistence, n)
  {
    if n > 0 {
      AmplitudeDecays(persistence, n - 1);
    }
  }

  /** `a / d` in float arithmetic where `d` is a map dimension. For a zero
      dimension the float result (an infinity or NaN) is replaced by 0; such a
      map has no cells, so the value is never read. */
  function Ratio(a: real, d: int): (r: real)
    ensures d != 0 ==> r * d as real == a
  {
    if d == 0 then 0.0 else a / d as real
  }

  /** The offset of octave i: the i-th pair of draws from `Next(-100000, 100000)`,
      shifted by the start point and divided by the map's width and height. */
  function OctaveOffset(shifts: seq<int>, start: Vec, width: int, height: int, i: nat): (v: Vec)
    requires 2 * i + 1 < |shifts|
    ensures width != 0 ==> v.x * width as real == shifts[2 * i] as real + start.x
    ensures height != 0 ==> v.y * height as real == shifts[2 * i + 1] as real + start.y
  {
    Vec(Ratio(shifts[2 * i] as real + start.x, width), Ratio(shifts[2 * i + 1] as real + start.y, height))
  }

  /** The offsets of all octaves, in draw order. */
  function OctaveOffsets(shifts: seq<int>, octaves: nat, start: Vec, width: int, height: int): (r: seq<Vec>)
    requires |shifts| >= 2 * octaves
    ensures |r| == octaves
    ensures forall i :: 0 <= i < octaves ==> r[i] == OctaveOffset(shifts, start, width, height, i)
  {
    seq(octaves, i requires 0 <= i < octaves => OctaveOffset(shifts, start, width, height, i))
  }

  /** The coordinate at which an octave of the given frequency samples the
      noise for cell coordinate c. */
  function SampleCoord(c: int, half: real, scale: real, frequency: real, offset: real): real
    requires scale != 0.0
  {
    (c as real - half) / scale * frequency + offset * frequency
  }

  /** The noise sample octave i takes for cell (x, y). */
  function OctaveSample(noise: (real, real) -> real, offsets: seq<Vec>, half: Vec, scale: real,
                        lacunarity: real, x: int, y: int, i: nat): real
    requires scale != 0.0 && i < |offsets|
  {
    var frequency := RPow(lacunarity, i);
    noise(SampleCoord(x, half.x, scale, frequency, offsets[i].x),
          SampleCoord(y, half.y, scale, frequency, offsets[i].y))
  }

  /** The samples the octaves take for cell (x, y), in octave order. */
  function OctaveSamples(noise: (real, real) -> real, offsets: seq<Vec>, half: Vec, scale: real,
                         lacunarity: real, x: int, y: int): (r: seq<real>)
    requires scale != 0.0
    ensures |r| == |offsets|
    ensures forall i :: 0 <= i < |r| ==> r[i] == OctaveSample(noise, offsets, half, scale, lacunarity, x, y, i)
  {
    seq(|offsets|, i requires 0 <= i < |offsets| => OctaveSample(noise, offsets, half, scale, lacunarity, x, y, i))
  }

  /** The height accumulated after the first n octaves of the given samples:
      octave i adds samples[i] times persistence^i and subtracts
      Compensation(persistence, i). */
  function OctaveSum(samples: seq<real>, persistence: real, n: nat): real
    requires n <= |samples|
  {
    if n == 0 then 0.0
    else OctaveSum(samples, persistence, n - 1) + samples[n - 1] * RPow(persistence, n - 1) - Compensation(persistence, n - 1)
  }

  /** The sum of the magnitudes of the first n amplitudes and compensations. */
  function OctaveBudget(persistence: real, n: nat): real
  {
    if n == 0 then 0.0
    else OctaveBudget(persistence, n - 1) + Abs(RPow(persistence, n - 1)) + Abs(Compensation(persistence, n - 1))
  }

  function Abs(v: real): real
  {
    if v < 0.0 then -v else v
  }

  lemma ScaledSampleBounded(sample: real, a: real)
    requires -1.0 <= sample <= 1.0
    ensures Abs(sample * a) <= Abs(a)
  {
    if a >= 0.0 {
      MulNonneg(1.0 - sample, a);
      MulNonneg(1.0 + sample, a);
    } else {
      MulNonneg(1.0 - sample, -a);
      MulNonneg(1.0 + sample, -a);
    }
  }

  /** Octave n - 1 keeps a height within the budget of the octaves before it
      within the budget of n octaves. */
  lemma OctaveStepBounded(samples: seq<real>, persistence: real, n: nat, previous: real, budget: real)
    requires 0 < n <= |samples| && -1.0 <= samples[n - 1] <= 1.0
    requires previous == OctaveSum(samples, persistence, n - 1) && budget == OctaveBudget(persistence, n - 1)
    requires -budget <= previous <= budget
    ensures -OctaveBudget(persistence, n) <= OctaveSum(samples, persistence, n) <= OctaveBudget(persistence, n)
  {
    var amplitude, compensation := RPow(persistence, n - 1), Compensation(persistence, n - 1);
    SumUnfold(samples, persistence, n, previous, amplitude, compensation);
    BudgetUnfold(persistence, n, budget, amplitude, compensation);
    HeightStepBounded(previous, samples[n - 1], amplitude, compensation, budget,
                      OctaveSum(samples, persistence, n), OctaveBudget(persistence, n));
  }

  lemma SumUnfold(samples: seq<real>, persistence: real, n: nat, previous: real, amplitude: real, compensation: real)
    requires 0 < n <= |samples|
    requires previous == OctaveSum(samples, persistence, n - 1)
    requires amplitude == RPow(persistence, n - 1) && compensation == Compensation(persistence, n - 1)
    ensures OctaveSum(samples, persistence, n) == previous + samples[n - 1] * amplitude - compensation
  {
  }

  lemma BudgetUnfold(persistence: real, n: nat, budget: real, amplitude: real, compensation: real)
    requires 0 < n && budget == OctaveBudget(persistence, n - 1)
    requires amplitude == RPow(persistence, n - 1) && compensation == Compensation(persistence, n - 1)
    ensures OctaveBudget(persistence, n) == budget + Abs(amplitude) + Abs(compensation)
  {
  }

  /** One octave on plain numbers: a height `previous`
      within `budget` plus a sample in [-1, 1] times `amplitude`, less
      `compensation`, stays within the budget widened by both magnitudes. */
  lemma HeightStepBounded(previous: real, sample: real, amplitude: real, compensation: real, budget: real,
                          next: real, nextBudget: real)
    requires -budget <= previous <= budget && -1.0 <= sample <= 1.0
    requires next == previous + sample * amplitude - compensation
    requires nextBudget == budget + Abs(amplitude) + Abs(compensation)
    ensures -nextBudget <= next <= nextBudget
  {
    ScaledSampleBounded(sample, amplitude);
  }

  /** Before the clamp, the accumulated height of samples bounded by 1 never
      exceeds the sum of the amplitudes and compensations of the octaves so
      far: the octave loop alone does not keep the height inside [-1, 1]. */
  lemma {:induction false} OctaveSumBounded(samples: seq<real>, persistence: real, n: nat)
    requires forall i :: 0 <= i < |samples| ==> -1.0 <= samples[i] <= 1.0
    requires n <= |samples|
    ensures -OctaveBudget(persistence, n) <= OctaveSum(samples, persistence, n) <= OctaveBudget(persistence, n)
  {
    if n > 0 {
      OctaveSumBounded(samples, persistence, n - 1);
      OctaveStepBounded(samples, persistence, n, OctaveSum(samples, persistence, n - 1), OctaveBudget(persistence, n - 1));
    }
  }

  /** A noise bounded by 1 gives a cell height, before the clamp, bounded by
      the octave budget. */
  lemma CellHeightBounded(noise: (real, real) -> real, offsets: seq<Vec>, half: Vec, scale: real,
                          persistence: real, lacunarity: real, x: int, y: int)
    requires forall fx, fy :: -1.0 <= noise(fx, fy) <= 1.0
    requires scale != 0.0
    ensures Abs(OctaveSum(OctaveSamples(noise, offsets, half, scale, lacunarity, x, y), persistence, |offsets|))
         <= OctaveBudget(persistence, |offsets|)
  {
    OctaveSumBounded(OctaveSamples(noise, offsets, half, scale, lacunarity, x, y), persistence, |offsets|);
  }

  /** The final clamp to [-1, 1] and the remap to [0, 1]. Inside [-1, 1] the
      remap is inverted by v = 2r - 1. */
  function Remap(v: real): (r: real)
    ensures 0.0 <= r <= 1.0
    ensures -1.0 <= v <= 1.0 ==> 2.0 * r - 1.0 == v
    ensures v <= -1.0 ==> r == 0.0
    ensures v >= 1.0 ==> r == 1.0
  {
    var clamped := if v < -1.0 then -1.0 else if v > 1.0 then 1.0 else v;
    (clamped + 1.0) / 2.0
  }

  /** Remap never reverses the order of two heights. */
  lemma RemapMonotone(u: real, v: real)
    requires u <= v
    ensures Remap(u) <= Remap(v)
  {
  }

  /** The value stored for cell (x, y) of the noise map. */
  function CellValue(noise: (real, real) -> real, offsets: seq<Vec>, half: Vec, scale: real,
                     persistence: real, lacunarity: real, x: int, y: int): (r: real)
    requires scale != 0.0
    ensures 0.0 <= r <= 1.0
  {
    Remap(OctaveSum(OctaveSamples(noise, offsets, half, scale, lacunarity, x, y), persistence, |offsets|))
  }

  /** The whole noise map in row-major order: index k holds the value of cell
      (k % width, k / width). Without octaves every cell is 0.5, the remap of
      an empty sum. */
  function NoiseMapValues(noise: (real, real) -> real, offsets: seq<Vec>, half: Vec, scale: real,
                          persistence: real, lacunarity: real, width: nat, height: nat): (m: seq<real>)
    requires scale != 0.0
    ensures |m| == width * height
    ensures forall k :: 0 <= k < |m| ==> 0.0 <= m[k] <= 1.0
    ensures |offsets| == 0 ==> forall k :: 0 <= k < |m| ==> m[k] == 0.5
  {
    seq(width * height, k requires 0 <= k < width * height =>
      CellValue(noise, offsets, half, scale, persistence, lacunarity, k % width, k / width))
  }

  /** Cell (x, y) of the map sits at index y * width + x, that is after y
      full rows of width cells. */
  lemma MapCell(noise: (real, real) -> real, offsets: seq<Vec>, half: Vec, scale: real,
                persistence: real, lacunarity: real, width: nat, height: nat, x: nat, y: nat)
    requires scale != 0.0 && x < width && y < height
    ensures y * width + x == Steps(y, width) + x < width * height
    ensures NoiseMapValues(noise, offsets, half, scale, persistence, lacunarity, width, height)[Steps(y, width) + x]
         == CellValue(noise, offsets, half, scale, persistence, lacunarity, x, y)
  {
    RowMajor(x, y, width, height);
    CellIndex(x, y, width);
  }

  /** Two cells with the same index are the same cell. */
  lemma MapCellsDistinct(width: nat, x: nat, y: nat, x': nat, y': nat)
    requires x < width && x' < width && y * width + x == y' * width + x'
    ensures x == x' && y == y'
  {
    CellIndex(x, y, width);
    CellIndex(x', y', width);
  }

  /** The scale guard as the source writes it: only a negative scale is
      replaced, so a zero scale passes through and the sample coordinates are
      then divided by zero. */
  function ScaleGuardAsWritten(scale: real): (s: real)
    ensures s >= 0.0
    ensures s == 0.0 <==> scale == 0.0
  {
    if scale < 0.0 then 0.0001 else scale
  }

  /** The scale guard the rest of the model uses: every non-positive scale is
      replaced by 0.0001, so the result is always a valid divisor. */
  function GuardScale(scale: real): (s: real)
    ensures s > 0.0
    ensures scale > 0.0 ==> s == scale
    ensures scale <= 0.0 ==> s == 0.0001
  {
    if scale <= 0.0 then 0.0001 else scale
  }

  /** The two guards differ exactly at scale 0. */
  lemma ScaleGuardsAgree(scale: real)
    ensures ScaleGuardAsWritten(scale) == GuardScale(scale) <==> scale != 0.0
  {
  }
}
