/** The order in which the Diamond-Square generator writes its cells. Every
    write takes the next value of the random generator, so a run is the list
    of its writes, each a cell with the index of the draw its height used.
    The functions below continue a list by one square, a column of squares, a
    level and the whole run, in the order of the source's loops: levels by
    decreasing side, columns left to right, squares by increasing y (top to bottom). */
module Schedule {
  import opened Bits
  import opened Lattice

  /** A write of `cell` whose height used draw number `draw` (counting from 0). */
  datatype Write = Write(cell: Point, draw: nat)

  /** The writes made so far, the latest last. */
  datatype Trail = Start | Then(earlier: Trail, last: Write)

  /** The writes of t, oldest first. */
  ghost function Entries(t: Trail): (r: seq<Write>)
  {
    match t
    case Start => []
    case Then(earlier, last) => Entries(earlier) + [last]
  }

  /** t followed by writes of `cells` in order, the first using draw `start`. */
  function Continue(t: Trail, cells: seq<Point>, start: nat): Trail
    decreases |cells|
  {
    if cells == [] then t else Continue(Then(t, Write(cells[0], start)), cells[1..], start + 1)
  }

  /** Continue adds one write per cell: cells[k] with draw start + k. */
  lemma {:induction false} ContinueEntries(t: Trail, cells: seq<Point>, start: nat)
    ensures var e := Entries(Continue(t, cells, start));
      |e| == |Entries(t)| + |cells| && e[..|Entries(t)|] == Entries(t)
      && forall k :: 0 <= k < |cells| ==> e[|Entries(t)| + k] == Write(cells[k], start + k)
    decreases |cells|
  {
    if cells != [] {
      var next := Then(t, Write(cells[0], start));
      ContinueEntries(next, cells[1..], start + 1);
      var e := Entries(Continue(t, cells, start));
      assert Entries(next) == Entries(t) + [Write(cells[0], start)];
      assert e[..|Entries(next)|] == Entries(next);
      assert e[..|Entries(t)|] == Entries(next)[..|Entries(t)|];
      forall k | 0 <= k < |cells|
        ensures e[|Entries(t)| + k] == Write(cells[k], start + k)
      {
        if k == 0 {
          assert e[|Entries(t)|] == Entries(next)[|Entries(t)|];
        } else {
          assert e[|Entries(next)| + (k - 1)] == Write(cells[1..][k - 1], start + 1 + (k - 1));
        }
      }
    }
  }

  /** Writing cells a then b is continuing with [a, b]. */
  lemma ContinueTwo(t: Trail, a: Point, b: Point, start: nat)
    ensures Continue(t, [a, b], start) == Then(Then(t, Write(a, start)), Write(b, start + 1))
  {
    var one := Then(t, Write(a, start));
    assert [a, b][1..] == [b];
    assert Continue(t, [a, b], start) == Continue(one, [b], start + 1);
    assert [b][1..] == [];
    assert Continue(one, [b], start + 1) == Continue(Then(one, Write(b, start + 1)), [], start + 2);
  }

  /** Writing cells a, b, c, d in turn is continuing with [a, b, c, d]. */
  lemma ContinueFour(t: Trail, a: Point, b: Point, c: Point, d: Point, start: nat)
    ensures Continue(t, [a, b, c, d], start)
         == Then(Then(Then(Then(t, Write(a, start)), Write(b, start + 1)), Write(c, start + 2)), Write(d, start + 3))
  {
    assert [a, b, c, d][1..] == [b, c, d];
    assert [b, c, d][1..] == [c, d];
    ContinueTwo(Then(Then(t, Write(a, start)), Write(b, start + 1)), c, d, start + 2);
  }

  /** The writes of one square are its Targets continued from draw
      `start`. */
  lemma SquareWrites(t: Trail, lx: int, ly: int, rx: int, ry: int, start: nat)
    ensures Run(t, Square(lx, ly, rx, ry), start) == Continue(t, Targets(lx, ly, rx, ry), start)
  {
    var c := Targets(lx, ly, rx, ry);
    assert c[1..] == [c[1], c[2], c[3], c[4]];
    ContinueFour(Then(t, Write(c[0], start)), c[1], c[2], c[3], c[4], start + 1);
  }

  /** Continuing with one list of cells and then another is continuing with
      both. */
  lemma {:induction false} ContinueJoin(t: Trail, a: seq<Point>, b: seq<Point>, start: nat)
    ensures Continue(Continue(t, a, start), b, start + |a|) == Continue(t, a + b, start)
    decreases |a|
  {
    if a == [] {
      assert a + b == b;
    } else {
      assert (a + b)[1..] == a[1..] + b;
      ContinueJoin(Then(t, Write(a[0], start)), a[1..], b, start + 1);
    }
  }

  /** A trail continued with one list of cells and then with the next is
      the trail continued with both. */
  lemma Extend(t: Trail, cells: seq<Point>, more: seq<Point>, start: nat, middle: Trail, after: Trail)
    requires middle == Continue(t, cells, start)
    requires after == Continue(middle, more, start + |cells|)
    ensures after == Continue(t, cells + more, start)
  {
    ContinueJoin(t, cells, more, start);
  }

  /** A stretch of the source's loops: the square with corners (lx, ly) and
      (rx, ry); the first `squares` squares of side l in column x (bottom
      edges 0, l, 2l, ...); the first `columns` columns of a level of side l
      (left edges 0, l, 2l, ...), `rows` squares each; or the first `levels`
      levels of a map of side 2^n + 1 (twice as wide less one when
      `rectangle`). */
  datatype Part =
    | Square(lx: int, ly: int, rx: int, ry: int)
    | Column(x: int, l: nat, squares: nat)
    | Level(side: nat, columns: nat, rows: nat)
    | Levels(n: nat, rectangle: bool, levels: nat)

  /** Squares are inside columns, columns inside levels, levels inside the
      run of levels. */
  function Depth(p: Part): nat
  {
    match p
    case Square(_, _, _, _) => 0
    case Column(_, _, _) => 1
    case Level(_, _, _) => 2
    case Levels(_, _, _) => 3
  }

  /** How far the part goes along its own loop. */
  function Length(p: Part): nat
  {
    match p
    case Square(_, _, _, _) => 0
    case Column(_, _, squares) => squares
    case Level(_, columns, _) => columns
    case Levels(_, _, levels) => levels
  }

  /** t followed by the writes of part p, the first using draw `start`; a
      square writes its Targets in order. */
  function Run(t: Trail, p: Part, start: nat): Trail
    decreases Depth(p), Length(p)
  {
    match p
    case Square(lx, ly, rx, ry) =>
      var c := Targets(lx, ly, rx, ry);
      Then(Then(Then(Then(Then(t, Write(c[0], start)), Write(c[1], start + 1)), Write(c[2], start + 2)),
                Write(c[3], start + 3)), Write(c[4], start + 4))
    case Column(x, l, j) =>
      if j == 0 then t
      else
        var y := Steps(j - 1, l);
        Run(Run(t, Column(x, l, j - 1), start), Square(x, y, x + l, y + l), start + 5 * (j - 1))
    case Level(l, i, rows) =>
      if i == 0 then t
      else Run(Run(t, Level(l, i - 1, rows), start), Column(Steps(i - 1, l), l, rows), start + 5 * Steps(i - 1, rows))
    case Levels(n, rectangle, k) =>
      if k == 0 then t
      else
        var s := k - 1;
        Run(Run(t, Levels(n, rectangle, s), start), Level(Side(n, s), Columns(rectangle, s), Pow2(s)),
            start + 5 * CallsBefore(rectangle, s))
  }

  /** One more square extends a column: the step of the loop over bottom
      edges y = 0, l, 2l, ... */
  lemma ColumnNext(t0: Trail, x: int, l: nat, j: nat, y: int, start: nat, next: nat, before: Trail, after: Trail)
    requires y == Steps(j, l) && next == start + 5 * j
    requires before == Run(t0, Column(x, l, j), start)
    requires after == Run(before, Square(x, y, x + l, y + l), next)
    ensures after == Run(t0, Column(x, l, j + 1), start)
  {
  }

  /** One more column extends a level: the step of the loop over left edges
      x = 0, l, 2l, ... */
  lemma LevelNext(t0: Trail, l: nat, i: nat, rows: nat, x: int, start: nat, next: nat, before: Trail, after: Trail)
    requires x == Steps(i, l) && next == start + 5 * Steps(i, rows)
    requires before == Run(t0, Level(l, i, rows), start)
    requires after == Run(before, Column(x, l, rows), next)
    ensures after == Run(t0, Level(l, i + 1, rows), start)
  {
  }

  /** One more level extends the run of levels: the step of the source's loop
      over halving sides. */
  lemma LevelsNext(t0: Trail, n: nat, rectangle: bool, t: nat, start: nat, before: Trail, after: Trail)
    requires before == Run(t0, Levels(n, rectangle, t), start)
    requires after == Run(before, Level(Side(n, t), Columns(rectangle, t), Pow2(t)), start + 5 * CallsBefore(rectangle, t))
    ensures after == Run(t0, Levels(n, rectangle, t + 1), start)
  {
  }

  /** The seeded cells in draw order: [h-1, h-1] and [h-1, 0] for a
      rectangular map, then the corners [0, 0], [0, h-1], [w-1, h-1],
      [w-1, 0]. */
  function SeedCells(rectangle: bool, w: int, h: int): (r: seq<Point>)
    ensures |r| == Seeds(rectangle)
  {
    (if rectangle then [Point(h - 1, h - 1), Point(h - 1, 0)] else [])
      + [Point(0, 0), Point(0, h - 1), Point(w - 1, h - 1), Point(w - 1, 0)]
  }

  /** Every write of a run of `DiamondSquareNoise` of degree n: the seeds,
      then the levels. */
  function RunLog(n: nat, rectangle: bool): Trail
  {
    var h := Pow2(n) + 1;
    var w := if rectangle then 2 * h - 1 else h;
    Run(Continue(Start, SeedCells(rectangle, w, h), 0), Levels(n, rectangle, n + 1), Seeds(rectangle))
  }

  /** The levels made after the seeds make the whole run. */
  lemma RunLogAfterSeeds(n: nat, rectangle: bool, w: int, h: int, seeded: Trail, after: Trail)
    requires h == Pow2(n) + 1 && w == (if rectangle then 2 * h - 1 else h)
    requires seeded == Continue(Start, SeedCells(rectangle, w, h), 0)
    requires after == Run(seeded, Levels(n, rectangle, n + 1), Seeds(rectangle))
    ensures after == RunLog(n, rectangle)
  {
  }

  /** The five writes of one square, cell by cell: the centre, then the left,
      right, bottom and top edge midpoints. */
  lemma SquareCells(t: Trail, lx: int, ly: int, rx: int, ry: int, start: nat)
    ensures var l := (rx - lx) / 2;
      Run(t, Square(lx, ly, rx, ry), start)
      == Then(Then(Then(Then(Then(t, Write(Point(lx + l, ly + l), start)), Write(Point(lx, ly + l), start + 1)),
                        Write(Point(rx, ry - l), start + 2)), Write(Point(rx - l, ry), start + 3)),
              Write(Point(lx + l, ly), start + 4))
  {
  }

  /** The cells of the first j squares of column x at side l, by
      increasing y (top to bottom), each square's Targets in order. */
  function ColumnCells(x: int, l: nat, j: nat): seq<Point>
  {
    if j == 0 then []
    else
      var y := Steps(j - 1, l);
      ColumnCells(x, l, j - 1) + Targets(x, y, x + l, y + l)
  }

  /** The cells of the first i columns of a level of side l, left to right,
      `rows` squares each. */
  function LevelCells(l: nat, i: nat, rows: nat): seq<Point>
  {
    if i == 0 then [] else LevelCells(l, i - 1, rows) + ColumnCells(Steps(i - 1, l), l, rows)
  }

  /** The cells of the first k levels of a map of side 2^n + 1, by halving
      side. */
  function LevelsCells(n: nat, rectangle: bool, k: nat): seq<Point>
  {
    if k == 0 then []
    else
      var s := k - 1;
      LevelsCells(n, rectangle, s) + LevelCells(Side(n, s), Columns(rectangle, s), Pow2(s))
  }

  /** Every cell `DiamondSquareNoise` of degree n writes, in order: the seeds,
      then the targets of every square. */
  function RunCells(n: nat, rectangle: bool): seq<Point>
  {
    var h := Pow2(n) + 1;
    var w := if rectangle then 2 * h - 1 else h;
    SeedCells(rectangle, w, h) + LevelsCells(n, rectangle, n + 1)
  }

  /** A column has five cells per square. */
  lemma {:induction false} ColumnCellsLength(x: int, l: nat, j: nat)
    ensures |ColumnCells(x, l, j)| == 5 * j
  {
    if j > 0 {
      ColumnCellsLength(x, l, j - 1);
    }
  }

  /** A level has five cells per square. */
  lemma {:induction false} LevelCellsLength(l: nat, i: nat, rows: nat)
    ensures |LevelCells(l, i, rows)| == 5 * Steps(i, rows)
  {
    if i > 0 {
      LevelCellsLength(l, i - 1, rows);
      ColumnCellsLength(Steps(i - 1, l), l, rows);
    }
  }

  /** The levels have five cells per square. */
  lemma {:induction false} LevelsCellsLength(n: nat, rectangle: bool, k: nat)
    ensures |LevelsCells(n, rectangle, k)| == 5 * CallsBefore(rectangle, k)
  {
    if k > 0 {
      LevelsCellsLength(n, rectangle, k - 1);
      LevelCellsLength(Side(n, k - 1), Columns(rectangle, k - 1), Pow2(k - 1));
    }
  }

  /** A run has Seeds cells and five per square. */
  lemma RunCellsLength(n: nat, rectangle: bool)
    ensures |RunCells(n, rectangle)| == Seeds(rectangle) + 5 * CallsBefore(rectangle, n + 1)
  {
    LevelsCellsLength(n, rectangle, n + 1);
  }

  /** A column writes its cells in order, one draw each. */
  lemma {:induction false} ColumnWrites(t: Trail, x: int, l: nat, j: nat, start: nat)
    ensures Run(t, Column(x, l, j), start) == Continue(t, ColumnCells(x, l, j), start)
  {
    if j > 0 {
      var i := j - 1;
      var before, cells := Run(t, Column(x, l, i), start), ColumnCells(x, l, i);
      var y, next := Steps(i, l), start + 5 * i;
      ColumnWrites(t, x, l, i, start);
      ColumnCellsLength(x, l, i);
      ColumnStep(t, start, before, cells, x, y, l, next);
      ColumnNext(t, x, l, i, y, start, next, before, Run(before, Square(x, y, x + l, y + l), next));
      ColumnCellsNext(x, l, i, cells, y);
    }
  }

  /** One more square appends its Targets to the cells of a column. */
  lemma ColumnCellsNext(x: int, l: nat, i: nat, cells: seq<Point>, y: int)
    requires cells == ColumnCells(x, l, i) && y == Steps(i, l)
    ensures ColumnCells(x, l, i + 1) == cells + Targets(x, y, x + l, y + l)
  {
  }

  /** One more square after the cells of a trail's earlier squares. */
  lemma ColumnStep(t: Trail, start: nat, before: Trail, cells: seq<Point>, x: int, y: int, l: nat, next: nat)
    requires before == Continue(t, cells, start) && next == start + |cells|
    ensures Run(before, Square(x, y, x + l, y + l), next) == Continue(t, cells + Targets(x, y, x + l, y + l), start)
  {
    SquareWrites(before, x, y, x + l, y + l, next);
    Extend(t, cells, Targets(x, y, x + l, y + l), start, before, Run(before, Square(x, y, x + l, y + l), next));
  }

  /** A level writes its cells in order, one draw each. */
  lemma {:induction false} LevelWrites(t: Trail, l: nat, i: nat, rows: nat, start: nat)
    ensures Run(t, Level(l, i, rows), start) == Continue(t, LevelCells(l, i, rows), start)
  {
    if i > 0 {
      var c := i - 1;
      var before, cells := Run(t, Level(l, c, rows), start), LevelCells(l, c, rows);
      var x, next := Steps(c, l), start + 5 * Steps(c, rows);
      LevelWrites(t, l, c, rows, start);
      LevelCellsLength(l, c, rows);
      LevelStep(t, start, before, cells, x, l, rows, next);
      LevelNext(t, l, c, rows, x, start, next, before, Run(before, Column(x, l, rows), next));
      LevelCellsNext(l, c, rows, cells, x);
    }
  }

  /** One more column appends its cells to those of a level. */
  lemma LevelCellsNext(l: nat, c: nat, rows: nat, cells: seq<Point>, x: int)
    requires cells == LevelCells(l, c, rows) && x == Steps(c, l)
    ensures LevelCells(l, c + 1, rows) == cells + ColumnCells(x, l, rows)
  {
  }

  /** One more column after the cells of a trail's earlier columns. */
  lemma LevelStep(t: Trail, start: nat, before: Trail, cells: seq<Point>, x: int, l: nat, rows: nat, next: nat)
    requires before == Continue(t, cells, start) && next == start + |cells|
    ensures Run(before, Column(x, l, rows), next) == Continue(t, cells + ColumnCells(x, l, rows), start)
  {
    ColumnWrites(before, x, l, rows, next);
    Extend(t, cells, ColumnCells(x, l, rows), start, before, Run(before, Column(x, l, rows), next));
  }

  /** The levels write their cells in order, one draw each. */
  lemma {:induction false} LevelsWrites(t: Trail, n: nat, rectangle: bool, k: nat, start: nat)
    ensures Run(t, Levels(n, rectangle, k), start) == Continue(t, LevelsCells(n, rectangle, k), start)
  {
    if k > 0 {
      var s := k - 1;
      var before, cells := Run(t, Levels(n, rectangle, s), start), LevelsCells(n, rectangle, s);
      var l, columns, rows, next := Side(n, s), Columns(rectangle, s), Pow2(s), start + 5 * CallsBefore(rectangle, s);
      LevelsWrites(t, n, rectangle, s, start);
      LevelsCellsLength(n, rectangle, s);
      LevelsStep(t, start, before, cells, l, columns, rows, next);
      LevelsNext(t, n, rectangle, s, start, before, Run(before, Level(l, columns, rows), next));
      LevelsCellsNext(n, rectangle, s, cells, l, columns, rows);
    }
  }

  /** One more level appends its cells to those of the earlier levels. */
  lemma LevelsCellsNext(n: nat, rectangle: bool, s: nat, cells: seq<Point>, l: nat, columns: nat, rows: nat)
    requires cells == LevelsCells(n, rectangle, s)
    requires l == Side(n, s) && columns == Columns(rectangle, s) && rows == Pow2(s)
    ensures LevelsCells(n, rectangle, s + 1) == cells + LevelCells(l, columns, rows)
  {
  }

  /** One more level after the cells of a trail's earlier levels. */
  lemma LevelsStep(t: Trail, start: nat, before: Trail, cells: seq<Point>, l: nat, columns: nat, rows: nat, next: nat)
    requires before == Continue(t, cells, start) && next == start + |cells|
    ensures Run(before, Level(l, columns, rows), next) == Continue(t, cells + LevelCells(l, columns, rows), start)
  {
    LevelWrites(before, l, columns, rows, next);
    Extend(t, cells, LevelCells(l, columns, rows), start, before, Run(before, Level(l, columns, rows), next));
  }

  /** The k-th write of a run is RunCells[k] and uses draw k, for every k:
      each seed and each target of each square takes the next value of the
      generator, none skipped and none reused, in the order of the loops. */
  lemma RunWrites(n: nat, rectangle: bool)
    ensures var cells := RunCells(n, rectangle);
      var e := Entries(RunLog(n, rectangle));
      |e| == |cells| && forall k :: 0 <= k < |e| ==> e[k] == Write(cells[k], k)
  {
    RunLogCells(n, rectangle);
    ContinueEntries(Start, RunCells(n, rectangle), 0);
  }

  /** A run is its cells continued from draw 0. */
  lemma RunLogCells(n: nat, rectangle: bool)
    ensures RunLog(n, rectangle) == Continue(Start, RunCells(n, rectangle), 0)
  {
    var h := Pow2(n) + 1;
    var w := if rectangle then 2 * h - 1 else h;
    var seeds := SeedCells(rectangle, w, h);
    LevelsWrites(Continue(Start, seeds, 0), n, rectangle, n + 1, Seeds(rectangle));
    ContinueJoin(Start, seeds, LevelsCells(n, rectangle, n + 1), 0);
  }
}
