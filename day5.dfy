/**
 * Model of day5/src/main.rs: drawing hydrothermal vent lines into a count
 * grid and counting the points where at least two lines overlap.
 */
module Vents {
  /** A `VentReading`: a line from `start` to `end`, both as (x, y). */
  datatype Reading = Reading(start: (int, int), end: (int, int))

  /**
   * A `VentMap`: the count grid, indexed `[x][y]`, and its two extents. The
   * grid the parser allocates has `y_max` rows of `x_max` cells, so indexing
   * it by `[x][y]` is only in bounds for a square grid.
   */
  datatype VentMap = VentMap(val: seq<seq<int>>, xMax: int, yMax: int)

  predicate ValidMap(m: VentMap)
  {
    && m.xMax >= 0 && m.yMax >= 0
    && |m.val| == m.xMax
    && forall x :: 0 <= x < m.xMax ==> |m.val[x]| == m.yMax
  }

  predicate OnMap(m: VentMap, p: (int, int))
  {
    0 <= p.0 < m.xMax && 0 <= p.1 < m.yMax
  }

  /** Both ends are cells of the map (the parser sizes the map so that they are). */
  predicate ReadingsOnMap(m: VentMap, readings: seq<Reading>)
  {
    forall i :: 0 <= i < |readings| ==> OnMap(m, readings[i].start) && OnMap(m, readings[i].end)
  }

  function Abs(d: int): nat
  {
    if d < 0 then -d else d
  }

  function Sign(d: int): int
  {
    if d > 0 then 1 else if d < 0 then -1 else 0
  }

  /** The lower and the upper of two coordinates, chosen as the source does. */
  function Lower(a: int, b: int): int
  {
    if a <= b then a else b
  }

  function Upper(a: int, b: int): int
  {
    if a > b then a else b
  }

  predicate Vertical(r: Reading)
  {
    r.start.0 == r.end.0
  }

  predicate Horizontal(r: Reading)
  {
    !Vertical(r) && r.start.1 == r.end.1
  }

  /** A 45-degree line, drawn only when diagonals are checked. */
  predicate Diagonal(r: Reading, checkDiagonal: bool)
  {
    !Vertical(r) && !Horizontal(r) && checkDiagonal
    && Abs(r.start.0 - r.end.0) == Abs(r.start.1 - r.end.1)
  }

  /** The `k`-th point of a diagonal, each coordinate moving by one per step towards `end`. */
  function DiagonalPoint(r: Reading, k: int): (int, int)
  {
    (r.start.0 + k * Sign(r.end.0 - r.start.0), r.start.1 + k * Sign(r.end.1 - r.start.1))
  }

  /** Does the line of `r` pass through `p` (when drawn at all)? */
  predicate Covers(r: Reading, p: (int, int), checkDiagonal: bool)
  {
    if Vertical(r) then
      p.0 == r.start.0 && Lower(r.start.1, r.end.1) <= p.1 <= Upper(r.start.1, r.end.1)
    else if Horizontal(r) then
      p.1 == r.start.1 && Lower(r.start.0, r.end.0) <= p.0 <= Upper(r.start.0, r.end.0)
    else if Diagonal(r, checkDiagonal) then
      var k := (p.0 - r.start.0) * Sign(r.end.0 - r.start.0);
      0 <= k <= Abs(r.start.0 - r.end.0) && p == DiagonalPoint(r, k)
    else
      false
  }

  /** A drawn diagonal passes through exactly its points 0..steps. */
  lemma DiagonalCovers(r: Reading, p: (int, int))
    requires Diagonal(r, true)
    ensures Covers(r, p, true) <==> exists k :: 0 <= k <= Abs(r.start.0 - r.end.0) && p == DiagonalPoint(r, k)
  {
    var sx := Sign(r.end.0 - r.start.0);
    if exists k :: 0 <= k <= Abs(r.start.0 - r.end.0) && p == DiagonalPoint(r, k) {
      var k :| 0 <= k <= Abs(r.start.0 - r.end.0) && p == DiagonalPoint(r, k);
      assert (p.0 - r.start.0) * sx == k * sx * sx;
      assert sx * sx == 1;
    }
  }

  /** How many of the readings draw a line through `p`. */
  function Hits(readings: seq<Reading>, p: (int, int), checkDiagonal: bool): nat
  {
    if readings == [] then 0
    else
      Hits(readings[..|readings| - 1], p, checkDiagonal)
      + (if Covers(readings[|readings| - 1], p, checkDiagonal) then 1 else 0)
  }

  /** A grid of the same shape as the map's. */
  predicate Shaped(m: VentMap, grid: seq<seq<int>>)
  {
    |grid| == m.xMax && forall x :: 0 <= x < m.xMax ==> |grid[x]| == m.yMax
  }

  /** `grid` is `base` plus one for every cell on the line of `r`. */
  predicate Drawn(m: VentMap, base: seq<seq<int>>, grid: seq<seq<int>>, r: Reading, checkDiagonal: bool)
    requires Shaped(m, base) && Shaped(m, grid)
  {
    forall x, y :: 0 <= x < m.xMax && 0 <= y < m.yMax ==>
      grid[x][y] == base[x][y] + if Covers(r, (x, y), checkDiagonal) then 1 else 0
  }

  lemma DivisionIsSign(d: int)
    requires d != 0
    ensures d / Abs(d) == Sign(d)
  {
    if d < 0 {
      assert -d * -1 == d;
    }
  }

  /** Lines 67-84: a vertical line adds one to each cell from the lower to the upper y. */
  method DrawVertical(m: VentMap, grid: seq<seq<int>>, r: Reading) returns (grid': seq<seq<int>>)
    requires ValidMap(m) && Shaped(m, grid) && Vertical(r) && OnMap(m, r.start) && OnMap(m, r.end)
    ensures Shaped(m, grid') && Drawn(m, grid, grid', r, false)
  {
    var min := Lower(r.start.1, r.end.1);
    var max := Upper(r.start.1, r.end.1);
    var x := r.start.0;
    grid' := grid;
    for y := min to max + 1
      invariant Shaped(m, grid')
      invariant forall a, b :: 0 <= a < m.xMax && 0 <= b < m.yMax ==>
        grid'[a][b] == grid[a][b] + if a == x && min <= b < y then 1 else 0
    {
      grid' := grid'[x := grid'[x][y := grid'[x][y] + 1]];
    }
  }

  /** Lines 85-102: a horizontal line adds one to each cell from the lower to the upper x. */
  method DrawHorizontal(m: VentMap, grid: seq<seq<int>>, r: Reading) returns (grid': seq<seq<int>>)
    requires ValidMap(m) && Shaped(m, grid) && Horizontal(r) && OnMap(m, r.start) && OnMap(m, r.end)
    ensures Shaped(m, grid') && Drawn(m, grid, grid', r, false)
  {
    var min := Lower(r.start.0, r.end.0);
    var max := Upper(r.start.0, r.end.0);
    var y := r.start.1;
    grid' := grid;
    for x := min to max + 1
      invariant Shaped(m, grid')
      invariant forall a, b :: 0 <= a < m.xMax && 0 <= b < m.yMax ==>
        grid'[a][b] == grid[a][b] + if b == y && min <= a < x then 1 else 0
    {
      grid' := grid'[x := grid'[x][y := grid'[x][y] + 1]];
    }
  }

  /** The points 0..i-1 of a diagonal, as an index test. */
  predicate DiagonalPrefix(r: Reading, p: (int, int), i: int)
  {
    var k := (p.0 - r.start.0) * Sign(r.end.0 - r.start.0);
    0 <= k < i && p == DiagonalPoint(r, k)
  }

  /** The `k`-th point of a diagonal is the one the prefix test finds at index `k`. */
  lemma DiagonalPointIndex(r: Reading, k: int)
    requires r.start.0 != r.end.0
    ensures (DiagonalPoint(r, k).0 - r.start.0) * Sign(r.end.0 - r.start.0) == k
  {
    var sx := Sign(r.end.0 - r.start.0);
    assert (DiagonalPoint(r, k).0 - r.start.0) * sx == k * (sx * sx);
  }

  /** The grid `before` plus one at the `i`-th point of a diagonal. */
  predicate DiagonalSoFar(m: VentMap, grid: seq<seq<int>>, current: seq<seq<int>>, r: Reading, i: int)
    requires Shaped(m, grid) && Shaped(m, current)
  {
    forall a, b :: 0 <= a < m.xMax && 0 <= b < m.yMax ==>
      current[a][b] == grid[a][b] + if DiagonalPrefix(r, (a, b), i) then 1 else 0
  }

  /** One pass of the diagonal loop extends the drawn prefix by the point it visits. */
  lemma DiagonalStep(m: VentMap, grid: seq<seq<int>>, before: seq<seq<int>>, r: Reading, i: nat, x: int, y: int)
    requires ValidMap(m) && Shaped(m, grid) && Shaped(m, before) && r.start.0 != r.end.0
    requires x == DiagonalPoint(r, i).0 && y == DiagonalPoint(r, i).1 && OnMap(m, DiagonalPoint(r, i))
    requires DiagonalSoFar(m, grid, before, r, i)
    ensures Shaped(m, before[x := before[x][y := before[x][y] + 1]])
    ensures DiagonalSoFar(m, grid, before[x := before[x][y := before[x][y] + 1]], r, i + 1)
  {
    var after := before[x := before[x][y := before[x][y] + 1]];
    forall a, b | 0 <= a < m.xMax && 0 <= b < m.yMax
      ensures after[a][b] == grid[a][b] + if DiagonalPrefix(r, (a, b), i + 1) then 1 else 0
    {
      DiagonalPrefixStep(r, (a, b), i);
      DiagonalPointIndex(r, i);
    }
  }

  /** On a diagonal, `(end - start) / steps` is the unit step towards `end` in each coordinate. */
  lemma DiagonalUnitSteps(r: Reading, steps: int, dx: int, dy: int)
    requires Diagonal(r, true) && steps == Abs(r.start.0 - r.end.0)
    requires dx == (r.end.0 - r.start.0) / steps && dy == (r.end.1 - r.start.1) / steps
    ensures dx == Sign(r.end.0 - r.start.0) && dy == Sign(r.end.1 - r.start.1)
  {
    assert Abs(r.end.0 - r.start.0) == steps && Abs(r.end.1 - r.start.1) == steps;
    DivisionIsSign(r.end.0 - r.start.0);
    DivisionIsSign(r.end.1 - r.start.1);
  }

  lemma DiagonalNext(r: Reading, i: int, x: int, y: int, dx: int, dy: int)
    requires x == DiagonalPoint(r, i).0 && y == DiagonalPoint(r, i).1
    requires dx == Sign(r.end.0 - r.start.0) && dy == Sign(r.end.1 - r.start.1)
    ensures x + dx == DiagonalPoint(r, i + 1).0 && y + dy == DiagonalPoint(r, i + 1).1
  {
    var sx, sy := Sign(r.end.0 - r.start.0), Sign(r.end.1 - r.start.1);
    assert (i + 1) * sx == i * sx + sx && (i + 1) * sy == i * sy + sy;
  }

  /**
   * Lines 103-120: a diagonal walks `steps + 1` cells from `start`, adding
   * one to each and moving both coordinates by `(end - start) / steps`.
   */
  method DrawDiagonal(m: VentMap, grid: seq<seq<int>>, r: Reading) returns (grid': seq<seq<int>>)
    requires ValidMap(m) && Shaped(m, grid) && Diagonal(r, true) && OnMap(m, r.start) && OnMap(m, r.end)
    ensures Shaped(m, grid') && Drawn(m, grid, grid', r, true)
  {
    var steps := Abs(r.start.0 - r.end.0);
    var dx := (r.end.0 - r.start.0) / steps;
    var dy := (r.end.1 - r.start.1) / steps;
    DiagonalUnitSteps(r, steps, dx, dy);
    grid' := WalkDiagonal(m, grid, r, steps, dx, dy);
  }

  /** The loop of lines 115-120, with the unit steps `dx` and `dy` of lines 118-119 worked out. */
  method WalkDiagonal(m: VentMap, grid: seq<seq<int>>, r: Reading, steps: nat, dx: int, dy: int) returns (grid': seq<seq<int>>)
    requires ValidMap(m) && Shaped(m, grid) && Diagonal(r, true) && OnMap(m, r.start) && OnMap(m, r.end)
    requires steps == Abs(r.start.0 - r.end.0)
    requires dx == Sign(r.end.0 - r.start.0) && dy == Sign(r.end.1 - r.start.1)
    ensures Shaped(m, grid') && Drawn(m, grid, grid', r, true)
  {
    var x := r.start.0;
    var y := r.start.1;
    grid' := grid;
    for i := 0 to steps + 1
      invariant Shaped(m, grid')
      invariant x == DiagonalPoint(r, i).0 && y == DiagonalPoint(r, i).1
      invariant DiagonalSoFar(m, grid, grid', r, i)
    {
      DiagonalOnMap(m, r, i);
      DiagonalStep(m, grid, grid', r, i, x, y);
      grid' := grid'[x := grid'[x][y := grid'[x][y] + 1]];
      DiagonalNext(r, i, x, y, dx, dy);
      x := x + dx;
      y := y + dy;
    }
    DiagonalDone(m, grid, grid', r);
  }

  lemma DiagonalDone(m: VentMap, grid: seq<seq<int>>, current: seq<seq<int>>, r: Reading)
    requires Shaped(m, grid) && Shaped(m, current) && Diagonal(r, true)
    requires DiagonalSoFar(m, grid, current, r, Abs(r.start.0 - r.end.0) + 1)
    ensures Drawn(m, grid, current, r, true)
  {
    forall a, b | 0 <= a < m.xMax && 0 <= b < m.yMax
      ensures Covers(r, (a, b), true) == DiagonalPrefix(r, (a, b), Abs(r.start.0 - r.end.0) + 1)
    {
    }
  }

  lemma DiagonalPrefixStep(r: Reading, p: (int, int), i: nat)
    requires r.start.0 != r.end.0
    ensures DiagonalPrefix(r, p, i + 1) == (DiagonalPrefix(r, p, i) || p == DiagonalPoint(r, i))
  {
    DiagonalPointIndex(r, i);
  }

  /** Every point of a diagonal between its ends lies on the map. */
  lemma DiagonalOnMap(m: VentMap, r: Reading, k: int)
    requires Diagonal(r, true) && OnMap(m, r.start) && OnMap(m, r.end)
    requires 0 <= k <= Abs(r.start.0 - r.end.0)
    ensures OnMap(m, DiagonalPoint(r, k))
  {
  }

  /** Every line visits exactly the cells it covers; a line of any other slope changes nothing. */
  method DrawReading(m: VentMap, grid: seq<seq<int>>, r: Reading, checkDiagonal: bool) returns (grid': seq<seq<int>>)
    requires ValidMap(m) && Shaped(m, grid) && OnMap(m, r.start) && OnMap(m, r.end)
    ensures Shaped(m, grid') && Drawn(m, grid, grid', r, checkDiagonal)
  {
    if Vertical(r) {
      grid' := DrawVertical(m, grid, r);
    } else if Horizontal(r) {
      grid' := DrawHorizontal(m, grid, r);
    } else if Diagonal(r, checkDiagonal) {
      grid' := DrawDiagonal(m, grid, r);
    } else {
      grid' := grid;
    }
  }

  /** The grid after all readings are drawn: each cell gains one per line through it. */
  function Painted(m: VentMap, readings: seq<Reading>, checkDiagonal: bool): (grid: seq<seq<int>>)
    requires ValidMap(m)
    ensures Shaped(m, grid)
  {
    seq(m.xMax, x requires 0 <= x < m.xMax =>
      seq(m.yMax, y requires 0 <= y < m.yMax => m.val[x][y] + Hits(readings, (x, y), checkDiagonal)))
  }

  /** Number of cells of a row holding 2 or more. */
  function RowOverlaps(row: seq<int>): nat
  {
    if row == [] then 0 else RowOverlaps(row[..|row| - 1]) + (if row[|row| - 1] >= 2 then 1 else 0)
  }

  function Overlaps(grid: seq<seq<int>>): nat
  {
    if grid == [] then 0 else Overlaps(grid[..|grid| - 1]) + RowOverlaps(grid[|grid| - 1])
  }

  /** Lines 124-131: count the cells holding 2 or more. */
  method CountOverlaps(m: VentMap, grid: seq<seq<int>>) returns (count: nat)
    requires ValidMap(m) && Shaped(m, grid)
    ensures count == Overlaps(grid)
  {
    count := 0;
    for x := 0 to m.xMax
      invariant count == Overlaps(grid[..x])
    {
      assert grid[..x + 1][..x] == grid[..x];
      ghost var rows := count;
      for y := 0 to m.yMax
        invariant count == rows + RowOverlaps(grid[x][..y])
      {
        assert grid[x][..y + 1][..y] == grid[x][..y];
        if grid[x][y] >= 2 {
          count := count + 1;
        }
      }
      assert grid[x][..m.yMax] == grid[x];
    }
    assert grid[..m.xMax] == grid;
  }

  /** `get_number_of_overlapping_points_from_vents`. */
  method GetNumberOfOverlappingPoints(ventReadings: seq<Reading>, ventMap: VentMap, checkDiagonal: bool)
    returns (count: nat)
    requires ValidMap(ventMap) && ReadingsOnMap(ventMap, ventReadings)
    ensures count == Overlaps(Painted(ventMap, ventReadings, checkDiagonal))
  {
    var grid := ventMap.val;
    PaintedNothing(ventMap, checkDiagonal);
    for i := 0 to |ventReadings|
      invariant Shaped(ventMap, grid)
      invariant grid == Painted(ventMap, ventReadings[..i], checkDiagonal)
    {
      assert ventReadings[..i + 1][..i] == ventReadings[..i];
      ghost var before := grid;
      grid := DrawReading(ventMap, grid, ventReadings[i], checkDiagonal);
      PaintedStep(ventMap, ventReadings[..i + 1], checkDiagonal, before, grid);
    }
    assert ventReadings[..|ventReadings|] == ventReadings;
    count := CountOverlaps(ventMap, grid);
  }

  lemma PaintedStep(m: VentMap, readings: seq<Reading>, checkDiagonal: bool, before: seq<seq<int>>, after: seq<seq<int>>)
    requires ValidMap(m) && readings != [] && Shaped(m, before) && Shaped(m, after)
    requires before == Painted(m, readings[..|readings| - 1], checkDiagonal)
    requires Drawn(m, before, after, readings[|readings| - 1], checkDiagonal)
    ensures after == Painted(m, readings, checkDiagonal)
  {
    var p := Painted(m, readings, checkDiagonal);
    var front := readings[..|readings| - 1];
    forall x | 0 <= x < m.xMax
      ensures after[x] == p[x]
    {
      forall y | 0 <= y < m.yMax
        ensures after[x][y] == p[x][y]
      {
        assert before[x][y] == m.val[x][y] + Hits(front, (x, y), checkDiagonal);
        assert p[x][y] == m.val[x][y] + Hits(readings, (x, y), checkDiagonal);
      }
    }
  }

  lemma PaintedNothing(m: VentMap, checkDiagonal: bool)
    requires ValidMap(m)
    ensures Painted(m, [], checkDiagonal) == m.val
  {
    var p := Painted(m, [], checkDiagonal);
    forall x | 0 <= x < m.xMax
      ensures p[x] == m.val[x]
    {
    }
  }

  /** Without diagonals a line covers a subset of what it covers with them. */
  lemma {:induction false} HitsMonotone(readings: seq<Reading>, p: (int, int))
    ensures Hits(readings, p, false) <= Hits(readings, p, true)
    decreases |readings|
  {
    if readings != [] {
      HitsMonotone(readings[..|readings| - 1], p);
    }
  }

  lemma {:induction false} RowOverlapsMonotone(a: seq<int>, b: seq<int>)
    requires |a| == |b| && forall i :: 0 <= i < |a| ==> a[i] <= b[i]
    ensures RowOverlaps(a) <= RowOverlaps(b)
    decreases |a|
  {
    if a != [] {
      RowOverlapsMonotone(a[..|a| - 1], b[..|b| - 1]);
    }
  }

  lemma {:induction false} OverlapsMonotone(a: seq<seq<int>>, b: seq<seq<int>>)
    requires |a| == |b|
    requires forall x :: 0 <= x < |a| ==> |a[x]| == |b[x]| && forall y :: 0 <= y < |a[x]| ==> a[x][y] <= b[x][y]
    ensures Overlaps(a) <= Overlaps(b)
    decreases |a|
  {
    if a != [] {
      OverlapsMonotone(a[..|a| - 1], b[..|b| - 1]);
      RowOverlapsMonotone(a[|a| - 1], b[|b| - 1]);
    }
  }

  /** Drawing diagonals as well never lowers the number of overlap points. */
  lemma DiagonalsNeverFewer(m: VentMap, readings: seq<Reading>)
    requires ValidMap(m)
    ensures Overlaps(Painted(m, readings, false)) <= Overlaps(Painted(m, readings, true))
  {
    var a := Painted(m, readings, false);
    var b := Painted(m, readings, true);
    forall x, y | 0 <= x < m.xMax && 0 <= y < m.yMax
      ensures a[x][y] <= b[x][y]
    {
      HitsMonotone(readings, (x, y));
    }
    OverlapsMonotone(a, b);
  }
}
