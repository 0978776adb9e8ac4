/**
 * Model of day9/src/main.rs: the low points of a heightmap framed by 10s,
 * and the size of the basin flooding out of each low point.
 */
module Basins {
  import opened Common

  datatype LowPoint = LowPoint(x: int, y: int, value: int)

  datatype ExtendedHeightMap = ExtendedHeightMap(height: int, width: int, heightmap: seq<seq<int>>)

  /** The shape of a parsed heightmap: at least one row, all rows as long as the first. */
  predicate Rectangular(m: seq<seq<int>>)
  {
    |m| > 0 && forall i :: 0 <= i < |m| ==> |m[i]| == |m[0]|
  }

  /** `get_extended_heightmap`: the map framed by 10s, with its padded height and width. */
  method GetExtendedHeightmap(heightmap: seq<seq<int>>) returns (eh: ExtendedHeightMap)
    requires |heightmap| > 0
    ensures eh.heightmap == Padded(heightmap)
    ensures eh.height == |heightmap| + 2 && eh.width == |heightmap[0]| + 2
  {
    var extended := ExtendedMetrix(heightmap);
    eh := ExtendedHeightMap(|heightmap| + 2, |heightmap[0]| + 2, extended);
  }

  /** A rectangular grid of at least 2x2 whose outermost cells are all 10. */
  predicate Framed(p: seq<seq<int>>)
  {
    && |p| >= 2 && |p[0]| >= 2
    && (forall i :: 0 <= i < |p| ==> |p[i]| == |p[0]|)
    && (forall j :: 0 <= j < |p[0]| ==> p[0][j] == 10 && p[|p| - 1][j] == 10)
    && (forall i :: 0 <= i < |p| ==> p[i][0] == 10 && p[i][|p[0]| - 1] == 10)
  }

  lemma PaddedFramed(m: seq<seq<int>>)
    requires Rectangular(m)
    ensures Framed(Padded(m))
  {
    PaddedCells(m);
    var p := Padded(m);
    forall i | 0 <= i < |p|
      ensures |p[i]| == |p[0]| && p[i][0] == 10 && p[i][|p[0]| - 1] == 10
    {
      if 0 < i < |p| - 1 {
        assert |p[i]| == |m[i - 1]| + 2;
      }
    }
  }

  predicate InGrid(p: seq<seq<int>>, c: (int, int))
  {
    |p| > 0 && 0 <= c.0 < |p| && 0 <= c.1 < |p[0]|
  }

  /** A cell of the original map inside the frame. */
  predicate Interior(p: seq<seq<int>>, c: (int, int))
  {
    |p| > 0 && 1 <= c.0 < |p| - 1 && 1 <= c.1 < |p[0]| - 1
  }

  /** Lines 45-48: strictly below all four orthogonal neighbours. */
  predicate IsLow(p: seq<seq<int>>, x: int, y: int)
    requires Framed(p) && Interior(p, (x, y))
  {
    && p[x][y] < p[x][y - 1]
    && p[x][y] < p[x][y + 1]
    && p[x][y] < p[x - 1][y]
    && p[x][y] < p[x + 1][y]
  }

  /** Low points of row `x`, columns `1..n-1`, left to right. */
  function RowLows(p: seq<seq<int>>, x: int, n: int): (r: seq<LowPoint>)
    requires Framed(p) && 1 <= x < |p| - 1 && 1 <= n <= |p[0]| - 1
    decreases n
  {
    if n == 1 then []
    else RowLows(p, x, n - 1) + (if IsLow(p, x, n - 1) then [LowPoint(x, n - 1, p[x][n - 1])] else [])
  }

  /** Low points of rows `1..k-1`, row by row. */
  function Lows(p: seq<seq<int>>, k: int): seq<LowPoint>
    requires Framed(p) && 1 <= k <= |p| - 1
    decreases k
  {
    if k == 1 then [] else Lows(p, k - 1) + RowLows(p, k - 1, |p[0]| - 1)
  }

  /** All low points of the framed map in the order the scan visits them. */
  function LowPointsOf(p: seq<seq<int>>): seq<LowPoint>
    requires Framed(p)
  {
    Lows(p, |p| - 1)
  }

  /** A genuine low point of `p`, reported with its padded coordinates and its height. */
  predicate Reported(p: seq<seq<int>>, lp: LowPoint)
    requires Framed(p)
  {
    Interior(p, (lp.x, lp.y)) && IsLow(p, lp.x, lp.y) && lp.value == p[lp.x][lp.y]
  }

  /** Row-major order: earlier row, or same row and earlier column. */
  predicate Before(a: LowPoint, b: LowPoint)
  {
    a.x < b.x || (a.x == b.x && a.y < b.y)
  }

  /** What the row scan finds: exactly its low points, in strictly increasing column order. */
  lemma {:induction false} RowLowsExact(p: seq<seq<int>>, x: int, n: int)
    requires Framed(p) && 1 <= x < |p| - 1 && 1 <= n <= |p[0]| - 1
    ensures forall i :: 0 <= i < |RowLows(p, x, n)| ==>
      Reported(p, RowLows(p, x, n)[i]) && RowLows(p, x, n)[i].x == x && RowLows(p, x, n)[i].y < n
    ensures forall y :: 1 <= y < n && IsLow(p, x, y) ==>
      exists i :: 0 <= i < |RowLows(p, x, n)| && RowLows(p, x, n)[i].y == y
    ensures forall i, j :: 0 <= i < j < |RowLows(p, x, n)| ==> RowLows(p, x, n)[i].y < RowLows(p, x, n)[j].y
    decreases n
  {
    if n > 1 {
      RowLowsExact(p, x, n - 1);
      var r := RowLows(p, x, n);
      var front := RowLows(p, x, n - 1);
      assert forall i :: 0 <= i < |front| ==> r[i] == front[i];
      forall y | 1 <= y < n && IsLow(p, x, y)
        ensures exists i :: 0 <= i < |r| && r[i].y == y
      {
        if y < n - 1 {
          var i :| 0 <= i < |front| && front[i].y == y;
          assert r[i].y == y;
        } else {
          assert r[|r| - 1].y == y;
        }
      }
    }
  }

  /** Every entry of `r` is a low point of `p` in a row below `k`. */
  predicate ReportedBelow(p: seq<seq<int>>, r: seq<LowPoint>, k: int)
    requires Framed(p)
  {
    forall i :: 0 <= i < |r| ==> Reported(p, r[i]) && r[i].x < k
  }

  /** Some entry of `r` sits at `(x, y)`. */
  predicate Lists(r: seq<LowPoint>, x: int, y: int)
  {
    exists i :: 0 <= i < |r| && r[i].x == x && r[i].y == y
  }

  /** Entries of `r` appear in strictly increasing row-major order. */
  predicate InOrder(r: seq<LowPoint>)
  {
    forall i, j :: 0 <= i < j < |r| ==> Before(r[i], r[j])
  }

  lemma AppendReported(p: seq<seq<int>>, a: seq<LowPoint>, b: seq<LowPoint>, k: int)
    requires Framed(p) && ReportedBelow(p, a, k) && ReportedBelow(p, b, k)
    ensures ReportedBelow(p, a + b, k)
  {
    forall i | 0 <= i < |a + b|
      ensures Reported(p, (a + b)[i]) && (a + b)[i].x < k
    {
      if i >= |a| {
        assert (a + b)[i] == b[i - |a|];
      } else {
        assert (a + b)[i] == a[i];
      }
    }
  }

  lemma AppendLists(a: seq<LowPoint>, b: seq<LowPoint>, x: int, y: int)
    requires Lists(a, x, y) || Lists(b, x, y)
    ensures Lists(a + b, x, y)
  {
    if Lists(a, x, y) {
      var i :| 0 <= i < |a| && a[i].x == x && a[i].y == y;
      assert (a + b)[i] == a[i];
    } else {
      var i :| 0 <= i < |b| && b[i].x == x && b[i].y == y;
      assert (a + b)[|a| + i] == b[i];
    }
  }

  lemma AppendInOrder(a: seq<LowPoint>, b: seq<LowPoint>)
    requires InOrder(a) && InOrder(b)
    requires forall i, j :: 0 <= i < |a| && 0 <= j < |b| ==> Before(a[i], b[j])
    ensures InOrder(a + b)
  {
    forall i, j | 0 <= i < j < |a + b|
      ensures Before((a + b)[i], (a + b)[j])
    {
      if j < |a| {
        assert (a + b)[i] == a[i] && (a + b)[j] == a[j];
      } else if i >= |a| {
        assert (a + b)[i] == b[i - |a|] && (a + b)[j] == b[j - |a|];
      } else {
        assert (a + b)[i] == a[i] && (a + b)[j] == b[j - |a|];
      }
    }
  }

  /** The scan of rows `1..k-1` reports only their low points. */
  lemma {:induction false} LowsSound(p: seq<seq<int>>, k: int)
    requires Framed(p) && 1 <= k <= |p| - 1
    ensures ReportedBelow(p, Lows(p, k), k)
    decreases k
  {
    if k > 1 {
      LowsSound(p, k - 1);
      RowLowsExact(p, k - 1, |p[0]| - 1);
      var front := Lows(p, k - 1);
      var row := RowLows(p, k - 1, |p[0]| - 1);
      assert ReportedBelow(p, front, k);
      assert ReportedBelow(p, row, k);
      AppendReported(p, front, row, k);
    }
  }

  /** The scan of rows `1..k-1` reports every one of their low points. */
  lemma {:induction false} LowsComplete(p: seq<seq<int>>, k: int)
    requires Framed(p) && 1 <= k <= |p| - 1
    ensures forall x, y :: 1 <= x < k && 1 <= y < |p[0]| - 1 && IsLow(p, x, y) ==> Lists(Lows(p, k), x, y)
    decreases k
  {
    if k > 1 {
      LowsComplete(p, k - 1);
      RowLowsExact(p, k - 1, |p[0]| - 1);
      var front := Lows(p, k - 1);
      var row := RowLows(p, k - 1, |p[0]| - 1);
      assert Lows(p, k) == front + row;
      forall x, y | 1 <= x < k && 1 <= y < |p[0]| - 1 && IsLow(p, x, y)
        ensures Lists(front + row, x, y)
      {
        if x == k - 1 {
          var i :| 0 <= i < |row| && row[i].y == y;
          assert Lists(row, x, y);
        }
        AppendLists(front, row, x, y);
      }
    }
  }

  /** The scan of rows `1..k-1` reports in strictly increasing row-major order. */
  lemma {:induction false} LowsOrdered(p: seq<seq<int>>, k: int)
    requires Framed(p) && 1 <= k <= |p| - 1
    ensures InOrder(Lows(p, k))
    decreases k
  {
    if k > 1 {
      LowsOrdered(p, k - 1);
      LowsSound(p, k - 1);
      RowLowsExact(p, k - 1, |p[0]| - 1);
      var front := Lows(p, k - 1);
      var row := RowLows(p, k - 1, |p[0]| - 1);
      assert InOrder(row);
      AppendInOrder(front, row);
    }
  }

  /** `get_low_points_from_heightmap`: scan the interior row by row, left to right. */
  method GetLowPoints(heightmap: seq<seq<int>>) returns (lowPoints: seq<LowPoint>)
    requires Rectangular(heightmap)
    ensures Framed(Padded(heightmap)) && lowPoints == LowPointsOf(Padded(heightmap))
  {
    var eh := GetExtendedHeightmap(heightmap);
    var p := eh.heightmap;
    PaddedFramed(heightmap);
    lowPoints := [];
    for x := 1 to eh.height - 1
      invariant lowPoints == Lows(p, x)
    {
      lowPoints := ScanRow(p, x, lowPoints);
    }
  }

  /** The inner loop of `get_low_points_from_heightmap`: row `x`, left to right. */
  method ScanRow(p: seq<seq<int>>, x: int, lowPoints: seq<LowPoint>) returns (lowPoints': seq<LowPoint>)
    requires Framed(p) && 1 <= x < |p| - 1
    ensures lowPoints' == lowPoints + RowLows(p, x, |p[0]| - 1)
  {
    lowPoints' := lowPoints;
    for y := 1 to |p[0]| - 1
      invariant lowPoints' == lowPoints + RowLows(p, x, y)
    {
      if p[x][y] < p[x][y - 1] && p[x][y] < p[x][y + 1] && p[x][y] < p[x - 1][y] && p[x][y] < p[x + 1][y] {
        lowPoints' := lowPoints' + [LowPoint(x, y, p[x][y])];
      }
    }
  }

  /** The low points reported are exactly the low cells of the map, each once, in scan order. */
  lemma LowPointsExact(p: seq<seq<int>>)
    requires Framed(p)
    ensures forall i :: 0 <= i < |LowPointsOf(p)| ==> Reported(p, LowPointsOf(p)[i])
    ensures forall x, y :: Interior(p, (x, y)) && IsLow(p, x, y) ==> Lists(LowPointsOf(p), x, y)
    ensures InOrder(LowPointsOf(p))
  {
    assert LowPointsOf(p) == Lows(p, |p| - 1);
    LowsSound(p, |p| - 1);
    LowsComplete(p, |p| - 1);
    LowsOrdered(p, |p| - 1);
  }

  predicate Digits(m: seq<seq<int>>)
  {
    forall i, j :: 0 <= i < |m| && 0 <= j < |m[i]| ==> 0 <= m[i][j] <= 9
  }

  /**
   * For a map of digits the frame never matters: a padded cell is low
   * exactly when the original cell is below each neighbour the map has.
   */
  lemma LowInOriginal(m: seq<seq<int>>, x: nat, y: nat)
    requires Rectangular(m) && Digits(m) && x < |m| && y < |m[0]|
    ensures Framed(Padded(m)) && Interior(Padded(m), (x + 1, y + 1))
    ensures IsLow(Padded(m), x + 1, y + 1) <==>
      && (x > 0 ==> m[x][y] < m[x - 1][y])
      && (x + 1 < |m| ==> m[x][y] < m[x + 1][y])
      && (y > 0 ==> m[x][y] < m[x][y - 1])
      && (y + 1 < |m[0]| ==> m[x][y] < m[x][y + 1])
  {
    PaddedFramed(m);
    PaddedCells(m);
  }

  /** Lines 63-65: a cell can join the basin when it is below 9 and not in it yet. */
  function IsValid(p: seq<seq<int>>, x: int, y: int, basin: set<(int, int)>): (b: bool)
    requires InGrid(p, (x, y)) && |p[x]| == |p[0]|
    ensures b <==> p[x][y] < 9 && (x, y) !in basin
  {
    p[x][y] < 9 && (x, y) !in basin
  }

  /** A cell a basin may flow through: on the grid and below 9. */
  predicate Open(p: seq<seq<int>>, c: (int, int))
    requires Framed(p)
  {
    InGrid(p, c) && p[c.0][c.1] < 9
  }

  predicate Adjacent(a: (int, int), b: (int, int))
  {
    b == (a.0 - 1, a.1) || b == (a.0 + 1, a.1) || b == (a.0, a.1 - 1) || b == (a.0, a.1 + 1)
  }

  /** A walk by orthogonal steps whose every cell after the first is open. */
  ghost predicate IsWalk(p: seq<seq<int>>, walk: seq<(int, int)>)
    requires Framed(p)
  {
    && |walk| >= 1
    && forall i :: 1 <= i < |walk| ==> Adjacent(walk[i - 1], walk[i]) && Open(p, walk[i])
  }

  ghost predicate Reaches(p: seq<seq<int>>, start: (int, int), c: (int, int))
    requires Framed(p)
  {
    exists walk :: IsWalk(p, walk) && walk[0] == start && walk[|walk| - 1] == c
  }

  function Cells(p: seq<seq<int>>): set<(int, int)>
  {
    set x, y | 0 <= x < |p| && 0 <= y < (if |p| > 0 then |p[0]| else 0) :: (x, y)
  }

  /** The basin of `start`: every cell reached from it through open cells. */
  ghost function Basin(p: seq<seq<int>>, start: (int, int)): set<(int, int)>
    requires Framed(p)
  {
    set c | c in Cells(p) && Reaches(p, start, c)
  }

  function InteriorCells(p: seq<seq<int>>): set<(int, int)>
  {
    set x, y | 1 <= x < |p| - 1 && 1 <= y < (if |p| > 0 then |p[0]| - 1 else 0) :: (x, y)
  }

  /** Every open neighbour of `c` is in `basin`. */
  predicate ClosedAt(p: seq<seq<int>>, basin: set<(int, int)>, c: (int, int))
    requires Framed(p)
  {
    && (Open(p, (c.0 - 1, c.1)) ==> (c.0 - 1, c.1) in basin)
    && (Open(p, (c.0 + 1, c.1)) ==> (c.0 + 1, c.1) in basin)
    && (Open(p, (c.0, c.1 - 1)) ==> (c.0, c.1 - 1) in basin)
    && (Open(p, (c.0, c.1 + 1)) ==> (c.0, c.1 + 1) in basin)
  }

  /** What the flood keeps true: the basin so far lies inside the frame and is reached from `start`. */
  ghost predicate Flooding(p: seq<seq<int>>, start: (int, int), basin: set<(int, int)>, checkList: seq<(int, int)>)
    requires Framed(p)
  {
    && start in basin
    && (forall c :: c in basin ==> Interior(p, c) && Reaches(p, start, c))
    && (forall i :: 0 <= i < |checkList| ==> checkList[i] in basin)
    && (forall i, j :: 0 <= i < j < |checkList| ==> checkList[i] != checkList[j])
    && (forall c :: c in basin && c !in checkList ==> ClosedAt(p, basin, c))
  }

  lemma ExtendWalk(p: seq<seq<int>>, start: (int, int), c: (int, int), n: (int, int))
    requires Framed(p) && Reaches(p, start, c) && Adjacent(c, n) && Open(p, n)
    ensures Reaches(p, start, n)
  {
    var walk :| IsWalk(p, walk) && walk[0] == start && walk[|walk| - 1] == c;
    var longer := walk + [n];
    assert IsWalk(p, longer) && longer[0] == start && longer[|longer| - 1] == n;
  }

  /** A cell of the grid that is not 10 lies inside the frame: the border of 10s is never entered. */
  lemma InsideFrame(p: seq<seq<int>>, c: (int, int))
    requires Framed(p) && InGrid(p, c) && p[c.0][c.1] != 10
    ensures Interior(p, c)
  {
    assert p[0][c.1] == 10 && p[|p| - 1][c.1] == 10 && p[c.0][0] == 10 && p[c.0][|p[0]| - 1] == 10;
  }

  /** A valid neighbour joins both the basin and the end of the check list. */
  lemma FloodAdd(p: seq<seq<int>>, start: (int, int), basin: set<(int, int)>, checkList: seq<(int, int)>,
                 c: (int, int), n: (int, int))
    requires Framed(p) && Flooding(p, start, basin, checkList)
    requires |checkList| > 0 && c == checkList[0] && Adjacent(c, n)
    requires Open(p, n) && n !in basin
    ensures Flooding(p, start, basin + {n}, checkList + [n])
  {
    InsideFrame(p, n);
    ExtendWalk(p, start, c, n);
    var basin', checkList' := basin + {n}, checkList + [n];
    forall b | b in basin' && b !in checkList'
      ensures ClosedAt(p, basin', b)
    {
      assert b !in checkList;
      assert ClosedAt(p, basin, b);
    }
  }

  /**
   * Bounds the flood: each cell let in shrinks the cells still outside the
   * basin by one and grows the check list by one; each pass drops one entry.
   */
  function FloodMeasure(p: seq<seq<int>>, basin: set<(int, int)>, checkList: seq<(int, int)>): nat
  {
    2 * |InteriorCells(p) - basin| + |checkList|
  }

  /**
   * One of the four checks in the flood loop: the neighbour `n` of the
   * cell `c` under inspection joins the basin and the end of the check
   * list when it is valid.
   */
  method TryAdd(p: seq<seq<int>>, start: (int, int), basin: set<(int, int)>, checkList: seq<(int, int)>,
                ghost c: (int, int), n: (int, int))
    returns (basin': set<(int, int)>, checkList': seq<(int, int)>)
    requires Framed(p) && Flooding(p, start, basin, checkList) && basin <= InteriorCells(p)
    requires |checkList| > 0 && c == checkList[0] && Adjacent(c, n)
    ensures Flooding(p, start, basin', checkList') && basin' <= InteriorCells(p)
    ensures |checkList'| > 0 && checkList'[0] == c && basin <= basin'
    ensures Open(p, n) ==> n in basin'
    ensures FloodMeasure(p, basin', checkList') <= FloodMeasure(p, basin, checkList)
  {
    assert Interior(p, c);
    assert InGrid(p, n) && |p[n.0]| == |p[0]|;
    if IsValid(p, n.0, n.1, basin) {
      FloodAdd(p, start, basin, checkList, c, n);
      checkList' := checkList + [n];
      basin' := basin + {n};
      var all := InteriorCells(p);
      assert Interior(p, n);
      assert n in all - basin;
      assert all - basin' == (all - basin) - {n};
    } else {
      basin', checkList' := basin, checkList;
    }
  }

  /** Two consecutive checks of the flood loop, on neighbours `n1` then `n2` of the front cell `c`. */
  method TryAddTwo(p: seq<seq<int>>, start: (int, int), basin: set<(int, int)>, checkList: seq<(int, int)>,
                   ghost c: (int, int), n1: (int, int), n2: (int, int))
    returns (basin': set<(int, int)>, checkList': seq<(int, int)>)
    requires Framed(p) && Flooding(p, start, basin, checkList) && basin <= InteriorCells(p)
    requires |checkList| > 0 && c == checkList[0] && Adjacent(c, n1) && Adjacent(c, n2)
    ensures Flooding(p, start, basin', checkList') && basin' <= InteriorCells(p)
    ensures |checkList'| > 0 && checkList'[0] == c && basin <= basin'
    ensures Open(p, n1) ==> n1 in basin'
    ensures Open(p, n2) ==> n2 in basin'
    ensures FloodMeasure(p, basin', checkList') <= FloodMeasure(p, basin, checkList)
  {
    basin', checkList' := TryAdd(p, start, basin, checkList, c, n1);
    basin', checkList' := TryAdd(p, start, basin', checkList', c, n2);
  }

  /** The four cells the flood loop checks around `c` are its neighbours. */
  lemma NeighboursAdjacent(c: (int, int))
    ensures Adjacent(c, (c.0 - 1, c.1)) && Adjacent(c, (c.0 + 1, c.1))
    ensures Adjacent(c, (c.0, c.1 - 1)) && Adjacent(c, (c.0, c.1 + 1))
  {
  }

  /**
   * One pass of the flood loop (lines 79-98): the four neighbours of the
   * front cell are checked in the order up, down, left, right, then the
   * front cell is dropped from the check list.
   */
  method FloodStep(p: seq<seq<int>>, start: (int, int), basin: set<(int, int)>, checkList: seq<(int, int)>)
    returns (basin': set<(int, int)>, checkList': seq<(int, int)>)
    requires Framed(p) && Flooding(p, start, basin, checkList) && basin <= InteriorCells(p) && checkList != []
    ensures Flooding(p, start, basin', checkList') && basin' <= InteriorCells(p)
    ensures FloodMeasure(p, basin', checkList') < FloodMeasure(p, basin, checkList)
  {
    var c := checkList[0];
    NeighboursAdjacent(c);
    var b1, l1 := TryAddTwo(p, start, basin, checkList, c, (c.0 - 1, c.1), (c.0 + 1, c.1));
    var b2, l2 := TryAddTwo(p, start, b1, l1, c, (c.0, c.1 - 1), (c.0, c.1 + 1));
    assert ClosedAt(p, b2, c);
    DropFront(p, start, b2, l2);
    basin', checkList' := b2, l2[1..];
    assert FloodMeasure(p, basin', checkList') == FloodMeasure(p, b2, l2) - 1;
  }

  /**
   * The flood of lines 75-99: the basin starts as the low point, every cell
   * taken off the front of the check list lets its valid neighbours in, and
   * the loop ends when the list is empty.
   */
  method FloodBasin(p: seq<seq<int>>, start: (int, int)) returns (basin: set<(int, int)>)
    requires Framed(p) && Interior(p, start)
    ensures basin == Basin(p, start)
    ensures forall c :: c in basin ==> Interior(p, c)
  {
    var checkList := [start];
    basin := {start};
    assert IsWalk(p, [start]);
    while checkList != []
      invariant Flooding(p, start, basin, checkList) && basin <= InteriorCells(p)
      decreases FloodMeasure(p, basin, checkList)
    {
      basin, checkList := FloodStep(p, start, basin, checkList);
    }
    FloodIsBasin(p, start, basin);
  }

  /** Taking the inspected cell off the front keeps the flood invariant, once its neighbours are in. */
  lemma DropFront(p: seq<seq<int>>, start: (int, int), basin: set<(int, int)>, checkList: seq<(int, int)>)
    requires Framed(p) && Flooding(p, start, basin, checkList) && |checkList| > 0
    requires ClosedAt(p, basin, checkList[0])
    ensures Flooding(p, start, basin, checkList[1..])
  {
    var rest := checkList[1..];
    forall c | c in basin && c !in rest
      ensures ClosedAt(p, basin, c)
    {
      if c != checkList[0] {
        forall i | 0 <= i < |checkList|
          ensures checkList[i] != c
        {
          if i > 0 {
            assert checkList[i] == rest[i - 1];
          }
        }
      }
    }
  }

  /** A set that holds `start` and is closed under open steps holds everything `start` reaches. */
  lemma {:induction false} ClosedHoldsWalk(p: seq<seq<int>>, basin: set<(int, int)>, walk: seq<(int, int)>)
    requires Framed(p) && IsWalk(p, walk) && walk[0] in basin
    requires forall c :: c in basin ==> ClosedAt(p, basin, c)
    ensures walk[|walk| - 1] in basin
    decreases |walk|
  {
    if |walk| > 1 {
      var front := walk[..|walk| - 1];
      assert IsWalk(p, front);
      ClosedHoldsWalk(p, basin, front);
      assert ClosedAt(p, basin, front[|front| - 1]);
    }
  }

  lemma FloodIsBasin(p: seq<seq<int>>, start: (int, int), basin: set<(int, int)>)
    requires Framed(p) && Flooding(p, start, basin, [])
    ensures basin == Basin(p, start)
  {
    forall c | c in Cells(p) && Reaches(p, start, c)
      ensures c in basin
    {
      var walk :| IsWalk(p, walk) && walk[0] == start && walk[|walk| - 1] == c;
      ClosedHoldsWalk(p, basin, walk);
    }
    forall c | c in basin
      ensures c in Cells(p)
    {
      assert Interior(p, c);
    }
  }

  /** `get_basin_sizes_from_heightmap`: one basin size per low point, in low-point order. */
  method GetBasinSizes(heightmap: seq<seq<int>>) returns (basinSizes: seq<int>)
    requires Rectangular(heightmap)
    ensures Framed(Padded(heightmap))
    ensures var lows := LowPointsOf(Padded(heightmap));
      && |basinSizes| == |lows|
      && forall i :: 0 <= i < |lows| ==> basinSizes[i] == |Basin(Padded(heightmap), (lows[i].x, lows[i].y))|
  {
    var eh := GetExtendedHeightmap(heightmap);
    var p := eh.heightmap;
    var lowPoints := GetLowPoints(heightmap);
    basinSizes := [];
    for i := 0 to |lowPoints|
      invariant |basinSizes| == i
      invariant forall j :: 0 <= j < i ==> basinSizes[j] == |Basin(p, (lowPoints[j].x, lowPoints[j].y))|
    {
      var low := lowPoints[i];
      LowReported(p, i);
      var basin := FloodBasin(p, (low.x, low.y));
      basinSizes := basinSizes + [|basin|];
    }
  }

  /** Each low point reported lies inside the frame. */
  lemma LowReported(p: seq<seq<int>>, i: nat)
    requires Framed(p) && i < |LowPointsOf(p)|
    ensures Interior(p, (LowPointsOf(p)[i].x, LowPointsOf(p)[i].y))
  {
    LowPointsExact(p);
  }

  /** A basin holds its low point and only cells inside the frame and below 9 besides it. */
  lemma BasinShape(p: seq<seq<int>>, start: (int, int))
    requires Framed(p) && Interior(p, start)
    ensures start in Basin(p, start)
    ensures forall c :: c in Basin(p, start) && c != start ==> Interior(p, c) && p[c.0][c.1] < 9
  {
    assert IsWalk(p, [start]);
    forall c | c in Basin(p, start) && c != start
      ensures Interior(p, c) && p[c.0][c.1] < 9
    {
      var walk :| IsWalk(p, walk) && walk[0] == start && walk[|walk| - 1] == c;
      assert |walk| > 1 && Open(p, c);
      InsideFrame(p, c);
    }
  }
}
