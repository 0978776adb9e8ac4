/**
 * Model of day11/src/main.rs: one step of the dumbo-octopus grid. Every
 * energy level rises by one; then every octopus above 9 flashes once,
 * drops to 0 and raises each of its eight neighbours that has not flashed
 * yet, which may make them flash in turn.
 *
 * The step is specified without the work list: the octopuses that flash
 * are the least set `S` closed under "an octopus outside `S` stays at most
 * 9 after the rise and the flashes of its neighbours in `S`", and every
 * other octopus ends at its raised level plus its number of flashed
 * neighbours. The source's cascade is proved to compute exactly that.
 * The grid is square: the bounds check of lines 10-16 uses the row count
 * on both axes.
 */
module Octopus {
  type Cell = (int, int)

  predicate Square(g: seq<seq<int>>)
  {
    |g| > 0 && forall i :: 0 <= i < |g| ==> |g[i]| == |g|
  }

  predicate InBounds(n: int, c: Cell)
  {
    0 <= c.0 < n && 0 <= c.1 < n
  }

  /** `is_valid` (lines 10-16): inside the square grid and not flashed in this step. */
  function IsValid(metrix: seq<seq<int>>, x: int, y: int, flashed: set<Cell>): (b: bool)
    ensures b <==> InBounds(|metrix|, (x, y)) && (x, y) !in flashed
  {
    x >= 0 && y >= 0 && x < |metrix| && y < |metrix| && (x, y) !in flashed
  }

  /** One of the eight neighbours: distinct, at most one step apart on each axis. */
  predicate Near(a: Cell, b: Cell)
  {
    a != b && -1 <= a.0 - b.0 <= 1 && -1 <= a.1 - b.1 <= 1
  }

  function Cells(n: int): set<Cell>
  {
    set x, y | 0 <= x < n && 0 <= y < n :: (x, y)
  }

  /** The flashed neighbours of `c`. */
  function FlashedNear(flashed: set<Cell>, c: Cell): set<Cell>
  {
    set f | f in flashed && Near(c, f)
  }

  /** Lines 22-26: every energy level raised by one. */
  function Incremented(g: seq<seq<int>>): seq<seq<int>>
    requires Square(g)
  {
    seq(|g|, i requires 0 <= i < |g| => seq(|g|, j requires 0 <= j < |g| => g[i][j] + 1))
  }

  /**
   * The grid once the octopuses of `flashed` have flashed on the raised
   * grid `g0`: flashed ones at 0, every other one raised by each flashed
   * neighbour.
   */
  function Settled(g0: seq<seq<int>>, flashed: set<Cell>): (r: seq<seq<int>>)
    requires Square(g0)
    ensures Square(r) && |r| == |g0|
  {
    seq(|g0|, i requires 0 <= i < |g0| =>
      seq(|g0|, j requires 0 <= j < |g0| =>
        SettledAt(g0, flashed, i, j)))
  }

  /** One cell of `Settled`. */
  function SettledAt(g0: seq<seq<int>>, flashed: set<Cell>, i: int, j: int): int
    requires Square(g0) && 0 <= i < |g0| && 0 <= j < |g0|
  {
    if (i, j) in flashed then 0 else g0[i][j] + |FlashedNear(flashed, (i, j))|
  }

  /** `g` is the settled grid of `flashed`, cell by cell. */
  ghost predicate IsSettled(g: seq<seq<int>>, g0: seq<seq<int>>, flashed: set<Cell>)
    requires Square(g0)
  {
    && Square(g) && |g| == |g0|
    && forall i, j :: 0 <= i < |g0| && 0 <= j < |g0| ==> g[i][j] == SettledAt(g0, flashed, i, j)
  }

  /** No octopus outside `s` would flash once those in `s` have. */
  ghost predicate Closed(g0: seq<seq<int>>, s: set<Cell>)
    requires Square(g0)
  {
    && (forall c :: c in s ==> InBounds(|g0|, c))
    && (forall c :: InBounds(|g0|, c) && c !in s ==> g0[c.0][c.1] + |FlashedNear(s, c)| <= 9)
  }

  /** The octopuses that flash in a step from the raised grid `g0`: those in every closed set. */
  ghost function Flashes(g0: seq<seq<int>>): set<Cell>
    requires Square(g0)
  {
    set c | c in Cells(|g0|) && forall s :: Closed(g0, s) ==> c in s
  }

  /** The octopuses that flash in the step from `g`. */
  ghost function StepFlashes(g: seq<seq<int>>): set<Cell>
    requires Square(g)
  {
    Flashes(Incremented(g))
  }

  /** One step of the model: raise, then let exactly the least closed set flash. */
  ghost function Step(g: seq<seq<int>>): (r: seq<seq<int>>)
    requires Square(g)
    ensures Square(r) && |r| == |g|
  {
    Settled(Incremented(g), StepFlashes(g))
  }

  ghost function Steps(g: seq<seq<int>>, k: nat): (r: seq<seq<int>>)
    requires Square(g)
    ensures Square(r) && |r| == |g|
  {
    if k == 0 then g else Step(Steps(g, k - 1))
  }

  /** The flash count of each of the first `k` steps. */
  ghost function FlashCounts(g: seq<seq<int>>, k: nat): (r: seq<int>)
    requires Square(g)
    ensures |r| == k
    ensures forall j :: 0 <= j < k ==> r[j] == |StepFlashes(Steps(g, j))|
  {
    if k == 0 then [] else FlashCounts(g, k - 1) + [|StepFlashes(Steps(g, k - 1))|]
  }

  // ---------------------------------------------------------------------
  // Facts about the specification
  // ---------------------------------------------------------------------

  lemma CellsInBounds(n: int, c: Cell)
    ensures c in Cells(n) <==> InBounds(n, c)
  {
    if InBounds(n, c) {
      assert c == (c.0, c.1);
    }
  }

  lemma CardMono<T>(a: set<T>, b: set<T>)
    requires a <= b
    ensures |a| <= |b|
  {
    assert b == a + (b - a);
  }

  /** A larger flashed set has at least as many flashed neighbours. */
  lemma FlashedNearMono(f: set<Cell>, s: set<Cell>, c: Cell)
    requires f <= s
    ensures |FlashedNear(f, c)| <= |FlashedNear(s, c)|
  {
    CardMono(FlashedNear(f, c), FlashedNear(s, c));
  }

  /** A new flash adds one flashed neighbour to the octopuses around it and none elsewhere. */
  lemma FlashedNearAdd(f: set<Cell>, c: Cell, d: Cell)
    requires c !in f
    ensures Near(d, c) ==> |FlashedNear(f + {c}, d)| == |FlashedNear(f, d)| + 1
    ensures !Near(d, c) ==> FlashedNear(f + {c}, d) == FlashedNear(f, d)
  {
    if Near(d, c) {
      assert FlashedNear(f + {c}, d) == FlashedNear(f, d) + {c};
    }
  }

  /** The flashing set of a step is itself closed, and it is the least closed set. */
  lemma FlashesLeast(g0: seq<seq<int>>)
    requires Square(g0)
    ensures Closed(g0, Flashes(g0))
    ensures forall s :: Closed(g0, s) ==> Flashes(g0) <= s
  {
    var fl := Flashes(g0);
    forall c | c in fl
      ensures InBounds(|g0|, c)
    {
      CellsInBounds(|g0|, c);
    }
    forall c | InBounds(|g0|, c) && c !in fl
      ensures g0[c.0][c.1] + |FlashedNear(fl, c)| <= 9
    {
      CellsInBounds(|g0|, c);
      var s :| Closed(g0, s) && c !in s;
      FlashedNearMono(fl, s, c);
    }
  }

  /** After a step every octopus is at most 9; from non-negative levels, 0 exactly where it flashed. */
  lemma StepLevels(g: seq<seq<int>>)
    requires Square(g) && forall i, j :: 0 <= i < |g| && 0 <= j < |g| ==> g[i][j] >= 0
    ensures forall i, j :: 0 <= i < |g| && 0 <= j < |g| ==> Step(g)[i][j] <= 9
    ensures forall i, j :: 0 <= i < |g| && 0 <= j < |g| ==>
      (Step(g)[i][j] == 0 <==> (i, j) in StepFlashes(g))
  {
    var g0 := Incremented(g);
    FlashesLeast(g0);
    forall i, j | 0 <= i < |g| && 0 <= j < |g|
      ensures Step(g)[i][j] <= 9
      ensures Step(g)[i][j] == 0 <==> (i, j) in Flashes(g0)
    {
      assert InBounds(|g0|, (i, j));
    }
  }

  // ---------------------------------------------------------------------
  // The cascade and its invariant
  // ---------------------------------------------------------------------

  /** Cell `c` is at or after `(x, y)` in the row-major scan of lines 28-29. */
  predicate Later(c: Cell, x: int, y: int)
  {
    c.0 > x || (c.0 == x && c.1 >= y)
  }

  /** An octopus outside `flashed` that the flashes so far have pushed above 9. */
  predicate Pending(g0: seq<seq<int>>, flashed: set<Cell>, c: Cell)
    requires Square(g0) && InBounds(|g0|, c)
  {
    c !in flashed && g0[c.0][c.1] + |FlashedNear(flashed, c)| > 9
  }

  /** Every flash so far was forced: each closed set contains the flashed set. */
  ghost predicate Justified(g0: seq<seq<int>>, flashed: set<Cell>)
    requires Square(g0)
  {
    forall s :: Closed(g0, s) ==> flashed <= s
  }

  /**
   * What the scan keeps true: the flashed octopuses lie on the grid, each
   * was forced, and every pending octopus is on the check list or still
   * ahead of the scan at `(x, y)`.
   */
  ghost predicate Cascading(g0: seq<seq<int>>, flashed: set<Cell>, checkList: seq<Cell>, x: int, y: int)
    requires Square(g0)
  {
    && (forall c :: c in flashed ==> InBounds(|g0|, c))
    && Justified(g0, flashed)
    && (forall k :: 0 <= k < |checkList| ==> InBounds(|g0|, checkList[k]))
    && (forall c :: InBounds(|g0|, c) && Pending(g0, flashed, c) ==> c in checkList || Later(c, x, y))
  }

  /** Two square grids with the same cells are equal. */
  lemma GridExt(a: seq<seq<int>>, b: seq<seq<int>>)
    requires Square(a) && Square(b) && |a| == |b|
    requires forall i, j :: 0 <= i < |a| && 0 <= j < |a| ==> a[i][j] == b[i][j]
    ensures a == b
  {
    forall i | 0 <= i < |a|
      ensures a[i] == b[i]
    {
    }
  }

  /** A flashing octopus was forced: an octopus pushed above 9 belongs to every closed set. */
  lemma FlashForced(g0: seq<seq<int>>, flashed: set<Cell>, c: Cell)
    requires Square(g0) && InBounds(|g0|, c) && Justified(g0, flashed) && Pending(g0, flashed, c)
    ensures Justified(g0, flashed + {c})
  {
    forall s | Closed(g0, s)
      ensures flashed + {c} <= s
    {
      FlashedNearMono(flashed, s, c);
    }
  }

  /** A grid settled cell by cell is the settled grid. */
  lemma SettledIs(g: seq<seq<int>>, g0: seq<seq<int>>, flashed: set<Cell>)
    requires Square(g0) && IsSettled(g, g0, flashed)
    ensures g == Settled(g0, flashed)
  {
    GridExt(g, Settled(g0, flashed));
  }

  /** One cell of the settled grid before and after the flash of `c`. */
  lemma FlashCell(g0: seq<seq<int>>, flashed: set<Cell>, c: Cell, i: int, j: int)
    requires Square(g0) && c !in flashed && 0 <= i < |g0| && 0 <= j < |g0|
    ensures SettledAt(g0, flashed + {c}, i, j) ==
      (if i == c.0 && j == c.1 then 0
       else if Near(c, (i, j)) && (i, j) !in flashed then SettledAt(g0, flashed, i, j) + 1
       else SettledAt(g0, flashed, i, j))
  {
    FlashedNearAdd(flashed, c, (i, j));
    assert Near((i, j), c) <==> Near(c, (i, j));
  }

  /** The grid after the flash of `c` is the settled grid of the larger flashed set. */
  lemma FlashSettles(g0: seq<seq<int>>, flashed: set<Cell>, c: Cell, g: seq<seq<int>>, g': seq<seq<int>>)
    requires Square(g0) && InBounds(|g0|, c) && c !in flashed && IsSettled(g, g0, flashed)
    requires Square(g') && |g'| == |g0|
    requires forall i, j :: 0 <= i < |g0| && 0 <= j < |g0| ==>
      g'[i][j] == (if i == c.0 && j == c.1 then 0 else if Near(c, (i, j)) && (i, j) !in flashed then g[i][j] + 1 else g[i][j])
    ensures IsSettled(g', g0, flashed + {c})
  {
    forall i, j | 0 <= i < |g0| && 0 <= j < |g0|
      ensures g'[i][j] == SettledAt(g0, flashed + {c}, i, j)
    {
      FlashCell(g0, flashed, c, i, j);
    }
  }

  /** What one of the eight checks of lines 41-72 queues: the neighbour `(a, b)` if it is valid. */
  function Queue(n: int, flashed: set<Cell>, a: int, b: int): (q: seq<Cell>)
    ensures |q| <= 1
  {
    if InBounds(n, (a, b)) && (a, b) !in flashed then [(a, b)] else []
  }

  /** The eight checks of lines 41-72 in source order. */
  function Queued(n: int, flashed: set<Cell>, x: int, y: int): seq<Cell>
  {
    Queue(n, flashed, x - 1, y) + Queue(n, flashed, x + 1, y)
    + Queue(n, flashed, x, y - 1) + Queue(n, flashed, x, y + 1)
    + Queue(n, flashed, x - 1, y - 1) + Queue(n, flashed, x - 1, y + 1)
    + Queue(n, flashed, x + 1, y - 1) + Queue(n, flashed, x + 1, y + 1)
  }

  /** Every cell of `q` is a valid neighbour of `(x, y)`. */
  predicate ValidAround(n: int, flashed: set<Cell>, x: int, y: int, q: seq<Cell>)
  {
    forall k :: 0 <= k < |q| ==> InBounds(n, q[k]) && Near((x, y), q[k]) && q[k] !in flashed
  }

  lemma ValidAroundAppend(n: int, flashed: set<Cell>, x: int, y: int, p: seq<Cell>, q: seq<Cell>)
    requires ValidAround(n, flashed, x, y, p) && ValidAround(n, flashed, x, y, q)
    ensures ValidAround(n, flashed, x, y, p + q)
  {
    forall k | 0 <= k < |p + q|
      ensures InBounds(n, (p + q)[k]) && Near((x, y), (p + q)[k]) && (p + q)[k] !in flashed
    {
      if k >= |p| {
        assert (p + q)[k] == q[k - |p|];
      }
    }
  }

  /** The queued cells are valid neighbours, at most eight of them. */
  lemma QueuedValid(n: int, flashed: set<Cell>, x: int, y: int)
    ensures |Queued(n, flashed, x, y)| <= 8
    ensures ValidAround(n, flashed, x, y, Queued(n, flashed, x, y))
  {
    var s := Queue(n, flashed, x - 1, y);
    ValidAroundAppend(n, flashed, x, y, s, Queue(n, flashed, x + 1, y));
    s := s + Queue(n, flashed, x + 1, y);
    ValidAroundAppend(n, flashed, x, y, s, Queue(n, flashed, x, y - 1));
    s := s + Queue(n, flashed, x, y - 1);
    ValidAroundAppend(n, flashed, x, y, s, Queue(n, flashed, x, y + 1));
    s := s + Queue(n, flashed, x, y + 1);
    ValidAroundAppend(n, flashed, x, y, s, Queue(n, flashed, x - 1, y - 1));
    s := s + Queue(n, flashed, x - 1, y - 1);
    ValidAroundAppend(n, flashed, x, y, s, Queue(n, flashed, x - 1, y + 1));
    s := s + Queue(n, flashed, x - 1, y + 1);
    ValidAroundAppend(n, flashed, x, y, s, Queue(n, flashed, x + 1, y - 1));
    s := s + Queue(n, flashed, x + 1, y - 1);
    ValidAroundAppend(n, flashed, x, y, s, Queue(n, flashed, x + 1, y + 1));
  }

  /** Every valid neighbour is queued by one of the eight checks. */
  lemma QueuedComplete(n: int, flashed: set<Cell>, x: int, y: int)
    ensures forall c :: InBounds(n, c) && Near((x, y), c) && c !in flashed ==> c in Queued(n, flashed, x, y)
  {
    forall c | InBounds(n, c) && Near((x, y), c) && c !in flashed
      ensures c in Queued(n, flashed, x, y)
    {
      assert c == (c.0, c.1);
      QueuedHas(n, flashed, x, y, c.0, c.1);
    }
  }

  lemma QueuedHas(n: int, flashed: set<Cell>, x: int, y: int, a: int, b: int)
    requires InBounds(n, (a, b)) && Near((x, y), (a, b)) && (a, b) !in flashed
    ensures (a, b) in Queued(n, flashed, x, y)
  {
    assert (a, b) in Queue(n, flashed, a, b);
    if a == x - 1 {
      if b == y {
        assert (a, b) in Queue(n, flashed, x - 1, y);
      } else if b == y - 1 {
        assert (a, b) in Queue(n, flashed, x - 1, y - 1);
      } else {
        assert (a, b) in Queue(n, flashed, x - 1, y + 1);
      }
    } else if a == x {
      if b == y - 1 {
        assert (a, b) in Queue(n, flashed, x, y - 1);
      } else {
        assert (a, b) in Queue(n, flashed, x, y + 1);
      }
    } else {
      if b == y {
        assert (a, b) in Queue(n, flashed, x + 1, y);
      } else if b == y - 1 {
        assert (a, b) in Queue(n, flashed, x + 1, y - 1);
      } else {
        assert (a, b) in Queue(n, flashed, x + 1, y + 1);
      }
    }
  }

  /** One of the eight checks: a valid neighbour `(a, b)` is queued and raised by one. */
  method Bump(g: seq<seq<int>>, flashed: set<Cell>, pushed: seq<Cell>, a: int, b: int)
    returns (g': seq<seq<int>>, pushed': seq<Cell>)
    requires Square(g)
    ensures Square(g') && |g'| == |g|
    ensures forall i, j :: 0 <= i < |g| && 0 <= j < |g| ==>
      g'[i][j] == g[i][j] + (if i == a && j == b && (a, b) !in flashed then 1 else 0)
    ensures pushed' == pushed + Queue(|g|, flashed, a, b)
  {
    if IsValid(g, a, b, flashed) {
      pushed' := pushed + [(a, b)];
      g' := g[a := g[a][b := g[a][b] + 1]];
    } else {
      g', pushed' := g, pushed;
    }
  }

  /** Two of the checks, on two different neighbours. */
  method BumpTwo(g: seq<seq<int>>, flashed: set<Cell>, pushed: seq<Cell>, a1: int, b1: int, a2: int, b2: int)
    returns (g': seq<seq<int>>, pushed': seq<Cell>)
    requires Square(g) && (a1 != a2 || b1 != b2)
    ensures Square(g') && |g'| == |g|
    ensures forall i, j :: 0 <= i < |g| && 0 <= j < |g| ==>
      g'[i][j] == g[i][j] + (if (i, j) !in flashed && ((i == a1 && j == b1) || (i == a2 && j == b2)) then 1 else 0)
    ensures pushed' == pushed + Queue(|g|, flashed, a1, b1) + Queue(|g|, flashed, a2, b2)
  {
    var g1;
    g1, pushed' := Bump(g, flashed, pushed, a1, b1);
    g', pushed' := Bump(g1, flashed, pushed', a2, b2);
  }

  /** `(i, j)` is directly above, below, left or right of `(x, y)`. */
  predicate Side(x: int, y: int, i: int, j: int)
  {
    (i == x && (j == y - 1 || j == y + 1)) || (j == y && (i == x - 1 || i == x + 1))
  }

  /** `(i, j)` is diagonally next to `(x, y)`. */
  predicate Corner(x: int, y: int, i: int, j: int)
  {
    (i == x - 1 || i == x + 1) && (j == y - 1 || j == y + 1)
  }

  /** Four of the checks: the neighbours in the row above and below and to the sides. */
  method BumpSides(g: seq<seq<int>>, flashed: set<Cell>, x: int, y: int) returns (g': seq<seq<int>>, pushed: seq<Cell>)
    requires Square(g)
    ensures Square(g') && |g'| == |g|
    ensures forall i, j :: 0 <= i < |g| && 0 <= j < |g| ==>
      g'[i][j] == g[i][j] + (if (i, j) !in flashed && Side(x, y, i, j) then 1 else 0)
    ensures pushed == Queue(|g|, flashed, x - 1, y) + Queue(|g|, flashed, x + 1, y)
      + Queue(|g|, flashed, x, y - 1) + Queue(|g|, flashed, x, y + 1)
  {
    var g1, p1;
    g1, p1 := BumpTwo(g, flashed, [], x - 1, y, x + 1, y);
    g', pushed := BumpTwo(g1, flashed, p1, x, y - 1, x, y + 1);
  }

  /** The other four checks: the diagonal neighbours. */
  method BumpCorners(g: seq<seq<int>>, flashed: set<Cell>, x: int, y: int, pushed: seq<Cell>)
    returns (g': seq<seq<int>>, pushed': seq<Cell>)
    requires Square(g)
    ensures Square(g') && |g'| == |g|
    ensures forall i, j :: 0 <= i < |g| && 0 <= j < |g| ==>
      g'[i][j] == g[i][j] + (if (i, j) !in flashed && Corner(x, y, i, j) then 1 else 0)
    ensures pushed' == pushed + Queue(|g|, flashed, x - 1, y - 1) + Queue(|g|, flashed, x - 1, y + 1)
      + Queue(|g|, flashed, x + 1, y - 1) + Queue(|g|, flashed, x + 1, y + 1)
  {
    var g1, p1;
    g1, p1 := BumpTwo(g, flashed, pushed, x - 1, y - 1, x - 1, y + 1);
    g', pushed' := BumpTwo(g1, flashed, p1, x + 1, y - 1, x + 1, y + 1);
  }

  /**
   * Lines 37-73 for a front cell above 9: it drops to 0 and is recorded as
   * flashed, then each neighbour that is on the grid and not flashed is
   * raised by one and queued.
   */
  method Flash(g: seq<seq<int>>, flashed: set<Cell>, x: int, y: int)
    returns (g': seq<seq<int>>, flashed': set<Cell>, pushed: seq<Cell>)
    requires Square(g) && InBounds(|g|, (x, y))
    ensures flashed' == flashed + {(x, y)}
    ensures Square(g') && |g'| == |g|
    ensures forall i, j :: 0 <= i < |g| && 0 <= j < |g| ==>
      g'[i][j] == (if i == x && j == y then 0
                   else if Near((x, y), (i, j)) && (i, j) !in flashed then g[i][j] + 1
                   else g[i][j])
    ensures pushed == Queued(|g|, flashed', x, y)
  {
    g' := g[x := g[x][y := 0]];
    flashed' := flashed + {(x, y)};
    var sides;
    g', sides := BumpSides(g', flashed', x, y);
    g', pushed := BumpCorners(g', flashed', x, y, sides);
  }

  /** Taking a front cell that is not pending off the check list keeps every pending cell covered. */
  lemma DropChecked(g0: seq<seq<int>>, flashed: set<Cell>, checkList: seq<Cell>, x: int, y: int)
    requires Square(g0) && Cascading(g0, flashed, checkList, x, y) && |checkList| > 0
    requires !Pending(g0, flashed, checkList[0])
    ensures Cascading(g0, flashed, checkList[1..], x, y)
  {
    var rest := checkList[1..];
    forall c | InBounds(|g0|, c) && Pending(g0, flashed, c) && !Later(c, x, y)
      ensures c in rest
    {
      var k :| 0 <= k < |checkList| && checkList[k] == c;
      assert k != 0;
      assert rest[k - 1] == c;
    }
  }

  /** After the flash of `c`, every newly pending octopus is one of the queued neighbours. */
  lemma PushedCover(g0: seq<seq<int>>, f: set<Cell>, c: Cell, checkList: seq<Cell>, pushed: seq<Cell>, x: int, y: int)
    requires Square(g0) && InBounds(|g0|, c) && c !in f && Cascading(g0, f, checkList, x, y)
    requires forall d :: InBounds(|g0|, d) && Near(c, d) && d !in f + {c} ==> d in pushed
    ensures forall d :: InBounds(|g0|, d) && Pending(g0, f + {c}, d) && !Later(d, x, y) ==> d in checkList + pushed
  {
    forall d | InBounds(|g0|, d) && Pending(g0, f + {c}, d) && !Later(d, x, y)
      ensures d in checkList + pushed
    {
      FlashedNearAdd(f, c, d);
      assert Near(d, c) <==> Near(c, d);
    }
  }

  /** The flash of a pending front octopus keeps the scan invariant and shrinks the unflashed set. */
  lemma FlashKeeps(g0: seq<seq<int>>, flashed: set<Cell>, checkList: seq<Cell>, x: int, y: int, c: Cell)
    requires Square(g0) && InBounds(|g0|, c) && Pending(g0, flashed, c) && Cascading(g0, flashed, checkList, x, y)
    ensures Cascading(g0, flashed + {c}, checkList + Queued(|g0|, flashed + {c}, c.0, c.1), x, y)
    ensures |Cells(|g0|) - (flashed + {c})| == |Cells(|g0|) - flashed| - 1
  {
    var pushed := Queued(|g0|, flashed + {c}, c.0, c.1);
    FlashForced(g0, flashed, c);
    QueuedValid(|g0|, flashed + {c}, c.0, c.1);
    QueuedComplete(|g0|, flashed + {c}, c.0, c.1);
    PushedCover(g0, flashed, c, checkList, pushed, x, y);
    CellsInBounds(|g0|, c);
    assert Cells(|g0|) - (flashed + {c}) == (Cells(|g0|) - flashed) - {c};
  }

  /**
   * One turn of the check-list loop of lines 32-75: the front octopus
   * flashes if it is above 9, and is taken off the list.
   */
  method CheckFront(g: seq<seq<int>>, flashed: set<Cell>, checkList: seq<Cell>, x: int, y: int, ghost g0: seq<seq<int>>)
    returns (g': seq<seq<int>>, flashed': set<Cell>, checkList': seq<Cell>)
    requires Square(g0) && IsSettled(g, g0, flashed) && Cascading(g0, flashed, checkList, x, y) && checkList != []
    ensures IsSettled(g', g0, flashed') && flashed <= flashed'
    ensures Cascading(g0, flashed', checkList', x, y)
    ensures 9 * |Cells(|g0|) - flashed'| + |checkList'| < 9 * |Cells(|g0|) - flashed| + |checkList|
  {
    var c := checkList[0];
    g', flashed', checkList' := g, flashed, checkList;
    if g[c.0][c.1] > 9 {
      var pushed;
      assert InBounds(|g0|, c) && Pending(g0, flashed, c);
      g', flashed', pushed := Flash(g, flashed, c.0, c.1);
      FlashSettles(g0, flashed, c, g, g');
      FlashKeeps(g0, flashed, checkList, x, y, c);
      checkList' := checkList + pushed;
    }
    DropChecked(g0, flashed', checkList', x, y);
    checkList' := checkList'[1..];
  }

  /**
   * The check-list loop of lines 32-75, started at an octopus above 9 met
   * by the scan: it ends with the list empty, every flash forced, and
   * nothing pending before the next scan position.
   */
  method Cascade(g: seq<seq<int>>, flashed: set<Cell>, x: int, y: int, ghost g0: seq<seq<int>>)
    returns (g': seq<seq<int>>, flashed': set<Cell>)
    requires Square(g0) && InBounds(|g0|, (x, y)) && IsSettled(g, g0, flashed)
    requires Cascading(g0, flashed, [], x, y)
    ensures IsSettled(g', g0, flashed') && flashed <= flashed'
    ensures Cascading(g0, flashed', [], x, y + 1)
  {
    var checkList := [(x, y)];
    g', flashed' := g, flashed;
    while checkList != []
      invariant IsSettled(g', g0, flashed') && flashed <= flashed'
      invariant Cascading(g0, flashed', checkList, x, y + 1)
      decreases 9 * |Cells(|g0|) - flashed'| + |checkList|
    {
      g', flashed', checkList := CheckFront(g', flashed', checkList, x, y + 1, g0);
    }
  }

  /** When the scan has passed the last row, the flashed set is exactly the step's flashes. */
  lemma ScanDone(g0: seq<seq<int>>, flashed: set<Cell>)
    requires Square(g0) && Cascading(g0, flashed, [], |g0|, 0)
    ensures flashed == Flashes(g0)
  {
    assert Closed(g0, flashed);
    FlashesLeast(g0);
  }

  /** Lines 19-26: raise every level by one. */
  method IncrementAll(octopuses: seq<seq<int>>) returns (r: seq<seq<int>>)
    requires Square(octopuses)
    ensures r == Incremented(octopuses)
    ensures forall i, j :: 0 <= i < |r| && 0 <= j < |r| ==> r[i][j] == octopuses[i][j] + 1
  {
    r := octopuses;
    for i := 0 to |octopuses|
      invariant |r| == |octopuses|
      invariant forall k :: 0 <= k < i ==> r[k] == Incremented(octopuses)[k]
      invariant forall k :: i <= k < |r| ==> r[k] == octopuses[k]
    {
      var row := r[i];
      for j := 0 to |row|
        invariant |row| == |octopuses|
        invariant forall l :: 0 <= l < j ==> row[l] == octopuses[i][l] + 1
        invariant forall l :: j <= l < |row| ==> row[l] == octopuses[i][l]
      {
        row := row[j := row[j] + 1];
      }
      r := r[i := row];
    }
  }

  /**
   * `added_one_to_metrix` (lines 18-81): one step. The resulting grid is the
   * model's `Step`, and the count is the number of distinct octopuses that
   * flashed.
   */
  method AddedOneToMetrix(octopuses: seq<seq<int>>) returns (result: seq<seq<int>>, flashCount: int)
    requires Square(octopuses)
    ensures result == Step(octopuses)
    ensures flashCount == |StepFlashes(octopuses)|
  {
    var rows := |octopuses|;
    var columns := |octopuses[0]|;
    var flashed: set<Cell> := {};
    var g := IncrementAll(octopuses);
    ghost var g0 := g;
    for x := 0 to rows
      invariant IsSettled(g, g0, flashed) && Cascading(g0, flashed, [], x, 0)
    {
      for y := 0 to columns
        invariant IsSettled(g, g0, flashed) && Cascading(g0, flashed, [], x, y)
      {
        if g[x][y] > 9 {
          g, flashed := Cascade(g, flashed, x, y, g0);
        } else {
          assert !Pending(g0, flashed, (x, y));
        }
      }
    }
    ScanDone(g0, flashed);
    SettledIs(g, g0, flashed);
    result, flashCount := g, |flashed|;
  }

  /**
   * `get_octopuses_snapshot` (lines 83-95): `step` steps from the initial
   * grid (none when `step` is not positive) and the flash count of each.
   */
  method GetOctopusesSnapshot(initialOctopuses: seq<seq<int>>, step: int) returns (octopuses: seq<seq<int>>, flashedList: seq<int>)
    requires Square(initialOctopuses)
    ensures octopuses == Steps(initialOctopuses, if step > 0 then step else 0)
    ensures |flashedList| == (if step > 0 then step else 0)
    ensures forall k :: 0 <= k < |flashedList| ==>
      flashedList[k] == |StepFlashes(Steps(initialOctopuses, k))|
  {
    octopuses := initialOctopuses;
    flashedList := [];
    for i := 0 to if step > 0 then step else 0
      invariant octopuses == Steps(initialOctopuses, i) && flashedList == FlashCounts(initialOctopuses, i)
    {
      var o, flashed := AddedOneToMetrix(octopuses);
      assert o == Steps(initialOctopuses, i + 1);
      octopuses := o;
      flashedList := flashedList + [flashed];
    }
  }
}
