/**
 * Model of day7/src/main.rs: aligning crab submarines on one horizontal
 * position at the least total fuel cost.
 */
module Crabs {
  function Abs(x: int): nat
  {
    if x < 0 then -x else x
  }

  /** `(1..n + 1).sum()`: the cost of moving `n` steps when each step costs one more than the last. */
  function Triangle(n: nat): nat
  {
    if n == 0 then 0 else Triangle(n - 1) + n
  }

  lemma {:induction false} TriangleClosedForm(n: nat)
    ensures 2 * Triangle(n) == n * (n + 1)
  {
    if n > 0 {
      TriangleClosedForm(n - 1);
    }
  }

  lemma {:induction false} TriangleMonotone(m: nat, n: nat)
    requires m <= n
    ensures m <= Triangle(m) <= Triangle(n)
  {
    if m < n {
      TriangleMonotone(m, n - 1);
    } else if m > 0 {
      TriangleMonotone(m - 1, m - 1);
    }
  }

  /** `fuel_cost_by_target_position`: the sum of distances to `target`. */
  function FuelCost(positions: seq<int>, target: int): nat
  {
    if positions == [] then 0
    else FuelCost(positions[..|positions| - 1], target) + Abs(positions[|positions| - 1] - target)
  }

  /** `expensive_fuel_cost_by_target_position`: the sum of triangle numbers of the distances. */
  function ExpensiveFuelCost(positions: seq<int>, target: int): nat
  {
    if positions == [] then 0
    else ExpensiveFuelCost(positions[..|positions| - 1], target) + Triangle(Abs(positions[|positions| - 1] - target))
  }

  /** The cost the `expensive` flag selects. */
  function Cost(positions: seq<int>, target: int, expensive: bool): nat
  {
    if expensive then ExpensiveFuelCost(positions, target) else FuelCost(positions, target)
  }

  /** Every crab pays at least as much in expensive mode, and zero cost means every crab is already there. */
  lemma {:induction false} CostsCompare(positions: seq<int>, target: int)
    ensures FuelCost(positions, target) <= ExpensiveFuelCost(positions, target)
    ensures FuelCost(positions, target) == 0 <==> forall i :: 0 <= i < |positions| ==> positions[i] == target
  {
    if positions != [] {
      var p := positions[..|positions| - 1];
      CostsCompare(p, target);
      var d := Abs(positions[|positions| - 1] - target);
      TriangleMonotone(d, d);
      assert forall i :: 0 <= i < |p| ==> p[i] == positions[i];
    }
  }

  /**
   * `get_least_fuel_cost` as written: the cost at every target 0..|positions|-1
   * is stored in a vector, whose minimum is returned. An empty list panics at
   * `min().unwrap()`.
   */
  method LeastFuelCost(positions: seq<int>, expensive: bool) returns (least: int)
    requires |positions| > 0
    ensures exists t :: 0 <= t < |positions| && least == Cost(positions, t, expensive)
    ensures forall t :: 0 <= t < |positions| ==> least <= Cost(positions, t, expensive)
  {
    var length := |positions|;
    var fuelCosts := new int[length];
    for p := 0 to length
      invariant forall t :: 0 <= t < p ==> fuelCosts[t] == Cost(positions, t, expensive)
    {
      fuelCosts[p] := if expensive then ExpensiveFuelCost(positions, p) else FuelCost(positions, p);
    }
    least := fuelCosts[0];
    var at := 0;
    for i := 1 to length
      invariant 0 <= at < length && least == fuelCosts[at]
      invariant forall t :: 0 <= t < i ==> least <= fuelCosts[t]
    {
      if fuelCosts[i] < least {
        least := fuelCosts[i];
        at := i;
      }
    }
  }

  /** A single crab at position 100: the index range offers only target 0, at cost 100, although target 100 costs nothing. */
  lemma IndexRangeMissesPositions()
    ensures FuelCost([100], 0) == 100
    ensures FuelCost([100], 100) == 0
    ensures forall t :: 0 <= t < |[100]| ==> Cost([100], t, false) == 100
  {
    assert [100][..0] == [];
  }

  function Min(positions: seq<int>): (m: int)
    requires |positions| > 0
    ensures forall i :: 0 <= i < |positions| ==> m <= positions[i]
    ensures exists i :: 0 <= i < |positions| && m == positions[i]
  {
    if |positions| == 1 then positions[0]
    else
      var m := Min(positions[..|positions| - 1]);
      assert forall i :: 0 <= i < |positions| - 1 ==> positions[..|positions| - 1][i] == positions[i];
      if positions[|positions| - 1] < m then positions[|positions| - 1] else m
  }

  function Max(positions: seq<int>): (m: int)
    requires |positions| > 0
    ensures forall i :: 0 <= i < |positions| ==> positions[i] <= m
    ensures exists i :: 0 <= i < |positions| && m == positions[i]
  {
    if |positions| == 1 then positions[0]
    else
      var m := Max(positions[..|positions| - 1]);
      assert forall i :: 0 <= i < |positions| - 1 ==> positions[..|positions| - 1][i] == positions[i];
      if positions[|positions| - 1] > m then positions[|positions| - 1] else m
  }

  /** Moving the target towards the crabs from below never costs more. */
  lemma {:induction false} CostBelowRange(positions: seq<int>, lo: int, t: int, expensive: bool)
    requires t <= lo
    requires forall i :: 0 <= i < |positions| ==> lo <= positions[i]
    ensures Cost(positions, lo, expensive) <= Cost(positions, t, expensive)
  {
    if positions != [] {
      var x := positions[|positions| - 1];
      CostBelowRange(positions[..|positions| - 1], lo, t, expensive);
      TriangleMonotone(x - lo, x - t);
    }
  }

  /** Moving the target towards the crabs from above never costs more. */
  lemma {:induction false} CostAboveRange(positions: seq<int>, hi: int, t: int, expensive: bool)
    requires hi <= t
    requires forall i :: 0 <= i < |positions| ==> positions[i] <= hi
    ensures Cost(positions, hi, expensive) <= Cost(positions, t, expensive)
  {
    if positions != [] {
      var x := positions[|positions| - 1];
      CostAboveRange(positions[..|positions| - 1], hi, t, expensive);
      TriangleMonotone(hi - x, t - x);
    }
  }

  /**
   * The evidently intended search: every target between the leftmost and the
   * rightmost crab is tried, which yields the least cost over every integer
   * target.
   */
  method LeastFuelCostOverPositions(positions: seq<int>, expensive: bool) returns (least: int)
    requires |positions| > 0
    ensures exists t :: Min(positions) <= t <= Max(positions) && least == Cost(positions, t, expensive)
    ensures forall t :: least <= Cost(positions, t, expensive)
  {
    var lo, hi := Min(positions), Max(positions);
    least := Cost(positions, lo, expensive);
    ghost var at := lo;
    var target := lo + 1;
    while target <= hi
      invariant lo < target <= hi + 1
      invariant lo <= at < target && least == Cost(positions, at, expensive)
      invariant forall t :: lo <= t < target ==> least <= Cost(positions, t, expensive)
    {
      var c := Cost(positions, target, expensive);
      if c < least {
        least := c;
        at := target;
      }
      target := target + 1;
    }
    forall t
      ensures least <= Cost(positions, t, expensive)
    {
      if t < lo {
        CostBelowRange(positions, lo, t, expensive);
      } else if t > hi {
        CostAboveRange(positions, hi, t, expensive);
      }
    }
  }

  /** The ten crabs 16,1,2,0,4,2,7,1,2,14. */
  const Sample: seq<int> := [16, 1, 2, 0, 4, 2, 7, 1, 2, 14]

  lemma {:induction false} SamplePrefixes()
    ensures forall k :: 0 <= k < |Sample| ==> Sample[..k + 1][..k] == Sample[..k]
  {
  }

  /** Costs on the sample at the targets the repository's tests name. */
  lemma SampleCosts()
    ensures FuelCost(Sample, 2) == 37 && FuelCost(Sample, 1) == 41
    ensures FuelCost(Sample, 3) == 39 && FuelCost(Sample, 10) == 71
    ensures ExpensiveFuelCost(Sample, 2) == 206 && ExpensiveFuelCost(Sample, 5) == 168
  {
    SamplePrefixes();
    assert FuelCost(Sample[..1], 2) == 14;
    assert FuelCost(Sample[..2], 2) == 15;
    assert FuelCost(Sample[..3], 2) == 15;
    assert FuelCost(Sample[..4], 2) == 17;
    assert FuelCost(Sample[..5], 2) == 19;
    assert FuelCost(Sample[..6], 2) == 19;
    assert FuelCost(Sample[..7], 2) == 24;
    assert FuelCost(Sample[..8], 2) == 25;
    assert FuelCost(Sample[..9], 2) == 25;
    assert FuelCost(Sample[..10], 2) == 37;
    assert FuelCost(Sample[..1], 1) == 15;
    assert FuelCost(Sample[..2], 1) == 15;
    assert FuelCost(Sample[..3], 1) == 16;
    assert FuelCost(Sample[..4], 1) == 17;
    assert FuelCost(Sample[..5], 1) == 20;
    assert FuelCost(Sample[..6], 1) == 21;
    assert FuelCost(Sample[..7], 1) == 27;
    assert FuelCost(Sample[..8], 1) == 27;
    assert FuelCost(Sample[..9], 1) == 28;
    assert FuelCost(Sample[..10], 1) == 41;
    assert FuelCost(Sample[..1], 3) == 13;
    assert FuelCost(Sample[..2], 3) == 15;
    assert FuelCost(Sample[..3], 3) == 16;
    assert FuelCost(Sample[..4], 3) == 19;
    assert FuelCost(Sample[..5], 3) == 20;
    assert FuelCost(Sample[..6], 3) == 21;
    assert FuelCost(Sample[..7], 3) == 25;
    assert FuelCost(Sample[..8], 3) == 27;
    assert FuelCost(Sample[..9], 3) == 28;
    assert FuelCost(Sample[..10], 3) == 39;
    assert FuelCost(Sample[..1], 10) == 6;
    assert FuelCost(Sample[..2], 10) == 15;
    assert FuelCost(Sample[..3], 10) == 23;
    assert FuelCost(Sample[..4], 10) == 33;
    assert FuelCost(Sample[..5], 10) == 39;
    assert FuelCost(Sample[..6], 10) == 47;
    assert FuelCost(Sample[..7], 10) == 50;
    assert FuelCost(Sample[..8], 10) == 59;
    assert FuelCost(Sample[..9], 10) == 67;
    assert FuelCost(Sample[..10], 10) == 71;
    assert ExpensiveFuelCost(Sample[..1], 2) == 105;
    assert ExpensiveFuelCost(Sample[..2], 2) == 106;
    assert ExpensiveFuelCost(Sample[..3], 2) == 106;
    assert ExpensiveFuelCost(Sample[..4], 2) == 109;
    assert ExpensiveFuelCost(Sample[..5], 2) == 112;
    assert ExpensiveFuelCost(Sample[..6], 2) == 112;
    assert ExpensiveFuelCost(Sample[..7], 2) == 127;
    assert ExpensiveFuelCost(Sample[..8], 2) == 128;
    assert ExpensiveFuelCost(Sample[..9], 2) == 128;
    assert ExpensiveFuelCost(Sample[..10], 2) == 206;
    assert ExpensiveFuelCost(Sample[..1], 5) == 66;
    assert ExpensiveFuelCost(Sample[..2], 5) == 76;
    assert ExpensiveFuelCost(Sample[..3], 5) == 82;
    assert ExpensiveFuelCost(Sample[..4], 5) == 97;
    assert ExpensiveFuelCost(Sample[..5], 5) == 98;
    assert ExpensiveFuelCost(Sample[..6], 5) == 104;
    assert ExpensiveFuelCost(Sample[..7], 5) == 107;
    assert ExpensiveFuelCost(Sample[..8], 5) == 117;
    assert ExpensiveFuelCost(Sample[..9], 5) == 123;
    assert ExpensiveFuelCost(Sample[..10], 5) == 168;
    assert Sample[..10] == Sample;
  }

  /** On the sample, the index range 0..9 holds the least cost in both modes: 37 at 2 and 168 at 5. */
  lemma SampleLeastCosts()
    ensures forall t :: 0 <= t < |Sample| ==> Cost(Sample, t, false) >= 37 && Cost(Sample, t, true) >= 168
  {
    SamplePlainLeast();
    SampleExpensiveLeast();
  }

  /** No index-range target costs less than 37 in plain mode. */
  lemma SamplePlainLeast()
    ensures forall t :: 0 <= t < |Sample| ==> FuelCost(Sample, t) >= 37
  {
    SamplePrefixes();
    assert Sample[..10] == Sample;
    assert FuelCost(Sample[..1], 0) == 16;
    assert FuelCost(Sample[..2], 0) == 17;
    assert FuelCost(Sample[..3], 0) == 19;
    assert FuelCost(Sample[..4], 0) == 19;
    assert FuelCost(Sample[..5], 0) == 23;
    assert FuelCost(Sample[..6], 0) == 25;
    assert FuelCost(Sample[..7], 0) == 32;
    assert FuelCost(Sample[..8], 0) == 33;
    assert FuelCost(Sample[..9], 0) == 35;
    assert FuelCost(Sample[..10], 0) == 49;
    assert FuelCost(Sample[..1], 1) == 15;
    assert FuelCost(Sample[..2], 1) == 15;
    assert FuelCost(Sample[..3], 1) == 16;
    assert FuelCost(Sample[..4], 1) == 17;
    assert FuelCost(Sample[..5], 1) == 20;
    assert FuelCost(Sample[..6], 1) == 21;
    assert FuelCost(Sample[..7], 1) == 27;
    assert FuelCost(Sample[..8], 1) == 27;
    assert FuelCost(Sample[..9], 1) == 28;
    assert FuelCost(Sample[..10], 1) == 41;
    assert FuelCost(Sample[..1], 2) == 14;
    assert FuelCost(Sample[..2], 2) == 15;
    assert FuelCost(Sample[..3], 2) == 15;
    assert FuelCost(Sample[..4], 2) == 17;
    assert FuelCost(Sample[..5], 2) == 19;
    assert FuelCost(Sample[..6], 2) == 19;
    assert FuelCost(Sample[..7], 2) == 24;
    assert FuelCost(Sample[..8], 2) == 25;
    assert FuelCost(Sample[..9], 2) == 25;
    assert FuelCost(Sample[..10], 2) == 37;
    assert FuelCost(Sample[..1], 3) == 13;
    assert FuelCost(Sample[..2], 3) == 15;
    assert FuelCost(Sample[..3], 3) == 16;
    assert FuelCost(Sample[..4], 3) == 19;
    assert FuelCost(Sample[..5], 3) == 20;
    assert FuelCost(Sample[..6], 3) == 21;
    assert FuelCost(Sample[..7], 3) == 25;
    assert FuelCost(Sample[..8], 3) == 27;
    assert FuelCost(Sample[..9], 3) == 28;
    assert FuelCost(Sample[..10], 3) == 39;
    assert FuelCost(Sample[..1], 4) == 12;
    assert FuelCost(Sample[..2], 4) == 15;
    assert FuelCost(Sample[..3], 4) == 17;
    assert FuelCost(Sample[..4], 4) == 21;
    assert FuelCost(Sample[..5], 4) == 21;
    assert FuelCost(Sample[..6], 4) == 23;
    assert FuelCost(Sample[..7], 4) == 26;
    assert FuelCost(Sample[..8], 4) == 29;
    assert FuelCost(Sample[..9], 4) == 31;
    assert FuelCost(Sample[..10], 4) == 41;
    assert FuelCost(Sample[..1], 5) == 11;
    assert FuelCost(Sample[..2], 5) == 15;
    assert FuelCost(Sample[..3], 5) == 18;
    assert FuelCost(Sample[..4], 5) == 23;
    assert FuelCost(Sample[..5], 5) == 24;
    assert FuelCost(Sample[..6], 5) == 27;
    assert FuelCost(Sample[..7], 5) == 29;
    assert FuelCost(Sample[..8], 5) == 33;
    assert FuelCost(Sample[..9], 5) == 36;
    assert FuelCost(Sample[..10], 5) == 45;
    assert FuelCost(Sample[..1], 6) == 10;
    assert FuelCost(Sample[..2], 6) == 15;
    assert FuelCost(Sample[..3], 6) == 19;
    assert FuelCost(Sample[..4], 6) == 25;
    assert FuelCost(Sample[..5], 6) == 27;
    assert FuelCost(Sample[..6], 6) == 31;
    assert FuelCost(Sample[..7], 6) == 32;
    assert FuelCost(Sample[..8], 6) == 37;
    assert FuelCost(Sample[..9], 6) == 41;
    assert FuelCost(Sample[..10], 6) == 49;
    assert FuelCost(Sample[..1], 7) == 9;
    assert FuelCost(Sample[..2], 7) == 15;
    assert FuelCost(Sample[..3], 7) == 20;
    assert FuelCost(Sample[..4], 7) == 27;
    assert FuelCost(Sample[..5], 7) == 30;
    assert FuelCost(Sample[..6], 7) == 35;
    assert FuelCost(Sample[..7], 7) == 35;
    assert FuelCost(Sample[..8], 7) == 41;
    assert FuelCost(Sample[..9], 7) == 46;
    assert FuelCost(Sample[..10], 7) == 53;
    assert FuelCost(Sample[..1], 8) == 8;
    assert FuelCost(Sample[..2], 8) == 15;
    assert FuelCost(Sample[..3], 8) == 21;
    assert FuelCost(Sample[..4], 8) == 29;
    assert FuelCost(Sample[..5], 8) == 33;
    assert FuelCost(Sample[..6], 8) == 39;
    assert FuelCost(Sample[..7], 8) == 40;
    assert FuelCost(Sample[..8], 8) == 47;
    assert FuelCost(Sample[..9], 8) == 53;
    assert FuelCost(Sample[..10], 8) == 59;
    assert FuelCost(Sample[..1], 9) == 7;
    assert FuelCost(Sample[..2], 9) == 15;
    assert FuelCost(Sample[..3], 9) == 22;
    assert FuelCost(Sample[..4], 9) == 31;
    assert FuelCost(Sample[..5], 9) == 36;
    assert FuelCost(Sample[..6], 9) == 43;
    assert FuelCost(Sample[..7], 9) == 45;
    assert FuelCost(Sample[..8], 9) == 53;
    assert FuelCost(Sample[..9], 9) == 60;
    assert FuelCost(Sample[..10], 9) == 65;
  }

  /** No index-range target costs less than 168 in expensive mode. */
  lemma SampleExpensiveLeast()
    ensures forall t :: 0 <= t < |Sample| ==> ExpensiveFuelCost(Sample, t) >= 168
  {
    SamplePrefixes();
    assert Sample[..10] == Sample;
    assert Triangle(1) == 1;
    assert Triangle(2) == 3;
    assert Triangle(3) == 6;
    assert Triangle(4) == 10;
    assert Triangle(5) == 15;
    assert Triangle(6) == 21;
    assert Triangle(7) == 28;
    assert Triangle(8) == 36;
    assert Triangle(9) == 45;
    assert Triangle(10) == 55;
    assert Triangle(11) == 66;
    assert Triangle(12) == 78;
    assert Triangle(13) == 91;
    assert Triangle(14) == 105;
    assert Triangle(15) == 120;
    assert Triangle(16) == 136;
    assert ExpensiveFuelCost(Sample[..1], 0) == 136;
    assert ExpensiveFuelCost(Sample[..2], 0) == 137;
    assert ExpensiveFuelCost(Sample[..3], 0) == 140;
    assert ExpensiveFuelCost(Sample[..4], 0) == 140;
    assert ExpensiveFuelCost(Sample[..5], 0) == 150;
    assert ExpensiveFuelCost(Sample[..6], 0) == 153;
    assert ExpensiveFuelCost(Sample[..7], 0) == 181;
    assert ExpensiveFuelCost(Sample[..8], 0) == 182;
    assert ExpensiveFuelCost(Sample[..9], 0) == 185;
    assert ExpensiveFuelCost(Sample[..10], 0) == 290;
    assert ExpensiveFuelCost(Sample[..1], 1) == 120;
    assert ExpensiveFuelCost(Sample[..2], 1) == 120;
    assert ExpensiveFuelCost(Sample[..3], 1) == 121;
    assert ExpensiveFuelCost(Sample[..4], 1) == 122;
    assert ExpensiveFuelCost(Sample[..5], 1) == 128;
    assert ExpensiveFuelCost(Sample[..6], 1) == 129;
    assert ExpensiveFuelCost(Sample[..7], 1) == 150;
    assert ExpensiveFuelCost(Sample[..8], 1) == 150;
    assert ExpensiveFuelCost(Sample[..9], 1) == 151;
    assert ExpensiveFuelCost(Sample[..10], 1) == 242;
    assert ExpensiveFuelCost(Sample[..1], 2) == 105;
    assert ExpensiveFuelCost(Sample[..2], 2) == 106;
    assert ExpensiveFuelCost(Sample[..3], 2) == 106;
    assert ExpensiveFuelCost(Sample[..4], 2) == 109;
    assert ExpensiveFuelCost(Sample[..5], 2) == 112;
    assert ExpensiveFuelCost(Sample[..6], 2) == 112;
    assert ExpensiveFuelCost(Sample[..7], 2) == 127;
    assert ExpensiveFuelCost(Sample[..8], 2) == 128;
    assert ExpensiveFuelCost(Sample[..9], 2) == 128;
    assert ExpensiveFuelCost(Sample[..10], 2) == 206;
    assert ExpensiveFuelCost(Sample[..1], 3) == 91;
    assert ExpensiveFuelCost(Sample[..2], 3) == 94;
    assert ExpensiveFuelCost(Sample[..3], 3) == 95;
    assert ExpensiveFuelCost(Sample[..4], 3) == 101;
    assert ExpensiveFuelCost(Sample[..5], 3) == 102;
    assert ExpensiveFuelCost(Sample[..6], 3) == 103;
    assert ExpensiveFuelCost(Sample[..7], 3) == 113;
    assert ExpensiveFuelCost(Sample[..8], 3) == 116;
    assert ExpensiveFuelCost(Sample[..9], 3) == 117;
    assert ExpensiveFuelCost(Sample[..10], 3) == 183;
    assert ExpensiveFuelCost(Sample[..1], 4) == 78;
    assert ExpensiveFuelCost(Sample[..2], 4) == 84;
    assert ExpensiveFuelCost(Sample[..3], 4) == 87;
    assert ExpensiveFuelCost(Sample[..4], 4) == 97;
    assert ExpensiveFuelCost(Sample[..5], 4) == 97;
    assert ExpensiveFuelCost(Sample[..6], 4) == 100;
    assert ExpensiveFuelCost(Sample[..7], 4) == 106;
    assert ExpensiveFuelCost(Sample[..8], 4) == 112;
    assert ExpensiveFuelCost(Sample[..9], 4) == 115;
    assert ExpensiveFuelCost(Sample[..10], 4) == 170;
    assert ExpensiveFuelCost(Sample[..1], 5) == 66;
    assert ExpensiveFuelCost(Sample[..2], 5) == 76;
    assert ExpensiveFuelCost(Sample[..3], 5) == 82;
    assert ExpensiveFuelCost(Sample[..4], 5) == 97;
    assert ExpensiveFuelCost(Sample[..5], 5) == 98;
    assert ExpensiveFuelCost(Sample[..6], 5) == 104;
    assert ExpensiveFuelCost(Sample[..7], 5) == 107;
    assert ExpensiveFuelCost(Sample[..8], 5) == 117;
    assert ExpensiveFuelCost(Sample[..9], 5) == 123;
    assert ExpensiveFuelCost(Sample[..10], 5) == 168;
    assert ExpensiveFuelCost(Sample[..1], 6) == 55;
    assert ExpensiveFuelCost(Sample[..2], 6) == 70;
    assert ExpensiveFuelCost(Sample[..3], 6) == 80;
    assert ExpensiveFuelCost(Sample[..4], 6) == 101;
    assert ExpensiveFuelCost(Sample[..5], 6) == 104;
    assert ExpensiveFuelCost(Sample[..6], 6) == 114;
    assert ExpensiveFuelCost(Sample[..7], 6) == 115;
    assert ExpensiveFuelCost(Sample[..8], 6) == 130;
    assert ExpensiveFuelCost(Sample[..9], 6) == 140;
    assert ExpensiveFuelCost(Sample[..10], 6) == 176;
    assert ExpensiveFuelCost(Sample[..1], 7) == 45;
    assert ExpensiveFuelCost(Sample[..2], 7) == 66;
    assert ExpensiveFuelCost(Sample[..3], 7) == 81;
    assert ExpensiveFuelCost(Sample[..4], 7) == 109;
    assert ExpensiveFuelCost(Sample[..5], 7) == 115;
    assert ExpensiveFuelCost(Sample[..6], 7) == 130;
    assert ExpensiveFuelCost(Sample[..7], 7) == 130;
    assert ExpensiveFuelCost(Sample[..8], 7) == 151;
    assert ExpensiveFuelCost(Sample[..9], 7) == 166;
    assert ExpensiveFuelCost(Sample[..10], 7) == 194;
    assert ExpensiveFuelCost(Sample[..1], 8) == 36;
    assert ExpensiveFuelCost(Sample[..2], 8) == 64;
    assert ExpensiveFuelCost(Sample[..3], 8) == 85;
    assert ExpensiveFuelCost(Sample[..4], 8) == 121;
    assert ExpensiveFuelCost(Sample[..5], 8) == 131;
    assert ExpensiveFuelCost(Sample[..6], 8) == 152;
    assert ExpensiveFuelCost(Sample[..7], 8) == 153;
    assert ExpensiveFuelCost(Sample[..8], 8) == 181;
    assert ExpensiveFuelCost(Sample[..9], 8) == 202;
    assert ExpensiveFuelCost(Sample[..10], 8) == 223;
    assert ExpensiveFuelCost(Sample[..1], 9) == 28;
    assert ExpensiveFuelCost(Sample[..2], 9) == 64;
    assert ExpensiveFuelCost(Sample[..3], 9) == 92;
    assert ExpensiveFuelCost(Sample[..4], 9) == 137;
    assert ExpensiveFuelCost(Sample[..5], 9) == 152;
    assert ExpensiveFuelCost(Sample[..6], 9) == 180;
    assert ExpensiveFuelCost(Sample[..7], 9) == 183;
    assert ExpensiveFuelCost(Sample[..8], 9) == 219;
    assert ExpensiveFuelCost(Sample[..9], 9) == 247;
    assert ExpensiveFuelCost(Sample[..10], 9) == 262;
  }
}
