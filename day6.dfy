/**
 * Model of day6/src/main.rs: simulating a lanternfish population by its
 * spawn timers, one timer per fish.
 */
module Lanternfish {
  /** One day for a single timer: 0 restarts at 6 (and gives birth), others count down. */
  function Tick(t: int): int
  {
    if t == 0 then 6 else t - 1
  }

  /** Number of fish whose timer equals `k`. */
  function Count(fishes: seq<int>, k: int): nat
  {
    if fishes == [] then 0
    else Count(fishes[..|fishes| - 1], k) + (if fishes[|fishes| - 1] == k then 1 else 0)
  }

  /** Every timer after one tick, in order. */
  function Ticked(fishes: seq<int>): (r: seq<int>)
    ensures |r| == |fishes|
    ensures forall i :: 0 <= i < |fishes| ==> r[i] == Tick(fishes[i])
  {
    if fishes == [] then [] else Ticked(fishes[..|fishes| - 1]) + [Tick(fishes[|fishes| - 1])]
  }

  /**
   * The population one day later: every timer ticks and, after the scan,
   * one newborn with timer 8 is appended per timer that was 0.
   */
  function NextDay(fishes: seq<int>): (r: seq<int>)
    ensures |r| == |fishes| + Count(fishes, 0)
  {
    Ticked(fishes) + seq(Count(fishes, 0), _ => 8)
  }

  function Simulate(fishes: seq<int>, days: nat): seq<int>
  {
    if days == 0 then fishes else NextDay(Simulate(fishes, days - 1))
  }

  predicate InRange(fishes: seq<int>)
  {
    forall i :: 0 <= i < |fishes| ==> 0 <= fishes[i] <= 8
  }

  /** The population never shrinks: it grows by the number of zero timers each day. */
  lemma {:induction false} SimulateGrows(fishes: seq<int>, days: nat)
    ensures |Simulate(fishes, days)| >= |fishes|
    ensures days > 0 ==> |Simulate(fishes, days)| == |Simulate(fishes, days - 1)| + Count(Simulate(fishes, days - 1), 0)
  {
    if days > 0 {
      SimulateGrows(fishes, days - 1);
    }
  }

  /** Timers that start in 0..8 stay in 0..8. */
  lemma {:induction false} SimulateInRange(fishes: seq<int>, days: nat)
    requires InRange(fishes)
    ensures InRange(Simulate(fishes, days))
  {
    if days > 0 {
      SimulateInRange(fishes, days - 1);
    }
  }

  /**
   * One pass of the day loop of `get_fish_count_after_spawning`: timers are
   * updated in place while the zeros are counted, then one newborn per zero
   * is appended.
   */
  method SpawnDay(fishes: seq<int>) returns (next: seq<int>)
    ensures next == NextDay(fishes)
    ensures |next| == |fishes| + Count(fishes, 0)
  {
    next := fishes;
    var newProducingCount := 0;
    for i := 0 to |fishes|
      invariant |next| == |fishes|
      invariant newProducingCount == Count(fishes[..i], 0)
      invariant forall j :: 0 <= j < i ==> next[j] == Tick(fishes[j])
      invariant forall j :: i <= j < |fishes| ==> next[j] == fishes[j]
    {
      assert fishes[..i + 1][..i] == fishes[..i];
      if next[i] == 0 {
        next := next[i := 6];
        newProducingCount := newProducingCount + 1;
      } else {
        next := next[i := next[i] - 1];
      }
    }
    assert fishes[..|fishes|] == fishes;
    assert next == Ticked(fishes);
    next := next + seq(newProducingCount, _ => 8);
  }

  /**
   * `get_fish_count_after_spawning`: the population size after `spawnDays`
   * days. A negative number of days is an empty range.
   */
  method FishCount(initFishes: seq<int>, spawnDays: int) returns (count: nat)
    ensures spawnDays <= 0 ==> count == |initFishes|
    ensures spawnDays > 0 ==> count == |Simulate(initFishes, spawnDays)|
    ensures count >= |initFishes|
  {
    var fishes := initFishes;
    var day: nat := 0;
    while day < spawnDays
      invariant spawnDays > 0 ==> day <= spawnDays
      invariant spawnDays <= 0 ==> day == 0
      invariant fishes == Simulate(initFishes, day)
    {
      fishes := SpawnDay(fishes);
      day := day + 1;
    }
    count := |fishes|;
    SimulateGrows(initFishes, day);
  }

  /** Fish counted by timer value: entry `k` is the number of fish with timer `k`, for k in 0..8. */
  function Histogram(fishes: seq<int>): (h: seq<nat>)
    ensures |h| == 9
  {
    seq(9, k => Count(fishes, k))
  }

  /** One day on the histogram: every group moves down a timer, zeros rejoin at 6 and spawn at 8. */
  function HistogramDay(h: seq<nat>): (r: seq<nat>)
    requires |h| == 9
    ensures |r| == 9
  {
    [h[1], h[2], h[3], h[4], h[5], h[6], h[7] + h[0], h[8], h[0]]
  }

  function HistogramRun(h: seq<nat>, days: nat): (r: seq<nat>)
    requires |h| == 9
    ensures |r| == 9
  {
    if days == 0 then h else HistogramDay(HistogramRun(h, days - 1))
  }

  function Total(h: seq<nat>): nat
    requires |h| == 9
  {
    h[0] + h[1] + h[2] + h[3] + h[4] + h[5] + h[6] + h[7] + h[8]
  }

  lemma {:induction false} CountAppend(a: seq<int>, b: seq<int>, k: int)
    ensures Count(a + b, k) == Count(a, k) + Count(b, k)
  {
    if b != [] {
      assert (a + b)[..|a + b| - 1] == a + b[..|b| - 1];
      CountAppend(a, b[..|b| - 1], k);
    } else {
      assert a + b == a;
    }
  }

  lemma {:induction false} CountTicked(fishes: seq<int>, k: nat)
    requires InRange(fishes)
    ensures Count(Ticked(fishes), k)
            == if k == 6 then Count(fishes, 7) + Count(fishes, 0) else Count(fishes, k + 1)
  {
    var t := Ticked(fishes);
    if fishes != [] {
      var p := fishes[..|fishes| - 1];
      var x := fishes[|fishes| - 1];
      assert t[..|t| - 1] == Ticked(p);
      CountTicked(p, k);
      assert Count(t, k) == Count(t[..|t| - 1], k) + (if Tick(x) == k then 1 else 0);
      assert Count(fishes, 0) == Count(p, 0) + (if x == 0 then 1 else 0);
      assert Count(fishes, 7) == Count(p, 7) + (if x == 7 then 1 else 0);
      assert Count(fishes, k + 1) == Count(p, k + 1) + (if x == k + 1 then 1 else 0);
      assert 0 <= x <= 8;
      assert (Tick(x) == k) == (if k == 6 then x == 7 || x == 0 else x == k + 1);
    }
  }

  lemma {:induction false} CountConstant(n: nat, v: int, k: int)
    ensures Count(seq(n, _ => v), k) == if k == v then n else 0
  {
    if n > 0 {
      assert seq(n, _ => v)[..n - 1] == seq(n - 1, _ => v);
      CountConstant(n - 1, v, k);
    }
  }

  /** On timers in 0..8, the per-fish day and the histogram day agree. */
  lemma HistogramOfNextDay(fishes: seq<int>)
    requires InRange(fishes)
    ensures Histogram(NextDay(fishes)) == HistogramDay(Histogram(fishes))
  {
    var t := Ticked(fishes);
    forall k | 0 <= k < 9
      ensures Histogram(NextDay(fishes))[k] == HistogramDay(Histogram(fishes))[k]
    {
      var h := Histogram(fishes);
      CountAppend(t, seq(Count(fishes, 0), _ => 8), k);
      CountTicked(fishes, k);
      CountConstant(Count(fishes, 0), 8, k);
      CountOutOfRange(fishes, 9);
      assert Histogram(NextDay(fishes))[k] == Count(t, k) + (if k == 8 then h[0] else 0);
      if k == 6 {
        assert HistogramDay(h)[k] == h[7] + h[0];
      } else if k == 8 {
        assert HistogramDay(h)[k] == h[0];
      } else {
        assert HistogramDay(h)[k] == h[k + 1];
      }
    }
  }

  lemma {:induction false} CountOutOfRange(fishes: seq<int>, k: int)
    requires InRange(fishes) && (k < 0 || k > 8)
    ensures Count(fishes, k) == 0
  {
    if fishes != [] {
      CountOutOfRange(fishes[..|fishes| - 1], k);
    }
  }

  /** On timers in 0..8 the histogram accounts for every fish. */
  lemma {:induction false} TotalOfHistogram(fishes: seq<int>)
    requires InRange(fishes)
    ensures Total(Histogram(fishes)) == |fishes|
  {
    if fishes != [] {
      var p := fishes[..|fishes| - 1];
      TotalOfHistogram(p);
      var x := fishes[|fishes| - 1];
      var h, hp := Histogram(fishes), Histogram(p);
      assert forall k :: 0 <= k < 9 ==> h[k] == hp[k] + (if x == k then 1 else 0);
    }
  }

  /** The population after `days` days, computed on the histogram. */
  lemma {:induction false} SimulateByHistogram(fishes: seq<int>, days: nat)
    requires InRange(fishes)
    ensures Histogram(Simulate(fishes, days)) == HistogramRun(Histogram(fishes), days)
    ensures |Simulate(fishes, days)| == Total(HistogramRun(Histogram(fishes), days))
  {
    if days > 0 {
      SimulateByHistogram(fishes, days - 1);
      SimulateInRange(fishes, days - 1);
      HistogramOfNextDay(Simulate(fishes, days - 1));
    }
    SimulateInRange(fishes, days);
    TotalOfHistogram(Simulate(fishes, days));
  }

  lemma {:induction false} HistogramRunSplit(h: seq<nat>, a: nat, b: nat)
    requires |h| == 9
    ensures HistogramRun(h, a + b) == HistogramRun(HistogramRun(h, a), b)
  {
    if b > 0 {
      HistogramRunSplit(h, a, b - 1);
    }
  }

  lemma {:induction false} SampleDays0To9(h: seq<nat>)
    requires h == [0, 1, 1, 2, 1, 0, 0, 0, 0]
    ensures HistogramRun(h, 9) == [1, 3, 2, 2, 1, 0, 1, 0, 1]
  {
    assert HistogramRun(h, 1) == [1, 1, 2, 1, 0, 0, 0, 0, 0];
    assert HistogramRun(h, 2) == [1, 2, 1, 0, 0, 0, 1, 0, 1];
    assert HistogramRun(h, 3) == [2, 1, 0, 0, 0, 1, 1, 1, 1];
    assert HistogramRun(h, 4) == [1, 0, 0, 0, 1, 1, 3, 1, 2];
    assert HistogramRun(h, 5) == [0, 0, 0, 1, 1, 3, 2, 2, 1];
    assert HistogramRun(h, 6) == [0, 0, 1, 1, 3, 2, 2, 1, 0];
    assert HistogramRun(h, 7) == [0, 1, 1, 3, 2, 2, 1, 0, 0];
    assert HistogramRun(h, 8) == [1, 1, 3, 2, 2, 1, 0, 0, 0];
    assert HistogramRun(h, 9) == [1, 3, 2, 2, 1, 0, 1, 0, 1];
  }

  lemma {:induction false} SampleDays9To18(h: seq<nat>)
    requires h == [1, 3, 2, 2, 1, 0, 1, 0, 1]
    ensures HistogramRun(h, 9) == [3, 5, 3, 2, 2, 1, 5, 1, 4]
  {
    assert HistogramRun(h, 1) == [3, 2, 2, 1, 0, 1, 1, 1, 1];
    assert HistogramRun(h, 2) == [2, 2, 1, 0, 1, 1, 4, 1, 3];
    assert HistogramRun(h, 3) == [2, 1, 0, 1, 1, 4, 3, 3, 2];
    assert HistogramRun(h, 4) == [1, 0, 1, 1, 4, 3, 5, 2, 2];
    assert HistogramRun(h, 5) == [0, 1, 1, 4, 3, 5, 3, 2, 1];
    assert HistogramRun(h, 6) == [1, 1, 4, 3, 5, 3, 2, 1, 0];
    assert HistogramRun(h, 7) == [1, 4, 3, 5, 3, 2, 2, 0, 1];
    assert HistogramRun(h, 8) == [4, 3, 5, 3, 2, 2, 1, 1, 1];
    assert HistogramRun(h, 9) == [3, 5, 3, 2, 2, 1, 5, 1, 4];
  }

  lemma {:induction false} SampleDays18To30(h: seq<nat>)
    requires h == [3, 5, 3, 2, 2, 1, 5, 1, 4]
    ensures HistogramRun(h, 12) == [3, 7, 5, 14, 10, 16, 11, 7, 5]
  {
    assert HistogramRun(h, 1) == [5, 3, 2, 2, 1, 5, 4, 4, 3];
    assert HistogramRun(h, 2) == [3, 2, 2, 1, 5, 4, 9, 3, 5];
    assert HistogramRun(h, 3) == [2, 2, 1, 5, 4, 9, 6, 5, 3];
    assert HistogramRun(h, 4) == [2, 1, 5, 4, 9, 6, 7, 3, 2];
    assert HistogramRun(h, 5) == [1, 5, 4, 9, 6, 7, 5, 2, 2];
    assert HistogramRun(h, 6) == [5, 4, 9, 6, 7, 5, 3, 2, 1];
    assert HistogramRun(h, 7) == [4, 9, 6, 7, 5, 3, 7, 1, 5];
    assert HistogramRun(h, 8) == [9, 6, 7, 5, 3, 7, 5, 5, 4];
    assert HistogramRun(h, 9) == [6, 7, 5, 3, 7, 5, 14, 4, 9];
    assert HistogramRun(h, 10) == [7, 5, 3, 7, 5, 14, 10, 9, 6];
    assert HistogramRun(h, 11) == [5, 3, 7, 5, 14, 10, 16, 6, 7];
    assert HistogramRun(h, 12) == [3, 7, 5, 14, 10, 16, 11, 7, 5];
  }

  lemma {:induction false} SampleDays30To40(h: seq<nat>)
    requires h == [3, 7, 5, 14, 10, 16, 11, 7, 5]
    ensures HistogramRun(h, 10) == [21, 15, 30, 21, 26, 23, 18, 12, 8]
  {
    assert HistogramRun(h, 1) == [7, 5, 14, 10, 16, 11, 10, 5, 3];
    assert HistogramRun(h, 2) == [5, 14, 10, 16, 11, 10, 12, 3, 7];
    assert HistogramRun(h, 3) == [14, 10, 16, 11, 10, 12, 8, 7, 5];
    assert HistogramRun(h, 4) == [10, 16, 11, 10, 12, 8, 21, 5, 14];
    assert HistogramRun(h, 5) == [16, 11, 10, 12, 8, 21, 15, 14, 10];
    assert HistogramRun(h, 6) == [11, 10, 12, 8, 21, 15, 30, 10, 16];
    assert HistogramRun(h, 7) == [10, 12, 8, 21, 15, 30, 21, 16, 11];
    assert HistogramRun(h, 8) == [12, 8, 21, 15, 30, 21, 26, 11, 10];
    assert HistogramRun(h, 9) == [8, 21, 15, 30, 21, 26, 23, 10, 12];
    assert HistogramRun(h, 10) == [21, 15, 30, 21, 26, 23, 18, 12, 8];
  }

  lemma {:induction false} SampleDays40To50(h: seq<nat>)
    requires h == [21, 15, 30, 21, 26, 23, 18, 12, 8]
    ensures HistogramRun(h, 10) == [36, 56, 44, 44, 56, 41, 84, 23, 51]
  {
    assert HistogramRun(h, 1) == [15, 30, 21, 26, 23, 18, 33, 8, 21];
    assert HistogramRun(h, 2) == [30, 21, 26, 23, 18, 33, 23, 21, 15];
    assert HistogramRun(h, 3) == [21, 26, 23, 18, 33, 23, 51, 15, 30];
    assert HistogramRun(h, 4) == [26, 23, 18, 33, 23, 51, 36, 30, 21];
    assert HistogramRun(h, 5) == [23, 18, 33, 23, 51, 36, 56, 21, 26];
    assert HistogramRun(h, 6) == [18, 33, 23, 51, 36, 56, 44, 26, 23];
    assert HistogramRun(h, 7) == [33, 23, 51, 36, 56, 44, 44, 23, 18];
    assert HistogramRun(h, 8) == [23, 51, 36, 56, 44, 44, 56, 18, 33];
    assert HistogramRun(h, 9) == [51, 36, 56, 44, 44, 56, 41, 33, 23];
    assert HistogramRun(h, 10) == [36, 56, 44, 44, 56, 41, 84, 23, 51];
  }

  lemma {:induction false} SampleDays50To60(h: seq<nat>)
    requires h == [36, 56, 44, 44, 56, 41, 84, 23, 51]
    ensures HistogramRun(h, 10) == [100, 100, 85, 140, 100, 191, 139, 107, 80]
  {
    assert HistogramRun(h, 1) == [56, 44, 44, 56, 41, 84, 59, 51, 36];
    assert HistogramRun(h, 2) == [44, 44, 56, 41, 84, 59, 107, 36, 56];
    assert HistogramRun(h, 3) == [44, 56, 41, 84, 59, 107, 80, 56, 44];
    assert HistogramRun(h, 4) == [56, 41, 84, 59, 107, 80, 100, 44, 44];
    assert HistogramRun(h, 5) == [41, 84, 59, 107, 80, 100, 100, 44, 56];
    assert HistogramRun(h, 6) == [84, 59, 107, 80, 100, 100, 85, 56, 41];
    assert HistogramRun(h, 7) == [59, 107, 80, 100, 100, 85, 140, 41, 84];
    assert HistogramRun(h, 8) == [107, 80, 100, 100, 85, 140, 100, 84, 59];
    assert HistogramRun(h, 9) == [80, 100, 100, 85, 140, 100, 191, 59, 107];
    assert HistogramRun(h, 10) == [100, 100, 85, 140, 100, 191, 139, 107, 80];
  }

  lemma {:induction false} SampleDays60To70(h: seq<nat>)
    requires h == [100, 100, 85, 140, 100, 191, 139, 107, 80]
    ensures HistogramRun(h, 10) == [240, 185, 331, 239, 398, 319, 392, 180, 185]
  {
    assert HistogramRun(h, 1) == [100, 85, 140, 100, 191, 139, 207, 80, 100];
    assert HistogramRun(h, 2) == [85, 140, 100, 191, 139, 207, 180, 100, 100];
    assert HistogramRun(h, 3) == [140, 100, 191, 139, 207, 180, 185, 100, 85];
    assert HistogramRun(h, 4) == [100, 191, 139, 207, 180, 185, 240, 85, 140];
    assert HistogramRun(h, 5) == [191, 139, 207, 180, 185, 240, 185, 140, 100];
    assert HistogramRun(h, 6) == [139, 207, 180, 185, 240, 185, 331, 100, 191];
    assert HistogramRun(h, 7) == [207, 180, 185, 240, 185, 331, 239, 191, 139];
    assert HistogramRun(h, 8) == [180, 185, 240, 185, 331, 239, 398, 139, 207];
    assert HistogramRun(h, 9) == [185, 240, 185, 331, 239, 398, 319, 207, 180];
    assert HistogramRun(h, 10) == [240, 185, 331, 239, 398, 319, 392, 180, 185];
  }

  lemma {:induction false} SampleDays70To80(h: seq<nat>)
    requires h == [240, 185, 331, 239, 398, 319, 392, 180, 185]
    ensures HistogramRun(h, 10) == [424, 729, 558, 790, 739, 762, 991, 370, 571]
  {
    assert HistogramRun(h, 1) == [185, 331, 239, 398, 319, 392, 420, 185, 240];
    assert HistogramRun(h, 2) == [331, 239, 398, 319, 392, 420, 370, 240, 185];
    assert HistogramRun(h, 3) == [239, 398, 319, 392, 420, 370, 571, 185, 331];
    assert HistogramRun(h, 4) == [398, 319, 392, 420, 370, 571, 424, 331, 239];
    assert HistogramRun(h, 5) == [319, 392, 420, 370, 571, 424, 729, 239, 398];
    assert HistogramRun(h, 6) == [392, 420, 370, 571, 424, 729, 558, 398, 319];
    assert HistogramRun(h, 7) == [420, 370, 571, 424, 729, 558, 790, 319, 392];
    assert HistogramRun(h, 8) == [370, 571, 424, 729, 558, 790, 739, 392, 420];
    assert HistogramRun(h, 9) == [571, 424, 729, 558, 790, 739, 762, 420, 370];
    assert HistogramRun(h, 10) == [424, 729, 558, 790, 739, 762, 991, 370, 571];
  }

  /** Eighty days of the histogram started from one fish at 1, one at 2, two at 3 and one at 4. */
  lemma {:induction false} SampleHistogramRun(h0: seq<nat>)
    requires h0 == [0, 1, 1, 2, 1, 0, 0, 0, 0]
    ensures Total(HistogramRun(h0, 18)) == 26
    ensures Total(HistogramRun(h0, 80)) == 5934
  {
    SampleDays0To9(h0);
    SampleDays9To18(HistogramRun(h0, 9));
    HistogramRunSplit(h0, 9, 9);
    assert HistogramRun(h0, 18) == [3, 5, 3, 2, 2, 1, 5, 1, 4];
    SampleDays18To30(HistogramRun(h0, 18));
    HistogramRunSplit(h0, 18, 12);
    SampleDays30To40(HistogramRun(h0, 30));
    HistogramRunSplit(h0, 30, 10);
    SampleDays40To50(HistogramRun(h0, 40));
    HistogramRunSplit(h0, 40, 10);
    SampleDays50To60(HistogramRun(h0, 50));
    HistogramRunSplit(h0, 50, 10);
    SampleDays60To70(HistogramRun(h0, 60));
    HistogramRunSplit(h0, 60, 10);
    SampleDays70To80(HistogramRun(h0, 70));
    HistogramRunSplit(h0, 70, 10);
    assert HistogramRun(h0, 80) == [424, 729, 558, 790, 739, 762, 991, 370, 571];
  }

  /** The five-fish population 3,4,3,1,2 grows to 26 fish in 18 days and 5934 in 80. */
  lemma SampleGrowth()
    ensures |Simulate([3, 4, 3, 1, 2], 18)| == 26
    ensures |Simulate([3, 4, 3, 1, 2], 80)| == 5934
  {
    var f := [3, 4, 3, 1, 2];
    assert f[..4] == [3, 4, 3, 1] && f[..4][..3] == [3, 4, 3];
    assert f[..4][..3][..2] == [3, 4] && f[..4][..3][..2][..1] == [3];
    assert [3][..0] == [];
    forall k | 0 <= k < 9
      ensures Count(f, k) == [0, 1, 1, 2, 1, 0, 0, 0, 0][k]
    {
      assert Count([3], k) == if k == 3 then 1 else 0;
      assert Count([3, 4], k) == Count([3], k) + if k == 4 then 1 else 0;
      assert Count([3, 4, 3], k) == Count([3, 4], k) + if k == 3 then 1 else 0;
      assert Count([3, 4, 3, 1], k) == Count([3, 4, 3], k) + if k == 1 then 1 else 0;
    }
    assert Histogram(f) == [0, 1, 1, 2, 1, 0, 0, 0, 0];
    SimulateByHistogram(f, 18);
    SimulateByHistogram(f, 80);
    SampleHistogramRun(Histogram(f));
  }
}
