/**
 * Model of day1/src/main.rs: counting how often a sonar depth reading
 * increases, reading by reading and over a sliding window of three.
 */
module Sonar {
  /** Width of the sliding window (`WINDOW_SIZE`). */
  const WindowSize: nat := 3

  /** Number of positions `i` in `1..|nums|` whose reading exceeds the one before it. */
  function Increases(nums: seq<int>): nat
  {
    if |nums| <= 1 then 0
    else Increases(nums[..|nums| - 1]) + (if nums[|nums| - 1] > nums[|nums| - 2] then 1 else 0)
  }

  function Sum(s: seq<int>): int
  {
    if s == [] then 0 else Sum(s[..|s| - 1]) + s[|s| - 1]
  }

  /** Window `i` covers readings `i..i+3`. */
  function Window(nums: seq<int>, i: nat): int
    requires i + WindowSize <= |nums|
  {
    Sum(nums[i..i + WindowSize])
  }

  /**
   * Number of window starts `i` (with the next window still inside `nums`)
   * where window `i + 1` has a greater sum than window `i`.
   */
  function WindowIncreases(nums: seq<int>, k: nat): nat
    requires k + WindowSize <= |nums|
  {
    if k == 0 then 0
    else WindowIncreases(nums, k - 1) + (if Window(nums, k) > Window(nums, k - 1) then 1 else 0)
  }

  /** Number of `i < k` with `nums[i + 3] > nums[i]`. */
  function GapIncreases(nums: seq<int>, k: nat): nat
    requires k + WindowSize <= |nums|
  {
    if k == 0 then 0
    else GapIncreases(nums, k - 1) + (if nums[k + 2] > nums[k - 1] then 1 else 0)
  }

  lemma SumOfThree(s: seq<int>)
    requires |s| == 3
    ensures Sum(s) == s[0] + s[1] + s[2]
  {
    assert s[..2][..1] == [s[0]];
    assert s[..2][..1][..0] == [];
    assert Sum(s[..1]) == s[0];
    assert Sum(s[..2]) == s[0] + s[1];
  }

  lemma Increases_Bound(nums: seq<int>)
    requires |nums| > 0
    ensures Increases(nums) <= |nums| - 1
  {
    if |nums| > 1 {
      Increases_Bound(nums[..|nums| - 1]);
    }
  }

  lemma {:induction false} WindowIncreases_Bound(nums: seq<int>, k: nat)
    requires k + WindowSize <= |nums|
    ensures WindowIncreases(nums, k) <= k
  {
    if k > 0 {
      WindowIncreases_Bound(nums, k - 1);
    }
  }

  /**
   * Two consecutive windows share two readings, so window `i + 1` beats
   * window `i` exactly when `nums[i + 3] > nums[i]`.
   */
  lemma {:induction false} WindowIsGap(nums: seq<int>, k: nat)
    requires k + WindowSize <= |nums|
    ensures WindowIncreases(nums, k) == GapIncreases(nums, k)
  {
    if k > 0 {
      WindowIsGap(nums, k - 1);
      SumOfThree(nums[k..k + 3]);
      SumOfThree(nums[k - 1..k + 2]);
    }
  }

  /**
   * `get_sonar_measurement_increase_count`: scans `nums[1..]` keeping the
   * previous reading. Indexing `nums[0]` panics on an empty input.
   */
  method IncreaseCount(nums: seq<int>) returns (count: nat)
    requires |nums| > 0
    ensures count == Increases(nums)
    ensures count <= |nums| - 1
  {
    count := 0;
    var preNum := nums[0];
    var i := 1;
    while i < |nums|
      invariant 1 <= i <= |nums|
      invariant preNum == nums[i - 1]
      invariant count == Increases(nums[..i])
    {
      var curNum := nums[i];
      if curNum > preNum {
        count := count + 1;
      }
      preNum := curNum;
      assert nums[..i + 1][..i] == nums[..i];
      i := i + 1;
    }
    assert nums[..|nums|] == nums;
    Increases_Bound(nums);
  }

  /**
   * `get_sonar_measurement_increase_count_by_sliding_window`: 0 for at most
   * three readings; otherwise compares the sum of each window with the sum
   * of the previous one.
   */
  method SlidingWindowIncreaseCount(nums: seq<int>) returns (count: nat)
    ensures |nums| <= WindowSize ==> count == 0
    ensures |nums| > WindowSize ==> count == WindowIncreases(nums, |nums| - WindowSize)
                                    && count == GapIncreases(nums, |nums| - WindowSize)
                                    && count <= |nums| - WindowSize
  {
    if |nums| <= WindowSize {
      return 0;
    }
    count := 0;
    var preNum := Sum(nums[0..WindowSize]);
    var index := 0;
    while index < |nums| - WindowSize
      invariant 0 <= index <= |nums| - WindowSize
      invariant preNum == Window(nums, index)
      invariant count == WindowIncreases(nums, index)
    {
      var curNum := Sum(nums[index + 1..index + WindowSize + 1]);
      if curNum > preNum {
        count := count + 1;
      }
      preNum := curNum;
      index := index + 1;
    }
    WindowIsGap(nums, |nums| - WindowSize);
    WindowIncreases_Bound(nums, |nums| - WindowSize);
  }

  /** The readings used by the tests. */
  const Sample: seq<int> := [199, 200, 208, 210, 200, 207, 240, 269, 260, 263]

  lemma SampleCounts()
    ensures Increases(Sample) == 7
    ensures GapIncreases(Sample, |Sample| - WindowSize) == 5
  {
    assert Increases(Sample[..2]) == 1 by { assert Sample[..2][..1] == Sample[..1]; }
    assert Increases(Sample[..3]) == 2 by { assert Sample[..3][..2] == Sample[..2]; }
    assert Increases(Sample[..4]) == 3 by { assert Sample[..4][..3] == Sample[..3]; }
    assert Increases(Sample[..5]) == 3 by { assert Sample[..5][..4] == Sample[..4]; }
    assert Increases(Sample[..6]) == 4 by { assert Sample[..6][..5] == Sample[..5]; }
    assert Increases(Sample[..7]) == 5 by { assert Sample[..7][..6] == Sample[..6]; }
    assert Increases(Sample[..8]) == 6 by { assert Sample[..8][..7] == Sample[..7]; }
    assert Increases(Sample[..9]) == 6 by { assert Sample[..9][..8] == Sample[..8]; }
    assert Sample[..10] == Sample;
  }
}
