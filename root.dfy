/**
 * Model of src/main.rs: the workspace-root copy of the first sonar count.
 */
module SonarRoot {
  import Sonar

  /**
   * `get_sonar_measurement_increase_count` at the repository root: the same
   * scan as in day1, with its own loop; `nums[0]` panics on empty input.
   */
  method IncreaseCount(nums: seq<int>) returns (count: nat)
    requires |nums| > 0
    ensures count == Sonar.Increases(nums)
    ensures count <= |nums| - 1
  {
    count := 0;
    var preNum := nums[0];
    for i := 1 to |nums|
      invariant preNum == nums[i - 1]
      invariant count == Sonar.Increases(nums[..i])
    {
      if nums[i] > preNum {
        count := count + 1;
      }
      preNum := nums[i];
      assert nums[..i + 1][..i] == nums[..i];
    }
    assert nums[..|nums|] == nums;
    Sonar.Increases_Bound(nums);
  }

  /** The sample of the root test gives 7 increases. */
  lemma SampleGivesSeven()
    ensures Sonar.Increases([199, 200, 208, 210, 200, 207, 240, 269, 260, 263]) == 7
  {
    Sonar.SampleCounts();
  }
}
