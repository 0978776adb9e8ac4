/**
 * Model of day3/src/main.rs: the gamma and epsilon rates of a diagnostic
 * report, from the majority bit at each position.
 */
module Diagnostic {
  function Pow2(k: nat): (r: nat)
    ensures r >= 1
  {
    if k == 0 then 1 else 2 * Pow2(k - 1)
  }

  /** Sum of the digits at position `i` over the readings long enough to have one. */
  function ColumnSum(readings: seq<seq<nat>>, i: nat): nat
  {
    if readings == [] then 0
    else
      var r := readings[|readings| - 1];
      ColumnSum(readings[..|readings| - 1], i) + (if i < |r| then r[i] else 0)
  }

  /** Gamma bit `i`: 1 when the column sum exceeds half the number of readings (integer division). */
  function GammaBit(readings: seq<seq<nat>>, i: nat): (b: nat)
    ensures b <= 1
  {
    if ColumnSum(readings, i) > |readings| / 2 then 1 else 0
  }

  function GammaBits(readings: seq<seq<nat>>, width: nat): (g: seq<nat>)
    ensures |g| == width
  {
    seq(width, (i: int) requires 0 <= i => GammaBit(readings, i))
  }

  function Complement(bits: seq<nat>): (c: seq<nat>)
    ensures |c| == |bits|
  {
    seq(|bits|, i requires 0 <= i < |bits| => if bits[i] == 0 then 1 else 0)
  }

  /** Value of a bit string, first bit most significant. */
  function BinaryValue(bits: seq<nat>): nat
  {
    if bits == [] then 0 else bits[0] * Pow2(|bits| - 1) + BinaryValue(bits[1..])
  }

  predicate IsBits(bits: seq<nat>)
  {
    forall i :: 0 <= i < |bits| ==> bits[i] <= 1
  }

  /** Every position weighs into exactly one of a bit string and its complement. */
  lemma {:induction false} ComplementSum(bits: seq<nat>)
    requires IsBits(bits)
    ensures BinaryValue(bits) + BinaryValue(Complement(bits)) == Pow2(|bits|) - 1
  {
    if bits != [] {
      assert Complement(bits)[1..] == Complement(bits[1..]);
      ComplementSum(bits[1..]);
    }
  }

  /**
   * `get_power_consumption`: column sums over all readings, majority bits
   * taken from the last position backwards, and accumulation with a
   * doubling weight, so the first position is the most significant.
   * `readings[0]` panics on an empty report and a reading longer than the
   * first one overruns `bit_sums`.
   */
  method PowerConsumption(readings: seq<seq<nat>>) returns (gamma: nat, epsilon: nat)
    requires |readings| > 0
    requires forall k :: 0 <= k < |readings| ==> |readings[k]| <= |readings[0]|
    ensures gamma == BinaryValue(GammaBits(readings, |readings[0]|))
    ensures epsilon == BinaryValue(Complement(GammaBits(readings, |readings[0]|)))
    ensures gamma + epsilon == Pow2(|readings[0]|) - 1
  {
    var length := |readings[0]|;
    var bitSums := BitSums(readings, length);
    var majorThreshold := |readings| / 2;
    var finalBitSums := MajorityBackwards(bitSums, majorThreshold);
    ghost var g := GammaBits(readings, length);
    assert forall j :: 0 <= j < length ==> finalBitSums[j] == g[length - 1 - j];
    gamma, epsilon := Accumulate(finalBitSums, g);
    ComplementSum(g);
  }

  /** The first loop of `get_power_consumption`: the column sums of all readings. */
  method BitSums(readings: seq<seq<nat>>, length: nat) returns (bitSums: seq<nat>)
    requires forall k :: 0 <= k < |readings| ==> |readings[k]| <= length
    ensures |bitSums| == length
    ensures forall i :: 0 <= i < length ==> bitSums[i] == ColumnSum(readings, i)
  {
    bitSums := seq(length, _ => 0);
    for k := 0 to |readings|
      invariant |bitSums| == length
      invariant forall i :: 0 <= i < length ==> bitSums[i] == ColumnSum(readings[..k], i)
    {
      assert readings[..k + 1][..k] == readings[..k];
      bitSums := AddReading(bitSums, readings[k]);
    }
    assert readings[..|readings|] == readings;
  }

  /** The inner loop: one reading's digits added to the running column sums. */
  method AddReading(bitSums: seq<nat>, reading: seq<nat>) returns (sums: seq<nat>)
    requires |reading| <= |bitSums|
    ensures |sums| == |bitSums|
    ensures forall i :: 0 <= i < |bitSums| ==> sums[i] == bitSums[i] + (if i < |reading| then reading[i] else 0)
  {
    sums := bitSums;
    for index := 0 to |reading|
      invariant |sums| == |bitSums|
      invariant forall i :: 0 <= i < |bitSums| ==> sums[i] == bitSums[i] + (if i < index then reading[i] else 0)
    {
      sums := sums[index := sums[index] + reading[index]];
    }
  }

  /** The second loop: the majority bits, last position first. */
  method MajorityBackwards(bitSums: seq<nat>, majorThreshold: nat) returns (finalBitSums: seq<nat>)
    ensures |finalBitSums| == |bitSums|
    ensures forall j :: 0 <= j < |bitSums| ==>
      finalBitSums[j] == if bitSums[|bitSums| - 1 - j] > majorThreshold then 1 else 0
  {
    finalBitSums := [];
    var t := |bitSums|;
    while t > 0
      invariant 0 <= t <= |bitSums| && |finalBitSums| == |bitSums| - t
      invariant forall j :: 0 <= j < |bitSums| - t ==>
        finalBitSums[j] == if bitSums[|bitSums| - 1 - j] > majorThreshold then 1 else 0
    {
      t := t - 1;
      var bit := if bitSums[t] > majorThreshold then 1 else 0;
      finalBitSums := finalBitSums + [bit];
    }
  }

  /**
   * The third loop: bit `j` of the reversed list weighs `2^j`, so the value
   * read is that of the bits in their own order, and the flipped bits give
   * the complement's value.
   */
  method Accumulate(finalBitSums: seq<nat>, ghost g: seq<nat>) returns (gamma: nat, epsilon: nat)
    requires |finalBitSums| == |g| && IsBits(g)
    requires forall j :: 0 <= j < |g| ==> finalBitSums[j] == g[|g| - 1 - j]
    ensures gamma == BinaryValue(g)
    ensures epsilon == BinaryValue(Complement(g))
  {
    var length := |finalBitSums|;
    var weight := 1;
    gamma, epsilon := 0, 0;
    ghost var c := Complement(g);
    for j := 0 to length
      invariant weight == Pow2(j)
      invariant gamma == BinaryValue(g[length - j..])
      invariant epsilon == BinaryValue(c[length - j..])
    {
      var bitSum := finalBitSums[j];
      assert g[length - j - 1..][1..] == g[length - j..];
      assert c[length - j - 1..][1..] == c[length - j..];
      gamma := gamma + bitSum * weight;
      epsilon := epsilon + (1 - bitSum) * weight;
      weight := weight * 2;
    }
    assert g[0..] == g && c[0..] == c;
  }

}
