/**
 * Model of day2/src/main.rs: steering the submarine by a list of commands,
 * once in the plain interpretation and once with an aim.
 */
module Dive {
  import opened Wrappers

  datatype Direction = Forward | Up | Down

  datatype Action = Action(direction: Direction, length: int)

  /** The command word of each direction, as it appears in the input. */
  function Token(d: Direction): string
  {
    match d
    case Forward => "forward"
    case Up => "up"
    case Down => "down"
  }

  /**
   * Decoding of the first word of an input line; any other word is the
   * "Unknown direction" error.
   */
  function DecodeDirection(word: string): (r: Option<Direction>)
    ensures r.Some? <==> word in {"forward", "up", "down"}
    ensures r.Some? ==> Token(r.value) == word
  {
    match word
    case "forward" => Some(Forward)
    case "up" => Some(Up)
    case "down" => Some(Down)
    case _ => None
  }

  /** Decoding inverts `Token`. */
  lemma DecodeToken(d: Direction)
    ensures DecodeDirection(Token(d)) == Some(d)
  {
  }

  /** Sum of the lengths of the commands going in direction `d`. */
  function Total(actions: seq<Action>, d: Direction): int
  {
    if actions == [] then 0
    else Total(actions[..|actions| - 1], d)
         + (if actions[|actions| - 1].direction == d then actions[|actions| - 1].length else 0)
  }

  /** Position after the commands in aim mode: (aim, horizontal, depth). */
  function AimRun(aim: int, h: int, d: int, actions: seq<Action>): (int, int, int)
  {
    if actions == [] then (aim, h, d)
    else
      var (a, x, y) := AimRun(aim, h, d, actions[..|actions| - 1]);
      var act := actions[|actions| - 1];
      match act.direction
      case Forward => (a, x + act.length, y + a * act.length)
      case Up => (a - act.length, x, y)
      case Down => (a + act.length, x, y)
  }

  /** In aim mode the aim moves like the plain depth, and horizontal is the same. */
  lemma {:induction false} AimRunTotals(aim: int, h: int, d: int, actions: seq<Action>)
    ensures AimRun(aim, h, d, actions).0 == aim + Total(actions, Down) - Total(actions, Up)
    ensures AimRun(aim, h, d, actions).1 == h + Total(actions, Forward)
  {
    if actions != [] {
      AimRunTotals(aim, h, d, actions[..|actions| - 1]);
    }
  }

  /**
   * `get_final_diving_position`: forward adds to horizontal, up decreases
   * the depth and down increases it.
   */
  method FinalDivingPosition(start: (int, int), actions: seq<Action>) returns (horizontal: int, depth: int)
    ensures horizontal == start.0 + Total(actions, Forward)
    ensures depth == start.1 + Total(actions, Down) - Total(actions, Up)
  {
    horizontal, depth := start.0, start.1;
    for i := 0 to |actions|
      invariant horizontal == start.0 + Total(actions[..i], Forward)
      invariant depth == start.1 + Total(actions[..i], Down) - Total(actions[..i], Up)
    {
      assert actions[..i + 1][..i] == actions[..i];
      match actions[i].direction
      case Forward => horizontal := horizontal + actions[i].length;
      case Up => depth := depth - actions[i].length;
      case Down => depth := depth + actions[i].length;
    }
    assert actions[..|actions|] == actions;
  }

  /**
   * `get_final_diving_position_adjusted_by_aim`: up and down only change
   * the aim; forward moves horizontally and dives by `aim * length`.
   */
  method FinalDivingPositionByAim(aim0: int, start: (int, int), actions: seq<Action>)
    returns (horizontal: int, depth: int)
    ensures (horizontal, depth) == (AimRun(aim0, start.0, start.1, actions).1, AimRun(aim0, start.0, start.1, actions).2)
    ensures horizontal == start.0 + Total(actions, Forward)
  {
    var aim := aim0;
    horizontal, depth := start.0, start.1;
    for i := 0 to |actions|
      invariant (aim, horizontal, depth) == AimRun(aim0, start.0, start.1, actions[..i])
    {
      assert actions[..i + 1][..i] == actions[..i];
      match actions[i].direction
      case Forward =>
        horizontal := horizontal + actions[i].length;
        depth := depth + aim * actions[i].length;
      case Up => aim := aim - actions[i].length;
      case Down => aim := aim + actions[i].length;
    }
    assert actions[..|actions|] == actions;
    AimRunTotals(aim0, start.0, start.1, actions);
  }

  /** The six commands of the tests. */
  const Sample: seq<Action> :=
    [Action(Forward, 5), Action(Down, 5), Action(Forward, 8), Action(Up, 3), Action(Down, 8), Action(Forward, 2)]

  lemma SampleProducts()
    ensures Total(Sample, Forward) * (Total(Sample, Down) - Total(Sample, Up)) == 150
    ensures AimRun(0, 0, 0, Sample).1 * AimRun(0, 0, 0, Sample).2 == 900
  {
    var s1, s2, s3, s4, s5 := Sample[..1], Sample[..2], Sample[..3], Sample[..4], Sample[..5];
    assert s1[..0] == [] && s2[..1] == s1 && s3[..2] == s2 && s4[..3] == s3 && s5[..4] == s4 && Sample[..5] == s5;
    assert Total(s1, Forward) == 5 && Total(s1, Down) == 0 && Total(s1, Up) == 0;
    assert Total(s2, Forward) == 5 && Total(s2, Down) == 5 && Total(s2, Up) == 0;
    assert Total(s3, Forward) == 13 && Total(s3, Down) == 5 && Total(s3, Up) == 0;
    assert Total(s4, Forward) == 13 && Total(s4, Down) == 5 && Total(s4, Up) == 3;
    assert Total(s5, Forward) == 13 && Total(s5, Down) == 13 && Total(s5, Up) == 3;
    assert Total(Sample, Forward) == 15 && Total(Sample, Down) == 13 && Total(Sample, Up) == 3;
    assert AimRun(0, 0, 0, s1) == (0, 5, 0);
    assert AimRun(0, 0, 0, s2) == (5, 5, 0);
    assert AimRun(0, 0, 0, s3) == (5, 13, 40);
    assert AimRun(0, 0, 0, s4) == (2, 13, 40);
    assert AimRun(0, 0, 0, s5) == (10, 13, 40);
    assert AimRun(0, 0, 0, Sample) == (10, 15, 60);
  }
}
