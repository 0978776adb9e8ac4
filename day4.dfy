/**
 * Model of day4/src/main.rs: playing bingo on several 5x5 boards, finding
 * the first (or the last) board to win, and scoring a board by the sum of
 * its unmarked numbers.
 */
module Bingo {
  import opened Wrappers

  /**
   * A `BingoBoard`: where each number sits (`pos_mapping`), which cells are
   * marked (`val_mapping`, 0 or 1), and how many marks each row and column has.
   */
  datatype Board = Board(pos: map<int, (nat, nat)>, val: seq<seq<int>>, rowSum: seq<int>, colSum: seq<int>)

  /** The shape every parsed board has: 5x5 cells, 5 sums each way, positions on the board. */
  predicate ValidBoard(b: Board)
  {
    && |b.val| == 5
    && (forall r :: 0 <= r < 5 ==> |b.val[r]| == 5)
    && |b.rowSum| == 5
    && |b.colSum| == 5
    && (forall n :: n in b.pos ==> b.pos[n].0 < 5 && b.pos[n].1 < 5)
  }

  /** A freshly parsed board: nothing marked, every sum 0. */
  function NewBoard(pos: map<int, (nat, nat)>): (b: Board)
    requires forall n :: n in pos ==> pos[n].0 < 5 && pos[n].1 < 5
    ensures ValidBoard(b) && !Won(b)
    ensures forall r, c :: 0 <= r < 5 && 0 <= c < 5 ==> b.val[r][c] == 0
  {
    Board(pos, seq(5, _ => seq(5, _ => 0)), seq(5, _ => 0), seq(5, _ => 0))
  }

  /** Some line has reached 5 marks. */
  predicate Full(sums: seq<int>)
  {
    exists i :: 0 <= i < |sums| && sums[i] == 5
  }

  predicate Won(b: Board)
  {
    Full(b.rowSum) || Full(b.colSum)
  }

  /**
   * Calling `n` on one board: when the board holds `n`, its cell is marked
   * and its row and column sums go up by one; otherwise nothing changes.
   */
  function Mark(b: Board, n: int): (r: Board)
    requires ValidBoard(b)
    ensures ValidBoard(r) && r.pos == b.pos
    ensures n !in b.pos ==> r == b
    ensures n in b.pos ==>
      var x, y := b.pos[n].0, b.pos[n].1;
      && r.val[x][y] == 1
      && (forall i, j :: 0 <= i < 5 && 0 <= j < 5 && (i != x || j != y) ==> r.val[i][j] == b.val[i][j])
      && r.rowSum[x] == b.rowSum[x] + 1
      && (forall i :: 0 <= i < 5 && i != x ==> r.rowSum[i] == b.rowSum[i])
      && r.colSum[y] == b.colSum[y] + 1
      && (forall j :: 0 <= j < 5 && j != y ==> r.colSum[j] == b.colSum[j])
  {
    if n !in b.pos then b
    else
      var (x, y) := b.pos[n];
      b.(val := b.val[x := b.val[x][y := 1]],
         rowSum := b.rowSum[x := b.rowSum[x] + 1],
         colSum := b.colSum[y := b.colSum[y] + 1])
  }

  /** All the state of one play: the boards, `board_win_record` and `count`. */
  datatype Game = Game(boards: seq<Board>, won: seq<bool>, count: nat)

  predicate ValidGame(g: Game)
  {
    |g.won| == |g.boards| && forall i :: 0 <= i < |g.boards| ==> ValidBoard(g.boards[i])
  }

  /**
   * Visiting board `i` with the called number `n`: a board that has already
   * won is skipped, as is one that does not hold `n`; otherwise the board is
   * marked and recorded as won once a row or column is full.
   */
  function Visit(g: Game, n: int, i: nat): (r: Game)
    requires ValidGame(g) && i < |g.boards|
    ensures ValidGame(r) && |r.boards| == |g.boards|
    ensures forall j :: 0 <= j < |g.boards| && j != i ==> r.boards[j] == g.boards[j] && r.won[j] == g.won[j]
    ensures g.won[i] ==> r == g
    ensures !g.won[i] ==> r.boards[i] == Mark(g.boards[i], n)
    ensures !g.won[i] && r.won[i] ==> Won(r.boards[i])
    ensures r.count == g.count + (if r.won[i] && !g.won[i] then 1 else 0)
    ensures r.won[i] == (g.won[i] || (n in g.boards[i].pos && Won(r.boards[i])))
  {
    if g.won[i] || n !in g.boards[i].pos then g
    else
      var b := Mark(g.boards[i], n);
      var w := Won(b);
      Game(g.boards[i := b], g.won[i := w], if w then g.count + 1 else g.count)
  }

  /** Play so far: still running, or stopped early with the winner, the number and the state. */
  datatype Outcome = Running(game: Game) | Finished(winner: nat, input: int, game: Game)

  predicate ValidOutcome(o: Outcome)
  {
    ValidGame(o.game) && (o.Finished? ==> o.winner < |o.game.boards|)
  }

  /**
   * One visit together with the early return: a board's new win ends the
   * play at once when the first winner is wanted, and only when it makes the
   * count of winners equal the board count when the last one is wanted.
   */
  function Step(o: Outcome, n: int, i: nat, getLast: bool): (r: Outcome)
    requires ValidOutcome(o) && i < |o.game.boards|
    ensures ValidOutcome(r) && |r.game.boards| == |o.game.boards|
    ensures o.Finished? ==> r == o
    ensures o.Running? ==> r.game == Visit(o.game, n, i)
    ensures o.Running? && r.Finished? ==>
      && r.winner == i && r.input == n
      && !o.game.won[i] && r.game.won[i]
      && (getLast ==> r.game.count == |r.game.boards|)
    ensures forall j :: 0 <= j < |o.game.boards| && o.game.won[j] ==>
      r.game.won[j] && r.game.boards[j] == o.game.boards[j]
  {
    if o.Finished? then o
    else
      var g := Visit(o.game, n, i);
      if g.won[i] && !o.game.won[i] && (!getLast || g.count == |g.boards|) then Finished(i, n, g)
      else Running(g)
  }

  /** Boards `0..j-1` visited with the called number `n`. */
  function Round(o: Outcome, n: int, j: nat, getLast: bool): (r: Outcome)
    requires ValidOutcome(o) && j <= |o.game.boards|
    ensures ValidOutcome(r) && |r.game.boards| == |o.game.boards|
    ensures forall k :: 0 <= k < |o.game.boards| && o.game.won[k] ==>
      r.game.won[k] && r.game.boards[k] == o.game.boards[k]
    decreases j
  {
    if j == 0 then o else Step(Round(o, n, j - 1, getLast), n, j - 1, getLast)
  }

  /** Every board visited with each called number in turn. */
  function Rounds(o: Outcome, inputs: seq<int>, getLast: bool): (r: Outcome)
    requires ValidOutcome(o)
    ensures ValidOutcome(r) && |r.game.boards| == |o.game.boards|
  {
    if inputs == [] then o
    else
      var prev := Rounds(o, inputs[..|inputs| - 1], getLast);
      Round(prev, inputs[|inputs| - 1], |prev.game.boards|, getLast)
  }

  predicate ValidBoards(boards: seq<Board>)
  {
    forall i :: 0 <= i < |boards| ==> ValidBoard(boards[i])
  }

  /** The starting state: no board has won, the count is 0. */
  function Start(boards: seq<Board>): (o: Outcome)
    requires ValidBoards(boards)
    ensures o.Running? && ValidOutcome(o) && o.game.boards == boards && o.game.count == 0
    ensures forall i :: 0 <= i < |boards| ==> !o.game.won[i]
  {
    Running(Game(boards, seq(|boards|, _ => false), 0))
  }

  /** What `get_winner_bingo_board` returns: the early return's triple, or `(None, 0, None)`. */
  function Winner(inputs: seq<int>, boards: seq<Board>, getLast: bool): (Option<nat>, int, Option<Board>)
    requires ValidBoards(boards)
  {
    match Rounds(Start(boards), inputs, getLast)
    case Finished(w, n, g) => (Some(w), n, Some(g.boards[w]))
    case Running(_) => (None, 0, None)
  }

  /** One of the two scans over the sums: is some line full? */
  method HasFullLine(sums: seq<int>) returns (full: bool)
    ensures full <==> Full(sums)
  {
    full := false;
    for i := 0 to |sums|
      invariant full <==> exists j :: 0 <= j < i && sums[j] == 5
    {
      if sums[i] == 5 {
        full := true;
      }
    }
  }

  /**
   * The body of the inner loop of `get_winner_bingo_board` for board `i`:
   * skip a won board or one without `n`, else mark the cell, bump the two
   * sums, scan both sum lists for a full line and count a new win.
   */
  method VisitBoard(boards: seq<Board>, won: seq<bool>, count: nat, n: int, i: nat)
    returns (boards': seq<Board>, won': seq<bool>, count': nat)
    requires ValidGame(Game(boards, won, count)) && i < |boards|
    ensures Game(boards', won', count') == Visit(Game(boards, won, count), n, i)
  {
    boards', won', count' := boards, won, count;
    if !won[i] && n in boards[i].pos {
      var (x, y) := boards[i].pos[n];
      var b := boards[i];
      b := b.(val := b.val[x := b.val[x][y := 1]]);
      b := b.(rowSum := b.rowSum[x := b.rowSum[x] + 1]);
      b := b.(colSum := b.colSum[y := b.colSum[y] + 1]);
      assert b == Mark(boards[i], n);
      boards' := boards[i := b];
      var rowFull := HasFullLine(b.rowSum);
      if rowFull {
        won' := won'[i := true];
      }
      var colFull := HasFullLine(b.colSum);
      if colFull {
        won' := won'[i := true];
      }
      if won'[i] {
        count' := count + 1;
      }
    }
  }

  /**
   * One pass of the outer loop of `get_winner_bingo_board`: the number `n`
   * is called on every board in order, stopping at the board whose win ends
   * the play (reported in `stop`).
   */
  method CallNumber(boards: seq<Board>, won: seq<bool>, count: nat, n: int, getLast: bool)
    returns (boards': seq<Board>, won': seq<bool>, count': nat, stop: Option<nat>)
    requires ValidGame(Game(boards, won, count))
    ensures |boards'| == |boards| && (stop.Some? ==> stop.value < |boards|)
    ensures stop.None? ==> Round(Running(Game(boards, won, count)), n, |boards|, getLast) == Running(Game(boards', won', count'))
    ensures stop.Some? ==> Round(Running(Game(boards, won, count)), n, |boards|, getLast) == Finished(stop.value, n, Game(boards', won', count'))
  {
    ghost var before := Running(Game(boards, won, count));
    boards', won', count' := boards, won, count;
    for i := 0 to |boards|
      invariant |boards'| == |boards|
      invariant Round(before, n, i, getLast) == Running(Game(boards', won', count'))
    {
      ghost var cur := Game(boards', won', count');
      var wasWon := won'[i];
      boards', won', count' := VisitBoard(boards', won', count', n, i);
      NextVisit(before, n, i, getLast, cur, Game(boards', won', count'));
      if won'[i] && !wasWon && (!getLast || count' == |boards'|) {
        RoundFinished(before, n, i + 1, |boards|, getLast);
        return boards', won', count', Some(i);
      }
    }
    stop := None;
  }

  /** `get_winner_bingo_board`, with the boards as a value the method owns and updates. */
  method GetWinnerBingoBoard(bingoInputs: seq<int>, bingoBoards: seq<Board>, getLast: bool)
    returns (winner: Option<nat>, input: int, board: Option<Board>)
    requires ValidBoards(bingoBoards)
    ensures (winner, input, board) == Winner(bingoInputs, bingoBoards, getLast)
  {
    var count := 0;
    var boards := bingoBoards;
    var won := seq(|bingoBoards|, _ => false);
    for k := 0 to |bingoInputs|
      invariant Rounds(Start(bingoBoards), bingoInputs[..k], getLast) == Running(Game(boards, won, count))
    {
      assert bingoInputs[..k + 1][..k] == bingoInputs[..k];
      var stop;
      boards, won, count, stop := CallNumber(boards, won, count, bingoInputs[k], getLast);
      if stop.Some? {
        RoundsFinished(Start(bingoBoards), bingoInputs, k + 1, getLast);
        return stop, bingoInputs[k], Some(boards[stop.value]);
      }
    }
    assert bingoInputs[..|bingoInputs|] == bingoInputs;
    return None, 0, None;
  }

  /** The round after visiting board `i`, from the state before the visit and the state after it. */
  lemma NextVisit(o: Outcome, n: int, i: nat, getLast: bool, cur: Game, next: Game)
    requires ValidOutcome(o) && i < |o.game.boards|
    requires Round(o, n, i, getLast) == Running(cur) && ValidGame(cur) && i < |cur.boards|
    requires next == Visit(cur, n, i)
    ensures Round(o, n, i + 1, getLast) ==
      if next.won[i] && !cur.won[i] && (!getLast || next.count == |next.boards|) then Finished(i, n, next)
      else Running(next)
  {
  }

  /** Once play has stopped, the remaining visits of a round change nothing. */
  lemma {:induction false} RoundFinished(o: Outcome, n: int, i: nat, j: nat, getLast: bool)
    requires ValidOutcome(o) && i <= j <= |o.game.boards|
    requires Round(o, n, i, getLast).Finished?
    ensures Round(o, n, j, getLast) == Round(o, n, i, getLast)
    decreases j
  {
    if j > i {
      RoundFinished(o, n, i, j - 1, getLast);
      var prev := Round(o, n, j - 1, getLast);
      assert prev.Finished?;
      assert Round(o, n, j, getLast) == Step(prev, n, j - 1, getLast) == prev;
    }
  }

  /** Once play has stopped, the remaining called numbers change nothing. */
  lemma {:induction false} RoundsFinished(o: Outcome, inputs: seq<int>, k: nat, getLast: bool)
    requires ValidOutcome(o) && k <= |inputs|
    requires Rounds(o, inputs[..k], getLast).Finished?
    ensures Rounds(o, inputs, getLast) == Rounds(o, inputs[..k], getLast)
    decreases |inputs|
  {
    if k < |inputs| {
      var front := inputs[..|inputs| - 1];
      assert front[..k] == inputs[..k];
      RoundsFinished(o, front, k, getLast);
      assert inputs[..|inputs|] == inputs;
      var prev := Rounds(o, front, getLast);
      RoundFinished(prev, inputs[|inputs| - 1], 0, |prev.game.boards|, getLast);
    } else {
      assert inputs[..k] == inputs;
    }
  }

  lemma {:induction false} WonBoardsFrozen(o: Outcome, inputs: seq<int>, getLast: bool, i: nat)
    requires ValidOutcome(o) && i < |o.game.boards| && o.game.won[i]
    ensures Rounds(o, inputs, getLast).game.won[i]
    ensures Rounds(o, inputs, getLast).game.boards[i] == o.game.boards[i]
    decreases |inputs|
  {
    if inputs != [] {
      var prev := Rounds(o, inputs[..|inputs| - 1], getLast);
      WonBoardsFrozen(o, inputs[..|inputs| - 1], getLast, i);
    }
  }

  /** Number of boards recorded as won. */
  function Wins(won: seq<bool>): (r: nat)
    ensures r <= |won|
  {
    if won == [] then 0 else Wins(won[..|won| - 1]) + (if won[|won| - 1] then 1 else 0)
  }

  lemma {:induction false} WinsRecord(won: seq<bool>, i: nat)
    requires i < |won| && !won[i]
    ensures Wins(won[i := true]) == Wins(won) + 1
    decreases |won|
  {
    var last := |won| - 1;
    assert won[i := true][..last] == if i < last then won[..last][i := true] else won[..last];
    if i < last {
      WinsRecord(won[..last], i);
    }
  }

  lemma {:induction false} WinsAll(won: seq<bool>)
    ensures Wins(won) == |won| <==> forall i :: 0 <= i < |won| ==> won[i]
    decreases |won|
  {
    if won != [] {
      var front := won[..|won| - 1];
      WinsAll(front);
      assert forall i :: 0 <= i < |front| ==> front[i] == won[i];
    }
  }

  lemma {:induction false} WinsNone(won: seq<bool>)
    ensures Wins(won) == 0 <==> forall i :: 0 <= i < |won| ==> !won[i]
    decreases |won|
  {
    if won != [] {
      var front := won[..|won| - 1];
      WinsNone(front);
      assert forall i :: 0 <= i < |front| ==> front[i] == won[i];
    }
  }

  /**
   * What every reachable state satisfies: `count` is the number of boards
   * recorded as won, and each of them has a full line; a running play has
   * no winner yet (first-winner play) or some board still to win
   * (last-winner play); a finished one stopped at a recorded winner.
   */
  predicate Inv(o: Outcome, getLast: bool)
    requires ValidOutcome(o)
  {
    var g := o.game;
    && g.count == Wins(g.won)
    && (forall i :: 0 <= i < |g.boards| && g.won[i] ==> Won(g.boards[i]))
    && (o.Running? ==> if getLast then g.count < |g.boards| || |g.boards| == 0 else g.count == 0)
    && (o.Finished? ==> o.winner < |g.boards| && g.won[o.winner] && g.count == if getLast then |g.boards| else 1)
  }

  lemma StepInv(o: Outcome, n: int, i: nat, getLast: bool)
    requires ValidOutcome(o) && i < |o.game.boards| && Inv(o, getLast)
    ensures Inv(Step(o, n, i, getLast), getLast)
  {
    if o.Running? {
      var g := Visit(o.game, n, i);
      if g.won[i] && !o.game.won[i] {
        WinsRecord(o.game.won, i);
        assert g.won == o.game.won[i := true];
      } else {
        assert g.won == o.game.won;
      }
    }
  }

  lemma {:induction false} RoundInv(o: Outcome, n: int, j: nat, getLast: bool)
    requires ValidOutcome(o) && j <= |o.game.boards| && Inv(o, getLast)
    ensures Inv(Round(o, n, j, getLast), getLast)
    decreases j
  {
    if j > 0 {
      var prev := Round(o, n, j - 1, getLast);
      RoundInv(o, n, j - 1, getLast);
      StepInv(prev, n, j - 1, getLast);
      assert Round(o, n, j, getLast) == Step(prev, n, j - 1, getLast);
    } else {
      assert Round(o, n, j, getLast) == o;
    }
  }

  lemma {:induction false} RoundsInv(o: Outcome, inputs: seq<int>, getLast: bool)
    requires ValidOutcome(o) && Inv(o, getLast)
    ensures Inv(Rounds(o, inputs, getLast), getLast)
    decreases |inputs|
  {
    if inputs != [] {
      RoundsInv(o, inputs[..|inputs| - 1], getLast);
      var prev := Rounds(o, inputs[..|inputs| - 1], getLast);
      RoundInv(prev, inputs[|inputs| - 1], |prev.game.boards|, getLast);
    }
  }

  /** The number a finished round stopped at is the number that round called. */
  lemma {:induction false} RoundStopsAtCall(o: Outcome, n: int, j: nat, getLast: bool)
    requires ValidOutcome(o) && j <= |o.game.boards| && o.Running?
    ensures Round(o, n, j, getLast).Finished? ==> Round(o, n, j, getLast).input == n
    decreases j
  {
    if j > 0 {
      RoundStopsAtCall(o, n, j - 1, getLast);
    }
  }

  lemma {:induction false} RoundsStopAtCall(o: Outcome, inputs: seq<int>, getLast: bool)
    requires ValidOutcome(o) && o.Running?
    ensures Rounds(o, inputs, getLast).Finished? ==> Rounds(o, inputs, getLast).input in inputs
    decreases |inputs|
  {
    if inputs != [] {
      var front := inputs[..|inputs| - 1];
      RoundsStopAtCall(o, front, getLast);
      var prev := Rounds(o, front, getLast);
      if prev.Running? {
        RoundStopsAtCall(prev, inputs[|inputs| - 1], |prev.game.boards|, getLast);
      } else {
        RoundFinished(prev, inputs[|inputs| - 1], 0, |prev.game.boards|, getLast);
        assert prev.input in front;
      }
    }
  }

  /**
   * First-winner play: it stops at the first board with a full line, which
   * is then the only board recorded as won, on a called number; when it
   * runs through every number, no board ever completed a line.
   */
  lemma FirstWinner(inputs: seq<int>, boards: seq<Board>)
    requires ValidBoards(boards)
    ensures var r := Rounds(Start(boards), inputs, false);
      && (r.Finished? ==>
            && r.winner < |boards| && Won(r.game.boards[r.winner]) && r.input in inputs
            && forall i :: 0 <= i < |boards| ==> (r.game.won[i] <==> i == r.winner))
      && (r.Running? ==> forall i :: 0 <= i < |boards| ==> !r.game.won[i])
  {
    var r := Rounds(Start(boards), inputs, false);
    assert Start(boards).game.won == seq(|boards|, _ => false);
    WinsNone(Start(boards).game.won);
    RoundsInv(Start(boards), inputs, false);
    RoundsStopAtCall(Start(boards), inputs, false);
    WinsNone(r.game.won);
    if r.Finished? {
      var others := r.game.won[r.winner := false];
      WinsRecord(others, r.winner);
      assert others[r.winner := true] == r.game.won;
      WinsNone(others);
      assert forall i :: 0 <= i < |boards| && i != r.winner ==> others[i] == r.game.won[i];
    }
  }

  /**
   * Last-winner play: it stops only once every board has won, at a board
   * with a full line, on a called number; when it runs through every
   * number, some board never won.
   */
  lemma LastWinner(inputs: seq<int>, boards: seq<Board>)
    requires ValidBoards(boards)
    ensures var r := Rounds(Start(boards), inputs, true);
      && (r.Finished? ==>
            && r.winner < |boards| && Won(r.game.boards[r.winner]) && r.input in inputs
            && forall i :: 0 <= i < |boards| ==> r.game.won[i])
      && (r.Running? && |boards| > 0 ==> exists i :: 0 <= i < |boards| && !r.game.won[i])
  {
    var r := Rounds(Start(boards), inputs, true);
    assert Start(boards).game.won == seq(|boards|, _ => false);
    WinsNone(Start(boards).game.won);
    RoundsInv(Start(boards), inputs, true);
    RoundsStopAtCall(Start(boards), inputs, true);
    WinsAll(r.game.won);
  }

  /** Number of marked (1) cells in a line. */
  function Ones(line: seq<int>): (r: nat)
    ensures r <= |line|
  {
    if line == [] then 0 else Ones(line[..|line| - 1]) + (if line[|line| - 1] == 1 then 1 else 0)
  }

  function Column(b: Board, y: nat): (col: seq<int>)
    requires ValidBoard(b) && y < 5
    ensures |col| == 5 && forall r :: 0 <= r < 5 ==> col[r] == b.val[r][y]
  {
    seq(5, r requires 0 <= r < 5 => b.val[r][y])
  }

  /** Every row and column sum is the number of marked cells in that line. */
  predicate Tallied(b: Board)
  {
    && ValidBoard(b)
    && (forall x :: 0 <= x < 5 ==> b.rowSum[x] == Ones(b.val[x]))
    && (forall y :: 0 <= y < 5 ==> b.colSum[y] == Ones(Column(b, y)))
  }

  lemma {:induction false} OnesMark(line: seq<int>, k: nat)
    requires k < |line| && line[k] != 1
    ensures Ones(line[k := 1]) == Ones(line) + 1
    decreases |line|
  {
    var last := |line| - 1;
    assert line[k := 1][..last] == if k < last then line[..last][k := 1] else line[..last];
    if k < last {
      OnesMark(line[..last], k);
    }
  }

  lemma {:induction false} OnesFull(line: seq<int>)
    ensures Ones(line) == |line| <==> forall i :: 0 <= i < |line| ==> line[i] == 1
    decreases |line|
  {
    if line != [] {
      var front := line[..|line| - 1];
      OnesFull(front);
      assert forall i :: 0 <= i < |front| ==> front[i] == line[i];
    }
  }

  lemma {:induction false} OnesZero(line: seq<int>)
    requires forall i :: 0 <= i < |line| ==> line[i] == 0
    ensures Ones(line) == 0
    decreases |line|
  {
    if line != [] {
      OnesZero(line[..|line| - 1]);
    }
  }

  lemma NewBoardTallied(pos: map<int, (nat, nat)>)
    requires forall n :: n in pos ==> pos[n].0 < 5 && pos[n].1 < 5
    ensures Tallied(NewBoard(pos))
  {
    var b := NewBoard(pos);
    forall x | 0 <= x < 5
      ensures b.rowSum[x] == Ones(b.val[x])
    {
      OnesZero(b.val[x]);
    }
    forall y | 0 <= y < 5
      ensures b.colSum[y] == Ones(Column(b, y))
    {
      OnesZero(Column(b, y));
    }
  }

  /** Marking a cell that was not marked yet keeps the sums a tally of the marks. */
  lemma MarkKeepsTally(b: Board, n: int)
    requires Tallied(b) && n in b.pos && b.val[b.pos[n].0][b.pos[n].1] != 1
    ensures Tallied(Mark(b, n))
  {
    var (x, y) := b.pos[n];
    var m := Mark(b, n);
    forall i | 0 <= i < 5
      ensures m.rowSum[i] == Ones(m.val[i])
    {
      if i == x {
        assert m.val[x] == b.val[x][y := 1];
        OnesMark(b.val[x], y);
      } else {
        assert m.val[i] == b.val[i];
      }
    }
    forall j | 0 <= j < 5
      ensures m.colSum[j] == Ones(Column(m, j))
    {
      if j == y {
        assert Column(m, y) == Column(b, y)[x := 1];
        OnesMark(Column(b, y), x);
      } else {
        assert Column(m, j) == Column(b, j);
      }
    }
  }

  predicate RowMarked(b: Board, x: nat)
    requires ValidBoard(b) && x < 5
  {
    forall c :: 0 <= c < 5 ==> b.val[x][c] == 1
  }

  predicate ColumnMarked(b: Board, y: nat)
    requires ValidBoard(b) && y < 5
  {
    forall r :: 0 <= r < 5 ==> b.val[r][y] == 1
  }

  /** On a tallied board, a win is exactly a fully marked row or column. */
  lemma TalliedWon(b: Board)
    requires Tallied(b)
    ensures Won(b) <==>
      || (exists x :: 0 <= x < 5 && RowMarked(b, x))
      || (exists y :: 0 <= y < 5 && ColumnMarked(b, y))
  {
    forall x | 0 <= x < 5
      ensures b.rowSum[x] == 5 <==> RowMarked(b, x)
    {
      OnesFull(b.val[x]);
    }
    forall y | 0 <= y < 5
      ensures b.colSum[y] == 5 <==> ColumnMarked(b, y)
    {
      OnesFull(Column(b, y));
    }
  }

  /**
   * The sums only tally marks when each number is called once: calling a
   * number whose cell is already marked adds to its row sum again, so the
   * row sum no longer counts the marks of the row.
   */
  lemma RepeatedCallOvercounts(b: Board, n: int)
    requires Tallied(b) && n in b.pos && b.val[b.pos[n].0][b.pos[n].1] == 1
    ensures Mark(b, n).val == b.val
    ensures Mark(b, n).rowSum[b.pos[n].0] == Ones(Mark(b, n).val[b.pos[n].0]) + 1
    ensures !Tallied(Mark(b, n))
  {
    var r := Mark(b, n);
    var x, y := b.pos[n].0, b.pos[n].1;
    forall i | 0 <= i < 5
      ensures r.val[i] == b.val[i]
    {
      assert forall j :: 0 <= j < 5 ==> r.val[i][j] == b.val[i][j];
    }
    assert r.rowSum[x] == b.rowSum[x] + 1;
  }

  lemma NonEmptyHasElement(s: set<int>)
    requires s != {}
    ensures exists k :: k in s
  {
    if forall k :: k !in s {
      assert false;
    }
  }

  /** An element of a non-empty finite set (which one does not matter). */
  ghost function Pick(s: set<int>): (k: int)
    requires s != {}
    ensures k in s
  {
    NonEmptyHasElement(s);
    var k :| k in s; k
  }

  /** The sum of a finite set of numbers; the order of the additions is irrelevant (SetSumRemove). */
  ghost function SetSum(s: set<int>): int
    decreases |s|
  {
    if s == {} then 0 else Pick(s) + SetSum(s - {Pick(s)})
  }

  lemma {:induction false} SetSumRemove(s: set<int>, k: int)
    requires k in s
    ensures SetSum(s) == k + SetSum(s - {k})
    decreases |s|
  {
    var j := Pick(s);
    if j != k {
      SetSumRemove(s - {j}, k);
      SetSumRemove(s - {k}, j);
      assert s - {j} - {k} == s - {k} - {j};
    }
  }

  /** The numbers among `keys` whose cell is not marked. */
  function UnmarkedIn(b: Board, keys: set<int>): set<int>
    requires ValidBoard(b)
  {
    set n | n in keys && n in b.pos && b.val[b.pos[n].0][b.pos[n].1] == 0
  }

  function Unmarked(b: Board): set<int>
    requires ValidBoard(b)
  {
    UnmarkedIn(b, b.pos.Keys)
  }

  lemma SetSumAdd(s: set<int>, k: int)
    requires k !in s
    ensures SetSum(s + {k}) == SetSum(s) + k
  {
    assert (s + {k}) - {k} == s;
    SetSumRemove(s + {k}, k);
  }

  /** Adding one number to the keys examined adds it to the unmarked ones exactly when its cell is 0. */
  lemma UnmarkedInAdd(b: Board, keys: set<int>, num: int)
    requires ValidBoard(b) && num in b.pos
    ensures UnmarkedIn(b, keys + {num}) ==
      if b.val[b.pos[num].0][b.pos[num].1] == 0 then UnmarkedIn(b, keys) + {num} else UnmarkedIn(b, keys)
  {
  }

  /** `get_sum_of_unmarked_number_in_board`: the numbers are visited in any order. */
  method SumOfUnmarked(b: Board) returns (sum: int)
    requires ValidBoard(b)
    ensures sum == SetSum(Unmarked(b))
  {
    sum := 0;
    var rest := b.pos.Keys;
    ghost var seen: set<int> := {};
    while rest != {}
      invariant rest + seen == b.pos.Keys && rest !! seen
      invariant sum == SetSum(UnmarkedIn(b, seen))
      decreases |rest|
    {
      NonEmptyHasElement(rest);
      var num :| num in rest;
      var (x, y) := b.pos[num];
      UnmarkedInAdd(b, seen, num);
      if b.val[x][y] == 0 {
        sum := sum + num;
        SetSumAdd(UnmarkedIn(b, seen), num);
      }
      rest := rest - {num};
      seen := seen + {num};
    }
  }

  /** No two numbers share a cell. */
  predicate Distinct(b: Board)
  {
    forall n, m :: n in b.pos && m in b.pos && n != m ==> b.pos[n] != b.pos[m]
  }

  /** A fresh board counts every one of its numbers as unmarked. */
  lemma NewBoardUnmarked(pos: map<int, (nat, nat)>)
    requires forall n :: n in pos ==> pos[n].0 < 5 && pos[n].1 < 5
    ensures Unmarked(NewBoard(pos)) == pos.Keys
  {
    var b := NewBoard(pos);
    forall n | n in pos
      ensures n in Unmarked(b)
    {
      assert b.val[pos[n].0][pos[n].1] == 0;
    }
  }

  /** Calling a number removes exactly that number from the unmarked ones, and from the score. */
  lemma MarkUnmarked(b: Board, n: int)
    requires ValidBoard(b) && Distinct(b) && n in b.pos
    ensures Unmarked(Mark(b, n)) == Unmarked(b) - {n}
    ensures SetSum(Unmarked(Mark(b, n))) == SetSum(Unmarked(b)) - if n in Unmarked(b) then n else 0
  {
    var m := Mark(b, n);
    forall k | k in b.pos && k != n
      ensures m.val[m.pos[k].0][m.pos[k].1] == b.val[b.pos[k].0][b.pos[k].1]
    {
    }
    assert Unmarked(m) == Unmarked(b) - {n};
    if n in Unmarked(b) {
      SetSumRemove(Unmarked(b), n);
    } else {
      assert Unmarked(b) - {n} == Unmarked(b);
    }
  }
}
