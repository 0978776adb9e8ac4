/**
 * Model of day10/src/main.rs: bracket lines checked with a stack. Each line
 * is corrupted (a closer that does not match), incomplete (openers left on
 * the stack) or complete; corrupted lines are scored by their illegal
 * character, incomplete lines by the closers that would complete them.
 * Signs are single characters; a sign that is no bracket makes the source
 * panic, which the model returns as `None`.
 */
module Brackets {
  import opened Wrappers

  predicate IsOpener(c: char)
  {
    c == '(' || c == '[' || c == '{' || c == '<'
  }

  predicate IsCloser(c: char)
  {
    c == ')' || c == ']' || c == '}' || c == '>'
  }

  /** Lines 33-39: the opener a closer expects on top of the stack. */
  function OpenerOf(c: char): (o: char)
    requires IsCloser(c)
    ensures IsOpener(o)
  {
    match c
    case ')' => '('
    case ']' => '['
    case '}' => '{'
    case '>' => '<'
  }

  /** Lines 97-101: the closer that completes an opener. */
  function CloserOf(o: char): (c: char)
    requires IsOpener(o)
    ensures IsCloser(c)
  {
    match o
    case '(' => ')'
    case '[' => ']'
    case '{' => '}'
    case '<' => '>'
  }

  /** Each closer completes exactly the opener it expects, and the other way round. */
  lemma OpenerCloserInverse(o: char, c: char)
    requires IsOpener(o) && IsCloser(c)
    ensures CloserOf(o) == c <==> OpenerOf(c) == o
    ensures OpenerOf(CloserOf(o)) == o && CloserOf(OpenerOf(c)) == c
  {
  }

  datatype LineStatus = Corrupted(illegal: char) | InCompleted(toComplete: seq<char>) | Completed

  datatype CorruptedLine = CorruptedLine(illegal: char)

  datatype IncompleteLine = IncompleteLine(completion: seq<char>)

  /** The file-local stack of lines 152-181: `new`, `pop`, `push` and `is_empty`. */
  class Stack<T> {
    var stack: seq<T>

    constructor ()
      ensures stack == []
    {
      stack := [];
    }

    method Pop() returns (r: Option<T>)
      modifies this
      ensures old(stack) == [] ==> r == None && stack == []
      ensures old(stack) != [] ==> r == Some(old(stack)[|old(stack)| - 1])
                                   && stack == old(stack)[..|old(stack)| - 1]
    {
      if stack == [] {
        r := None;
      } else {
        r := Some(stack[|stack| - 1]);
        stack := stack[..|stack| - 1];
      }
    }

    method Push(item: T)
      modifies this
      ensures stack == old(stack) + [item]
    {
      stack := stack + [item];
    }

    function IsEmpty(): (b: bool)
      reads this
      ensures b <==> |stack| == 0
    {
      stack == []
    }
  }

  // ---------------------------------------------------------------------
  // The line scan and a reference reading of it
  // ---------------------------------------------------------------------

  /** The status of a line whose signs were all accepted, from its final stack. */
  function Finish(st: seq<char>): LineStatus
  {
    if st == [] then Completed else InCompleted(st)
  }

  /**
   * The inner loop of lines 29-58 on the signs still to read, with the
   * stack `st` built so far: openers are pushed, a closer pops and stops the
   * line as corrupted unless the popped sign is its opener, any other sign
   * panics (`None`).
   */
  function Scan(line: seq<char>, st: seq<char>): Option<LineStatus>
    decreases |line|
  {
    if line == [] then Some(Finish(st))
    else if IsOpener(line[0]) then Scan(line[1..], st + [line[0]])
    else if IsCloser(line[0]) then
      if st != [] && st[|st| - 1] == OpenerOf(line[0]) then Scan(line[1..], st[..|st| - 1])
      else Some(Corrupted(line[0]))
    else None
  }

  /** One accepted sign as a stack transition; `None` when the sign is not accepted. */
  function Step(st: seq<char>, c: char): Option<seq<char>>
  {
    if IsOpener(c) then Some(st + [c])
    else if IsCloser(c) && st != [] && st[|st| - 1] == OpenerOf(c) then Some(st[..|st| - 1])
    else None
  }

  /** The stack after accepting every sign of `s` in turn, or `None` if one is not accepted. */
  function Fold(st: seq<char>, s: seq<char>): Option<seq<char>>
    decreases |s|
  {
    if s == [] then Some(st)
    else match Step(st, s[0])
      case None => None
      case Some(st') => Fold(st', s[1..])
  }

  /** The closer at `i` is the first sign not accepted: every sign before it was. */
  predicate MismatchAt(st: seq<char>, line: seq<char>, i: int)
  {
    0 <= i < |line| && Fold(st, line[..i]).Some? && IsCloser(line[i]) && Step(Fold(st, line[..i]).value, line[i]).None?
  }

  /** The line stops as corrupted by `c`: some closer `c` is the first sign not accepted. */
  predicate CorruptsWith(st: seq<char>, line: seq<char>, c: char)
  {
    exists i :: 0 <= i < |line| && MismatchAt(st, line, i) && line[i] == c
  }

  /** The sign at `i`, reached with every earlier sign accepted, is no bracket. */
  predicate UnknownAt(st: seq<char>, line: seq<char>, i: int)
  {
    0 <= i < |line| && Fold(st, line[..i]).Some? && !IsOpener(line[i]) && !IsCloser(line[i])
  }

  lemma FoldPrefix(st: seq<char>, line: seq<char>, i: int)
    requires 0 < i <= |line| && Step(st, line[0]).Some?
    ensures Fold(st, line[..i]) == Fold(Step(st, line[0]).value, line[1..][..i - 1])
  {
    assert line[..i][0] == line[0];
    assert line[..i][1..] == line[1..][..i - 1];
  }

  /**
   * What the scan reports, read off the reference transition: complete iff
   * the signs leave an empty stack, incomplete with exactly the stack they
   * leave otherwise, corrupted with `c` iff `c` is the first closer the
   * stack does not accept, and a panic iff an unknown sign comes first.
   */
  lemma {:induction false} ScanSpec(line: seq<char>, st: seq<char>)
    ensures Scan(line, st) == Some(Completed) <==> Fold(st, line) == Some([])
    ensures forall o :: Scan(line, st) == Some(InCompleted(o)) <==> o != [] && Fold(st, line) == Some(o)
    ensures forall c :: Scan(line, st) == Some(Corrupted(c)) <==> CorruptsWith(st, line, c)
    ensures Scan(line, st) == None <==> exists i :: UnknownAt(st, line, i)
    decreases |line|
  {
    if line == [] {
      assert forall i :: !MismatchAt(st, line, i) && !UnknownAt(st, line, i);
    } else if Step(st, line[0]).None? {
      assert line[..0] == [];
      assert Fold(st, line).None?;
      forall i | 0 < i <= |line|
        ensures Fold(st, line[..i]).None?
      {
        assert line[..i][0] == line[0];
      }
      if IsCloser(line[0]) {
        assert MismatchAt(st, line, 0);
      } else {
        assert UnknownAt(st, line, 0);
      }
    } else {
      var st' := Step(st, line[0]).value;
      var rest := line[1..];
      ScanSpec(rest, st');
      assert Scan(line, st) == Scan(rest, st');
      assert Fold(st, line) == Fold(st', rest);
      assert line[..0] == [];
      assert !MismatchAt(st, line, 0) && !UnknownAt(st, line, 0);
      forall i | 0 < i <= |line|
        ensures Fold(st, line[..i]) == Fold(st', rest[..i - 1])
      {
        FoldPrefix(st, line, i);
      }
      forall i | 0 < i < |line|
        ensures MismatchAt(st, line, i) <==> MismatchAt(st', rest, i - 1)
        ensures UnknownAt(st, line, i) <==> UnknownAt(st', rest, i - 1)
      {
        assert line[i] == rest[i - 1];
      }
      forall c
        ensures CorruptsWith(st, line, c) <==> CorruptsWith(st', rest, c)
      {
        if CorruptsWith(st, line, c) {
          var i :| 0 <= i < |line| && MismatchAt(st, line, i) && line[i] == c;
          assert MismatchAt(st', rest, i - 1) && rest[i - 1] == c;
        }
        if CorruptsWith(st', rest, c) {
          var i :| 0 <= i < |rest| && MismatchAt(st', rest, i) && rest[i] == c;
          assert MismatchAt(st, line, i + 1) && line[i + 1] == c;
        }
      }
      if exists i :: UnknownAt(st, line, i) {
        var i :| UnknownAt(st, line, i);
        assert UnknownAt(st', rest, i - 1);
      }
      if exists i :: UnknownAt(st', rest, i) {
        var i :| UnknownAt(st', rest, i);
        assert UnknownAt(st, line, i + 1);
      }
    }
  }

  /** Signs that are all accepted can be skipped: the scan goes on from the stack they leave. */
  lemma {:induction false} ScanAfter(s: seq<char>, t: seq<char>, st: seq<char>)
    requires Fold(st, s).Some?
    ensures Scan(s + t, st) == Scan(t, Fold(st, s).value)
    decreases |s|
  {
    if s != [] {
      assert (s + t)[0] == s[0] && (s + t)[1..] == s[1..] + t;
      var st' := Step(st, s[0]).value;
      assert Fold(st, s) == Fold(st', s[1..]);
      assert Scan(s + t, st) == Scan(s[1..] + t, st');
      ScanAfter(s[1..], t, st');
    } else {
      assert s + t == t;
    }
  }

  /** A stack built from openers only holds openers. */
  lemma {:induction false} ScanKeepsOpeners(line: seq<char>, st: seq<char>)
    requires forall k :: 0 <= k < |st| ==> IsOpener(st[k])
    ensures Scan(line, st).Some? && Scan(line, st).value.InCompleted? ==>
      forall k :: 0 <= k < |Scan(line, st).value.toComplete| ==> IsOpener(Scan(line, st).value.toComplete[k])
    decreases |line|
  {
    if line != [] {
      if IsOpener(line[0]) {
        ScanKeepsOpeners(line[1..], st + [line[0]]);
      } else if IsCloser(line[0]) && st != [] && st[|st| - 1] == OpenerOf(line[0]) {
        ScanKeepsOpeners(line[1..], st[..|st| - 1]);
      }
    }
  }

  // ---------------------------------------------------------------------
  // get_line_states
  // ---------------------------------------------------------------------

  /** The statuses of all lines in input order, or `None` when some line panics. */
  function LineStates(signChunks: seq<seq<char>>): Option<seq<LineStatus>>
  {
    if exists i :: 0 <= i < |signChunks| && Scan(signChunks[i], []) == None then None
    else Some(seq(|signChunks|, i requires 0 <= i < |signChunks| => Scan(signChunks[i], []).value))
  }

  /** Lines 27-67, for one line: scan it with a fresh stack. */
  method GetLineState(signLine: seq<char>) returns (status: Option<LineStatus>)
    ensures status == Scan(signLine, [])
  {
    var stack := new Stack<char>();
    var isCorrupted := false;
    var j := 0;
    while j < |signLine|
      invariant 0 <= j <= |signLine|
      invariant Scan(signLine, []) == Scan(signLine[j..], stack.stack)
      decreases |signLine| - j
    {
      var sign := signLine[j];
      assert signLine[j..][0] == sign && signLine[j..][1..] == signLine[j + 1..];
      if IsOpener(sign) {
        stack.Push(sign);
      } else if IsCloser(sign) {
        var expectedSign := OpenerOf(sign);
        var top := stack.Pop();
        if !(top.Some? && top.value == expectedSign) {
          status := Some(Corrupted(sign));
          isCorrupted := true;
          break;
        }
      } else {
        return None;
      }
      j := j + 1;
    }
    if !isCorrupted {
      if stack.IsEmpty() {
        status := Some(Completed);
      } else {
        status := Some(InCompleted(stack.stack));
      }
    }
  }

  /** `get_line_states` (lines 24-70): one status per line, in input order. */
  method GetLineStates(signChunks: seq<seq<char>>) returns (lineStates: Option<seq<LineStatus>>)
    ensures lineStates == LineStates(signChunks)
  {
    var states := [];
    for i := 0 to |signChunks|
      invariant |states| == i
      invariant forall j :: 0 <= j < i ==> Scan(signChunks[j], []) == Some(states[j])
    {
      var status := GetLineState(signChunks[i]);
      if status == None {
        return None;
      }
      states := states + [status.value];
    }
    assert states == seq(|signChunks|, i requires 0 <= i < |signChunks| => Scan(signChunks[i], []).value);
    lineStates := Some(states);
  }

  /** One status per line, each the scan of that line. */
  lemma LineStatesExact(signChunks: seq<seq<char>>)
    ensures LineStates(signChunks).None? <==> exists i :: 0 <= i < |signChunks| && Scan(signChunks[i], []).None?
    ensures LineStates(signChunks).Some? ==>
      |LineStates(signChunks).value| == |signChunks|
      && forall i :: 0 <= i < |signChunks| ==> Some(LineStates(signChunks).value[i]) == Scan(signChunks[i], [])
  {
  }

  // ---------------------------------------------------------------------
  // get_corrupted_lines and the illegal-character points
  // ---------------------------------------------------------------------

  function CorruptedOf(status: LineStatus): seq<CorruptedLine>
  {
    if status.Corrupted? then [CorruptedLine(status.illegal)] else []
  }

  /** The corrupted statuses, in order. */
  function Corrupteds(states: seq<LineStatus>): (r: seq<CorruptedLine>)
    ensures |r| <= |states|
  {
    if states == [] then [] else Corrupteds(states[..|states| - 1]) + CorruptedOf(states[|states| - 1])
  }

  /** Filtering distributes over concatenation. */
  lemma {:induction false} CorruptedsAppend(a: seq<LineStatus>, b: seq<LineStatus>)
    ensures Corrupteds(a + b) == Corrupteds(a) + Corrupteds(b)
    decreases |b|
  {
    if b != [] {
      assert (a + b)[..|a + b| - 1] == a + b[..|b| - 1];
      CorruptedsAppend(a, b[..|b| - 1]);
    } else {
      assert a + b == a;
    }
  }

  /** Every reported illegal character is that of some corrupted line, and is a closer when it came from the scan. */
  lemma {:induction false} CorruptedsSound(states: seq<LineStatus>)
    ensures forall k :: 0 <= k < |Corrupteds(states)| ==>
      exists i :: 0 <= i < |states| && states[i] == Corrupted(Corrupteds(states)[k].illegal)
    decreases |states|
  {
    if states != [] {
      var front := states[..|states| - 1];
      CorruptedsSound(front);
      assert Corrupteds(states) == Corrupteds(front) + CorruptedOf(states[|states| - 1]);
      forall k | 0 <= k < |Corrupteds(states)|
        ensures exists i :: 0 <= i < |states| && states[i] == Corrupted(Corrupteds(states)[k].illegal)
      {
        if k < |Corrupteds(front)| {
          var i :| 0 <= i < |front| && front[i] == Corrupted(Corrupteds(front)[k].illegal);
          assert states[i] == front[i];
        } else {
          var last := states[|states| - 1];
          assert CorruptedOf(last) != [] && Corrupteds(states)[k] == CorruptedOf(last)[0];
          assert last == Corrupted(Corrupteds(states)[k].illegal);
        }
      }
    } else {
      assert Corrupteds(states) == [];
    }
  }

  /** A scan stops as corrupted only at a closer. */
  lemma {:induction false} ScanCorruptedIsCloser(line: seq<char>, st: seq<char>)
    ensures Scan(line, st).Some? && Scan(line, st).value.Corrupted? ==> IsCloser(Scan(line, st).value.illegal)
    decreases |line|
  {
    if line != [] {
      if IsOpener(line[0]) {
        ScanCorruptedIsCloser(line[1..], st + [line[0]]);
      } else if IsCloser(line[0]) && st != [] && st[|st| - 1] == OpenerOf(line[0]) {
        ScanCorruptedIsCloser(line[1..], st[..|st| - 1]);
      }
    }
  }

  /** `get_corrupted_lines` (lines 72-83): the illegal character of every corrupted line, in order. */
  method GetCorruptedLines(signChunks: seq<seq<char>>) returns (corruptedLines: Option<seq<CorruptedLine>>)
    ensures LineStates(signChunks).None? ==> corruptedLines.None?
    ensures LineStates(signChunks).Some? ==> corruptedLines == Some(Corrupteds(LineStates(signChunks).value))
  {
    var lineStates := GetLineStates(signChunks);
    if lineStates == None {
      return None;
    }
    var states := lineStates.value;
    var lines: seq<CorruptedLine> := [];
    for i := 0 to |states|
      invariant lines == Corrupteds(states[..i])
    {
      assert states[..i + 1][..i] == states[..i];
      if states[i].Corrupted? {
        lines := lines + [CorruptedLine(states[i].illegal)];
      }
    }
    assert states[..|states|] == states;
    corruptedLines := Some(lines);
  }

  /** Lines 118-124: the points of one illegal character. */
  function Points(c: char): (n: int)
    ensures IsCloser(c) ==> n > 0
    ensures !IsCloser(c) ==> n == 0
  {
    match c
    case ')' => 3
    case ']' => 57
    case '}' => 1197
    case '>' => 25137
    case _ => 0
  }

  /** The points of all lines, first line first. */
  function TotalOf(lines: seq<CorruptedLine>): int
    decreases |lines|
  {
    if lines == [] then 0 else Points(lines[0].illegal) + TotalOf(lines[1..])
  }

  /** The total is bounded by the cheapest and the dearest closer. */
  lemma {:induction false} TotalOfBounds(lines: seq<CorruptedLine>)
    requires forall k :: 0 <= k < |lines| ==> IsCloser(lines[k].illegal)
    ensures 3 * |lines| <= TotalOf(lines) <= 25137 * |lines|
    decreases |lines|
  {
    if lines != [] {
      TotalOfBounds(lines[1..]);
    }
  }

  /** The total is additive over the lines. */
  lemma {:induction false} TotalOfAppend(a: seq<CorruptedLine>, b: seq<CorruptedLine>)
    ensures TotalOf(a + b) == TotalOf(a) + TotalOf(b)
    decreases |a|
  {
    if a != [] {
      assert (a + b)[0] == a[0] && (a + b)[1..] == a[1..] + b;
      TotalOfAppend(a[1..], b);
    } else {
      assert a + b == b;
    }
  }

  /** `get_total_points_of_illegal_characters` (lines 115-128). */
  method GetTotalPoints(corruptedLines: seq<CorruptedLine>) returns (total: int)
    ensures total == TotalOf(corruptedLines)
  {
    total := 0;
    for i := 0 to |corruptedLines|
      invariant total + TotalOf(corruptedLines[i..]) == TotalOf(corruptedLines)
    {
      assert corruptedLines[i..][1..] == corruptedLines[i + 1..];
      total := total + Points(corruptedLines[i].illegal);
    }
  }

  // ---------------------------------------------------------------------
  // get_incompleted_lines and the completion scores
  // ---------------------------------------------------------------------

  /** The closers of the stacked openers, innermost (top of the stack) first. */
  function CompletionOf(st: seq<char>): seq<char>
    requires forall k :: 0 <= k < |st| ==> IsOpener(st[k])
  {
    if st == [] then [] else [CloserOf(st[|st| - 1])] + CompletionOf(st[..|st| - 1])
  }

  /** One closer per opener, in reverse stack order. */
  lemma {:induction false} CompletionShape(st: seq<char>)
    requires forall k :: 0 <= k < |st| ==> IsOpener(st[k])
    ensures |CompletionOf(st)| == |st|
    ensures forall i :: 0 <= i < |st| ==> CompletionOf(st)[i] == CloserOf(st[|st| - 1 - i])
    decreases |st|
  {
    if st != [] {
      CompletionShape(st[..|st| - 1]);
    }
  }

  /** Reading the completion after the openers empties the stack. */
  lemma {:induction false} CompletionCloses(st: seq<char>)
    requires forall k :: 0 <= k < |st| ==> IsOpener(st[k])
    ensures Scan(CompletionOf(st), st) == Some(Completed)
    decreases |st|
  {
    if st != [] {
      var c := CloserOf(st[|st| - 1]);
      OpenerCloserInverse(st[|st| - 1], c);
      assert CompletionOf(st)[0] == c && CompletionOf(st)[1..] == CompletionOf(st[..|st| - 1]);
      CompletionCloses(st[..|st| - 1]);
    }
  }

  /** Appending its completion string to an incomplete line makes it complete. */
  lemma CompletionCompletes(line: seq<char>, o: seq<char>)
    requires Scan(line, []) == Some(InCompleted(o))
    ensures forall k :: 0 <= k < |o| ==> IsOpener(o[k])
    ensures Scan(line + CompletionOf(o), []) == Some(Completed)
  {
    ScanKeepsOpeners(line, []);
    ScanSpec(line, []);
    ScanAfter(line, CompletionOf(o), []);
    CompletionCloses(o);
  }

  function IncompleteOf(status: LineStatus): seq<seq<char>>
  {
    if status.InCompleted? then [status.toComplete] else []
  }

  /** The incomplete statuses' stacks, in order. */
  function Incompletes(states: seq<LineStatus>): (r: seq<seq<char>>)
    ensures |r| <= |states|
  {
    if states == [] then [] else Incompletes(states[..|states| - 1]) + IncompleteOf(states[|states| - 1])
  }

  /** Every incomplete status carries a stack of openers. */
  predicate OpenerStacks(states: seq<LineStatus>)
  {
    forall i :: 0 <= i < |states| && states[i].InCompleted? ==>
      forall j :: 0 <= j < |states[i].toComplete| ==> IsOpener(states[i].toComplete[j])
  }

  /** The statuses of the scans carry opener stacks only. */
  lemma ScansHaveOpenerStacks(signChunks: seq<seq<char>>, states: seq<LineStatus>)
    requires LineStates(signChunks) == Some(states)
    ensures OpenerStacks(states)
  {
    forall i | 0 <= i < |states|
      ensures states[i].InCompleted? ==> forall j :: 0 <= j < |states[i].toComplete| ==> IsOpener(states[i].toComplete[j])
    {
      ScanKeepsOpeners(signChunks[i], []);
    }
  }

  lemma IncompletesOpeners(states: seq<LineStatus>)
    requires OpenerStacks(states)
    ensures AllOpeners(Incompletes(states))
  {
    IncompletesFrom(states);
  }

  /** Every stack in the list holds openers only. */
  predicate AllOpeners(os: seq<seq<char>>)
  {
    forall k, j :: 0 <= k < |os| && 0 <= j < |os[k]| ==> IsOpener(os[k][j])
  }

  /** The completion lines of a list of opener stacks. */
  function Completions(os: seq<seq<char>>): (r: seq<IncompleteLine>)
    requires AllOpeners(os)
  {
    seq(|os|, k requires 0 <= k < |os| => IncompleteLine(CompletionOf(os[k])))
  }

  lemma {:induction false} IncompletesFrom(states: seq<LineStatus>)
    ensures forall k :: 0 <= k < |Incompletes(states)| ==>
      exists i :: 0 <= i < |states| && states[i] == InCompleted(Incompletes(states)[k])
    decreases |states|
  {
    if states != [] {
      var front := states[..|states| - 1];
      IncompletesFrom(front);
      assert Incompletes(states) == Incompletes(front) + IncompleteOf(states[|states| - 1]);
      forall k | 0 <= k < |Incompletes(states)|
        ensures exists i :: 0 <= i < |states| && states[i] == InCompleted(Incompletes(states)[k])
      {
        if k < |Incompletes(front)| {
          var i :| 0 <= i < |front| && front[i] == InCompleted(Incompletes(front)[k]);
          assert states[i] == front[i];
        } else {
          var last := states[|states| - 1];
          assert IncompleteOf(last) != [] && Incompletes(states)[k] == IncompleteOf(last)[0];
          assert last == InCompleted(Incompletes(states)[k]);
        }
      }
    } else {
      assert Incompletes(states) == [];
    }
  }

  /**
   * Lines 94-104: pop the stack until it is empty, mapping each opener to
   * its closer. A non-opener on the stack would panic; the stack of a scan
   * holds openers only, so that branch is dead.
   */
  method Complete(toComplete: seq<char>) returns (v: seq<char>)
    requires forall k :: 0 <= k < |toComplete| ==> IsOpener(toComplete[k])
    ensures v == CompletionOf(toComplete)
  {
    var stack := toComplete;
    v := [];
    while stack != []
      invariant forall k :: 0 <= k < |stack| ==> IsOpener(stack[k])
      invariant v + CompletionOf(stack) == CompletionOf(toComplete)
      decreases |stack|
    {
      var top := stack[|stack| - 1];
      stack := stack[..|stack| - 1];
      v := v + [CloserOf(top)];
    }
  }

  /** `get_incompleted_lines` (lines 85-113): the completion string of every incomplete line, in order. */
  method GetIncompletedLines(signChunks: seq<seq<char>>) returns (incompletedLines: Option<seq<IncompleteLine>>)
    ensures LineStates(signChunks).None? ==> incompletedLines.None?
    ensures LineStates(signChunks).Some? ==>
      && AllOpeners(Incompletes(LineStates(signChunks).value))
      && incompletedLines == Some(Completions(Incompletes(LineStates(signChunks).value)))
  {
    var lineStates := GetLineStates(signChunks);
    if lineStates == None {
      return None;
    }
    ScansHaveOpenerStacks(signChunks, lineStates.value);
    var lines := CompleteLines(lineStates.value);
    incompletedLines := Some(lines);
  }

  /** The loop of `get_incompleted_lines`: a completion line for each incomplete status, in order. */
  method CompleteLines(states: seq<LineStatus>) returns (lines: seq<IncompleteLine>)
    requires OpenerStacks(states)
    ensures AllOpeners(Incompletes(states))
    ensures lines == Completions(Incompletes(states))
  {
    lines := [];
    for i := 0 to |states|
      invariant AllOpeners(Incompletes(states[..i]))
      invariant lines == Completions(Incompletes(states[..i]))
    {
      var before := Incompletes(states[..i]);
      IncompletesNext(states, i);
      if states[i].InCompleted? {
        assert Incompletes(states[..i + 1]) == before + [states[i].toComplete];
        var v := Complete(states[i].toComplete);
        lines := lines + [IncompleteLine(v)];
        assert Completions(before + [states[i].toComplete]) == Completions(before) + [IncompleteLine(v)];
      }
    }
    assert states[..|states|] == states;
  }

  lemma IncompletesNext(states: seq<LineStatus>, i: nat)
    requires OpenerStacks(states) && i < |states|
    ensures Incompletes(states[..i + 1]) == Incompletes(states[..i]) + IncompleteOf(states[i])
    ensures AllOpeners(Incompletes(states[..i + 1]))
  {
    assert states[..i + 1][..i] == states[..i];
    assert OpenerStacks(states[..i + 1]);
    IncompletesOpeners(states[..i + 1]);
  }

  lemma {:induction false} IncompletesAppend(a: seq<LineStatus>, b: seq<LineStatus>)
    ensures Incompletes(a + b) == Incompletes(a) + Incompletes(b)
    decreases |b|
  {
    if b != [] {
      assert (a + b)[..|a + b| - 1] == a + b[..|b| - 1];
      IncompletesAppend(a, b[..|b| - 1]);
    } else {
      assert a + b == a;
    }
  }

  /** Lines 137-143: the score digit of a closer. */
  function Digit(c: char): (d: int)
    ensures IsCloser(c) ==> 1 <= d <= 4
    ensures !IsCloser(c) ==> d == 0
  {
    match c
    case ')' => 1
    case ']' => 2
    case '}' => 3
    case '>' => 4
    case _ => 0
  }

  /** The completion score: the closers read as base-5 digits, first closer most significant. */
  function Score(s: seq<char>): int
  {
    if s == [] then 0 else 5 * Score(s[..|s| - 1]) + Digit(s[|s| - 1])
  }

  /** The loop's reading of the score: digits folded in from the left onto `acc`. */
  function ScoreFrom(acc: int, s: seq<char>): int
    decreases |s|
  {
    if s == [] then acc else ScoreFrom(5 * acc + Digit(s[0]), s[1..])
  }

  function Pow5(n: nat): (r: int)
    ensures r >= 1
  {
    if n == 0 then 1 else 5 * Pow5(n - 1)
  }

  /** A closer string scores at least `(5^n - 1) / 4` and below `5^n`: no two lengths overlap. */
  lemma {:induction false} ScoreBounds(s: seq<char>)
    requires forall k :: 0 <= k < |s| ==> IsCloser(s[k])
    ensures Pow5(|s|) <= 4 * Score(s) + 1 && Score(s) < Pow5(|s|)
    decreases |s|
  {
    if s != [] {
      ScoreBounds(s[..|s| - 1]);
    }
  }

  /** Folding from the left onto `acc` shifts `acc` by one base-5 digit per closer and adds the score. */
  lemma {:induction false} ScoreFromShifts(acc: int, s: seq<char>)
    ensures ScoreFrom(acc, s) == acc * Pow5(|s|) + Score(s)
    decreases |s|
  {
    if s != [] {
      var d, p := Digit(s[0]), Pow5(|s| - 1);
      ScoreFromShifts(5 * acc + d, s[1..]);
      ScoreFront(s);
      assert ScoreFrom(acc, s) == (5 * acc + d) * p + Score(s[1..]);
      assert Pow5(|s|) == 5 * p;
      ShiftDigit(acc, d, p);
    }
  }

  lemma ShiftDigit(acc: int, d: int, p: int)
    ensures (5 * acc + d) * p == acc * (5 * p) + d * p
  {
  }

  /** The first closer is the most significant digit. */
  lemma {:induction false} ScoreFront(s: seq<char>)
    requires s != []
    ensures Score(s) == Digit(s[0]) * Pow5(|s| - 1) + Score(s[1..])
    decreases |s|
  {
    if |s| > 1 {
      var front := s[..|s| - 1];
      ScoreFront(front);
      assert front[0] == s[0] && front[1..] == s[1..][..|s| - 2];
    } else {
      assert s[1..] == [] && s[..0] == [];
    }
  }

  /** The score determines the completion string: different closer strings score differently. */
  lemma {:induction false} ScoreInjective(s: seq<char>, t: seq<char>)
    requires forall k :: 0 <= k < |s| ==> IsCloser(s[k])
    requires forall k :: 0 <= k < |t| ==> IsCloser(t[k])
    requires Score(s) == Score(t)
    ensures s == t
    decreases |s|
  {
    if s == [] || t == [] {
      if s != [] {
        ScoreBounds(s);
      }
      if t != [] {
        ScoreBounds(t);
      }
    } else {
      var ds, dt := Digit(s[|s| - 1]), Digit(t[|t| - 1]);
      var fs, ft := Score(s[..|s| - 1]), Score(t[..|t| - 1]);
      assert 5 * fs + ds == 5 * ft + dt;
      assert ds == dt && fs == ft;
      ScoreInjective(s[..|s| - 1], t[..|t| - 1]);
      assert s[|s| - 1] == t[|t| - 1];
      assert s == s[..|s| - 1] + [s[|s| - 1]];
      assert t == t[..|t| - 1] + [t[|t| - 1]];
    }
  }

  /** `get_completion_string_scores` (lines 130-150): one score per line, in order. */
  method GetCompletionStringScores(incompletedLines: seq<IncompleteLine>) returns (scores: seq<int>)
    ensures |scores| == |incompletedLines|
    ensures forall i :: 0 <= i < |scores| ==> scores[i] == Score(incompletedLines[i].completion)
  {
    scores := [];
    for i := 0 to |incompletedLines|
      invariant |scores| == i
      invariant forall j :: 0 <= j < i ==> scores[j] == Score(incompletedLines[j].completion)
    {
      var s := incompletedLines[i].completion;
      var count := 0;
      for j := 0 to |s|
        invariant count == Score(s[..j])
      {
        assert s[..j + 1][..j] == s[..j];
        count := count * 5;
        count := count + Digit(s[j]);
      }
      assert s[..|s|] == s;
      scores := scores + [count];
    }
  }

  // ---------------------------------------------------------------------
  // Test oracles of lines 212-272 on the outputs they list
  // ---------------------------------------------------------------------

  /** Lines 220-227: the five illegal characters score 26397 points in total. */
  method SampleTotalPoints() returns (total: int)
    ensures total == 26397
  {
    total := GetTotalPoints([CorruptedLine('}'), CorruptedLine(')'), CorruptedLine(']'), CorruptedLine(')'), CorruptedLine('>')]);
  }

  /** Lines 240 and 261: the first completion string scores 288957, the median the puzzle reports. */
  lemma SampleScore()
    ensures Score("}}]])})]") == 288957
  {
    var s := "}}]])})]";
    assert ScoreFrom(57791, "]") == 288957;
    assert ScoreFrom(11558, ")]") == 288957;
    assert ScoreFrom(2311, "})]") == 288957;
    assert ScoreFrom(462, ")})]") == 288957;
    assert ScoreFrom(92, "])})]") == 288957;
    assert ScoreFrom(18, "]])})]") == 288957;
    assert ScoreFrom(3, "}]])})]") == 288957;
    assert ScoreFrom(0, s) == 288957;
    ScoreFromShifts(0, s);
  }

  /** Lines 244 and 262: the completion string `)}>]})` scores 5566. */
  lemma SampleSecondScore()
    ensures Score(")}>]})") == 5566
  {
    assert ScoreFrom(1113, ")") == 5566;
    assert ScoreFrom(222, "})") == 5566;
    assert ScoreFrom(44, "]})") == 5566;
    assert ScoreFrom(8, ">]})") == 5566;
    assert ScoreFrom(1, "}>]})") == 5566;
    assert ScoreFrom(0, ")}>]})") == 5566;
    ScoreFromShifts(0, ")}>]})");
  }

  /** The last five closers of the third completion string, read onto the score of its first four. */
  lemma SampleThirdTail()
    ensures ScoreFrom(473, ">))))") == 1480781
  {
    assert ScoreFrom(296156, ")") == 1480781;
    assert ScoreFrom(59231, "))") == 1480781;
    assert ScoreFrom(11846, ")))") == 1480781;
    assert ScoreFrom(2369, "))))") == 1480781;
  }

  /** Lines 248 and 263: the completion string `}}>}>))))` scores 1480781. */
  lemma SampleThirdScore()
    ensures Score("}}>}>))))") == 1480781
  {
    SampleThirdTail();
    assert ScoreFrom(94, "}>))))") == 1480781;
    assert ScoreFrom(18, ">}>))))") == 1480781;
    assert ScoreFrom(3, "}>}>))))") == 1480781;
    assert ScoreFrom(0, "}}>}>))))") == 1480781;
    ScoreFromShifts(0, "}}>}>))))");
  }

  /** Lines 252 and 264: the completion string `]]}}]}]}>` scores 995444. */
  lemma SampleFourthScore()
    ensures Score("]]}}]}]}>") == 995444
  {
    assert ScoreFrom(199088, ">") == 995444;
    assert ScoreFrom(39817, "}>") == 995444;
    assert ScoreFrom(7963, "]}>") == 995444;
    assert ScoreFrom(1592, "}]}>") == 995444;
    assert ScoreFrom(318, "]}]}>") == 995444;
    assert ScoreFrom(63, "}]}]}>") == 995444;
    assert ScoreFrom(12, "}}]}]}>") == 995444;
    assert ScoreFrom(2, "]}}]}]}>") == 995444;
    assert ScoreFrom(0, "]]}}]}]}>") == 995444;
    ScoreFromShifts(0, "]]}}]}]}>");
  }

  /** Lines 256 and 265: the completion string `])}>` scores 294. */
  lemma SampleFifthScore()
    ensures Score("])}>") == 294
  {
    assert ScoreFrom(58, ">") == 294;
    assert ScoreFrom(11, "}>") == 294;
    assert ScoreFrom(2, ")}>") == 294;
    assert ScoreFrom(0, "])}>") == 294;
    ScoreFromShifts(0, "])}>");
  }

  /** Lines 237-265: the five completion strings of the test score 288957, 5566, 1480781, 995444 and 294, in order. */
  method SampleCompletionScores() returns (scores: seq<int>)
    ensures scores == [288957, 5566, 1480781, 995444, 294]
  {
    var lines := [IncompleteLine("}}]])})]"), IncompleteLine(")}>]})"), IncompleteLine("}}>}>))))"),
                  IncompleteLine("]]}}]}]}>"), IncompleteLine("])}>")];
    scores := GetCompletionStringScores(lines);
    SampleScore();
    SampleSecondScore();
    SampleThirdScore();
    SampleFourthScore();
    SampleFifthScore();
  }
}
