/**
 * Model of day12/src/main.rs: the cave-path enumerator. Caves are labels;
 * a label made only of lower-case letters is a small cave, any other a big
 * one. The search walks from "start" to "end" with an explicit pair of
 * stacks: the path so far, and for each cave on it the neighbours still to
 * try. A small cave may not be entered again, except that in the extended
 * mode one small cave other than "start" may be entered a second time; that
 * cave is remembered in `twiceLittleCave` until it is left again.
 *
 * The search is specified by a recursive enumerator (`Explore`), proved to
 * list exactly the valid paths, and the loop is proved to emit the very
 * same sequence of paths, in the same order.
 */
module Caves {
  import opened Wrappers
  import opened Common

  /** `AadjacencyMatrix` (lines 4-8): cave labels, and for each label the positions of its neighbours. */
  datatype AdjacencyMatrix = AdjacencyMatrix(nodes: seq<string>, edges: map<string, seq<nat>>)

  /** The outcome of a search: the paths emitted, and the loop turns it took. */
  datatype Run = Run(paths: seq<seq<string>>, steps: nat)

  /** `char::is_lowercase`, on the letters cave labels are made of. */
  predicate IsLower(c: char)
  {
    'a' <= c <= 'z'
  }

  /** `node.chars().all(char::is_lowercase)` (lines 78, 86). */
  predicate Small(name: string)
  {
    forall i :: 0 <= i < |name| ==> IsLower(name[i])
  }

  function Count(path: seq<string>, x: string): nat
  {
    multiset(path)[x]
  }

  function Last(path: seq<string>): string
    requires |path| > 0
  {
    path[|path| - 1]
  }

  predicate IsPrefix(list: seq<nat>, full: seq<nat>)
  {
    |list| <= |full| && list == full[..|list|]
  }

  // ---------------------------------------------------------------------
  // The graphs the search runs on
  // ---------------------------------------------------------------------

  /** Every neighbour position names a labelled cave that has a neighbour list. */
  predicate Indexed(g: AdjacencyMatrix)
  {
    forall u, j :: u in g.edges && j in g.edges[u] ==> j < |g.nodes| && g.nodes[j] in g.edges && g.nodes[j] != ""
  }

  /** No two big caves are neighbours: otherwise the search would go back and forth between them for ever. */
  predicate NoBigPair(g: AdjacencyMatrix)
    requires Indexed(g)
  {
    forall u, j :: u in g.edges && j in g.edges[u] ==> Small(u) || Small(g.nodes[j])
  }

  /**
   * What the search needs of its graph: lines 58 and 80 look up the
   * neighbour list of "start" and of each cave entered, and line 75 indexes
   * the labels by position.
   */
  predicate Searchable(g: AdjacencyMatrix)
  {
    "start" in g.edges && Indexed(g) && NoBigPair(g)
  }

  /** `b` is one of the listed neighbours of `a`. */
  ghost predicate Linked(g: AdjacencyMatrix, a: string, b: string)
  {
    a in g.edges && exists j :: j in g.edges[a] && j < |g.nodes| && g.nodes[j] == b
  }

  ghost predicate Walk(g: AdjacencyMatrix, path: seq<string>)
  {
    forall i :: 0 <= i < |path| - 1 ==> Linked(g, path[i], path[i + 1])
  }

  // ---------------------------------------------------------------------
  // The recursive enumerator
  // ---------------------------------------------------------------------

  /**
   * A path on the main stack: it starts at "start", does not hold "end",
   * every small cave on it occurs once except `twice`, which occurs twice
   * and is only ever set in the extended mode.
   */
  ghost predicate Inv(g: AdjacencyMatrix, path: seq<string>, twice: string, ext: bool)
  {
    && |path| > 0 && path[0] == "start"
    && (forall i :: 0 <= i < |path| ==> path[i] in g.edges && path[i] != "" && path[i] != "end")
    && (twice == "" || (ext && twice != "start" && Small(twice) && Count(path, twice) == 2))
    && (forall i :: 0 <= i < |path| && Small(path[i]) && path[i] != twice ==> Count(path, path[i]) == 1)
  }

  /** The visits still open to small caves: `(x, k)` while `x` has been visited fewer than `k` times. */
  ghost function Slots(g: AdjacencyMatrix, path: seq<string>): set<(string, int)>
  {
    set x, k | x in g.edges && 1 <= k <= 2 && Small(x) && Count(path, x) < k :: (x, k)
  }

  /** The termination measure: each small cave entered uses a slot, and a big cave follows a small one. */
  ghost function Rank(g: AdjacencyMatrix, path: seq<string>): nat
    requires |path| > 0
  {
    2 * |Slots(g, path)| + (if Small(Last(path)) then 1 else 0)
  }

  /** The two ways in which lines 77-92 enter cave `v` from the end of `path`. */
  predicate Enters(path: seq<string>, twice: string, ext: bool, v: string, twice': string)
  {
    || ((v !in path || !Small(v)) && twice' == twice)
    || (v in path && Small(v) && ext && twice == "" && v != "start" && twice' == v)
  }

  lemma CardLess<T>(a: set<T>, b: set<T>, x: T)
    requires a == b - {x} && x in b
    ensures |a| < |b|
  {
    assert b == a + {x};
  }

  /** A small cave entered at most once before, or a big cave after a small one, lowers the rank. */
  lemma EnterRank(g: AdjacencyMatrix, path: seq<string>, v: string)
    requires |path| > 0 && v in g.edges
    requires Small(v) ==> Count(path, v) <= 1
    requires Small(v) || Small(Last(path))
    ensures Rank(g, path + [v]) < Rank(g, path)
  {
    var p := path + [v];
    assert multiset(p) == multiset(path) + multiset{v};
    if Small(v) {
      var c := Count(path, v);
      assert Slots(g, p) == Slots(g, path) - {(v, c + 1)};
      CardLess(Slots(g, p), Slots(g, path), (v, c + 1));
    } else {
      assert Slots(g, p) == Slots(g, path);
    }
  }

  /** Entering a cave in one of the two ways keeps the path invariant. */
  lemma EnterInv(g: AdjacencyMatrix, path: seq<string>, twice: string, ext: bool, v: string, twice': string)
    requires Inv(g, path, twice, ext) && v in g.edges && v != "" && v != "end"
    requires Enters(path, twice, ext, v, twice')
    ensures Inv(g, path + [v], twice', ext)
  {
    var p := path + [v];
    assert multiset(p) == multiset(path) + multiset{v};
    assert forall i :: 0 <= i < |path| ==> p[i] == path[i];
  }

  /** Entering a cave keeps the path invariant and lowers the rank. */
  lemma Enter(g: AdjacencyMatrix, path: seq<string>, twice: string, ext: bool, j: nat, twice': string)
    requires Searchable(g) && Inv(g, path, twice, ext) && j in g.edges[Last(path)]
    requires Enters(path, twice, ext, g.nodes[j], twice') && g.nodes[j] != "end"
    ensures Inv(g, path + [g.nodes[j]], twice', ext)
    ensures Rank(g, path + [g.nodes[j]]) < Rank(g, path)
  {
    var v := g.nodes[j];
    EnterInv(g, path, twice, ext, v, twice');
    assert Small(v) ==> Count(path, v) <= 1 by {
      if Small(v) && v in path {
        var i :| 0 <= i < |path| && path[i] == v;
      }
    }
    EnterRank(g, path, v);
  }

  /** Leaving the top cave restores the invariant of the shorter path; `twice` is cleared when that cave was it. */
  lemma Leave(g: AdjacencyMatrix, path: seq<string>, twice: string, ext: bool)
    requires Inv(g, path, twice, ext) && |path| > 1
    ensures Inv(g, path[..|path| - 1], if Last(path) == twice then "" else twice, ext)
  {
    var p := path[..|path| - 1];
    assert path == p + [Last(path)];
    assert multiset(path) == multiset(p) + multiset{Last(path)};
    assert forall i :: 0 <= i < |p| ==> p[i] == path[i];
  }

  /** Lines 77-95 for the neighbour at position `j`: the paths found through it and the turns spent below it. */
  ghost function Child(g: AdjacencyMatrix, path: seq<string>, twice: string, ext: bool, j: nat): Run
    requires Searchable(g) && Inv(g, path, twice, ext) && j in g.edges[Last(path)]
    decreases Rank(g, path), 0, 0
  {
    var v := g.nodes[j];
    if v !in path || !Small(v) then
      if v == "end" then Run([path + [v]], 0)
      else
        Enter(g, path, twice, ext, j, twice);
        Explore(g, path + [v], twice, ext)
    else if ext && twice == "" && v != "start" then
      Enter(g, path, twice, ext, j, v);
      Explore(g, path + [v], v, ext)
    else Run([], 0)
  }

  /** The neighbours in `list` tried from the last one back, as lines 65-73 pop them; one turn each, and one to finish. */
  ghost function ExploreList(g: AdjacencyMatrix, path: seq<string>, twice: string, ext: bool, list: seq<nat>): Run
    requires Searchable(g) && Inv(g, path, twice, ext) && IsPrefix(list, g.edges[Last(path)])
    decreases Rank(g, path), 1, |list|
  {
    if list == [] then Run([], 1)
    else
      var child := Child(g, path, twice, ext, list[|list| - 1]);
      var rest := ExploreList(g, path, twice, ext, list[..|list| - 1]);
      Run(child.paths + rest.paths, 1 + child.steps + rest.steps)
  }

  /** All paths found from `path`, trying every neighbour of its last cave. */
  ghost function Explore(g: AdjacencyMatrix, path: seq<string>, twice: string, ext: bool): Run
    requires Searchable(g) && Inv(g, path, twice, ext)
    decreases Rank(g, path), 2, 0
  {
    ExploreList(g, path, twice, ext, g.edges[Last(path)])
  }

  // ---------------------------------------------------------------------
  // The explicit stacks
  // ---------------------------------------------------------------------

  /**
   * The two stacks of lines 51-52 in a search state: equal height, the main
   * stack a path, and each side list a prefix of the neighbours of the cave
   * at the same height.
   */
  ghost predicate StackOk(g: AdjacencyMatrix, ext: bool, main: seq<string>, side: seq<seq<nat>>, twice: string)
  {
    && |main| == |side|
    && (main != [] ==> Inv(g, main, twice, ext))
    && (forall d :: 0 <= d < |main| ==> main[d] in g.edges && IsPrefix(side[d], g.edges[main[d]]))
  }

  /** The stacks below the top are again a search state, with `twice` cleared if the top cave was it. */
  lemma Pop(g: AdjacencyMatrix, ext: bool, main: seq<string>, side: seq<seq<nat>>, twice: string)
    requires StackOk(g, ext, main, side, twice) && main != []
    ensures StackOk(g, ext, main[..|main| - 1], side[..|side| - 1], if Last(main) == twice then "" else twice)
  {
    if |main| > 1 {
      Leave(g, main, twice, ext);
    }
  }

  /**
   * What the search still has to do from a stack state: finish the side
   * list on top, leave the top cave, and carry on below.
   */
  ghost function Rem(g: AdjacencyMatrix, ext: bool, main: seq<string>, side: seq<seq<nat>>, twice: string): Run
    requires Searchable(g) && StackOk(g, ext, main, side, twice)
    decreases |main|
  {
    if main == [] then Run([], 0)
    else
      var k := |main|;
      var top := ExploreList(g, main, twice, ext, side[k - 1]);
      Pop(g, ext, main, side, twice);
      var below := Rem(g, ext, main[..k - 1], side[..k - 1], if main[k - 1] == twice then "" else twice);
      Run(top.paths + below.paths, top.steps + below.steps)
  }

  /** Lines 66-70: an exhausted side list leaves its cave, in one turn. */
  lemma StepLeave(g: AdjacencyMatrix, ext: bool, main: seq<string>, side: seq<seq<nat>>, twice: string)
    requires Searchable(g) && StackOk(g, ext, main, side, twice) && main != [] && side[|side| - 1] == []
    ensures StackOk(g, ext, main[..|main| - 1], side[..|side| - 1], if Last(main) == twice then "" else twice)
    ensures var below := Rem(g, ext, main[..|main| - 1], side[..|side| - 1], if Last(main) == twice then "" else twice);
      Rem(g, ext, main, side, twice) == Run(below.paths, below.steps + 1)
  {
    Pop(g, ext, main, side, twice);
  }

  /** Lines 66-70 as one turn: leaving a cave loses no path and shrinks the work. */
  lemma TurnLeave(g: AdjacencyMatrix, ext: bool, main: seq<string>, side: seq<seq<nat>>, twice: string)
    requires Searchable(g) && StackOk(g, ext, main, side, twice) && main != [] && side[|side| - 1] == []
    ensures Progress(g, ext, main, side, twice, [], main[..|main| - 1], side[..|side| - 1], if Last(main) == twice then "" else twice)
  {
    StepLeave(g, ext, main, side, twice);
  }

  /** Taking the last neighbour off the top side list keeps a search state and leaves the lists below alone. */
  lemma TriedOk(g: AdjacencyMatrix, ext: bool, main: seq<string>, side: seq<seq<nat>>, twice: string)
    requires Searchable(g) && StackOk(g, ext, main, side, twice) && main != [] && side[|side| - 1] != []
    ensures var list := side[|side| - 1]; list[|list| - 1] in g.edges[Last(main)]
    ensures StackOk(g, ext, main, Tried(side), twice)
    ensures var k, list := |side|, side[|side| - 1];
      Tried(side)[..k - 1] == side[..k - 1] && Tried(side)[k - 1] == list[..|list| - 1]
  {
    var k, list := |main|, side[|side| - 1];
    var side' := Tried(side);
    assert side'[..k - 1] == side[..k - 1] && side'[k - 1] == list[..|list| - 1];
    assert list[|list| - 1] == g.edges[Last(main)][|list| - 1];
    assert StackOk(g, ext, main, side', twice);
  }

  /** Lines 72-73: the last neighbour on the top side list is taken off it and tried. */
  lemma StepNext(g: AdjacencyMatrix, ext: bool, main: seq<string>, side: seq<seq<nat>>, twice: string)
    requires Searchable(g) && StackOk(g, ext, main, side, twice) && main != [] && side[|side| - 1] != []
    ensures var list := side[|side| - 1]; list[|list| - 1] in g.edges[Last(main)]
    ensures StackOk(g, ext, main, Tried(side), twice)
    ensures var list := side[|side| - 1];
      var child := Child(g, main, twice, ext, list[|list| - 1]);
      var rem := Rem(g, ext, main, Tried(side), twice);
      Rem(g, ext, main, side, twice) == Run(child.paths + rem.paths, 1 + child.steps + rem.steps)
  {
    var k, list := |main|, side[|side| - 1];
    var side' := Tried(side);
    TriedOk(g, ext, main, side, twice);
    Pop(g, ext, main, side, twice);
    var below := Rem(g, ext, main[..k - 1], side[..k - 1], if main[k - 1] == twice then "" else twice);
    var child := Child(g, main, twice, ext, list[|list| - 1]);
    var rest := ExploreList(g, main, twice, ext, list[..|list| - 1]);
    assert Rem(g, ext, main, side', twice) == Run(rest.paths + below.paths, rest.steps + below.steps);
    assert Rem(g, ext, main, side, twice) == Run((child.paths + rest.paths) + below.paths, 1 + child.steps + rest.steps + below.steps);
    AppendAssoc(child.paths, rest.paths, below.paths);
  }

  /** Lines 80-82 and 89-92: entering a cave pushes it with its full neighbour list. */
  lemma StepEnter(g: AdjacencyMatrix, ext: bool, main: seq<string>, side: seq<seq<nat>>, twice: string, j: nat, twice': string)
    requires Searchable(g) && StackOk(g, ext, main, side, twice) && main != [] && j in g.edges[Last(main)]
    requires Enters(main, twice, ext, g.nodes[j], twice') && g.nodes[j] != "end"
    ensures var v := g.nodes[j];
      && StackOk(g, ext, main + [v], side + [g.edges[v]], twice')
      && var child := Child(g, main, twice, ext, j);
         var rem := Rem(g, ext, main, side, twice);
         Rem(g, ext, main + [v], side + [g.edges[v]], twice') == Run(child.paths + rem.paths, child.steps + rem.steps)
  {
    var v := g.nodes[j];
    Enter(g, main, twice, ext, j, twice');
    var main', side' := main + [v], side + [g.edges[v]];
    assert main'[..|main|] == main && side'[..|side|] == side;
    assert v != twice' ==> v != twice by {
      if twice != "" {
        assert twice in main;
      }
    }
    assert StackOk(g, ext, main', side', twice');
  }

  lemma SplitLast<T>(s: seq<T>)
    requires s != []
    ensures s[..|s| - 1] + [s[|s| - 1]] == s
  {
  }

  lemma AppendAssoc<T>(a: seq<T>, b: seq<T>, c: seq<T>)
    ensures (a + b) + c == a + (b + c)
  {
  }

  /** Lines 57-60: the search starts from `start` with all its neighbours still to try. */
  lemma StepStart(g: AdjacencyMatrix, ext: bool)
    requires Searchable(g)
    ensures StackOk(g, ext, ["start"], [g.edges["start"]], "")
    ensures Rem(g, ext, ["start"], [g.edges["start"]], "").paths == Explore(g, ["start"], "", ext).paths
  {
    assert Inv(g, ["start"], "", ext);
    assert StackOk(g, ext, ["start"], [g.edges["start"]], "");
    assert ["start"][..0] == [];
    assert Rem(g, ext, [], [], "") == Run([], 0);
  }

  /** The side stack after its top list lost its last neighbour (lines 72-73). */
  function Tried(side: seq<seq<nat>>): seq<seq<nat>>
    requires side != [] && side[|side| - 1] != []
  {
    var list := side[|side| - 1];
    side[..|side| - 1] + [list[..|list| - 1]]
  }

  /** The neighbour tried next names a cave of the graph. */
  lemma TopIndexed(g: AdjacencyMatrix, ext: bool, main: seq<string>, side: seq<seq<nat>>, twice: string)
    requires Searchable(g) && StackOk(g, ext, main, side, twice) && main != [] && side[|side| - 1] != []
    ensures var list := side[|side| - 1]; list[|list| - 1] in g.edges[Last(main)] && list[|list| - 1] < |g.nodes|
  {
    var list := side[|side| - 1];
    assert list[|list| - 1] == g.edges[Last(main)][|list| - 1];
  }

  /**
   * One loop turn from the stacks `main`/`side` to `main'`/`side'` keeps a
   * search state, records `found`, loses no remaining path and shrinks the
   * remaining work.
   */
  ghost predicate Progress(g: AdjacencyMatrix, ext: bool, main: seq<string>, side: seq<seq<nat>>, twice: string,
                           found: seq<seq<string>>, main': seq<string>, side': seq<seq<nat>>, twice': string)
    requires Searchable(g) && StackOk(g, ext, main, side, twice)
  {
    && StackOk(g, ext, main', side', twice')
    && var before, after := Rem(g, ext, main, side, twice), Rem(g, ext, main', side', twice');
       found + after.paths == before.paths && after.steps < before.steps
  }

  /** A turn that makes progress keeps the loop's account of the paths: found so far plus still to find. */
  lemma ProgressKeepsSearch(g: AdjacencyMatrix, ext: bool, main: seq<string>, side: seq<seq<nat>>, twice: string,
                            found: seq<seq<string>>, main': seq<string>, side': seq<seq<nat>>, twice': string,
                            paths: seq<seq<string>>)
    requires Searchable(g) && StackOk(g, ext, main, side, twice)
    requires Progress(g, ext, main, side, twice, found, main', side', twice')
    ensures StackOk(g, ext, main', side', twice')
    ensures (paths + found) + Rem(g, ext, main', side', twice').paths == paths + Rem(g, ext, main, side, twice).paths
    ensures Rem(g, ext, main', side', twice').steps < Rem(g, ext, main, side, twice).steps
  {
    AppendAssoc(paths, found, Rem(g, ext, main', side', twice').paths);
  }

  /** Lines 77-82 and 83-92: a cave that may be entered is pushed; nothing is lost and the work shrinks. */
  lemma TurnEnter(g: AdjacencyMatrix, ext: bool, main: seq<string>, side: seq<seq<nat>>, twice: string, v: string, twice': string)
    requires Searchable(g) && StackOk(g, ext, main, side, twice) && main != [] && side[|side| - 1] != []
    requires var list := side[|side| - 1]; list[|list| - 1] < |g.nodes| && g.nodes[list[|list| - 1]] == v
    requires Enters(main, twice, ext, v, twice') && v != "end"
    ensures v in g.edges
    ensures Progress(g, ext, main, side, twice, [], main + [v], Tried(side) + [g.edges[v]], twice')
  {
    var list := side[|side| - 1];
    StepNext(g, ext, main, side, twice);
    StepEnter(g, ext, main, Tried(side), twice, list[|list| - 1], twice');
  }

  /** Lines 77-82 then 95-106: reaching `end` records the path and leaves `end` at once. */
  lemma TurnEnd(g: AdjacencyMatrix, ext: bool, main: seq<string>, side: seq<seq<nat>>, twice: string)
    requires Searchable(g) && StackOk(g, ext, main, side, twice) && main != [] && side[|side| - 1] != []
    requires var list := side[|side| - 1]; list[|list| - 1] < |g.nodes| && g.nodes[list[|list| - 1]] == "end"
    ensures Progress(g, ext, main, side, twice, [main + ["end"]], main, Tried(side), twice)
  {
    var list := side[|side| - 1];
    StepNext(g, ext, main, side, twice);
    assert Child(g, main, twice, ext, list[|list| - 1]) == Run([main + ["end"]], 0);
  }

  /** Lines 93-94: a small cave that may not be entered again is skipped. */
  lemma TurnSkip(g: AdjacencyMatrix, ext: bool, main: seq<string>, side: seq<seq<nat>>, twice: string)
    requires Searchable(g) && StackOk(g, ext, main, side, twice) && main != [] && side[|side| - 1] != []
    requires var list := side[|side| - 1]; list[|list| - 1] < |g.nodes| && var v := g.nodes[list[|list| - 1]];
      v in main && Small(v) && !(ext && twice == "" && v != "start")
    ensures Progress(g, ext, main, side, twice, [], main, Tried(side), twice)
  {
    var list := side[|side| - 1];
    StepNext(g, ext, main, side, twice);
    assert Child(g, main, twice, ext, list[|list| - 1]) == Run([], 0);
  }

  /**
   * Lines 80-81 or 90-91, then 95-106: push a cave with its neighbour list;
   * if it is `end`, record the path and pop both again, clearing the cave
   * visited twice if it was the one popped.
   */
  method Visit(caveGraph: AdjacencyMatrix, mainStack: Stack<string>, sideStack: Stack<seq<nat>>, node: string,
               twiceLittleCave: string)
    returns (found: seq<seq<string>>, twiceAfter: string)
    requires node in caveGraph.edges
    modifies mainStack, sideStack
    ensures node == "end" ==>
      && found == [old(mainStack.stack) + [node]]
      && mainStack.stack == old(mainStack.stack) && sideStack.stack == old(sideStack.stack)
      && twiceAfter == (if twiceLittleCave == "end" then "" else twiceLittleCave)
    ensures node != "end" ==>
      && found == []
      && mainStack.stack == old(mainStack.stack) + [node]
      && sideStack.stack == old(sideStack.stack) + [caveGraph.edges[node]]
      && twiceAfter == twiceLittleCave
  {
    found, twiceAfter := [], twiceLittleCave;
    mainStack.Push(node);
    sideStack.Push(caveGraph.edges[node]);
    if mainStack.Peek().value == "end" {
      found := [mainStack.stack];
      var popped := mainStack.Pop();
      if popped.value == twiceAfter {
        twiceAfter := "";
      }
      var _ := sideStack.Pop();
    }
  }

  /**
   * One turn of the loop of lines 72-107, the case where the side list on
   * top is not exhausted: its last neighbour is taken off and tried; a cave
   * that may be entered is pushed with its neighbour list, and reaching
   * `end` records the path and pops it again.  Whatever the branch, the
   * paths recorded followed by what remains to do are what remained to do
   * before, and the remaining work shrinks.
   */
  method Descend(caveGraph: AdjacencyMatrix, hasLongerTime: bool, mainStack: Stack<string>, sideStack: Stack<seq<nat>>,
                 twiceLittleCave: string, connectedNodes: seq<nat>)
    returns (found: seq<seq<string>>, twiceAfter: string)
    requires Searchable(caveGraph) && mainStack.stack != [] && connectedNodes != []
    requires StackOk(caveGraph, hasLongerTime, mainStack.stack, sideStack.stack + [connectedNodes], twiceLittleCave)
    modifies mainStack, sideStack
    ensures Progress(caveGraph, hasLongerTime, old(mainStack.stack), old(sideStack.stack) + [connectedNodes], twiceLittleCave,
                     found, mainStack.stack, sideStack.stack, twiceAfter)
  {
    ghost var g, ext, main, side, twice := caveGraph, hasLongerTime, mainStack.stack, sideStack.stack + [connectedNodes], twiceLittleCave;
    found, twiceAfter := [], twiceLittleCave;
    var nextPos := connectedNodes[|connectedNodes| - 1];
    var rest := connectedNodes[..|connectedNodes| - 1];
    sideStack.Push(rest);
    assert side[|side| - 1] == connectedNodes;
    assert sideStack.stack == Tried(side);
    TopIndexed(g, ext, main, side, twice);
    var node := caveGraph.nodes[nextPos];
    if node !in mainStack.stack || (node in mainStack.stack && !Small(node)) {
      if node != "end" {
        TurnEnter(g, ext, main, side, twice, node, twice);
      } else {
        TurnEnd(g, ext, main, side, twice);
        assert twice != "end" by {
          if twice != "" {
            assert twice in main;
          }
        }
      }
      found, twiceAfter := Visit(caveGraph, mainStack, sideStack, node, twiceAfter);
    } else if hasLongerTime && twiceLittleCave == "" && node in mainStack.stack && Small(node) && node != "start" {
      TurnEnter(g, ext, main, side, twice, node, node);
      twiceAfter := node;
      found, twiceAfter := Visit(caveGraph, mainStack, sideStack, node, twiceAfter);
    } else {
      TurnSkip(g, ext, main, side, twice);
    }
  }

  /**
   * One turn of the loop of lines 62-107 on a non-empty main stack: the top
   * side list is taken off; an exhausted one leaves its cave (lines 66-70),
   * any other is handled by `Descend`.
   */
  method Turn(caveGraph: AdjacencyMatrix, hasLongerTime: bool, mainStack: Stack<string>, sideStack: Stack<seq<nat>>,
              twiceLittleCave: string)
    returns (found: seq<seq<string>>, twiceAfter: string)
    requires Searchable(caveGraph) && mainStack.stack != []
    requires StackOk(caveGraph, hasLongerTime, mainStack.stack, sideStack.stack, twiceLittleCave)
    modifies mainStack, sideStack
    ensures Progress(caveGraph, hasLongerTime, old(mainStack.stack), old(sideStack.stack), twiceLittleCave,
                     found, mainStack.stack, sideStack.stack, twiceAfter)
  {
    ghost var g, ext, main, side, twice := caveGraph, hasLongerTime, mainStack.stack, sideStack.stack, twiceLittleCave;
    var top := sideStack.Pop();
    var connectedNodes := top.value;
    if connectedNodes == [] {
      TurnLeave(g, ext, main, side, twice);
      var popped := mainStack.Pop();
      found, twiceAfter := [], twiceLittleCave;
      if popped.value == twiceLittleCave {
        twiceAfter := "";
      }
    } else {
      SplitLast(side);
      found, twiceAfter := Descend(caveGraph, hasLongerTime, mainStack, sideStack, twiceLittleCave, connectedNodes);
    }
  }

  /**
   * `get_all_paths_from_start_to_end` (lines 47-109): the explicit-stack
   * search emits exactly the paths of the recursive enumerator, in the same
   * order, which are the valid paths; when no neighbour is listed twice it
   * emits each of them once, so its length is their number.
   */
  method GetAllPathsFromStartToEnd(caveGraph: AdjacencyMatrix, hasLongerTime: bool) returns (paths: seq<seq<string>>)
    requires Searchable(caveGraph)
    ensures paths == Explore(caveGraph, ["start"], "", hasLongerTime).paths
    ensures forall q :: q in paths <==> ValidPath(caveGraph, q, hasLongerTime)
    ensures SimpleLinks(caveGraph) ==> NoRepeats(paths) && |paths| == |ValidPaths(caveGraph, hasLongerTime)|
  {
    ghost var g, ext := caveGraph, hasLongerTime;
    var mainStack := new Stack<string>();
    var sideStack := new Stack<seq<nat>>();
    paths := [];
    var twiceLittleCave := "";
    var node := "start";
    var connectedNodes := caveGraph.edges[node];
    mainStack.Push(node);
    sideStack.Push(connectedNodes);
    StepStart(g, ext);
    while !mainStack.IsEmpty()
      invariant StackOk(g, ext, mainStack.stack, sideStack.stack, twiceLittleCave)
      invariant paths + Rem(g, ext, mainStack.stack, sideStack.stack, twiceLittleCave).paths
        == Explore(g, ["start"], "", ext).paths
      decreases Rem(g, ext, mainStack.stack, sideStack.stack, twiceLittleCave).steps
    {
      ghost var main, side, twice := mainStack.stack, sideStack.stack, twiceLittleCave;
      var found;
      found, twiceLittleCave := Turn(caveGraph, hasLongerTime, mainStack, sideStack, twiceLittleCave);
      ProgressKeepsSearch(g, ext, main, side, twice, found, mainStack.stack, sideStack.stack, twiceLittleCave, paths);
      paths := paths + found;
    }
    forall q
      ensures q in paths <==> ValidPath(g, q, ext)
    {
      PathsExact(g, ext, q);
    }
    if SimpleLinks(g) {
      PathCount(g, ext);
    }
  }

  // ---------------------------------------------------------------------
  // What the search finds
  // ---------------------------------------------------------------------

  /**
   * A path through the caves as the puzzle counts them: from "start" to
   * "end", along listed edges, visiting neither of the two again; small
   * caves are visited at most once, or in the extended mode at most twice
   * and then only a single one of them.
   */
  ghost predicate ValidPath(g: AdjacencyMatrix, q: seq<string>, ext: bool)
  {
    && |q| >= 2 && q[0] == "start" && Last(q) == "end"
    && Walk(g, q)
    && (forall i :: 1 <= i < |q| ==> q[i] != "start")
    && (forall i :: 0 <= i < |q| - 1 ==> q[i] != "end")
    && (forall i :: 0 <= i < |q| && Small(q[i]) ==> Count(q, q[i]) <= (if ext then 2 else 1))
    && (forall i, k :: 0 <= i < |q| && 0 <= k < |q| && Small(q[i]) && Small(q[k]) && Count(q, q[i]) > 1 && Count(q, q[k]) > 1 ==> q[i] == q[k])
  }

  /** A label at two positions of a sequence occurs at least twice in it. */
  lemma CountTwo(s: seq<string>, i: nat, k: nat)
    requires i < k < |s| && s[i] == s[k]
    ensures Count(s, s[i]) >= 2
  {
    assert s == s[..k] + s[k..];
    assert multiset(s) == multiset(s[..k]) + multiset(s[k..]);
    assert s[..k][i] == s[i] && s[k..][0] == s[k];
  }

  /** In a search state, the small caves on the path other than `twice` occur once, and `twice` twice. */
  lemma EndCounts(g: AdjacencyMatrix, path: seq<string>, twice: string, ext: bool, x: string)
    requires Inv(g, path, twice, ext) && x in path && Small(x)
    ensures Count(path + ["end"], x) == Count(path, x)
    ensures Count(path, x) == (if x == twice then 2 else 1)
    ensures x == twice ==> ext
  {
    assert multiset(path + ["end"]) == multiset(path) + multiset{"end"};
    var i :| 0 <= i < |path| && path[i] == x;
  }

  /** A path that stops on the search's way to "end" and then steps to "end" is a valid path. */
  lemma EndValid(g: AdjacencyMatrix, path: seq<string>, twice: string, ext: bool, j: nat)
    requires Searchable(g) && Inv(g, path, twice, ext) && Walk(g, path) && j in g.edges[Last(path)] && g.nodes[j] == "end"
    ensures ValidPath(g, path + ["end"], ext)
  {
    var q := path + ["end"];
    assert forall i :: 0 <= i < |path| ==> q[i] == path[i];
    assert "end" !in path;
    assert Count(q, "end") == 1 by {
      assert multiset(q) == multiset(path) + multiset{"end"};
    }
    assert Count(path, "start") == 1 by {
      assert path[0] == "start" && Small("start");
    }
    forall i | 1 <= i < |q|
      ensures q[i] != "start"
    {
      if i < |path| && path[i] == "start" {
        CountTwo(path, 0, i);
      }
    }
    forall i | 0 <= i < |q| && Small(q[i])
      ensures Count(q, q[i]) <= (if ext then 2 else 1)
      ensures Count(q, q[i]) > 1 ==> q[i] == twice
    {
      if i < |path| {
        EndCounts(g, path, twice, ext, q[i]);
      }
    }
    assert Linked(g, Last(path), "end");
    WalkStep(g, path, "end");
  }

  /** Soundness of `Child`: every path it lists is valid. */
  lemma {:induction false} ChildSound(g: AdjacencyMatrix, path: seq<string>, twice: string, ext: bool, j: nat)
    requires Searchable(g) && Inv(g, path, twice, ext) && Walk(g, path) && j in g.edges[Last(path)]
    ensures forall q :: q in Child(g, path, twice, ext, j).paths ==> ValidPath(g, q, ext)
    decreases Rank(g, path), 0, 0
  {
    var v := g.nodes[j];
    assert Linked(g, Last(path), v);
    if v !in path || !Small(v) {
      if v == "end" {
        EndValid(g, path, twice, ext, j);
      } else {
        Enter(g, path, twice, ext, j, twice);
        WalkStep(g, path, v);
        ExploreSound(g, path + [v], twice, ext);
      }
    } else if ext && twice == "" && v != "start" {
      Enter(g, path, twice, ext, j, v);
      WalkStep(g, path, v);
      ExploreSound(g, path + [v], v, ext);
    }
  }

  /** Soundness of `ExploreList`. */
  lemma {:induction false} ListSound(g: AdjacencyMatrix, path: seq<string>, twice: string, ext: bool, list: seq<nat>)
    requires Searchable(g) && Inv(g, path, twice, ext) && Walk(g, path) && IsPrefix(list, g.edges[Last(path)])
    ensures forall q :: q in ExploreList(g, path, twice, ext, list).paths ==> ValidPath(g, q, ext)
    decreases Rank(g, path), 1, |list|
  {
    if list != [] {
      assert list[|list| - 1] == g.edges[Last(path)][|list| - 1];
      ChildSound(g, path, twice, ext, list[|list| - 1]);
      ListSound(g, path, twice, ext, list[..|list| - 1]);
    }
  }

  /** Soundness of `Explore`: every path listed from a reachable search state is valid. */
  lemma {:induction false} ExploreSound(g: AdjacencyMatrix, path: seq<string>, twice: string, ext: bool)
    requires Searchable(g) && Inv(g, path, twice, ext) && Walk(g, path)
    ensures forall q :: q in Explore(g, path, twice, ext).paths ==> ValidPath(g, q, ext)
    decreases Rank(g, path), 2, 0
  {
    ListSound(g, path, twice, ext, g.edges[Last(path)]);
  }

  lemma WalkStep(g: AdjacencyMatrix, path: seq<string>, v: string)
    requires Walk(g, path) && |path| > 0 && Linked(g, Last(path), v)
    ensures Walk(g, path + [v])
  {
    var p := path + [v];
    forall i | 0 <= i < |p| - 1
      ensures Linked(g, p[i], p[i + 1])
    {
      if i < |path| - 1 {
        assert p[i] == path[i] && p[i + 1] == path[i + 1];
      }
    }
  }

  /** The labels of a prefix, and the next one, are counted in the whole path. */
  lemma PrefixCount(path: seq<string>, q: seq<string>, x: string)
    requires |path| < |q| && q[..|path|] == path
    ensures Count(q, x) >= Count(path, x) + (if q[|path|] == x then 1 else 0)
  {
    var p := q[..|path| + 1];
    assert p == path + [q[|path|]];
    assert q == p + q[|p|..];
    assert multiset(q) == multiset(p) + multiset(q[|p|..]);
    assert multiset(p) == multiset(path) + multiset{q[|path|]};
  }

  /** Completeness of `Child`: a valid path that goes on from `path` through cave `j` is listed. */
  lemma {:induction false} ChildComplete(g: AdjacencyMatrix, path: seq<string>, twice: string, ext: bool, j: nat, q: seq<string>)
    requires Searchable(g) && Inv(g, path, twice, ext) && j in g.edges[Last(path)]
    requires ValidPath(g, q, ext) && |path| < |q| && q[..|path|] == path && g.nodes[j] == q[|path|]
    ensures q in Child(g, path, twice, ext, j).paths
    decreases |q| - |path|, 0, 0
  {
    var v := g.nodes[j];
    var p := path + [v];
    assert q[..|p|] == p;
    if v !in path || !Small(v) {
      if v == "end" {
        assert |p| == |q|;
        assert q == p;
      } else {
        Enter(g, path, twice, ext, j, twice);
        ExploreComplete(g, p, twice, ext, q);
      }
    } else {
      RevisitAllowed(g, path, twice, ext, q);
      Enter(g, path, twice, ext, j, v);
      ExploreComplete(g, p, v, ext, q);
    }
  }

  /** A valid path that goes on to a small cave already on `path` is one the extended mode allows here. */
  lemma RevisitAllowed(g: AdjacencyMatrix, path: seq<string>, twice: string, ext: bool, q: seq<string>)
    requires Searchable(g) && Inv(g, path, twice, ext)
    requires ValidPath(g, q, ext) && |path| < |q| && q[..|path|] == path
    requires q[|path|] in path && Small(q[|path|])
    ensures ext && twice == "" && q[|path|] != "start"
  {
    var v := q[|path|];
    var i :| 0 <= i < |path| && path[i] == v;
    assert q[i] == v;
    CountTwo(q, i, |path|);
    assert twice == "" by {
      if twice != "" {
        var k :| 0 <= k < |path| && path[k] == twice;
        PrefixCount(path, q, twice);
        assert false;
      }
    }
  }

  /** Completeness of `ExploreList`, for a path whose next cave is in `list`. */
  lemma {:induction false} ListComplete(g: AdjacencyMatrix, path: seq<string>, twice: string, ext: bool, list: seq<nat>, q: seq<string>, j: nat)
    requires Searchable(g) && Inv(g, path, twice, ext) && IsPrefix(list, g.edges[Last(path)])
    requires ValidPath(g, q, ext) && |path| < |q| && q[..|path|] == path
    requires j in list && j < |g.nodes| && g.nodes[j] == q[|path|]
    ensures q in ExploreList(g, path, twice, ext, list).paths
    decreases |q| - |path|, 1, |list|
  {
    var n := |list|;
    if list[n - 1] == j {
      assert list[n - 1] == g.edges[Last(path)][n - 1];
      ChildComplete(g, path, twice, ext, j, q);
    } else {
      assert list == list[..n - 1] + [list[n - 1]];
      ListComplete(g, path, twice, ext, list[..n - 1], q, j);
    }
  }

  /** Completeness of `Explore`: every valid path that extends a search state is listed from it. */
  lemma {:induction false} ExploreComplete(g: AdjacencyMatrix, path: seq<string>, twice: string, ext: bool, q: seq<string>)
    requires Searchable(g) && Inv(g, path, twice, ext)
    requires ValidPath(g, q, ext) && |path| < |q| && q[..|path|] == path
    ensures q in Explore(g, path, twice, ext).paths
    decreases |q| - |path|, 2, 0
  {
    assert q[|path| - 1] == Last(path);
    assert Linked(g, Last(path), q[|path|]);
    var j :| j in g.edges[Last(path)] && j < |g.nodes| && g.nodes[j] == q[|path|];
    ListComplete(g, path, twice, ext, g.edges[Last(path)], q, j);
  }

  /** The search from "start" lists exactly the valid paths. */
  lemma PathsExact(g: AdjacencyMatrix, ext: bool, q: seq<string>)
    requires Searchable(g)
    ensures q in Explore(g, ["start"], "", ext).paths <==> ValidPath(g, q, ext)
  {
    assert Inv(g, ["start"], "", ext);
    ExploreSound(g, ["start"], "", ext);
    if ValidPath(g, q, ext) {
      ExploreComplete(g, ["start"], "", ext, q);
    }
  }

  /** Every path of the first part is also one of the second (line 115 against line 111). */
  lemma SimpleWithinExtended(g: AdjacencyMatrix, q: seq<string>)
    requires Searchable(g)
    ensures q in Explore(g, ["start"], "", false).paths ==> q in Explore(g, ["start"], "", true).paths
  {
    PathsExact(g, false, q);
    PathsExact(g, true, q);
  }

  // ---------------------------------------------------------------------
  // How many paths the search finds
  // ---------------------------------------------------------------------

  /** No path is listed twice. */
  predicate NoRepeats(s: seq<seq<string>>)
  {
    forall i, k :: 0 <= i < k < |s| ==> s[i] != s[k]
  }

  /** Each neighbour list names every cave at most once. */
  predicate SimpleLinks(g: AdjacencyMatrix)
  {
    forall u, i, k :: u in g.edges && 0 <= i < k < |g.edges[u]| && g.edges[u][i] < |g.nodes| && g.edges[u][k] < |g.nodes|
      ==> g.nodes[g.edges[u][i]] != g.nodes[g.edges[u][k]]
  }

  /** A path one cave longer than `path + [v]` on its front goes on from `path` through `v`. */
  lemma ExtendsThrough(path: seq<string>, v: string, q: seq<string>)
    requires |q| > |path| + 1 && q[..|path| + 1] == path + [v]
    ensures |q| > |path| && q[..|path|] == path && q[|path|] == v
  {
    assert q[..|path|] == q[..|path| + 1][..|path|];
  }

  /** Every path `Child` lists goes on from `path` through cave `j`. */
  lemma {:induction false} ChildExtends(g: AdjacencyMatrix, path: seq<string>, twice: string, ext: bool, j: nat)
    requires Searchable(g) && Inv(g, path, twice, ext) && j in g.edges[Last(path)]
    ensures forall q :: q in Child(g, path, twice, ext, j).paths ==> |q| > |path| && q[..|path|] == path && q[|path|] == g.nodes[j]
    decreases Rank(g, path), 0, 0
  {
    var v := g.nodes[j];
    if v !in path || !Small(v) {
      if v == "end" {
        assert (path + [v])[..|path|] == path;
      } else {
        Enter(g, path, twice, ext, j, twice);
        ExploreExtends(g, path + [v], twice, ext);
        forall q | q in Explore(g, path + [v], twice, ext).paths
          ensures |q| > |path| && q[..|path|] == path && q[|path|] == v
        {
          ExtendsThrough(path, v, q);
        }
      }
    } else if ext && twice == "" && v != "start" {
      Enter(g, path, twice, ext, j, v);
      ExploreExtends(g, path + [v], v, ext);
      forall q | q in Explore(g, path + [v], v, ext).paths
        ensures |q| > |path| && q[..|path|] == path && q[|path|] == v
      {
        ExtendsThrough(path, v, q);
      }
    }
  }

  /** Every path `ExploreList` lists goes on from `path` through one of the caves in `list`. */
  lemma {:induction false} ListExtends(g: AdjacencyMatrix, path: seq<string>, twice: string, ext: bool, list: seq<nat>)
    requires Searchable(g) && Inv(g, path, twice, ext) && IsPrefix(list, g.edges[Last(path)])
    ensures forall q :: q in ExploreList(g, path, twice, ext, list).paths ==>
      && |q| > |path| && q[..|path|] == path
      && exists m :: 0 <= m < |list| && list[m] < |g.nodes| && q[|path|] == g.nodes[list[m]]
    decreases Rank(g, path), 1, |list|
  {
    if list != [] {
      var n := |list|;
      var prefix := list[..n - 1];
      assert list[n - 1] == g.edges[Last(path)][n - 1];
      ChildExtends(g, path, twice, ext, list[n - 1]);
      ListExtends(g, path, twice, ext, prefix);
      forall q | q in ExploreList(g, path, twice, ext, prefix).paths
        ensures exists m :: 0 <= m < n && list[m] < |g.nodes| && q[|path|] == g.nodes[list[m]]
      {
        var m :| 0 <= m < n - 1 && prefix[m] < |g.nodes| && q[|path|] == g.nodes[prefix[m]];
        assert prefix[m] == list[m];
      }
    }
  }

  /** Every path `Explore` lists goes on from `path`. */
  lemma {:induction false} ExploreExtends(g: AdjacencyMatrix, path: seq<string>, twice: string, ext: bool)
    requires Searchable(g) && Inv(g, path, twice, ext)
    ensures forall q :: q in Explore(g, path, twice, ext).paths ==> |q| > |path| && q[..|path|] == path
    decreases Rank(g, path), 2, 0
  {
    ListExtends(g, path, twice, ext, g.edges[Last(path)]);
  }

  /** Two lists without repeats and without a common entry give one without repeats. */
  lemma NoRepeatsAppend(a: seq<seq<string>>, b: seq<seq<string>>)
    requires NoRepeats(a) && NoRepeats(b)
    requires forall x, y :: x in a && y in b ==> x != y
    ensures NoRepeats(a + b)
  {
    var s := a + b;
    forall i, k | 0 <= i < k < |s|
      ensures s[i] != s[k]
    {
      if k < |a| {
        assert s[i] == a[i] && s[k] == a[k];
      } else if i < |a| {
        assert s[i] == a[i] && s[k] == b[k - |a|];
        assert a[i] in a && b[k - |a|] in b;
      } else {
        assert s[i] == b[i - |a|] && s[k] == b[k - |a|];
      }
    }
  }

  /** `Child` lists no path twice. */
  lemma {:induction false} ChildNoRepeats(g: AdjacencyMatrix, path: seq<string>, twice: string, ext: bool, j: nat)
    requires Searchable(g) && SimpleLinks(g) && Inv(g, path, twice, ext) && j in g.edges[Last(path)]
    ensures NoRepeats(Child(g, path, twice, ext, j).paths)
    decreases Rank(g, path), 0, 0
  {
    var v := g.nodes[j];
    if v !in path || !Small(v) {
      if v != "end" {
        Enter(g, path, twice, ext, j, twice);
        ExploreNoRepeats(g, path + [v], twice, ext);
      }
    } else if ext && twice == "" && v != "start" {
      Enter(g, path, twice, ext, j, v);
      ExploreNoRepeats(g, path + [v], v, ext);
    }
  }

  /** `ExploreList` lists no path twice: paths through different neighbours differ right after `path`. */
  lemma {:induction false} ListNoRepeats(g: AdjacencyMatrix, path: seq<string>, twice: string, ext: bool, list: seq<nat>)
    requires Searchable(g) && SimpleLinks(g) && Inv(g, path, twice, ext) && IsPrefix(list, g.edges[Last(path)])
    ensures NoRepeats(ExploreList(g, path, twice, ext, list).paths)
    decreases Rank(g, path), 1, |list|
  {
    if list != [] {
      var n, u := |list|, Last(path);
      var prefix := list[..n - 1];
      assert list[n - 1] == g.edges[u][n - 1];
      var child := Child(g, path, twice, ext, list[n - 1]);
      var rest := ExploreList(g, path, twice, ext, prefix);
      ChildNoRepeats(g, path, twice, ext, list[n - 1]);
      ListNoRepeats(g, path, twice, ext, prefix);
      ChildExtends(g, path, twice, ext, list[n - 1]);
      ListExtends(g, path, twice, ext, prefix);
      forall x, y | x in child.paths && y in rest.paths
        ensures x != y
      {
        var m :| 0 <= m < n - 1 && prefix[m] < |g.nodes| && y[|path|] == g.nodes[prefix[m]];
        assert prefix[m] == g.edges[u][m];
        assert g.nodes[g.edges[u][m]] != g.nodes[g.edges[u][n - 1]];
      }
      NoRepeatsAppend(child.paths, rest.paths);
    }
  }

  /** `Explore` lists no path twice. */
  lemma {:induction false} ExploreNoRepeats(g: AdjacencyMatrix, path: seq<string>, twice: string, ext: bool)
    requires Searchable(g) && SimpleLinks(g) && Inv(g, path, twice, ext)
    ensures NoRepeats(Explore(g, path, twice, ext).paths)
    decreases Rank(g, path), 2, 0
  {
    ListNoRepeats(g, path, twice, ext, g.edges[Last(path)]);
  }

  /** A list without repeats has as many distinct entries as entries. */
  lemma {:induction false} NoRepeatsCount(s: seq<seq<string>>)
    requires NoRepeats(s)
    ensures |set q | q in s| == |s|
  {
    if s != [] {
      var t, x := s[..|s| - 1], s[|s| - 1];
      assert s == t + [x];
      assert NoRepeats(t);
      NoRepeatsCount(t);
      assert x !in t;
      assert (set q | q in s) == (set q | q in t) + {x};
    }
  }

  /** The valid paths of a searchable graph; there are finitely many, since the search lists them all. */
  ghost function ValidPaths(g: AdjacencyMatrix, ext: bool): (r: set<seq<string>>)
    requires Searchable(g)
    ensures forall q :: q in r <==> ValidPath(g, q, ext)
  {
    var r := set q | q in Explore(g, ["start"], "", ext).paths;
    assert forall q :: q in r <==> ValidPath(g, q, ext) by {
      forall q
        ensures q in r <==> ValidPath(g, q, ext)
      {
        PathsExact(g, ext, q);
      }
    }
    r
  }

  /**
   * Lines 116 and 120 report how many paths the search found: when each
   * neighbour list names every cave once, no path is listed twice, so that
   * is the number of valid paths.
   */
  lemma PathCount(g: AdjacencyMatrix, ext: bool)
    requires Searchable(g) && SimpleLinks(g)
    ensures NoRepeats(Explore(g, ["start"], "", ext).paths)
    ensures |Explore(g, ["start"], "", ext).paths| == |ValidPaths(g, ext)|
  {
    assert Inv(g, ["start"], "", ext);
    ExploreNoRepeats(g, ["start"], "", ext);
    NoRepeatsCount(Explore(g, ["start"], "", ext).paths);
  }

  // ---------------------------------------------------------------------
  // Building the graph (lines 10-13 and 22-44, over the label pairs of the
  // input lines)
  // ---------------------------------------------------------------------

  /** `get_position_in_vector` (lines 10-13): the first position of `item`; the source panics when it is absent. */
  function GetPositionInVector(nodes: seq<string>, item: string): (r: nat)
    requires item in nodes
    ensures r < |nodes| && nodes[r] == item && item !in nodes[..r]
  {
    if nodes[0] == item then 0
    else
      assert item in nodes[1..];
      1 + GetPositionInVector(nodes[1..], item)
  }

  predicate Distinct(s: seq<string>)
  {
    forall i, k :: 0 <= i < k < |s| ==> s[i] != s[k]
  }

  /** Every label has a neighbour list, and the neighbour lists hold label positions. */
  predicate Keyed(g: AdjacencyMatrix)
  {
    forall x :: x in g.nodes ==> x in g.edges
  }

  /** The shape the builder keeps: the keys are exactly the labels, each listed once, and positions are in range. */
  ghost predicate GraphOk(g: AdjacencyMatrix)
  {
    && (forall x :: x in g.edges <==> x in g.nodes)
    && Distinct(g.nodes)
    && (forall u, j :: u in g.edges && j in g.edges[u] ==> j < |g.nodes|)
  }

  /** Lines 26-29 (or 31-34): a label seen for the first time is appended with an empty neighbour list. */
  function AddNode(g: AdjacencyMatrix, x: string): (r: AdjacencyMatrix)
    requires Keyed(g)
    ensures Keyed(r) && x in r.nodes
  {
    if x in g.nodes then g else AdjacencyMatrix(g.nodes + [x], g.edges[x := []])
  }

  /** One turn of the loop of lines 22-40, for the line `a-b`. */
  function AddPair(g: AdjacencyMatrix, a: string, b: string): (r: AdjacencyMatrix)
    requires Keyed(g)
    ensures Keyed(r)
  {
    var g2 := AddNode(AddNode(g, a), b);
    var pos1 := GetPositionInVector(g2.nodes, a);
    var pos2 := GetPositionInVector(g2.nodes, b);
    var e1 := g2.edges[a := g2.edges[a] + [pos2]];
    AdjacencyMatrix(g2.nodes, e1[b := e1[b] + [pos1]])
  }

  /** The graph built from the first `|pairs|` lines. */
  function Build(pairs: seq<(string, string)>): (r: AdjacencyMatrix)
    ensures Keyed(r)
  {
    if pairs == [] then AdjacencyMatrix([], map[])
    else
      var p := pairs[|pairs| - 1];
      AddPair(Build(pairs[..|pairs| - 1]), p.0, p.1)
  }

  /** The labels of the lines in reading order, both ends of each line. */
  function Flat(pairs: seq<(string, string)>): (r: seq<string>)
    ensures |r| == 2 * |pairs|
  {
    if pairs == [] then []
    else
      var p := pairs[|pairs| - 1];
      Flat(pairs[..|pairs| - 1]) + [p.0] + [p.1]
  }

  /**
   * `read_adjacency_matrix_from_file`, the loop of lines 22-44 over the
   * label pairs of the lines: the graph it builds is `Build(pairs)`.
   */
  method ReadAdjacencyMatrix(pairs: seq<(string, string)>) returns (g: AdjacencyMatrix)
    ensures g == Build(pairs)
  {
    var nodes: seq<string> := [];
    var edges: map<string, seq<nat>> := map[];
    var i := 0;
    while i < |pairs|
      invariant 0 <= i <= |pairs|
      invariant AdjacencyMatrix(nodes, edges) == Build(pairs[..i])
    {
      assert pairs[..i + 1][..i] == pairs[..i];
      ghost var g0 := AdjacencyMatrix(nodes, edges);
      var node1 := pairs[i].0;
      var node2 := pairs[i].1;
      if node1 !in nodes {
        nodes := nodes + [node1];
        edges := edges[node1 := []];
      }
      assert AdjacencyMatrix(nodes, edges) == AddNode(g0, node1);
      if node2 !in nodes {
        nodes := nodes + [node2];
        edges := edges[node2 := []];
      }
      assert AdjacencyMatrix(nodes, edges) == AddNode(AddNode(g0, node1), node2);
      var pos1 := GetPositionInVector(nodes, node1);
      var pos2 := GetPositionInVector(nodes, node2);
      edges := edges[node1 := edges[node1] + [pos2]];
      edges := edges[node2 := edges[node2] + [pos1]];
      assert AdjacencyMatrix(nodes, edges) == AddPair(g0, node1, node2);
      i := i + 1;
    }
    assert pairs[..i] == pairs;
    g := AdjacencyMatrix(nodes, edges);
  }

  /** The first position of a label is the one position where it occurs with none before. */
  lemma PositionExact(s: seq<string>, x: string, r: nat)
    requires r < |s| && s[r] == x && x !in s[..r]
    ensures GetPositionInVector(s, x) == r
  {
  }

  /** Appending labels does not move the first position of a label already present. */
  lemma PositionAppend(s: seq<string>, t: seq<string>, x: string)
    requires x in s
    ensures GetPositionInVector(s + t, x) == GetPositionInVector(s, x)
  {
    var r := GetPositionInVector(s, x);
    assert (s + t)[..r] == s[..r];
    PositionExact(s + t, x, r);
  }

  /** In a list of distinct labels, the label at position `i` is found at `i`. */
  lemma PositionDistinct(s: seq<string>, i: nat)
    requires Distinct(s) && i < |s|
    ensures GetPositionInVector(s, s[i]) == i
  {
    PositionExact(s, s[i], i);
  }

  /** Adding a label keeps the builder's shape and only appends to the label list. */
  lemma AddNodeOk(g: AdjacencyMatrix, x: string)
    requires GraphOk(g)
    ensures var r := AddNode(g, x);
      && GraphOk(r)
      && r.nodes == (if x in g.nodes then g.nodes else g.nodes + [x])
      && (forall u :: u in g.edges ==> u in r.edges && r.edges[u] == g.edges[u])
      && (x !in g.nodes ==> r.edges[x] == [])
  {
    if x !in g.nodes {
      var r := AddNode(g, x);
      forall i, k | 0 <= i < k < |r.nodes|
        ensures r.nodes[i] != r.nodes[k]
      {
        if k == |g.nodes| {
          assert r.nodes[i] == g.nodes[i];
        }
      }
    }
  }

  /** Lines 38-39: appending a position in range to a neighbour list keeps the builder's shape. */
  lemma PushOk(g: AdjacencyMatrix, u: string, p: nat)
    requires GraphOk(g) && u in g.edges && p < |g.nodes|
    ensures GraphOk(AdjacencyMatrix(g.nodes, g.edges[u := g.edges[u] + [p]]))
  {
    var e := g.edges[u := g.edges[u] + [p]];
    forall v, j | v in e && j in e[v]
      ensures j < |g.nodes|
    {
      if v != u {
        assert e[v] == g.edges[v];
      }
    }
  }

  /** One line keeps the builder's shape; its labels are appended as in `AddNode`. */
  lemma AddPairOk(g: AdjacencyMatrix, a: string, b: string)
    requires GraphOk(g)
    ensures GraphOk(AddPair(g, a, b))
    ensures AddPair(g, a, b).nodes == AddNode(AddNode(g, a), b).nodes
  {
    AddNodeOk(g, a);
    AddNodeOk(AddNode(g, a), b);
    var g2 := AddNode(AddNode(g, a), b);
    var pos1 := GetPositionInVector(g2.nodes, a);
    var pos2 := GetPositionInVector(g2.nodes, b);
    var g3 := AdjacencyMatrix(g2.nodes, g2.edges[a := g2.edges[a] + [pos2]]);
    PushOk(g2, a, pos2);
    PushOk(g3, b, pos1);
  }

  /** Lines 22-40 keep the builder's shape. */
  lemma {:induction false} BuildOk(pairs: seq<(string, string)>)
    ensures GraphOk(Build(pairs))
  {
    if pairs != [] {
      var prefix := pairs[..|pairs| - 1];
      BuildOk(prefix);
      AddPairOk(Build(prefix), pairs[|pairs| - 1].0, pairs[|pairs| - 1].1);
    }
  }

  /** `nodes` holds exactly the labels of `f`. */
  ghost predicate SameLabels(nodes: seq<string>, f: seq<string>)
  {
    forall x :: x in nodes <==> x in f
  }

  /** `nodes` is in order of first appearance in `f`: each occurrence of a later label comes after an earlier one. */
  predicate FirstOrder(nodes: seq<string>, f: seq<string>)
  {
    forall i, k, m :: 0 <= i < k < |nodes| && 0 <= m < |f| && f[m] == nodes[k] ==> nodes[i] in f[..m]
  }

  /** Lines 26-34, one label: `AddNode` keeps the labels and their order of first appearance. */
  lemma ShapeOne(g: AdjacencyMatrix, f: seq<string>, x: string)
    requires GraphOk(g) && SameLabels(g.nodes, f) && FirstOrder(g.nodes, f)
    ensures SameLabels(AddNode(g, x).nodes, f + [x]) && FirstOrder(AddNode(g, x).nodes, f + [x])
  {
    AddNodeOk(g, x);
    var nodes, f' := AddNode(g, x).nodes, f + [x];
    forall i, k, m | 0 <= i < k < |nodes| && 0 <= m < |f'| && f'[m] == nodes[k]
      ensures nodes[i] in f'[..m]
    {
      assert nodes[i] == g.nodes[i];
      if m < |f| {
        assert f'[..m] == f[..m];
        if x !in g.nodes && k == |g.nodes| {
          assert false;
        } else {
          assert nodes[k] == g.nodes[k];
        }
      } else {
        assert f'[..m] == f;
      }
    }
  }

  /**
   * Lines 22-40: the builder lists each label once, exactly the labels of
   * the lines, in order of first appearance, with every neighbour position
   * in range.
   */
  lemma BuildShape(pairs: seq<(string, string)>)
    ensures GraphOk(Build(pairs))
    ensures SameLabels(Build(pairs).nodes, Flat(pairs))
    ensures FirstOrder(Build(pairs).nodes, Flat(pairs))
  {
    BuildOk(pairs);
    BuildLabels(pairs);
  }

  lemma {:induction false} BuildLabels(pairs: seq<(string, string)>)
    ensures SameLabels(Build(pairs).nodes, Flat(pairs))
    ensures FirstOrder(Build(pairs).nodes, Flat(pairs))
  {
    if pairs != [] {
      var prefix, a, b := pairs[..|pairs| - 1], pairs[|pairs| - 1].0, pairs[|pairs| - 1].1;
      var f := Flat(prefix);
      assert Flat(pairs) == f + [a] + [b];
      var g := Build(prefix);
      assert Build(pairs) == AddPair(g, a, b);
      BuildOk(prefix);
      BuildLabels(prefix);
      AddPairOk(g, a, b);
      AddNodeOk(g, a);
      ShapeOne(g, f, a);
      ShapeOne(AddNode(g, a), f + [a], b);
      var nodes := AddNode(AddNode(g, a), b).nodes;
      assert Build(pairs).nodes == nodes;
      assert FirstOrder(nodes, Flat(pairs));
    }
  }

  /** How often the position of `v` is listed among the neighbours of `u`. */
  function Links(g: AdjacencyMatrix, u: string, v: string): nat
    requires u in g.edges && v in g.nodes
  {
    multiset(g.edges[u])[GetPositionInVector(g.nodes, v)]
  }

  /** How often the lines join `u` to `v`, read in either direction. */
  function Incidence(pairs: seq<(string, string)>, u: string, v: string): nat
  {
    if pairs == [] then 0
    else
      var p := pairs[|pairs| - 1];
      Incidence(pairs[..|pairs| - 1], u, v) + (if p.0 == u && p.1 == v then 1 else 0) + (if p.1 == u && p.0 == v then 1 else 0)
  }

  /** A label that does not occur in the lines is joined to nothing. */
  lemma {:induction false} IncidenceAbsent(pairs: seq<(string, string)>, u: string, v: string)
    requires u !in Flat(pairs) || v !in Flat(pairs)
    ensures Incidence(pairs, u, v) == 0
  {
    if pairs != [] {
      var prefix := pairs[..|pairs| - 1];
      assert Flat(pairs) == Flat(prefix) + [pairs[|pairs| - 1].0, pairs[|pairs| - 1].1];
      IncidenceAbsent(prefix, u, v);
    }
  }

  /** Joining is symmetric. */
  lemma {:induction false} IncidenceSymmetric(pairs: seq<(string, string)>, u: string, v: string)
    ensures Incidence(pairs, u, v) == Incidence(pairs, v, u)
  {
    if pairs != [] {
      IncidenceSymmetric(pairs[..|pairs| - 1], u, v);
    }
  }

  /** Two labels that are joined at all are joined by one of the lines. */
  lemma {:induction false} IncidenceWitness(pairs: seq<(string, string)>, u: string, v: string)
    requires Incidence(pairs, u, v) > 0
    ensures exists k :: 0 <= k < |pairs| && ((pairs[k].0 == u && pairs[k].1 == v) || (pairs[k].1 == u && pairs[k].0 == v))
  {
    var n := |pairs|;
    var p := pairs[n - 1];
    if !((p.0 == u && p.1 == v) || (p.1 == u && p.0 == v)) {
      IncidenceWitness(pairs[..n - 1], u, v);
      var k :| 0 <= k < n - 1 && ((pairs[..n - 1][k].0 == u && pairs[..n - 1][k].1 == v) || (pairs[..n - 1][k].1 == u && pairs[..n - 1][k].0 == v));
      assert pairs[k] == pairs[..n - 1][k];
    }
  }

  /** Lines 38-39 on the graph that already holds both labels of the line. */
  lemma PushLinks(g2: AdjacencyMatrix, a: string, b: string, u: string, v: string)
    requires GraphOk(g2) && a in g2.nodes && b in g2.nodes && u in g2.nodes && v in g2.nodes
    ensures var pos1, pos2 := GetPositionInVector(g2.nodes, a), GetPositionInVector(g2.nodes, b);
      var e1 := g2.edges[a := g2.edges[a] + [pos2]];
      var e2 := e1[b := e1[b] + [pos1]];
      var p := GetPositionInVector(g2.nodes, v);
      multiset(e2[u])[p] == multiset(g2.edges[u])[p] + (if a == u && b == v then 1 else 0) + (if b == u && a == v then 1 else 0)
  {
    var pos1, pos2 := GetPositionInVector(g2.nodes, a), GetPositionInVector(g2.nodes, b);
    var e1 := g2.edges[a := g2.edges[a] + [pos2]];
    var e2 := e1[b := e1[b] + [pos1]];
    PositionLabels(g2.nodes, a, v);
    PositionLabels(g2.nodes, b, v);
    assert e1[u] == if u == a then g2.edges[u] + [pos2] else g2.edges[u];
    assert e2[u] == if u == b then e1[u] + [pos1] else e1[u];
  }

  /** The labels `AddPair` appends. */
  lemma AddPairAppends(g: AdjacencyMatrix, a: string, b: string)
    requires GraphOk(g)
    ensures var t := (if a in g.nodes then [] else [a]) + (if b in g.nodes || b == a then [] else [b]);
      AddNode(AddNode(g, a), b).nodes == g.nodes + t
  {
    AddNodeOk(g, a);
    AddNodeOk(AddNode(g, a), b);
  }

  /** The neighbour lists after one line, in terms of those before it. */
  lemma LinksStep(g: AdjacencyMatrix, a: string, b: string, u: string, v: string)
    requires GraphOk(g) && u in g.nodes && v in g.nodes
    ensures var r := AddPair(g, a, b);
      u in r.edges && v in r.nodes
      && Links(r, u, v) == Links(g, u, v) + (if a == u && b == v then 1 else 0) + (if b == u && a == v then 1 else 0)
  {
    AddNodeOk(g, a);
    AddNodeOk(AddNode(g, a), b);
    AddPairAppends(g, a, b);
    var g2 := AddNode(AddNode(g, a), b);
    var t := (if a in g.nodes then [] else [a]) + (if b in g.nodes || b == a then [] else [b]);
    PositionAppend(g.nodes, t, v);
    PushLinks(g2, a, b, u, v);
  }

  /** Two labels of a list of distinct labels have the same position only if they are equal. */
  lemma PositionLabels(s: seq<string>, x: string, y: string)
    requires Distinct(s) && x in s && y in s
    ensures GetPositionInVector(s, x) == GetPositionInVector(s, y) <==> x == y
  {
  }

  /**
   * Lines 36-39: the position of `v` is listed among the neighbours of `u`
   * exactly as often as the lines join `u` and `v`; in particular adjacency
   * is symmetric.
   */
  lemma {:induction false} BuildLinks(pairs: seq<(string, string)>, u: string, v: string)
    requires u in Build(pairs).nodes && v in Build(pairs).nodes
    ensures Links(Build(pairs), u, v) == Incidence(pairs, u, v)
  {
    var n := |pairs|;
    var prefix, a, b := pairs[..n - 1], pairs[n - 1].0, pairs[n - 1].1;
    var g := Build(prefix);
    assert Build(pairs) == AddPair(g, a, b);
    assert Incidence(pairs, u, v) == Incidence(prefix, u, v) + (if a == u && b == v then 1 else 0) + (if b == u && a == v then 1 else 0);
    BuildShape(prefix);
    if u in g.nodes && v in g.nodes {
      BuildLinks(prefix, u, v);
      LinksStep(g, a, b, u, v);
    } else {
      IncidenceAbsent(prefix, u, v);
      NewLinks(g, a, b, u, v);
    }
  }

  /** A line that brings in a new label joins it only by itself. */
  lemma NewLinks(g: AdjacencyMatrix, a: string, b: string, u: string, v: string)
    requires GraphOk(g) && (u !in g.nodes || v !in g.nodes)
    requires var r := AddPair(g, a, b); u in r.nodes && v in r.nodes
    ensures var r := AddPair(g, a, b);
      u in r.edges && Links(r, u, v) == (if a == u && b == v then 1 else 0) + (if b == u && a == v then 1 else 0)
  {
    AddPairOk(g, a, b);
    var g2 := AddNode(AddNode(g, a), b);
    NewLinksZero(g, a, b, u, v);
    AddNodeOk(g, a);
    AddNodeOk(AddNode(g, a), b);
    PushLinks(g2, a, b, u, v);
  }

  /** Before line 38, a new label has no neighbours and is no one's neighbour. */
  lemma NewLinksZero(g: AdjacencyMatrix, a: string, b: string, u: string, v: string)
    requires GraphOk(g) && (u !in g.nodes || v !in g.nodes)
    requires var g2 := AddNode(AddNode(g, a), b); u in g2.nodes && v in g2.nodes
    ensures var g2 := AddNode(AddNode(g, a), b);
      u in g2.edges && multiset(g2.edges[u])[GetPositionInVector(g2.nodes, v)] == 0
  {
    var g2 := AddNode(AddNode(g, a), b);
    if u in g.nodes {
      AddPairAppends(g, a, b);
      var t := (if a in g.nodes then [] else [a]) + (if b in g.nodes || b == a then [] else [b]);
      PositionBeyond(g.nodes, t, v);
      var pv := GetPositionInVector(g2.nodes, v);
      assert g2.edges[u] == g.edges[u];
      assert pv !in g.edges[u];
    } else {
      assert g2.edges[u] == [];
    }
  }

  /** A label not among the first labels is found after them. */
  lemma PositionBeyond(s: seq<string>, t: seq<string>, v: string)
    requires v !in s && v in s + t
    ensures GetPositionInVector(s + t, v) >= |s|
  {
  }

  /** Adjacency is symmetric: `u` lists `v` as often as `v` lists `u`. */
  lemma LinksSymmetric(pairs: seq<(string, string)>, u: string, v: string)
    requires u in Build(pairs).nodes && v in Build(pairs).nodes
    ensures Links(Build(pairs), u, v) == Links(Build(pairs), v, u)
  {
    BuildLinks(pairs, u, v);
    BuildLinks(pairs, v, u);
    IncidenceSymmetric(pairs, u, v);
  }

  /** Every label of the lines comes from one of them. */
  lemma {:induction false} FlatMember(pairs: seq<(string, string)>, x: string)
    requires x in Flat(pairs)
    ensures exists k :: 0 <= k < |pairs| && (pairs[k].0 == x || pairs[k].1 == x)
  {
    var n := |pairs|;
    var prefix := pairs[..n - 1];
    assert Flat(pairs) == Flat(prefix) + [pairs[n - 1].0, pairs[n - 1].1];
    if x in Flat(prefix) {
      FlatMember(prefix, x);
      var k :| 0 <= k < |prefix| && (prefix[k].0 == x || prefix[k].1 == x);
      assert pairs[k] == prefix[k];
    } else {
      assert pairs[n - 1].0 == x || pairs[n - 1].1 == x;
    }
  }

  /**
   * The graph built from lines with non-empty labels, one of them "start",
   * and no line joining two big caves, is one the search runs on.
   */
  lemma BuildSearchable(pairs: seq<(string, string)>)
    requires "start" in Flat(pairs)
    requires forall k :: 0 <= k < |pairs| ==> pairs[k].0 != "" && pairs[k].1 != ""
    requires forall k :: 0 <= k < |pairs| ==> Small(pairs[k].0) || Small(pairs[k].1)
    ensures Searchable(Build(pairs))
  {
    var g := Build(pairs);
    BuildShape(pairs);
    forall u, j | u in g.edges && j in g.edges[u]
      ensures j < |g.nodes| && g.nodes[j] in g.edges && g.nodes[j] != ""
      ensures Small(u) || Small(g.nodes[j])
    {
      EdgeOk(pairs, u, j);
    }
  }

  /** One neighbour entry of the built graph names a labelled cave with a neighbour list. */
  lemma EdgeIndexed(pairs: seq<(string, string)>, u: string, j: nat)
    requires forall k :: 0 <= k < |pairs| ==> pairs[k].0 != "" && pairs[k].1 != ""
    requires u in Build(pairs).edges && j in Build(pairs).edges[u]
    ensures var g := Build(pairs); j < |g.nodes| && g.nodes[j] in g.edges && g.nodes[j] != ""
  {
    var g := Build(pairs);
    BuildShape(pairs);
    FlatMember(pairs, g.nodes[j]);
  }

  /** One neighbour entry of the built graph comes from a line joining the two caves. */
  lemma EdgeOk(pairs: seq<(string, string)>, u: string, j: nat)
    requires forall k :: 0 <= k < |pairs| ==> pairs[k].0 != "" && pairs[k].1 != ""
    requires forall k :: 0 <= k < |pairs| ==> Small(pairs[k].0) || Small(pairs[k].1)
    requires u in Build(pairs).edges && j in Build(pairs).edges[u]
    ensures var g := Build(pairs); j < |g.nodes| && g.nodes[j] in g.edges && g.nodes[j] != ""
    ensures var g := Build(pairs); j < |g.nodes| && (Small(u) || Small(g.nodes[j]))
  {
    EdgeIndexed(pairs, u, j);
    var g := Build(pairs);
    BuildOk(pairs);
    var v := g.nodes[j];
    PositionDistinct(g.nodes, j);
    assert Links(g, u, v) > 0;
    BuildLinks(pairs, u, v);
    IncidenceWitness(pairs, u, v);
  }

  /** The lines join no cave to itself, and no two lines join the same two caves, in either direction. */
  predicate NoRepeatedLine(pairs: seq<(string, string)>)
  {
    && (forall k :: 0 <= k < |pairs| ==> pairs[k].0 != pairs[k].1)
    && (forall k, m :: 0 <= k < m < |pairs| ==>
         !((pairs[k].0 == pairs[m].0 && pairs[k].1 == pairs[m].1) || (pairs[k].0 == pairs[m].1 && pairs[k].1 == pairs[m].0)))
  }

  /** Without a repeated line, two caves are joined at most once. */
  lemma {:induction false} IncidenceOnce(pairs: seq<(string, string)>, u: string, v: string)
    requires NoRepeatedLine(pairs)
    ensures Incidence(pairs, u, v) <= 1
  {
    if pairs != [] {
      var n := |pairs|;
      var prefix := pairs[..n - 1];
      assert forall k :: 0 <= k < n - 1 ==> prefix[k] == pairs[k];
      assert NoRepeatedLine(prefix);
      IncidenceOnce(prefix, u, v);
      if Incidence(prefix, u, v) > 0 {
        IncidenceWitness(prefix, u, v);
        var k :| 0 <= k < n - 1 && ((prefix[k].0 == u && prefix[k].1 == v) || (prefix[k].1 == u && prefix[k].0 == v));
        assert prefix[k] == pairs[k];
      }
    }
  }

  /** A value at two positions of a list is counted at least twice in it. */
  lemma ListedTwice(s: seq<nat>, i: nat, k: nat)
    requires i < k < |s| && s[i] == s[k]
    ensures multiset(s)[s[i]] >= 2
  {
    assert s == s[..k] + s[k..];
    assert multiset(s) == multiset(s[..k]) + multiset(s[k..]);
    assert s[..k][i] == s[i] && s[k..][0] == s[k];
  }

  /** Lines 36-39 on lines that repeat no edge: each neighbour list names every cave once. */
  lemma BuildSimple(pairs: seq<(string, string)>)
    requires NoRepeatedLine(pairs)
    ensures SimpleLinks(Build(pairs))
  {
    var g := Build(pairs);
    BuildOk(pairs);
    forall u, i, k | u in g.edges && 0 <= i < k < |g.edges[u]| && g.edges[u][i] < |g.nodes| && g.edges[u][k] < |g.nodes|
      ensures g.nodes[g.edges[u][i]] != g.nodes[g.edges[u][k]]
    {
      var p, p' := g.edges[u][i], g.edges[u][k];
      if g.nodes[p] == g.nodes[p'] {
        var v := g.nodes[p];
        assert p == p';
        PositionDistinct(g.nodes, p);
        ListedTwice(g.edges[u], i, k);
        BuildLinks(pairs, u, v);
        IncidenceOnce(pairs, u, v);
      }
    }
  }
}
