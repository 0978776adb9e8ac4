/**
 * Model of day8/src/main.rs: recognising the digits of scrambled
 * seven-segment displays. A display token is a string of segment letters;
 * it is compared as the set of its letters.
 */
module Segments {
  import opened Wrappers

  // ---------------------------------------------------------------------
  // Part one: tokens of a length only one digit has
  // ---------------------------------------------------------------------

  /** Lengths 2, 3, 4 and 7 belong to the digits 1, 7, 4 and 8 alone. */
  predicate UniqueLength(token: string)
  {
    |token| == 2 || |token| == 3 || |token| == 4 || |token| == 7
  }

  function UniqueInLine(line: seq<string>): nat
  {
    if line == [] then 0
    else UniqueInLine(line[..|line| - 1]) + (if UniqueLength(line[|line| - 1]) then 1 else 0)
  }

  function UniqueCount(outputValues: seq<seq<string>>): nat
  {
    if outputValues == [] then 0
    else UniqueCount(outputValues[..|outputValues| - 1]) + UniqueInLine(outputValues[|outputValues| - 1])
  }

  /** `get_unique_number_count`: the number of output tokens, over all lines, of a unique length. */
  method UniqueNumberCount(outputValues: seq<seq<string>>) returns (count: nat)
    ensures count == UniqueCount(outputValues)
  {
    count := 0;
    for l := 0 to |outputValues|
      invariant count == UniqueCount(outputValues[..l])
    {
      assert outputValues[..l + 1][..l] == outputValues[..l];
      var line := outputValues[l];
      var inLine := 0;
      for k := 0 to |line|
        invariant inLine == UniqueInLine(line[..k])
      {
        assert line[..k + 1][..k] == line[..k];
        if UniqueLength(line[k]) {
          inLine := inLine + 1;
        }
      }
      assert line[..|line|] == line;
      count := count + inLine;
    }
    assert outputValues[..|outputValues|] == outputValues;
  }

  // ---------------------------------------------------------------------
  // The seven-segment digits and rewirings of their segments
  // ---------------------------------------------------------------------

  const SegmentLetters: set<char> := {'a', 'b', 'c', 'd', 'e', 'f', 'g'}

  /** The segments lit for digit `d` on a correctly wired display. */
  function Pattern(d: nat): (p: set<char>)
    requires d < 10
    ensures p <= SegmentLetters
  {
    [ {'a', 'b', 'c', 'e', 'f', 'g'}, {'c', 'f'}, {'a', 'c', 'd', 'e', 'g'}, {'a', 'c', 'd', 'f', 'g'},
      {'b', 'c', 'd', 'f'}, {'a', 'b', 'd', 'f', 'g'}, {'a', 'b', 'd', 'e', 'f', 'g'}, {'a', 'c', 'f'},
      {'a', 'b', 'c', 'd', 'e', 'f', 'g'}, {'a', 'b', 'c', 'd', 'f', 'g'} ][d]
  }

  /** Only digits 1, 4, 7 and 8 have the lengths part one counts. */
  lemma UniqueLengthDigits(d: nat)
    requires d < 10
    ensures (|Pattern(d)| == 2 || |Pattern(d)| == 3 || |Pattern(d)| == 4 || |Pattern(d)| == 7)
            <==> (d == 1 || d == 4 || d == 7 || d == 8)
  {
  }

  /** A scrambled display: segment `x` of the digit lights wire `w[x]`, distinct segments on distinct wires. */
  predicate Wiring(w: map<char, char>)
  {
    w.Keys == SegmentLetters && forall x, y :: x in w && y in w && x != y ==> w[x] != w[y]
  }

  function Image(w: map<char, char>, a: set<char>): set<char>
    requires a <= w.Keys
  {
    set x | x in a :: w[x]
  }

  lemma {:induction false} ImageSize(w: map<char, char>, a: set<char>)
    requires Wiring(w) && a <= w.Keys
    ensures |Image(w, a)| == |a|
    decreases a
  {
    if a != {} {
      var x :| x in a;
      ImageSize(w, a - {x});
      assert Image(w, a) == Image(w, a - {x}) + {w[x]};
      assert w[x] !in Image(w, a - {x});
    }
  }

  lemma ImageSubset(w: map<char, char>, a: set<char>, b: set<char>)
    requires Wiring(w) && a <= w.Keys && b <= w.Keys
    ensures Image(w, a) <= Image(w, b) <==> a <= b
  {
    if Image(w, a) <= Image(w, b) {
      forall x | x in a
        ensures x in b
      {
        assert w[x] in Image(w, b);
      }
    }
  }

  // ---------------------------------------------------------------------
  // Part two: the decode table
  // ---------------------------------------------------------------------

  /** The letters of a token, as `chars().map(to_string).collect::<HashSet<_>>()`. */
  function SegmentSet(token: string): set<char>
  {
    set c | c in token
  }

  function Sets(tokens: seq<string>): (r: seq<set<char>>)
    ensures |r| == |tokens|
    ensures forall i :: 0 <= i < |tokens| ==> r[i] == SegmentSet(tokens[i])
  {
    if tokens == [] then [] else Sets(tokens[..|tokens| - 1]) + [SegmentSet(tokens[|tokens| - 1])]
  }

  /** The tests the decoding passes apply to one candidate set. */
  datatype Rule =
    | Size(n: nat)                         // as many segments as `n`
    | Covers(n: nat, part: set<char>)      // size `n` and a superset of `part`
    | Misses(n: nat, part: set<char>)      // size `n` and not a superset of `part`
    | Within(n: nat, whole: set<char>)     // size `n` and a subset of `whole`
    | Outside(n: nat, whole: set<char>)    // size `n` and not a subset of `whole`

  predicate Holds(r: Rule, s: set<char>)
  {
    |s| == r.n &&
    match r
    case Size(_) => true
    case Covers(_, part) => part <= s
    case Misses(_, part) => !(part <= s)
    case Within(_, whole) => s <= whole
    case Outside(_, whole) => !(s <= whole)
  }

  /** The index of the last set satisfying `r`. */
  function LastWhere(sets: seq<set<char>>, r: Rule): (o: Option<nat>)
    ensures o.Some? ==> o.value < |sets| && Holds(r, sets[o.value])
    ensures o.Some? ==> forall j :: o.value < j < |sets| ==> !Holds(r, sets[j])
    ensures o.None? ==> forall j :: 0 <= j < |sets| ==> !Holds(r, sets[j])
  {
    if sets == [] then None
    else if Holds(r, sets[|sets| - 1]) then Some(|sets| - 1)
    else
      var o := LastWhere(sets[..|sets| - 1], r);
      assert forall j :: 0 <= j < |sets| - 1 ==> sets[..|sets| - 1][j] == sets[j];
      o
  }

  /** The index of the first set satisfying `r`. */
  function FirstWhere(sets: seq<set<char>>, r: Rule): (o: Option<nat>)
    ensures o.Some? ==> o.value < |sets| && Holds(r, sets[o.value])
    ensures o.Some? ==> forall j :: 0 <= j < o.value ==> !Holds(r, sets[j])
    ensures o.None? ==> forall j :: 0 <= j < |sets| ==> !Holds(r, sets[j])
  {
    if sets == [] then None
    else
      var o := FirstWhere(sets[..|sets| - 1], r);
      assert forall j :: 0 <= j < |sets| - 1 ==> sets[..|sets| - 1][j] == sets[j];
      if o.Some? then o
      else if Holds(r, sets[|sets| - 1]) then Some(|sets| - 1)
      else None
  }

  lemma LastWhereStep(sets: seq<set<char>>, i: nat, r: Rule)
    requires i < |sets|
    ensures LastWhere(sets[..i + 1], r) == if Holds(r, sets[i]) then Some(i) else LastWhere(sets[..i], r)
  {
    assert sets[..i + 1][..i] == sets[..i];
  }

  /** The entry a last-match search keeps after one more set: that set if it passes, else the entry before. */
  lemma PickStep(sets: seq<set<char>>, i: nat, r: Rule, dflt: set<char>, cur: set<char>, next: set<char>)
    requires i < |sets|
    requires cur == Pick(sets, LastWhere(sets[..i], r), dflt)
    requires next == if Holds(r, sets[i]) then sets[i] else cur
    ensures next == Pick(sets, LastWhere(sets[..i + 1], r), dflt)
  {
    LastWhereStep(sets, i, r);
  }

  lemma FirstWhereStep(sets: seq<set<char>>, i: nat, r: Rule)
    requires i < |sets| && FirstWhere(sets[..i], r) == None
    ensures FirstWhere(sets[..i + 1], r) == if Holds(r, sets[i]) then Some(i) else None
  {
    assert sets[..i + 1][..i] == sets[..i];
  }

  lemma FirstWhereUnique(sets: seq<set<char>>, r: Rule, i: nat)
    requires i < |sets| && Holds(r, sets[i])
    requires forall j :: 0 <= j < i ==> !Holds(r, sets[j])
    ensures FirstWhere(sets, r) == Some(i)
  {
  }

  lemma LastWhereUnique(sets: seq<set<char>>, r: Rule, i: nat)
    requires i < |sets| && Holds(r, sets[i])
    requires forall j :: i < j < |sets| ==> !Holds(r, sets[j])
    ensures LastWhere(sets, r) == Some(i)
  {
  }

  /** The set a search found, or `dflt` when it found nothing. */
  function Pick(sets: seq<set<char>>, o: Option<nat>, dflt: set<char>): set<char>
  {
    if o.Some? && o.value < |sets| then sets[o.value] else dflt
  }

  function RemoveAt<T>(s: seq<T>, o: Option<nat>): (r: seq<T>)
    ensures o.Some? && o.value < |s| ==> |r| == |s| - 1
    ensures o.None? || o.value >= |s| ==> r == s
  {
    if o.Some? && o.value < |s| then s[..o.value] + s[o.value + 1..] else s
  }

  /**
   * The table `generate_decode_input_set` builds, digit by digit: 1, 7, 4, 8
   * are the last set of their size; 3 is the first 5-set covering 7, and is
   * taken out; 9 is the first remaining 6-set covering 3, and is taken out;
   * of what is left, the last 6-set covering 7 is 0 and the last one not
   * covering it is 6, the last 5-set inside 9 is 5 and the last one not
   * inside it is 2. A digit nothing matched stays empty.
   */
  function One(sets: seq<set<char>>): set<char> { Pick(sets, LastWhere(sets, Size(2)), {}) }
  function Seven(sets: seq<set<char>>): set<char> { Pick(sets, LastWhere(sets, Size(3)), {}) }
  function Four(sets: seq<set<char>>): set<char> { Pick(sets, LastWhere(sets, Size(4)), {}) }
  function Eight(sets: seq<set<char>>): set<char> { Pick(sets, LastWhere(sets, Size(7)), {}) }
  function Three(sets: seq<set<char>>): set<char> { Pick(sets, FirstWhere(sets, Covers(5, Seven(sets))), {}) }
  /** The input sets once digit 3 is taken out. */
  function Rest(sets: seq<set<char>>): seq<set<char>> { RemoveAt(sets, FirstWhere(sets, Covers(5, Seven(sets)))) }
  function Nine(sets: seq<set<char>>): set<char> { Pick(Rest(sets), FirstWhere(Rest(sets), Covers(6, Three(sets))), {}) }
  /** The input sets once digits 3 and 9 are taken out. */
  function Left(sets: seq<set<char>>): seq<set<char>> { RemoveAt(Rest(sets), FirstWhere(Rest(sets), Covers(6, Three(sets)))) }
  function Zero(sets: seq<set<char>>): set<char> { Pick(Left(sets), LastWhere(Left(sets), Covers(6, Seven(sets))), {}) }
  function Six(sets: seq<set<char>>): set<char> { Pick(Left(sets), LastWhere(Left(sets), Misses(6, Seven(sets))), {}) }
  function Five(sets: seq<set<char>>): set<char> { Pick(Left(sets), LastWhere(Left(sets), Within(5, Nine(sets))), {}) }
  function Two(sets: seq<set<char>>): set<char> { Pick(Left(sets), LastWhere(Left(sets), Outside(5, Nine(sets))), {}) }

  /** `t` is the table built from `sets`: entry `d` holds what the search for digit `d` found. */
  predicate TableOf(t: seq<set<char>>, sets: seq<set<char>>)
  {
    |t| == 10 &&
    t[0] == Zero(sets) && t[1] == One(sets) && t[2] == Two(sets) && t[3] == Three(sets) && t[4] == Four(sets) &&
    t[5] == Five(sets) && t[6] == Six(sets) && t[7] == Seven(sets) && t[8] == Eight(sets) && t[9] == Nine(sets)
  }

  /** Lines 74-82: a set of size 2, 3, 4 or 7 becomes digit 1, 7, 4 or 8; a later one replaces an earlier one. */
  method SizePass(inputSet: seq<set<char>>, table: seq<set<char>>) returns (decodeSet: seq<set<char>>)
    requires |table| == 10
    ensures |decodeSet| == 10
    ensures decodeSet[1] == Pick(inputSet, LastWhere(inputSet, Size(2)), table[1])
    ensures decodeSet[7] == Pick(inputSet, LastWhere(inputSet, Size(3)), table[7])
    ensures decodeSet[4] == Pick(inputSet, LastWhere(inputSet, Size(4)), table[4])
    ensures decodeSet[8] == Pick(inputSet, LastWhere(inputSet, Size(7)), table[8])
    ensures forall k :: 0 <= k < 10 && k != 1 && k != 4 && k != 7 && k != 8 ==> decodeSet[k] == table[k]
  {
    decodeSet := table;
    for i := 0 to |inputSet|
      invariant |decodeSet| == 10
      invariant decodeSet[1] == Pick(inputSet, LastWhere(inputSet[..i], Size(2)), table[1])
      invariant decodeSet[7] == Pick(inputSet, LastWhere(inputSet[..i], Size(3)), table[7])
      invariant decodeSet[4] == Pick(inputSet, LastWhere(inputSet[..i], Size(4)), table[4])
      invariant decodeSet[8] == Pick(inputSet, LastWhere(inputSet[..i], Size(7)), table[8])
      invariant forall k :: 0 <= k < 10 && k != 1 && k != 4 && k != 7 && k != 8 ==> decodeSet[k] == table[k]
    {
      ghost var before := decodeSet;
      decodeSet := SizeStep(inputSet[i], decodeSet);
      PickStep(inputSet, i, Size(2), table[1], before[1], decodeSet[1]);
      PickStep(inputSet, i, Size(3), table[7], before[7], decodeSet[7]);
      PickStep(inputSet, i, Size(4), table[4], before[4], decodeSet[4]);
      PickStep(inputSet, i, Size(7), table[8], before[8], decodeSet[8]);
    }
    assert inputSet[..|inputSet|] == inputSet;
  }

  /** The body of the loop of lines 74-82 for one set. */
  method SizeStep(s: set<char>, decodeSet: seq<set<char>>) returns (decodeSet': seq<set<char>>)
    requires |decodeSet| == 10
    ensures |decodeSet'| == 10
    ensures decodeSet'[1] == (if |s| == 2 then s else decodeSet[1])
    ensures decodeSet'[7] == (if |s| == 3 then s else decodeSet[7])
    ensures decodeSet'[4] == (if |s| == 4 then s else decodeSet[4])
    ensures decodeSet'[8] == (if |s| == 7 then s else decodeSet[8])
    ensures forall k :: 0 <= k < 10 && k != 1 && k != 4 && k != 7 && k != 8 ==> decodeSet'[k] == decodeSet[k]
  {
    decodeSet' := decodeSet;
    if |s| == 2 {
      decodeSet' := decodeSet[1 := s];
    } else if |s| == 3 {
      decodeSet' := decodeSet[7 := s];
    } else if |s| == 4 {
      decodeSet' := decodeSet[4 := s];
    } else if |s| == 7 {
      decodeSet' := decodeSet[8 := s];
    }
  }

  /**
   * Lines 84-98: the first set satisfying `r` becomes digit `k` and is
   * removed from the input sets; without one, both stay as they are.
   */
  method TakeFirst(inputSet: seq<set<char>>, table: seq<set<char>>, r: Rule, k: nat)
    returns (decodeSet: seq<set<char>>, remaining: seq<set<char>>)
    requires k < |table|
    ensures |decodeSet| == |table|
    ensures decodeSet[k] == Pick(inputSet, FirstWhere(inputSet, r), table[k])
    ensures forall j :: 0 <= j < |table| && j != k ==> decodeSet[j] == table[j]
    ensures remaining == RemoveAt(inputSet, FirstWhere(inputSet, r))
  {
    decodeSet, remaining := table, inputSet;
    for i := 0 to |inputSet|
      invariant decodeSet == table && remaining == inputSet
      invariant FirstWhere(inputSet[..i], r) == None
    {
      if Holds(r, remaining[i]) {
        FirstWhereUnique(inputSet, r, i);
        assert Pick(inputSet, FirstWhere(inputSet, r), table[k]) == inputSet[i];
        assert RemoveAt(inputSet, FirstWhere(inputSet, r)) == inputSet[..i] + inputSet[i + 1..];
        decodeSet := decodeSet[k := remaining[i]];
        remaining := remaining[..i] + remaining[i + 1..];
        return;
      }
      FirstWhereStep(inputSet, i, r);
    }
    assert inputSet[..|inputSet|] == inputSet;
  }

  /** Lines 100-116: each remaining 6-set becomes 0 or 6 and each remaining 5-set 5 or 2; later ones replace earlier ones. */
  method SplitPass(inputSet: seq<set<char>>, table: seq<set<char>>) returns (decodeSet: seq<set<char>>)
    requires |table| == 10
    ensures |decodeSet| == 10
    ensures decodeSet[0] == Pick(inputSet, LastWhere(inputSet, Covers(6, table[7])), table[0])
    ensures decodeSet[6] == Pick(inputSet, LastWhere(inputSet, Misses(6, table[7])), table[6])
    ensures decodeSet[5] == Pick(inputSet, LastWhere(inputSet, Within(5, table[9])), table[5])
    ensures decodeSet[2] == Pick(inputSet, LastWhere(inputSet, Outside(5, table[9])), table[2])
    ensures forall k :: 0 <= k < 10 && k != 0 && k != 6 && k != 5 && k != 2 ==> decodeSet[k] == table[k]
  {
    decodeSet := table;
    for i := 0 to |inputSet|
      invariant |decodeSet| == 10
      invariant decodeSet[0] == Pick(inputSet, LastWhere(inputSet[..i], Covers(6, table[7])), table[0])
      invariant decodeSet[6] == Pick(inputSet, LastWhere(inputSet[..i], Misses(6, table[7])), table[6])
      invariant decodeSet[5] == Pick(inputSet, LastWhere(inputSet[..i], Within(5, table[9])), table[5])
      invariant decodeSet[2] == Pick(inputSet, LastWhere(inputSet[..i], Outside(5, table[9])), table[2])
      invariant forall k :: 0 <= k < 10 && k != 0 && k != 6 && k != 5 && k != 2 ==> decodeSet[k] == table[k]
    {
      ghost var before := decodeSet;
      decodeSet := SplitStep(inputSet[i], decodeSet);
      PickStep(inputSet, i, Covers(6, table[7]), table[0], before[0], decodeSet[0]);
      PickStep(inputSet, i, Misses(6, table[7]), table[6], before[6], decodeSet[6]);
      PickStep(inputSet, i, Within(5, table[9]), table[5], before[5], decodeSet[5]);
      PickStep(inputSet, i, Outside(5, table[9]), table[2], before[2], decodeSet[2]);
    }
    assert inputSet[..|inputSet|] == inputSet;
  }

  /** The body of the loop of lines 100-116 for one set. */
  method SplitStep(s: set<char>, decodeSet: seq<set<char>>) returns (decodeSet': seq<set<char>>)
    requires |decodeSet| == 10
    ensures |decodeSet'| == 10
    ensures decodeSet'[0] == (if |s| == 6 && decodeSet[7] <= s then s else decodeSet[0])
    ensures decodeSet'[6] == (if |s| == 6 && !(decodeSet[7] <= s) then s else decodeSet[6])
    ensures decodeSet'[5] == (if |s| == 5 && s <= decodeSet[9] then s else decodeSet[5])
    ensures decodeSet'[2] == (if |s| == 5 && !(s <= decodeSet[9]) then s else decodeSet[2])
    ensures forall k :: 0 <= k < 10 && k != 0 && k != 6 && k != 5 && k != 2 ==> decodeSet'[k] == decodeSet[k]
  {
    decodeSet' := decodeSet;
    if |s| == 6 {
      if decodeSet[7] <= s {
        decodeSet' := decodeSet'[0 := s];
      } else {
        decodeSet' := decodeSet'[6 := s];
      }
    }
    if |s| == 5 {
      if s <= decodeSet'[9] {
        decodeSet' := decodeSet'[5 := s];
      } else {
        decodeSet' := decodeSet'[2 := s];
      }
    }
  }

  /** Lines 64-72: the letter set of every token, in order. */
  method LetterSets(tokens: seq<string>) returns (inputSet: seq<set<char>>)
    ensures inputSet == Sets(tokens)
  {
    inputSet := [];
    for i := 0 to |tokens|
      invariant inputSet == Sets(tokens[..i])
    {
      assert tokens[..i + 1][..i] == tokens[..i];
      inputSet := inputSet + [SegmentSet(tokens[i])];
    }
    assert tokens[..|tokens|] == tokens;
  }

  /** `generate_decode_input_set`: four passes over the letter sets of the ten input tokens. */
  method GenerateDecodeInputSet(inputLineValues: seq<string>) returns (decodeSet: seq<set<char>>)
    ensures decodeSet == DecodeTable(Sets(inputLineValues))
  {
    var inputSet := LetterSets(inputLineValues);
    ghost var sets := inputSet;
    decodeSet := SizePass(inputSet, [{}, {}, {}, {}, {}, {}, {}, {}, {}, {}]);
    assert decodeSet[7] == Seven(sets);
    decodeSet, inputSet := TakeFirst(inputSet, decodeSet, Covers(5, decodeSet[7]), 3);
    assert inputSet == Rest(sets) && decodeSet[3] == Three(sets);
    decodeSet, inputSet := TakeFirst(inputSet, decodeSet, Covers(6, decodeSet[3]), 9);
    assert inputSet == Left(sets) && decodeSet[9] == Nine(sets);
    ghost var middle := decodeSet;
    decodeSet := SplitPass(inputSet, decodeSet);
    assert decodeSet[0] == Zero(sets) && decodeSet[6] == Six(sets) by {
      assert middle[7] == Seven(sets);
    }
    assert decodeSet[5] == Five(sets) && decodeSet[2] == Two(sets) by {
      assert middle[9] == Nine(sets);
    }
    TableOfIsDecodeTable(decodeSet, sets);
  }

  /** What the search for digit `d` found. */
  function Entry(sets: seq<set<char>>, d: nat): set<char>
    requires d < 10
  {
    if d == 0 then Zero(sets) else if d == 1 then One(sets) else if d == 2 then Two(sets)
    else if d == 3 then Three(sets) else if d == 4 then Four(sets) else if d == 5 then Five(sets)
    else if d == 6 then Six(sets) else if d == 7 then Seven(sets) else if d == 8 then Eight(sets)
    else Nine(sets)
  }

  function DecodeTable(sets: seq<set<char>>): (t: seq<set<char>>)
  {
    seq(10, d requires 0 <= d < 10 => Entry(sets, d))
  }

  lemma TableOfIsDecodeTable(t: seq<set<char>>, sets: seq<set<char>>)
    requires TableOf(t, sets)
    ensures t == DecodeTable(sets)
  {
    var e := DecodeTable(sets);
    forall d | 0 <= d < 10
      ensures t[d] == e[d]
    {
    }
  }

  // ---------------------------------------------------------------------
  // Reading the output digits
  // ---------------------------------------------------------------------

  /** The table positions, in increasing order, whose set equals `out`. */
  function Matches(table: seq<set<char>>, out: set<char>): (ds: seq<nat>)
    ensures forall k :: 0 <= k < |ds| ==> ds[k] < |table| && table[ds[k]] == out
  {
    if table == [] then []
    else Matches(table[..|table| - 1], out) + (if table[|table| - 1] == out then [|table| - 1] else [])
  }

  /** Every digit matched, least significant first: the last output token comes first. */
  function Digits(table: seq<set<char>>, outs: seq<set<char>>): seq<nat>
  {
    if outs == [] then [] else Digits(table, outs[1..]) + Matches(table, outs[0])
  }

  function Pow10(n: nat): nat
  {
    if n == 0 then 1 else 10 * Pow10(n - 1)
  }

  /** The number whose decimal digits, least significant first, are `ds`. */
  function LsdValue(ds: seq<nat>): nat
  {
    if ds == [] then 0 else ds[0] + 10 * LsdValue(ds[1..])
  }

  /** The number whose decimal digits, most significant first, are `ds`. */
  function Decimal(ds: seq<nat>): nat
  {
    if ds == [] then 0 else ds[0] * Pow10(|ds| - 1) + Decimal(ds[1..])
  }

  function Reverse(ds: seq<nat>): (r: seq<nat>)
    ensures |r| == |ds|
  {
    if ds == [] then [] else Reverse(ds[1..]) + [ds[0]]
  }

  lemma {:induction false} LsdAppend(ds: seq<nat>, d: nat)
    ensures LsdValue(ds + [d]) == LsdValue(ds) + d * Pow10(|ds|)
  {
    if ds != [] {
      assert (ds + [d])[1..] == ds[1..] + [d];
      LsdAppend(ds[1..], d);
      var rest, p := LsdValue(ds[1..]), Pow10(|ds| - 1);
      assert Pow10(|ds|) == 10 * p;
      calc {
        LsdValue(ds + [d]);
        ds[0] + 10 * (rest + d * p);
        { assert 10 * (rest + d * p) == 10 * rest + d * (10 * p); }
        ds[0] + 10 * rest + d * Pow10(|ds|);
      }
    }
  }

  lemma {:induction false} LsdReverse(ds: seq<nat>)
    ensures LsdValue(Reverse(ds)) == Decimal(ds)
  {
    if ds != [] {
      LsdReverse(ds[1..]);
      LsdAppend(Reverse(ds[1..]), ds[0]);
    }
  }

  /**
   * Lines 140-151: the output sets are read from the last to the first; each
   * table position equal to one adds its index times the current weight, and
   * only a match multiplies the weight by ten.
   */
  method DecodeOutput(decodeInputSet: seq<set<char>>, outputPredecode: seq<set<char>>) returns (decodeOutputNumber: nat)
    ensures decodeOutputNumber == LsdValue(Digits(decodeInputSet, outputPredecode))
  {
    var n := 1;
    decodeOutputNumber := 0;
    ghost var ds: seq<nat> := [];
    for j := |outputPredecode| downto 0
      invariant ds == Digits(decodeInputSet, outputPredecode[j..])
      invariant decodeOutputNumber == LsdValue(ds) && n == Pow10(|ds|)
    {
      var outputNumber := outputPredecode[j];
      decodeOutputNumber, n := AddMatches(decodeInputSet, outputNumber, ds, decodeOutputNumber, n);
      ds := ds + Matches(decodeInputSet, outputNumber);
      assert outputPredecode[j..][1..] == outputPredecode[j + 1..];
    }
  }

  /**
   * The inner loop of lines 144-149 for one output set: every table
   * position holding that set is appended as the next digit, at the current
   * weight, which then grows tenfold.
   */
  method AddMatches(decodeInputSet: seq<set<char>>, outputNumber: set<char>, ghost ds: seq<nat>, value: nat, weight: nat)
    returns (value': nat, weight': nat)
    requires value == LsdValue(ds) && weight == Pow10(|ds|)
    ensures value' == LsdValue(ds + Matches(decodeInputSet, outputNumber))
    ensures weight' == Pow10(|ds + Matches(decodeInputSet, outputNumber)|)
  {
    value', weight' := value, weight;
    ghost var acc := ds;
    for number := 0 to |decodeInputSet|
      invariant acc == ds + Matches(decodeInputSet[..number], outputNumber)
      invariant value' == LsdValue(acc) && weight' == Pow10(|acc|)
    {
      assert decodeInputSet[..number + 1][..number] == decodeInputSet[..number];
      if outputNumber == decodeInputSet[number] {
        LsdAppend(acc, number);
        value' := value' + number * weight';
        weight' := weight' * 10;
        acc := acc + [number];
      }
    }
    assert decodeInputSet[..|decodeInputSet|] == decodeInputSet;
  }

  /** The value `get_decode_numbers` gives one line. */
  function LineValue(inputLineValues: seq<string>, outputLineValues: seq<string>): nat
  {
    LsdValue(Digits(DecodeTable(Sets(inputLineValues)), Sets(outputLineValues)))
  }

  /** `get_decode_numbers`: one value per output line, decoded with the table of the input line at the same index. */
  method GetDecodeNumbers(inputValues: seq<seq<string>>, outputValues: seq<seq<string>>) returns (decodeNumbers: seq<nat>)
    requires |outputValues| <= |inputValues|
    ensures |decodeNumbers| == |outputValues|
    ensures forall i :: 0 <= i < |outputValues| ==> decodeNumbers[i] == LineValue(inputValues[i], outputValues[i])
  {
    decodeNumbers := [];
    for index := 0 to |outputValues|
      invariant |decodeNumbers| == index
      invariant forall i :: 0 <= i < index ==> decodeNumbers[i] == LineValue(inputValues[i], outputValues[i])
    {
      var decodeOutputNumber := DecodeLine(inputValues[index], outputValues[index]);
      decodeNumbers := decodeNumbers + [decodeOutputNumber];
    }
  }

  /** One iteration of `get_decode_numbers`: the table of the input tokens applied to the output tokens. */
  method DecodeLine(inputLineValues: seq<string>, outputLineValues: seq<string>) returns (decodeOutputNumber: nat)
    ensures decodeOutputNumber == LineValue(inputLineValues, outputLineValues)
  {
    var outputPredecode := LetterSets(outputLineValues);
    var decodeInputSet := GenerateDecodeInputSet(inputLineValues);
    decodeOutputNumber := DecodeOutput(decodeInputSet, outputPredecode);
  }

  // ---------------------------------------------------------------------
  // Correctness on a scrambled display
  // ---------------------------------------------------------------------

  /** The set a rule mentions, if any. */
  function RuleSet(r: Rule): set<char>
  {
    match r
    case Size(_) => {}
    case Covers(_, part) => part
    case Misses(_, part) => part
    case Within(_, whole) => whole
    case Outside(_, whole) => whole
  }

  /** The same rule with its set seen through the wiring. */
  function Wired(w: map<char, char>, r: Rule): Rule
    requires RuleSet(r) <= w.Keys
  {
    match r
    case Size(n) => Size(n)
    case Covers(n, part) => Covers(n, Image(w, part))
    case Misses(n, part) => Misses(n, Image(w, part))
    case Within(n, whole) => Within(n, Image(w, whole))
    case Outside(n, whole) => Outside(n, Image(w, whole))
  }

  /** A rewiring preserves sizes and inclusions, so a rule holds of a wired set exactly when it holds of the original. */
  lemma HoldsWired(w: map<char, char>, r: Rule, a: set<char>)
    requires Wiring(w) && RuleSet(r) <= w.Keys && a <= w.Keys
    ensures Holds(Wired(w, r), Image(w, a)) == Holds(r, a)
  {
    ImageSize(w, a);
    ImageSubset(w, RuleSet(r), a);
    ImageSubset(w, a, RuleSet(r));
  }

  /**
   * `sets` shows the digits `perm` through wiring `w`, each digit of
   * `digits` exactly once.
   */
  predicate Shows(w: map<char, char>, sets: seq<set<char>>, perm: seq<nat>, digits: set<nat>)
  {
    Wiring(w) && |perm| == |sets| &&
    (forall j :: 0 <= j < |perm| ==> perm[j] in digits && perm[j] < 10 && sets[j] == Image(w, Pattern(perm[j]))) &&
    (forall i, j :: 0 <= i < j < |perm| ==> perm[i] != perm[j]) &&
    (forall d :: d in digits ==> d in perm)
  }

  lemma RemoveAtIndex<T>(s: seq<T>, j: nat)
    requires j < |s|
    ensures |RemoveAt(s, Some(j))| == |s| - 1
    ensures forall i :: 0 <= i < j ==> RemoveAt(s, Some(j))[i] == s[i]
    ensures forall i :: j <= i < |s| - 1 ==> RemoveAt(s, Some(j))[i] == s[i + 1]
  {
  }

  lemma RemoveShown(w: map<char, char>, sets: seq<set<char>>, perm: seq<nat>, digits: set<nat>, j: nat)
    requires Shows(w, sets, perm, digits) && j < |sets|
    ensures Shows(w, RemoveAt(sets, Some(j)), RemoveAt(perm, Some(j)), digits - {perm[j]})
  {
    var s, p := RemoveAt(sets, Some(j)), RemoveAt(perm, Some(j));
    RemoveAtIndex(sets, j);
    RemoveAtIndex(perm, j);
    forall i | 0 <= i < |p|
      ensures p[i] in digits - {perm[j]} && p[i] < 10 && s[i] == Image(w, Pattern(p[i]))
    {
      if i < j {
        assert p[i] == perm[i] && s[i] == sets[i];
      } else {
        assert p[i] == perm[i + 1] && s[i] == sets[i + 1];
      }
    }
    forall i, k | 0 <= i < k < |p|
      ensures p[i] != p[k]
    {
      var i' := if i < j then i else i + 1;
      var k' := if k < j then k else k + 1;
      assert p[i] == perm[i'] && p[k] == perm[k'] && i' < k';
    }
    forall d | d in digits - {perm[j]}
      ensures d in p
    {
      var i :| 0 <= i < |perm| && perm[i] == d;
      if i < j {
        assert p[i] == d;
      } else {
        assert p[i - 1] == d;
      }
    }
  }

  /** Among the digits `digits`, rule `r` holds of the pattern of `d` and of no other. */
  predicate Picks(r: Rule, digits: set<nat>, d: nat)
  {
    forall e :: e in digits && e < 10 ==> (Holds(r, Pattern(e)) <==> e == d)
  }

  /**
   * When, among the shown digits, `r` picks out digit `d` alone, both
   * searches find the one set showing `d`, and taking it out leaves the
   * other digits shown.
   */
  lemma FindShown(w: map<char, char>, sets: seq<set<char>>, perm: seq<nat>, digits: set<nat>, r: Rule, d: nat)
    requires Shows(w, sets, perm, digits) && d in digits && RuleSet(r) <= SegmentLetters
    requires Picks(r, digits, d)
    ensures d < 10
    ensures LastWhere(sets, Wired(w, r)) == FirstWhere(sets, Wired(w, r))
    ensures FirstWhere(sets, Wired(w, r)).Some?
    ensures Pick(sets, FirstWhere(sets, Wired(w, r)), {}) == Image(w, Pattern(d))
    ensures Shows(w, RemoveAt(sets, FirstWhere(sets, Wired(w, r))), RemoveAt(perm, FirstWhere(sets, Wired(w, r))), digits - {d})
  {
    var j :| 0 <= j < |perm| && perm[j] == d;
    forall i | 0 <= i < |sets|
      ensures Holds(Wired(w, r), sets[i]) <==> i == j
    {
      HoldsWired(w, r, Pattern(perm[i]));
    }
    FirstWhereUnique(sets, Wired(w, r), j);
    LastWhereUnique(sets, Wired(w, r), j);
    RemoveShown(w, sets, perm, digits, j);
  }

  const AllDigits: set<nat> := {0, 1, 2, 3, 4, 5, 6, 7, 8, 9}

  // The facts about the ten patterns that the decoding passes rely on.

  lemma PicksOne()
    ensures Picks(Size(2), AllDigits, 1)
  {
  }

  lemma PicksSeven()
    ensures Picks(Size(3), AllDigits, 7)
  {
  }

  lemma PicksFour()
    ensures Picks(Size(4), AllDigits, 4)
  {
  }

  lemma PicksEight()
    ensures Picks(Size(7), AllDigits, 8)
  {
  }

  lemma PicksThree()
    ensures Picks(Covers(5, Pattern(7)), AllDigits, 3)
  {
  }

  lemma PicksNine()
    ensures Picks(Covers(6, Pattern(3)), AllDigits - {3}, 9)
  {
  }

  lemma PicksZeroSix()
    ensures Picks(Covers(6, Pattern(7)), AllDigits - {3} - {9}, 0)
    ensures Picks(Misses(6, Pattern(7)), AllDigits - {3} - {9}, 6)
  {
  }

  lemma PicksFiveTwo()
    ensures Picks(Within(5, Pattern(9)), AllDigits - {3} - {9}, 5)
    ensures Picks(Outside(5, Pattern(9)), AllDigits - {3} - {9}, 2)
  {
  }

  /** The searches of lines 74-90 on a scrambled display: 1, 7, 4, 8 and then 3 are found. */
  lemma FirstPassesCorrect(w: map<char, char>, sets: seq<set<char>>, perm: seq<nat>)
    requires Shows(w, sets, perm, AllDigits)
    ensures One(sets) == WiredPatterns(w)[1] && Seven(sets) == WiredPatterns(w)[7]
    ensures Four(sets) == WiredPatterns(w)[4] && Eight(sets) == WiredPatterns(w)[8]
    ensures Three(sets) == WiredPatterns(w)[3]
    ensures Shows(w, Rest(sets), RemoveAt(perm, FirstWhere(sets, Covers(5, Seven(sets)))), AllDigits - {3})
  {
    PicksOne();
    PicksSeven();
    PicksFour();
    PicksEight();
    PicksThree();
    FindShown(w, sets, perm, AllDigits, Size(2), 1);
    FindShown(w, sets, perm, AllDigits, Size(3), 7);
    FindShown(w, sets, perm, AllDigits, Size(4), 4);
    FindShown(w, sets, perm, AllDigits, Size(7), 8);
    assert Wired(w, Covers(5, Pattern(7))) == Covers(5, Seven(sets));
    FindShown(w, sets, perm, AllDigits, Covers(5, Pattern(7)), 3);
  }

  /** The search of lines 92-98: 9 is found among the sets left once 3 is out. */
  lemma NinePassCorrect(w: map<char, char>, sets: seq<set<char>>, perm1: seq<nat>)
    requires Shows(w, Rest(sets), perm1, AllDigits - {3})
    requires Three(sets) == WiredPatterns(w)[3]
    ensures Nine(sets) == WiredPatterns(w)[9]
    ensures Shows(w, Left(sets), RemoveAt(perm1, FirstWhere(Rest(sets), Covers(6, Three(sets)))), AllDigits - {3} - {9})
  {
    PicksNine();
    assert Wired(w, Covers(6, Pattern(3))) == Covers(6, Three(sets));
    FindShown(w, Rest(sets), perm1, AllDigits - {3}, Covers(6, Pattern(3)), 9);
  }

  /** Line 103: among the sets left once 3 and 9 are out, 0 is the 6-set covering 7. */
  lemma ZeroFound(w: map<char, char>, sets: seq<set<char>>, perm2: seq<nat>)
    requires Shows(w, Left(sets), perm2, AllDigits - {3} - {9})
    requires Seven(sets) == WiredPatterns(w)[7]
    ensures Zero(sets) == WiredPatterns(w)[0]
  {
    PicksZeroSix();
    assert Wired(w, Covers(6, Pattern(7))) == Covers(6, Seven(sets));
    FindShown(w, Left(sets), perm2, AllDigits - {3} - {9}, Covers(6, Pattern(7)), 0);
  }

  /** Line 105: among the sets left once 3 and 9 are out, 6 is the 6-set not covering 7. */
  lemma SixFound(w: map<char, char>, sets: seq<set<char>>, perm2: seq<nat>)
    requires Shows(w, Left(sets), perm2, AllDigits - {3} - {9})
    requires Seven(sets) == WiredPatterns(w)[7]
    ensures Six(sets) == WiredPatterns(w)[6]
  {
    PicksZeroSix();
    assert Wired(w, Misses(6, Pattern(7))) == Misses(6, Seven(sets));
    FindShown(w, Left(sets), perm2, AllDigits - {3} - {9}, Misses(6, Pattern(7)), 6);
  }

  /** Line 111: among the sets left once 3 and 9 are out, 5 is the 5-set inside 9. */
  lemma FiveFound(w: map<char, char>, sets: seq<set<char>>, perm2: seq<nat>)
    requires Shows(w, Left(sets), perm2, AllDigits - {3} - {9})
    requires Nine(sets) == WiredPatterns(w)[9]
    ensures Five(sets) == WiredPatterns(w)[5]
  {
    PicksFiveTwo();
    assert Wired(w, Within(5, Pattern(9))) == Within(5, Nine(sets));
    FindShown(w, Left(sets), perm2, AllDigits - {3} - {9}, Within(5, Pattern(9)), 5);
  }

  /** Line 113: among the sets left once 3 and 9 are out, 2 is the 5-set not inside 9. */
  lemma TwoFound(w: map<char, char>, sets: seq<set<char>>, perm2: seq<nat>)
    requires Shows(w, Left(sets), perm2, AllDigits - {3} - {9})
    requires Nine(sets) == WiredPatterns(w)[9]
    ensures Two(sets) == WiredPatterns(w)[2]
  {
    PicksFiveTwo();
    assert Wired(w, Outside(5, Pattern(9))) == Outside(5, Nine(sets));
    FindShown(w, Left(sets), perm2, AllDigits - {3} - {9}, Outside(5, Pattern(9)), 2);
  }

  /** The ten wired digit patterns, in digit order. */
  function WiredPatterns(w: map<char, char>): (t: seq<set<char>>)
    requires Wiring(w)
    ensures |t| == 10 && forall d :: 0 <= d < 10 ==> t[d] == Image(w, Pattern(d))
  {
    seq(10, d requires 0 <= d < 10 => Image(w, Pattern(d)))
  }

  /** Each of the ten passes finds the wired pattern of its digit. */
  lemma DigitsFound(w: map<char, char>, sets: seq<set<char>>, perm: seq<nat>)
    requires Shows(w, sets, perm, AllDigits)
    ensures Zero(sets) == WiredPatterns(w)[0] && One(sets) == WiredPatterns(w)[1]
    ensures Two(sets) == WiredPatterns(w)[2] && Three(sets) == WiredPatterns(w)[3]
    ensures Four(sets) == WiredPatterns(w)[4] && Five(sets) == WiredPatterns(w)[5]
    ensures Six(sets) == WiredPatterns(w)[6] && Seven(sets) == WiredPatterns(w)[7]
    ensures Eight(sets) == WiredPatterns(w)[8] && Nine(sets) == WiredPatterns(w)[9]
  {
    FirstPassesCorrect(w, sets, perm);
    var perm1 := RemoveAt(perm, FirstWhere(sets, Covers(5, Seven(sets))));
    NinePassCorrect(w, sets, perm1);
    var perm2 := RemoveAt(perm1, FirstWhere(Rest(sets), Covers(6, Three(sets))));
    ZeroFound(w, sets, perm2);
    SixFound(w, sets, perm2);
    FiveFound(w, sets, perm2);
    TwoFound(w, sets, perm2);
  }

  /**
   * Whatever the wiring and whatever the order of the ten input tokens,
   * the decode table holds at position `d` the wired pattern of digit `d`.
   */
  lemma DecodeTableCorrect(w: map<char, char>, sets: seq<set<char>>, perm: seq<nat>)
    requires Shows(w, sets, perm, AllDigits)
    ensures forall d :: 0 <= d < 10 ==> DecodeTable(sets)[d] == Image(w, Pattern(d))
  {
    DigitsFound(w, sets, perm);
    TableFromDigits(sets, WiredPatterns(w));
  }

  /** A table whose ten entries are the given ten patterns, digit by digit. */
  lemma TableFromDigits(sets: seq<set<char>>, p: seq<set<char>>)
    requires |p| == 10
    requires Zero(sets) == p[0] && One(sets) == p[1] && Two(sets) == p[2] && Three(sets) == p[3]
    requires Four(sets) == p[4] && Five(sets) == p[5] && Six(sets) == p[6] && Seven(sets) == p[7]
    requires Eight(sets) == p[8] && Nine(sets) == p[9]
    ensures DecodeTable(sets) == p
  {
    var t := DecodeTable(sets);
    forall d | 0 <= d < 10
      ensures t[d] == p[d]
    {
      assert t[d] == Entry(sets, d);
    }
  }

  /** Reads a correctly wired pattern back as its digit, from its size and one or two telling segments. */
  function DigitOf(p: set<char>): nat
  {
    if |p| == 2 then 1
    else if |p| == 3 then 7
    else if |p| == 4 then 4
    else if |p| == 7 then 8
    else if |p| == 5 then (if 'e' in p then 2 else if 'b' in p then 5 else 3)
    else if 'd' !in p then 0
    else if 'c' !in p then 6
    else 9
  }

  lemma DigitOfPattern(d: nat)
    requires d < 10
    ensures DigitOf(Pattern(d)) == d
  {
  }

  /** No two digits light the same segments. */
  lemma PatternsDistinct(d: nat, e: nat)
    requires d < 10 && e < 10 && d != e
    ensures Pattern(d) != Pattern(e)
  {
    DigitOfPattern(d);
    DigitOfPattern(e);
  }

  /** The table of a scrambled display. */
  predicate WiredTable(w: map<char, char>, table: seq<set<char>>)
  {
    Wiring(w) && |table| == 10 && forall e :: 0 <= e < 10 ==> table[e] == Image(w, Pattern(e))
  }

  /** On such a table, the wired pattern of `d` matches position `d` and no other. */
  lemma {:induction false} MatchesWired(w: map<char, char>, table: seq<set<char>>, d: nat, k: nat)
    requires WiredTable(w, table) && d < 10 && k <= 10
    ensures Matches(table[..k], Image(w, Pattern(d))) == if d < k then [d] else []
  {
    if k > 0 {
      assert table[..k][..k - 1] == table[..k - 1];
      MatchesWired(w, table, d, k - 1);
      if k - 1 != d {
        PatternsDistinct(k - 1, d);
        ImageSubset(w, Pattern(k - 1), Pattern(d));
        ImageSubset(w, Pattern(d), Pattern(k - 1));
      }
    }
  }

  lemma {:induction false} DigitsWired(w: map<char, char>, table: seq<set<char>>, outs: seq<set<char>>, digits: seq<nat>)
    requires WiredTable(w, table) && |outs| == |digits|
    requires forall k :: 0 <= k < |digits| ==> digits[k] < 10 && outs[k] == Image(w, Pattern(digits[k]))
    ensures Digits(table, outs) == Reverse(digits)
  {
    if outs != [] {
      DigitsWired(w, table, outs[1..], digits[1..]);
      MatchesWired(w, table, digits[0], 10);
      assert table[..10] == table;
    }
  }

  /**
   * A line whose input tokens show the ten digits in any order and whose
   * output tokens show `digits`, all through the same wiring, decodes to the
   * decimal number `digits` spell.
   */
  lemma LineValueCorrect(w: map<char, char>, inputLineValues: seq<string>, outputLineValues: seq<string>,
                         perm: seq<nat>, digits: seq<nat>)
    requires Shows(w, Sets(inputLineValues), perm, AllDigits)
    requires |digits| == |outputLineValues|
    requires forall k :: 0 <= k < |digits| ==> digits[k] < 10 && SegmentSet(outputLineValues[k]) == Image(w, Pattern(digits[k]))
    ensures LineValue(inputLineValues, outputLineValues) == Decimal(digits)
  {
    var table := DecodeTable(Sets(inputLineValues));
    DecodeTableCorrect(w, Sets(inputLineValues), perm);
    DigitsWired(w, table, Sets(outputLineValues), digits);
    LsdReverse(digits);
  }

  /** How many of `digits` are 1, 4, 7 or 8. */
  function EasyDigits(digits: seq<nat>): nat
  {
    if digits == [] then 0
    else EasyDigits(digits[..|digits| - 1]) + (var d := digits[|digits| - 1]; if d == 1 || d == 4 || d == 7 || d == 8 then 1 else 0)
  }

  predicate NoRepeats(token: string)
  {
    forall i, j :: 0 <= i < j < |token| ==> token[i] != token[j]
  }

  lemma {:induction false} SegmentSetSize(token: string)
    requires NoRepeats(token)
    ensures |SegmentSet(token)| == |token|
  {
    if token != [] {
      var p := token[..|token| - 1];
      SegmentSetSize(p);
      assert SegmentSet(token) == SegmentSet(p) + {token[|token| - 1]};
    }
  }

  /**
   * On an output line of a scrambled display whose tokens repeat no letter,
   * part one counts exactly the digits 1, 4, 7 and 8 shown.
   */
  lemma {:induction false} UniqueInLineCountsEasyDigits(w: map<char, char>, line: seq<string>, digits: seq<nat>)
    requires Wiring(w) && |digits| == |line|
    requires forall k :: 0 <= k < |line| ==> NoRepeats(line[k]) && digits[k] < 10 && SegmentSet(line[k]) == Image(w, Pattern(digits[k]))
    ensures UniqueInLine(line) == EasyDigits(digits)
  {
    if line != [] {
      var n := |line| - 1;
      UniqueInLineCountsEasyDigits(w, line[..n], digits[..n]);
      SegmentSetSize(line[n]);
      ImageSize(w, Pattern(digits[n]));
      UniqueLengthDigits(digits[n]);
    }
  }
}
