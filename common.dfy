/**
 * Model of the shared helper crate (common/src/lib.rs): the generic `Stack`
 * and the padding of a matrix with a border of 10s.
 */
module Common {
  import opened Wrappers

  /** A LIFO stack over a growable vector; the top is the last element. */
  class Stack<T> {
    var stack: seq<T>

    /** `Stack::new`: an empty stack. */
    constructor ()
      ensures stack == []
    {
      stack := [];
    }

    /** `Stack::default`, which delegates to `new`. */
    constructor Default()
      ensures stack == []
    {
      stack := [];
    }

    method Push(item: T)
      modifies this
      ensures stack == old(stack) + [item]
    {
      stack := stack + [item];
    }

    /** Removes and returns the top element, or `None` on an empty stack. */
    method Pop() returns (r: Option<T>)
      modifies this
      ensures old(stack) == [] ==> r == None && stack == []
      ensures old(stack) != [] ==> r == Some(old(stack)[|old(stack)| - 1])
                                   && stack == old(stack)[..|old(stack)| - 1]
    {
      if stack == [] {
        r := None;
      } else {
        r := Some(stack[|stack| - 1]);
        stack := stack[..|stack| - 1];
      }
    }

    function IsEmpty(): (b: bool)
      reads this
      ensures b <==> |stack| == 0
    {
      stack == []
    }

    /** The top element without removing it, or `None` when empty. */
    function Peek(): (r: Option<T>)
      reads this
      ensures stack == [] <==> r == None
      ensures r.Some? ==> r.value == stack[|stack| - 1]
    {
      if stack == [] then None else Some(stack[|stack| - 1])
    }
  }

  /** Pushing then popping returns the pushed item and restores the contents. */
  method PushThenPop<T>(s: Stack<T>, x: T) returns (r: Option<T>)
    modifies s
    ensures r == Some(x) && s.stack == old(s.stack)
  {
    s.Push(x);
    r := s.Pop();
  }

  /** A fresh stack is empty and popping it yields `None`. */
  method PopFresh<T>() returns (r: Option<T>, empty: bool)
    ensures r == None && empty
  {
    var s := new Stack<T>.Default();
    empty := s.IsEmpty();
    r := s.Pop();
  }

  /** A row of `n` copies of the border value 10. */
  function Tens(n: nat): (r: seq<int>)
    ensures |r| == n && forall j :: 0 <= j < n ==> r[j] == 10
  {
    seq(n, _ => 10)
  }

  /**
   * The matrix surrounded by a frame of 10s: the first and last rows are
   * all 10 with the width of the first input row plus two, and every other
   * row is the matching input row between two 10s.
   */
  function Padded(m: seq<seq<int>>): seq<seq<int>>
    requires |m| > 0
  {
    var width := |m[0]| + 2;
    [Tens(width)] + seq(|m|, i requires 0 <= i < |m| => [10] + m[i] + [10]) + [Tens(width)]
  }

  /** Removes a one-cell frame: the inverse of `Padded`. */
  function Unpadded(p: seq<seq<int>>): seq<seq<int>>
    requires |p| >= 2 && forall i :: 0 <= i < |p| ==> |p[i]| >= 2
  {
    seq(|p| - 2, i requires 0 <= i < |p| - 2 => p[i + 1][1..|p[i + 1]| - 1])
  }

  /** Shape and content of the padded matrix, cell by cell. */
  lemma PaddedCells(m: seq<seq<int>>)
    requires |m| > 0
    ensures |Padded(m)| == |m| + 2
    ensures |Padded(m)[0]| == |m[0]| + 2 && |Padded(m)[|m| + 1]| == |m[0]| + 2
    ensures forall j :: 0 <= j < |m[0]| + 2 ==> Padded(m)[0][j] == 10 && Padded(m)[|m| + 1][j] == 10
    ensures forall i :: 0 <= i < |m| ==>
      |Padded(m)[i + 1]| == |m[i]| + 2 && Padded(m)[i + 1][0] == 10 && Padded(m)[i + 1][|m[i]| + 1] == 10
    ensures forall i, j :: 0 <= i < |m| && 0 <= j < |m[i]| ==> Padded(m)[i + 1][j + 1] == m[i][j]
  {
  }

  /** Removing the frame gives back the original matrix. */
  lemma UnpadPadded(m: seq<seq<int>>)
    requires |m| > 0
    ensures |Padded(m)| >= 2 && (forall i :: 0 <= i < |Padded(m)| ==> |Padded(m)[i]| >= 2)
    ensures Unpadded(Padded(m)) == m
  {
    var p := Padded(m);
    assert forall i :: 0 <= i < |m| ==> p[i + 1][1..|p[i + 1]| - 1] == m[i];
  }

  /**
   * `get_extended_metrix`: a `height x width` grid of 10s whose inner rows
   * are then overwritten, range `1..width-1`, by the input rows.
   */
  method ExtendedMetrix(m: seq<seq<int>>) returns (r: seq<seq<int>>)
    requires |m| > 0
    ensures r == Padded(m)
  {
    var height := |m| + 2;
    var width := |m[0]| + 2;
    r := seq(height, _ => Tens(width));
    var index := 0;
    while index < height - 2
      invariant 0 <= index <= height - 2 && |r| == height
      invariant forall i :: 0 <= i < index ==> r[i + 1] == [10] + m[i] + [10]
      invariant forall i :: index + 1 <= i < height ==> r[i] == Tens(width)
      invariant r[0] == Tens(width)
    {
      var row := r[index + 1];
      r := r[index + 1 := row[..1] + m[index] + row[width - 1..]];
      index := index + 1;
    }
    assert r[height - 1] == Tens(width);
  }
}
