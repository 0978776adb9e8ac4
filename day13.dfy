/**
 * Model of day13/src/main.rs: folding the transparent paper of the
 * thermal-camera manual. A fold along `x=pos` mirrors the columns right of
 * `pos` onto the left part, a fold along `y=pos` mirrors the rows below
 * `pos` onto the upper part; overlapping dots merge with a bitwise OR.
 *
 * The paper is rectangular with at least one row, as the reader builds it
 * (lines 35-38), and its cells are 0 or 1, the only values the reader
 * writes. Inputs on which the source panics (no instruction left, a slice
 * or index out of range) give `None`.
 */
module Origami {
  import opened Wrappers

  /** A cell of the paper: 0 for empty, 1 for a dot. */
  type Bit = b: int | 0 <= b <= 1

  type Paper = seq<seq<Bit>>

  /** `ThermalManual` (lines 4-8): the paper and the fold instructions still to do. */
  datatype ThermalManual = ThermalManual(transparentPaper: Paper, foldInstructions: seq<(string, int)>)

  predicate Rectangular(p: Paper)
  {
    |p| > 0 && forall r :: 0 <= r < |p| ==> |p[r]| == |p[0]|
  }

  /** `|` on two cells. */
  function Or(a: Bit, b: Bit): Bit
  {
    if a == 1 || b == 1 then 1 else 0
  }

  function Zeros(n: nat): (z: seq<Bit>)
    ensures |z| == n && forall i :: 0 <= i < n ==> z[i] == 0
  {
    seq(n, _ => 0)
  }

  /** `or_operation` (lines 115-117): cellwise OR, as long as the shorter input. */
  function OrOperation(a: seq<Bit>, b: seq<Bit>): (r: seq<Bit>)
    ensures |r| == (if |a| <= |b| then |a| else |b|)
    ensures forall i :: 0 <= i < |r| ==> r[i] == Or(a[i], b[i])
  {
    if |a| == 0 || |b| == 0 then [] else [Or(a[0], b[0])] + OrOperation(a[1..], b[1..])
  }

  /** OR onto an empty row of the same length leaves the row unchanged. */
  lemma OrOntoZeros(b: seq<Bit>)
    ensures OrOperation(Zeros(|b|), b) == b
  {
    assert forall i :: 0 <= i < |b| ==> OrOperation(Zeros(|b|), b)[i] == b[i];
  }

  // ---------------------------------------------------------------------
  // The folds as written
  // ---------------------------------------------------------------------

  /** The longer side of a fold of `n` lines at `pos`: the new extent (lines 64-70, 86-90). */
  function NewExtent(n: int, pos: int): int
  {
    if pos >= n - 1 - pos then pos else n - 1 - pos
  }

  /**
   * One row after the column fold of lines 73-81: the first `pos` columns
   * are kept, and column `c` past the fold is ORed into column
   * `|row| - 1 - c`.
   */
  function XFoldRow(row: seq<Bit>, pos: nat): (r: seq<Bit>)
    requires pos <= |row|
  {
    seq(pos, c => XCell(row, pos, c))
  }

  /** Column `c` of the column fold: column `|row| - 1 - c` is ORed in when that is past the fold. */
  function XCell(row: seq<Bit>, pos: int, c: int): Bit
  {
    if 0 <= c <= |row| - 2 - pos && c < |row| then Or(row[c], row[|row| - 1 - c]) else CellAt(row, c)
  }

  /** Line `i` of the row fold before the lower rows are merged: an upper row moved down by `newHeight - pos`, or empty. */
  function YBase(paper: Paper, pos: int, i: int): seq<Bit>
    requires Rectangular(paper) && -1 <= pos <= |paper|
  {
    var nh := NewExtent(|paper|, pos);
    if nh - pos <= i < nh then paper[i - (nh - pos)] else Zeros(|paper[0]|)
  }

  /**
   * The row fold of lines 84-103: the upper `pos` rows go to the bottom of
   * the new sheet, and row `r` past the fold is ORed into row
   * `|paper| - 1 - r`.
   */
  function YFoldAsWritten(paper: Paper, pos: int): (r: Paper)
    requires Rectangular(paper) && -1 <= pos <= |paper|
  {
    seq(NewExtent(|paper|, pos), i => YLine(paper, pos, i))
  }

  /** Row `i` of the row fold: its base, with row `|paper| - 1 - i` ORed in when that is past the fold. */
  function YLine(paper: Paper, pos: int, i: int): seq<Bit>
    requires Rectangular(paper) && -1 <= pos <= |paper|
  {
    if 0 <= i <= |paper| - 2 - pos then OrOperation(YBase(paper, pos, i), paper[|paper| - 1 - i])
    else YBase(paper, pos, i)
  }

  /**
   * `get_folded_paper_and_remaining_instructions` (lines 56-113) as a
   * value: `None` where the source panics.
   */
  function FoldAsWritten(manual: ThermalManual): (r: Option<ThermalManual>)
    requires Rectangular(manual.transparentPaper)
    ensures r.Some? ==> |manual.foldInstructions| > 0 && r.value.foldInstructions == manual.foldInstructions[1..]
    ensures r.Some? ==> Rectangular(r.value.transparentPaper) || r.value.transparentPaper == []
  {
    var paper := manual.transparentPaper;
    var height, width := |paper|, |paper[0]|;
    if |manual.foldInstructions| == 0 then None
    else
      var (direction, pos) := manual.foldInstructions[0];
      if direction == "x" then
        if pos < 0 || pos > width || width > 2 * pos + 1 then None
        else Some(ThermalManual(seq(height, r requires 0 <= r < height => XFoldRow(paper[r], pos)),
                                manual.foldInstructions[1..]))
      else if pos < -1 || pos > height then None
      else
        YFoldRect(paper, pos);
        Some(ThermalManual(YFoldAsWritten(paper, pos), manual.foldInstructions[1..]))
  }

  /** Every row of the row fold keeps the paper's width. */
  lemma YFoldRect(paper: Paper, pos: int)
    requires Rectangular(paper) && -1 <= pos <= |paper|
    ensures |YFoldAsWritten(paper, pos)| == NewExtent(|paper|, pos)
    ensures forall i :: 0 <= i < |YFoldAsWritten(paper, pos)| ==> |YFoldAsWritten(paper, pos)[i]| == |paper[0]|
  {
  }

  /** The fold fails exactly when the source panics. */
  lemma FoldAsWrittenDefined(manual: ThermalManual)
    requires Rectangular(manual.transparentPaper)
    ensures FoldAsWritten(manual).None? <==>
      || manual.foldInstructions == []
      || (manual.foldInstructions[0].0 == "x" &&
          var pos := manual.foldInstructions[0].1;
          pos < 0 || pos > |manual.transparentPaper[0]| || |manual.transparentPaper[0]| > 2 * pos + 1)
      || (manual.foldInstructions[0].0 != "x" &&
          var pos := manual.foldInstructions[0].1;
          pos < -1 || pos > |manual.transparentPaper|)
  {
  }

  // ---------------------------------------------------------------------
  // The folds in place, as the source computes them
  // ---------------------------------------------------------------------

  /** Lines 64-81: the column fold, row by row and column by column. */
  method XFold(paper: Paper, pos: int) returns (transparentPaper: Paper)
    requires Rectangular(paper) && 0 <= pos <= |paper[0]| && |paper[0]| <= 2 * pos + 1
    ensures |transparentPaper| == |paper|
    ensures forall r :: 0 <= r < |paper| ==> transparentPaper[r] == XFoldRow(paper[r], pos)
  {
    var height, width := |paper|, |paper[0]|;
    var newWidth := NewExtent(width, pos);
    transparentPaper := seq(height, _ => Zeros(newWidth));
    for row := 0 to height
      invariant |transparentPaper| == height
      invariant forall k :: 0 <= k < row ==> transparentPaper[k] == paper[k][..pos]
    {
      transparentPaper := transparentPaper[row := paper[row][..pos]];
    }
    for row := 0 to height
      invariant |transparentPaper| == height
      invariant forall k :: 0 <= k < row ==> transparentPaper[k] == XFoldRow(paper[k], pos)
      invariant forall k :: row <= k < height ==> transparentPaper[k] == paper[k][..pos]
    {
      var item: seq<Bit> := transparentPaper[row];
      var column := pos + 1;
      while column < width
        invariant pos + 1 <= column && (column <= width || width <= pos + 1)
        invariant |item| == pos
        invariant forall c :: 0 <= c < pos ==>
          item[c] == (if width - column <= c then XCell(paper[row], pos, c) else paper[row][c])
      {
        item := item[width - 1 - column := Or(item[width - 1 - column], paper[row][column])];
        column := column + 1;
      }
      assert item == XFoldRow(paper[row], pos);
      transparentPaper := transparentPaper[row := item];
    }
  }

  /** Lines 84-96: the new sheet with the upper rows copied to its bottom. */
  method YCopyUpper(paper: Paper, pos: int) returns (transparentPaper: Paper)
    requires Rectangular(paper) && -1 <= pos <= |paper|
    ensures |transparentPaper| == NewExtent(|paper|, pos)
    ensures forall i :: 0 <= i < |transparentPaper| ==> transparentPaper[i] == YBase(paper, pos, i)
  {
    var height, width := |paper|, |paper[0]|;
    var newHeight := NewExtent(height, pos);
    transparentPaper := seq(newHeight, _ => Zeros(width));
    var row := 0;
    while row < pos
      invariant 0 <= row && (row <= pos || pos < 0)
      invariant |transparentPaper| == newHeight
      invariant forall i :: 0 <= i < newHeight ==>
        transparentPaper[i] == (if i < newHeight - pos + row then YBase(paper, pos, i) else Zeros(width))
    {
      transparentPaper := transparentPaper[newHeight - pos + row := paper[row]];
      row := row + 1;
    }
  }

  /** Lines 98-103: each row past the fold ORed into row `height - 1 - row`. */
  method YMergeLower(paper: Paper, pos: int, upper: Paper) returns (transparentPaper: Paper)
    requires Rectangular(paper) && -1 <= pos <= |paper|
    requires |upper| == NewExtent(|paper|, pos)
    requires forall i :: 0 <= i < |upper| ==> upper[i] == YBase(paper, pos, i)
    ensures |transparentPaper| == |upper|
    ensures forall i :: 0 <= i < |upper| ==> transparentPaper[i] == YLine(paper, pos, i)
  {
    var height := |paper|;
    transparentPaper := upper;
    var row := pos + 1;
    while row < height
      invariant pos + 1 <= row && (row <= height || height <= pos + 1)
      invariant |transparentPaper| == |upper|
      invariant forall i :: 0 <= i < |upper| ==>
        transparentPaper[i] == (if height - row <= i then YLine(paper, pos, i) else YBase(paper, pos, i))
    {
      ghost var i := height - 1 - row;
      assert transparentPaper[i] == YBase(paper, pos, i);
      assert YLine(paper, pos, i) == OrOperation(YBase(paper, pos, i), paper[row]);
      transparentPaper := transparentPaper[height - 1 - row :=
        OrOperation(transparentPaper[height - 1 - row], paper[row])];
      row := row + 1;
    }
  }

  /** Lines 84-103: the row fold, copying the upper rows and merging the lower ones. */
  method YFold(paper: Paper, pos: int) returns (transparentPaper: Paper)
    requires Rectangular(paper) && -1 <= pos <= |paper|
    ensures transparentPaper == YFoldAsWritten(paper, pos)
  {
    var upper := YCopyUpper(paper, pos);
    transparentPaper := YMergeLower(paper, pos, upper);
  }

  /**
   * `get_folded_paper_and_remaining_instructions` (lines 56-113): perform
   * the first instruction and drop it.
   */
  method GetFoldedPaperAndRemainingInstructions(manual: ThermalManual) returns (r: Option<ThermalManual>)
    requires Rectangular(manual.transparentPaper)
    ensures r == FoldAsWritten(manual)
  {
    var paper := manual.transparentPaper;
    var height, width := |paper|, |paper[0]|;
    if |manual.foldInstructions| == 0 {
      return None;
    }
    var (direction, pos) := manual.foldInstructions[0];
    var transparentPaper;
    if direction == "x" {
      if pos < 0 || pos > width || width > 2 * pos + 1 {
        return None;
      }
      transparentPaper := XFold(paper, pos);
      assert transparentPaper == seq(height, r requires 0 <= r < height => XFoldRow(paper[r], pos));
    } else {
      if pos < -1 || pos > height {
        return None;
      }
      transparentPaper := YFold(paper, pos);
    }
    r := Some(ThermalManual(transparentPaper, manual.foldInstructions[1..]));
  }

  // ---------------------------------------------------------------------
  // Visible dots
  // ---------------------------------------------------------------------

  function RowDots(row: seq<Bit>): nat
  {
    if row == [] then 0 else (if row[0] > 0 then 1 else 0) + RowDots(row[1..])
  }

  function Dots(paper: Paper): nat
  {
    if paper == [] then 0 else RowDots(paper[0]) + Dots(paper[1..])
  }

  /** A row has no more dots than cells, and none exactly when it is empty of dots. */
  lemma {:induction false} RowDotsBounds(row: seq<Bit>)
    ensures RowDots(row) <= |row|
    ensures RowDots(row) == 0 <==> forall c :: 0 <= c < |row| ==> row[c] == 0
  {
    if row != [] {
      RowDotsBounds(row[1..]);
      assert forall c :: 1 <= c < |row| ==> row[c] == row[1..][c - 1];
    }
  }

  /** A paper has no visible dot exactly when every cell is 0. */
  lemma {:induction false} DotsZero(paper: Paper)
    ensures Dots(paper) == 0 <==> forall r, c :: 0 <= r < |paper| && 0 <= c < |paper[r]| ==> paper[r][c] == 0
  {
    if paper != [] {
      RowDotsBounds(paper[0]);
      DotsZero(paper[1..]);
      assert forall r :: 1 <= r < |paper| ==> paper[r] == paper[1..][r - 1];
    }
  }

  /** `get_visible_dots_from_paper` (lines 119-129): count the cells above 0. */
  method GetVisibleDotsFromPaper(paper: Paper) returns (dots: int)
    ensures dots == Dots(paper)
  {
    dots := 0;
    for row := 0 to |paper|
      invariant dots + Dots(paper[row..]) == Dots(paper)
    {
      assert paper[row..][1..] == paper[row + 1..];
      var item := paper[row];
      for c := 0 to |item|
        invariant dots + RowDots(item[c..]) + Dots(paper[row + 1..]) == Dots(paper)
      {
        assert item[c..][1..] == item[c + 1..];
        if item[c] > 0 {
          dots := dots + 1;
        }
      }
    }
  }

  // ---------------------------------------------------------------------
  // The fold as a mirror image
  // ---------------------------------------------------------------------

  /**
   * Where line `i` of `n` lands on the sheet folded at `pos`: lines before
   * the fold keep their order, lines after it are mirrored about it, and
   * both are shifted by the same amount so that the longer side fits.
   */
  function Image(n: int, pos: int, i: int): int
  {
    var off := NewExtent(n, pos) - pos;
    if i < pos then i + off else 2 * pos - i + off
  }

  function CellAt(row: seq<Bit>, i: int): Bit
  {
    if 0 <= i < |row| then row[i] else 0
  }

  /** Column `q` of the mirrored row: the OR of the columns `pos` before and after the line `ne - pos` further on. */
  function MirrorCell(row: seq<Bit>, pos: int, ne: int, q: int): Bit
  {
    Or(CellAt(row, q - (ne - pos)), CellAt(row, pos + ne - q))
  }

  /** One row folded at column `pos` by mirroring: each new column ORs its two preimages. */
  function MirrorRow(row: seq<Bit>, pos: int): (r: seq<Bit>)
    requires 0 <= pos < |row|
    ensures |r| == NewExtent(|row|, pos)
  {
    var ne := NewExtent(|row|, pos);
    seq(ne, q => MirrorCell(row, pos, ne, q))
  }

  function RowAt(paper: Paper, i: int): seq<Bit>
    requires Rectangular(paper)
  {
    if 0 <= i < |paper| then paper[i] else Zeros(|paper[0]|)
  }

  /** Row `q` of the mirrored paper: the OR of its two preimages. */
  function MirrorLine(paper: Paper, pos: int, ne: int, q: int): (r: seq<Bit>)
    requires Rectangular(paper)
    ensures |r| == |paper[0]|
  {
    OrOperation(RowAt(paper, q - (ne - pos)), RowAt(paper, pos + ne - q))
  }

  /** The paper folded at row `pos` by mirroring: each new row ORs its two preimages. */
  function MirrorRows(paper: Paper, pos: int): (r: Paper)
    requires Rectangular(paper) && 0 <= pos < |paper|
    ensures |r| == NewExtent(|paper|, pos)
    ensures forall q :: 0 <= q < |r| ==> |r[q]| == |paper[0]|
  {
    var ne := NewExtent(|paper|, pos);
    seq(ne, q => MirrorLine(paper, pos, ne, q))
  }

  /**
   * The column fold by mirroring: every dot off the fold line lands on the
   * new sheet at its image, and a new column has a dot exactly when one of
   * its preimages has.
   */
  lemma MirrorRowExact(row: seq<Bit>, pos: int)
    requires 0 <= pos < |row|
    ensures forall i :: 0 <= i < |row| && i != pos ==> 0 <= Image(|row|, pos, i) < NewExtent(|row|, pos)
    ensures forall q :: 0 <= q < NewExtent(|row|, pos) ==>
      (MirrorRow(row, pos)[q] == 1 <==>
       exists i :: 0 <= i < |row| && i != pos && row[i] == 1 && Image(|row|, pos, i) == q)
  {
    var n, r := |row|, MirrorRow(row, pos);
    var off := NewExtent(n, pos) - pos;
    forall q | 0 <= q < NewExtent(n, pos)
      ensures r[q] == 1 <==> exists i :: 0 <= i < n && i != pos && row[i] == 1 && Image(n, pos, i) == q
    {
      var a, b := q - off, 2 * pos + off - q;
      if r[q] == 1 {
        if CellAt(row, a) == 1 {
          assert Image(n, pos, a) == q;
        } else {
          assert Image(n, pos, b) == q;
        }
      }
    }
  }

  /** The row fold by mirroring: the same, for every column. */
  lemma MirrorRowsExact(paper: Paper, pos: int)
    requires Rectangular(paper) && 0 <= pos < |paper|
    ensures forall i :: 0 <= i < |paper| && i != pos ==> 0 <= Image(|paper|, pos, i) < NewExtent(|paper|, pos)
    ensures forall q, c :: 0 <= q < NewExtent(|paper|, pos) && 0 <= c < |paper[0]| ==>
      (MirrorRows(paper, pos)[q][c] == 1 <==>
       exists i :: 0 <= i < |paper| && i != pos && paper[i][c] == 1 && Image(|paper|, pos, i) == q)
  {
    forall q, c | 0 <= q < NewExtent(|paper|, pos) && 0 <= c < |paper[0]|
      ensures MirrorRows(paper, pos)[q][c] == 1 <==>
        exists i :: 0 <= i < |paper| && i != pos && paper[i][c] == 1 && Image(|paper|, pos, i) == q
    {
      MirrorCellExact(paper, pos, q, c);
    }
  }

  /** One cell of the mirrored paper has a dot exactly when one of its preimages has. */
  lemma MirrorCellExact(paper: Paper, pos: int, q: int, c: int)
    requires Rectangular(paper) && 0 <= pos < |paper| && 0 <= q < NewExtent(|paper|, pos) && 0 <= c < |paper[0]|
    ensures MirrorRows(paper, pos)[q][c] == 1 <==>
      exists i :: 0 <= i < |paper| && i != pos && paper[i][c] == 1 && Image(|paper|, pos, i) == q
  {
    var n, ne := |paper|, NewExtent(|paper|, pos);
    var a, b := q - (ne - pos), pos + ne - q;
    var v := Or(RowAt(paper, a)[c], RowAt(paper, b)[c]);
    assert MirrorRows(paper, pos)[q] == MirrorLine(paper, pos, ne, q);
    assert MirrorRows(paper, pos)[q][c] == v;
    if v == 1 {
      if RowAt(paper, a)[c] == 1 {
        assert Image(n, pos, a) == q;
      } else {
        assert Image(n, pos, b) == q;
      }
    }
  }

  /** The fold the puzzle intends: the first instruction applied as a mirror image. */
  function FoldMirrored(manual: ThermalManual): (r: Option<ThermalManual>)
    requires Rectangular(manual.transparentPaper)
    ensures r.Some? ==> |manual.foldInstructions| > 0 && r.value.foldInstructions == manual.foldInstructions[1..]
  {
    var paper := manual.transparentPaper;
    var height, width := |paper|, |paper[0]|;
    if |manual.foldInstructions| == 0 then None
    else
      var (direction, pos) := manual.foldInstructions[0];
      if direction == "x" then
        if 0 <= pos < width
        then Some(ThermalManual(seq(height, r requires 0 <= r < height => MirrorRow(paper[r], pos)),
                                manual.foldInstructions[1..]))
        else None
      else if 0 <= pos < height then Some(ThermalManual(MirrorRows(paper, pos), manual.foldInstructions[1..]))
      else None
  }

  /** On a centred column fold the source's row is the mirror image. */
  lemma XFoldCentred(row: seq<Bit>, pos: nat)
    requires |row| == 2 * pos + 1
    ensures XFoldRow(row, pos) == MirrorRow(row, pos)
  {
    assert forall q :: 0 <= q < pos ==> XFoldRow(row, pos)[q] == MirrorRow(row, pos)[q];
  }

  /** When the part below the fold is at least as tall as the part above, the source's row fold is the mirror image. */
  lemma YFoldLowerLonger(paper: Paper, pos: int)
    requires Rectangular(paper) && 0 <= pos && pos <= |paper| - 1 - pos
    ensures YFoldAsWritten(paper, pos) == MirrorRows(paper, pos)
  {
    var a, b := YFoldAsWritten(paper, pos), MirrorRows(paper, pos);
    var h, nh := |paper|, NewExtent(|paper|, pos);
    YFoldRect(paper, pos);
    forall q | 0 <= q < nh
      ensures a[q] == b[q]
    {
      var off := nh - pos;
      assert YBase(paper, pos, q) == RowAt(paper, q - off);
      assert RowAt(paper, 2 * pos + off - q) == paper[h - 1 - q];
    }
  }

  /**
   * On a centred column fold, and on a row fold whose lower part is at
   * least as tall as its upper part, the source folds as the mirror image.
   */
  lemma FoldAsWrittenMirrors(manual: ThermalManual)
    requires Rectangular(manual.transparentPaper) && |manual.foldInstructions| > 0
    requires var (direction, pos) := manual.foldInstructions[0];
      if direction == "x" then pos >= 0 && |manual.transparentPaper[0]| == 2 * pos + 1
      else 0 <= pos <= |manual.transparentPaper| - 1 - pos
    ensures FoldAsWritten(manual).Some? && FoldAsWritten(manual) == FoldMirrored(manual)
  {
    var paper := manual.transparentPaper;
    var (direction, pos) := manual.foldInstructions[0];
    if direction == "x" {
      forall r | 0 <= r < |paper|
        ensures XFoldRow(paper[r], pos) == MirrorRow(paper[r], pos)
      {
        XFoldCentred(paper[r], pos);
      }
      assert FoldAsWritten(manual).value.transparentPaper == FoldMirrored(manual).value.transparentPaper;
    } else {
      YFoldLowerLonger(paper, pos);
    }
  }

  /** A column fold whose right part is narrower puts the dot on the wrong column. */
  lemma XFoldOffCentre()
    ensures XFoldRow([0, 0, 0, 1], 2) == [1, 0]
    ensures MirrorRow([0, 0, 0, 1], 2) == [0, 1]
  {
    assert XFoldRow([0, 0, 0, 1], 2)[0] == 1;
    assert MirrorRow([0, 0, 0, 1], 2)[0] == 0;
  }

  /** A row fold whose lower part is shorter puts the dot on the wrong row. */
  lemma YFoldOffCentre()
    ensures YFoldAsWritten([[0], [0], [0], [1]], 2) == [[1], [0]]
    ensures MirrorRows([[0], [0], [0], [1]], 2) == [[0], [1]]
  {
    var p: Paper := [[0], [0], [0], [1]];
    assert NewExtent(4, 2) == 2;
    assert YLine(p, 2, 0) == OrOperation([0], [1]) == [1];
    assert YLine(p, 2, 1) == [0];
    assert MirrorLine(p, 2, 2, 0) == OrOperation([0], [0]) == [0];
    assert MirrorLine(p, 2, 2, 1) == OrOperation([0], [1]) == [1];
  }
}
