// reflowSmallerGetNewLineLengths of html/xterm.js: how the cells of one wrapped
// line are distributed when the terminal gets narrower.

module Reflow {
  import opened Common

  /** A cell's width is 0 behind a wide character. Its code is 0 as long as nothing
      is written in it, and of no account if it is combined: then the characters are
      in a table beside the cells. */
  datatype Cell = Cell(width: nat, code: nat, combined: bool, style: int)

  type Line = seq<Cell>

  predicate Written(c: Cell) {
    c.code != 0 || c.combined
  }

  predicate Wide(c: Cell) {
    c.width == 2
  }

  /** All that is asked of a cell: widths are 0, 1 or 2, and a cell becomes wide only
      by a character written in it. A wide character may have lost its second cell to
      another one. */
  predicate Sound(c: Cell) {
    c.width <= 2 && (Wide(c) ==> Written(c))
  }

  ghost predicate SoundLine(line: Line, cols: nat) {
    |line| == cols && forall i :: 0 <= i < |line| ==> Sound(line[i])
  }

  ghost predicate Lines(lines: seq<Line>, cols: nat) {
    |lines| > 0 && forall k :: 0 <= k < |lines| ==> SoundLine(lines[k], cols)
  }

  /** What reading past the end of a line gives. */
  const VOID: Cell := Cell(0, 0, false, 0)

  function CellAt(line: Line, i: nat): Cell {
    if i < |line| then line[i] else VOID
  }

  /** A line with the cell behind its end, which belongs to the text if a wide
      character stands in the last column. */
  function Pad(line: Line): (p: seq<Cell>)
    ensures |p| == |line| + 1
    ensures forall i :: 0 <= i < |p| ==> p[i] == CellAt(line, i)
  {
    line + [VOID]
  }

  // ---- lengths of the old lines --------------------------------------------

  /** getTrimmedLength, looking at the first n cells: up to the end of the last
      one written. */
  function TrimmedLength(line: Line, n: nat): (r: nat)
    requires n <= |line|
  {
    if n == 0 then 0
    else if Written(line[n - 1]) then n - 1 + line[n - 1].width
    else TrimmedLength(line, n - 1)
  }

  /** getWrappedLineTrimmedLength: all of a line but the last, without the cell a
      wide character did not fit in. */
  function WrappedLength(line: Line, next: Line, cols: nat): nat
    requires |line| == cols > 0 && |next| > 0
  {
    if !Written(line[cols - 1]) && line[cols - 1].width == 1 && Wide(next[0]) then cols - 1 else cols
  }

  function LineLength(lines: seq<Line>, k: nat, cols: nat): nat
    requires k < |lines| && 0 < cols && forall j :: 0 <= j < |lines| ==> |lines[j]| == cols
  {
    if k + 1 == |lines| then TrimmedLength(lines[k], |lines[k]|)
    else WrappedLength(lines[k], lines[k + 1], cols)
  }

  lemma {:induction false} TrimmedFits(line: Line, n: nat)
    requires SoundLine(line, |line|) && n <= |line|
    ensures TrimmedLength(line, n) <= n + 1
  {
    if n > 0 {
      assert Sound(line[n - 1]);
      TrimmedFits(line, n - 1);
    }
  }

  lemma LengthFits(lines: seq<Line>, k: nat, cols: nat)
    requires Lines(lines, cols) && k < |lines| && cols > 0
    ensures var l := LineLength(lines, k, cols);
            l <= cols + 1 && (k + 1 < |lines| ==> cols - 1 <= l <= cols)
  {
    if k + 1 == |lines| {
      TrimmedFits(lines[k], cols);
    }
  }

  // ---- the cells as one text -----------------------------------------------

  function Flat(lines: seq<Line>, k: nat, cols: nat): (f: seq<Cell>)
    requires k <= |lines| && Lines(lines, cols) && cols > 0
    decreases |lines| - k
  {
    if k == |lines| then []
    else
      LengthFits(lines, k, cols);
      Pad(lines[k])[..LineLength(lines, k, cols)] + Flat(lines, k + 1, cols)
  }

  lemma UnfoldFlat(lines: seq<Line>, k: nat, cols: nat)
    requires k < |lines| && Lines(lines, cols) && cols > 0
    ensures var l := LineLength(lines, k, cols);
            l <= cols + 1 && Flat(lines, k, cols) == Pad(lines[k])[..l] + Flat(lines, k + 1, cols)
  {
    LengthFits(lines, k, cols);
  }

  ghost predicate AllSound(f: seq<Cell>) {
    forall i :: 0 <= i < |f| ==> Sound(f[i])
  }

  lemma {:induction false} FlatIsSound(lines: seq<Line>, k: nat, cols: nat)
    requires k <= |lines| && Lines(lines, cols) && cols > 0
    ensures AllSound(Flat(lines, k, cols))
    decreases |lines| - k
  {
    if k < |lines| {
      FlatIsSound(lines, k + 1, cols);
      hide Flat, LineLength;
      UnfoldFlat(lines, k, cols);
    }
  }

  // ---- rows ----------------------------------------------------------------

  function FirstRow(f: seq<Cell>, r: nat): (n: nat)
    requires r >= 2 && |f| > 0
    ensures 1 <= n <= |f| && n <= r
  {
    if |f| < r then |f| else if Wide(f[r - 1]) then r - 1 else r
  }

  /** Row by row: as many cells as there is room for, less one if the last of them is
      the first of a wide character. */
  function Rows(f: seq<Cell>, r: nat): (rows: seq<int>)
    requires r >= 2
    decreases |f|
  {
    if |f| == 0 then [] else [FirstRow(f, r)] + Rows(f[FirstRow(f, r)..], r)
  }

  ghost predicate AreRows(f: seq<Cell>, rows: seq<int>, r: nat) {
    r >= 2 && rows == Rows(f, r)
  }

  /** The place of row k in the text. */
  function Before(rows: seq<int>, k: nat): int
    requires k <= |rows|
  {
    Sum(rows[..k])
  }

  lemma BeforeNext(rows: seq<int>, k: nat)
    requires k < |rows|
    ensures Before(rows, k + 1) == Before(rows, k) + rows[k]
    ensures Before(rows, 0) == 0
  {
    assert rows[..k + 1] == rows[..k] + [rows[k]];
    SumSnoc(rows[..k], rows[k]);
  }

  lemma RowsFrom(f: seq<Cell>, rows: seq<int>, r: nat)
    requires AreRows(f, rows, r) && |rows| > 0
    ensures |f| > 0 && rows[0] == FirstRow(f, r) && AreRows(f[rows[0]..], rows[1..], r)
  {
  }

  /** For all texts: row k is the first row of what is left. */
  lemma {:induction false} RowIsFirst(f: seq<Cell>, rows: seq<int>, r: nat, k: nat)
    requires AreRows(f, rows, r) && k < |rows|
    ensures 0 <= Before(rows, k) < |f| && rows[k] == FirstRow(f[Before(rows, k)..], r)
    decreases k
  {
    hide AreRows;
    RowsFrom(f, rows, r);
    if k == 0 {
      assert f[0..] == f && rows[..0] == [];
    } else {
      RowIsFirst(f[rows[0]..], rows[1..], r, k - 1);
      assert rows[..k] == [rows[0]] + rows[1..][..k - 1];
      assert f[Before(rows, k)..] == f[rows[0]..][Before(rows[1..], k - 1)..];
    }
  }

  /** The lengths are between 1 and the width and add up to the number of cells. */
  lemma {:induction false} RowsAddUp(f: seq<Cell>, rows: seq<int>, r: nat)
    requires AreRows(f, rows, r)
    ensures Sum(rows) == |f|
    ensures forall k :: 0 <= k < |rows| ==> 1 <= rows[k] <= r
    decreases |rows|
  {
    hide AreRows;
    if |rows| > 0 {
      RowsFrom(f, rows, r);
      RowsAddUp(f[rows[0]..], rows[1..], r);
    } else {
      NoRowsNoText(f, rows, r);
    }
  }

  lemma NoRowsNoText(f: seq<Cell>, rows: seq<int>, r: nat)
    requires AreRows(f, rows, r)
    ensures |rows| == 0 <==> |f| == 0
  {
  }

  lemma RowBounds(f: seq<Cell>, rows: seq<int>, r: nat, k: nat)
    requires AreRows(f, rows, r) && k <= |rows|
    ensures 0 <= Before(rows, k) <= |f| && (k == |rows| ==> Before(rows, k) == |f|)
    ensures k > 0 ==> Before(rows, k) > 0
    ensures k < |rows| ==> 1 <= rows[k] <= r && Before(rows, k + 1) == Before(rows, k) + rows[k] <= |f|
  {
    hide AreRows;
    RowsAddUp(f, rows, r);
    assert rows[..|rows|] == rows;
    if k < |rows| {
      RowIsFirst(f, rows, r, k);
      BeforeNext(rows, k);
    }
    if k > 0 {
      RowIsFirst(f, rows, r, k - 1);
      BeforeNext(rows, k - 1);
    }
  }

  /** For all texts: when a row ends on the first cell of a wide character. With room
      for a full row, only between two wide ones that share a cell. */
  lemma RowEndsOnWideExactly(f: seq<Cell>, rows: seq<int>, r: nat, k: nat)
    requires AreRows(f, rows, r) && k < |rows|
    ensures var from, to := Before(rows, k), Before(rows, k + 1);
            && 0 <= from < to <= |f|
            && (Wide(f[to - 1]) <==> if from + r <= |f| then Wide(f[from + r - 1]) && Wide(f[from + r - 2])
                                     else Wide(f[|f| - 1]))
  {
    RowBounds(f, rows, r, k);
    RowIsFirst(f, rows, r, k);
    var from := Before(rows, k);
    var rest := f[from..];
    assert |rest| >= r ==> rest[r - 1] == f[from + r - 1] && rest[r - 2] == f[from + r - 2];
  }

  // ---- lines that tear no wide character -----------------------------------

  /** Every wide character has both its cells, and nothing is written in the second. */
  ghost predicate Untorn(f: seq<Cell>) {
    forall i {:trigger f[i]} :: 0 <= i < |f| ==> Whole(f, i)
  }

  predicate Whole(f: seq<Cell>, i: nat)
    requires i < |f|
  {
    Wide(f[i]) ==> i + 1 < |f| && f[i + 1].width == 0 && !Written(f[i + 1])
  }

  ghost predicate AllUntorn(lines: seq<Line>) {
    forall k :: 0 <= k < |lines| ==> Untorn(lines[k])
  }

  lemma {:induction false} TrimmedIsUntorn(line: Line, n: nat)
    requires SoundLine(line, |line|) && Untorn(line) && n <= |line|
    ensures TrimmedLength(line, n) <= |line|
    ensures n < |line| && n > 0 && Wide(line[n - 1]) ==> TrimmedLength(line, n) == n + 1
    ensures TrimmedLength(line, n) == 0 || !Wide(line[TrimmedLength(line, n) - 1])
  {
    if n > 0 {
      assert Sound(line[n - 1]) && Whole(line, n - 1);
      assert n > 1 ==> Sound(line[n - 2]) && Whole(line, n - 2);
      if !Written(line[n - 1]) {
        TrimmedIsUntorn(line, n - 1);
      }
    }
  }

  lemma LengthIsUntorn(lines: seq<Line>, k: nat, cols: nat)
    requires Lines(lines, cols) && AllUntorn(lines) && k < |lines| && cols > 0
    ensures var l := LineLength(lines, k, cols);
            l <= cols && (k + 1 < |lines| ==> l >= cols - 1) && (l > 0 ==> !Wide(lines[k][l - 1]))
  {
    if k + 1 == |lines| {
      TrimmedIsUntorn(lines[k], cols);
    } else {
      var line := lines[k];
      assert cols >= 2 ==> Whole(line, cols - 2);
      assert Whole(line, cols - 1);
    }
  }

  lemma UntornAppend(a: seq<Cell>, b: seq<Cell>)
    requires Untorn(a) && Untorn(b)
    ensures Untorn(a + b)
  {
    var f := a + b;
    forall i | 0 <= i < |f| ensures Whole(f, i) {
      if i < |a| {
        assert Whole(a, i);
      } else {
        assert Whole(b, i - |a|);
      }
    }
  }

  lemma UntornPrefix(f: seq<Cell>, n: nat)
    requires Untorn(f) && n <= |f| && (n > 0 ==> !Wide(f[n - 1]))
    ensures Untorn(f[..n])
  {
    var g := f[..n];
    forall i | 0 <= i < |g| ensures Whole(g, i) {
      assert g[i] == f[i] && Whole(f, i);
    }
  }

  lemma {:induction false} FlatIsUntorn(lines: seq<Line>, k: nat, cols: nat)
    requires k <= |lines| && Lines(lines, cols) && AllUntorn(lines) && cols > 0
    ensures Untorn(Flat(lines, k, cols))
    decreases |lines| - k
  {
    if k < |lines| {
      LengthIsUntorn(lines, k, cols);
      FlatIsUntorn(lines, k + 1, cols);
      hide Flat, LineLength;
      UnfoldFlat(lines, k, cols);
      var l := LineLength(lines, k, cols);
      UntornPrefix(lines[k], l);
      assert Pad(lines[k])[..l] == lines[k][..l];
      UntornAppend(lines[k][..l], Flat(lines, k + 1, cols));
    }
  }

  // ---- layouts -------------------------------------------------------------

  /** Cutting after n cells tears no wide character, and cutting anywhere further
      on within the width would. */
  ghost predicate FullRow(f: seq<Cell>, n: int, r: nat) {
    && 1 <= n <= r && n <= |f|
    && !Wide(f[n - 1])
    && forall i :: n <= i < |f| && i < r ==> Wide(f[i])
  }

  /** A cut of the text into rows of 1 to r cells that tears no wide character and
      fills every row as far as it can without tearing one. */
  ghost predicate IsLayout(f: seq<Cell>, rows: seq<int>, r: nat)
    decreases |rows|
  {
    if |rows| == 0 then |f| == 0
    else
      FullRow(f, rows[0], r) && IsLayout(f[rows[0]..], rows[1..], r)
  }

  lemma UntornSuffix(f: seq<Cell>, n: nat)
    requires Untorn(f) && n <= |f|
    ensures Untorn(f[n..])
  {
    var g := f[n..];
    forall i | 0 <= i < |g| ensures Whole(g, i) {
      assert g[i] == f[n + i] && Whole(f, n + i);
    }
  }

  lemma FirstRowIsForced(f: seq<Cell>, n: int, r: nat)
    requires r >= 2 && Untorn(f) && |f| > 0
    ensures FullRow(f, n, r) <==> n == FirstRow(f, r)
  {
    var m := FirstRow(f, r);
    // two wide cells never stand side by side
    assert |f| >= r ==> Whole(f, r - 2);
    assert Whole(f, |f| - 1);
    assert FullRow(f, m, r);
  }

  /** The layout exists and is the only one. */
  lemma {:induction false} RowsAreTheLayout(f: seq<Cell>, rows: seq<int>, r: nat)
    requires r >= 2 && Untorn(f)
    ensures IsLayout(f, rows, r) <==> rows == Rows(f, r)
    decreases |rows|
  {
    hide FullRow, Untorn;
    if |f| > 0 && |rows| > 0 {
      FirstRowIsForced(f, rows[0], r);
      if rows[0] == FirstRow(f, r) {
        UntornSuffix(f, rows[0]);
        RowsAreTheLayout(f[rows[0]..], rows[1..], r);
        assert rows == [rows[0]] + rows[1..];
      }
    } else if |f| == 0 {
      NoEmptyRow(f, r);
    }
  }

  lemma NoEmptyRow(f: seq<Cell>, r: nat)
    requires |f| == 0
    ensures forall n: int {:trigger FullRow(f, n, r)} :: !FullRow(f, n, r)
  {
  }

  /** What the layout means for the rows as a whole. */
  lemma {:induction false} LayoutMeans(f: seq<Cell>, rows: seq<int>, r: nat)
    requires IsLayout(f, rows, r)
    ensures Sum(rows) == |f|
    ensures forall k :: 0 <= k < |rows| ==> 1 <= rows[k] <= r
    decreases |rows|
  {
    if |rows| > 0 {
      LayoutMeans(f[rows[0]..], rows[1..], r);
    }
  }

  lemma {:induction false} NoBoundaryInside(f: seq<Cell>, rows: seq<int>, r: nat, k: nat)
    requires IsLayout(f, rows, r) && 0 < k <= |rows|
    ensures 0 < Sum(rows[..k]) <= |f| && !Wide(f[Sum(rows[..k]) - 1])
    decreases k
  {
    assert rows[..k][0] == rows[0] && rows[..k][1..] == rows[1..][..k - 1];
    if k > 1 {
      NoBoundaryInside(f[rows[0]..], rows[1..], r, k - 1);
    }
  }

  // ---- the calculation -----------------------------------------------------

  function TotalLength(lines: seq<Line>, k: nat, cols: nat): (n: nat)
    requires k <= |lines| && Lines(lines, cols) && cols > 0
    decreases |lines| - k
  {
    if k == |lines| then 0 else LineLength(lines, k, cols) + TotalLength(lines, k + 1, cols)
  }

  lemma {:induction false} TotalIsFlat(lines: seq<Line>, k: nat, cols: nat)
    requires k <= |lines| && Lines(lines, cols) && cols > 0
    ensures TotalLength(lines, k, cols) == |Flat(lines, k, cols)|
    decreases |lines| - k
  {
    if k < |lines| {
      UnfoldFlat(lines, k, cols);
      TotalIsFlat(lines, k + 1, cols);
    }
  }

  /** r cells on from cell `at` of line k, in that line or the next. */
  lemma Onwards(lines: seq<Line>, k: nat, at: nat, r: nat, cols: nat)
    requires k < |lines| && Lines(lines, cols) && 0 < r < cols
    requires at <= LineLength(lines, k, cols) && at + r <= |Flat(lines, k, cols)|
    ensures var f, l := Flat(lines, k, cols)[at..], LineLength(lines, k, cols);
            var next := if at + r > l then k + 1 else k;
            var to := if at + r > l then at + r - l else at + r;
            && next < |lines| && 0 < to <= LineLength(lines, next, cols) && to <= |Flat(lines, next, cols)|
            && CellAt(lines[next], to - 1) == f[r - 1]
            && Flat(lines, next, cols)[to..] == f[r..] && Flat(lines, next, cols)[to - 1..] == f[r - 1..]
  {
    hide LineLength, Flat;
    var f, l := Flat(lines, k, cols), LineLength(lines, k, cols);
    UnfoldFlat(lines, k, cols);
    if at + r > l {
      NoMoreLines(lines, cols);
      LengthFits(lines, k + 1, cols);
      UnfoldFlat(lines, k + 1, cols);
      var g := Flat(lines, k + 1, cols);
      LastLine(lines, k + 1, cols);
      assert f[at..][r..] == g[at + r - l..];
      assert f[at..][r - 1..] == g[at + r - l - 1..];
    }
  }

  lemma NoMoreLines(lines: seq<Line>, cols: nat)
    requires Lines(lines, cols) && cols > 0
    ensures Flat(lines, |lines|, cols) == []
  {
  }

  lemma LastLine(lines: seq<Line>, k: nat, cols: nat)
    requires k < |lines| && Lines(lines, cols) && cols > 0
    ensures k + 1 == |lines| ==> |Flat(lines, k, cols)| == LineLength(lines, k, cols)
    ensures k + 1 < |lines| ==> LineLength(lines, k, cols) >= cols - 1
  {
    UnfoldFlat(lines, k, cols);
    LengthFits(lines, k, cols);
  }

  method TotalTrimmed(lines: seq<Line>, cols: nat) returns (total: nat)
    requires Lines(lines, cols) && cols > 0
    ensures total == |Flat(lines, 0, cols)|
  {
    total := 0;
    var k := 0;
    while k < |lines|
      invariant 0 <= k <= |lines|
      invariant total + TotalLength(lines, k, cols) == TotalLength(lines, 0, cols)
    {
      total := total + LineLength(lines, k, cols);
      k := k + 1;
    }
    TotalIsFlat(lines, 0, cols);
  }

  /** For all lines the result is the greedy rows of the text; if the lines tear no
      wide character, neither does the result. */
  method NewLineLengths(lines: seq<Line>, oldCols: nat, newCols: nat) returns (rows: seq<int>)
    requires Lines(lines, oldCols) && 2 <= newCols < oldCols
    ensures AreRows(Flat(lines, 0, oldCols), rows, newCols)
    ensures AllUntorn(lines) ==> IsLayout(Flat(lines, 0, oldCols), rows, newCols)
  {
    hide Flat, LineLength, AllUntorn, IsLayout, Lines, SoundLine, Rows, FirstRow, Wide, CellAt;
    SaneLines(lines, oldCols);
    ghost var text := Flat(lines, 0, oldCols);
    rows := [];
    var total := TotalTrimmed(lines, oldCols);
    // the next row starts at cell srcCol of line srcLine, after `done` cells
    var srcCol, srcLine, done := 0, 0, 0;
    assert text[0..] == text;
    while done < total
      invariant 0 <= done <= total == |text|
      invariant rows + Rows(text[done..], newCols) == Rows(text, newCols)
      invariant 0 <= srcLine < |lines|
      invariant 0 <= srcCol <= LineLength(lines, srcLine, oldCols) && srcCol <= |Flat(lines, srcLine, oldCols)|
      invariant text[done..] == Flat(lines, srcLine, oldCols)[srcCol..]
    {
      ghost var rest := text[done..];
      if total - done < newCols {
        rows := rows + [total - done];
        LastRow(rest, newCols);
        break;
      }
      Onwards(lines, srcLine, srcCol, newCols, oldCols);
      srcCol := srcCol + newCols;
      var l := LineLength(lines, srcLine, oldCols);
      if srcCol > l {
        srcCol := srcCol - l;
        srcLine := srcLine + 1;
      }
      var tears := Wide(CellAt(lines[srcLine], srcCol - 1));
      if tears {
        srcCol := srcCol - 1;
      }
      var n := if tears then newCols - 1 else newCols;
      assert text[done + n..] == rest[n..];
      RowsUnfold(rest, newCols);
      Regroup(rows, [n], Rows(rest[n..], newCols));
      rows := rows + [n];
      done := done + n;
    }
    NoRows(text[done..], newCols);
    if AllUntorn(lines) {
      FlatIsUntorn(lines, 0, oldCols);
      RowsAreTheLayout(text, rows, newCols);
    }
  }

  lemma SaneLines(lines: seq<Line>, cols: nat)
    requires Lines(lines, cols)
    ensures |lines| > 0 && forall k :: 0 <= k < |lines| ==> |lines[k]| == cols
  {
  }

  lemma NoRows(f: seq<Cell>, r: nat)
    requires r >= 2
    ensures |f| == 0 ==> Rows(f, r) == []
  {
  }

  lemma LastRow(f: seq<Cell>, r: nat)
    requires r >= 2 && 0 < |f| < r
    ensures Rows(f, r) == [|f|]
  {
    assert f[|f|..] == [];
  }

  lemma RowsUnfold(f: seq<Cell>, r: nat)
    requires r >= 2 && |f| >= r
    ensures var n := if Wide(f[r - 1]) then r - 1 else r;
            Rows(f, r) == [n] + Rows(f[n..], r)
  {
  }

  /** `a`, a wide w and another wide v over its second cell, from 4 columns to 3: the
      first row ends right behind w. */
  lemma HalfIsTorn(a: Cell, w: Cell, v: Cell, second: Cell)
    requires Sound(a) && !Wide(a) && Wide(w) && Sound(w) && Wide(v) && Sound(v)
    requires second.width == 0 && !Written(second)
    ensures var lines: seq<Line> := [[a, w, v, second]];
            && Lines(lines, 4) && Flat(lines, 0, 4) == lines[0]
            && AreRows(Flat(lines, 0, 4), [2, 2], 3) && Wide(Flat(lines, 0, 4)[1])
  {
    var lines: seq<Line> := [[a, w, v, second]];
    assert TrimmedLength(lines[0], 3) == 4 && TrimmedLength(lines[0], 4) == 4;
    assert SoundLine(lines[0], 4);
    UnfoldFlat(lines, 0, 4);
    NoMoreLines(lines, 4);
    assert Pad(lines[0])[..4] == lines[0];
    var text := Flat(lines, 0, 4);
    assert text == lines[0] && text[2..] == [v, second];
    LastRow(text[2..], 3);
    RowsUnfold(text, 3);
  }
}
