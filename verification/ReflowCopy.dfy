// The narrowing part of Buffer._reflowSmaller in html/xterm.js for one group of
// wrapped lines, as far as cells go: they are moved, in place and backwards, to
// where the new line lengths say. ReflowMarks.dfy adds the tables of combined
// characters and holds the code.

module ReflowCopy {
  import opened Common
  import opened Reflow

  // ---- where the text is in the old lines ----------------------------------

  /** The place of line m in the text. */
  function Start(lines: seq<Line>, m: nat, cols: nat): int
    requires m <= |lines| && Lines(lines, cols) && cols > 0
  {
    |Flat(lines, 0, cols)| - |Flat(lines, m, cols)|
  }

  lemma {:induction false} OldText(lines: seq<Line>, m: nat, cols: nat)
    requires m <= |lines| && Lines(lines, cols) && cols > 0
    ensures Start(lines, m, cols) >= 0
    ensures Flat(lines, 0, cols)[Start(lines, m, cols)..] == Flat(lines, m, cols)
    decreases m
  {
    hide Flat, LineLength;
    var text := Flat(lines, 0, cols);
    if m == 0 {
      assert text[0..] == text;
    } else {
      OldText(lines, m - 1, cols);
      UnfoldFlat(lines, m - 1, cols);
      var l := LineLength(lines, m - 1, cols);
      assert text[Start(lines, m - 1, cols)..][l..] == text[Start(lines, m, cols)..];
    }
  }

  lemma OldLine(lines: seq<Line>, m: nat, cols: nat)
    requires m < |lines| && Lines(lines, cols) && cols > 0
    ensures var from, l := Start(lines, m, cols), LineLength(lines, m, cols);
            && 0 <= from && l <= cols + 1 && |lines[m]| == cols
            && Start(lines, m + 1, cols) == from + l <= |Flat(lines, 0, cols)|
            && Flat(lines, 0, cols)[from..from + l] == Pad(lines[m])[..l]
            && (m + 1 < |lines| ==> cols - 1 <= l <= cols)
  {
    hide Flat, LineLength;
    OldText(lines, m, cols);
    UnfoldFlat(lines, m, cols);
    LengthFits(lines, m, cols);
    var text, from, l := Flat(lines, 0, cols), Start(lines, m, cols), LineLength(lines, m, cols);
    assert text[from..][..l] == text[from..from + l];
  }

  // ---- where it goes -------------------------------------------------------

  /** No row starts later in the text than the old line of the same number. */
  lemma {:induction false} RowsComeFirst(lines: seq<Line>, cols: nat, rows: seq<int>, r: nat, k: nat)
    requires Lines(lines, cols) && 2 <= r < cols && AreRows(Flat(lines, 0, cols), rows, r)
    requires k < |lines| && k <= |rows|
    ensures Before(rows, k) <= Start(lines, k, cols)
    decreases k
  {
    hide Flat, LineLength, AreRows, Lines;
    if k > 0 {
      RowsComeFirst(lines, cols, rows, r, k - 1);
      RowBounds(Flat(lines, 0, cols), rows, r, k - 1);
      OldLine(lines, k - 1, cols);
    }
  }

  /** A narrower terminal never needs fewer rows. */
  lemma NoFewerRows(lines: seq<Line>, cols: nat, rows: seq<int>, r: nat)
    requires Lines(lines, cols) && 2 <= r < cols && AreRows(Flat(lines, 0, cols), rows, r)
    requires |lines| > 1 || TrimmedLength(lines[0], cols) > 0
    ensures |rows| >= |lines|
  {
    if |rows| < |lines| {
      var k, n, text := |rows|, |lines|, Flat(lines, 0, cols);
      RowsComeFirst(lines, cols, rows, r, k);
      RowBounds(text, rows, r, k);
      LaterStarts(lines, k, cols);
      // so nothing is left for the last lines
      OldLine(lines, n - 1, cols);
      if k > 0 {
        RowsComeFirst(lines, cols, rows, r, k - 1);
        RowBounds(text, rows, r, k - 1);
        OldLine(lines, k - 1, cols);
      }
      assert k == n - 1 && LineLength(lines, n - 1, cols) == 0;
      if k > 0 && Wide(lines[k][0]) {
        WideIsCounted(lines[k], cols);
      }
    }
  }

  lemma {:induction false} LaterStarts(lines: seq<Line>, k: nat, cols: nat)
    requires k < |lines| && Lines(lines, cols) && cols > 1
    ensures Start(lines, k, cols) + (|lines| - 1 - k) <= Start(lines, |lines| - 1, cols)
    ensures Start(lines, |lines|, cols) == |Flat(lines, 0, cols)|
    decreases |lines| - k
  {
    hide Flat, LineLength;
    OldLine(lines, k, cols);
    NoMoreLines(lines, cols);
    if k + 1 < |lines| {
      LaterStarts(lines, k + 1, cols);
    }
  }

  /** A line that starts with a wide character is not empty. */
  lemma {:induction false} WideIsCounted(line: Line, n: nat)
    requires 0 < n <= |line| && Sound(line[0]) && Wide(line[0])
    ensures TrimmedLength(line, n) > 0
    decreases n
  {
    if n > 1 && !Written(line[n - 1]) {
      WideIsCounted(line, n - 1);
    }
    assert Written(line[n - 1]) && n > 1 ==> TrimmedLength(line, n) >= n - 1;
  }

  // ---- moving the cells ----------------------------------------------------

  function Pasted(line: Line, at: nat, cells: seq<Cell>): (r: Line)
    requires at + |cells| <= |line|
    ensures |r| == |line|
  {
    line[..at] + cells + line[at + |cells|..]
  }

  /** What the group was before and what is wanted. */
  datatype Job = Job(lines: seq<Line>, oldCols: nat, rows: seq<int>, newCols: nat, start: seq<Line>)

  ghost predicate Posed(t: Job) {
    && Lines(t.lines, t.oldCols) && 2 <= t.newCols < t.oldCols
    && AreRows(Flat(t.lines, 0, t.oldCols), t.rows, t.newCols)
    && |t.lines| <= |t.rows| == |t.start|
    && t.start[..|t.lines|] == t.lines
    && forall k :: 0 <= k < |t.start| ==> |t.start[k]| >= t.newCols
  }

  function Text(t: Job): seq<Cell>
    requires Lines(t.lines, t.oldCols) && t.oldCols > 0
  {
    Flat(t.lines, 0, t.oldCols)
  }

  /** The next cells to move end at cell c of line m and go to the end of the first
      b cells of row y. */
  datatype Place = Place(y: nat, b: nat, m: nat, c: nat)

  ghost predicate At(t: Job, p: Place)
    requires Posed(t)
  {
    && p.y < |t.rows| && p.b <= t.rows[p.y]
    && p.m < |t.lines| && p.c <= LineLength(t.lines, p.m, t.oldCols)
    && Before(t.rows, p.y) + p.b == Start(t.lines, p.m, t.oldCols) + p.c
  }

  /** Nothing behind a row's cells is touched. */
  ghost predicate Shaped(t: Job, group: seq<Line>)
    requires Posed(t)
  {
    && |group| == |t.start|
    && forall k :: 0 <= k < |group| ==> RowShaped(t, group[k], k)
  }

  ghost predicate RowShaped(t: Job, line: Line, k: nat)
    requires Posed(t) && k < |t.start|
  {
    |line| == |t.start[k]| && 0 <= t.rows[k] <= |line| && line[t.rows[k]..] == t.start[k][t.rows[k]..]
  }

  /** Row k shows the text from its cell b on. */
  ghost predicate RowDone(t: Job, line: Line, k: nat, b: nat)
    requires Posed(t) && k < |t.rows|
  {
    && b <= t.rows[k] <= |line|
    && 0 <= Before(t.rows, k) && Before(t.rows, k) + t.rows[k] <= |Text(t)|
    && line[b..t.rows[k]] == Text(t)[Before(t.rows, k) + b..Before(t.rows, k) + t.rows[k]]
  }

  ghost predicate Done(t: Job, group: seq<Line>, p: Place)
    requires Posed(t) && p.y < |t.rows|
  {
    && |group| == |t.start|
    && RowDone(t, group[p.y], p.y, p.b)
    && forall k :: p.y < k < |group| ==> RowDone(t, group[k], k, 0)
  }

  /** What is still to be moved is where it was, and so is what the length of a
      line is read from. */
  ghost predicate Left(lines: seq<Line>, group: seq<Line>, p: Place) {
    && p.m < |lines| && p.m < |group|
    && group[..p.m] == lines[..p.m]
    && LeftIn(group[p.m], lines[p.m], p.c)
  }

  ghost predicate LeftIn(line: Line, was: Line, c: nat) {
    && c <= |line| + 1 && c <= |was| + 1 && Pad(line)[..c] == Pad(was)[..c]
    && |line| > 0 && |was| > 0 && line[0] == was[0]
  }

  ghost predicate Moving(t: Job, group: seq<Line>, p: Place) {
    Posed(t) && At(t, p) && Shaped(t, group) && Done(t, group, p) && Left(t.lines, group, p)
  }

  /** One call of copyCellsFrom: as many cells as both lines have left. */
  function Moved(group: seq<Line>, p: Place, count: nat): seq<Line>
    requires p.y < |group| && p.m < |group| && count <= p.b <= |group[p.y]| && count <= p.c <= |group[p.m]| + 1
  {
    group[p.y := Pasted(group[p.y], p.b - count, Pad(group[p.m])[p.c - count..p.c])]
  }

  function After(p: Place, count: nat): Place
    requires count <= p.b && count <= p.c
  {
    Place(p.y, p.b - count, p.m, p.c - count)
  }

  /** Rows are written behind what is still to be read. */
  lemma NoneOvertaken(t: Job, p: Place)
    requires Posed(t) && At(t, p) && p.c > 0
    ensures p.m <= p.y && (p.m == p.y ==> p.b >= p.c)
  {
    hide Flat, LineLength, AreRows, Lines;
    RowBounds(Text(t), t.rows, t.newCols, p.y);
    if p.y < p.m {
      RowsComeFirst(t.lines, t.oldCols, t.rows, t.newCols, p.y + 1);
      LaterLine(t.lines, p.y + 1, p.m, t.oldCols);
    } else if p.y == p.m {
      RowsComeFirst(t.lines, t.oldCols, t.rows, t.newCols, p.y);
    }
  }

  lemma {:induction false} LaterLine(lines: seq<Line>, j: nat, k: nat, cols: nat)
    requires j <= k < |lines| && Lines(lines, cols) && cols > 0
    ensures Start(lines, j, cols) <= Start(lines, k, cols)
    decreases k
  {
    hide Flat, LineLength;
    if j < k {
      OldLine(lines, k - 1, cols);
      LaterLine(lines, j, k - 1, cols);
    }
  }

  lemma PastedParts(line: Line, at: nat, cells: seq<Cell>, n: nat)
    requires at + |cells| <= n <= |line|
    ensures Pasted(line, at, cells)[n..] == line[n..]
    ensures Pasted(line, at, cells)[..at] == line[..at]
    ensures Pasted(line, at, cells)[at..n] == cells + line[at + |cells|..n]
  {
  }

  lemma MovedKeepsDone(t: Job, group: seq<Line>, p: Place, count: nat)
    requires Moving(t, group, p) && count <= p.b && count <= p.c
    ensures Shaped(t, Moved(group, p, count)) && Done(t, Moved(group, p, count), After(p, count))
  {
    hide Flat, LineLength, AreRows, Lines, Pasted;
    var text, from, r := Text(t), Before(t.rows, p.y), t.rows[p.y];
    var line, cells := group[p.y], Pad(group[p.m])[p.c - count..p.c];
    var next, at := Pasted(line, p.b - count, cells), p.b - count;
    PastedParts(line, at, cells, r);
    SameText(t, group, p, count);
    assert text[from + at..from + p.b] + text[from + p.b..from + r] == text[from + at..from + r];
    assert RowDone(t, next, p.y, at);
    assert RowShaped(t, next, p.y);
    var after := Moved(group, p, count);
    forall k | 0 <= k < |after| ensures RowShaped(t, after[k], k) {
      assert RowShaped(t, group[k], k);
    }
  }

  /** The cells moved are the text before the place. */
  lemma SameText(t: Job, group: seq<Line>, p: Place, count: nat)
    requires Moving(t, group, p) && count <= p.b && count <= p.c
    ensures var to := Before(t.rows, p.y) + p.b;
            0 <= to - count && to <= |Text(t)| && Pad(group[p.m])[p.c - count..p.c] == Text(t)[to - count..to]
  {
    hide Flat, LineLength, AreRows, Shaped, Done;
    OldLine(t.lines, p.m, t.oldCols);
    var from, l := Start(t.lines, p.m, t.oldCols), LineLength(t.lines, p.m, t.oldCols);
    SamePart(Pad(group[p.m]), Pad(t.lines[p.m]), p.c, p.c - count);
    SliceOfSlice(Pad(t.lines[p.m]), 0, l, p.c - count, p.c);
    assert Pad(t.lines[p.m])[0..0 + l] == Pad(t.lines[p.m])[..l];
    SliceOfSlice(Text(t), from, l, p.c - count, p.c);
  }

  lemma SliceOfSlice(s: seq<Cell>, from: int, n: nat, i: nat, j: nat)
    requires 0 <= from && i <= j <= n && from + n <= |s|
    ensures s[from..from + n][i..j] == s[from + i..from + j]
  {
    var part := s[from..from + n];
    assert forall k :: 0 <= k < |part| ==> part[k] == s[from + k];
    assert |part[i..j]| == |s[from + i..from + j]|;
    assert forall k :: 0 <= k < |part[i..j]| ==> part[i..j][k] == part[i + k];
  }

  lemma MovedKeepsLeft(lines: seq<Line>, group: seq<Line>, p: Place, count: nat)
    requires Left(lines, group, p) && count == Min(p.b, p.c)
    requires p.y < |group| && p.b <= |group[p.y]|
    requires p.c > 0 ==> p.m <= p.y && (p.m == p.y ==> p.b >= p.c)
    ensures p.c <= |group[p.m]| + 1
    ensures Left(lines, Moved(group, p, count), After(p, count))
  {
    LeftFits(group[p.m], lines[p.m], p.c);
    hide Pasted, Pad, CellAt, LeftIn;
    var after := Moved(group, p, count);
    LeftOver(group[p.m], lines[p.m], p.c, p.c - count);
    if count == 0 {
      assert Pad(group[p.m])[p.c - count..p.c] == [];
      PastedNothing(group[p.y], p.b);
      assert after == group;
    } else {
      assert after[..p.m] == group[..p.m];
      if p.m == p.y {
        LeftInLine(group[p.m], lines[p.m], p.b, p.c, count);
      } else {
        assert after[p.m] == group[p.m];
      }
    }
  }

  lemma LeftFits(line: Line, was: Line, c: nat)
    requires LeftIn(line, was, c)
    ensures c <= |line| + 1
  {
  }

  lemma LeftOver(line: Line, was: Line, c: nat, d: nat)
    requires LeftIn(line, was, c) && d <= c
    ensures LeftIn(line, was, d)
  {
    SamePrefix(Pad(line), Pad(was), c, d);
  }

  lemma SamePart(a: Line, b: Line, c: nat, d: nat)
    requires d <= c <= |a| && c <= |b| && a[..c] == b[..c]
    ensures a[d..c] == b[d..c]
  {
    assert a[..c][d..] == a[d..c] && b[..c][d..] == b[d..c];
  }

  lemma SamePrefix(a: Line, b: Line, c: nat, d: nat)
    requires d <= c <= |a| && c <= |b| && a[..c] == b[..c]
    ensures a[..d] == b[..d]
  {
    assert a[..c][..d] == a[..d] && b[..c][..d] == b[..d];
  }

  /** Moving cells to the end of their own line leaves those before them alone;
      and the first cell, which can only be moved onto itself. */
  lemma LeftInLine(line: Line, was: Line, b: nat, c: nat, count: nat)
    requires 0 < count <= c <= b <= |line| && LeftIn(line, was, c)
    requires count == b || count == c
    ensures LeftIn(Pasted(line, b - count, Pad(line)[c - count..c]), was, c - count)
  {
    hide Pasted;
    var cells := line[c - count..c];
    assert Pad(line)[c - count..c] == cells;
    PastedParts(line, b - count, cells, b);
    var next := Pasted(line, b - count, cells);
    assert next[..b - count][..c - count] == line[..b - count][..c - count];
    assert Pad(line)[..c][..c - count] == Pad(was)[..c][..c - count];
    assert Pad(next)[..c - count] == next[..c - count] && Pad(line)[..c - count] == line[..c - count];
    assert Pad(was)[..c - count] == Pad(was)[..c][..c - count];
    assert b - count > 0 ==> next[..b - count][0] == line[0];
    FirstPasted(line, b - count, cells);
  }

  lemma FirstPasted(line: Line, at: nat, cells: seq<Cell>)
    requires at + |cells| <= |line| && |cells| > 0
    ensures at == 0 ==> Pasted(line, at, cells)[0] == cells[0]
  {
  }

  lemma PastedNothing(line: Line, at: nat)
    requires at <= |line|
    ensures Pasted(line, at, []) == line
  {
  }

  /** When a row is full, the next place is the end of the row before. */
  lemma NextRow(t: Job, group: seq<Line>, p: Place)
    requires Moving(t, group, p) && p.b == 0
    ensures p.y < |t.rows| && (p.y > 0 ==> t.rows[p.y - 1] > 0)
    ensures p.y > 0 ==> Moving(t, group, Place(p.y - 1, t.rows[p.y - 1], p.m, p.c))
    ensures p.y == 0 ==> p.m == 0 && p.c == 0
  {
    hide Flat, LineLength, AreRows, Lines;
    if p.y > 0 {
      RowBounds(Text(t), t.rows, t.newCols, p.y - 1);
      assert RowShaped(t, group[p.y - 1], p.y - 1);
    } else {
      BeforeNext(t.rows, 0);
      FirstStarts(t.lines, p.m, t.oldCols);
    }
  }

  lemma FirstStarts(lines: seq<Line>, m: nat, cols: nat)
    requires m < |lines| && Lines(lines, cols) && cols > 1
    ensures Start(lines, m, cols) >= m
  {
    hide Flat, LineLength;
    if m > 0 {
      OldLine(lines, m - 1, cols);
      FirstStarts(lines, m - 1, cols);
    }
  }

  /** When a line is used up, the next place is the end of the line before, whose
      length can still be read from the group. */
  lemma NextLine(t: Job, group: seq<Line>, p: Place)
    requires Moving(t, group, p) && p.c == 0 && p.m > 0
    ensures |group[p.m - 1]| == t.oldCols && |group[p.m]| > 0
    ensures var l := WrappedLength(group[p.m - 1], group[p.m], t.oldCols);
            Moving(t, group, Place(p.y, p.b, p.m - 1, l))
  {
    hide Flat, AreRows, RowDone, Shaped;
    OldLine(t.lines, p.m - 1, t.oldCols);
    assert group[..p.m][p.m - 1] == group[p.m - 1] && t.lines[..p.m][p.m - 1] == t.lines[p.m - 1];
    assert group[..p.m - 1] == group[..p.m][..p.m - 1];
    assert t.lines[..p.m - 1] == t.lines[..p.m][..p.m - 1];
  }

  lemma FirstPlace(t: Job)
    requires Posed(t) && |t.rows| > 0
    ensures var y, m := |t.rows| - 1, |t.lines| - 1;
            && t.rows[y] > 0
            && Moving(t, t.start, Place(y, t.rows[y], m, TrimmedLength(t.lines[m], t.oldCols)))
  {
    hide Flat, AreRows;
    var y, m := |t.rows| - 1, |t.lines| - 1;
    RowBounds(Text(t), t.rows, t.newCols, y);
    RowBounds(Text(t), t.rows, t.newCols, y + 1);
    OldLine(t.lines, m, t.oldCols);
    LaterStarts(t.lines, m, t.oldCols);
    assert t.start[..|t.lines|][..m] == t.start[..m] && t.start[..|t.lines|][m] == t.start[m];
    forall k | 0 <= k < |t.start| ensures RowShaped(t, t.start[k], k) {
      RowBounds(Text(t), t.rows, t.newCols, k);
    }
  }

  lemma Prepended(line: Line, source: Line, destCol: nat, srcCol: nat, s: nat, count: nat)
    requires s < count && destCol + count <= |line| && srcCol + count <= |source|
    ensures var was := line[..destCol + s + 1] + source[srcCol + s + 1..srcCol + count] + line[destCol + count..];
            was[destCol + s := source[srcCol + s]]
              == line[..destCol + s] + source[srcCol + s..srcCol + count] + line[destCol + count..]
  {
    assert source[srcCol + s..srcCol + count] == [source[srcCol + s]] + source[srcCol + s + 1..srcCol + count];
  }

  ghost predicate Finished(t: Job, group: seq<Line>)
    requires Posed(t)
  {
    Shaped(t, group) && |group| == |t.rows| && forall k :: 0 <= k < |group| ==> RowDone(t, group[k], k, 0)
  }

  /** The first row and the first line are reached together. */
  lemma BothAtTheFront(t: Job, group: seq<Line>, p: Place)
    requires Moving(t, group, p)
    ensures p.y == 0 && p.b == 0 <==> p.m == 0 && p.c == 0
    ensures p.y == 0 && p.b == 0 ==> Finished(t, group)
  {
    hide Flat, LineLength, AreRows, Lines;
    if p.b == 0 {
      NextRow(t, group, p);
    }
    RowBounds(Text(t), t.rows, t.newCols, p.y);
    BeforeNext(t.rows, 0);
    RowBounds(Text(t), t.rows, t.newCols, 0);
    if p.y > 0 {
      RowBounds(Text(t), t.rows, t.newCols, p.y - 1);
    }
  }

  lemma MayCopy(t: Job, group: seq<Line>, p: Place, count: nat)
    requires Moving(t, group, p) && count == Min(p.b, p.c)
    ensures p.y < |group| && p.m < |group| && p.b <= |group[p.y]| && p.c <= |group[p.m]| + 1
    ensures p.c > 0 ==> p.m <= p.y && (p.m == p.y ==> p.b >= p.c)
  {
    hide Flat, LineLength, AreRows, Lines;
    assert RowShaped(t, group[p.y], p.y);
    if p.c > 0 {
      NoneOvertaken(t, p);
    }
  }

  lemma MovedKeeps(t: Job, group: seq<Line>, p: Place, count: nat)
    requires Moving(t, group, p) && count == Min(p.b, p.c)
    ensures p.y < |group| && p.m < |group| && p.b <= |group[p.y]| && p.c <= |group[p.m]| + 1
    ensures Moving(t, Moved(group, p, count), After(p, count))
  {
    hide Flat, LineLength, AreRows, Lines, Shaped, Done, Left, Moved;
    MayCopy(t, group, p, count);
    MovedKeepsDone(t, group, p, count);
    MovedKeepsLeft(t.lines, group, p, count);
  }

  // ---- the new lines -------------------------------------------------------

  predicate Blank(c: Cell) {
    c.width == 1 && !Written(c)
  }

  /** A row shows its part of the text, and nothing is written behind. */
  ghost predicate IsNewRow(t: Job, line: Line, k: nat)
    requires Posed(t) && k < |t.rows|
  {
    && |line| == t.newCols && RowDone(t, line, k, 0)
    && (forall i :: t.rows[k] <= i < |line| ==> !Written(line[i]) && Sound(line[i]))
    && (t.rows[k] < |line| ==> Blank(line[t.rows[k]]))
  }

  /** setCell behind the row, and resize. */
  function NewRow(line: Line, n: nat, newCols: nat, blank: Cell): (row: Line)
    requires n <= newCols <= |line|
  {
    (if n < newCols then line[n := blank] else line)[..newCols]
  }

  /** Of the cells behind the trimmed length only the first can be written, by a
      character that takes up no space. */
  lemma {:induction false} NothingBehind(line: Line, n: nat, i: nat)
    requires n <= |line| && TrimmedLength(line, n) < i < n
    ensures !Written(line[i])
  {
    if !Written(line[n - 1]) && i < n - 1 {
      NothingBehind(line, n - 1, i);
    }
  }

  /** Behind the last row stands nothing that was written before, and behind the
      others nothing stands at all once the cell a wide character did not fit in
      is cleared. */
  lemma RestIsBlank(t: Job, k: nat, i: nat)
    requires Posed(t) && k < |t.rows| && t.rows[k] < i < t.newCols
    requires forall j :: |t.lines| <= j < |t.start| ==> forall c :: 0 <= c < |t.start[j]| ==> Blank(t.start[j][c])
    ensures var c := t.start[k][i]; !Written(c) && Sound(c)
  {
    if k + 1 < |t.rows| {
      RowIsLong(t, k);
    }
    if k < |t.lines| && k + 1 == |t.rows| {
      var line := t.lines[k];
      assert t.start[..|t.lines|][k] == t.start[k] == line;
      RowsComeFirst(t.lines, t.oldCols, t.rows, t.newCols, k);
      RowBounds(Text(t), t.rows, t.newCols, k);
      RowBounds(Text(t), t.rows, t.newCols, k + 1);
      OldLine(t.lines, k, t.oldCols);
      LaterStarts(t.lines, k, t.oldCols);
      NothingBehind(line, t.oldCols, i);
      assert SoundLine(line, t.oldCols) && Sound(line[i]);
    }
  }

  /** Every row but the last is full, but for a cell that a wide character does
      not fit in. */
  lemma RowIsLong(t: Job, k: nat)
    requires Posed(t) && k + 1 < |t.rows|
    ensures var to := Before(t.rows, k + 1);
            && 0 < to < |Text(t)| && t.newCols - 1 <= t.rows[k] <= t.newCols
            && (t.rows[k] < t.newCols ==> Wide(Text(t)[to]))
  {
    hide AreRows, Flat;
    RowIsFirst(Text(t), t.rows, t.newCols, k);
    RowIsFirst(Text(t), t.rows, t.newCols, k + 1);
    RowBounds(Text(t), t.rows, t.newCols, k);
    var f := Text(t)[Before(t.rows, k)..];
    var n := t.rows[k];
    assert n < |f| && f[n] == Text(t)[Before(t.rows, k) + n];
  }

  lemma RowIsNew(t: Job, line: Line, k: nat, blank: Cell)
    requires Posed(t) && k < |t.rows| && RowShaped(t, line, k) && RowDone(t, line, k, 0) && Blank(blank)
    requires t.rows[k] <= t.newCols
    requires forall j :: |t.lines| <= j < |t.start| ==> forall c :: 0 <= c < |t.start[j]| ==> Blank(t.start[j][c])
    ensures IsNewRow(t, NewRow(line, t.rows[k], t.newCols, blank), k)
  {
    hide Flat, LineLength, AreRows;
    var n, row := t.rows[k], NewRow(line, t.rows[k], t.newCols, blank);
    assert row[0..n] == line[0..n];
    forall i | n <= i < |row| ensures !Written(row[i]) && Sound(row[i]) {
      if i > n {
        RestIsBlank(t, k, i);
        assert line[i] == line[n..][i - n] == t.start[k][n..][i - n] == t.start[k][i];
      }
    }
  }

  // ---- the text, read again ------------------------------------------------

  lemma RowCell(t: Job, row: Line, k: nat, i: nat)
    requires Posed(t) && k < |t.rows| && RowDone(t, row, k, 0) && i < t.rows[k]
    ensures row[i] == Text(t)[Before(t.rows, k) + i]
  {
    assert row[0..t.rows[k]][i] == row[i];
  }

  lemma RowsAreLines(t: Job, after: seq<Line>)
    requires Posed(t) && |after| == |t.rows| > 0 && forall k :: 0 <= k < |after| ==> IsNewRow(t, after[k], k)
    ensures Lines(after, t.newCols)
  {
    hide Flat, LineLength, AreRows;
    FlatIsSound(t.lines, 0, t.oldCols);
    forall k | 0 <= k < |after| ensures SoundLine(after[k], t.newCols) {
      forall i | 0 <= i < |after[k]| ensures Sound(after[k][i]) {
        if i < t.rows[k] {
          RowCell(t, after[k], k, i);
        }
      }
    }
  }

  /** A full row that ends in a blank looks, before a wide character, as if that
      cell had been left free for it. */
  ghost predicate Misread(text: seq<Cell>, rows: seq<int>, r: nat, k: nat)
    requires k + 1 < |rows|
  {
    var to := Before(rows, k + 1);
    rows[k] == r && 0 < to < |text| && Blank(text[to - 1]) && Wide(text[to])
  }

  /** The last row, n cells long, ends where its last written character ends. */
  ghost predicate EndsWritten(text: seq<Cell>, n: int) {
    && |text| > 0
    && var c := text[|text| - 1];
       if Written(c) then c.width == 1 else n > 1 && |text| > 1 && Wide(text[|text| - 2])
  }

  ghost predicate ReadBack(t: Job, from: nat)
    requires Posed(t)
  {
    && |t.rows| > 0 && EndsWritten(Text(t), t.rows[|t.rows| - 1])
    && forall k :: from <= k < |t.rows| - 1 ==> !Misread(Text(t), t.rows, t.newCols, k)
  }

  /** A row is read back as long as it was made, unless it is misread or its end
      is not where a character ends. */
  lemma RowReadBack(t: Job, after: seq<Line>, k: nat)
    requires Posed(t) && |after| == |t.rows| && forall j :: 0 <= j < |after| ==> IsNewRow(t, after[j], j)
    requires k < |after| && Lines(after, t.newCols)
    ensures var l := LineLength(after, k, t.newCols);
            && 0 <= l <= t.newCols + 1
            && (k + 1 < |t.rows| ==>
                  l == if Misread(Text(t), t.rows, t.newCols, k) then t.rows[k] - 1 else t.rows[k])
            && (k + 1 == |t.rows| ==> (l == t.rows[k] <==> EndsWritten(Text(t), t.rows[k])))
            && (Wide(after[k][0]) ==> l > 0)
  {
    hide Flat, AreRows, Lines;
    SaneLines(after, t.newCols);
    LengthFits(after, k, t.newCols);
    var text, row, n := Text(t), after[k], t.rows[k];
    RowBounds(text, t.rows, t.newCols, k);
    RowCell(t, row, k, n - 1);
    if k + 1 < |t.rows| {
      RowIsLong(t, k);
      RowBounds(text, t.rows, t.newCols, k + 1);
      RowCell(t, after[k + 1], k + 1, 0);
    } else {
      LastRowReadBack(t, row, k);
      if Wide(row[0]) {
        LineIsSound(after, k, t.newCols);
        WideIsCounted(row, |row|);
      }
    }
  }

  lemma LineIsSound(lines: seq<Line>, k: nat, cols: nat)
    requires Lines(lines, cols) && k < |lines|
    ensures |lines[k]| == cols && forall i :: 0 <= i < cols ==> Sound(lines[k][i])
  {
  }

  lemma LastRowReadBack(t: Job, row: Line, k: nat)
    requires Posed(t) && k + 1 == |t.rows| && IsNewRow(t, row, k)
    ensures TrimmedLength(row, |row|) == t.rows[k] <==> EndsWritten(Text(t), t.rows[k])
  {
    hide Flat, LineLength, AreRows, Lines, TrimmedLength;
    var text, from, n := Text(t), Before(t.rows, k), t.rows[k];
    RowBounds(text, t.rows, t.newCols, k);
    RowBounds(text, t.rows, t.newCols, k + 1);
    BlanksTrimmed(row, n, |row|);
    RowCell(t, row, k, n - 1);
    FlatIsSound(t.lines, 0, t.oldCols);
    assert Sound(text[|text| - 1]);
    TrimmedUnfolds(row, n);
    if n > 1 {
      RowCell(t, row, k, n - 2);
      assert Sound(text[|text| - 2]);
      TrimmedUnfolds(row, n - 1);
      forall i | 0 <= i < n - 2 ensures Sound(row[i]) {
        RowCell(t, row, k, i);
      }
      TrimmedAtMost(row, n - 2);
    } else {
      TrimmedUnfolds(row, 0);
    }
  }

  lemma TrimmedUnfolds(line: Line, n: nat)
    requires n <= |line|
    ensures n == 0 ==> TrimmedLength(line, n) == 0
    ensures n > 0 && Written(line[n - 1]) ==> TrimmedLength(line, n) == n - 1 + line[n - 1].width
    ensures n > 0 && !Written(line[n - 1]) ==> TrimmedLength(line, n) == TrimmedLength(line, n - 1)
  {
  }

  lemma {:induction false} TrimmedAtMost(line: Line, n: nat)
    requires n <= |line| && forall i :: 0 <= i < n ==> Sound(line[i])
    ensures TrimmedLength(line, n) <= n + 1
  {
    if n > 0 {
      assert Sound(line[n - 1]);
      TrimmedAtMost(line, n - 1);
    }
  }

  lemma {:induction false} BlanksTrimmed(line: Line, n: nat, m: nat)
    requires n <= m <= |line| && forall i :: n <= i < m ==> !Written(line[i])
    ensures TrimmedLength(line, m) == TrimmedLength(line, n)
    decreases m
  {
    if n < m {
      BlanksTrimmed(line, n, m - 1);
    }
  }

  lemma {:induction false} TextFrom(t: Job, after: seq<Line>, k: nat)
    requires Posed(t) && |after| == |t.rows| && forall j :: 0 <= j < |after| ==> IsNewRow(t, after[j], j)
    requires k < |after| && Lines(after, t.newCols)
    requires 0 <= Before(t.rows, k) <= |Text(t)|
    ensures Flat(after, k, t.newCols) == Text(t)[Before(t.rows, k)..] <==> ReadBack(t, k)
    decreases |after| - k
  {
    hide Flat, AreRows, Lines, LineLength, Misread, EndsWritten;
    var text, from, n := Text(t), Before(t.rows, k), t.rows[k];
    RowReadBack(t, after, k);
    RowBounds(text, t.rows, t.newCols, k);
    RowBounds(text, t.rows, t.newCols, k + 1);
    UnfoldFlat(after, k, t.newCols);
    var l := LineLength(after, k, t.newCols);
    var tail := Flat(after, k + 1, t.newCols);
    var row := text[from..from + n];
    assert text[from..] == row + text[from + n..];
    assert after[k][0..n] == row;
    if k + 1 < |after| {
      TextFrom(t, after, k + 1);
      assert ReadBack(t, k) <==> !Misread(text, t.rows, t.newCols, k) && ReadBack(t, k + 1);
      if l == n {
        assert Pad(after[k])[..l] == after[k][0..n];
        SameFront(row, tail, text[from + n..]);
      } else {
        CellDropped(t, after, k);
      }
    } else {
      NoMoreLines(after, t.newCols);
      assert Pad(after[k])[..l] + tail == Pad(after[k])[..l] && text[from + n..] == [];
      assert l == n ==> Pad(after[k])[..l] == after[k][0..n];
    }
  }

  lemma SameFront(a: seq<Cell>, c: seq<Cell>, d: seq<Cell>)
    ensures a + c == a + d <==> c == d
  {
    assert (a + c)[|a|..] == c && (a + d)[|a|..] == d;
  }

  /** Without the blank the wide character comes too early. */
  lemma CellDropped(t: Job, after: seq<Line>, k: nat)
    requires Posed(t) && |after| == |t.rows| && forall j :: 0 <= j < |after| ==> IsNewRow(t, after[j], j)
    requires k + 1 < |after| && Lines(after, t.newCols) && Misread(Text(t), t.rows, t.newCols, k)
    ensures 0 <= Before(t.rows, k) <= |Text(t)|
    ensures Flat(after, k, t.newCols) != Text(t)[Before(t.rows, k)..]
  {
    hide Flat, AreRows, Lines, LineLength;
    var text, from, n := Text(t), Before(t.rows, k), t.rows[k];
    RowBounds(text, t.rows, t.newCols, k);
    RowBounds(text, t.rows, t.newCols, k + 1);
    RowReadBack(t, after, k);
    RowReadBack(t, after, k + 1);
    RowCell(t, after[k + 1], k + 1, 0);
    hide IsNewRow, Posed, Misread;
    FlatAfterLine(after, k, t.newCols);
    assert text[from..][n - 1] == text[from + n - 1];
  }

  /** The first cell of the next line. */
  lemma FlatAfterLine(lines: seq<Line>, k: nat, cols: nat)
    requires Lines(lines, cols) && cols > 0 && k + 1 < |lines| && LineLength(lines, k + 1, cols) > 0
    ensures |lines[k + 1]| == cols
    ensures var l := LineLength(lines, k, cols);
            l < |Flat(lines, k, cols)| && Flat(lines, k, cols)[l] == lines[k + 1][0]
  {
    hide Flat, LineLength;
    UnfoldFlat(lines, k, cols);
    UnfoldFlat(lines, k + 1, cols);
    assert Flat(lines, k + 1, cols)[0] == Pad(lines[k + 1])[0];
  }

  /** Narrowing keeps the lines sound; and read again, they hold the same cells if and
      only if the last row ends where a character ends and no row that is full with a
      blank stands before a wide character. It tears no character itself. */
  lemma NarrowingKeepsTheCells(t: Job, after: seq<Line>)
    requires Posed(t)
    requires |after| == |t.rows| > 0 && forall k :: 0 <= k < |after| ==> IsNewRow(t, after[k], k)
    ensures Lines(after, t.newCols)
    ensures Flat(after, 0, t.newCols) == Text(t) <==> ReadBack(t, 0)
    ensures AllUntorn(t.lines) ==> AllUntorn(after)
  {
    hide Flat, AreRows, Misread, EndsWritten, LineLength, AllUntorn;
    RowsAreLines(t, after);
    BeforeNext(t.rows, 0);
    assert Text(t)[0..] == Text(t);
    TextFrom(t, after, 0);
    if AllUntorn(t.lines) {
      RowsAreUntorn(t, after);
    }
  }

  lemma RowsAreUntorn(t: Job, after: seq<Line>)
    requires Posed(t) && AllUntorn(t.lines)
    requires |after| == |t.rows| && forall k :: 0 <= k < |after| ==> IsNewRow(t, after[k], k)
    ensures AllUntorn(after)
  {
    forall k | 0 <= k < |after| ensures Untorn(after[k]) {
      RowIsWhole(t, after[k], k);
    }
  }

  lemma RowIsWhole(t: Job, row: Line, k: nat)
    requires Posed(t) && AllUntorn(t.lines) && k < |t.rows| && IsNewRow(t, row, k)
    ensures Untorn(row)
  {
    hide Flat, LineLength, AreRows, Lines;
    var text, from, n := Text(t), Before(t.rows, k), t.rows[k];
    FlatIsUntorn(t.lines, 0, t.oldCols);
    RowsTearNothing(t, k);
    RowBounds(text, t.rows, t.newCols, k);
    forall i | 0 <= i < |row| ensures Whole(row, i) {
      if i < n {
        RowCell(t, row, k, i);
        assert Whole(text, from + i);
        if i + 1 < n {
          RowCell(t, row, k, i + 1);
        }
      }
    }
  }

  lemma RowsTearNothing(t: Job, k: nat)
    requires Posed(t) && AllUntorn(t.lines) && k < |t.rows|
    ensures var to := Before(t.rows, k + 1); 0 < to <= |Text(t)| && !Wide(Text(t)[to - 1])
  {
    FlatIsUntorn(t.lines, 0, t.oldCols);
    RowsAreTheLayout(Text(t), t.rows, t.newCols);
    NoBoundaryInside(Text(t), t.rows, t.newCols, k + 1);
  }

  /** Four cells become two rows of two; then the blank before the wide character
      is not read any more. */
  lemma BlankIsMisread(a: Cell, blank: Cell, wide: Cell, second: Cell)
    requires Written(a) && a.width == 1 && Blank(blank)
    requires Wide(wide) && Written(wide) && second.width == 0 && !Written(second)
    ensures var lines: seq<Line> := [[a, blank, wide, second]];
            && Lines(lines, 4) && AllUntorn(lines) && Flat(lines, 0, 4) == lines[0]
            && AreRows(Flat(lines, 0, 4), [2, 2], 2) && Misread(Flat(lines, 0, 4), [2, 2], 2, 0)
  {
    var line := [a, blank, wide, second];
    var lines: seq<Line> := [line];
    forall i | 0 <= i < 4 ensures Whole(line, i) && Sound(line[i]) {
    }
    assert TrimmedLength(line, 3) == 4 && TrimmedLength(line, 4) == 4;
    UnfoldFlat(lines, 0, 4);
    NoMoreLines(lines, 4);
    assert Pad(line)[..4] == line;
    var text := Flat(lines, 0, 4);
    assert text == line && text[2..] == [wide, second] && text[2..][2..] == [];
    RowsUnfold(text, 2);
    RowsUnfold(text[2..], 2);
    assert [2, 2][..1] == [2] && Sum([2]) == 2 + Sum([]);
  }
}
