// The rest of BufferLine and of the narrowing loop of Buffer._reflowSmaller in
// html/xterm.js: characters made of several code points sit in a table beside the
// cells of a line, and copyCellsFrom moves the entries of that table after the
// cells.

module ReflowMarks {
  import opened Common
  import opened Reflow
  import opened ReflowCopy

  // ---- lines with their tables ---------------------------------------------

  type Table = map<nat, string>

  datatype BufferLine = BufferLine(cells: Line, combined: Table)

  function Cells(group: seq<BufferLine>): (ls: seq<Line>)
    ensures |ls| == |group| && forall k :: 0 <= k < |ls| ==> ls[k] == group[k].cells
  {
    seq(|group|, k requires 0 <= k < |group| => group[k].cells)
  }

  function Tables(group: seq<BufferLine>): (ts: seq<Table>)
    ensures |ts| == |group| && forall k :: 0 <= k < |ts| ==> ts[k] == group[k].combined
  {
    seq(|group|, k requires 0 <= k < |group| => group[k].combined)
  }

  function Entry(table: Table, i: int): Option<string> {
    if i >= 0 && i in table then Some(table[i]) else None
  }

  /** Every combined cell has its entry; there may be entries left over from
      characters overwritten, also behind the last cell. */
  ghost predicate Marked(line: Line, table: Table) {
    forall i :: 0 <= i < |line| && line[i].combined ==> i in table
  }

  ghost predicate AllMarked(lines: seq<Line>, tables: seq<Table>) {
    |tables| == |lines| && forall k :: 0 <= k < |lines| ==> Marked(lines[k], tables[k])
  }

  // ---- copyCellsFrom -------------------------------------------------------

  /** The entry that the loop over the keys finds at h. In a line copied onto
      itself, d to the right, an entry that an earlier step of the loop wrote. */
  function Carried(src: Table, t: nat, d: nat, h: nat, same: bool): string
    requires h in src
  {
    if same && 0 < d && t <= h - d && h - d in src then Carried(src, t, d, h - d, same) else src[h]
  }

  predicate Arrives(from: set<nat>, t: nat, r: nat, k: nat) {
    k >= r && k - r + t in from
  }

  /** The table of the destination once the entries at the keys `from` were
      handled: every one from column t on has gone to column r and beyond, however
      few cells were copied. */
  ghost predicate SoFar(dst: Table, src: Table, now: Table, t: nat, r: nat, same: bool, from: set<nat>)
    requires from <= src.Keys && (same ==> t <= r)
  {
    forall k: nat {:trigger k in now} ::
      && (k in now <==> k in dst || Arrives(from, t, r, k))
      && (k in now ==> now[k] == if !Arrives(from, t, r, k) then dst[k]
                                 else Carried(src, t, if same then r - t else 0, k - r + t, same))
  }

  ghost predicate Copied(dst: Table, src: Table, now: Table, t: nat, r: nat, same: bool)
    requires same ==> t <= r
  {
    SoFar(dst, src, now, t, r, same, src.Keys)
  }

  predicate Smallest(h: nat, keys: set<nat>) {
    h in keys && forall k :: k in keys ==> h <= k
  }

  lemma {:induction false} HasSmallest(keys: set<nat>)
    requires keys != {}
    ensures exists h :: Smallest(h, keys)
    decreases |keys|
  {
    var x :| x in keys;
    if !Smallest(x, keys) {
      var rest := keys - {x};
      HasSmallest(rest);
      var h: nat :| Smallest(h, rest);
      SmallestWith(rest, h, x);
      assert keys == rest + {x};
    }
  }

  lemma SmallestWith(rest: set<nat>, h: nat, x: nat)
    requires Smallest(h, rest)
    ensures Smallest(if h <= x then h else x, rest + {x})
  {
  }

  /** The keys still to come are behind those handled. */
  ghost predicate InOrder(all: set<nat>, keys: set<nat>) {
    keys <= all && forall h, k :: h in all && h !in keys && k in keys ==> h < k
  }

  lemma OrderKept(all: set<nat>, keys: set<nat>, h: nat)
    requires InOrder(all, keys) && Smallest(h, keys)
    ensures InOrder(all, keys - {h})
    ensures all - (keys - {h}) == all - keys + {h}
    ensures forall k :: k in all && k < h ==> k in all - keys
  {
  }

  /** In a line copied onto itself, what stands at h when its turn comes. */
  lemma Found(src: Table, now: Table, t: nat, r: nat, done: set<nat>, h: nat)
    requires t <= r && done <= src.Keys && h in src && h !in done && h >= t
    requires forall k :: k in src.Keys && k < h ==> k in done
    requires SoFar(src, src, now, t, r, true, done)
    ensures h in now && now[h] == Carried(src, t, r - t, h, true)
  {
    assert h in now;
    var d := r - t;
    assert h - r + t == h - d;
    assert Arrives(done, t, r, h) <==> 0 < d && t <= h - d && h - d in src;
  }

  lemma NextEntry(dst: Table, src: Table, now: Table, t: nat, r: nat, same: bool, done: set<nat>, h: nat)
    requires done <= src.Keys && h in src && h !in done && (same ==> t <= r && dst == src)
    requires forall k :: k in src.Keys && k < h ==> k in done
    requires SoFar(dst, src, now, t, r, same, done)
    ensures h < t ==> SoFar(dst, src, now, t, r, same, done + {h})
    ensures h >= t && same ==> h in now
    ensures h >= t ==>
              SoFar(dst, src, now[h - t + r := if same then now[h] else src[h]], t, r, same, done + {h})
  {
    if h >= t {
      if same {
        Found(src, now, t, r, done, h);
      }
      var value := if same then now[h] else src[h];
      assert value == Carried(src, t, if same then r - t else 0, h, same);
      EntryArrives(dst, src, now, t, r, same, done, h, value);
    }
  }

  lemma EntryArrives(dst: Table, src: Table, now: Table, t: nat, r: nat, same: bool, done: set<nat>,
                     h: nat, value: string)
    requires done <= src.Keys && h in src && t <= h && (same ==> t <= r)
    requires value == Carried(src, t, if same then r - t else 0, h, same)
    requires SoFar(dst, src, now, t, r, same, done)
    ensures SoFar(dst, src, now[h - t + r := value], t, r, same, done + {h})
  {
    hide Carried;
    forall k: nat
      ensures Arrives(done + {h}, t, r, k) <==> k == h - t + r || Arrives(done, t, r, k)
    {
    }
  }

  /** What a call of copyCellsFrom does: line y has the cells, and the entries that
      came with them; no other line has changed. */
  ghost predicate CopiedOver(group: seq<BufferLine>, after: seq<BufferLine>, y: nat, m: nat, srcCol: nat,
                             destCol: nat, count: nat)
    requires y < |group| && m < |group|
    requires destCol + count <= |group[y].cells| && srcCol + count <= |group[m].cells| + 1
    requires y == m ==> srcCol <= destCol
  {
    && |after| == |group| && (forall k :: 0 <= k < |group| && k != y ==> after[k] == group[k])
    && after[y].cells == Pasted(group[y].cells, destCol, Pad(group[m].cells)[srcCol..srcCol + count])
    && Copied(group[y].combined, group[m].combined, after[y].combined, srcCol, destCol, y == m)
  }

  /** `this` is line y of the group and the other line m; they may be the same. */
  method CopyCellsFrom(group: seq<BufferLine>, y: nat, m: nat, srcCol: nat, destCol: nat, count: nat)
    returns (after: seq<BufferLine>)
    requires y < |group| && m < |group|
    requires destCol + count <= |group[y].cells| && srcCol + count <= |group[m].cells| + 1
    requires y == m ==> srcCol <= destCol
    ensures CopiedOver(group, after, y, m, srcCol, destCol, count)
  {
    after := CopyData(group, y, m, srcCol, destCol, count);
    after := CopyCombined(after, y, m, srcCol, destCol);
  }

  method CopyData(group: seq<BufferLine>, y: nat, m: nat, srcCol: nat, destCol: nat, count: nat)
    returns (after: seq<BufferLine>)
    requires y < |group| && m < |group|
    requires destCol + count <= |group[y].cells| && srcCol + count <= |group[m].cells| + 1
    requires y == m ==> srcCol <= destCol
    ensures |after| == |group| && forall k :: 0 <= k < |group| && k != y ==> after[k] == group[k]
    ensures after[y].combined == group[y].combined
    ensures after[y].cells == Pasted(group[y].cells, destCol, Pad(group[m].cells)[srcCol..srcCol + count])
  {
    after := group;
    var s := count;
    ghost var line, source := group[y].cells, Pad(group[m].cells);
    while s > 0
      invariant 0 <= s <= count && |after| == |group|
      invariant forall k :: 0 <= k < |group| && k != y ==> after[k] == group[k]
      invariant after[y].combined == group[y].combined
      invariant after[y].cells == line[..destCol + s] + source[srcCol + s..srcCol + count] + line[destCol + count..]
    {
      s := s - 1;
      var cell := CellAt(after[m].cells, srcCol + s);
      assert cell == source[srcCol + s];
      after := after[y := after[y].(cells := after[y].cells[destCol + s := cell])];
      Prepended(line, source, destCol, srcCol, s, count);
    }
  }

  /** The keys are those the table had before the loop, in ascending order; the
      values are read when their turn comes. */
  method CopyCombined(group: seq<BufferLine>, y: nat, m: nat, srcCol: nat, destCol: nat)
    returns (after: seq<BufferLine>)
    requires y < |group| && m < |group| && (y == m ==> srcCol <= destCol)
    ensures |after| == |group| && forall k :: 0 <= k < |group| && k != y ==> after[k] == group[k]
    ensures after[y].cells == group[y].cells
    ensures Copied(group[y].combined, group[m].combined, after[y].combined, srcCol, destCol, y == m)
  {
    hide SoFar, Carried, InOrder;
    after := group;
    var keys := group[m].combined.Keys;
    ghost var dst, src := group[y].combined, group[m].combined;
    NothingSoFar(dst, src, srcCol, destCol, y == m);
    assert src.Keys - keys == {};
    AllToCome(keys);
    while keys != {}
      invariant keys <= src.Keys && |after| == |group|
      invariant forall k :: 0 <= k < |group| && k != y ==> after[k] == group[k]
      invariant after[y].cells == group[y].cells
      invariant InOrder(src.Keys, keys)
      invariant SoFar(dst, src, after[y].combined, srcCol, destCol, y == m, src.Keys - keys)
      decreases |keys|
    {
      HasSmallest(keys);
      var h: nat :| Smallest(h, keys);
      OrderKept(src.Keys, keys, h);
      NextEntry(dst, src, after[y].combined, srcCol, destCol, y == m, src.Keys - keys, h);
      if h >= srcCol {
        after := after[y := after[y].(combined := after[y].combined[h - srcCol + destCol := after[m].combined[h]])];
      }
      keys := keys - {h};
    }
    assert src.Keys - keys == src.Keys;
  }

  lemma AllToCome(keys: set<nat>)
    ensures InOrder(keys, keys)
  {
  }

  lemma NothingSoFar(dst: Table, src: Table, t: nat, r: nat, same: bool)
    requires same ==> t <= r
    ensures SoFar(dst, src, dst, t, r, same, {})
  {
  }

  // ---- where an entry ends up ----------------------------------------------

  /** A position of the text in the old lines: cell i of line m. */
  function LineOf(lines: seq<Line>, cols: nat, p: int, k: nat): (m: nat)
    requires k < |lines| && Lines(lines, cols) && cols > 0
    ensures k <= m < |lines|
    decreases |lines| - k
  {
    if k + 1 == |lines| || p < Start(lines, k + 1, cols) then k else LineOf(lines, cols, p, k + 1)
  }

  /** ... and in the new rows: cell j of row y. */
  function RowOf(rows: seq<int>, p: int, k: nat): (y: nat)
    requires k < |rows|
    ensures k <= y < |rows|
    decreases |rows| - k
  {
    if k + 1 == |rows| || p < Before(rows, k + 1) then k else RowOf(rows, p, k + 1)
  }

  lemma {:induction false} LineFound(lines: seq<Line>, cols: nat, m: nat, i: nat, k: nat)
    requires Lines(lines, cols) && cols > 0 && k <= m < |lines| && i < LineLength(lines, m, cols)
    ensures LineOf(lines, cols, Start(lines, m, cols) + i, k) == m
    decreases m - k
  {
    hide Flat, LineLength;
    OldLine(lines, m, cols);
    if k < m {
      LaterLine(lines, k + 1, m, cols);
      LineFound(lines, cols, m, i, k + 1);
    }
  }

  lemma {:induction false} LineHolds(lines: seq<Line>, cols: nat, p: nat, k: nat)
    requires Lines(lines, cols) && cols > 0 && k < |lines|
    requires Start(lines, k, cols) <= p < |Flat(lines, 0, cols)|
    ensures var m := LineOf(lines, cols, p, k);
            Start(lines, m, cols) <= p < Start(lines, m, cols) + LineLength(lines, m, cols)
    decreases |lines| - k
  {
    hide Flat, LineLength;
    OldLine(lines, k, cols);
    NoMoreLines(lines, cols);
    if k + 1 < |lines| && p >= Start(lines, k + 1, cols) {
      LineHolds(lines, cols, p, k + 1);
    }
  }

  lemma {:induction false} RowFound(text: seq<Cell>, rows: seq<int>, r: nat, y: nat, j: nat, k: nat)
    requires AreRows(text, rows, r) && k <= y < |rows| && j < rows[y]
    ensures RowOf(rows, Before(rows, y) + j, k) == y
    decreases y - k
  {
    hide AreRows;
    RowBounds(text, rows, r, y);
    if k < y {
      LaterRow(text, rows, r, k + 1, y);
      RowFound(text, rows, r, y, j, k + 1);
    }
  }

  lemma {:induction false} LaterRow(text: seq<Cell>, rows: seq<int>, r: nat, j: nat, k: nat)
    requires AreRows(text, rows, r) && j <= k <= |rows|
    ensures Before(rows, j) <= Before(rows, k)
    decreases k
  {
    hide AreRows;
    if j < k {
      RowBounds(text, rows, r, k - 1);
      LaterRow(text, rows, r, j, k - 1);
    }
  }

  lemma {:induction false} RowHolds(text: seq<Cell>, rows: seq<int>, r: nat, p: nat, k: nat)
    requires AreRows(text, rows, r) && k < |rows| && Before(rows, k) <= p < |text|
    ensures var y := RowOf(rows, p, k);
            Before(rows, y) <= p < Before(rows, y) + rows[y]
    decreases |rows| - k
  {
    hide AreRows;
    RowBounds(text, rows, r, k);
    RowBounds(text, rows, r, k + 1);
    if k + 1 < |rows| && p >= Before(rows, k + 1) {
      RowHolds(text, rows, r, p, k + 1);
    }
  }

  ghost predicate Tabled(t: Job, tables: seq<Table>) {
    Posed(t) && |t.rows| > 0 && AllMarked(t.lines, tables)
  }

  function OwnMark(t: Job, tables: seq<Table>, p: int): Option<string>
    requires Tabled(t, tables)
  {
    var m := LineOf(t.lines, t.oldCols, p, 0);
    Entry(tables[m], p - Start(t.lines, m, t.oldCols))
  }

  /** How far to the right of its old column a cell of line m is put in row y. */
  function ShiftOf(t: Job, m: nat, y: nat): int
    requires Posed(t) && m < |t.lines| && y < |t.rows|
  {
    Start(t.lines, m, t.oldCols) - Before(t.rows, y)
  }

  /** What the copy of a cell brings along: its entry, or, from a line to itself,
      the entry found by stepping back by the shift as far as entries go. */
  function Brought(t: Job, tables: seq<Table>, p: int): Option<string>
    requires Tabled(t, tables)
  {
    var m, y := LineOf(t.lines, t.oldCols, p, 0), RowOf(t.rows, p, 0);
    var i, d := p - Start(t.lines, m, t.oldCols), ShiftOf(t, m, y);
    if m == y && d > 0 && i >= 0 && i in tables[m]
    then Some(Carried(tables[m], 0, d, i, true))
    else Entry(tables[m], i)
  }

  /** The entry of the line before that is copied over the one of a cell, if there is
      one: it stands behind the cells of that line that belong to the text. Only if that
      line ends in the row. */
  function Spill(t: Job, tables: seq<Table>, p: int): Option<string>
    requires Tabled(t, tables)
  {
    var m, y := LineOf(t.lines, t.oldCols, p, 0), RowOf(t.rows, p, 0);
    if m > 0 && ShiftOf(t, m, y) > 0
    then Entry(tables[m - 1], LineLength(t.lines, m - 1, t.oldCols) + p - Start(t.lines, m, t.oldCols))
    else None
  }

  /** The entry a cell of the text has in the end. */
  function FinalMark(t: Job, tables: seq<Table>, p: int): Option<string>
    requires Tabled(t, tables)
  {
    if Spill(t, tables, p).Some? then Spill(t, tables, p) else Brought(t, tables, p)
  }

  // ---- the loop over places ------------------------------------------------

  ghost predicate RowBrings(t: Job, tables: seq<Table>, table: Table, y: nat, b: nat)
    requires Tabled(t, tables) && y < |t.rows|
  {
    forall j: nat {:trigger Entry(table, j)} :: b <= j < t.rows[y] && CombinedAt(t, Before(t.rows, y) + j) ==>
      Entry(table, j) == Brought(t, tables, Before(t.rows, y) + j)
  }

  ghost predicate RowFinal(t: Job, tables: seq<Table>, table: Table, y: nat)
    requires Tabled(t, tables) && y < |t.rows|
  {
    forall j: nat {:trigger Entry(table, j)} :: j < t.rows[y] && CombinedAt(t, Before(t.rows, y) + j) ==>
      Entry(table, j) == FinalMark(t, tables, Before(t.rows, y) + j)
  }

  ghost predicate CombinedAt(t: Job, p: int)
    requires Posed(t)
  {
    0 <= p < |Text(t)| && Text(t)[p].combined
  }

  ghost predicate MarksAt(t: Job, tables: seq<Table>, now: seq<Table>, p: Place)
    requires Tabled(t, tables) && At(t, p)
  {
    && |now| == |t.rows|
    && (forall k :: 0 <= k < p.m ==> now[k] == tables[k])
    && (p.c > 0 ==> now[p.m] == tables[p.m])
    && (forall k :: p.y < k < |now| ==> RowFinal(t, tables, now[k], k))
    && (if p.b == 0 then RowFinal(t, tables, now[p.y], p.y) else RowBrings(t, tables, now[p.y], p.y, p.b))
    && (0 < p.b < t.rows[p.y] ==> p.c == 0 || p.c == LineLength(t.lines, p.m, t.oldCols))
  }

  /** The cell that ends up in cell j of row y, with the place in front of it. */
  lemma Sourced(t: Job, p: Place, j: nat, k: nat)
    requires Posed(t) && At(t, p) && p.b - k <= j < p.b && k <= p.b && k <= p.c
    ensures var i := j - p.b + p.c;
            var q := Before(t.rows, p.y) + j;
            && q == Start(t.lines, p.m, t.oldCols) + i && 0 <= q < |Text(t)|
            && LineOf(t.lines, t.oldCols, q, 0) == p.m && RowOf(t.rows, q, 0) == p.y
            && i >= 0 && Text(t)[q] == CellAt(t.lines[p.m], i)
  {
    hide Flat, LineLength, AreRows;
    var i := j - p.b + p.c;
    OldLine(t.lines, p.m, t.oldCols);
    LineFound(t.lines, t.oldCols, p.m, i, 0);
    RowFound(Text(t), t.rows, t.newCols, p.y, j, 0);
    var from, l := Start(t.lines, p.m, t.oldCols), LineLength(t.lines, p.m, t.oldCols);
    assert Text(t)[from..from + l][i] == Pad(t.lines[p.m])[..l][i];
  }

  /** A first copy into a row: up to the end of the row. */
  lemma FirstCopy(t: Job, tables: seq<Table>, dst: Table, src: Table, now: Table, p: Place, count: nat)
    requires Tabled(t, tables) && At(t, p) && count == Min(p.b, p.c) && count > 0
    requires src == tables[p.m] && p.b == t.rows[p.y] && p.m <= p.y && (p.m == p.y ==> p.b >= p.c)
    requires Copied(dst, src, now, p.c - count, p.b - count, p.y == p.m)
    ensures RowBrings(t, tables, now, p.y, p.b - count)
    ensures count == p.b ==> RowFinal(t, tables, now, p.y)
  {
    hide Flat, LineLength, AreRows, Carried;
    forall j: nat | p.b - count <= j < t.rows[p.y] && CombinedAt(t, Before(t.rows, p.y) + j)
      ensures Entry(now, j) == Brought(t, tables, Before(t.rows, p.y) + j)
      ensures count == p.b ==> Spill(t, tables, Before(t.rows, p.y) + j) == None
    {
      Sourced(t, p, j, count);
      var i := j - p.b + p.c;
      assert CellAt(t.lines[p.m], i).combined && Marked(t.lines[p.m], src);
      assert Arrives(src.Keys, p.c - count, p.b - count, j);
      assert j in now;
      CarriedAlone(src, p.c - count, ShiftOf(t, p.m, p.y), i);
    }
  }

  lemma CarriedAlone(src: Table, t: nat, d: int, h: nat)
    requires h in src
    ensures Carried(src, t, 0, h, true) == src[h]
    ensures forall e: nat :: Carried(src, t, e, h, false) == src[h]
  {
  }

  /** A row that is not empty behind the place ends with the whole next line, and
      has less room left than the line at the place is long. */
  lemma SecondPlace(t: Job, p: Place)
    requires Posed(t) && At(t, p) && 0 < p.b < t.rows[p.y] && p.c == LineLength(t.lines, p.m, t.oldCols)
    ensures p.m + 1 < |t.lines| && p.b < p.c && p.m < p.y
    ensures Before(t.rows, p.y) + p.b == Start(t.lines, p.m + 1, t.oldCols)
    ensures t.rows[p.y] - p.b <= LineLength(t.lines, p.m + 1, t.oldCols)
  {
    hide Flat, LineLength, AreRows;
    RowBounds(Text(t), t.rows, t.newCols, p.y);
    OldLine(t.lines, p.m, t.oldCols);
    NoMoreLines(t.lines, t.oldCols);
    if p.m + 1 < |t.lines| {
      NoneOvertaken(t, p);
      OldLine(t.lines, p.m + 1, t.oldCols);
    }
  }

  /** The second copy fills the row, and brings the entries behind the line's cells
      over those of the cells already there. */
  lemma SecondCopy(t: Job, tables: seq<Table>, dst: Table, src: Table, now: Table, p: Place)
    requires Tabled(t, tables) && At(t, p) && 0 < p.b < t.rows[p.y] && p.c == LineLength(t.lines, p.m, t.oldCols)
    requires src == tables[p.m] && RowBrings(t, tables, dst, p.y, p.b)
    requires p.b <= p.c && p.m < p.y && Copied(dst, src, now, p.c - p.b, 0, false)
    ensures RowFinal(t, tables, now, p.y)
  {
    hide Flat, LineLength, AreRows, Carried, RowBrings, FinalMark, Copied;
    SecondPlace(t, p);
    forall j: nat | j < t.rows[p.y] && CombinedAt(t, Before(t.rows, p.y) + j)
      ensures Entry(now, j) == FinalMark(t, tables, Before(t.rows, p.y) + j)
    {
      SecondAt(dst, src, now, p.b, p.c, j);
      if j < p.b {
        HeadFinal(t, tables, p, j);
      } else {
        BroughtAlready(t, tables, dst, p, j);
        TailFinal(t, tables, p, j);
      }
    }
  }

  lemma SecondAt(dst: Table, src: Table, now: Table, b: nat, c: nat, j: nat)
    requires b <= c && Copied(dst, src, now, c - b, 0, false)
    ensures Entry(now, j) == if Entry(src, j - b + c).Some? then Entry(src, j - b + c) else Entry(dst, j)
  {
    hide Carried;
    assert Arrives(src.Keys, c - b, 0, j) <==> j - 0 + (c - b) in src;
    assert j in now <==> j in dst || Arrives(src.Keys, c - b, 0, j);
    if j - b + c in src {
      CarriedAlone(src, c - b, 0, j - b + c);
    }
  }

  lemma HeadFinal(t: Job, tables: seq<Table>, p: Place, j: nat)
    requires Tabled(t, tables) && At(t, p) && p.b <= p.c && p.m < p.y
    requires j < p.b && CombinedAt(t, Before(t.rows, p.y) + j)
    ensures Entry(tables[p.m], j - p.b + p.c).Some?
    ensures FinalMark(t, tables, Before(t.rows, p.y) + j) == Entry(tables[p.m], j - p.b + p.c)
  {
    hide Flat, LineLength, AreRows;
    Sourced(t, p, j, p.b);
    assert CellAt(t.lines[p.m], j - p.b + p.c).combined && Marked(t.lines[p.m], tables[p.m]);
  }

  lemma TailFinal(t: Job, tables: seq<Table>, p: Place, j: nat)
    requires Tabled(t, tables) && At(t, p) && 0 < p.b < t.rows[p.y] && p.c == LineLength(t.lines, p.m, t.oldCols)
    requires p.b <= j < t.rows[p.y]
    ensures var over, q := Entry(tables[p.m], j - p.b + p.c), Before(t.rows, p.y) + j;
            FinalMark(t, tables, q) == if over.Some? then over else Brought(t, tables, q)
  {
    hide Flat, LineLength, AreRows;
    NextSourced(t, p, j);
  }

  lemma BroughtAlready(t: Job, tables: seq<Table>, table: Table, p: Place, j: nat)
    requires Tabled(t, tables) && p.y < |t.rows| && RowBrings(t, tables, table, p.y, p.b)
    requires p.b <= j < t.rows[p.y] && CombinedAt(t, Before(t.rows, p.y) + j)
    ensures Entry(table, j) == Brought(t, tables, Before(t.rows, p.y) + j)
  {
  }

  lemma NextSourced(t: Job, p: Place, j: nat)
    requires Posed(t) && At(t, p) && 0 < p.b < t.rows[p.y] && p.c == LineLength(t.lines, p.m, t.oldCols)
    requires p.b <= j < t.rows[p.y]
    ensures p.m + 1 < |t.lines|
    ensures var q := Before(t.rows, p.y) + j;
            && q == Start(t.lines, p.m + 1, t.oldCols) + (j - p.b)
            && LineOf(t.lines, t.oldCols, q, 0) == p.m + 1 && RowOf(t.rows, q, 0) == p.y
            && ShiftOf(t, p.m + 1, p.y) == p.b
  {
    hide Flat, LineLength, AreRows;
    SecondPlace(t, p);
    LineFound(t.lines, t.oldCols, p.m + 1, j - p.b, 0);
    RowFound(Text(t), t.rows, t.newCols, p.y, j, 0);
  }

  /** One call of copyCellsFrom. */
  lemma MarksMoved(t: Job, tables: seq<Table>, now: seq<Table>, table: Table, p: Place, count: nat)
    requires Tabled(t, tables) && At(t, p) && MarksAt(t, tables, now, p) && count == Min(p.b, p.c) && p.b > 0
    requires p.c > 0 || (p.b == t.rows[p.y] && p.m <= p.y)
    requires p.m < |now| && (p.m == p.y ==> p.c - count <= p.b - count)
    requires Copied(now[p.y], now[p.m], table, p.c - count, p.b - count, p.y == p.m)
    ensures At(t, After(p, count)) && MarksAt(t, tables, now[p.y := table], After(p, count))
  {
    hide Flat, LineLength, AreRows, RowFinal, RowBrings, Copied;
    if p.c > 0 {
      NoneOvertaken(t, p);
      if p.b == t.rows[p.y] {
        FirstCopy(t, tables, now[p.y], now[p.m], table, p, count);
        if count == p.b {
          assert RowFinal(t, tables, table, p.y);
        }
      } else {
        SecondPlace(t, p);
        SecondCopy(t, tables, now[p.y], now[p.m], table, p);
      }
    } else {
      NothingToBring(t, tables, table, p.y);
    }
  }

  lemma NothingToBring(t: Job, tables: seq<Table>, table: Table, y: nat)
    requires Tabled(t, tables) && y < |t.rows|
    ensures t.rows[y] >= 0 ==> RowBrings(t, tables, table, y, t.rows[y])
  {
  }

  lemma MarksNextRow(t: Job, tables: seq<Table>, now: seq<Table>, p: Place)
    requires Tabled(t, tables) && At(t, p) && MarksAt(t, tables, now, p) && p.b == 0 && p.y > 0
    requires t.rows[p.y - 1] > 0
    requires At(t, Place(p.y - 1, t.rows[p.y - 1], p.m, p.c))
    ensures MarksAt(t, tables, now, Place(p.y - 1, t.rows[p.y - 1], p.m, p.c))
  {
    hide Flat, LineLength, AreRows, RowFinal, RowBrings;
    NothingToBring(t, tables, now[p.y - 1], p.y - 1);
  }

  lemma MarksNextLine(t: Job, tables: seq<Table>, now: seq<Table>, p: Place, l: nat)
    requires Tabled(t, tables) && At(t, p) && MarksAt(t, tables, now, p) && p.c == 0 && p.m > 0
    requires At(t, Place(p.y, p.b, p.m - 1, l))
    ensures MarksAt(t, tables, now, Place(p.y, p.b, p.m - 1, l))
  {
    hide Flat, LineLength, AreRows, RowFinal, RowBrings;
    OldLine(t.lines, p.m - 1, t.oldCols);
  }

  /** The whole state of the loop. */
  ghost predicate Narrowing(t: Job, tables: seq<Table>, group: seq<BufferLine>, p: Place) {
    Tabled(t, tables) && Moving(t, Cells(group), p) && MarksAt(t, tables, Tables(group), p)
  }

  ghost predicate Narrowed(t: Job, tables: seq<Table>, group: seq<BufferLine>)
    requires Tabled(t, tables)
  {
    && Finished(t, Cells(group)) && |group| == |t.rows|
    && forall k :: 0 <= k < |group| ==> RowFinal(t, tables, group[k].combined, k)
  }

  /** One call in the loop. */
  ghost predicate Called(group: seq<BufferLine>, after: seq<BufferLine>, p: Place, count: nat) {
    && p.y < |group| && p.m < |group|
    && count <= p.b <= |group[p.y].cells| && count <= p.c <= |group[p.m].cells| + 1
    && (p.y == p.m ==> p.c - count <= p.b - count)
    && CopiedOver(group, after, p.y, p.m, p.c - count, p.b - count, count)
  }

  lemma CalledMoves(group: seq<BufferLine>, after: seq<BufferLine>, p: Place, count: nat)
    requires Called(group, after, p, count)
    ensures Cells(after) == Moved(Cells(group), p, count)
    ensures Tables(after) == Tables(group)[p.y := after[p.y].combined]
    ensures Copied(Tables(group)[p.y], Tables(group)[p.m], after[p.y].combined,
                   p.c - count, p.b - count, p.y == p.m)
  {
    hide Copied, Pasted;
  }

  lemma CallKeeps(t: Job, tables: seq<Table>, group: seq<BufferLine>, p: Place, count: nat, after: seq<BufferLine>)
    requires Called(group, after, p, count) && count == Min(p.b, p.c) && p.b > 0
    requires p.y < |t.rows| && (p.c > 0 || (p.b == t.rows[p.y] && p.m <= p.y))
    requires Narrowing(t, tables, group, p)
    ensures Narrowing(t, tables, after, After(p, count))
  {
    hide Flat, LineLength, AreRows, At, Shaped, Done, Left, MarksAt, Copied, Pasted, Tabled;
    MovedKeeps(t, Cells(group), p, count);
    CalledMoves(group, after, p, count);
    MarksMoved(t, tables, Tables(group), after[p.y].combined, p, count);
  }

  /** Both ends of the loop. */
  lemma LoopStarts(t: Job, tables: seq<Table>, group: seq<BufferLine>)
    requires Tabled(t, tables) && |group| == |t.start| && Cells(group) == t.start
    requires forall k :: 0 <= k < |tables| ==> group[k].combined == tables[k]
    requires |t.lines| > 1 || TrimmedLength(t.lines[0], t.oldCols) > 0
    ensures |t.lines| > 0 && |t.lines[|t.lines| - 1]| == t.oldCols && |t.rows| > 0
    ensures var y, m := |t.rows| - 1, |t.lines| - 1;
            && t.rows[y] > 0 && m <= y
            && Narrowing(t, tables, group, Place(y, t.rows[y], m, TrimmedLength(t.lines[m], t.oldCols)))
  {
    hide Flat, AreRows;
    FirstPlace(t);
    var y, m := |t.rows| - 1, |t.lines| - 1;
    NothingToBring(t, tables, Tables(group)[y], y);
  }

  lemma LoopEnds(t: Job, tables: seq<Table>, group: seq<BufferLine>, p: Place)
    requires Narrowing(t, tables, group, p)
    ensures p.y == 0 && p.b == 0 <==> p.m == 0 && p.c == 0
    ensures p.y == 0 && p.b == 0 ==> Narrowed(t, tables, group)
  {
    hide Flat, LineLength, AreRows, Shaped, Done, Left, RowFinal, RowBrings, Finished;
    BothAtTheFront(t, Cells(group), p);
  }

  lemma CallIsSafe(t: Job, tables: seq<Table>, group: seq<BufferLine>, p: Place, count: nat)
    requires Narrowing(t, tables, group, p) && count == Min(p.b, p.c)
    ensures p.y < |group| && p.m < |group| && p.b <= |group[p.y].cells| && p.c <= |group[p.m].cells| + 1
    ensures p.c > 0 ==> p.m <= p.y && (p.m == p.y ==> p.b >= p.c)
  {
    MayCopy(t, Cells(group), p, count);
  }

  lemma RowDown(t: Job, tables: seq<Table>, group: seq<BufferLine>, p: Place)
    requires Narrowing(t, tables, group, p) && p.b == 0
    ensures p.y < |t.rows| && (p.y > 0 ==> t.rows[p.y - 1] > 0)
    ensures p.y > 0 ==> Narrowing(t, tables, group, Place(p.y - 1, t.rows[p.y - 1], p.m, p.c))
  {
    hide Flat, LineLength, AreRows, Shaped, Done, Left, MarksAt, At;
    NextRow(t, Cells(group), p);
    if p.y > 0 {
      MarksNextRow(t, tables, Tables(group), p);
    }
  }

  lemma LineUp(t: Job, tables: seq<Table>, group: seq<BufferLine>, p: Place)
    requires Narrowing(t, tables, group, p) && p.c == 0 && p.m > 0
    ensures p.m < |group| && |group[p.m - 1].cells| == t.oldCols > 0 && |group[p.m].cells| > 0
    ensures var l := WrappedLength(group[p.m - 1].cells, group[p.m].cells, t.oldCols);
            l > 0 && Narrowing(t, tables, group, Place(p.y, p.b, p.m - 1, l))
  {
    hide Flat, LineLength, AreRows, Shaped, Done, MarksAt, At;
    NextLine(t, Cells(group), p);
    MarksNextLine(t, tables, Tables(group), p, WrappedLength(group[p.m - 1].cells, group[p.m].cells, t.oldCols));
  }

  /** One call of copyCellsFrom in the loop. */
  method MoveCount(t: Job, group: seq<BufferLine>, ghost tables: seq<Table>, p: Place, count: nat)
    returns (after: seq<BufferLine>)
    requires Narrowing(t, tables, group, p) && count == Min(p.b, p.c) && p.b > 0
    requires p.y < |t.rows| && (p.c > 0 || (p.b == t.rows[p.y] && p.m <= p.y))
    ensures Narrowing(t, tables, after, After(p, count))
  {
    hide Moving, MarksAt, Flat, LineLength, AreRows, At, CopiedOver, Tabled, Narrowing, Cells, Posed, Tables;
    CallIsSafe(t, tables, group, p, count);
    after := CopyCellsFrom(group, p.y, p.m, p.c - count, p.b - count, count);
    CallKeeps(t, tables, group, p, count, after);
  }

  /** The copying loop of _reflowSmaller. */
  method MoveCells(t: Job, group: seq<BufferLine>, ghost tables: seq<Table>) returns (after: seq<BufferLine>)
    requires Tabled(t, tables) && |group| == |t.start| && Cells(group) == t.start
    requires forall k :: 0 <= k < |tables| ==> group[k].combined == tables[k]
    requires |t.lines| > 1 || TrimmedLength(t.lines[0], t.oldCols) > 0
    ensures Narrowed(t, tables, after)
  {
    hide Moving, MarksAt, Flat, LineLength, AreRows, At, Narrowed, Copied, Tabled, Narrowing, Pasted, SoFar;
    hide TrimmedLength, WrappedLength, Cells, Posed, Pad, Tables, Carried;
    after := group;
    LoopStarts(t, tables, group);
    var y, m := |t.rows| - 1, |t.lines| - 1;
    var destCol, srcCol := t.rows[y], TrimmedLength(t.lines[m], t.oldCols);
    while m >= 0
      invariant m < |t.lines|
      invariant m >= 0 ==> 0 <= y < |t.rows| && destCol > 0 && srcCol >= 0
      invariant m >= 0 ==> Narrowing(t, tables, after, Place(y, destCol, m, srcCol))
      invariant m >= 0 ==> srcCol > 0 || (destCol == t.rows[y] && m <= y)
      invariant m < 0 ==> Narrowed(t, tables, after)
      decreases m, srcCol
    {
      var count := Min(srcCol, destCol);
      after := MoveCount(t, after, tables, Place(y, destCol, m, srcCol), count);
      destCol := destCol - count;
      srcCol := srcCol - count;
      ghost var p := Place(y, destCol, m, srcCol);
      LoopEnds(t, tables, after, p);
      if destCol == 0 {
        RowDown(t, tables, after, p);
        y := y - 1;
        if y >= 0 {
          destCol := t.rows[y];
          p := Place(y, destCol, m, srcCol);
        }
      }
      if srcCol == 0 {
        if m > 0 {
          LineUp(t, tables, after, p);
          srcCol := WrappedLength(after[m - 1].cells, after[m].cells, t.oldCols);
        }
        m := m - 1;
      }
    }
  }

  // ---- the new lines -------------------------------------------------------

  /** setCell behind the row, and BufferLine.resize, which drops the entries behind the
      last column. */
  function NewLine(line: BufferLine, n: nat, newCols: nat, blank: Cell): BufferLine
    requires n <= newCols <= |line.cells|
  {
    BufferLine(
      NewRow(line.cells, n, newCols, blank),
      map k | k in line.combined && k < newCols :: line.combined[k])
  }

  ghost predicate AreNewLines(t: Job, tables: seq<Table>, after: seq<BufferLine>)
    requires Tabled(t, tables)
  {
    && |after| == |t.rows|
    && forall k :: 0 <= k < |after| ==> IsNewRow(t, after[k].cells, k) && RowFinal(t, tables, after[k].combined, k)
  }

  lemma NewLineIsNew(t: Job, tables: seq<Table>, line: BufferLine, k: nat, blank: Cell)
    requires Tabled(t, tables) && k < |t.rows| && RowFinal(t, tables, line.combined, k) && Blank(blank)
    requires RowShaped(t, line.cells, k) && RowDone(t, line.cells, k, 0)
    requires forall j :: |t.lines| <= j < |t.start| ==> forall c :: 0 <= c < |t.start[j]| ==> Blank(t.start[j][c])
    ensures 0 < t.rows[k] <= t.newCols <= |line.cells|
    ensures var next := NewLine(line, t.rows[k], t.newCols, blank);
            IsNewRow(t, next.cells, k) && RowFinal(t, tables, next.combined, k)
  {
    hide Flat, LineLength, AreRows, FinalMark, CombinedAt;
    RowBounds(Text(t), t.rows, t.newCols, k);
    RowIsNew(t, line.cells, k, blank);
    var next := NewLine(line, t.rows[k], t.newCols, blank);
    forall j: nat | j < t.rows[k] ensures Entry(next.combined, j) == Entry(line.combined, j) {
    }
  }

  /** One group of wrapped lines, narrowed. */
  method NarrowGroup(lines: seq<BufferLine>, oldCols: nat, newCols: nat, blank: Cell)
    returns (after: seq<BufferLine>, t: Job)
    requires Lines(Cells(lines), oldCols) && 2 <= newCols < oldCols && Blank(blank)
    requires AllMarked(Cells(lines), Tables(lines))
    requires |lines| > 1 || TrimmedLength(lines[0].cells, oldCols) > 0
    ensures Tabled(t, Tables(lines))
    ensures t.lines == Cells(lines) && t.oldCols == oldCols && t.newCols == newCols
    ensures AreNewLines(t, Tables(lines), after)
  {
    hide Flat, LineLength, AreRows, Untorn, FinalMark, CombinedAt;
    var cells := Cells(lines);
    var rows := NewLineLengths(cells, oldCols, newCols);
    NoFewerRows(cells, oldCols, rows, newCols);
    var empty := BufferLine(seq(oldCols, i => blank), map[]);
    var start := lines + seq(|rows| - |lines|, i => empty);
    t := Job(cells, oldCols, rows, newCols, Cells(start));
    assert Cells(start)[..|lines|] == cells;
    var group := MoveCells(t, start, Tables(lines));
    after := [];
    while |after| < |rows|
      invariant |after| <= |rows|
      invariant forall k :: 0 <= k < |after| ==>
                  IsNewRow(t, after[k].cells, k) && RowFinal(t, Tables(lines), after[k].combined, k)
    {
      var k := |after|;
      assert RowShaped(t, Cells(group)[k], k) && RowDone(t, Cells(group)[k], k, 0);
      NewLineIsNew(t, Tables(lines), group[k], k, blank);
      after := after + [NewLine(group[k], rows[k], newCols, blank)];
    }
  }

  // ---- the text, read again ------------------------------------------------

  function MarkOf(line: Line, table: Table, i: nat): Option<string> {
    if CellAt(line, i).combined then Entry(table, i) else None
  }

  function Marks(line: Line, table: Table, n: nat): (ms: seq<Option<string>>)
    ensures |ms| == n && forall i :: 0 <= i < n ==> ms[i] == MarkOf(line, table, i)
  {
    seq(n, i requires 0 <= i < n => MarkOf(line, table, i))
  }

  /** The combined characters of the text, cell by cell. */
  function FlatMarks(lines: seq<Line>, tables: seq<Table>, k: nat, cols: nat): (ms: seq<Option<string>>)
    requires k <= |lines| == |tables| && Lines(lines, cols) && cols > 0
    decreases |lines| - k
  {
    if k == |lines| then []
    else
      LengthFits(lines, k, cols);
      Marks(lines[k], tables[k], LineLength(lines, k, cols)) + FlatMarks(lines, tables, k + 1, cols)
  }

  lemma {:induction false} MarksAlong(lines: seq<Line>, tables: seq<Table>, k: nat, cols: nat)
    requires k <= |lines| == |tables| && Lines(lines, cols) && cols > 0
    ensures |FlatMarks(lines, tables, k, cols)| == |Flat(lines, k, cols)|
    decreases |lines| - k
  {
    if k < |lines| {
      UnfoldFlat(lines, k, cols);
      MarksAlong(lines, tables, k + 1, cols);
    }
  }

  lemma {:induction false} MarkFound(lines: seq<Line>, tables: seq<Table>, k: nat, cols: nat, m: nat, i: nat)
    requires k <= m < |lines| == |tables| && Lines(lines, cols) && cols > 0 && i < LineLength(lines, m, cols)
    ensures var at := Start(lines, m, cols) - Start(lines, k, cols) + i;
            && 0 <= at < |FlatMarks(lines, tables, k, cols)|
            && FlatMarks(lines, tables, k, cols)[at] == MarkOf(lines[m], tables[m], i)
    decreases m - k
  {
    hide Flat, LineLength, Pad, CellAt, MarkOf, Lines;
    OldLine(lines, k, cols);
    OldLine(lines, m, cols);
    if k < m {
      LaterLine(lines, k + 1, m, cols);
      MarkFound(lines, tables, k + 1, cols, m, i);
    }
  }

  /** No entry is lost or mixed up on the way. */
  ghost predicate MarksKept(t: Job, tables: seq<Table>)
    requires Tabled(t, tables)
  {
    forall p: nat {:trigger CombinedAt(t, p)} :: CombinedAt(t, p) ==> FinalMark(t, tables, p) == OwnMark(t, tables, p)
  }

  lemma OwnIsRead(t: Job, tables: seq<Table>, p: nat)
    requires Tabled(t, tables) && p < |Text(t)|
    ensures var ms := FlatMarks(t.lines, tables, 0, t.oldCols);
            && |ms| == |Text(t)|
            && ms[p] == if CombinedAt(t, p) then OwnMark(t, tables, p) else None
  {
    hide Flat, LineLength, AreRows;
    MarksAlong(t.lines, tables, 0, t.oldCols);
    LineHolds(t.lines, t.oldCols, p, 0);
    var m := LineOf(t.lines, t.oldCols, p, 0);
    var i := p - Start(t.lines, m, t.oldCols);
    MarkFound(t.lines, tables, 0, t.oldCols, m, i);
    OldLine(t.lines, m, t.oldCols);
    var from, l := Start(t.lines, m, t.oldCols), LineLength(t.lines, m, t.oldCols);
    assert Text(t)[from..from + l][i] == Pad(t.lines[m])[..l][i];
  }

  /** Rows read back as long as they were made start where they were put. */
  lemma {:induction false} RowsStart(t: Job, after: seq<Line>, y: nat)
    requires Posed(t) && |after| == |t.rows| && forall j :: 0 <= j < |after| ==> IsNewRow(t, after[j], j)
    requires Lines(after, t.newCols) && ReadBack(t, 0) && y <= |after|
    ensures Start(after, y, t.newCols) == Before(t.rows, y)
    ensures y < |after| ==> LineLength(after, y, t.newCols) == t.rows[y]
    decreases y
  {
    hide Flat, LineLength, AreRows, Misread, EndsWritten, IsNewRow;
    if y < |after| {
      RowReadBack(t, after, y);
    }
    if y > 0 {
      RowsStart(t, after, y - 1);
      OldLine(after, y - 1, t.newCols);
      BeforeNext(t.rows, y - 1);
    }
  }

  lemma FinalIsRead(t: Job, tables: seq<Table>, after: seq<BufferLine>, p: nat)
    requires Tabled(t, tables) && AreNewLines(t, tables, after) && Lines(Cells(after), t.newCols)
    requires ReadBack(t, 0) && p < |Text(t)|
    ensures var ms := FlatMarks(Cells(after), Tables(after), 0, t.newCols);
            && p < |ms|
            && ms[p] == if CombinedAt(t, p) then FinalMark(t, tables, p) else None
  {
    hide Flat, LineLength, AreRows, FinalMark, ReadBack, FlatMarks, MarkOf, RowFinal, CombinedAt;
    var lines, y := Cells(after), RowOf(t.rows, p, 0);
    BeforeNext(t.rows, 0);
    RowHolds(Text(t), t.rows, t.newCols, p, 0);
    RowsStart(t, lines, y);
    RowsStart(t, lines, 0);
    var j: nat := p - Before(t.rows, y);
    MarkFound(lines, Tables(after), 0, t.newCols, y, j);
    MarkInRow(t, tables, after[y], y, j);
    assert Tables(after)[y] == after[y].combined && lines[y] == after[y].cells;
  }

  lemma MarkInRow(t: Job, tables: seq<Table>, line: BufferLine, y: nat, j: nat)
    requires Tabled(t, tables) && y < |t.rows| && j < t.rows[y]
    requires IsNewRow(t, line.cells, y) && RowFinal(t, tables, line.combined, y)
    ensures j < |line.cells|
    ensures var p := Before(t.rows, y) + j;
            MarkOf(line.cells, line.combined, j) == if CombinedAt(t, p) then FinalMark(t, tables, p) else None
  {
    hide Flat, LineLength, AreRows, FinalMark;
    RowCell(t, line.cells, y, j);
    assert Entry(line.combined, j) == Entry(line.combined, j);
  }

  /** For all lines with their tables: narrowing keeps them sound, and read again
      they hold the same text, cells and combined characters, if and only if the last
      row ends where a character ends, no row that is full with a blank stands before
      a wide character, and every combined cell keeps its entry. */
  lemma NarrowingKeepsTheText(t: Job, tables: seq<Table>, after: seq<BufferLine>)
    requires Tabled(t, tables) && AreNewLines(t, tables, after)
    ensures Lines(Cells(after), t.newCols)
    ensures Flat(Cells(after), 0, t.newCols) == Text(t)
            && FlatMarks(Cells(after), Tables(after), 0, t.newCols) == FlatMarks(t.lines, tables, 0, t.oldCols)
            <==> ReadBack(t, 0) && MarksKept(t, tables)
  {
    hide Flat, FlatMarks, LineLength, AreRows, FinalMark, OwnMark, ReadBack, IsNewRow, RowFinal;
    NarrowingKeepsTheCells(t, Cells(after));
    MarksAlong(t.lines, tables, 0, t.oldCols);
    MarksAlong(Cells(after), Tables(after), 0, t.newCols);
    if ReadBack(t, 0) {
      var own, now := FlatMarks(t.lines, tables, 0, t.oldCols), FlatMarks(Cells(after), Tables(after), 0, t.newCols);
      forall p: nat | p < |Text(t)|
        ensures own[p] == if CombinedAt(t, p) then OwnMark(t, tables, p) else None
        ensures now[p] == if CombinedAt(t, p) then FinalMark(t, tables, p) else None
      {
        OwnIsRead(t, tables, p);
        FinalIsRead(t, tables, after, p);
      }
      SameMarks(t, tables, own, now);
    }
  }

  lemma SameMarks(t: Job, tables: seq<Table>, own: seq<Option<string>>, now: seq<Option<string>>)
    requires Tabled(t, tables) && |own| == |now| == |Text(t)|
    requires forall p: nat :: p < |own| ==> own[p] == if CombinedAt(t, p) then OwnMark(t, tables, p) else None
    requires forall p: nat :: p < |now| ==> now[p] == if CombinedAt(t, p) then FinalMark(t, tables, p) else None
    ensures now == own <==> MarksKept(t, tables)
  {
    hide Flat, LineLength, AreRows, FinalMark, OwnMark;
    if now == own {
      forall p: nat | CombinedAt(t, p) ensures FinalMark(t, tables, p) == OwnMark(t, tables, p) {
        assert now[p] == own[p];
      }
    }
  }

  /** So the lines can be narrowed again. */
  lemma NewLinesAreMarked(t: Job, tables: seq<Table>, after: seq<BufferLine>)
    requires Tabled(t, tables) && AreNewLines(t, tables, after)
    ensures AllMarked(Cells(after), Tables(after))
  {
    hide Flat, LineLength, AreRows, FinalMark, Lines;
    forall y | 0 <= y < |after| ensures Marked(after[y].cells, after[y].combined) {
      RowBounds(Text(t), t.rows, t.newCols, y);
      var line, table := after[y].cells, after[y].combined;
      forall j | 0 <= j < |line| && line[j].combined ensures j in table {
        RowCell(t, line, y, j);
        FinalIsSome(t, tables, Before(t.rows, y) + j);
        assert Entry(table, j) == FinalMark(t, tables, Before(t.rows, y) + j);
      }
    }
  }

  lemma FinalIsSome(t: Job, tables: seq<Table>, p: nat)
    requires Tabled(t, tables) && CombinedAt(t, p)
    ensures FinalMark(t, tables, p).Some? && OwnMark(t, tables, p).Some?
  {
    hide Flat, LineLength, AreRows, Carried;
    LineHolds(t.lines, t.oldCols, p, 0);
    var m := LineOf(t.lines, t.oldCols, p, 0);
    OldLine(t.lines, m, t.oldCols);
    var from, l := Start(t.lines, m, t.oldCols), LineLength(t.lines, m, t.oldCols);
    assert Text(t)[from..from + l][p - from] == Pad(t.lines[m])[..l][p - from];
    assert Marked(t.lines[m], tables[m]);
  }

  // ---- when entries are mixed up -------------------------------------------

  /** The column of the entry found by stepping back from h by d as far as entries go. */
  function StepsBack(table: Table, d: nat, h: nat): (k: nat)
    requires h in table
    ensures k in table
  {
    if 0 < d <= h && h - d in table then StepsBack(table, d, h - d) else h
  }

  lemma {:induction false} CarriedFrom(table: Table, d: nat, h: nat)
    requires h in table
    ensures Carried(table, 0, d, h, true) == table[StepsBack(table, d, h)]
    decreases h
  {
    if 0 < d <= h && h - d in table {
      CarriedFrom(table, d, h - d);
    }
  }

  /** Cell i of line m keeps its entry: the one spilled over it, if any, is the same;
      otherwise, if it stays in its own row, the one its steps back lead to. */
  ghost predicate KeepsEntry(t: Job, tables: seq<Table>, m: nat, i: nat)
    requires Tabled(t, tables) && m < |t.lines|
  {
    var y := RowOf(t.rows, Start(t.lines, m, t.oldCols) + i, 0);
    var d := ShiftOf(t, m, y);
    var own := Entry(tables[m], i);
    var over := if m > 0 && d > 0 then Entry(tables[m - 1], LineLength(t.lines, m - 1, t.oldCols) + i) else None;
    if over.Some? then over == own
    else m == y && d > 0 && i in tables[m] ==> tables[m][StepsBack(tables[m], d, i)] == tables[m][i]
  }

  /** For all lines and tables, leftovers included: cell by cell of the old lines. */
  lemma MarksKeptCellByCell(t: Job, tables: seq<Table>)
    requires Tabled(t, tables)
    ensures MarksKept(t, tables) <==>
              forall m: nat, i: nat {:trigger KeepsEntry(t, tables, m, i)} ::
                m < |t.lines| && i < LineLength(t.lines, m, t.oldCols) && CellAt(t.lines[m], i).combined ==>
                  KeepsEntry(t, tables, m, i)
  {
    hide Flat, LineLength, AreRows, Carried, CombinedAt, FinalMark, OwnMark, KeepsEntry, CellAt;
    forall m: nat, i: nat | m < |t.lines| && i < LineLength(t.lines, m, t.oldCols)
      ensures var p := Start(t.lines, m, t.oldCols) + i;
              && p >= 0 && (CombinedAt(t, p) <==> CellAt(t.lines[m], i).combined)
              && (CombinedAt(t, p) ==>
                    (KeepsEntry(t, tables, m, i) <==> FinalMark(t, tables, p) == OwnMark(t, tables, p)))
    {
      KeepsEntryMeans(t, tables, m, i);
    }
    forall p: nat | CombinedAt(t, p)
      ensures var m := LineOf(t.lines, t.oldCols, p, 0);
              0 <= p - Start(t.lines, m, t.oldCols) < LineLength(t.lines, m, t.oldCols)
    {
      CombinedIsInText(t, p);
      PositionHolds(t, p);
    }
    if forall m: nat, i: nat {:trigger KeepsEntry(t, tables, m, i)} ::
         m < |t.lines| && i < LineLength(t.lines, m, t.oldCols) && CellAt(t.lines[m], i).combined ==>
           KeepsEntry(t, tables, m, i)
    {
      forall p: nat | CombinedAt(t, p) ensures FinalMark(t, tables, p) == OwnMark(t, tables, p) {
        var m := LineOf(t.lines, t.oldCols, p, 0);
        var i: nat := p - Start(t.lines, m, t.oldCols);
        assert KeepsEntry(t, tables, m, i);
      }
    }
  }

  lemma CombinedIsInText(t: Job, p: nat)
    requires Posed(t) && CombinedAt(t, p)
    ensures p < |Text(t)|
  {
  }

  lemma KeepsEntryMeans(t: Job, tables: seq<Table>, m: nat, i: nat)
    requires Tabled(t, tables) && m < |t.lines| && i < LineLength(t.lines, m, t.oldCols)
    ensures var p := Start(t.lines, m, t.oldCols) + i;
            && p >= 0 && (CombinedAt(t, p) <==> CellAt(t.lines[m], i).combined)
            && (CombinedAt(t, p) ==>
                  (KeepsEntry(t, tables, m, i) <==> FinalMark(t, tables, p) == OwnMark(t, tables, p)))
  {
    hide Flat, LineLength, AreRows, Carried, CombinedAt, CellAt, Start;
    PositionOf(t, m, i);
    if CombinedAt(t, Start(t.lines, m, t.oldCols) + i) {
      HasEntry(t, tables, m, i);
      var d := ShiftOf(t, m, RowOf(t.rows, Start(t.lines, m, t.oldCols) + i, 0));
      if d > 0 {
        CarriedFrom(tables[m], d, i);
      }
    }
  }

  lemma PositionOf(t: Job, m: nat, i: nat)
    requires Posed(t) && m < |t.lines| && i < LineLength(t.lines, m, t.oldCols)
    ensures var p := Start(t.lines, m, t.oldCols) + i;
            && p >= 0 && LineOf(t.lines, t.oldCols, p, 0) == m
            && (CombinedAt(t, p) <==> CellAt(t.lines[m], i).combined)
  {
    hide Flat, LineLength, AreRows;
    OldLine(t.lines, m, t.oldCols);
    LineFound(t.lines, t.oldCols, m, i, 0);
    var from, l := Start(t.lines, m, t.oldCols), LineLength(t.lines, m, t.oldCols);
    assert Text(t)[from..from + l][i] == Pad(t.lines[m])[..l][i];
  }

  lemma HasEntry(t: Job, tables: seq<Table>, m: nat, i: nat)
    requires Tabled(t, tables) && m < |t.lines| && CellAt(t.lines[m], i).combined
    ensures i in tables[m]
  {
    hide Flat, AreRows, Posed;
    assert Marked(t.lines[m], tables[m]);
  }

  /** No entry is left over from a character overwritten. */
  ghost predicate NoLeftovers(t: Job, tables: seq<Table>)
    requires Tabled(t, tables)
  {
    forall m: nat, h: nat {:trigger h in tables[m]} :: m < |tables| && h in tables[m] ==>
      h < LineLength(t.lines, m, t.oldCols) && h < |t.lines[m]| && t.lines[m][h].combined
  }

  /** Two different entries of a line, as far apart as the line moves against its own
      row, and the second is of a cell that stays in that row. */
  ghost predicate Clash(t: Job, tables: seq<Table>, m: nat, h: nat)
    requires Tabled(t, tables) && m < |t.lines|
  {
    var d := ShiftOf(t, m, m);
    && d > 0 && h in tables[m] && h + d in tables[m]
    && RowOf(t.rows, Start(t.lines, m, t.oldCols) + h + d, 0) == m
    && tables[m][h] != tables[m][h + d]
  }

  /** Without leftovers these pairs, which can be read off the lines before the
      call, are exactly what goes wrong. */
  lemma MarksKeptExactly(t: Job, tables: seq<Table>)
    requires Tabled(t, tables) && NoLeftovers(t, tables)
    ensures MarksKept(t, tables) <==> forall m: nat, h: nat :: m < |t.lines| ==> !Clash(t, tables, m, h)
  {
    hide Flat, LineLength, AreRows, Carried, CombinedAt, Clash, FinalMark, OwnMark, NoLeftovers, Posed;
    if MarksKept(t, tables) {
      forall m: nat, h: nat | m < |t.lines| ensures !Clash(t, tables, m, h) {
        if Clash(t, tables, m, h) {
          ClashMeans(t, tables, m, h);
        }
      }
    }
    if forall m: nat, h: nat :: m < |t.lines| ==> !Clash(t, tables, m, h) {
      forall p: nat | CombinedAt(t, p) ensures FinalMark(t, tables, p) == OwnMark(t, tables, p) {
        NoClashKeeps(t, tables, p);
      }
    }
  }

  /** A cell of the text, from its line and its row. */
  lemma EntryAt(t: Job, tables: seq<Table>, m: nat, h: nat)
    requires Tabled(t, tables) && NoLeftovers(t, tables) && m < |t.lines| && h in tables[m]
    ensures var p := Start(t.lines, m, t.oldCols) + h;
            && 0 <= p < |Text(t)| && CombinedAt(t, p) && LineOf(t.lines, t.oldCols, p, 0) == m
            && RowOf(t.rows, p, 0) >= m && OwnMark(t, tables, p) == Some(tables[m][h])
            && Spill(t, tables, p) == None
  {
    hide Flat, AreRows;
    OldLine(t.lines, m, t.oldCols);
    LineFound(t.lines, t.oldCols, m, h, 0);
    var from, l := Start(t.lines, m, t.oldCols), LineLength(t.lines, m, t.oldCols);
    assert Text(t)[from..from + l][h] == Pad(t.lines[m])[..l][h];
    RowNotBefore(t, m, h);
  }

  lemma RowNotBefore(t: Job, m: nat, h: nat)
    requires Posed(t) && |t.rows| > 0 && m < |t.lines| && h < LineLength(t.lines, m, t.oldCols)
    ensures RowOf(t.rows, Start(t.lines, m, t.oldCols) + h, 0) >= m
  {
    hide Flat, LineLength, AreRows;
    OldLine(t.lines, m, t.oldCols);
    BeforeNext(t.rows, 0);
    var p := Start(t.lines, m, t.oldCols) + h;
    var y := RowOf(t.rows, p, 0);
    RowHolds(Text(t), t.rows, t.newCols, p, 0);
    if y < m {
      RowBounds(Text(t), t.rows, t.newCols, y);
      RowsComeFirst(t.lines, t.oldCols, t.rows, t.newCols, y + 1);
      LaterLine(t.lines, y + 1, m, t.oldCols);
    }
  }

  /** What stays in its own row stays there with all that comes before it. */
  lemma OwnRowBefore(t: Job, m: nat, h: nat, k: nat)
    requires Posed(t) && |t.rows| > 0 && m < |t.lines| && h <= k < LineLength(t.lines, m, t.oldCols)
    requires RowOf(t.rows, Start(t.lines, m, t.oldCols) + k, 0) == m
    ensures RowOf(t.rows, Start(t.lines, m, t.oldCols) + h, 0) == m
  {
    hide Flat, LineLength, AreRows;
    OldLine(t.lines, m, t.oldCols);
    BeforeNext(t.rows, 0);
    RowNotBefore(t, m, h);
    var p, q := Start(t.lines, m, t.oldCols) + h, Start(t.lines, m, t.oldCols) + k;
    RowHolds(Text(t), t.rows, t.newCols, q, 0);
    RowHolds(Text(t), t.rows, t.newCols, p, 0);
    var y := RowOf(t.rows, p, 0);
    if y > m {
      RowBounds(Text(t), t.rows, t.newCols, m);
      LaterRow(Text(t), t.rows, t.newCols, m + 1, y);
    }
  }

  lemma ClashMeans(t: Job, tables: seq<Table>, m: nat, h: nat)
    requires Tabled(t, tables) && NoLeftovers(t, tables) && m < |t.lines| && Clash(t, tables, m, h)
    ensures !MarksKept(t, tables)
  {
    hide Flat, LineLength, AreRows, CombinedAt;
    var d, from := ShiftOf(t, m, m), Start(t.lines, m, t.oldCols);
    EntryAt(t, tables, m, h);
    EntryAt(t, tables, m, h + d);
    OwnRowBefore(t, m, h, h + d);
    assert from + (h + d) == from + h + d;
    assert Carried(tables[m], 0, d, h + d, true) == Carried(tables[m], 0, d, h, true);
    assert CombinedAt(t, from + h) && CombinedAt(t, from + h + d);
    assert FinalMark(t, tables, from + h) == Some(Carried(tables[m], 0, d, h, true));
    assert FinalMark(t, tables, from + h + d) == Some(Carried(tables[m], 0, d, h + d, true));
  }

  lemma {:induction false} NothingCarried(t: Job, tables: seq<Table>, m: nat, h: nat)
    requires Tabled(t, tables) && NoLeftovers(t, tables) && m < |t.lines| && h in tables[m] && ShiftOf(t, m, m) > 0
    requires RowOf(t.rows, Start(t.lines, m, t.oldCols) + h, 0) == m
    requires forall k: nat :: !Clash(t, tables, m, k)
    ensures Carried(tables[m], 0, ShiftOf(t, m, m), h, true) == tables[m][h]
    decreases h
  {
    hide Flat, LineLength, AreRows;
    var d := ShiftOf(t, m, m);
    if h >= d && h - d in tables[m] {
      var k: nat := h - d;
      OwnRowBefore(t, m, k, h);
      NothingCarried(t, tables, m, k);
      assert !Clash(t, tables, m, k);
      assert Start(t.lines, m, t.oldCols) + k + d == Start(t.lines, m, t.oldCols) + h;
    }
  }

  lemma NoClashKeeps(t: Job, tables: seq<Table>, p: nat)
    requires Tabled(t, tables) && NoLeftovers(t, tables) && CombinedAt(t, p)
    requires forall m: nat, h: nat :: m < |t.lines| ==> !Clash(t, tables, m, h)
    ensures FinalMark(t, tables, p) == OwnMark(t, tables, p)
  {
    hide Flat, LineLength, AreRows, Clash;
    FinalIsSome(t, tables, p);
    PositionHolds(t, p);
    var m := LineOf(t.lines, t.oldCols, p, 0);
    var h: nat := p - Start(t.lines, m, t.oldCols);
    assert h in tables[m];
    EntryAt(t, tables, m, h);
    if RowOf(t.rows, p, 0) == m && ShiftOf(t, m, m) > 0 {
      NothingCarried(t, tables, m, h);
    }
  }

  lemma PositionHolds(t: Job, p: nat)
    requires Posed(t) && p < |Text(t)|
    ensures var m := LineOf(t.lines, t.oldCols, p, 0);
            0 <= p - Start(t.lines, m, t.oldCols) < LineLength(t.lines, m, t.oldCols)
  {
    hide Flat, LineLength, AreRows;
    OldText(t.lines, 0, t.oldCols);
    LineHolds(t.lines, t.oldCols, p, 0);
  }

  // ---- two groups on which text is lost ------------------------------------

  predicate Plain(c: Cell) {
    c.width == 1 && Written(c)
  }

  /** `a b c d` and `u v x y`, u and v combined, from 4 columns to 3: u, v and the d
      before them make a row, and u is read twice. */
  lemma NeighboursClash(a: Cell, b: Cell, c: Cell, d: Cell, u: Cell, v: Cell, x: Cell, y: Cell, e: string, f: string)
    returns (t: Job, tables: seq<Table>)
    requires Plain(a) && Plain(b) && Plain(c) && Plain(d) && Plain(u) && Plain(v) && Plain(x) && Plain(y)
    requires !a.combined && !b.combined && !c.combined && !d.combined && u.combined && v.combined
    requires !x.combined && !y.combined && e != f
    ensures t.lines == [[a, b, c, d], [u, v, x, y]] && t.oldCols == 4 && t.newCols == 3 && t.rows == [3, 3, 2]
    ensures tables == [map[], map[0 := e, 1 := f]]
    ensures Tabled(t, tables) && ReadBack(t, 0) && NoLeftovers(t, tables) && Clash(t, tables, 1, 0)
    ensures !MarksKept(t, tables) && OwnMark(t, tables, 5) == Some(f) && FinalMark(t, tables, 5) == Some(e)
  {
    var lines: seq<Line> := [[a, b, c, d], [u, v, x, y]];
    t := Job(lines, 4, [3, 3, 2], 3, [[a, b, c, d], [u, v, x, y], [a, b, c, d]]);
    tables := [map[], map[0 := e, 1 := f]];
    assert t.start[..2] == lines;
    TwoLinesInThreeRows(t);
    assert Tabled(t, tables);
    Places(t, 5, 1, 1);
    assert Carried(tables[1], 0, 1, 1, true) == Carried(tables[1], 0, 1, 0, true) == e;
    ClashMeans(t, tables, 1, 0);
  }

  lemma TwoLinesInThreeRows(t: Job)
    requires |t.lines| == 2 && |t.lines[0]| == |t.lines[1]| == t.oldCols == 4
    requires t.rows == [3, 3, 2] && t.newCols == 3 && |t.start| == 3 && t.start[..2] == t.lines
    requires forall k :: 0 <= k < 3 ==> |t.start[k]| >= 3
    requires forall k, i :: 0 <= k < 2 && 0 <= i < 4 ==> Plain(t.lines[k][i])
    ensures Posed(t) && Text(t) == t.lines[0] + t.lines[1] && ReadBack(t, 0)
    ensures Start(t.lines, 0, 4) == 0 && Start(t.lines, 1, 4) == 4
    ensures LineLength(t.lines, 0, 4) == LineLength(t.lines, 1, 4) == 4
    ensures Before(t.rows, 0) == 0 && Before(t.rows, 1) == 3 && Before(t.rows, 2) == 6
  {
    assert forall k :: 0 <= k < 2 ==> SoundLine(t.lines[k], 4);
    TwoLines(t.lines, 4);
    assert TrimmedLength(t.lines[1], 4) == 4;
    assert Pad(t.lines[0])[..4] == t.lines[0] && Pad(t.lines[1])[..4] == t.lines[1];
    ThreeRows(t.lines[0] + t.lines[1], 3, 3, 2, 3);
  }

  /** `a b c d` and, after a cell left free, the wide w with its second cell s, from
      5 columns to 3: an entry left over in the free cell's column, of which no
      cell is copied, replaces that of w. */
  lemma LeftoverSpills(a: Cell, b: Cell, c: Cell, d: Cell, w: Cell, s: Cell, blank: Cell, old_: string, own: string)
    returns (t: Job, tables: seq<Table>)
    requires Plain(a) && Plain(b) && Plain(c) && Plain(d) && Wide(w) && w.combined && s.width == 0 && !Written(s)
    requires Blank(blank) && !a.combined && !b.combined && !c.combined && !d.combined && old_ != own
    ensures t.lines == [[a, b, c, d, blank], [w, s, blank, blank, blank]] && t.oldCols == 5 && t.newCols == 3
    ensures t.rows == [3, 3] && tables == [map[4 := old_], map[0 := own]]
    ensures Tabled(t, tables) && ReadBack(t, 0)
    ensures !MarksKept(t, tables) && OwnMark(t, tables, 4) == Some(own) && FinalMark(t, tables, 4) == Some(old_)
  {
    var lines: seq<Line> := [[a, b, c, d, blank], [w, s, blank, blank, blank]];
    var text := [a, b, c, d, w, s];
    t := Job(lines, 5, [3, 3], 3, lines);
    tables := [map[4 := old_], map[0 := own]];
    assert forall k :: 0 <= k < 2 ==> SoundLine(lines[k], 5);
    TwoLines(lines, 5);
    OnlyTheWide(lines[1]);
    assert Pad(lines[0])[..4] == [a, b, c, d] && Pad(lines[1])[..2] == [w, s];
    assert Flat(lines, 0, 5) == text;
    TwoRows(text, 3, 3, 3);
    assert t.start[..2] == lines;
    assert Tabled(t, tables);
    assert LineOf(lines, 5, 4, 0) == 1 && RowOf(t.rows, 4, 0) == 1;
    assert CombinedAt(t, 4);
  }

  lemma OnlyTheWide(line: Line)
    requires |line| == 5 && Wide(line[0]) && Written(line[0]) && forall i :: 0 < i < 5 ==> !Written(line[i])
    ensures TrimmedLength(line, 5) == 2
  {
    assert TrimmedLength(line, 1) == 2;
    assert TrimmedLength(line, 3) == TrimmedLength(line, 2) == 2;
  }

  lemma TwoRows(text: seq<Cell>, i: nat, j: nat, r: nat)
    requires r >= 2 && i > 0 && j > 0 && |text| == i + j && FirstRow(text, r) == i && FirstRow(text[i..], r) == j
    ensures AreRows(text, [i, j], r)
    ensures Before([i, j], 0) == 0 && Before([i, j], 1) == i
  {
    var rows: seq<int> := [i, j];
    assert rows[1..] == [j] && rows[1..][1..] == [] && text[i..][j..] == [];
    assert AreRows(text[i..], [j], r);
    BeforeNext(rows, 0);
  }

  lemma TwoLines(lines: seq<Line>, cols: nat)
    requires |lines| == 2 && cols > 0 && Lines(lines, cols)
    ensures var k, l := LineLength(lines, 0, cols), LineLength(lines, 1, cols);
            && k <= cols + 1 && l <= cols + 1 && |lines[0]| == |lines[1]| == cols
            && Flat(lines, 0, cols) == Pad(lines[0])[..k] + Pad(lines[1])[..l]
            && Start(lines, 0, cols) == 0 && Start(lines, 1, cols) == k
  {
    UnfoldFlat(lines, 0, cols);
    UnfoldFlat(lines, 1, cols);
    NoMoreLines(lines, cols);
  }

  lemma ThreeRows(text: seq<Cell>, i: nat, j: nat, k: nat, r: nat)
    requires r >= 2 && i > 0 && j > 0 && k > 0 && |text| == i + j + k
    requires FirstRow(text, r) == i && FirstRow(text[i..], r) == j && FirstRow(text[i + j..], r) == k
    ensures AreRows(text, [i, j, k], r)
    ensures Before([i, j, k], 0) == 0 && Before([i, j, k], 1) == i && Before([i, j, k], 2) == i + j
  {
    var rows: seq<int> := [i, j, k];
    assert rows[1..] == [j, k] && rows[1..][1..] == [k] && rows[1..][1..][1..] == [];
    assert text[i..][j..] == text[i + j..] && text[i + j..][k..] == [];
    assert AreRows(text[i + j..], [k], r);
    assert AreRows(text[i..], [j, k], r);
    BeforeNext(rows, 0);
    BeforeNext(rows, 1);
  }

  lemma Places(t: Job, p: nat, m: nat, y: nat)
    requires Posed(t) && m + 1 <= |t.lines| == 2 && y < |t.rows| == 3
    requires Start(t.lines, m, t.oldCols) <= p && (m == 0 ==> p < Start(t.lines, 1, t.oldCols))
    requires Before(t.rows, y) <= p && (y < 2 ==> p < Before(t.rows, y + 1))
    requires Before(t.rows, 1) <= Before(t.rows, 2)
    ensures LineOf(t.lines, t.oldCols, p, 0) == m && RowOf(t.rows, p, 0) == y
  {
  }
}
