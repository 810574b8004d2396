// CircularList of html/xterm.js: the scrollback. The methods work on the cyclic
// array; what they mean is said on the sequence of lines and the number of lines
// that trim events have reported.

module CircularList {
  import opened Common
  import opened CircularBuffer

  // ---- the list as a sequence ----------------------------------------------

  datatype Lines<T> = Lines(items: seq<T>, trimmed: nat)

  function Overflow(n: int, max: nat): (o: nat) {
    if n > max then n - max else 0
  }

  /** Oldest first, until the bound is met; what goes is reported. */
  function DropOldest<T>(items: seq<T>, trimmed: nat, max: nat): (r: Lines<T>)
    ensures |r.items| <= max
  {
    var o := Overflow(|items|, max);
    Lines(items[o..], trimmed + o)
  }

  datatype Edit<T> =
    | Push(x: T)
    | Recycle
    | Pop
    | TrimStart(count: nat)
    | Splice(at: nat, deleted: nat, inserted: seq<T>)

  predicate Fits<T>(edit: Edit<T>, n: nat, max: nat) {
    match edit
    case Push(_) => true
    case Recycle => n == max > 0
    case Pop => n > 0
    case TrimStart(_) => true
    case Splice(at, deleted, _) => at + deleted <= n
  }

  /** What an edit does to everything that was ever in the list. */
  function EditAll<T>(all: seq<T>, trimmed: nat, edit: Edit<T>, max: nat): seq<T>
    requires trimmed <= |all| && Fits(edit, |all| - trimmed, max)
  {
    match edit
    case Push(x) => all + [x]
    case Recycle => all + [all[trimmed]]
    case Pop => all[..|all| - 1]
    case TrimStart(_) => all
    case Splice(at, deleted, inserted) => all[..trimmed + at] + inserted + all[trimmed + at + deleted..]
  }

  function Apply<T>(l: Lines<T>, edit: Edit<T>, max: nat): Lines<T>
    requires Fits(edit, |l.items|, max)
  {
    match edit
    case TrimStart(count) =>
      var k := Min(count, |l.items|);
      Lines(l.items[k..], l.trimmed + k)
    case _ => DropOldest(EditAll(l.items, 0, edit, max), l.trimmed, max)
  }

  /** A line keeps its number, counted from the first line ever, for as long as
      trim events are added up: the list is the history without what was trimmed. */
  lemma NumbersStay<T>(all: seq<T>, l: Lines<T>, edit: Edit<T>, max: nat)
    requires l.trimmed <= |all| && l.items == all[l.trimmed..] && |l.items| <= max
    requires Fits(edit, |l.items|, max)
    ensures var after, now := Apply(l, edit, max), EditAll(all, l.trimmed, edit, max);
            after.trimmed <= |now| && after.items == now[after.trimmed..] && |after.items| <= max
  {
    var now := EditAll(all, l.trimmed, edit, max);
    if edit.TrimStart? {
      DropTwice(all, l.trimmed, Min(edit.count, |l.items|));
    } else {
      EditSuffix(all, l.trimmed, edit, max);
      hide EditAll;
      DropTwice(now, l.trimmed, Overflow(|EditAll(l.items, 0, edit, max)|, max));
    }
  }

  lemma DropTwice<T>(s: seq<T>, a: nat, b: nat)
    requires a + b <= |s|
    ensures s[a..][b..] == s[a + b..]
  {
  }

  lemma EditSuffix<T>(all: seq<T>, t: nat, edit: Edit<T>, max: nat)
    requires t <= |all| && Fits(edit, |all| - t, max) && !edit.TrimStart?
    ensures t <= |EditAll(all, t, edit, max)|
    ensures EditAll(all[t..], 0, edit, max) == EditAll(all, t, edit, max)[t..]
  {
    if edit.Splice? {
      SpliceSuffix(all, t, edit.at, edit.deleted, edit.inserted);
    }
  }

  lemma SpliceSuffix<T>(all: seq<T>, t: nat, at: nat, deleted: nat, xs: seq<T>)
    requires t + at + deleted <= |all|
    ensures all[t..][..0 + at] + xs + all[t..][0 + at + deleted..]
         == (all[..t + at] + xs + all[t + at + deleted..])[t..]
  {
    assert all[t..][..0 + at] == all[..t + at][t..];
    assert all[t..][0 + at + deleted..] == all[t + at + deleted..];
    SuffixOfThree(all[..t + at], xs, all[t + at + deleted..], t);
  }

  lemma SuffixOfThree<T>(a: seq<T>, b: seq<T>, c: seq<T>, t: nat)
    requires t <= |a|
    ensures (a + b + c)[t..] == a[t..] + b + c
  {
  }

  /** What the code does as it should: a splice whose insertion is clear. */
  predicate Lawful<T>(edit: Edit<T>, n: nat, max: nat) {
    Fits(edit, n, max) && (edit.Splice? ==> Clear(n - edit.deleted, edit.at, |edit.inserted|, max))
  }

  ghost predicate AllLawful<T>(l: Lines<T>, edits: seq<Edit<T>>, max: nat)
    decreases |edits|
  {
    |edits| > 0 ==> Lawful(edits[0], |l.items|, max) && AllLawful(Apply(l, edits[0], max), edits[1..], max)
  }

  ghost function ApplyAll<T>(l: Lines<T>, edits: seq<Edit<T>>, max: nat): Lines<T>
    requires AllLawful(l, edits, max)
    decreases |edits|
  {
    if |edits| == 0 then l else ApplyAll(Apply(l, edits[0], max), edits[1..], max)
  }

  /** What a run of edits does to everything that was ever in the list. */
  ghost function History<T>(all: seq<T>, l: Lines<T>, edits: seq<Edit<T>>, max: nat): seq<T>
    requires l.trimmed <= |all| && l.items == all[l.trimmed..] && |l.items| <= max
    requires AllLawful(l, edits, max)
    decreases |edits|
  {
    if |edits| == 0 then all
    else
      NumbersStay(all, l, edits[0], max);
      History(EditAll(all, l.trimmed, edits[0], max), Apply(l, edits[0], max), edits[1..], max)
  }

  /** Over any run of pushes, recyclings, pops, trims and splices the list is the
      history without what was trimmed, and no longer than it may be. */
  lemma {:induction false} ListIsTheHistory<T>(all: seq<T>, l: Lines<T>, edits: seq<Edit<T>>, max: nat)
    requires l.trimmed <= |all| && l.items == all[l.trimmed..] && |l.items| <= max
    requires AllLawful(l, edits, max)
    ensures var after, now := ApplyAll(l, edits, max), History(all, l, edits, max);
            l.trimmed <= after.trimmed <= |now| && after.items == now[after.trimmed..] && |after.items| <= max
    decreases |edits|
  {
    if |edits| > 0 {
      NumbersStay(all, l, edits[0], max);
      hide EditAll;
      TrimmedGrows(l, edits[0], max);
      hide Apply;
      ListIsTheHistory(EditAll(all, l.trimmed, edits[0], max), Apply(l, edits[0], max), edits[1..], max);
    }
  }

  lemma TrimmedGrows<T>(l: Lines<T>, edit: Edit<T>, max: nat)
    requires Fits(edit, |l.items|, max)
    ensures l.trimmed <= Apply(l, edit, max).trimmed
  {
  }

  /** The length of n lines after an edit, before any are trimmed; and how many are. */
  function Grown<T>(edit: Edit<T>, n: nat, max: nat): nat
    requires Fits(edit, n, max)
  {
    match edit
    case Push(_) => n + 1
    case Recycle => n + 1
    case Pop => n - 1
    case TrimStart(_) => n
    case Splice(_, deleted, inserted) => n - deleted + |inserted|
  }

  function Gone<T>(edit: Edit<T>, n: nat, max: nat): nat
    requires Fits(edit, n, max)
  {
    if edit.TrimStart? then Min(edit.count, n) else Max(0, Grown(edit, n, max) - max)
  }

  /** The lines trimmed by a run, edit by edit, from the numbers of lines alone. */
  function GoneInAll<T>(edits: seq<Edit<T>>, n: nat, max: nat): nat
    decreases |edits|
  {
    if |edits| == 0 || !Fits(edits[0], n, max) then 0
    else
      var gone := Gone(edits[0], n, max);
      gone + GoneInAll(edits[1..], Max(0, Grown(edits[0], n, max) - gone), max)
  }

  lemma GoneOnce<T>(l: Lines<T>, edit: Edit<T>, max: nat)
    requires Fits(edit, |l.items|, max)
    ensures var after, gone := Apply(l, edit, max), Gone(edit, |l.items|, max);
            after.trimmed == l.trimmed + gone && |after.items| == Grown(edit, |l.items|, max) - gone
  {
  }

  /** Exactly that many are reported by trim events, in any run. */
  lemma {:induction false} TrimmedIsTheSum<T>(l: Lines<T>, edits: seq<Edit<T>>, max: nat)
    requires AllLawful(l, edits, max)
    ensures ApplyAll(l, edits, max).trimmed == l.trimmed + GoneInAll(edits, |l.items|, max)
    decreases |edits|
  {
    if |edits| > 0 {
      GoneOnce(l, edits[0], max);
      hide Apply, Gone, Grown, Fits;
      TrimmedIsTheSum(Apply(l, edits[0], max), edits[1..], max);
    }
  }

  function AddedInAll<T>(edits: seq<Edit<T>>): nat {
    if |edits| == 0 then 0
    else (match edits[0]
          case Push(_) => 1
          case Splice(_, _, inserted) => |inserted|
          case _ => 0) + AddedInAll(edits[1..])
  }

  /** And none before the bound is met: as long as what was there and all that is added
      fits, no line goes that was not deleted. */
  lemma {:induction false} NothingGoesEarly<T>(l: Lines<T>, edits: seq<Edit<T>>, max: nat)
    requires AllLawful(l, edits, max) && |l.items| + AddedInAll(edits) <= max
    requires forall i :: 0 <= i < |edits| ==> edits[i].Push? || edits[i].Pop? || edits[i].Splice?
    ensures ApplyAll(l, edits, max).trimmed == l.trimmed
    decreases |edits|
  {
    if |edits| > 0 {
      GoneOnce(l, edits[0], max);
      var rest := edits[1..];
      assert forall i :: 0 <= i < |rest| ==> rest[i] == edits[i + 1];
      NothingGoesEarly(Apply(l, edits[0], max), rest, max);
    }
  }

  /** Over any run that only adds at the end and trims, the history is what was there
      and what was pushed: the list is the newest lines, and the trim events add up to
      the number of lines gone. */
  lemma {:induction false} NewestLines<T>(all: seq<T>, l: Lines<T>, edits: seq<Edit<T>>, max: nat)
    requires l.trimmed <= |all| && l.items == all[l.trimmed..] && |l.items| <= max
    requires AllLawful(l, edits, max) && forall i :: 0 <= i < |edits| ==> edits[i].Push? || edits[i].TrimStart?
    ensures History(all, l, edits, max) == all + Pushed(edits)
    ensures var after, now := ApplyAll(l, edits, max), all + Pushed(edits);
            && after.trimmed <= |now| && after.items == now[after.trimmed..] && |after.items| <= max
    decreases |edits|
  {
    ListIsTheHistory(all, l, edits, max);
    if |edits| > 0 {
      NumbersStay(all, l, edits[0], max);
      PushedFirst(all, l.trimmed, edits, max);
      hide EditAll, Apply, Pushed;
      NewestLines(EditAll(all, l.trimmed, edits[0], max), Apply(l, edits[0], max), edits[1..], max);
    } else {
      assert all + Pushed(edits) == all;
    }
  }

  lemma PushedFirst<T>(all: seq<T>, trimmed: nat, edits: seq<Edit<T>>, max: nat)
    requires |edits| > 0 && trimmed <= |all| && (edits[0].Push? || edits[0].TrimStart?)
    ensures EditAll(all, trimmed, edits[0], max) + Pushed(edits[1..]) == all + Pushed(edits)
  {
    if edits[0].Push? {
      Regroup(all, [edits[0].x], Pushed(edits[1..]));
    }
  }

  function Pushed<T>(edits: seq<Edit<T>>): seq<T> {
    if |edits| == 0 then [] else (if edits[0].Push? then [edits[0].x] else []) + Pushed(edits[1..])
  }

  // ---- cells ---------------------------------------------------------------

  lemma SlotAgain(x: int, n: int, size: nat)
    requires size > 0
    ensures Slot(Slot(x, size) + n, size) == Slot(x + n, size)
  {
    hide Slot, Lap;
    SlotAndLap(x, size);
    SlotAndLap(x + n, size);
    var a, b := Lap(x, size), Lap(x + n, size);
    assert (b - a) * size == b * size - a * size;
    Decomposed(Slot(x, size) + n, b - a, Slot(x + n, size), size);
  }

  lemma VisibleFromSlot<T>(cells: seq<T>, x: nat, n: nat)
    requires |cells| > 0
    ensures Visible(cells, Slot(x, |cells|), n) == Visible(cells, x, n)
  {
    hide Slot;
    var a, b := Visible(cells, Slot(x, |cells|), n), Visible(cells, x, n);
    forall i | 0 <= i < |a| ensures a[i] == b[i] {
      SlotAgain(x, i, |cells|);
    }
  }

  /** How far on from position `at` the cell k comes. */
  function Distance(at: int, k: nat, size: nat): (d: nat)
    requires k < size
    ensures d < size
  {
    Slot(k - at, size)
  }

  lemma AtDistance(at: int, k: nat, size: nat)
    requires k < size
    ensures Slot(at + Distance(at, k, size), size) == k
  {
    hide Slot, Lap;
    SlotAgain(k - at, at, size);
    Decomposed(k, 0, k, size);
    assert k - at + at == k;
  }

  lemma DistanceOf(at: int, i: int, size: nat)
    requires i < size && i + size >= 0 && size > 0
    ensures Distance(at, Slot(at + i, size), size) == if i >= 0 then i else i + size
  {
    hide Slot, Lap;
    SlotAgain(at + i, -at, size);
    Decomposed(i, if i >= 0 then 0 else -1, if i >= 0 then i else i + size, size);
    assert at + i + -at == i;
  }

  lemma DistanceFromNext(at: int, k: nat, size: nat)
    requires k < size
    ensures Distance(at + 1, k, size) == if Distance(at, k, size) == 0 then size - 1 else Distance(at, k, size) - 1
  {
    hide Slot, Lap;
    var d := Distance(at, k, size);
    AtDistance(at, k, size);
    if d == 0 {
      Onwards(at, size, size);
      DistanceOf(at + 1, size - 1, size);
      assert at + 1 + (size - 1) == at + size;
    } else {
      DistanceOf(at + 1, d - 1, size);
      assert at + 1 + (d - 1) == at + d;
    }
  }

  // ---- copying towards the end, last element first -------------------------

  function CopyUp<T>(cells: seq<T>, at: nat, count: nat, offset: nat): (r: seq<T>)
    requires |cells| > 0
    ensures |r| == |cells|
    decreases count
  {
    if count == 0 then cells
    else
      var n := |cells|;
      CopyUp(cells[Slot(at + offset + (count - 1), n) := cells[Slot(at + (count - 1), n)]], at, count - 1, offset)
  }

  /** Positions i and j, the second `offset` further on, share no cell. */
  lemma Apart(at: nat, i: nat, j: nat, offset: nat, size: nat)
    requires size > 0 && i < j && Slot(offset, size) + j < size + i
    ensures Slot(at + offset + j, size) != Slot(at + i, size)
  {
    hide Slot, Lap;
    var rest := Slot(offset, size);
    SlotAgain(offset, at + j, size);
    assert offset + (at + j) == at + offset + j && rest + (at + j) == at + i + (rest + j - i);
    DifferentSlots(at + i, rest + j - i, size);
  }

  /** The copy is faithful when no cell is written before it is read. */
  lemma {:induction false} CopyUpSafe<T>(cells: seq<T>, at: nat, count: nat, offset: nat, k: nat)
    requires k < |cells| && Slot(offset, |cells|) + count <= |cells|
    ensures var d := Distance(at + offset, k, |cells|);
            CopyUp(cells, at, count, offset)[k] == if d < count then cells[Slot(at + d, |cells|)] else cells[k]
    decreases count
  {
    hide Slot, Distance;
    if count > 0 {
      var n, last, d := |cells|, count - 1, Distance(at + offset, k, |cells|);
      var next := cells[Slot(at + offset + last, n) := cells[Slot(at + last, n)]];
      CopyUpSafe(next, at, last, offset, k);
      AtDistance(at + offset, k, n);
      DistanceOf(at + offset, last, n);
      if d < last {
        Apart(at, d, last, offset, n);
      }
    }
  }

  /** Always: what ends up in a written cell comes from the elements copied. */
  lemma {:induction false} CopyUpWrites<T>(cells: seq<T>, at: nat, count: nat, offset: nat, elements: set<T>, k: nat)
    requires k < |cells| && count <= |cells|
    requires forall x :: x in Visible(cells, at, count) ==> x in elements
    ensures Distance(at + offset, k, |cells|) < count ==> CopyUp(cells, at, count, offset)[k] in elements
    ensures Distance(at + offset, k, |cells|) >= count ==> CopyUp(cells, at, count, offset)[k] == cells[k]
    decreases count
  {
    hide Slot, Distance;
    if count > 0 {
      var n, last := |cells|, count - 1;
      var x := cells[Slot(at + last, n)];
      assert Visible(cells, at, count)[last] == x;
      var next := cells[Slot(at + offset + last, n) := x];
      var before, after := Visible(cells, at, count), Visible(next, at, last);
      forall i | 0 <= i < |after| ensures after[i] in elements {
        assert after[i] == next[Slot(at + i, n)] && before[i] == cells[Slot(at + i, n)];
      }
      CopyUpWrites(next, at, last, offset, elements, k);
      AtDistance(at + offset, k, n);
      DistanceOf(at + offset, last, n);
    }
  }

  lemma {:induction false} CopyUpLastStep<T>(cells: seq<T>, at: nat, count: nat, offset: nat)
    requires |cells| > 0 && count > 0
    ensures var before := CopyUp(cells, at + 1, count - 1, offset);
            CopyUp(cells, at, count, offset) == before[Slot(at + offset, |cells|) := before[Slot(at, |cells|)]]
    decreases count
  {
    hide Slot;
    if count > 1 {
      var n, last := |cells|, count - 1;
      var next := cells[Slot(at + offset + last, n) := cells[Slot(at + last, n)]];
      CopyUpLastStep(next, at, last, offset);
      assert at + 1 + offset + (last - 1) == at + offset + last && at + 1 + (last - 1) == at + last;
    }
  }

  /** Otherwise the first element is overwritten before it is read. */
  lemma CopyUpUnsafe<T>(cells: seq<T>, at: nat, count: nat, offset: nat)
    requires |cells| > 0 && count <= |cells| && Slot(offset, |cells|) + count > |cells|
    requires Distinct(Visible(cells, at, count))
    ensures CopyUp(cells, at, count, offset)[Slot(at + offset, |cells|)] != cells[Slot(at, |cells|)]
  {
    hide Slot, Distance;
    var n, source := |cells|, Visible(cells, at, count);
    var rest := Slot(offset, n);
    // the write at n - rest lands on the first element
    var j := n - rest - 1;
    SlotAgain(offset, at + 1 + j, n);
    Onwards(at, n, n);
    assert offset + (at + 1 + j) == at + 1 + offset + j && rest + (at + 1 + j) == at + n;
    DistanceOf(at + 1 + offset, j, n);
    var elements := set e | e in source[1..];
    var tail := Visible(cells, at + 1, count - 1);
    forall i | 0 <= i < |tail| ensures tail[i] in elements {
      assert at + (1 + i) == at + 1 + i;
      assert source[1 + i] == cells[Slot(at + (1 + i), n)];
      assert source[1..][i] == tail[i];
    }
    CopyUpWrites(cells, at + 1, count - 1, offset, elements, Slot(at, n));
    CopyUpLastStep(cells, at, count, offset);
    assert source[0] == cells[Slot(at + 0, n)] && at + 0 == at;
  }

  // ---- copying towards the front, first element first ----------------------

  function CopyDown<T>(cells: seq<T>, at: nat, count: nat, back: nat): (r: seq<T>)
    requires |cells| > 0 && back <= at
    ensures |r| == |cells|
    decreases count
  {
    if count == 0 then cells
    else CopyDown(cells[Slot(at - back, |cells|) := cells[Slot(at, |cells|)]], at + 1, count - 1, back)
  }

  lemma {:induction false} CopyDownSafe<T>(cells: seq<T>, at: nat, count: nat, back: nat, k: nat)
    requires k < |cells| && back <= at && back + count <= |cells|
    ensures var d := Distance(at - back, k, |cells|);
            CopyDown(cells, at, count, back)[k] == if d < count then cells[Slot(at + d, |cells|)] else cells[k]
    decreases count
  {
    hide Slot, Distance;
    if count > 0 {
      var n, to := |cells|, at - back;
      var next, d := cells[Slot(to, n) := cells[Slot(at, n)]], Distance(to, k, n);
      CopyDownSafe(next, at + 1, count - 1, back, k);
      AtDistance(to, k, n);
      DistanceFromNext(to, k, n);
      assert at + 1 - back == to + 1 && at + 1 + (d - 1) == at + d && to + 0 == to;
      DistanceOf(to, 0, n);
      if 0 < d < count {
        DifferentSlots(to, back + d, n);
        assert to + (back + d) == at + d;
      }
    }
  }

  // ---- writing the inserted elements ---------------------------------------

  function WriteAll<T>(cells: seq<T>, at: nat, xs: seq<T>): (r: seq<T>)
    requires |cells| > 0
    ensures |r| == |cells|
    decreases |xs|
  {
    if |xs| == 0 then cells else WriteAll(cells[Slot(at, |cells|) := xs[0]], at + 1, xs[1..])
  }

  lemma {:induction false} WriteAllElsewhere<T>(cells: seq<T>, at: nat, xs: seq<T>, k: nat)
    requires k < |cells| && Distance(at, k, |cells|) >= |xs|
    ensures WriteAll(cells, at, xs)[k] == cells[k]
    decreases |xs|
  {
    hide Slot, Distance;
    if |xs| > 0 {
      DistanceFromNext(at, k, |cells|);
      DistanceOf(at, 0, |cells|);
      assert at + 0 == at;
      WriteAllElsewhere(cells[Slot(at, |cells|) := xs[0]], at + 1, xs[1..], k);
    }
  }

  /** The last `|cells|` elements written are there to stay. */
  lemma {:induction false} WriteAllLands<T>(cells: seq<T>, at: nat, xs: seq<T>, i: nat)
    requires |cells| > 0 && |xs| - |cells| <= i < |xs|
    ensures WriteAll(cells, at, xs)[Slot(at + i, |cells|)] == xs[i]
    decreases |xs|
  {
    hide Slot, Distance;
    var n := |cells|;
    var next := cells[Slot(at, n) := xs[0]];
    if i > 0 {
      WriteAllLands(next, at + 1, xs[1..], i - 1);
      assert at + 1 + (i - 1) == at + i;
    } else {
      assert at + 0 == at;
      DistanceOf(at, 0, n);
      DistanceFromNext(at, Slot(at, n), n);
      WriteAllElsewhere(next, at + 1, xs[1..], Slot(at, n));
    }
  }

  // ---- splice --------------------------------------------------------------

  /** `cells` show `items` at the positions from `at` on. */
  ghost predicate Shows<T>(cells: seq<T>, at: nat, items: seq<T>)
    requires |cells| > 0
  {
    Visible(cells, at, |items|) == items
  }

  lemma ShowsAt<T>(cells: seq<T>, at: nat, items: seq<T>, p: nat)
    requires |cells| > 0 && Shows(cells, at, items) && p < |items|
    ensures cells[Slot(at + p, |cells|)] == items[p]
  {
    hide Slot;
    assert Visible(cells, at, |items|)[p] == items[p];
  }

  lemma DeletionMeans<T>(cells: seq<T>, start: nat, s: seq<T>, e: nat, t: nat)
    requires 0 < |cells| && |s| <= |cells| && Shows(cells, start, s) && e + t <= |s|
    ensures Shows(CopyDown(cells, start + e + t, |s| - t - e, t), start, s[..e] + s[e + t..])
  {
    hide Slot, Distance, Shows;
    var n, after := |cells|, CopyDown(cells, start + e + t, |s| - t - e, t);
    var want := s[..e] + s[e + t..];
    var got := Visible(after, start, |want|);
    forall p | 0 <= p < |want| ensures got[p] == want[p] {
      DistanceOf(start + e, p - e, n);
      assert start + e + (p - e) == start + p && start + e + t - t == start + e;
      CopyDownSafe(cells, start + e + t, |s| - t - e, t, Slot(start + p, n));
      assert start + e + t + (p - e) == start + (p + t);
      ShowsAt(cells, start, s, if p < e then p else p + t);
    }
    assert got == want;
    assert Shows(after, start, want) by { ShownAll(after, start, want); }
  }

  lemma ShownAll<T>(cells: seq<T>, at: nat, items: seq<T>)
    requires |cells| > 0 && Visible(cells, at, |items|) == items
    ensures Shows(cells, at, items)
  {
  }

  function Inserted<T>(cells: seq<T>, start: nat, n: nat, e: nat, xs: seq<T>): (r: seq<T>)
    requires |cells| > 0 && e <= n
    ensures |r| == |cells|
  {
    WriteAll(CopyUp(cells, start + e, n - e, |xs|), start + e, xs)
  }

  /** When inserting does not run over itself. */
  predicate Clear(n: nat, e: nat, k: nat, max: nat) {
    e >= Overflow(n + k, max) || e == n
  }

  lemma InsertionAt<T>(cells: seq<T>, start: nat, s: seq<T>, e: nat, xs: seq<T>, p: nat)
    requires 0 < |cells| && |s| <= |cells| && Shows(cells, start, s) && e <= |s|
    requires Clear(|s|, e, |xs|, |cells|)
    requires Overflow(|s| + |xs|, |cells|) <= p < |s| + |xs|
    ensures Inserted(cells, start, |s|, e, xs)[Slot(start + p, |cells|)]
         == if p < e then s[p] else if p < e + |xs| then xs[p - e] else s[p - |xs|]
  {
    hide Slot, Distance, Shows;
    var n, rl, at := |cells|, |xs|, start + e;
    var k := Slot(start + p, n);
    if e <= p < e + rl {
      WriteAllLands(CopyUp(cells, at, |s| - e, rl), at, xs, p - e);
      assert at + (p - e) == start + p;
    } else {
      SmallSlot(rl, n);
      CopyUpSafe(cells, at, |s| - e, rl, k);
      DistanceOf(at, p - e, n);
      DistanceOf(at + rl, p - e - rl, n);
      assert at + (p - e) == start + p && at + rl + (p - e - rl) == start + p;
      WriteAllElsewhere(CopyUp(cells, at, |s| - e, rl), at, xs, k);
      assert at + (p - e - rl) == start + (p - rl);
      ShowsAt(cells, start, s, if p < e then p else p - rl);
    }
  }

  lemma SmallSlot(k: nat, size: nat)
    requires size > 0
    ensures k < size ==> Slot(k, size) == k
    ensures k == size ==> Slot(k, size) == 0
  {
    hide Slot, Lap;
    if k < size {
      Decomposed(k, 0, k, size);
    } else if k == size {
      Decomposed(k, 1, 0, size);
    }
  }

  lemma InsertionMeans<T>(cells: seq<T>, start: nat, s: seq<T>, e: nat, xs: seq<T>)
    requires 0 < |cells| && |s| <= |cells| && Shows(cells, start, s) && e <= |s|
    requires Clear(|s|, e, |xs|, |cells|)
    ensures var o := Overflow(|s| + |xs|, |cells|);
            Shows(Inserted(cells, start, |s|, e, xs), start + o, (s[..e] + xs + s[e..])[o..])
  {
    hide Slot, Shows, Inserted;
    var o, want := Overflow(|s| + |xs|, |cells|), s[..e] + xs + s[e..];
    var after := Inserted(cells, start, |s|, e, xs);
    var got := Visible(after, start + o, |want[o..]|);
    forall i | 0 <= i < |got| ensures got[i] == want[o..][i] {
      assert start + o + i == start + (o + i);
      InsertionAt(cells, start, s, e, xs, o + i);
    }
    assert got == want[o..];
    ShownAll(after, start + o, want[o..]);
  }

  lemma InsertionFails<T>(cells: seq<T>, start: nat, s: seq<T>, e: nat, xs: seq<T>)
    requires 0 < |cells| && |s| <= |cells| && Shows(cells, start, s) && e <= |s|
    requires !Clear(|s|, e, |xs|, |cells|) && Distinct(s + xs)
    ensures var o := Overflow(|s| + |xs|, |cells|);
            !Shows(Inserted(cells, start, |s|, e, xs), start + o, (s[..e] + xs + s[e..])[o..])
  {
    hide Slot, Distance, Distinct, Shows;
    var n, rl, at := |cells|, |xs|, start + e;
    var o, want, after := Overflow(|s| + rl, n), s[..e] + xs + s[e..], Inserted(cells, start, |s|, e, xs);
    var copied := CopyUp(cells, at, |s| - e, rl);
    assert want[e + rl] == s[e] && want[o..][e + rl - o] == s[e];
    ShowsAt(cells, start, s, e);
    assert after[Slot(at + rl, n)] != s[e] by {
      if rl >= n {
        WriteAllLands(copied, at, xs, rl - n);
        Onwards(at + (rl - n), n, n);
        assert at + (rl - n) + n == at + rl;
        Different(s, xs, e, rl - n);
      } else {
        SmallSlot(rl, n);
        DistanceOf(at, rl, n);
        WriteAllElsewhere(copied, at, xs, Slot(at + rl, n));
        DistinctPart(cells, start, s, xs, e);
        CopyUpUnsafe(cells, at, |s| - e, rl);
      }
    }
    assert start + o + (e + rl - o) == at + rl;
    if Shows(after, start + o, want[o..]) {
      ShowsAt(after, start + o, want[o..], e + rl - o);
    }
  }

  lemma Different<T>(s: seq<T>, xs: seq<T>, i: nat, j: nat)
    requires Distinct(s + xs) && i < |s| && j < |xs|
    ensures s[i] != xs[j]
  {
    assert (s + xs)[i] == s[i] && (s + xs)[|s| + j] == xs[j];
  }

  lemma DistinctPart<T>(cells: seq<T>, start: nat, s: seq<T>, xs: seq<T>, e: nat)
    requires 0 < |cells| && |s| <= |cells| && Shows(cells, start, s) && e <= |s| && Distinct(s + xs)
    ensures Distinct(Visible(cells, start + e, |s| - e))
  {
    hide Slot;
    var part := Visible(cells, start + e, |s| - e);
    forall i | 0 <= i < |part| ensures part[i] == (s + xs)[e + i] {
      assert start + e + i == start + (e + i);
      ShowsAt(cells, start, s, e + i);
    }
  }

  /** What splice makes of the lines, for elements all different in both
      directions. */
  ghost predicate SpliceDoes<T>(before: Lines<T>, after: Lines<T>, e: nat, t: nat, xs: seq<T>, max: nat)
    requires e + t <= |before.items|
  {
    var all := before.items[..e] + xs + before.items[e + t..];
    var o := if |all| > max then |all| - max else 0;
    && after.trimmed == before.trimmed + o && |after.items| == |all| - o
    && (Clear(|before.items| - t, e, |xs|, max) ==> after.items == all[o..])
    && (!Clear(|before.items| - t, e, |xs|, max) && Distinct(before.items[..e] + before.items[e + t..] + xs) ==>
          after.items != all[o..])
  }

  lemma SpliceApplied<T>(l: Lines<T>, s: seq<T>, e: nat, t: nat, xs: seq<T>, max: nat)
    requires e + t <= |l.items| && s == l.items[..e] + l.items[e + t..]
    ensures var o := Overflow(|s| + |xs|, max);
            Apply(l, Edit.Splice(e, t, xs), max) == Lines((s[..e] + xs + s[e..])[o..], l.trimmed + o)
  {
    assert s[..e] == l.items[..0 + e] && s[e..] == l.items[0 + e + t..];
  }

  /** Where the insertion is clear, this is the edit of the list. */
  lemma SpliceIsApply<T>(before: Lines<T>, after: Lines<T>, e: nat, t: nat, xs: seq<T>, max: nat)
    requires e + t <= |before.items| && Clear(|before.items| - t, e, |xs|, max)
    ensures SpliceDoes(before, after, e, t, xs, max) <==> after == Apply(before, Edit.Splice(e, t, xs), max)
  {
    hide Distinct, Clear;
    var all := before.items[..e] + xs + before.items[e + t..];
    assert EditAll(before.items, 0, Edit.Splice(e, t, xs), max) == all by {
      assert before.items[..0 + e] == before.items[..e] && before.items[0 + e + t..] == before.items[e + t..];
    }
  }

  lemma SpliceOutcome<T>(before: Lines<T>, cells: seq<T>, start: nat, s: seq<T>, e: nat, t: nat, xs: seq<T>)
    requires e + t <= |before.items| && s == before.items[..e] + before.items[e + t..]
    requires 0 < |cells| && |s| <= |cells| && Shows(cells, start, s)
    ensures var o := Overflow(|s| + |xs|, |cells|);
            var after := Visible(Inserted(cells, start, |s|, e, xs), start + o, |s| + |xs| - o);
            SpliceDoes(before, Lines(after, before.trimmed + o), e, t, xs, |cells|)
  {
    hide Slot, Distinct, Inserted, Shows, Apply, Visible;
    SpliceApplied(before, s, e, t, xs, |cells|);
    var o := Overflow(|s| + |xs|, |cells|);
    var want := (s[..e] + xs + s[e..])[o..];
    var after := Inserted(cells, start, |s|, e, xs);
    if Clear(|s|, e, |xs|, |cells|) {
      InsertionMeans(cells, start, s, e, xs);
      ShownIs(after, start + o, want);
    } else if Distinct(s + xs) {
      InsertionFails(cells, start, s, e, xs);
      if Visible(after, start + o, |want|) == want {
        ShownAll(after, start + o, want);
      }
    }
  }

  /** A deletion past the end, or an insertion behind it: nothing is moved, but the length
      is what it would be had the list been longer, so that the last elements written are
      out of sight. If the index is in the list and they all have a cell of their own, the
      rest is as it should be. */
  ghost predicate CutShort<T>(before: Lines<T>, after: Lines<T>, cells: seq<T>, start: nat, e: nat, t: nat, xs: seq<T>)
    requires |cells| > 0 && |before.items| - t + |xs| >= 0
  {
    var n := |before.items| - t + |xs|;
    var o := Overflow(n, |cells|);
    && after.trimmed == before.trimmed + o
    && after.items == Visible(WriteAll(cells, start + e, xs), start + o, n - o)
    && (e <= |before.items| && e + |xs| <= |cells| ==> n <= e + |xs| && after.items == (before.items[..e] + xs)[..n])
  }

  lemma CutShortOutcome<T>(before: Lines<T>, cells: seq<T>, start: nat, e: nat, t: nat, xs: seq<T>)
    requires 0 < |cells| && |before.items| <= |cells| && Shows(cells, start, before.items)
    requires |before.items| < e + t && |before.items| - t + |xs| >= 0
    ensures var n := |before.items| - t + |xs|;
            var o := Overflow(n, |cells|);
            var after := Visible(WriteAll(cells, start + e, xs), start + o, n - o);
            CutShort(before, Lines(after, before.trimmed + o), cells, start, e, t, xs)
  {
    hide Slot, Shows, Distance;
    var n, size, s := |before.items| - t + |xs|, |cells|, before.items;
    if e <= |s| && e + |xs| <= size {
      var written, want := WriteAll(cells, start + e, xs), (s[..e] + xs)[..n];
      var got := Visible(written, start, n);
      forall p | 0 <= p < |got| ensures got[p] == want[p] {
        assert start + e + (p - e) == start + p;
        if p < e {
          DistanceOf(start + e, p - e, size);
          WriteAllElsewhere(cells, start + e, xs, Slot(start + p, size));
          ShowsAt(cells, start, s, p);
        } else {
          WriteAllLands(cells, start + e, xs, p - e);
        }
      }
      assert got == want;
    }
  }

  // ---- shiftElements -------------------------------------------------------

  /** Only a shift towards the end makes the list longer. */
  function Reach(n: nat, from: nat, count: nat, offset: int): (r: nat)
    ensures r >= n
  {
    if offset > 0 then Max(n, from + count + offset) else n
  }

  /** `count` elements from `from` on are now `offset` further on; with more than
      `max` lines the oldest are gone. What stands between the old end and the
      first shifted element, or was taken from behind the end, is not specified. */
  ghost predicate IsShifted<T>(before: seq<T>, after: seq<T>, from: nat, count: nat, offset: int, max: nat)
  {
    var reach := Reach(|before|, from, count, offset);
    var o := Overflow(reach, max);
    var to := from + offset;
    && |after| == reach - o
    && forall i :: 0 <= i < |after| ==>
         var p := o + i;
         && (to <= p < to + count && 0 <= p - offset < |before| ==> after[i] == before[p - offset])
         && (!(to <= p < to + count) && p < |before| ==> after[i] == before[p])
  }

  lemma ShiftUpMeans<T>(cells: seq<T>, start: nat, s: seq<T>, from: nat, count: nat, offset: nat)
    requires 0 < |cells| && |s| <= |cells| && Shows(cells, start, s) && offset > 0
    requires Slot(offset, |cells|) + count <= |cells|
    ensures var reach := Reach(|s|, from, count, offset);
            var o := Overflow(reach, |cells|);
            IsShifted(s, Visible(CopyUp(cells, start + from, count, offset), start + o, reach - o),
                      from, count, offset, |cells|)
  {
    hide Slot, Distance, Shows;
    var n, reach := |cells|, Reach(|s|, from, count, offset);
    var o, to := Overflow(reach, n), start + from + offset;
    var copied := CopyUp(cells, start + from, count, offset);
    var after := Visible(copied, start + o, reach - o);
    forall i | 0 <= i < |after|
      ensures var p := o + i;
              && (from + offset <= p < from + offset + count && 0 <= p - offset < |s| ==> after[i] == s[p - offset])
              && (!(from + offset <= p < from + offset + count) && p < |s| ==> after[i] == s[p])
    {
      var p := o + i;
      assert start + o + i == start + p && to + (p - from - offset) == start + p;
      DistanceOf(to, p - from - offset, n);
      CopyUpSafe(cells, start + from, count, offset, Slot(start + p, n));
      if from + offset <= p < from + offset + count {
        if p - offset < |s| {
          ShowsAt(cells, start, s, p - offset);
          assert start + from + (p - from - offset) == start + (p - offset);
        }
      } else if p < |s| {
        ShowsAt(cells, start, s, p);
      }
    }
  }

  lemma ShiftUpFails<T>(cells: seq<T>, start: nat, s: seq<T>, from: nat, count: nat, offset: nat)
    requires 0 < |cells| && |s| <= |cells| && Shows(cells, start, s) && from + count <= |s|
    requires Slot(offset, |cells|) + count > |cells| && Distinct(s) && offset > 0
    ensures var reach := Reach(|s|, from, count, offset);
            var o := Overflow(reach, |cells|);
            !IsShifted(s, Visible(CopyUp(cells, start + from, count, offset), start + o, reach - o),
                       from, count, offset, |cells|)
  {
    hide Slot, Shows, Distinct;
    var n, reach := |cells|, Reach(|s|, from, count, offset);
    var o := Overflow(reach, n);
    var copied := CopyUp(cells, start + from, count, offset);
    var after := Visible(copied, start + o, reach - o);
    assert s + [] == s;
    PartOf(cells, start, s, from, count);
    CopyUpUnsafe(cells, start + from, count, offset);
    ShowsAt(cells, start, s, from);
    var i := from + offset - o;
    assert start + o + i == start + from + offset;
    assert after[i] == copied[Slot(start + o + i, n)];
  }

  lemma PartOf<T>(cells: seq<T>, start: nat, s: seq<T>, from: nat, count: nat)
    requires 0 < |cells| && |s| <= |cells| && Shows(cells, start, s) && from + count <= |s| && Distinct(s)
    ensures Distinct(Visible(cells, start + from, count))
  {
    hide Slot;
    var part := Visible(cells, start + from, count);
    forall i | 0 <= i < |part| ensures part[i] == s[from + i] {
      assert start + from + i == start + (from + i);
      ShowsAt(cells, start, s, from + i);
    }
  }

  lemma ShiftDownMeans<T>(cells: seq<T>, start: nat, s: seq<T>, from: nat, count: nat, offset: int, back: nat)
    requires 0 < |cells| && |s| <= |cells| && Shows(cells, start, s) && back <= from <= |s| && back + count <= |cells|
    requires offset + back == 0 && from - back + count <= |cells|
    ensures IsShifted(s, Visible(CopyDown(cells, start + from, count, back), start, |s|), from, count, offset, |cells|)
  {
    hide Slot, Distance, Shows;
    var n, to := |cells|, start + from - back;
    var copied := CopyDown(cells, start + from, count, back);
    var after := Visible(copied, start, |s|);
    forall p | 0 <= p < |after|
      ensures from - back <= p < from - back + count && p + back < |s| ==> after[p] == s[p + back]
      ensures !(from - back <= p < from - back + count) ==> after[p] == s[p]
    {
      assert to + (p - from + back) == start + p;
      DistanceOf(to, p - from + back, n);
      CopyDownSafe(cells, start + from, count, back, Slot(start + p, n));
      assert start + from + (p - from + back) == start + (p + back);
      ShowsAt(cells, start, s, p);
      if from - back <= p < from - back + count && p + back < |s| {
        ShowsAt(cells, start, s, p + back);
      }
    }
  }

  /** The lines afterwards, for every range, from the cells before: also what comes from
      behind the end of the list. */
  function ShiftedCells<T>(cells: seq<T>, start: nat, n: nat, from: nat, count: nat, offset: int): seq<T>
    requires |cells| > 0 && from + offset >= 0
  {
    var reach := Reach(n, from, count, offset);
    var o := Overflow(reach, |cells|);
    if offset > 0 then Visible(CopyUp(cells, start + from, count, offset), start + o, reach - o)
    else Visible(CopyDown(cells, start + from, count, -offset), start, n)
  }

  /** When no element is overwritten before it is read, or after it is written. Towards
      the front this is so for every range within the list. */
  predicate ShiftIsClear(from: nat, count: nat, offset: int, max: nat)
    requires max > 0
  {
    if offset > 0 then Slot(offset, max) + count <= max
    else count - offset <= max && from + offset + count <= max
  }

  /** What shiftElements makes of the lines; of a range within the list, towards the
      end, for elements all different in both directions. */
  ghost predicate ShiftDoes<T>(before: Lines<T>, after: Lines<T>, from: nat, count: nat, offset: int, max: nat)
    requires max > 0
  {
    && after.trimmed == before.trimmed + Overflow(Reach(|before.items|, from, count, offset), max)
    && (ShiftIsClear(from, count, offset, max) ==> IsShifted(before.items, after.items, from, count, offset, max))
    && (offset > 0 && !ShiftIsClear(from, count, offset, max)
        && Distinct(before.items) && from + count <= |before.items| ==>
          !IsShifted(before.items, after.items, from, count, offset, max))
  }

  lemma ShiftUpOutcome<T>(before: Lines<T>, cells: seq<T>, start: nat, from: nat, count: nat, offset: nat)
    requires 0 < |cells| && |before.items| <= |cells| && Shows(cells, start, before.items) && offset > 0
    ensures var reach := Reach(|before.items|, from, count, offset);
            var o := Overflow(reach, |cells|);
            var after := Visible(CopyUp(cells, start + from, count, offset), start + o, reach - o);
            ShiftDoes(before, Lines(after, before.trimmed + o), from, count, offset, |cells|)
  {
    hide Slot, Shows, Distinct, IsShifted, Visible;
    if Slot(offset, |cells|) + count <= |cells| {
      ShiftUpMeans(cells, start, before.items, from, count, offset);
    } else if Distinct(before.items) && from + count <= |before.items| {
      ShiftUpFails(cells, start, before.items, from, count, offset);
    }
  }

  lemma ShiftDownOutcome<T>(before: Lines<T>, cells: seq<T>, start: nat, from: nat, count: nat, offset: int, back: nat)
    requires 0 < |cells| && |before.items| <= |cells| && Shows(cells, start, before.items)
    requires back <= from <= |before.items| && offset + back == 0
    ensures var after := Visible(CopyDown(cells, start + from, count, back), start, |before.items|);
            ShiftDoes(before, Lines(after, before.trimmed), from, count, offset, |cells|)
  {
    hide Slot, Shows, IsShifted, Visible;
    if back + count <= |cells| && from - back + count <= |cells| {
      ShiftDownMeans(cells, start, before.items, from, count, offset, back);
    }
  }

  // ---- the list itself -----------------------------------------------------

  datatype ShiftError = NoError | StartOutOfRange | BeyondIndexZero

  class List<T(0)> {
    var arr: array<T>
    var startIndex: nat
    var length: int
    /** The sum of all trim events. */
    var trimmed: nat

    ghost predicate Valid()
      reads this
    {
      1 <= arr.Length && 0 <= length <= arr.Length
    }

    ghost function Items(): (s: seq<T>)
      requires Valid()
      reads this, arr
      ensures |s| == length && Shows(arr[..], startIndex, s)
    {
      Visible(arr[..], startIndex, length)
    }

    ghost function Value(): Lines<T>
      requires Valid()
      reads this, arr
    {
      Lines(Items(), trimmed)
    }

    constructor (max: nat)
      requires max > 0
      ensures Valid() && fresh(arr) && arr.Length == max && Value() == Lines([], 0)
    {
      arr := new T[max];
      startIndex, length, trimmed := 0, 0, 0;
    }

    function CyclicIndex(i: nat): (k: nat)
      requires 1 <= arr.Length
      reads this
      ensures k < arr.Length
    {
      Slot(startIndex + i, arr.Length)
    }

    method Get(i: nat) returns (x: T)
      requires Valid() && i < length
      ensures x == Items()[i]
    {
      x := arr[CyclicIndex(i)];
    }

    method Set(i: nat, x: T)
      requires Valid() && i < length
      modifies arr
      ensures Valid() && Items() == old(Items())[i := x]
    {
      hide Slot, Distance;
      ghost var was := arr[..];
      arr[CyclicIndex(i)] := x;
      assert arr[..] == was[Slot(startIndex + i, |was|) := x];
      OneCell(was, startIndex, length, i, x);
    }

    method Push(x: T)
      requires Valid()
      modifies this, arr
      ensures Valid() && arr == old(arr) && Value() == Apply(old(Value()), Edit.Push(x), arr.Length)
      ensures var o := if old(length) == arr.Length then 1 else 0;
              Items() == (old(Items()) + [x])[o..] && trimmed == old(trimmed) + o
    {
      hide Slot;
      ghost var was, before := arr[..], Items();
      arr[CyclicIndex(length)] := x;
      assert arr[..] == was[Slot(startIndex + length, |was|) := x];
      PushMeans(was, startIndex, before, x);
      if length == arr.Length {
        startIndex := Slot(startIndex + 1, arr.Length);
        trimmed := trimmed + 1;
        VisibleFromSlot(arr[..], old(startIndex) + 1, length);
      } else {
        length := length + 1;
      }
    }

    /** The oldest element comes back to be overwritten as the newest. */
    method Recycle() returns (x: Option<T>)
      requires Valid()
      modifies this
      ensures Valid() && arr == old(arr)
      ensures x.Some? <==> old(length) == arr.Length
      ensures x.None? ==> Value() == old(Value())
      ensures x.Some? ==> x.value == old(Items()[0]) && Value() == Apply(old(Value()), Edit.Recycle, arr.Length)
      ensures x.Some? ==> Items() == old(Items())[1..] + [old(Items())[0]] && trimmed == old(trimmed) + 1
    {
      if length != arr.Length {
        return None;
      }
      hide Slot;
      ghost var before := Items();
      RecycleMeans(arr[..], startIndex, before);
      startIndex := Slot(startIndex + 1, arr.Length);
      trimmed := trimmed + 1;
      VisibleFromSlot(arr[..], old(startIndex) + 1, length);
      x := Some(arr[CyclicIndex(length - 1)]);
      assert x.value == Items()[length - 1];
    }

    method Pop() returns (x: T)
      requires Valid() && length > 0
      modifies this
      ensures Valid() && arr == old(arr)
      ensures x == old(Items()[length - 1]) && Value() == Apply(old(Value()), Edit.Pop, arr.Length)
      ensures Items() == old(Items())[..old(length) - 1] && trimmed == old(trimmed)
    {
      x := arr[CyclicIndex(length - 1)];
      length := length - 1;
      assert Items() == old(Items())[..length];
    }

    method TrimStart(count: nat)
      requires Valid()
      modifies this
      ensures Valid() && arr == old(arr) && Value() == Apply(old(Value()), Edit.TrimStart(count), arr.Length)
      ensures Items() == old(Items())[Min(count, old(length))..] && trimmed == old(trimmed) + Min(count, old(length))
    {
      hide Slot;
      var k := if count > length then length else count;
      ghost var before := Items();
      startIndex := startIndex + k;
      length := length - k;
      trimmed := trimmed + k;
      WindowOf(arr[..], old(startIndex), before, k);
    }

    /** The setter of maxLength does not look at the length: shrinking is right if
        and only if the list was trimmed before. */
    method SetMaxLength(max: nat)
      requires Valid()
      modifies this
      ensures Valid() <==> max >= old(length) && max > 0
      ensures arr.Length == max
      ensures Valid() ==> Value() == old(Value())
    {
      if arr.Length != max {
        var n, r := Min(max, length), 0;
        var copy := new T[max];
        ghost var before := Items();
        while r < n
          invariant 0 <= r <= n
          invariant forall i :: 0 <= i < r ==> copy[i] == before[i]
          modifies copy
        {
          copy[r] := arr[CyclicIndex(r)];
          assert Items()[r] == before[r];
          r := r + 1;
        }
        arr := copy;
        startIndex := 0;
        if 0 < max && length <= max {
          FromZero(arr[..], before);
        }
      }
    }

    /** Delete, insert, drop from the front, in this order; for elements all
        different this is what happens if and only if the insertion is clear. A
        deletion past the end leaves the list as much too short as it goes too far, and
        too far altogether leaves no list. */
    method Splice(e: nat, t: nat, xs: seq<T>)
      requires Valid()
      modifies this, arr
      ensures arr == old(arr)
      ensures e + t <= old(length) ==> Valid() && SpliceDoes(old(Value()), Value(), e, t, xs, arr.Length)
      ensures e + t > old(length) ==>
                (Valid() <==> old(length) - t + |xs| >= 0)
                && (Valid() ==> CutShort(old(Value()), Value(), old(arr[..]), old(startIndex), e, t, xs))
    {
      hide Slot, Distinct, Shows, SpliceDoes, Inserted, CutShort, Visible;
      ghost var before, n := Value(), length;
      ghost var s := if e + t <= n then before.items[..e] + before.items[e + t..] else [];
      if t > 0 {
        Delete(e, t);
      }
      assert t == 0 && e <= n ==> s == before.items;
      ghost var cells := arr[..];
      InsertAndTrim(e, xs);
      if e + t <= n {
        SpliceOutcome(before, cells, old(startIndex), s, e, t, xs);
      } else if n - t + |xs| >= 0 {
        CutShortOutcome(before, cells, old(startIndex), e, t, xs);
      }
    }

    method InsertAndTrim(e: nat, xs: seq<T>)
      requires 1 <= arr.Length && length <= arr.Length
      modifies this, arr
      ensures arr == old(arr)
      ensures arr[..] == if e <= old(length) then Inserted(old(arr[..]), old(startIndex), old(length), e, xs)
                         else WriteAll(old(arr[..]), old(startIndex) + e, xs)
      ensures var o := Overflow(old(length) + |xs|, arr.Length);
              length == old(length) + |xs| - o && startIndex == old(startIndex) + o && trimmed == old(trimmed) + o
    {
      hide Slot, Inserted;
      Insert(e, xs);
      if length + |xs| > arr.Length {
        var o := length + |xs| - arr.Length;
        startIndex := startIndex + o;
        length := arr.Length;
        trimmed := trimmed + o;
      } else {
        length := length + |xs|;
      }
    }

    method Insert(e: nat, xs: seq<T>)
      requires 1 <= arr.Length
      modifies arr
      ensures arr[..] == if e <= length then Inserted(old(arr[..]), startIndex, length, e, xs)
                         else WriteAll(old(arr[..]), startIndex + e, xs)
    {
      if e <= length {
        CopyTowardsEnd(e, length - e, |xs|);
      }
      WriteItems(e, xs);
    }

    method Delete(e: nat, t: nat)
      requires Valid()
      modifies this`length, arr
      ensures length == old(length) - t
      ensures e + t <= old(length) ==>
                Valid() && Shows(arr[..], startIndex, old(Items())[..e] + old(Items())[e + t..])
      ensures e + t > old(length) ==> arr[..] == old(arr[..])
    {
      hide Slot, Shows;
      ghost var cells, before := arr[..], Items();
      var n := e;
      while n < length - t
        invariant e <= n && (e + t <= length ==> n <= length - t)
        invariant e + t > length ==> n == e && arr[..] == cells
        invariant e + t <= length ==>
                    CopyDown(arr[..], startIndex + n + t, length - t - n, t)
                    == CopyDown(cells, startIndex + e + t, length - t - e, t)
        modifies arr
      {
        ghost var was := arr[..];
        arr[CyclicIndex(n)] := arr[CyclicIndex(n + t)];
        assert arr[..] == was[Slot(startIndex + n, |was|) := was[Slot(startIndex + (n + t), |was|)]];
        assert startIndex + n + t - t == startIndex + n && startIndex + n + t == startIndex + (n + t);
        n := n + 1;
      }
      if e + t <= length {
        DeletionMeans(cells, startIndex, before, e, t);
      }
      length := length - t;
    }

    /** The loop of splice and of shiftElements: last element first. */
    method CopyTowardsEnd(from: nat, count: nat, offset: nat)
      requires 1 <= arr.Length
      modifies arr
      ensures arr[..] == CopyUp(old(arr[..]), startIndex + from, count, offset)
    {
      hide Slot;
      var i := count;
      while i > 0
        invariant 0 <= i <= count
        invariant CopyUp(arr[..], startIndex + from, i, offset)
               == CopyUp(old(arr[..]), startIndex + from, count, offset)
      {
        i := i - 1;
        ghost var was := arr[..];
        arr[CyclicIndex(from + i + offset)] := arr[CyclicIndex(from + i)];
        assert startIndex + (from + i + offset) == startIndex + from + offset + i;
        assert startIndex + (from + i) == startIndex + from + i;
        assert arr[..] == was[Slot(startIndex + from + offset + i, |was|) := was[Slot(startIndex + from + i, |was|)]];
      }
    }

    method WriteItems(e: nat, xs: seq<T>)
      requires 1 <= arr.Length
      modifies arr
      ensures arr[..] == WriteAll(old(arr[..]), startIndex + e, xs)
    {
      hide Slot;
      var n := 0;
      while n < |xs|
        invariant 0 <= n <= |xs|
        invariant WriteAll(arr[..], startIndex + e + n, xs[n..]) == WriteAll(old(arr[..]), startIndex + e, xs)
      {
        ghost var was := arr[..];
        arr[CyclicIndex(e + n)] := xs[n];
        assert startIndex + (e + n) == startIndex + e + n;
        assert arr[..] == was[Slot(startIndex + e + n, |was|) := xs[n]];
        assert xs[n..][1..] == xs[n + 1..];
        n := n + 1;
      }
    }

    method ShiftElements(start: int, count: int, offset: int) returns (error: ShiftError)
      requires Valid()
      modifies this, arr
      ensures Valid() && arr == old(arr)
      ensures error == if count <= 0 then NoError
                       else if start < 0 || start >= old(length) then StartOutOfRange
                       else if start + offset < 0 then BeyondIndexZero else NoError
      ensures count <= 0 || error != NoError ==> Value() == old(Value())
      ensures count > 0 && error == NoError ==>
                && ShiftDoes(old(Value()), Value(), start, count, offset, arr.Length)
                && Items() == ShiftedCells(old(arr[..]), old(startIndex), old(length), start, count, offset)
    {
      if count <= 0 {
        return NoError;
      }
      if start < 0 || start >= length {
        return StartOutOfRange;
      }
      if start + offset < 0 {
        return BeyondIndexZero;
      }
      error := NoError;
      if offset > 0 {
        ShiftTowardsEnd(start, count, offset);
      } else {
        hide Slot, Shows, ShiftDoes, Visible;
        ghost var cells, before := arr[..], Value();
        CopyTowardsFront(start, count, -offset);
        ShiftDownOutcome(before, cells, startIndex, start, count, offset, -offset);
      }
    }

    method ShiftTowardsEnd(start: nat, count: nat, offset: nat)
      requires Valid() && offset > 0
      modifies this, arr
      ensures Valid() && arr == old(arr)
      ensures ShiftDoes(old(Value()), Value(), start, count, offset, arr.Length)
      ensures Items() == ShiftedCells(old(arr[..]), old(startIndex), old(length), start, count, offset)
    {
      hide Slot, Shows, ShiftDoes, Visible, Overflow, Reach;
      ghost var cells, before := arr[..], Value();
      CopyAndTrim(start, count, offset);
      ShiftUpOutcome(before, cells, old(startIndex), start, count, offset);
    }

    method CopyAndTrim(start: nat, count: nat, offset: nat)
      requires Valid() && offset > 0
      modifies this, arr
      ensures Valid() && arr == old(arr)
      ensures arr[..] == CopyUp(old(arr[..]), old(startIndex) + start, count, offset)
      ensures var reach := Reach(old(length), start, count, offset);
              var o := Overflow(reach, arr.Length);
              length == reach - o && startIndex == old(startIndex) + o && trimmed == old(trimmed) + o
    {
      CopyTowardsEnd(start, count, offset);
      var expand := start + count + offset - length;
      if expand > 0 {
        length := length + expand;
        TrimToMax();
      }
    }

    /** The loop that trims one line at a time. */
    method TrimToMax()
      requires 1 <= arr.Length && length >= 0
      modifies this`length, this`startIndex, this`trimmed
      ensures Valid() && length == old(length) - Overflow(old(length), arr.Length)
      ensures startIndex == old(startIndex) + Overflow(old(length), arr.Length)
      ensures trimmed == old(trimmed) + Overflow(old(length), arr.Length)
    {
      while length > arr.Length
        invariant startIndex - old(startIndex) == old(length) - length == trimmed - old(trimmed)
        invariant old(length) - length <= Overflow(old(length), arr.Length)
        invariant old(length) >= length >= 0
      {
        length := length - 1;
        startIndex := startIndex + 1;
        trimmed := trimmed + 1;
      }
    }

    method CopyTowardsFront(from: nat, count: nat, back: nat)
      requires Valid() && back <= from
      modifies arr
      ensures arr[..] == CopyDown(old(arr[..]), startIndex + from, count, back)
    {
      hide Slot;
      var i := 0;
      while i < count
        invariant 0 <= i <= count
        invariant CopyDown(arr[..], startIndex + from + i, count - i, back)
               == CopyDown(old(arr[..]), startIndex + from, count, back)
      {
        ghost var was := arr[..];
        arr[CyclicIndex(from + i - back)] := arr[CyclicIndex(from + i)];
        assert startIndex + (from + i - back) == startIndex + from + i - back;
        assert startIndex + (from + i) == startIndex + from + i;
        assert arr[..] == was[Slot(startIndex + from + i - back, |was|) := was[Slot(startIndex + from + i, |was|)]];
        i := i + 1;
      }
    }
  }

  // ---- what one cell does to the lines -------------------------------------

  lemma OneCell<T>(cells: seq<T>, start: nat, n: nat, i: nat, x: T)
    requires i < n <= |cells|
    ensures Visible(cells[Slot(start + i, |cells|) := x], start, n) == Visible(cells, start, n)[i := x]
  {
    hide Slot, Distance;
    var got, want := Visible(cells[Slot(start + i, |cells|) := x], start, n), Visible(cells, start, n)[i := x];
    DistanceOf(start, i, |cells|);
    forall j | 0 <= j < |got| ensures got[j] == want[j] {
      DistanceOf(start, j, |cells|);
    }
    assert got == want;
  }

  lemma WindowOf<T>(cells: seq<T>, start: nat, s: seq<T>, k: nat)
    requires |cells| > 0 && Shows(cells, start, s) && k <= |s|
    ensures Visible(cells, start + k, |s| - k) == s[k..]
  {
    hide Slot;
    var got := Visible(cells, start + k, |s| - k);
    forall i | 0 <= i < |got| ensures got[i] == s[k..][i] {
      assert start + k + i == start + (k + i);
      ShowsAt(cells, start, s, k + i);
    }
  }

  lemma PushMeans<T>(cells: seq<T>, start: nat, s: seq<T>, x: T)
    requires 0 < |cells| && |s| <= |cells| && Shows(cells, start, s)
    ensures var after := cells[Slot(start + |s|, |cells|) := x];
            && (|s| < |cells| ==> Visible(after, start, |s| + 1) == s + [x])
            && (|s| == |cells| ==> Visible(after, start + 1, |s|) == s[1..] + [x])
  {
    hide Slot, Shows;
    assert s[..|s|] + [x] + s[|s|..] == s + [x];
    assert CopyUp(cells, start + |s|, 0, 1) == cells;
    InsertionMeans(cells, start, s, |s|, [x]);
    assert Inserted(cells, start, |s|, |s|, [x]) == cells[Slot(start + |s|, |cells|) := x] by {
      var next := cells[Slot(start + |s|, |cells|) := x];
      assert WriteAll(next, start + |s| + 1, []) == next;
      assert [x][1..] == [];
    }
    var o := Overflow(|s| + 1, |cells|);
    ShownIs(cells[Slot(start + |s|, |cells|) := x], start + o, (s + [x])[o..]);
  }

  lemma ShownIs<T>(cells: seq<T>, at: nat, items: seq<T>)
    requires |cells| > 0 && Shows(cells, at, items)
    ensures Visible(cells, at, |items|) == items
  {
  }

  lemma RecycleMeans<T>(cells: seq<T>, start: nat, s: seq<T>)
    requires 0 < |cells| == |s| && Shows(cells, start, s)
    ensures Visible(cells, start + 1, |s|) == s[1..] + [s[0]]
  {
    hide Slot, Shows;
    ShowsAt(cells, start, s, 0);
    Onwards(start, |s|, |s|);
    assert start + 0 == start;
    var cell := Slot(start + |s|, |cells|);
    assert cells[cell := s[0]] == cells;
    PushMeans(cells, start, s, s[0]);
  }

  lemma FromZero<T>(cells: seq<T>, s: seq<T>)
    requires 0 < |cells| && |s| <= |cells| && forall i :: 0 <= i < |s| ==> cells[i] == s[i]
    ensures Visible(cells, 0, |s|) == s
  {
    hide Slot;
    var got := Visible(cells, 0, |s|);
    forall i | 0 <= i < |got| ensures got[i] == s[i] {
      SmallSlot(i, |cells|);
      assert got[i] == cells[Slot(0 + i, |cells|)];
    }
  }
}
