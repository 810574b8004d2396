// CharacterJoinerRegistry._mergeRanges of html/xterm.js: one more range of cells
// to be drawn together is merged into a sorted list of such ranges, in place.

module MergeRanges {
  import opened Common

  /** Half open. */
  datatype Range = Range(from: int, to: int)

  ghost predicate Sorted(rs: seq<Range>) {
    && (forall i :: 0 <= i < |rs| ==> rs[i].from < rs[i].to)
    && forall i, j :: 0 <= i < j < |rs| ==> rs[i].to <= rs[j].from
  }

  // ---- what a list of ranges means -----------------------------------------

  predicate Covered(r: Range, x: int) {
    r.from <= x < r.to
  }

  /** Cells x - 1 and x are drawn together. */
  predicate Joins(r: Range, x: int) {
    r.from < x < r.to
  }

  ghost predicate Covers(rs: seq<Range>, x: int) {
    exists r :: r in rs && Covered(r, x)
  }

  ghost predicate JoinsAt(rs: seq<Range>, x: int) {
    exists r :: r in rs && Joins(r, x)
  }

  lemma CoversAppend(a: seq<Range>, b: seq<Range>, x: int)
    ensures Covers(a + b, x) <==> Covers(a, x) || Covers(b, x)
    ensures JoinsAt(a + b, x) <==> JoinsAt(a, x) || JoinsAt(b, x)
  {
    forall r ensures r in a + b <==> r in a || r in b {
    }
  }

  lemma CoversOne(r: Range, x: int)
    ensures Covers([r], x) <==> Covered(r, x)
    ensures JoinsAt([r], x) <==> Joins(r, x)
  {
    assert r in [r];
  }

  /** Everything behind the first range lies beyond its end. */
  lemma FirstRange(rs: seq<Range>, x: int)
    requires Sorted(rs) && |rs| > 0
    ensures Sorted(rs[1..])
    ensures Covers(rs, x) <==> Covered(rs[0], x) || Covers(rs[1..], x)
    ensures JoinsAt(rs, x) <==> Joins(rs[0], x) || JoinsAt(rs[1..], x)
    ensures Covers(rs[1..], x) ==> x >= rs[0].to
    ensures JoinsAt(rs[1..], x) ==> x > rs[0].to
  {
    assert rs == [rs[0]] + rs[1..];
    CoversAppend([rs[0]], rs[1..], x);
    CoversOne(rs[0], x);
  }

  ghost predicate SameCells(a: seq<Range>, b: seq<Range>) {
    && (forall x :: Covers(a, x) <==> Covers(b, x))
    && forall x :: JoinsAt(a, x) <==> JoinsAt(b, x)
  }

  lemma FirstIsNoLater(a: seq<Range>, b: seq<Range>)
    requires Sorted(a) && Sorted(b) && SameCells(a, b) && |b| > 0
    ensures |a| > 0 && a[0].from <= b[0].from
  {
    hide Sorted;
    assert b[0] in b && Covered(b[0], b[0].from) by { NonEmpty(b); }
    assert Covers(a, b[0].from);
    if |a| > 0 {
      FirstRange(a, b[0].from);
      NonEmpty(a);
    }
  }

  lemma NonEmpty(rs: seq<Range>)
    requires Sorted(rs) && |rs| > 0
    ensures rs[0].from < rs[0].to
  {
  }

  lemma FirstEndsNoLater(a: seq<Range>, b: seq<Range>)
    requires Sorted(a) && Sorted(b) && SameCells(a, b) && |a| > 0 && |b| > 0 && a[0].from == b[0].from
    ensures b[0].to <= a[0].to
  {
    var x := a[0].to;
    FirstRange(a, x);
    if x < b[0].to {
      assert Joins(b[0], x) && JoinsAt(b, x);
    }
  }

  /** A sorted list is determined by the cells it covers and joins. */
  lemma {:induction false} OnlyOneList(a: seq<Range>, b: seq<Range>)
    requires Sorted(a) && Sorted(b) && SameCells(a, b)
    ensures a == b
  {
    hide Sorted, Covers, JoinsAt;
    assert SameCells(b, a);
    if |a| > 0 {
      FirstIsNoLater(b, a);
    }
    if |b| > 0 {
      FirstIsNoLater(a, b);
    }
    if |a| > 0 && |b| > 0 {
      FirstEndsNoLater(a, b);
      FirstEndsNoLater(b, a);
      forall x ensures Covers(a[1..], x) <==> Covers(b[1..], x) {
        FirstRange(a, x);
        FirstRange(b, x);
      }
      forall x ensures JoinsAt(a[1..], x) <==> JoinsAt(b[1..], x) {
        FirstRange(a, x);
        FirstRange(b, x);
      }
      FirstRange(a, 0);
      FirstRange(b, 0);
      OnlyOneList(a[1..], b[1..]);
      assert a == [a[0]] + a[1..] && b == [b[0]] + b[1..];
    }
  }

  // ---- merging -------------------------------------------------------------

  /** The ranges before `t`, the one that everything overlapping `t` is merged
      into, and the ranges behind. */
  function Merged(rs: seq<Range>, t: Range): (m: seq<Range>)
    decreases |rs|
  {
    if |rs| == 0 then [t]
    else if t.to <= rs[0].from then [t] + rs
    else if t.from < rs[0].to then Merged(rs[1..], Range(Min(t.from, rs[0].from), Max(t.to, rs[0].to)))
    else [rs[0]] + Merged(rs[1..], t)
  }

  /** Sorted, and no cell or join gained or lost. */
  lemma {:induction false} MergedMeans(rs: seq<Range>, t: Range)
    requires Sorted(rs) && t.from < t.to
    ensures Sorted(Merged(rs, t))
    ensures forall x :: Covers(Merged(rs, t), x) <==> Covers(rs, x) || Covered(t, x)
    ensures forall x :: JoinsAt(Merged(rs, t), x) <==> JoinsAt(rs, x) || Joins(t, x)
    decreases |rs|
  {
    MergedIsSorted(rs, t);
    forall x ensures Covers(Merged(rs, t), x) <==> Covers(rs, x) || Covered(t, x) {
      MergedAt(rs, t, x);
    }
    forall x ensures JoinsAt(Merged(rs, t), x) <==> JoinsAt(rs, x) || Joins(t, x) {
      MergedAt(rs, t, x);
    }
  }

  lemma {:induction false} MergedIsSorted(rs: seq<Range>, t: Range)
    requires Sorted(rs) && t.from < t.to
    ensures Sorted(Merged(rs, t))
    ensures |Merged(rs, t)| > 0
    ensures forall low {:trigger Below(low, rs)} :: Below(low, rs) && low <= t.from ==> Below(low, Merged(rs, t))
    decreases |rs|
  {
    if |rs| > 0 && t.to > rs[0].from {
      if t.from < rs[0].to {
        MergedIsSorted(rs[1..], Range(Min(t.from, rs[0].from), Max(t.to, rs[0].to)));
        assert forall low {:trigger Below(low, rs)} :: Below(low, rs) ==> low <= rs[0].from && Below(low, rs[1..]);
      } else {
        MergedIsSorted(rs[1..], t);
        assert Below(rs[0].to, rs[1..]);
        assert forall low {:trigger Below(low, rs)} :: Below(low, rs) ==> low <= rs[0].from && Below(low, rs[1..]);
      }
    }
  }

  ghost predicate Below(low: int, rs: seq<Range>) {
    forall i :: 0 <= i < |rs| ==> low <= rs[i].from
  }

  lemma {:induction false} MergedAt(rs: seq<Range>, t: Range, x: int)
    requires Sorted(rs) && t.from < t.to
    ensures Covers(Merged(rs, t), x) <==> Covers(rs, x) || Covered(t, x)
    ensures JoinsAt(Merged(rs, t), x) <==> JoinsAt(rs, x) || Joins(t, x)
    decreases |rs|
  {
    hide Sorted, Covers, JoinsAt;
    if |rs| == 0 {
      CoversOne(t, x);
      NoRanges(x);
    } else {
      FirstRange(rs, x);
      NonEmpty(rs);
      if t.to <= rs[0].from {
        CoversAppend([t], rs, x);
        CoversOne(t, x);
      } else if t.from < rs[0].to {
        MergedAt(rs[1..], Range(Min(t.from, rs[0].from), Max(t.to, rs[0].to)), x);
      } else {
        MergedAt(rs[1..], t, x);
        CoversAppend([rs[0]], Merged(rs[1..], t), x);
        CoversOne(rs[0], x);
      }
    }
  }

  lemma NoRanges(x: int)
    ensures !Covers([], x) && !JoinsAt([], x)
  {
  }

  function MergeAll(rs: seq<Range>, ts: seq<Range>): seq<Range>
    decreases |ts|
  {
    if |ts| == 0 then rs else MergeAll(Merged(rs, ts[0]), ts[1..])
  }

  lemma {:induction false} MergeAllMeans(rs: seq<Range>, ts: seq<Range>)
    requires Sorted(rs) && forall i :: 0 <= i < |ts| ==> ts[i].from < ts[i].to
    ensures Sorted(MergeAll(rs, ts))
    ensures forall x :: Covers(MergeAll(rs, ts), x) <==> Covers(rs, x) || Covers(ts, x)
    ensures forall x :: JoinsAt(MergeAll(rs, ts), x) <==> JoinsAt(rs, x) || JoinsAt(ts, x)
    decreases |ts|
  {
    hide Sorted, Covers, JoinsAt;
    if |ts| == 0 {
      forall x ensures !Covers(ts, x) && !JoinsAt(ts, x) {
        NoRanges(x);
        assert ts == [];
      }
    } else {
      MergedMeans(rs, ts[0]);
      MergeAllMeans(Merged(rs, ts[0]), ts[1..]);
      assert ts == [ts[0]] + ts[1..];
      forall x
        ensures Covers(ts, x) <==> Covered(ts[0], x) || Covers(ts[1..], x)
        ensures JoinsAt(ts, x) <==> Joins(ts[0], x) || JoinsAt(ts[1..], x)
      {
        CoversAppend([ts[0]], ts[1..], x);
        CoversOne(ts[0], x);
      }
    }
  }

  /** Whatever joiners report, in whatever order and however often: the list
      depends only on which ranges there were. */
  lemma OrderDoesNotMatter(ts: seq<Range>, us: seq<Range>)
    requires forall i :: 0 <= i < |ts| ==> ts[i].from < ts[i].to
    requires forall i :: 0 <= i < |us| ==> us[i].from < us[i].to
    requires forall r :: r in ts <==> r in us
    ensures MergeAll([], ts) == MergeAll([], us)
  {
    MergeAllMeans([], ts);
    MergeAllMeans([], us);
    hide Sorted, MergeAll;
    assert SameCells(MergeAll([], ts), MergeAll([], us));
    OnlyOneList(MergeAll([], ts), MergeAll([], us));
  }

  // ---- the code ------------------------------------------------------------

  class RangeList {
    var ranges: seq<Range>

    constructor ()
      ensures ranges == []
    {
      ranges := [];
    }

    method Merge(t: Range)
      requires Sorted(ranges) && t.from < t.to
      modifies this
      ensures ranges == Merged(old(ranges), t) && Sorted(ranges)
    {
      hide Merged, Sorted;
      MergedIsSorted(ranges, t);
      var i, merging, finished := 0, false, false;
      // what will stay in front, what is ahead, and what the new range grew to
      ghost var done, rest: seq<Range>, hull := [], ranges, t;
      while i < |ranges|
        invariant Looks(ranges, i, merging, t, done, rest, hull)
        invariant Merged(old(ranges), t) == done + Merged(rest, hull)
      {
        if merging {
          i, finished, rest := Absorb(i, t, done, rest, hull);
        } else {
          merging, finished, done, rest, hull := Place(i, t, done, rest);
        }
        if finished {
          return;
        }
        i := i + 1;
      }
      MergedNothing(rest, hull);
      if merging {
        ranges := ranges[|ranges| - 1 := Range(ranges[|ranges| - 1].from, t.to)];
      } else {
        ranges := ranges + [t];
      }
      assert ranges == done + [hull];
    }

    /** The new range has been met: the range at i ends it, is its end, or lies
        inside. */
    method Absorb(i: nat, t: Range, ghost done: seq<Range>, ghost rest: seq<Range>, ghost hull: Range)
      returns (i': int, finished: bool, ghost rest': seq<Range>)
      requires i < |ranges| && Looks(ranges, i, true, t, done, rest, hull)
      modifies this
      ensures finished ==> ranges == done + Merged(rest, hull)
      ensures !finished ==>
                && Looks(ranges, i' + 1, true, t, done, rest', hull) && |ranges| - i' <= |old(ranges)| - i
                && Merged(rest, hull) == Merged(rest', hull)
    {
      hide Merged, Sorted;
      var n := ranges[i];
      ghost var passed := done + [Range(hull.from, ranges[i - 1].to)];
      i', finished, rest' := i, false, rest[1..];
      Around(passed, rest, n);
      MergedUnfolds(rest, hull);
      if t.to <= n.from {
        ranges := ranges[i - 1 := Range(ranges[i - 1].from, t.to)];
        Regrown(done, Range(hull.from, passed[|done|].to), rest, hull);
        return i, true, rest;
      }
      if t.to <= n.to {
        ranges := ranges[i - 1 := Range(ranges[i - 1].from, Max(t.to, n.to))];
        Regrown(done, Range(hull.from, passed[|done|].to), rest, Range(hull.from, n.to));
        Around(done + [Range(hull.from, n.to)], rest, n);
        ranges := ranges[..i] + ranges[i + 1..];
        Regroup(done, [Range(hull.from, n.to)], rest[1..]);
        return i, true, rest;
      }
      ranges := ranges[..i] + ranges[i + 1..];
      i' := i - 1;
    }

    /** The new range has not been met: it goes before the range at i, into it,
        starts in it, or lies beyond. */
    method Place(i: nat, t: Range, ghost done: seq<Range>, ghost rest: seq<Range>)
      returns (merging: bool, finished: bool, ghost done': seq<Range>, ghost rest': seq<Range>, ghost hull: Range)
      requires i < |ranges| && Looks(ranges, i, false, t, done, rest, t)
      modifies this
      ensures finished ==> ranges == done + Merged(rest, t)
      ensures !finished ==>
                && Looks(ranges, i + 1, merging, t, done', rest', hull) && |ranges| == |old(ranges)|
                && done + Merged(rest, t) == done' + Merged(rest', hull)
    {
      hide Merged, Sorted;
      var n := ranges[i];
      merging, finished, done', rest', hull := false, false, done, rest[1..], t;
      MergedUnfolds(rest, t);
      Around(done, rest, if t.to <= n.from then t else Range(Min(t.from, n.from), n.to));
      if t.to <= n.from {
        ranges := ranges[..i] + [t] + ranges[i..];
        finished := true;
        return;
      }
      if t.to <= n.to {
        ranges := ranges[i := Range(Min(t.from, n.from), n.to)];
        finished := true;
        return;
      }
      if t.from < n.to {
        ranges := ranges[i := Range(Min(t.from, n.from), n.to)];
        merging := true;
        hull := Range(Min(t.from, n.from), t.to);
      } else {
        Regroup(done, [n], Merged(rest[1..], t));
        done' := done + [n];
      }
    }
  }

  /** Where the loop stands: `done` is in front for good, then comes the range the
      new one was merged into, if any, and `rest` is ahead. */
  ghost predicate Looks(rs: seq<Range>, i: int, merging: bool, t: Range,
                        done: seq<Range>, rest: seq<Range>, hull: Range) {
    && 0 <= i <= |rs| && hull.from < hull.to == t.to && Sorted(rest)
    && if merging
       then i == |done| + 1 && rs == (done + [Range(hull.from, rs[i - 1].to)]) + rest && Below(hull.from, rest)
       else i == |done| && hull == t && rs == done + rest
  }

  lemma MergedNothing(rs: seq<Range>, t: Range)
    ensures |rs| == 0 ==> Merged(rs, t) == [t]
  {
  }

  /** The first range ahead, taken out, passed, replaced or preceded by x. */
  lemma Around(passed: seq<Range>, rest: seq<Range>, x: Range)
    requires |rest| > 0
    ensures var s, k := passed + rest, |passed|;
            && s[k] == rest[0]
            && s[..k] + s[k + 1..] == passed + rest[1..]
            && s == (passed + [rest[0]]) + rest[1..]
            && s[k := x] == (passed + [x]) + rest[1..] == passed + ([x] + rest[1..])
            && s[..k] + [x] + s[k..] == passed + ([x] + rest)
  {
  }

  /** The last range passed, replaced. */
  lemma Regrown(done: seq<Range>, before: Range, rest: seq<Range>, x: Range)
    ensures ((done + [before]) + rest)[|done| := x] == (done + [x]) + rest == done + ([x] + rest)
  {
  }

  /** The four ways a range can lie, as the code tells them apart. */
  lemma MergedUnfolds(rs: seq<Range>, t: Range)
    requires Sorted(rs) && |rs| > 0 && t.from < t.to
    ensures var n, grown := rs[0], Range(Min(t.from, rs[0].from), Max(t.to, rs[0].to));
            && Sorted(rs[1..]) && Below(n.from, rs[1..])
            && n.from < n.to
            && (t.to <= n.from ==> Merged(rs, t) == [t] + rs)
            && (n.from < t.to <= n.to ==> Merged(rs, t) == [Range(Min(t.from, n.from), n.to)] + rs[1..])
            && (n.to < t.to && t.from < n.to ==> Merged(rs, t) == Merged(rs[1..], grown))
            && (n.to < t.to && n.to <= t.from ==> Merged(rs, t) == [n] + Merged(rs[1..], t))
  {
    var n := rs[0];
    if n.from < t.to <= n.to {
      var grown := Range(Min(t.from, n.from), n.to);
      assert Merged(rs, t) == Merged(rs[1..], grown);
      assert |rs| > 1 ==> rs[1..][0] == rs[1];
    }
  }
}
