// StringToUtf32 and utf32ToString of html/xterm.js: UTF-16 code units to code
// points, with a high surrogate held back from one chunk to the next.

module StringToUtf32 {
  import opened Common

  type Unit = u: int | 0 <= u < 0x10000

  type CodePoint = c: int | 0 <= c <= 0x10FFFF

  predicate High(u: int) {
    0xD800 <= u <= 0xDBFF
  }

  predicate Low(u: int) {
    0xDC00 <= u <= 0xDFFF
  }

  /** Nothing, or a high surrogate still waiting for its partner. */
  type Held = h: Option<Unit> | h.None? || High(h.value) witness None

  function Combined(high: Unit, low: Unit): (c: CodePoint)
    requires High(high) && Low(low)
    ensures c >= 0x10000
  {
    1024 * (high - 0xD800) + low - 0xDC00 + 0x10000
  }

  /** The pairs, in order, stand for the code points from 0x10000 on, in order. */
  lemma PairsInOrder(high: Unit, low: Unit)
    requires High(high) && Low(low)
    ensures Combined(0xD800, 0xDC00) == 0x10000 && Combined(0xDBFF, 0xDFFF) == 0x10FFFF
    ensures low < 0xDFFF ==> Combined(high, low + 1) == Combined(high, low) + 1
    ensures low == 0xDFFF && high < 0xDBFF ==> Combined(high + 1, 0xDC00) == Combined(high, low) + 1
  {
  }

  // ---- one unit at a time --------------------------------------------------

  datatype Decoded = Decoded(out: seq<CodePoint>, held: Held)

  /** A unit after a held one is its partner or ends the wait; in that case it is
      passed on whatever it is. */
  function Next(held: Held, u: Unit): Decoded {
    if held.Some? then
      if Low(u) then Decoded([Combined(held.value, u)], None) else Decoded([held.value, u], None)
    else if High(u) then Decoded([], Some(u))
    else Decoded([u], None)
  }

  function Decode(held: Held, units: seq<Unit>): (d: Decoded)
    decreases |units|
  {
    if |units| == 0 then Decoded([], held)
    else
      var first := Next(held, units[0]);
      var rest := Decode(first.held, units[1..]);
      Decoded(first.out + rest.out, rest.held)
  }

  function DecodeChunks(held: Held, chunks: seq<seq<Unit>>): (d: Decoded)
    decreases |chunks|
  {
    if |chunks| == 0 then Decoded([], held)
    else
      var first := Decode(held, chunks[0]);
      var rest := DecodeChunks(first.held, chunks[1..]);
      Decoded(first.out + rest.out, rest.held)
  }

  lemma {:induction false} DecodeAppend(held: Held, a: seq<Unit>, b: seq<Unit>)
    ensures var x := Decode(held, a);
            var y := Decode(x.held, b);
            Decode(held, a + b) == Decoded(x.out + y.out, y.held)
    decreases |a|
  {
    hide Next;
    if |a| == 0 {
      assert a + b == b;
    } else {
      var first := Next(held, a[0]);
      DecodeAppend(first.held, a[1..], b);
      assert (a + b)[0] == a[0] && (a + b)[1..] == a[1..] + b;
      var x := Decode(first.held, a[1..]);
      Regroup(first.out, x.out, Decode(x.held, b).out);
    }
  }

  /** However the input is cut up, malformed input included. */
  lemma {:induction false} ChunksDoNotMatter(held: Held, chunks: seq<seq<Unit>>)
    ensures DecodeChunks(held, chunks) == Decode(held, Concat(chunks))
    decreases |chunks|
  {
    if |chunks| > 0 {
      ChunksDoNotMatter(Decode(held, chunks[0]).held, chunks[1..]);
      DecodeAppend(held, chunks[0], Concat(chunks[1..]));
    }
  }

  // ---- utf32ToString -------------------------------------------------------

  /** Section 2.1 of RFC 2781, and a code point below 0x10000 as it is. */
  function Encoded(c: CodePoint): (us: seq<Unit>)
  {
    if c > 0xFFFF
    then [0xD800 + (c - 0x10000) / 1024, (c - 0x10000) % 1024 + 0xDC00]
    else [c]
  }

  function ToUnits(s: seq<CodePoint>): (us: seq<Unit>) {
    if |s| == 0 then [] else Encoded(s[0]) + ToUnits(s[1..])
  }

  function Waiting(held: Held): seq<Unit> {
    if held.Some? then [held.value] else []
  }

  lemma CombinedRoundTrip(high: Unit, low: Unit)
    requires High(high) && Low(low)
    ensures Encoded(Combined(high, low)) == [high, low]
  {
  }

  lemma {:induction false} ToUnitsAppend(a: seq<CodePoint>, b: seq<CodePoint>)
    ensures ToUnits(a + b) == ToUnits(a) + ToUnits(b)
  {
    hide Encoded;
    if |a| == 0 {
      assert a + b == b;
    } else {
      ToUnitsAppend(a[1..], b);
      assert (a + b)[0] == a[0] && (a + b)[1..] == a[1..] + b;
      Regroup(Encoded(a[0]), ToUnits(a[1..]), ToUnits(b));
    }
  }

  lemma NextRoundTrip(held: Held, u: Unit)
    ensures var d := Next(held, u);
            ToUnits(d.out) + Waiting(d.held) == Waiting(held) + [u]
  {
    var d := Next(held, u);
    if held.Some? && Low(u) {
      CombinedRoundTrip(held.value, u);
      assert ToUnits(d.out) == Encoded(d.out[0]) + ToUnits([]);
    } else if held.Some? {
      assert d.out[1..] == [u];
      assert ToUnits([u]) == Encoded(u) + ToUnits([]);
    } else if !High(u) {
      assert ToUnits([u]) == Encoded(u) + ToUnits([]);
    }
  }

  /** Nothing is lost or changed on the way, for any sequence of units. */
  lemma {:induction false} RoundTrip(held: Held, units: seq<Unit>)
    ensures var d := Decode(held, units);
            ToUnits(d.out) + Waiting(d.held) == Waiting(held) + units
    decreases |units|
  {
    if |units| == 0 {
      assert Waiting(held) + units == Waiting(held) == [] + Waiting(held);
    } else {
      hide ToUnits, Next, Encoded, Waiting;
      var first := Next(held, units[0]);
      var rest := Decode(first.held, units[1..]);
      NextRoundTrip(held, units[0]);
      RoundTrip(first.held, units[1..]);
      ToUnitsAppend(first.out, rest.out);
      Regroup(ToUnits(first.out), ToUnits(rest.out), Waiting(rest.held));
      Regroup(ToUnits(first.out), Waiting(first.held), units[1..]);
      Regroup(Waiting(held), [units[0]], units[1..]);
      assert [units[0]] + units[1..] == units;
    }
  }

  function Astral(s: seq<CodePoint>): nat {
    if |s| == 0 then 0 else (if s[0] > 0xFFFF then 1 else 0) + Astral(s[1..])
  }

  lemma {:induction false} UnitsCount(s: seq<CodePoint>)
    ensures |ToUnits(s)| == |s| + Astral(s)
  {
    if |s| > 0 {
      UnitsCount(s[1..]);
    }
  }

  /** How long the output is: one more than the chunk only when a held unit comes
      out alone, the chunk holds no pair and nothing is held at its end. */
  lemma OutputLength(held: Held, units: seq<Unit>)
    ensures var d := Decode(held, units);
            && |d.out| + Astral(d.out) + |Waiting(d.held)| == |Waiting(held)| + |units|
            && |d.out| <= |units| + 1
            && (|d.out| == |units| + 1 <==> held.Some? && d.held.None? && Astral(d.out) == 0)
  {
    RoundTrip(held, units);
    UnitsCount(Decode(held, units).out);
  }

  /** How many high surrogates the units end with. */
  function TrailingHighs(units: seq<Unit>): (n: nat)
    ensures n <= |units|
  {
    var k := |units| - 1;
    if k >= 0 && High(units[k]) then 1 + TrailingHighs(units[..k]) else 0
  }

  /** The high surrogates at the end of the input come out two by two; a unit held
      before counts if nothing else came in between. */
  predicate HeldAfter(held: bool, units: seq<Unit>) {
    var n := TrailingHighs(units);
    (if held && n == |units| then n + 1 else n) % 2 == 1
  }

  /** No low surrogate comes while a high one is held. */
  ghost predicate PairsNothing(held: bool, units: seq<Unit>) {
    forall j {:trigger units[j]} :: 0 <= j < |units| && Low(units[j]) ==> !HeldAfter(held, units[..j])
  }

  ghost predicate TooLong(held: bool, units: seq<Unit>) {
    held && PairsNothing(held, units) && !HeldAfter(held, units)
  }

  lemma DecodeSnoc(held: Held, units: seq<Unit>, u: Unit)
    ensures var x := Decode(held, units);
            var y := Next(x.held, u);
            Decode(held, units + [u]) == Decoded(x.out + y.out, y.held)
  {
    DecodeAppend(held, units, [u]);
    var y := Next(Decode(held, units).held, u);
    assert [u][1..] == [];
    assert Decode(Decode(held, units).held, [u]) == Decoded(y.out + [], y.held);
    assert y.out + [] == y.out;
  }

  /** Whether a unit is held can be read off the input. */
  lemma {:induction false} HeldExactly(held: Held, units: seq<Unit>)
    ensures Decode(held, units).held.Some? <==> HeldAfter(held.Some?, units)
    decreases |units|
  {
    if |units| > 0 {
      var k := |units| - 1;
      HeldExactly(held, units[..k]);
      hide Decode;
      DecodeSnoc(held, units[..k], units[k]);
      assert units == units[..k] + [units[k]];
    }
  }

  lemma {:induction false} AstralAppend(a: seq<CodePoint>, b: seq<CodePoint>)
    ensures Astral(a + b) == Astral(a) + Astral(b)
  {
    if |a| == 0 {
      assert a + b == b;
    } else {
      AstralAppend(a[1..], b);
      assert (a + b)[0] == a[0] && (a + b)[1..] == a[1..] + b;
    }
  }

  lemma {:induction false} PairsExactly(held: Held, units: seq<Unit>)
    ensures Astral(Decode(held, units).out) == 0 <==> PairsNothing(held.Some?, units)
    decreases |units|
  {
    if |units| > 0 {
      var k := |units| - 1;
      var init, u := units[..k], units[k];
      PairsExactly(held, init);
      HeldExactly(held, init);
      hide Decode, HeldAfter, PairsNothing, Astral, Next;
      DecodeSnoc(held, init, u);
      assert units == init + [u];
      var x := Decode(held, init);
      AstralAppend(x.out, Next(x.held, u).out);
      AstralOfNext(x.held, u);
      PairsNothingSnoc(held.Some?, init, u);
    }
  }

  lemma PairsNothingSnoc(held: bool, units: seq<Unit>, u: Unit)
    ensures PairsNothing(held, units + [u]) <==> PairsNothing(held, units) && !(Low(u) && HeldAfter(held, units))
  {
    hide HeldAfter;
    var all, k := units + [u], |units|;
    assert all[..k] == units && all[k] == u;
    assert forall j {:trigger units[j]} {:trigger all[j]} :: 0 <= j < k ==>
      units[j] == all[j] && units[..j] == all[..j];
  }

  lemma AstralOfNext(held: Held, u: Unit)
    ensures Astral(Next(held, u).out) == if held.Some? && Low(u) then 1 else 0
  {
    var out := Next(held, u).out;
    if |out| == 2 {
      assert out[1..] == [u] && Astral([u]) == 0 + Astral([]);
    } else if |out| == 1 {
      assert out[1..] == [];
    }
  }

  /** For all input: when the output of one call is longer than its chunk. */
  lemma TooLongExactly(held: Held, units: seq<Unit>)
    ensures |Decode(held, units).out| == |units| + 1 <==> TooLong(held.Some?, units)
    ensures |Decode(held, units).out| <= |units| + 1
  {
    OutputLength(held, units);
    HeldExactly(held, units);
    PairsExactly(held, units);
  }

  // ---- against RFC 2781 ----------------------------------------------------

  /** Section 2.2: every high surrogate directly before a low one is its partner. */
  function Standard(units: seq<Unit>): (s: seq<CodePoint>) {
    if |units| == 0 then []
    else if |units| >= 2 && High(units[0]) && Low(units[1])
    then [Combined(units[0], units[1])] + Standard(units[2..])
    else [units[0]] + Standard(units[1..])
  }

  /** Everything decoded, with what is held passed on at the end. */
  function Flushed(held: Held, units: seq<Unit>): seq<CodePoint> {
    Decode(held, units).out + Waiting(Decode(held, units).held)
  }

  /** How many high surrogates the units start with. */
  function LeadingHighs(units: seq<Unit>): (n: nat)
    ensures n <= |units|
  {
    if |units| > 0 && High(units[0]) then 1 + LeadingHighs(units[1..]) else 0
  }

  /** Every run of high surrogates before a low one is odd in length; a caller
      can check this on the input. */
  predicate OddRuns(units: seq<Unit>)
    decreases |units|
  {
    var n := LeadingHighs(units);
    && (0 < n < |units| && Low(units[n]) ==> n % 2 == 1)
    && (n < |units| ==> OddRuns(units[n + 1..]))
  }

  /** Two highs in a row go through as they are, and so does one before anything
      but a surrogate. */
  lemma FlushedUnfolds(units: seq<Unit>)
    ensures |units| == 1 ==> Flushed(None, units) == units
    ensures |units| >= 1 && !High(units[0]) ==> Flushed(None, units) == [units[0]] + Flushed(None, units[1..])
    ensures |units| >= 2 && High(units[0]) && Low(units[1]) ==>
              Flushed(None, units) == [Combined(units[0], units[1])] + Flushed(None, units[2..])
    ensures |units| >= 2 && High(units[0]) && !Low(units[1]) ==>
              Flushed(None, units) == units[..2] + Flushed(None, units[2..])
  {
    if |units| >= 1 {
      var held := Next(None, units[0]).held;
      if |units| == 1 {
        assert Decode(held, units[1..]) == Decoded([], held);
        assert Next(None, units[0]).out + Waiting(held) == units;
      }
      if |units| >= 2 {
        assert units[1..][1..] == units[2..];
        var second := Next(held, units[1]);
        assert Decode(held, units[1..]) ==
          Decoded(second.out + Decode(second.held, units[2..]).out, Decode(second.held, units[2..]).held);
      }
    }
  }

  /** For all units: the decoder is the standard one exactly on odd runs. */
  lemma {:induction false} StandardExactly(units: seq<Unit>)
    ensures Flushed(None, units) == Standard(units) <==> OddRuns(units)
    decreases |units|
  {
    hide Flushed, Combined;
    FlushedUnfolds(units);
    if |units| >= 1 {
      ShortRun(units);
    }
    if |units| >= 2 && High(units[0]) && High(units[1]) {
      LongRun(units);
    }
    hide OddRuns;
    if |units| == 0 {
      EmptyInput(units);
    } else if |units| == 1 {
      SingleUnit(units);
    } else if !High(units[0]) {
      StandardExactly(units[1..]);
      Cons(units[0], Flushed(None, units[1..]), Standard(units[1..]));
    } else if Low(units[1]) {
      StandardExactly(units[2..]);
      Cons(Combined(units[0], units[1]), Flushed(None, units[2..]), Standard(units[2..]));
    } else {
      StandardExactly(units[2..]);
      TwoPassed(units);
    }
  }

  /** For all surrogates: of two high ones the first takes the second along. */
  lemma TwoHighsDiffer(g: Unit, h: Unit, low: Unit)
    requires High(g) && High(h) && Low(low)
    ensures !OddRuns([g, h, low])
    ensures Flushed(None, [g, h, low]) == [g, h, low] && Standard([g, h, low]) == [g, Combined(h, low)]
  {
    var units := [g, h, low];
    assert units[1..] == [h, low] && units[2..] == [low] && units[1..][2..] == [] && units[2..][1..] == [];
    LongRun(units);
    FlushedUnfolds(units);
    FlushedUnfolds(units[2..]);
    assert Standard(units) == [g] + Standard(units[1..]);
    assert Standard(units[1..]) == [Combined(h, low)] + Standard([]);
  }

  lemma EmptyInput(units: seq<Unit>)
    requires |units| == 0
    ensures Flushed(None, units) == [] && OddRuns(units)
  {
  }

  lemma SingleUnit(units: seq<Unit>)
    requires |units| == 1
    ensures Standard(units) == units && OddRuns(units)
  {
    assert Standard(units) == [units[0]] + Standard([]);
    assert OddRuns([]);
  }

  lemma Cons(x: CodePoint, a: seq<CodePoint>, b: seq<CodePoint>)
    ensures [x] + a == [x] + b <==> a == b
  {
    assert ([x] + a)[1..] == a && ([x] + b)[1..] == b;
  }

  lemma ShortRun(units: seq<Unit>)
    requires |units| >= 1
    ensures !High(units[0]) ==> (OddRuns(units) <==> OddRuns(units[1..]))
    ensures |units| >= 2 && High(units[0]) && !High(units[1]) ==> (OddRuns(units) <==> OddRuns(units[2..]))
  {
    var n := LeadingHighs(units);
    if !High(units[0]) {
      assert n == 0;
    } else if |units| >= 2 && !High(units[1]) {
      assert LeadingHighs(units[1..]) == 0 && n == 1;
      assert units[n + 1..] == units[2..];
    }
  }

  lemma LongRun(units: seq<Unit>)
    requires |units| >= 2 && High(units[0]) && High(units[1])
    ensures |units| >= 3 && Low(units[2]) ==> !OddRuns(units)
    ensures (|units| >= 3 ==> !Low(units[2])) ==> (OddRuns(units) <==> OddRuns(units[2..]))
  {
    hide OddRuns, LeadingHighs;
    var rest, n := units[2..], LeadingHighs(units[2..]);
    TwoMoreHighs(units);
    RunsUnfold(units);
    RunsUnfold(rest);
    if n < |rest| {
      assert units[n + 2 + 1..] == rest[n + 1..] && units[n + 2] == rest[n];
    }
    NotLeading(rest);
  }

  lemma TwoMoreHighs(units: seq<Unit>)
    requires |units| >= 2 && High(units[0]) && High(units[1])
    ensures LeadingHighs(units) == 2 + LeadingHighs(units[2..])
  {
    assert units[1..][1..] == units[2..];
    assert LeadingHighs(units[1..]) == 1 + LeadingHighs(units[2..]);
  }

  lemma NotLeading(units: seq<Unit>)
    ensures |units| > 0 && !High(units[0]) ==> LeadingHighs(units) == 0
    ensures |units| > 0 && High(units[0]) ==> LeadingHighs(units) > 0
  {
  }

  lemma RunsUnfold(units: seq<Unit>)
    ensures var n := LeadingHighs(units);
            OddRuns(units) <==>
              && (0 < n < |units| && Low(units[n]) ==> n % 2 == 1)
              && (n < |units| ==> OddRuns(units[n + 1..]))
  {
    hide LeadingHighs, Low;
  }

  /** Two units passed on; the standard decoder parts company if the second was
      half of a pair. */
  lemma TwoPassed(units: seq<Unit>)
    requires |units| >= 2 && High(units[0]) && !Low(units[1])
    requires Flushed(None, units) == units[..2] + Flushed(None, units[2..])
    ensures |units| >= 3 && High(units[1]) && Low(units[2]) ==> Flushed(None, units) != Standard(units)
    ensures !(|units| >= 3 && High(units[1]) && Low(units[2])) ==>
              (Flushed(None, units) == Standard(units) <==> Flushed(None, units[2..]) == Standard(units[2..]))
  {
    hide Flushed, Combined;
    var tail, rest := Standard(units[2..]), units[2..];
    assert units[1..][1..] == rest;
    assert Standard(units) == [units[0]] + Standard(units[1..]);
    if |units| >= 3 && High(units[1]) && Low(units[2]) {
      assert Standard(units)[1] == Combined(units[1], units[2]) > 0xFFFF by { CombinedIsAstral(units[1], units[2]); }
      assert Flushed(None, units)[1] == units[1];
    } else {
      assert Standard(units) == [units[0]] + ([units[1]] + tail);
      assert units[..2] + Flushed(None, rest) == [units[0]] + ([units[1]] + Flushed(None, rest));
      Cons(units[1], Flushed(None, rest), tail);
      Cons(units[0], [units[1]] + Flushed(None, rest), [units[1]] + tail);
    }
  }

  lemma CombinedIsAstral(high: Unit, low: Unit)
    requires High(high) && Low(low)
    ensures Combined(high, low) > 0xFFFF
  {
  }

  // ---- the code ------------------------------------------------------------

  const CHUNK_SIZE: nat := 131072

  class Decoder {
    /** 0 when nothing is held. */
    var interim: Unit

    ghost predicate Valid()
      reads this
    {
      interim == 0 || High(interim)
    }

    ghost function Holding(): Held
      requires Valid()
      reads this
    {
      if interim == 0 then None else Some(interim)
    }

    constructor ()
      ensures Valid() && Holding() == None
    {
      interim := 0;
    }

    method Clear()
      modifies this
      ensures Valid() && Holding() == None
    {
      interim := 0;
    }

    /** Writes past the end of the typed array are dropped, but counted. */
    method DecodeChunk(units: seq<Unit>, target: array<CodePoint>) returns (n: nat)
      requires Valid()
      modifies this, target
      ensures Valid()
      ensures var d := Decode(old(Holding()), units);
              n == |d.out| && Holding() == d.held && Written(target[..], d.out)
    {
      hide Next, Combined, Written;
      assert units[0..] == units;
      if |units| == 0 {
        Nothing(target[..]);
        return 0;
      }
      ghost var out: seq<CodePoint> := [];
      ghost var start := Holding();
      Nothing(target[..]);
      n := 0;
      var o := 0;
      if interim != 0 {
        n, out := Pair(interim, units[0], target, n, out);
        NextHolds(interim, units[0]);
        interim := 0;
        o := 1;
      }
      assert out == if start.Some? then Next(start, units[0]).out else [];
      n := Rest(units, o, target, n, out);
      assert out + Decode(None, units[o..]).out == Decode(start, units).out;
    }

    method Rest(units: seq<Unit>, first: nat, target: array<CodePoint>, count: nat, ghost before: seq<CodePoint>)
      returns (n: nat)
      requires interim == 0 && first <= |units| && count == |before| && Written(target[..], before)
      modifies this, target
      ensures Valid()
      ensures var d := Decode(None, units[first..]);
              n == |before + d.out| && Holding() == d.held && Written(target[..], before + d.out)
    {
      hide Next, Combined, Written, Decode;
      var o := first;
      ghost var want, out := Decode(None, units[first..]), before;
      n := count;
      assert before + want.out == out + Decode(None, units[o..]).out;
      while o < |units|
        invariant 0 <= o <= |units| && n == |out| && interim == 0 && Written(target[..], out)
        invariant before + want.out == out + Decode(None, units[o..]).out
        invariant want.held == Decode(None, units[o..]).held
        modifies this, target
      {
        var s := units[o];
        DecodeUnfolds(units, o);
        if High(s) {
          o := o + 1;
          if o >= |units| {
            interim := s;
            assert out + [] == out;
            return n;
          }
          Regroup(out, Next(Some(s), units[o]).out, Decode(None, units[o + 1..]).out);
          n, out := Pair(s, units[o], target, n, out);
        } else {
          Regroup(out, [s], Decode(None, units[o + 1..]).out);
          n, out := Store(target, n, out, s);
        }
        o := o + 1;
      }
      assert Decode(None, units[o..]) == Decoded([], None) by { DecodeEnd(units[o..]); }
      assert out + [] == out;
    }

    method Pair(s: Unit, a: Unit, target: array<CodePoint>, i: nat, ghost out: seq<CodePoint>)
      returns (n: nat, ghost more: seq<CodePoint>)
      requires High(s) && i == |out| && Written(target[..], out)
      modifies target
      ensures more == out + Next(Some(s), a).out && n == |more| && Written(target[..], more)
    {
      hide Combined, Written;
      if Low(a) {
        n, more := Store(target, i, out, Combined(s, a));
      } else {
        n, more := Store(target, i, out, s);
        n, more := Store(target, n, more, a);
        assert out + [s] + [a] == out + [s, a];
      }
    }

    method Store(target: array<CodePoint>, i: nat, ghost out: seq<CodePoint>, c: CodePoint)
      returns (n: nat, ghost more: seq<CodePoint>)
      requires i == |out| && Written(target[..], out)
      modifies target
      ensures more == out + [c] && n == |more| && Written(target[..], more)
    {
      if i < target.Length {
        target[i] := c;
      }
      n, more := i + 1, out + [c];
    }
  }

  ghost predicate Written(cells: seq<CodePoint>, out: seq<CodePoint>) {
    forall k :: 0 <= k < |out| && k < |cells| ==> cells[k] == out[k]
  }

  lemma WrittenIs(cells: seq<CodePoint>, out: seq<CodePoint>)
    requires Written(cells, out)
    ensures |out| <= |cells| ==> cells[..|out|] == out
  {
  }

  lemma DecodeNothing(held: Held)
    ensures Decode(held, []) == Decoded([], held)
  {
  }

  lemma Nothing(cells: seq<CodePoint>)
    ensures Written(cells, [])
  {
  }

  lemma NextHolds(high: Unit, u: Unit)
    requires High(high)
    ensures Next(Some(high), u).held == None
  {
  }

  lemma DecodeEnd(units: seq<Unit>)
    requires |units| == 0
    ensures Decode(None, units) == Decoded([], None)
  {
  }

  lemma DecodeUnfolds(units: seq<Unit>, o: nat)
    requires o < |units|
    ensures !High(units[o]) ==>
              var rest := Decode(None, units[o + 1..]);
              Decode(None, units[o..]) == Decoded([units[o]] + rest.out, rest.held)
    ensures High(units[o]) && o + 1 == |units| ==> Decode(None, units[o..]) == Decoded([], Some(units[o]))
    ensures High(units[o]) && o + 1 < |units| ==>
              var two := Next(Some(units[o]), units[o + 1]).out;
              var rest := Decode(None, units[o + 2..]);
              Decode(None, units[o..]) == Decoded(two + rest.out, rest.held)
  {
    assert units[o..][1..] == units[o + 1..];
    if High(units[o]) && o + 1 < |units| {
      assert units[o + 1..][1..] == units[o + 2..];
      assert Next(None, units[o]) == Decoded([], Some(units[o]));
      var two, rest := Next(Some(units[o]), units[o + 1]).out, Decode(None, units[o + 2..]);
      assert Decode(Some(units[o]), units[o + 1..]) == Decoded(two + rest.out, rest.held);
    }
  }

  /** The part of InputHandler.parse that feeds strings to the decoder. */
  class Input {
    var parseBuffer: array<CodePoint>
    const decoder: Decoder

    ghost predicate Valid()
      reads this, decoder
    {
      decoder.Valid() && parseBuffer.Length >= 4096
    }

    constructor ()
      ensures Valid() && fresh(parseBuffer) && fresh(decoder) && decoder.Holding() == None
      ensures parseBuffer.Length == 4096
    {
      parseBuffer := new CodePoint[4096];
      decoder := new Decoder();
    }

    /** What the parser is given, piece by piece: the first `n` cells of the
        buffer, of which those beyond its end do not exist. */
    method Parse(data: seq<Unit>) returns (pieces: seq<seq<CodePoint>>, lost: bool)
      requires Valid()
      modifies this, decoder, parseBuffer
      ensures Valid() && (parseBuffer == old(parseBuffer) || fresh(parseBuffer))
      ensures parseBuffer.Length == BufferFor(old(parseBuffer.Length), data)
      ensures parseBuffer.Length == Max(old(parseBuffer.Length), Min(|data|, 131072))
      ensures var d := Decode(old(decoder.Holding()), data);
              decoder.Holding() == d.held && (lost <==> Concat(pieces) != d.out) && |Concat(pieces)| <= |d.out|
      ensures lost <==> Loses(old(decoder.Holding()).Some?, data, parseBuffer.Length)
    {
      if parseBuffer.Length < |data| && parseBuffer.Length < CHUNK_SIZE {
        parseBuffer := new CodePoint[Min(|data|, CHUNK_SIZE)];
      }
      pieces, lost := ParsePieces(data);
    }

    method ParsePieces(data: seq<Unit>) returns (pieces: seq<seq<CodePoint>>, lost: bool)
      requires Valid() && parseBuffer.Length >= Min(|data|, CHUNK_SIZE)
      modifies decoder, parseBuffer
      ensures Valid()
      ensures var d := Decode(old(decoder.Holding()), data);
              decoder.Holding() == d.held && (lost <==> Concat(pieces) != d.out) && |Concat(pieces)| <= |d.out|
      ensures lost <==> Loses(old(decoder.Holding()).Some?, data, parseBuffer.Length)
    {
      hide Decode, TooLong, HeldAfter, Overruns, Piece;
      pieces, lost := [], false;
      DecodeNothing(decoder.Holding());
      ghost var start, i := decoder.Holding(), 0;
      var n := 0;
      while n < |data|
        invariant 0 <= i && n == Min(i * CHUNK_SIZE, |data|)
        invariant Valid()
        invariant var d := Decode(start, data[..n]);
                  decoder.Holding() == d.held && |Concat(pieces)| <= |d.out|
                  && (lost <==> Concat(pieces) != d.out) && (lost <==> |Concat(pieces)| < |d.out|)
        invariant lost <==> exists k: nat :: k < i && Overruns(start.Some?, data, parseBuffer.Length, k)
        modifies decoder, parseBuffer
      {
        var o := Min(n + CHUNK_SIZE, |data|);
        OverrunMeans(start.Some?, data, parseBuffer.Length, i);
        DecodeAppend(start, data[..n], data[n..o]);
        assert data[..n] + data[n..o] == data[..o];
        HeldExactly(start, data[..n]);
        var piece, over := DecodePiece(data[n..o]);
        ConcatSnoc(pieces, piece);
        pieces := pieces + [piece];
        lost := lost || over;
        n, i := o, i + 1;
      }
      assert data[..n] == data;
      OverrunsInside(start.Some?, data, parseBuffer.Length);
    }

    method DecodePiece(chunk: seq<Unit>) returns (piece: seq<CodePoint>, over: bool)
      requires Valid() && |chunk| <= parseBuffer.Length
      modifies decoder, parseBuffer
      ensures Valid()
      ensures var d := Decode(old(decoder.Holding()), chunk);
              decoder.Holding() == d.held && |piece| <= |d.out|
              && (over <==> piece != d.out) && (over <==> |piece| < |d.out|)
      ensures over <==> |chunk| == parseBuffer.Length && TooLong(old(decoder.Holding()).Some?, chunk)
    {
      hide Decode, Written, TooLong;
      ghost var before := decoder.Holding();
      TooLongExactly(before, chunk);
      var count := decoder.DecodeChunk(chunk, parseBuffer);
      piece := parseBuffer[..Min(count, parseBuffer.Length)];
      WrittenIs(parseBuffer[..], Decode(before, chunk).out);
      over := count > parseBuffer.Length;
    }
  }

  /** The buffer grows with the input up to the size of a piece, and never shrinks. */
  function BufferFor(length: nat, data: seq<Unit>): (size: nat)
    ensures size >= length && size >= Min(|data|, CHUNK_SIZE)
  {
    if length < |data| && length < CHUNK_SIZE then Min(|data|, CHUNK_SIZE) else length
  }

  function Piece(data: seq<Unit>, k: nat): seq<Unit>
    requires k * CHUNK_SIZE <= |data|
  {
    data[k * CHUNK_SIZE..Min(k * CHUNK_SIZE + CHUNK_SIZE, |data|)]
  }

  /** Piece k is as long as the buffer and its output one longer: it is entered with
      a unit held, pairs nothing, and leaves nothing held. */
  ghost predicate Overruns(held: bool, data: seq<Unit>, size: nat, k: nat) {
    && k * CHUNK_SIZE < |data| && |Piece(data, k)| == size
    && TooLong(HeldAfter(held, data[..k * CHUNK_SIZE]), Piece(data, k))
  }

  lemma OverrunMeans(held: bool, data: seq<Unit>, size: nat, k: nat)
    requires k * CHUNK_SIZE < |data|
    ensures var n, o := k * CHUNK_SIZE, Min(k * CHUNK_SIZE + CHUNK_SIZE, |data|);
            Overruns(held, data, size, k) <==> o - n == size && TooLong(HeldAfter(held, data[..n]), data[n..o])
  {
  }

  lemma OverrunsInside(held: bool, data: seq<Unit>, size: nat)
    ensures forall k: nat :: Overruns(held, data, size, k) ==> k * CHUNK_SIZE < |data|
  {
  }

  ghost predicate Loses(held: bool, data: seq<Unit>, size: nat) {
    exists k: nat :: Overruns(held, data, size, k)
  }

  /** Text without surrogates, as long as the buffer, behind a lone high one. */
  lemma TextOverruns(data: seq<Unit>)
    requires 0 < |data| <= CHUNK_SIZE && forall i :: 0 <= i < |data| ==> !High(data[i]) && !Low(data[i])
    ensures Loses(true, data, |data|)
  {
    assert Piece(data, 0) == data && data[..0 * CHUNK_SIZE] == [];
    assert Overruns(true, data, |data|, 0);
  }

  /** A high surrogate at the end of one write and 4096 letters in the next: the
      last letter never reaches the parser. */
  method LetterIsLost() returns (pieces: seq<seq<CodePoint>>, lost: bool)
    ensures lost
  {
    var input := new Input();
    DecodeOneHigh(0xD800);
    pieces, lost := input.Parse([0xD800]);
    var letters := seq(4096, i => 97);
    TextOverruns(letters);
    pieces, lost := input.Parse(letters);
  }

  lemma DecodeOneHigh(u: Unit)
    requires High(u)
    ensures Decode(None, [u]).held == Some(u)
  {
    assert [u][1..] == [];
    assert Decode(Some(u), []).held == Some(u);
  }

  /** One unit too many: a held surrogate in front of a chunk as long as the
      buffer, with no pair in it. */
  lemma {:induction false} LostUnit(n: nat)
    ensures |Decode(Some(0xD800), seq(n + 1, i => 97)).out| == n + 2
  {
    var all := seq(n + 1, i => 97);
    if n == 0 {
      assert Decode(None, all[1..]) == Decoded([], None);
    } else {
      PlainText(n);
      assert all[1..] == seq(n, i => 97);
    }
  }

  lemma {:induction false} PlainText(n: nat)
    ensures Decode(None, seq(n, i => 97)) == Decoded(seq(n, i => 97), None)
  {
    if n > 0 {
      PlainText(n - 1);
      assert seq<Unit>(n, i => 97)[1..] == seq<Unit>(n - 1, i => 97);
    }
  }
}
