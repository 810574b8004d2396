// What whole escape sequences do to the parser of EscapeParser.dfy, for all of their
// contents: the sequences that ECMA-48 and DEC terminals define, read off as codes
// and not as rows of the transition table.

module EscapeSequences {
  import opened Common
  import opened EscapeParser

  // ---- one code, in every state --------------------------------------------

  /** The codes below 32 other than CAN, SUB and ESC: run at once outside strings, also
      in the middle of a sequence, which goes on. BEL ends an OSC string. */
  lemma ControlCode(p: Config, c: nat)
    requires Sized(p.params) && c < 32 && c != 24 && c != 26 && c != 27
    ensures p.state <= 6 ==> Step(p, c) == (p, [ExecuteEv(c)])
    ensures p.state == 7 || 9 <= p.state <= 12 || (p.state == 8 && c != 7) ==> Step(p, c) == (p, [])
    ensures p.state == 8 && c == 7 ==> Step(p, c) == (Fresh(p, GROUND), [OscEndEv(true)])
    ensures p.state == 13 ==> Step(p, c) == (p, [DcsPutEv(c)])
  {
  }

  /** What the end of a string emits: nothing outside one. */
  function Ended(state: StateId, success: bool): seq<Event> {
    if state == 8 then [OscEndEv(success)] else if state == 13 then [UnhookEv(success)] else []
  }

  /** CAN and SUB end whatever is going on, a string without success. */
  lemma Cancelled(p: Config, c: nat)
    requires Sized(p.params) && (c == 24 || c == 26)
    ensures Step(p, c).0.state == GROUND
    ensures Step(p, c).1 == if p.state == 8 || p.state == 13 then Ended(p.state, false) else [ExecuteEv(c)]
    ensures p.state != 8 && p.state != 13 ==> Step(p, c).0 == p.(state := GROUND)
    ensures p.state == 8 || p.state == 13 ==> Step(p, c).0 == Fresh(p, GROUND)
  {
  }

  /** ESC starts a sequence from anywhere, and ends a string. */
  lemma Escaped(p: Config)
    requires Sized(p.params)
    ensures Step(p, 27) == (Fresh(p, 1), Ended(p.state, true))
  {
  }

  /** The codes 128 to 159. An introducer inside a string leaves the string unended. */
  lemma HighControl(p: Config, c: nat)
    requires Sized(p.params) && 128 <= c < 160
    ensures c == 156 && p.state != 8 && p.state != 13 ==> Step(p, c) == (p.(state := GROUND), [])
    ensures c == 156 && (p.state == 8 || p.state == 13) ==> Step(p, c) == (Fresh(p, GROUND), Ended(p.state, true))
    ensures c == 155 ==> Step(p, c) == (Fresh(p, 3), [])
    ensures c == 144 ==> Step(p, c) == (Fresh(p, 9), [])
    ensures c == 157 ==> Step(p, c) == (p.(state := 8), [OscStartEv])
    ensures c == 152 || c == 158 || c == 159 ==> Step(p, c) == (p.(state := 7), [])
    ensures c < 144 || 144 < c < 152 || c == 153 || c == 154 ==>
              Step(p, c) == (p.(state := GROUND), [ExecuteEv(c)])
  {
  }

  /** DEL, and everything from 160 on. */
  lemma BeyondAscii(p: Config, c: nat)
    requires Sized(p.params) && (c == 127 || c >= 160)
    ensures p.state == 8 ==> Step(p, c) == (p, [OscPutEv(c)])
    ensures p.state == 6 || p.state == 11 ==> Step(p, c) == (p, [])
    ensures c == 127 && p.state != 0 && p.state != 8 ==> Step(p, c) == (p, [])
    ensures c >= 160 && p.state == 0 ==> Step(p, c) == (p, [PrintEv(c)])
    ensures c >= 160 && p.state == 13 ==> Step(p, c) == (p, [DcsPutEv(c)])
    ensures (if c == 127 then p.state == 0
             else p.state != 0 && p.state != 6 && p.state != 8 && p.state != 11 && p.state != 13) ==>
              Step(p, c) == (p.(state := GROUND), [ErrorEv(c, p.state, p.collect, p.params)])
  {
  }

  lemma PrintedCode(p: Config, c: nat)
    requires Sized(p.params) && p.state == GROUND && 32 <= c <= 126
    ensures Step(p, c) == (p, [PrintEv(c)])
  {
  }

  // ---- feeding in parts ----------------------------------------------------

  lemma FeedTwo(p: Config, a: seq<nat>, q: Config, ev: seq<Event>, b: seq<nat>, r: Config, more: seq<Event>)
    requires Sized(p.params) && Sized(q.params) && Feed(p, a) == (q, ev) && Feed(q, b) == (r, more)
    ensures Feed(p, a + b) == (r, ev + more)
  {
    FeedAppend(p, a, b);
  }

  lemma FeedCode(p: Config, a: seq<nat>, q: Config, ev: seq<Event>, c: nat)
    requires Sized(p.params) && Sized(q.params) && Feed(p, a) == (q, ev)
    ensures Feed(p, a + [c]) == (Step(q, c).0, ev + Step(q, c).1)
  {
    hide Step, Feed;
    FeedOne(q, c);
    FeedTwo(p, a, q, ev, [c], Step(q, c).0, Step(q, c).1);
  }

  lemma FeedFirst(p: Config, c: nat, rest: seq<nat>)
    requires Sized(p.params)
    ensures var (q, ev) := Step(p, c);
            Feed(p, [c] + rest) == (Feed(q, rest).0, ev + Feed(q, rest).1)
  {
    hide Step;
    assert ([c] + rest)[1..] == rest;
  }

  lemma NoDelJoins(p: Config, a: seq<nat>, b: seq<nat>)
    requires Sized(p.params) && NoDelInPayload(p, a) && NoDelInPayload(Feed(p, a).0, b)
    ensures NoDelInPayload(p, a + b)
  {
    hide Feed;
    forall k | 0 <= k < |a + b| && (a + b)[k] == DEL ensures Feed(p, (a + b)[..k]).0.state != DCS_PASSTHROUGH {
      if k < |a| {
        assert (a + b)[..k] == a[..k];
      } else {
        assert (a + b)[..k] == a + b[..k - |a|];
        FeedAppend(p, a, b[..k - |a|]);
      }
    }
  }

  lemma NoDelAtAll(p: Config, cs: seq<nat>)
    requires Sized(p.params) && DEL !in cs
    ensures NoDelInPayload(p, cs)
  {
  }

  // ---- introducers ---------------------------------------------------------

  /** ESC and a letter, or the single code that stands for both. */
  predicate Introduces(intro: seq<nat>, letter: nat) {
    intro == [27, letter] || intro == [letter + 64]
  }

  lemma FreshSized(p: Config, s: StateId)
    ensures Sized(Fresh(p, s).params)
  {
  }

  /** What the introducer ends: only ESC ends a string. */
  function Left(p: Config, intro: seq<nat>): seq<Event>
    requires |intro| > 0
  {
    if intro[0] == 27 then Ended(p.state, true) else []
  }

  lemma LetterOpens(p: Config, letter: nat)
    requires Sized(p.params) && p.state == 1
    ensures letter == 91 ==> Step(p, letter) == (Fresh(p, 3), [])
    ensures letter == 80 ==> Step(p, letter) == (Fresh(p, 9), [])
    ensures letter == 93 ==> Step(p, letter) == (p.(state := 8), [OscStartEv])
    ensures letter in {88, 94, 95} ==> Step(p, letter) == (p.(state := 7), [])
  {
  }

  lemma Introduced(p: Config, intro: seq<nat>, letter: nat)
    requires Sized(p.params) && Introduces(intro, letter)
    ensures letter == 91 ==> Feed(p, intro) == (Fresh(p, 3), Left(p, intro))
    ensures letter == 80 ==> Feed(p, intro) == (Fresh(p, 9), Left(p, intro))
    ensures letter == 93 ==> Feed(p, intro).0.state == 8 && Feed(p, intro).1 == Left(p, intro) + [OscStartEv]
    ensures letter in {88, 94, 95} ==> Feed(p, intro).0.state == 7 && Feed(p, intro).1 == Left(p, intro)
  {
    var q := Fresh(p, 1);
    FreshSized(p, 1);
    Escaped(p);
    if letter in {91, 80, 93, 88, 94, 95} {
      LetterOpens(q, letter);
      HighControl(p, letter + 64);
    }
    hide Step;
    if intro == [27, letter] {
      FeedFirst(p, 27, [letter]);
      FeedOne(q, letter);
      assert [27] + [letter] == intro;
      assert Left(p, intro) + [] == Left(p, intro);
    } else {
      FeedOne(p, letter + 64);
      assert [] + [OscStartEv] == [OscStartEv];
    }
  }

  // ---- OSC -----------------------------------------------------------------

  /** What may stand in an OSC string. */
  predicate InOsc(c: nat) {
    c >= 160 || 28 <= c <= 127 || c == 25 || (c < 24 && c != 7)
  }

  /** The codes the handler gets: controls are left out. */
  function Payload(cs: seq<nat>): seq<nat> {
    if |cs| == 0 then [] else (if cs[0] < 32 then [] else [cs[0]]) + Payload(cs[1..])
  }

  lemma {:induction false} OscBody(p: Config, cs: seq<nat>)
    requires Sized(p.params) && p.state == 8 && forall i :: 0 <= i < |cs| ==> InOsc(cs[i])
    ensures Feed(p, cs) == (p, OscPuts(Payload(cs))) && NoDelInPayload(p, cs)
    decreases |cs|
  {
    if |cs| > 0 {
      OscBody(p, cs[1..]);
      assert Step(p, cs[0]) == (p, if cs[0] < 32 then [] else [OscPutEv(cs[0])]);
      hide Step;
      assert OscPuts(Payload(cs)) == (if cs[0] < 32 then [] else [OscPutEv(cs[0])]) + OscPuts(Payload(cs[1..]));
      assert cs == [cs[0]] + cs[1..];
      FeedOne(p, cs[0]);
      NoDelOne(p, cs[0]);
      NoDelJoins(p, [cs[0]], cs[1..]);
    }
  }

  lemma NoDelOne(p: Config, c: nat)
    requires Sized(p.params) && p.state != DCS_PASSTHROUGH
    ensures NoDelInPayload(p, [c])
  {
    assert [c][..0] == [];
  }

  function OscEvents(cs: seq<nat>, end: nat): seq<Event> {
    [OscStartEv] + OscPuts(Payload(cs)) + [OscEndEv(end != 24 && end != 26)]
  }

  /** From any state, for all contents: the string starts, its codes are put one by one,
      and BEL, ST, ESC, CAN or SUB ends it, the last two without success. After ESC a
      sequence is open. */
  lemma OscString(p: Config, intro: seq<nat>, cs: seq<nat>, end: nat)
    requires Sized(p.params) && Introduces(intro, 93)
    requires (forall i :: 0 <= i < |cs| ==> InOsc(cs[i])) && end in {7, 156, 27, 24, 26}
    ensures Feed(p, intro + cs + [end])
         == (Fresh(p, if end == 27 then 1 else GROUND), Left(p, intro) + OscEvents(cs, end))
  {
    Introduced(p, intro, 93);
    var q, before := Feed(p, intro).0, Left(p, intro);
    OscBody(q, cs);
    OscEnds(q, end);
    hide Step, Feed;
    FeedTwo(p, intro, q, before + [OscStartEv], cs, q, OscPuts(Payload(cs)));
    FeedCode(p, intro + cs, q, before + [OscStartEv] + OscPuts(Payload(cs)), end);
    hide OscPuts, Payload, Left;
    Regrouped(before, [OscStartEv], OscPuts(Payload(cs)), [OscEndEv(end != 24 && end != 26)]);
  }

  lemma Regrouped(a: seq<Event>, b: seq<Event>, c: seq<Event>, d: seq<Event>)
    ensures a + b + c + d == a + (b + c + d)
  {
  }

  lemma OscEnds(q: Config, end: nat)
    requires Sized(q.params) && q.state == 8 && end in {7, 156, 27, 24, 26}
    ensures Step(q, end) == (Fresh(q, if end == 27 then 1 else GROUND), [OscEndEv(end != 24 && end != 26)])
  {
  }

  /** And so it is however the string is cut into chunks. */
  lemma OscStringInChunks(p: Config, intro: seq<nat>, cs: seq<nat>, end: nat, chunks: seq<seq<nat>>)
    requires Sized(p.params) && Introduces(intro, 93)
    requires (forall i :: 0 <= i < |cs| ==> InOsc(cs[i])) && end in {7, 156, 27, 24, 26}
    requires Concat(chunks) == intro + cs + [end]
    ensures ParsedInChunks(p, chunks)
         == (Fresh(p, if end == 27 then 1 else GROUND), Left(p, intro) + OscEvents(cs, end))
  {
    Introduced(p, intro, 93);
    var q := Feed(p, intro).0;
    OscBody(q, cs);
    hide Step, Feed, NoDelInPayload, ParsedInChunks;
    NoDelAtAll(p, intro);
    NoDelJoins(p, intro, cs);
    FeedAppend(p, intro, cs);
    NoDelAtAll(q, [end]);
    NoDelJoins(p, intro + cs, [end]);
    OscString(p, intro, cs, end);
    AnyChunkingIsStepwise(p, chunks);
  }

  // ---- parameters with sub-parameters --------------------------------------

  /** One parameter as it is written: digits, and the digits of its sub-parameters. */
  datatype Item = Item(digits: seq<nat>, subs: seq<seq<nat>>)

  function SpelledSubs(subs: seq<seq<nat>>): seq<nat> {
    if |subs| == 0 then [] else [58] + subs[0] + SpelledSubs(subs[1..])
  }

  function Spelled(items: seq<Item>): seq<nat>
    requires |items| > 0
  {
    items[0].digits + SpelledSubs(items[0].subs) + if |items| == 1 then [] else [59] + Spelled(items[1..])
  }

  ghost predicate Digits(it: Item) {
    AreDigits(it.digits) && AllDigits(it.subs)
  }

  /** One parameter as a handler reads it. */
  datatype Arg = Arg(value: int, subs: seq<int>)

  /** A sub-parameter without digits is -1, a parameter 0. */
  function SubValue(digits: seq<nat>): int {
    if |digits| == 0 then -1 else Min(Decimal(digits), 0x7FFF_FFFF)
  }

  function SubValues(subs: seq<seq<nat>>): (vs: seq<int>)
    ensures |vs| == |subs| && forall i :: 0 <= i < |vs| ==> vs[i] == SubValue(subs[i])
  {
    seq(|subs|, i requires 0 <= i < |subs| => SubValue(subs[i]))
  }

  /** The values in order, as many parameters as there are places, and as many
      sub-parameters in all as there is room. */
  function Args(items: seq<Item>, places: nat, room: nat): seq<Arg>
    decreases |items|
  {
    if |items| == 0 || places == 0 then []
    else
      var n := Min(|items[0].subs|, room);
      [Arg(Min(Decimal(items[0].digits), 0x7FFF_FFFF), SubValues(items[0].subs[..n]))]
      + Args(items[1..], places - 1, room - n)
  }

  /** The packed ranges are in order and end where the sub-parameters do. */
  ghost predicate Tidy(p: ParamList) {
    && Sized(p)
    && (forall t {:trigger p.subIdx[t]} :: 0 <= t < |p.subIdx| ==>
          0 <= p.subIdx[t] && p.subIdx[t] / 256 <= p.subIdx[t] % 256 <= |p.subParams|)
    && (|p.params| > 0 ==> p.subIdx[|p.subIdx| - 1] % 256 == |p.subParams|)
    && (|p.params| == 0 ==> |p.subParams| == 0)
    && (p.rejectDigits ==> |p.params| == 32)
    && (p.rejectSubDigits ==> p.rejectDigits || |p.subParams| == 32)
  }

  /** Params.toArray. */
  function ToArgs(p: ParamList): (args: seq<Arg>)
    requires Tidy(p)
    ensures |args| == |p.params|
    ensures forall t :: 0 <= t < |args| ==>
              args[t] == Arg(p.params[t], p.subParams[p.subIdx[t] / 256..p.subIdx[t] % 256])
  {
    seq(|p.params|, t requires 0 <= t < |p.params| =>
      Arg(p.params[t], p.subParams[p.subIdx[t] / 256..p.subIdx[t] % 256]))
  }

  lemma ParamOpened(p: ParamList, digits: seq<nat>)
    requires Tidy(p) && |p.params| < 32 && AreDigits(digits)
    ensures Sized(AddedParam(p, 0))
    ensures var q := AddedCodes(AddedParam(p, 0), digits);
            && Tidy(q) && |q.params| == |p.params| + 1 && q.subParams == p.subParams && !q.rejectDigits
            && ToArgs(q) == ToArgs(p) + [Arg(Min(Decimal(digits), 0x7FFF_FFFF), [])]
  {
    AddedKeepsSizes(p, 59);
    ParamIsItsDecimal(p, digits);
    ParamAppended(p, Min(Decimal(digits), 0x7FFF_FFFF));
    hide Tidy, ToArgs, AddedCodes, Decimal;
  }

  lemma ParamDropped(p: ParamList, digits: seq<nat>)
    requires Tidy(p) && |p.params| == 32 && AreDigits(digits)
    ensures Sized(AddedParam(p, 0))
    ensures var q := AddedCodes(AddedParam(p, 0), digits);
            && Tidy(q) && |q.params| == 32 && q.subParams == p.subParams && q.rejectDigits && ToArgs(q) == ToArgs(p)
  {
    NoMoreParams(p);
    hide Tidy, ToArgs, AddedCodes, Decimal;
    DigitsRejected(AddedParam(p, 0), digits);
  }

  lemma NoMoreParams(p: ParamList)
    requires Tidy(p) && |p.params| == 32
    ensures var q := AddedParam(p, 0);
            Tidy(q) && ToArgs(q) == ToArgs(p) && |q.params| == 32 && q.subParams == p.subParams && q.rejectDigits
  {
    assert ToArgs(AddedParam(p, 0)) == ToArgs(p);
  }

  lemma ParamAppended(p: ParamList, v: int)
    requires Tidy(p) && |p.params| < 32
    ensures var n := |p.subParams|;
            var q := p.(digitIsSub := false, params := p.params + [v], subIdx := p.subIdx + [n * 256 + n]);
            Tidy(q) && ToArgs(q) == ToArgs(p) + [Arg(v, [])] && !q.rejectDigits
  {
    var n := |p.subParams|;
    var q := p.(digitIsSub := false, params := p.params + [v], subIdx := p.subIdx + [n * 256 + n]);
    assert (n * 256 + n) / 256 == n == (n * 256 + n) % 256;
    forall t | 0 <= t < |q.subIdx|
      ensures 0 <= q.subIdx[t] && q.subIdx[t] / 256 <= q.subIdx[t] % 256 <= |q.subParams|
    {
      assert t < |p.subIdx| ==> q.subIdx[t] == p.subIdx[t];
    }
    assert Tidy(q);
    hide Tidy;
    var args, more := ToArgs(p), ToArgs(q);
    forall t | 0 <= t < |more| ensures more[t] == (args + [Arg(v, [])])[t] {
      assert t < |args| ==> q.subIdx[t] == p.subIdx[t] && q.params[t] == p.params[t];
    }
  }

  /** The last parameter gets one more sub-parameter. */
  function WithSub(args: seq<Arg>, v: int): seq<Arg>
    requires |args| > 0
  {
    var last := args[|args| - 1];
    args[|args| - 1 := last.(subs := last.subs + [v])]
  }

  lemma {:induction false} SubDigitsRejected(p: ParamList, digits: seq<nat>)
    requires Sized(p) && AreDigits(digits) && p.digitIsSub && p.rejectSubDigits
    ensures AddedCodes(p, digits) == p
  {
    if |digits| > 0 {
      SubDigitsRejected(p, digits[1..]);
    }
  }

  lemma SubAdded(p: ParamList, digits: seq<nat>)
    requires Tidy(p) && |p.params| > 0 && AreDigits(digits)
    ensures Sized(AddedSubParam(p, -1))
    ensures var q := AddedCodes(AddedSubParam(p, -1), digits);
            && Tidy(q) && |q.params| == |p.params| && q.rejectDigits == p.rejectDigits
            && if p.rejectDigits || |p.subParams| == 32 then ToArgs(q) == ToArgs(p) && q.subParams == p.subParams
               else |q.subParams| == |p.subParams| + 1
                    && ToArgs(q) == WithSub(ToArgs(p), SubValue(digits))
  {
    AddedKeepsSizes(p, 58);
    if p.rejectDigits || |p.subParams| == 32 {
      NoMoreSubs(p);
      hide AddedCodes, Decimal, ToArgs, Tidy;
      SubDigitsRejected(AddedSubParam(p, -1), digits);
    } else {
      assert !p.rejectSubDigits;
      hide AddedCodes, Decimal, ToArgs, Tidy;
      SubParamIsItsDecimal(p, digits);
      SubAppended(p, SubValue(digits));
    }
  }

  lemma NoMoreSubs(p: ParamList)
    requires Tidy(p) && |p.params| > 0 && (p.rejectDigits || |p.subParams| == 32)
    ensures var q := AddedSubParam(p, -1);
            && Tidy(q) && ToArgs(q) == ToArgs(p) && |q.params| == |p.params| && q.subParams == p.subParams
            && q.rejectDigits == p.rejectDigits && q.digitIsSub && q.rejectSubDigits
  {
    assert ToArgs(AddedSubParam(p, -1)) == ToArgs(p);
  }

  function SubParamAdded(p: ParamList, v: int): ParamList
    requires |p.params| == |p.subIdx| > 0
  {
    var last := |p.subIdx| - 1;
    p.(digitIsSub := true, subParams := p.subParams + [v], subIdx := p.subIdx[last := p.subIdx[last] + 1])
  }

  lemma SubKeepsTidy(p: ParamList, v: int)
    requires Tidy(p) && |p.params| > 0 && |p.subParams| < 32 && !p.rejectDigits
    ensures Tidy(SubParamAdded(p, v))
  {
    var q, last := SubParamAdded(p, v), |p.subIdx| - 1;
    OneMoreInRange(p.subIdx[last]);
    forall t | 0 <= t < |q.subIdx|
      ensures 0 <= q.subIdx[t] && q.subIdx[t] / 256 <= q.subIdx[t] % 256 <= |q.subParams|
    {
      assert t < last ==> q.subIdx[t] == p.subIdx[t];
    }
  }

  lemma SubAppended(p: ParamList, v: int)
    requires Tidy(p) && |p.params| > 0 && |p.subParams| < 32 && !p.rejectDigits
    ensures Tidy(SubParamAdded(p, v)) && ToArgs(SubParamAdded(p, v)) == WithSub(ToArgs(p), v)
  {
    SubKeepsTidy(p, v);
    var q := SubParamAdded(p, v);
    var args, more := ToArgs(p), ToArgs(q);
    hide Tidy;
    forall t | 0 <= t < |args| ensures more[t] == WithSub(args, v)[t] {
      SliceGrows(p, v, t);
      var lo, hi := q.subIdx[t] / 256, q.subIdx[t] % 256;
      assert more[t] == Arg(q.params[t], q.subParams[lo..hi]);
    }
  }

  lemma SliceGrows(p: ParamList, v: int, t: nat)
    requires Tidy(p) && t < |p.params| && |p.subParams| < 32
    ensures var lo, hi, q := p.subIdx[t] / 256, p.subIdx[t] % 256, SubParamAdded(p, v);
            && 0 <= lo <= hi <= |p.subParams|
            && (t < |p.params| - 1 ==> q.subIdx[t] == p.subIdx[t] && q.subParams[lo..hi] == p.subParams[lo..hi])
            && (t == |p.params| - 1 ==>
                  && q.subIdx[t] / 256 == lo && q.subIdx[t] % 256 == hi + 1
                  && q.subParams[lo..hi + 1] == p.subParams[lo..hi] + [v])
  {
    var lo, hi, subs := p.subIdx[t] / 256, p.subIdx[t] % 256, p.subParams;
    assert 0 <= p.subIdx[t];
    OneMoreInRange(p.subIdx[t]);
    if t == |p.params| - 1 {
      assert hi == |subs|;
      SuffixSnoc(subs, lo, v);
    } else {
      assert (subs + [v])[lo..hi] == subs[lo..hi];
    }
  }

  lemma SuffixSnoc(s: seq<int>, lo: nat, v: int)
    requires lo <= |s|
    ensures (s + [v])[lo..|s| + 1] == s[lo..|s|] + [v]
  {
  }

  lemma OneMoreInRange(packed: int)
    requires 0 <= packed && packed % 256 < 32
    ensures (packed + 1) / 256 == packed / 256 && (packed + 1) % 256 == packed % 256 + 1
  {
  }

  function WithSubs(args: seq<Arg>, vs: seq<int>): seq<Arg>
    requires |args| > 0
  {
    var last := args[|args| - 1];
    args[|args| - 1 := last.(subs := last.subs + vs)]
  }

  lemma WithSubFirst(args: seq<Arg>, v: int, vs: seq<int>)
    requires |args| > 0
    ensures WithSubs(WithSub(args, v), vs) == WithSubs(args, [v] + vs)
    ensures WithSubs(args, []) == args
  {
    var subs := args[|args| - 1].subs;
    assert subs + [v] + vs == subs + ([v] + vs) && subs + [] == subs;
  }

  /** How many of a parameter's sub-parameters are kept. */
  function Room(p: ParamList, n: nat): (k: nat)
    requires |p.subParams| <= 32
    ensures k <= n
  {
    if p.rejectDigits then 0 else Min(n, 32 - |p.subParams|)
  }

  lemma {:induction false} SubsAdded(p: ParamList, subs: seq<seq<nat>>)
    requires Tidy(p) && |p.params| > 0 && AllDigits(subs)
    ensures var q, k := AddedCodes(p, SpelledSubs(subs)), Room(p, |subs|);
            && Tidy(q) && |q.params| == |p.params| && q.rejectDigits == p.rejectDigits
            && |q.subParams| == |p.subParams| + k && ToArgs(q) == WithSubs(ToArgs(p), SubValues(subs[..k]))
    decreases |subs|
  {
    hide Decimal, AddedSubParam;
    if |subs| == 0 {
      WithSubFirst(ToArgs(p), 0, []);
      assert SubValues(subs[..0]) == [];
    } else {
      var first, rest := subs[0], subs[1..];
      var q, k := AddedCodes(AddedSubParamOf(p), first), Room(p, |subs|);
      SubAdded(p, first);
      OneSubCode(p, first, SpelledSubs(rest));
      assert AllDigits(rest) && SpelledSubs(subs) == [58] + first + SpelledSubs(rest);
      TidySizes(p);
      TidySizes(q);
      hide ToArgs, Tidy, AddedCodes, SubValue, SubValues, WithSub, WithSubs, AllDigits, SpelledSubs;
      SubsAdded(q, rest);
      var r := AddedCodes(q, SpelledSubs(rest));
      SubsJoin(ToArgs(p), ToArgs(q), ToArgs(r), subs, k, Room(q, |rest|));
    }
  }

  lemma SubsJoin(a: seq<Arg>, b: seq<Arg>, c: seq<Arg>, subs: seq<seq<nat>>, k: nat, later: nat)
    requires |a| == |b| > 0 && |subs| > 0 && k <= |subs| && later == if k == 0 then 0 else k - 1
    requires b == if k == 0 then a else WithSub(a, SubValue(subs[0]))
    requires c == WithSubs(b, SubValues(subs[1..][..later]))
    ensures c == WithSubs(a, SubValues(subs[..k]))
  {
    hide SubValue, SubValues, WithSub, WithSubs;
    if k > 0 {
      SubValuesFirst(subs, k);
      WithSubFirst(a, SubValue(subs[0]), SubValues(subs[1..][..later]));
    } else {
      assert subs[1..][..0] == subs[..0];
    }
  }

  lemma SubValuesFirst(subs: seq<seq<nat>>, k: nat)
    requires 0 < k <= |subs|
    ensures SubValues(subs[..k]) == [SubValue(subs[0])] + SubValues(subs[1..][..k - 1])
  {
    hide Decimal;
  }

  function AddedSubParamOf(p: ParamList): (q: ParamList)
    requires Sized(p)
    ensures Sized(q)
  {
    AddedKeepsSizes(p, 58);
    AddedSubParam(p, -1)
  }

  lemma OneSubCode(p: ParamList, digits: seq<nat>, rest: seq<nat>)
    requires Sized(p)
    ensures AddedCodes(p, [58] + digits + rest) == AddedCodes(AddedCodes(AddedSubParamOf(p), digits), rest)
  {
    hide AddedSubParam;
    AddedCodesAppend(p, [58], digits);
    AddedCodesAppend(p, [58] + digits, rest);
    OneAddedCode(p, 58);
  }

  lemma OneAddedCode(p: ParamList, c: nat)
    requires Sized(p)
    ensures Sized(AddedCode(p, c)) && AddedCodes(p, [c]) == AddedCode(p, c)
    ensures AddedCode(p, 58) == AddedSubParam(p, -1) && AddedCode(p, 59) == AddedParam(p, 0)
  {
    AddedKeepsSizes(p, c);
    assert [c][1..] == [];
  }

  lemma ItemAdded(p: ParamList, it: Item)
    requires Tidy(p) && Digits(it)
    ensures Sized(AddedParam(p, 0))
    ensures var q := AddedCodes(AddedParam(p, 0), it.digits + SpelledSubs(it.subs));
            && Tidy(q)
            && if |p.params| == 32 then |q.params| == 32 && ToArgs(q) == ToArgs(p)
               else var n := Min(|it.subs|, 32 - |p.subParams|);
                    && |q.params| == |p.params| + 1 && |q.subParams| == |p.subParams| + n
                    && ToArgs(q) == ToArgs(p) + [Arg(Min(Decimal(it.digits), 0x7FFF_FFFF), SubValues(it.subs[..n]))]
  {
    hide Decimal, AddedParam, ToArgs, Tidy, AddedCodes;
    TidySizes(p);
    if |p.params| < 32 {
      ParamOpened(p, it.digits);
    } else {
      ParamDropped(p, it.digits);
    }
    var q := AddedCodes(AddedParam(p, 0), it.digits);
    AddedCodesAppend(AddedParam(p, 0), it.digits, SpelledSubs(it.subs));
    TidySizes(p);
    TidySizes(q);
    SubsAdded(q, it.subs);
    if |p.params| == 32 {
      assert SubValues(it.subs[..0]) == [];
      WithSubFirst(ToArgs(p), 0, []);
    } else {
      var arg := Arg(Min(Decimal(it.digits), 0x7FFF_FFFF), []);
      var vs := SubValues(it.subs[..Room(q, |it.subs|)]);
      assert WithSubs(ToArgs(p) + [arg], vs) == ToArgs(p) + [arg.(subs := vs)] by {
        assert [] + vs == vs;
      }
    }
  }

  lemma TidySizes(p: ParamList)
    requires Tidy(p)
    ensures Sized(p) && |ToArgs(p)| == |p.params|
    ensures Room(p, 0) == 0
  {
  }

  /** The whole list, from any number of parameters and sub-parameters before it. */
  lemma {:induction false} ItemsAdded(p: ParamList, items: seq<Item>)
    requires Tidy(p) && |items| > 0 && forall i :: 0 <= i < |items| ==> Digits(items[i])
    ensures Sized(AddedParam(p, 0))
    ensures var q := AddedCodes(AddedParam(p, 0), Spelled(items));
            Tidy(q) && ToArgs(q) == ToArgs(p) + Args(items, 32 - |p.params|, 32 - |p.subParams|)
    decreases |items|
  {
    hide Decimal, AddedParam, ToArgs, Tidy, AddedCodes, SpelledSubs, Digits;
    TidySizes(p);
    var first := items[0].digits + SpelledSubs(items[0].subs);
    ItemAdded(p, items[0]);
    var q := AddedCodes(AddedParam(p, 0), first);
    TidySizes(q);
    if |items| == 1 {
      assert first + [] == first;
    } else {
      var rest := items[1..];
      assert forall i :: 0 <= i < |rest| ==> rest[i] == items[i + 1];
      ItemsAdded(q, rest);
      Regroup(first, [59], Spelled(rest));
      AddedCodesAppend(AddedParam(p, 0), first, [59] + Spelled(rest));
      AddedCodesAppend(q, [59], Spelled(rest));
      OneAddedCode(q, 59);
    }
    if |p.params| == 32 {
      assert ToArgs(p) + [] == ToArgs(p);
    }
  }

  lemma {:induction false} SpelledCodes(items: seq<Item>)
    requires |items| > 0 && forall i :: 0 <= i < |items| ==> Digits(items[i])
    ensures forall i :: 0 <= i < |Spelled(items)| ==> ParamCode(Spelled(items)[i])
    decreases |items|
  {
    SubCodes(items[0].subs);
    if |items| > 1 {
      SpelledCodes(items[1..]);
    }
  }

  lemma {:induction false} SubCodes(subs: seq<seq<nat>>)
    requires AllDigits(subs)
    ensures forall i :: 0 <= i < |SpelledSubs(subs)| ==> ParamCode(SpelledSubs(subs)[i])
  {
    if |subs| > 0 {
      SubCodes(subs[1..]);
    }
  }

  // ---- collected codes -----------------------------------------------------

  /** The identifier that a handler is registered for. */
  function Id(so: int, cs: seq<nat>): int
    decreases |cs|
  {
    if |cs| == 0 then so else Id(ShiftIn(so, cs[0]), cs[1..])
  }

  /** The codes as one number, first code highest. */
  function Number(so: int, cs: seq<nat>): int
    decreases |cs|
  {
    if |cs| == 0 then so else Number(256 * so + cs[0], cs[1..])
  }

  ghost predicate Int32Of(v: int, n: int) {
    -0x8000_0000 <= v < 0x8000_0000 && (v - n) % 0x1_0000_0000 == 0
  }

  /** The identifier is that number in 32 bits, with no loss for up to three codes. */
  lemma {:induction false} IdMeans(so: int, n: int, cs: seq<nat>)
    requires Int32Of(so, n) && forall i :: 0 <= i < |cs| ==> cs[i] < 256
    ensures Int32Of(Id(so, cs), Number(n, cs))
    decreases |cs|
  {
    hide ShiftIn, Int32Of;
    if |cs| > 0 {
      ShiftInMeans(so, n, cs[0]);
      IdMeans(ShiftIn(so, cs[0]), 256 * n + cs[0], cs[1..]);
    }
  }

  lemma ShiftInMeans(a: int, n: int, r: nat)
    requires Int32Of(a, n) && r < 256
    ensures Int32Of(ShiftIn(a, r), 256 * n + r)
  {
    var k := (a - n) / 0x1_0000_0000;
    assert 256 * a - 256 * n == 256 * k * 0x1_0000_0000;
    var j := (a * 256 + 0x8000_0000) / 0x1_0000_0000;
    assert ToInt32(a * 256) == a * 256 - j * 0x1_0000_0000;
    assert ShiftIn(a, r) - (256 * n + r) == (256 * k - j) * 0x1_0000_0000;
    var t := (a * 256 + 0x8000_0000) % 0x1_0000_0000;
    assert t == 256 * a + 0x8000_0000 - j * 0x1_0000_0000 == 256 * (a + 0x80_0000 - j * 0x100_0000);
  }

  lemma {:induction false} IdAppend(so: int, a: seq<nat>, b: seq<nat>)
    ensures Id(so, a + b) == Id(Id(so, a), b)
    decreases |a|
  {
    hide ShiftIn;
    if |a| == 0 {
      assert a + b == b;
    } else {
      IdAppend(ShiftIn(so, a[0]), a[1..], b);
      assert (a + b)[1..] == a[1..] + b;
    }
  }

  lemma IdOne(so: int, c: nat)
    ensures Id(so, [c]) == ShiftIn(so, c)
  {
    assert [c][1..] == [];
  }

  predicate Intermediate(c: nat) {
    32 <= c <= 47
  }

  predicate AllIntermediate(cs: seq<nat>) {
    forall i :: 0 <= i < |cs| ==> Intermediate(cs[i])
  }

  /** The state that collects the intermediate codes of each kind of sequence. */
  function Collecting(s: StateId): Option<StateId> {
    if s == 1 || s == 2 then Some(2)
    else if 3 <= s <= 5 then Some(5)
    else if s == 9 || s == 10 || s == 12 then Some(12)
    else None
  }

  lemma {:induction false} Collected(p: Config, cs: seq<nat>)
    requires Sized(p.params) && Collecting(p.state).Some? && AllIntermediate(cs)
    ensures Feed(p, cs) == (p.(state := if |cs| == 0 then p.state else Collecting(p.state).value,
                               collect := Id(p.collect, cs)), [])
    decreases |cs|
  {
    if |cs| > 0 {
      var q := p.(state := Collecting(p.state).value, collect := ShiftIn(p.collect, cs[0]));
      assert Step(p, cs[0]) == (q, []);
      hide Step, ShiftIn;
      Collected(q, cs[1..]);
      assert cs == [cs[0]] + cs[1..];
      FeedFirst(p, cs[0], cs[1..]);
      assert [] + Feed(q, cs[1..]).1 == [];
    }
  }

  // ---- ESC, CSI and DCS ----------------------------------------------------

  /** What may end a sequence of ESC, its intermediates and one more code. */
  predicate EscFinal(cs: seq<nat>, final: nat) {
    48 <= final <= 126 && (|cs| == 0 ==> final !in {80, 88, 91, 93, 94, 95})
  }

  lemma EscEnds(p: Config, cs: seq<nat>, final: nat)
    requires Sized(p.params) && EscFinal(cs, final) && p.state == (if |cs| == 0 then 1 else 2)
    ensures Step(p, final) == (p.(state := GROUND), [EscEv(ShiftIn(p.collect, final))])
  {
  }

  /** From any state: one dispatch, with the intermediates in its identifier. */
  lemma EscSequence(p: Config, cs: seq<nat>, final: nat)
    requires Sized(p.params) && AllIntermediate(cs) && EscFinal(cs, final)
    ensures Feed(p, [27] + cs + [final])
         == (Fresh(p, GROUND).(collect := Id(0, cs)), Ended(p.state, true) + [EscEv(Id(0, cs + [final]))])
  {
    var q := Fresh(p, 1);
    FreshSized(p, 1);
    Escaped(p);
    FeedOne(p, 27);
    Collected(q, cs);
    var r := Feed(q, cs).0;
    EscEnds(r, cs, final);
    IdAppend(0, cs, [final]);
    IdOne(Id(0, cs), final);
    hide Step, Feed, ShiftIn, Id;
    FeedTwo(p, [27], q, Ended(p.state, true), cs, r, []);
    FeedCode(p, [27] + cs, r, Ended(p.state, true) + [], final);
    assert Ended(p.state, true) + [] == Ended(p.state, true);
  }

  predicate Prefix(prefix: seq<nat>) {
    |prefix| == 0 || (|prefix| == 1 && 60 <= prefix[0] <= 63)
  }

  function ListAfter(items: seq<Item>): (q: ParamList)
    requires |items| > 0
    ensures Sized(q)
  {
    NoParams();
    AddedCodes(AddedParam(NO_PARAMS, 0), Spelled(items))
  }

  /** The parameters of a sequence as its handler reads them: the first 32, and the
      first 32 sub-parameters of all of them, in order and saturated. */
  lemma ListIsTheArgs(items: seq<Item>)
    requires |items| > 0 && forall i :: 0 <= i < |items| ==> Digits(items[i])
    ensures Tidy(ListAfter(items)) && ToArgs(ListAfter(items)) == Args(items, 32, 32)
  {
    NoArgs();
    hide Tidy, ToArgs, Spelled, Args, AddedCodes, AddedParam, Digits;
    ItemsAdded(NO_PARAMS, items);
    assert [] + Args(items, 32, 32) == Args(items, 32, 32);
  }

  lemma NoArgs()
    ensures Tidy(NO_PARAMS) && ToArgs(NO_PARAMS) == []
  {
  }

  lemma {:induction false} ParametersTaken(p: Config, cs: seq<nat>)
    requires Sized(p.params) && p.state in {3, 4, 9, 10} && forall i :: 0 <= i < |cs| ==> ParamCode(cs[i])
    ensures Feed(p, cs) == (p.(state := if |cs| == 0 then p.state else if p.state <= 4 then 4 else 10,
                               params := AddedCodes(p.params, cs)), [])
    decreases |cs|
  {
    if |cs| > 0 {
      AddedKeepsSizes(p.params, cs[0]);
      var q := p.(state := if p.state <= 4 then 4 else 10, params := AddedCode(p.params, cs[0]));
      assert Step(p, cs[0]) == (q, []);
      hide Step, AddedCode;
      ParametersTaken(q, cs[1..]);
      assert cs == [cs[0]] + cs[1..];
      FeedFirst(p, cs[0], cs[1..]);
      assert [] + Feed(q, cs[1..]).1 == [];
    }
  }

  lemma PrefixTaken(p: Config, prefix: seq<nat>)
    requires Sized(p.params) && (p.state == 3 || p.state == 9) && Prefix(prefix) && p.collect == 0
    ensures var q := Feed(p, prefix).0;
            && Feed(p, prefix).1 == [] && q.params == p.params && q.collect == Id(0, prefix)
            && (if p.state == 3 then q.state in {3, 4} else q.state in {9, 10})
  {
    if |prefix| == 1 {
      assert prefix == [prefix[0]];
      FeedOne(p, prefix[0]);
      IdOne(0, prefix[0]);
    }
  }

  lemma FrontTaken(p: Config, prefix: seq<nat>, cs: seq<nat>)
    requires Sized(p.params) && (p.state == 3 || p.state == 9) && Prefix(prefix) && p.collect == 0
    requires forall i :: 0 <= i < |cs| ==> ParamCode(cs[i])
    ensures var q := Feed(p, prefix + cs).0;
            && Feed(p, prefix + cs).1 == []
            && q.params == AddedCodes(p.params, cs) && q.collect == Id(0, prefix)
            && (if p.state == 3 then q.state in {3, 4} else q.state in {9, 10})
  {
    hide Feed, Step, Id, AddedCodes, Prefix, ParamCode;
    PrefixTaken(p, prefix);
    var q := Feed(p, prefix).0;
    ParametersTaken(q, cs);
    FeedTwo(p, prefix, q, [], cs, Feed(q, cs).0, []);
  }

  /** Everything between the introducer and the final code of a CSI or DCS sequence. */
  lemma HeadTaken(p: Config, prefix: seq<nat>, items: seq<Item>, inters: seq<nat>)
    requires Sized(p.params) && (p.state == 3 || p.state == 9) && p == Fresh(p, p.state)
    requires Prefix(prefix) && AllIntermediate(inters)
    requires |items| > 0 && forall i :: 0 <= i < |items| ==> Digits(items[i])
    ensures var q := Feed(p, prefix + Spelled(items) + inters).0;
            && Feed(p, prefix + Spelled(items) + inters).1 == []
            && q.params == ListAfter(items) && q.collect == Id(0, prefix + inters)
            && (if p.state == 3 then q.state in {3, 4, 5} else q.state in {9, 10, 12})
  {
    SpelledCodes(items);
    var cs := Spelled(items);
    assert p.collect == 0;
    assert ListAfter(items) == AddedCodes(p.params, cs);
    hide Feed, Step, Spelled, Id, AddedCodes, AddedParam, ShiftIn, Digits, Fresh, ListAfter, AllIntermediate;
    FrontTaken(p, prefix, cs);
    var r := Feed(p, prefix + cs).0;
    Collected(r, inters);
    IdAppend(0, prefix, inters);
    FeedTwo(p, prefix + cs, r, [], inters, Feed(r, inters).0, []);
  }

  /** From any state, for every prefix, parameters with sub-parameters, intermediates
      and final code: one dispatch. */
  lemma CsiSequence(p: Config, intro: seq<nat>, prefix: seq<nat>, items: seq<Item>, inters: seq<nat>, final: nat)
    requires Sized(p.params) && Introduces(intro, 91) && Prefix(prefix) && AllIntermediate(inters)
    requires |items| > 0 && forall i :: 0 <= i < |items| ==> Digits(items[i])
    requires 64 <= final <= 126
    ensures Feed(p, intro + (prefix + Spelled(items) + inters) + [final])
         == (Config(GROUND, Id(0, prefix + inters), ListAfter(items)),
             Left(p, intro) + [CsiEv(Id(0, prefix + inters + [final]), ListAfter(items))])
  {
    var head := prefix + Spelled(items) + inters;
    Introduced(p, intro, 91);
    var q := Fresh(p, 3);
    FreshSized(p, 3);
    hide Spelled, Id, AddedCodes, AddedParam, ShiftIn;
    HeadTaken(q, prefix, items, inters);
    var r := Feed(q, head).0;
    assert Step(r, final) == (r.(state := GROUND), [CsiEv(ShiftIn(r.collect, final), r.params)]);
    IdAppend(0, prefix + inters, [final]);
    IdOne(Id(0, prefix + inters), final);
    hide Step, Feed;
    FeedTwo(p, intro, q, Left(p, intro), head, r, []);
    assert Left(p, intro) + [] == Left(p, intro);
    FeedCode(p, intro + head, r, Left(p, intro), final);
  }

  lemma NotACode(cs: seq<nat>)
    requires forall i :: 0 <= i < |cs| ==> ParamCode(cs[i])
    ensures DEL !in cs
  {
  }

  lemma HeadHasNoDel(prefix: seq<nat>, items: seq<Item>, inters: seq<nat>)
    requires Prefix(prefix) && AllIntermediate(inters)
    requires |items| > 0 && forall i :: 0 <= i < |items| ==> Digits(items[i])
    ensures DEL !in prefix + Spelled(items) + inters
  {
    assert prefix == [] || prefix == [prefix[0]];
    assert DEL !in inters;
    hide Spelled, Digits, ParamCode, Prefix, AllIntermediate;
    SpelledCodes(items);
    NotACode(Spelled(items));
    InThree(prefix, Spelled(items), inters);
  }

  lemma InThree(a: seq<nat>, b: seq<nat>, c: seq<nat>)
    requires DEL !in a && DEL !in b && DEL !in c
    ensures DEL !in a + b + c
  {
  }

  /** And so it is however the sequence is cut into chunks. */
  lemma CsiSequenceInChunks(p: Config, intro: seq<nat>, prefix: seq<nat>, items: seq<Item>, inters: seq<nat>,
                            final: nat, chunks: seq<seq<nat>>)
    requires Sized(p.params) && Introduces(intro, 91) && Prefix(prefix) && AllIntermediate(inters)
    requires |items| > 0 && forall i :: 0 <= i < |items| ==> Digits(items[i])
    requires 64 <= final <= 126 && Concat(chunks) == intro + (prefix + Spelled(items) + inters) + [final]
    ensures ParsedInChunks(p, chunks)
         == (Config(GROUND, Id(0, prefix + inters), ListAfter(items)),
             Left(p, intro) + [CsiEv(Id(0, prefix + inters + [final]), ListAfter(items))])
  {
    HeadHasNoDel(prefix, items, inters);
    hide ParsedInChunks, Feed, Spelled, ListAfter, Digits, Prefix, AllIntermediate, Id, Left;
    NoDelAtAll(p, Concat(chunks));
    CsiSequence(p, intro, prefix, items, inters, final);
    AnyChunkingIsStepwise(p, chunks);
  }

  /** What a DCS string may hold. A DEL is the exception of SplitInvariance. */
  predicate InDcs(c: nat) {
    c >= 160 || 28 <= c <= 126 || c == 25 || c < 24
  }

  lemma {:induction false} DcsBody(p: Config, cs: seq<nat>)
    requires Sized(p.params) && p.state == 13 && forall i :: 0 <= i < |cs| ==> InDcs(cs[i])
    ensures Feed(p, cs) == (p, DcsPuts(cs))
    decreases |cs|
  {
    if |cs| > 0 {
      assert Step(p, cs[0]) == (p, [DcsPutEv(cs[0])]);
      hide Step;
      DcsBody(p, cs[1..]);
      assert cs == [cs[0]] + cs[1..];
      FeedFirst(p, cs[0], cs[1..]);
      assert DcsPuts(cs) == [DcsPutEv(cs[0])] + DcsPuts(cs[1..]);
    }
  }

  function DcsText(intro: seq<nat>, head: seq<nat>, final: nat, cs: seq<nat>, end: nat): seq<nat> {
    intro + head + [final] + cs + [end]
  }

  function DcsEvents(id: int, list: ParamList, cs: seq<nat>, end: nat): seq<Event> {
    [HookEv(id, list)] + DcsPuts(cs) + [UnhookEv(end != 24 && end != 26)]
  }

  /** From any state, for all parameters and contents: the handler is hooked with them,
      gets every code, controls too, and is unhooked by ST, ESC, CAN or SUB, by the
      last two without success. */
  lemma DcsString(p: Config, intro: seq<nat>, prefix: seq<nat>, items: seq<Item>, inters: seq<nat>,
                  final: nat, cs: seq<nat>, end: nat)
    requires Sized(p.params) && Introduces(intro, 80) && Prefix(prefix) && AllIntermediate(inters)
    requires |items| > 0 && forall i :: 0 <= i < |items| ==> Digits(items[i])
    requires 64 <= final <= 126 && (forall i :: 0 <= i < |cs| ==> InDcs(cs[i])) && end in {156, 27, 24, 26}
    ensures Feed(p, DcsText(intro, prefix + Spelled(items) + inters, final, cs, end))
         == (Fresh(p, if end == 27 then 1 else GROUND),
             Left(p, intro) + DcsEvents(Id(0, prefix + inters + [final]), ListAfter(items), cs, end))
  {
    var head, before := prefix + Spelled(items) + inters, Left(p, intro);
    Introduced(p, intro, 80);
    var q := Fresh(p, 9);
    FreshSized(p, 9);
    hide Spelled, Id, AddedCodes, AddedParam, ShiftIn, Digits, Prefix, AllIntermediate;
    HeadTaken(q, prefix, items, inters);
    var r := Feed(q, head).0;
    IdAppend(0, prefix + inters, [final]);
    IdOne(Id(0, prefix + inters), final);
    DcsHooks(r, final);
    var t := r.(state := 13);
    DcsBody(t, cs);
    DcsEnds(t, end);
    hide Step, Feed, Left, ListAfter, DcsPuts, InDcs;
    FeedTwo(p, intro, q, before, head, r, []);
    assert before + [] == before;
    var hook := [HookEv(Id(0, prefix + inters + [final]), ListAfter(items))];
    FeedCode(p, intro + head, r, before, final);
    FeedTwo(p, intro + head + [final], t, before + hook, cs, t, DcsPuts(cs));
    FeedCode(p, intro + head + [final] + cs, t, before + hook + DcsPuts(cs), end);
    Regrouped(before, hook, DcsPuts(cs), [UnhookEv(end != 24 && end != 26)]);
  }

  lemma DcsHooks(r: Config, final: nat)
    requires Sized(r.params) && r.state in {9, 10, 12} && 64 <= final <= 126
    ensures Step(r, final) == (r.(state := 13), [HookEv(ShiftIn(r.collect, final), r.params)])
  {
  }

  lemma DcsEnds(t: Config, end: nat)
    requires Sized(t.params) && t.state == 13 && end in {156, 27, 24, 26}
    ensures Step(t, end) == (Fresh(t, if end == 27 then 1 else GROUND), [UnhookEv(end != 24 && end != 26)])
  {
  }

  lemma DcsStringInChunks(p: Config, intro: seq<nat>, prefix: seq<nat>, items: seq<Item>, inters: seq<nat>,
                          final: nat, cs: seq<nat>, end: nat, chunks: seq<seq<nat>>)
    requires Sized(p.params) && Introduces(intro, 80) && Prefix(prefix) && AllIntermediate(inters)
    requires |items| > 0 && forall i :: 0 <= i < |items| ==> Digits(items[i])
    requires 64 <= final <= 126 && (forall i :: 0 <= i < |cs| ==> InDcs(cs[i])) && end in {156, 27, 24, 26}
    requires Concat(chunks) == DcsText(intro, prefix + Spelled(items) + inters, final, cs, end)
    ensures ParsedInChunks(p, chunks)
         == (Fresh(p, if end == 27 then 1 else GROUND),
             Left(p, intro) + DcsEvents(Id(0, prefix + inters + [final]), ListAfter(items), cs, end))
  {
    HeadHasNoDel(prefix, items, inters);
    hide ParsedInChunks, Feed, Spelled, ListAfter, Digits, Prefix, AllIntermediate, Id, Left, DcsEvents;
    NoDelAtAll(p, Concat(chunks));
    DcsString(p, intro, prefix, items, inters, final, cs, end);
    AnyChunkingIsStepwise(p, chunks);
  }

  // ---- what no handler sees ------------------------------------------------

  lemma {:induction false} SwallowedAll(p: Config, cs: seq<nat>)
    requires Sized(p.params) && forall i :: 0 <= i < |cs| ==> Step(p, cs[i]) == (p, [])
    ensures Feed(p, cs) == (p, [])
    decreases |cs|
  {
    hide Step;
    if |cs| > 0 {
      SwallowedAll(p, cs[1..]);
      assert [] + Feed(p, cs[1..]).1 == [];
    }
  }

  lemma InSkipped(q: Config, cs: seq<nat>)
    requires Sized(q.params) && q.state == 7 && forall i :: 0 <= i < |cs| ==> cs[i] <= 127 && cs[i] !in {24, 26, 27}
    ensures Feed(q, cs) == (q, [])
  {
    SwallowedAll(q, cs);
  }

  /** SOS, PM and APC strings of ASCII are skipped to their ST. */
  lemma SkippedString(p: Config, intro: seq<nat>, letter: nat, cs: seq<nat>)
    requires Sized(p.params) && letter in {88, 94, 95} && Introduces(intro, letter)
    requires forall i :: 0 <= i < |cs| ==> cs[i] <= 127 && cs[i] !in {24, 26, 27}
    ensures Feed(p, intro + cs + [156]).0.state == GROUND && Feed(p, intro + cs + [156]).1 == Left(p, intro)
  {
    Introduced(p, intro, letter);
    var q := Feed(p, intro).0;
    InSkipped(q, cs);
    HighControl(q, 156);
    hide Step, Feed;
    FeedTwo(p, intro, q, Left(p, intro), cs, q, []);
    assert Left(p, intro) + [] == Left(p, intro);
    FeedCode(p, intro + cs, q, Left(p, intro), 156);
  }

  /** A code out of place in a CSI or DCS sequence: the rest of the sequence is skipped,
      to its final code, and to its ST, and nothing is dispatched. */
  lemma MalformedSequence(p: Config, c: nat, cs: seq<nat>, final: nat)
    requires Sized(p.params) && 48 <= c <= 63
    requires if p.state == 4 || p.state == 10 then c >= 60 else p.state == 5 || p.state == 12
    requires if p.state <= 5 then 64 <= final <= 126 else final == 156
    requires forall i :: 0 <= i < |cs| ==>
               32 <= cs[i] <= 63 || cs[i] == 127 || cs[i] >= 160
               || (p.state > 5 && cs[i] <= 127 && cs[i] !in {24, 26, 27})
    ensures Feed(p, [c] + cs + [final]) == (p.(state := GROUND), [])
  {
    var q := p.(state := if p.state <= 5 then 6 else 11);
    assert Step(p, c) == (q, []);
    FeedOne(p, c);
    SwallowedAll(q, cs);
    assert Step(q, final) == (p.(state := GROUND), []);
    hide Step, Feed;
    FeedTwo(p, [c], q, [], cs, q, []);
    FeedCode(p, [c] + cs, q, [], final);
  }
}
