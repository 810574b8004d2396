// EscapeSequenceParser of html/xterm.js with its VT500 transition table and
// Params: `parse` works in batches (unrolled print loop, parameter loop, OSC and
// DCS payload loops); the machine it stands for takes one code at a time.

module EscapeParser {
  import opened Common

  const MAX_INT32: int := 0x7FFF_FFFF
  const TWO_31: int := 0x8000_0000
  const TWO_32: int := 0x1_0000_0000
  const DEL: nat := 127
  const ESC: nat := 27

  // ---- parameters ----------------------------------------------------------

  /** The contents of Params: each parameter, the sub-parameters of all of them,
      and for each parameter the packed range (start * 256 + end) of its own. */
  datatype ParamList = ParamList(params: seq<int>, subParams: seq<int>, subIdx: seq<int>,
                                 rejectDigits: bool, rejectSubDigits: bool, digitIsSub: bool)

  const MAX_PARAMS: nat := 32
  const MAX_SUB_PARAMS: nat := 32

  ghost predicate Sized(p: ParamList) {
    |p.params| == |p.subIdx| <= MAX_PARAMS && |p.subParams| <= MAX_SUB_PARAMS
  }

  const NO_PARAMS: ParamList := ParamList([], [], [], false, false, false)

  function AddedParam(p: ParamList, v: int): ParamList {
    if |p.params| >= MAX_PARAMS then p.(digitIsSub := false, rejectDigits := true)
    else p.(digitIsSub := false,
            subIdx := p.subIdx + [|p.subParams| * 256 + |p.subParams|],
            params := p.params + [Min(v, MAX_INT32)])
  }

  function AddedSubParam(p: ParamList, v: int): ParamList
    requires |p.params| == |p.subIdx|
  {
    if |p.params| == 0 then p.(digitIsSub := true)
    else if p.rejectDigits || |p.subParams| >= MAX_SUB_PARAMS then p.(digitIsSub := true, rejectSubDigits := true)
    else p.(digitIsSub := true,
            subParams := p.subParams + [Min(v, MAX_INT32)],
            subIdx := p.subIdx[|p.subIdx| - 1 := p.subIdx[|p.subIdx| - 1] + 1])
  }

  function Appended(value: int, digit: int): int {
    if value == -1 then digit else Min(10 * value + digit, MAX_INT32)
  }

  function AddedDigit(p: ParamList, d: int): ParamList {
    if p.rejectDigits || (p.digitIsSub && (|p.subParams| == 0 || p.rejectSubDigits))
       || (!p.digitIsSub && |p.params| == 0) then p
    else if p.digitIsSub
    then p.(subParams := p.subParams[|p.subParams| - 1 := Appended(p.subParams[|p.subParams| - 1], d)])
    else p.(params := p.params[|p.params| - 1 := Appended(p.params[|p.params| - 1], d)])
  }

  /** One code of a parameter string: a digit, `;` or `:`. */
  function AddedCode(p: ParamList, c: nat): ParamList
    requires |p.params| == |p.subIdx|
  {
    if c == 59 then AddedParam(p, 0)
    else if c == 58 then AddedSubParam(p, -1)
    else AddedDigit(p, c - 48)
  }

  lemma AddedKeepsSizes(p: ParamList, c: nat)
    requires Sized(p)
    ensures Sized(AddedCode(p, c)) && Sized(AddedParam(p, 0))
  {
  }

  function AddedCodes(p: ParamList, cs: seq<nat>): (q: ParamList)
    requires Sized(p)
    ensures Sized(q)
    decreases |cs|
  {
    if |cs| == 0 then p
    else
      AddedKeepsSizes(p, cs[0]);
      AddedCodes(AddedCode(p, cs[0]), cs[1..])
  }

  function Decimal(digits: seq<nat>): int {
    if |digits| == 0 then 0 else 10 * Decimal(digits[..|digits| - 1]) + digits[|digits| - 1] - 48
  }

  predicate AreDigits(cs: seq<nat>) {
    forall i :: 0 <= i < |cs| ==> 48 <= cs[i] <= 57
  }

  lemma {:induction false} AddedCodesSnoc(p: ParamList, cs: seq<nat>, c: nat)
    requires Sized(p)
    ensures AddedCodes(p, cs + [c]) == AddedCode(AddedCodes(p, cs), c)
    decreases |cs|
  {
    if |cs| > 0 {
      AddedKeepsSizes(p, cs[0]);
      AddedCodesSnoc(AddedCode(p, cs[0]), cs[1..], c);
      assert (cs + [c])[1..] == cs[1..] + [c];
    } else {
      AddedKeepsSizes(p, c);
      assert (cs + [c])[1..] == [];
    }
  }

  lemma {:induction false} DecimalIsNatural(ds: seq<nat>)
    requires AreDigits(ds)
    ensures Decimal(ds) >= 0
  {
    if |ds| > 0 {
      DecimalIsNatural(ds[..|ds| - 1]);
    }
  }

  /** A parameter opened by `;` (or the reset) and followed by digits is their
      decimal value, saturated at 2^31-1. */
  lemma {:induction false} ParamIsItsDecimal(p: ParamList, digits: seq<nat>)
    requires Sized(p) && AreDigits(digits) && |p.params| < MAX_PARAMS && !p.rejectDigits
    ensures Sized(AddedParam(p, 0))
    ensures AddedCodes(AddedParam(p, 0), digits)
         == AddedParam(p, 0).(params := p.params + [Min(Decimal(digits), MAX_INT32)])
  {
    AddedKeepsSizes(p, 59);
    if |digits| > 0 {
      var front, d := digits[..|digits| - 1], digits[|digits| - 1];
      ParamIsItsDecimal(p, front);
      DecimalIsNatural(front);
      AddedCodesSnoc(AddedParam(p, 0), front, d);
      assert digits == front + [d];
    }
  }

  /** A sub-parameter opened by `:` is -1 until a digit comes, and then their
      saturated decimal value. */
  lemma {:induction false} SubParamIsItsDecimal(p: ParamList, digits: seq<nat>)
    requires Sized(p) && AreDigits(digits)
    requires |p.params| > 0 && |p.subParams| < MAX_SUB_PARAMS && !p.rejectDigits && !p.rejectSubDigits
    ensures Sized(AddedSubParam(p, -1))
    ensures AddedCodes(AddedSubParam(p, -1), digits)
         == AddedSubParam(p, -1).(subParams := p.subParams +
              [if |digits| == 0 then -1 else Min(Decimal(digits), MAX_INT32)])
  {
    AddedKeepsSizes(p, 58);
    if |digits| > 0 {
      var front, d := digits[..|digits| - 1], digits[|digits| - 1];
      SubParamIsItsDecimal(p, front);
      DecimalIsNatural(front);
      AddedCodesSnoc(AddedSubParam(p, -1), front, d);
      assert digits == front + [d];
      if |front| == 0 {
        assert Decimal(front) == 0;
      }
    }
  }

  // ---- the transition table ------------------------------------------------

  datatype Action =
    | Ignore | Error | Print | Execute | OscStart | OscPut | OscEnd | CsiDispatch
    | Param | Collect | EscDispatch | Clear | DcsHook | DcsPut | DcsUnhook

  type StateId = n: nat | n < 14

  const GROUND: StateId := 0
  const DCS_PASSTHROUGH: StateId := 13

  /** The C0 controls executed in most states. */
  predicate Executable(c: nat) {
    c <= 23 || c == 25 || 28 <= c <= 31
  }

  /** The rules shared by all states. */
  function Anywhere(c: nat): (Action, StateId) {
    if c == 24 || c == 26 || c == 153 || c == 154 then (Execute, 0)
    else if 128 <= c <= 143 || 145 <= c <= 151 then (Execute, 0)
    else if c == 156 then (Ignore, 0)
    else if c == 27 then (Clear, 1)
    else if c == 157 then (OscStart, 8)
    else if c == 152 || c == 158 || c == 159 then (Ignore, 7)
    else if c == 155 then (Clear, 3)
    else if c == 144 then (Clear, 9)
    else (Error, 0)
  }

  /** VT500_TRANSITION_TABLE; codes from 160 on share one column. */
  function Lookup(s: StateId, code: nat): (Action, StateId) {
    var c := if code < 160 then code else 160;
    match s
    case 0 =>
      if 32 <= c <= 126 || c == 160 then (Print, 0)
      else if Executable(c) then (Execute, 0) else Anywhere(c)
    case 1 =>
      if c == 80 then (Clear, 9)
      else if 48 <= c <= 79 || 81 <= c <= 87 || c == 89 || c == 90 || c == 92 || 96 <= c <= 126
      then (EscDispatch, 0)
      else if 32 <= c <= 47 then (Collect, 2)
      else if c == 91 then (Clear, 3)
      else if c == 88 || c == 94 || c == 95 then (Ignore, 7)
      else if c == 93 then (OscStart, 8)
      else if c == 127 then (Ignore, 1)
      else if Executable(c) then (Execute, 1) else Anywhere(c)
    case 2 =>
      if 48 <= c <= 126 then (EscDispatch, 0)
      else if 32 <= c <= 47 then (Collect, 2)
      else if c == 127 then (Ignore, 2)
      else if Executable(c) then (Execute, 2) else Anywhere(c)
    case 3 =>
      if 64 <= c <= 126 then (CsiDispatch, 0)
      else if 48 <= c <= 59 then (Param, 4)
      else if 60 <= c <= 63 then (Collect, 4)
      else if 32 <= c <= 47 then (Collect, 5)
      else if c == 127 then (Ignore, 3)
      else if Executable(c) then (Execute, 3) else Anywhere(c)
    case 4 =>
      if 48 <= c <= 59 then (Param, 4)
      else if 64 <= c <= 126 then (CsiDispatch, 0)
      else if 60 <= c <= 63 then (Ignore, 6)
      else if 32 <= c <= 47 then (Collect, 5)
      else if c == 127 then (Ignore, 4)
      else if Executable(c) then (Execute, 4) else Anywhere(c)
    case 5 =>
      if 32 <= c <= 47 then (Collect, 5)
      else if 48 <= c <= 63 then (Ignore, 6)
      else if 64 <= c <= 126 then (CsiDispatch, 0)
      else if c == 127 then (Ignore, 5)
      else if Executable(c) then (Execute, 5) else Anywhere(c)
    case 6 =>
      if 32 <= c <= 63 || c == 127 || c == 160 then (Ignore, 6)
      else if 64 <= c <= 126 then (Ignore, 0)
      else if Executable(c) then (Execute, 6) else Anywhere(c)
    case 7 =>
      if 32 <= c <= 127 || Executable(c) then (Ignore, 7)
      else if c == 156 then (Ignore, 0) else Anywhere(c)
    case 8 =>
      if 32 <= c <= 127 || c == 160 then (OscPut, 8)
      else if c == 156 || c == 27 || c == 24 || c == 26 || c == 7 then (OscEnd, 0)
      else if Executable(c) then (Ignore, 8) else Anywhere(c)
    case 9 =>
      if Executable(c) || c == 127 then (Ignore, 9)
      else if 32 <= c <= 47 then (Collect, 12)
      else if 48 <= c <= 59 then (Param, 10)
      else if 60 <= c <= 63 then (Collect, 10)
      else if 64 <= c <= 126 then (DcsHook, 13) else Anywhere(c)
    case 10 =>
      if Executable(c) || c == 127 then (Ignore, 10)
      else if 48 <= c <= 59 then (Param, 10)
      else if 60 <= c <= 63 then (Ignore, 11)
      else if 32 <= c <= 47 then (Collect, 12)
      else if 64 <= c <= 126 then (DcsHook, 13) else Anywhere(c)
    case 11 =>
      if Executable(c) || 32 <= c <= 127 || c == 160 then (Ignore, 11) else Anywhere(c)
    case 12 =>
      if Executable(c) || c == 127 then (Ignore, 12)
      else if 32 <= c <= 47 then (Collect, 12)
      else if 48 <= c <= 63 then (Ignore, 11)
      else if 64 <= c <= 126 then (DcsHook, 13) else Anywhere(c)
    case 13 =>
      if Executable(c) || 32 <= c <= 126 || c == 160 then (DcsPut, 13)
      else if c == 127 then (Ignore, 13)
      else if c == 27 || c == 156 || c == 24 || c == 26 then (DcsUnhook, 0)
      else Anywhere(c)
  }

  // ---- one code at a time --------------------------------------------------

  /** What the handlers see, payloads taken apart into single codes. */
  datatype Event =
    | PrintEv(code: nat)
    | ExecuteEv(code: nat)
    | ErrorEv(code: nat, state: StateId, collect: int, params: ParamList)
    | CsiEv(id: int, params: ParamList)
    | EscEv(id: int)
    | HookEv(id: int, params: ParamList)
    | DcsPutEv(code: nat)
    | UnhookEv(success: bool)
    | OscStartEv
    | OscPutEv(code: nat)
    | OscEndEv(success: bool)

  datatype Config = Config(state: StateId, collect: int, params: ParamList)

  function ToInt32(x: int): int {
    (x + TWO_31) % TWO_32 - TWO_31
  }

  /** `a << 8 | r` on a 32-bit a and an r below 256. */
  function ShiftIn(a: int, r: nat): int {
    ToInt32(a * 256) + r
  }

  function Fresh(p: Config, s: StateId): Config {
    Config(s, 0, AddedParam(NO_PARAMS, 0))
  }

  /** Both payload ends go to the escape state when an ESC ended the payload. */
  function AfterEnd(code: nat, next: StateId): StateId {
    if code == ESC then 1 else next
  }

  function Step(p: Config, c: nat): (r: (Config, seq<Event>))
    requires Sized(p.params)
    ensures Sized(r.0.params)
  {
    var (action, next) := Lookup(p.state, c);
    var q := p.(state := next);
    AddedKeepsSizes(p.params, c);
    match action
    case Print => (q, [PrintEv(c)])
    case Execute => (q, [ExecuteEv(c)])
    case Ignore => (q, [])
    case Error => (q, [ErrorEv(c, p.state, p.collect, p.params)])
    case CsiDispatch => (q, [CsiEv(ShiftIn(p.collect, c), p.params)])
    case Param => (q.(params := AddedCode(p.params, c)), [])
    case Collect => (q.(collect := ShiftIn(p.collect, c)), [])
    case EscDispatch => (q, [EscEv(ShiftIn(p.collect, c))])
    case Clear => (Fresh(p, next), [])
    case DcsHook => (q, [HookEv(ShiftIn(p.collect, c), p.params)])
    case DcsPut => (q, [DcsPutEv(c)])
    case DcsUnhook => (Fresh(p, AfterEnd(c, next)), [UnhookEv(c != 24 && c != 26)])
    case OscStart => (q, [OscStartEv])
    case OscPut => (q, [OscPutEv(c)])
    case OscEnd => (Fresh(p, AfterEnd(c, next)), [OscEndEv(c != 24 && c != 26)])
  }

  function Feed(p: Config, cs: seq<nat>): (r: (Config, seq<Event>))
    requires Sized(p.params)
    ensures Sized(r.0.params)
    decreases |cs|
  {
    if |cs| == 0 then (p, [])
    else
      var (q, ev) := Step(p, cs[0]);
      var (end, evs) := Feed(q, cs[1..]);
      (end, ev + evs)
  }

  lemma {:induction false} FeedAppend(p: Config, a: seq<nat>, b: seq<nat>)
    requires Sized(p.params)
    ensures var (q, ev) := Feed(p, a);
            Feed(p, a + b) == (Feed(q, b).0, ev + Feed(q, b).1)
    decreases |a|
  {
    hide Step;
    if |a| == 0 {
      assert a + b == b && [] + Feed(p, b).1 == Feed(p, b).1;
    } else {
      var (q, ev) := Step(p, a[0]);
      var (end, evs) := Feed(q, a[1..]);
      assert (a + b)[0] == a[0] && (a + b)[1..] == a[1..] + b;
      FeedAppend(q, a[1..], b);
      assert ev + (evs + Feed(end, b).1) == (ev + evs) + Feed(end, b).1;
    }
  }

  // ---- the batched machine -------------------------------------------------

  /** The DCS payload loop runs to the next terminator, taking a DEL with it; a
      DEL met at the top of the main loop is ignored instead. `putting` says
      that the payload loop is running. */
  function BatchStep(p: Config, putting: bool, c: nat): (r: (Config, bool, seq<Event>))
    requires Sized(p.params)
    ensures Sized(r.0.params)
  {
    if putting && c == DEL then (p, true, [DcsPutEv(c)])
    else (Step(p, c).0, Lookup(p.state, c).0.DcsPut?, Step(p, c).1)
  }

  /** What one call of parse does. */
  function Batched(p: Config, putting: bool, cs: seq<nat>): (r: (Config, seq<Event>))
    requires Sized(p.params)
    ensures Sized(r.0.params)
    decreases |cs|
  {
    if |cs| == 0 then (p, [])
    else
      var (q, on, ev) := BatchStep(p, putting, cs[0]);
      var (end, evs) := Batched(q, on, cs[1..]);
      (end, ev + evs)
  }

  /** Whether the payload loop is running when a chunk ends. */
  function EndsPutting(p: Config, putting: bool, cs: seq<nat>): bool
    requires Sized(p.params)
    decreases |cs|
  {
    if |cs| == 0 then putting
    else
      var (q, on, ev) := BatchStep(p, putting, cs[0]);
      EndsPutting(q, on, cs[1..])
  }

  lemma PutStaysInPayload(p: Config, c: nat)
    requires Sized(p.params)
    ensures Lookup(p.state, c).0.DcsPut? ==> p.state == DCS_PASSTHROUGH && Step(p, c) == (p, [DcsPutEv(c)])
    ensures p.state == DCS_PASSTHROUGH && c == DEL ==> Step(p, c) == (p, [])
  {
  }

  /** A DEL follows a payload code inside the chunk. */
  function Swallows(p: Config, putting: bool, cs: seq<nat>): bool
    requires Sized(p.params)
    decreases |cs|
  {
    |cs| > 0 &&
    ((putting && cs[0] == DEL)
     || Swallows(Step(p, cs[0]).0, Lookup(p.state, cs[0]).0.DcsPut?, cs[1..]))
  }

  predicate InPayload(p: Config, putting: bool) {
    putting ==> p.state == DCS_PASSTHROUGH
  }

  /** The batched machine ends in the same configuration as the stepwise one,
      and emits the same events unless it swallows a DEL; then it emits more. */
  lemma {:induction false} BatchedAgainstFeed(p: Config, putting: bool, cs: seq<nat>)
    requires Sized(p.params) && InPayload(p, putting)
    ensures Batched(p, putting, cs).0 == Feed(p, cs).0
    ensures !Swallows(p, putting, cs) ==> Batched(p, putting, cs) == Feed(p, cs)
    ensures Swallows(p, putting, cs) ==> |Batched(p, putting, cs).1| > |Feed(p, cs).1|
    ensures |Batched(p, putting, cs).1| >= |Feed(p, cs).1|
    decreases |cs|
  {
    hide Step, Lookup;
    if |cs| > 0 {
      PutStaysInPayload(p, cs[0]);
      var (q, on, ev) := BatchStep(p, putting, cs[0]);
      BatchedAgainstFeed(q, on, cs[1..]);
    }
  }

  lemma {:induction false} BatchedAppend(p: Config, putting: bool, a: seq<nat>, b: seq<nat>)
    requires Sized(p.params)
    ensures var (q, ev) := Batched(p, putting, a);
            var rest := Batched(q, EndsPutting(p, putting, a), b);
            Batched(p, putting, a + b) == (rest.0, ev + rest.1)
    decreases |a|
  {
    hide BatchStep;
    if |a| == 0 {
      assert a + b == b && [] + Batched(p, putting, b).1 == Batched(p, putting, b).1;
    } else {
      var (q, on, ev) := BatchStep(p, putting, a[0]);
      var (end, evs) := Batched(q, on, a[1..]);
      var rest := Batched(end, EndsPutting(q, on, a[1..]), b);
      assert (a + b)[0] == a[0] && (a + b)[1..] == a[1..] + b;
      BatchedAppend(q, on, a[1..], b);
      assert ev + (evs + rest.1) == (ev + evs) + rest.1;
    }
  }

  lemma {:induction false} EndsInPayload(p: Config, putting: bool, cs: seq<nat>)
    requires Sized(p.params) && InPayload(p, putting)
    ensures InPayload(Batched(p, putting, cs).0, EndsPutting(p, putting, cs))
    decreases |cs|
  {
    hide Step, Lookup;
    if |cs| > 0 {
      PutStaysInPayload(p, cs[0]);
      var (q, on, ev) := BatchStep(p, putting, cs[0]);
      EndsInPayload(q, on, cs[1..]);
    }
  }

  /** Restarting the main loop in mid-payload matters exactly for a DEL. */
  lemma {:induction false} RestartMatters(p: Config, cs: seq<nat>)
    requires Sized(p.params) && p.state == DCS_PASSTHROUGH
    ensures |Batched(p, true, cs).1| >= |Batched(p, false, cs).1|
    ensures |cs| > 0 && cs[0] == DEL ==> |Batched(p, true, cs).1| > |Batched(p, false, cs).1|
    ensures |cs| == 0 || cs[0] != DEL ==> Batched(p, true, cs) == Batched(p, false, cs)
    decreases |cs|
  {
    hide Step, Lookup;
    if |cs| > 0 && cs[0] == DEL {
      PutStaysInPayload(p, DEL);
      RestartMatters(p, cs[1..]);
      assert !Lookup(p.state, DEL).0.DcsPut?;
    }
  }

  /** Splitting a chunk changes nothing, unless the split leaves the parser
      inside a DCS payload loop and the second part begins with DEL. */
  lemma SplitInvariance(p: Config, a: seq<nat>, b: seq<nat>)
    requires Sized(p.params)
    ensures var (q, ev) := Batched(p, false, a);
            var rest := Batched(q, false, b);
            Batched(p, false, a + b) == (rest.0, ev + rest.1)
            <==> !(EndsPutting(p, false, a) && |b| > 0 && b[0] == DEL)
  {
    hide Batched, EndsPutting;
    BatchedAppend(p, false, a, b);
    EndsInPayload(p, false, a);
    if EndsPutting(p, false, a) {
      var (q, ev) := Batched(p, false, a);
      RestartMatters(q, b);
      assert |Batched(p, false, a + b).1| == |ev| + |Batched(q, true, b).1|;
    }
  }

  /** parse equals the stepwise machine exactly when no DEL directly follows a
      payload code of its chunk. */
  lemma BatchedIsStepwiseExactly(p: Config, cs: seq<nat>)
    requires Sized(p.params)
    ensures Batched(p, false, cs) == Feed(p, cs)
       <==> !exists k :: 0 < k < |cs| && cs[k] == DEL && PutAt(p, cs, k - 1)
  {
    BatchedAgainstFeed(p, false, cs);
    SwallowsMeans(p, false, cs);
  }

  /** The stepwise machine takes code k of the input as DCS payload. */
  predicate PutAt(p: Config, cs: seq<nat>, k: nat)
    requires Sized(p.params) && k < |cs|
  {
    Lookup(Feed(p, cs[..k]).0.state, cs[k]).0.DcsPut?
  }

  lemma PutAtTail(p: Config, cs: seq<nat>, k: nat)
    requires Sized(p.params) && 0 < k < |cs|
    ensures PutAt(p, cs, k) == PutAt(Step(p, cs[0]).0, cs[1..], k - 1)
  {
    assert cs[..k][1..] == cs[1..][..k - 1];
  }

  lemma {:induction false} SwallowsMeans(p: Config, putting: bool, cs: seq<nat>)
    requires Sized(p.params)
    ensures Swallows(p, putting, cs)
       <==> (putting && |cs| > 0 && cs[0] == DEL)
            || exists k :: 0 < k < |cs| && cs[k] == DEL && PutAt(p, cs, k - 1)
    decreases |cs|
  {
    hide Step, Lookup;
    if |cs| > 0 {
      var q := Step(p, cs[0]).0;
      var on := Lookup(p.state, cs[0]).0.DcsPut?;
      var tail := cs[1..];
      SwallowsMeans(q, on, tail);
      assert cs[..0] == [] && PutAt(p, cs, 0) == on;
      forall k | 0 < k < |tail| ensures PutAt(q, tail, k - 1) == PutAt(p, cs, k) {
        PutAtTail(p, cs, k);
      }
      if k :| 0 < k < |tail| && tail[k] == DEL && PutAt(q, tail, k - 1) {
        assert cs[k + 1] == DEL && PutAt(p, cs, k);
      }
      if k :| 0 < k < |cs| && cs[k] == DEL && PutAt(p, cs, k - 1) {
        assert k > 1 ==> tail[k - 1] == DEL && PutAt(q, tail, k - 2);
      }
    }
  }

  // ---- any chunking --------------------------------------------------------

  /** No DEL arrives inside a DCS payload. */
  predicate NoDelInPayload(p: Config, cs: seq<nat>)
    requires Sized(p.params)
  {
    forall k :: 0 <= k < |cs| && cs[k] == DEL ==> Feed(p, cs[..k]).0.state != DCS_PASSTHROUGH
  }

  /** One call of parse for each chunk. */
  function ParsedInChunks(p: Config, chunks: seq<seq<nat>>): (r: (Config, seq<Event>))
    requires Sized(p.params)
    ensures Sized(r.0.params)
    decreases |chunks|
  {
    if |chunks| == 0 then (p, [])
    else
      var (q, ev) := Batched(p, false, chunks[0]);
      var (end, evs) := ParsedInChunks(q, chunks[1..]);
      (end, ev + evs)
  }

  lemma FeedOne(p: Config, c: nat)
    requires Sized(p.params)
    ensures Feed(p, [c]) == Step(p, c)
  {
    var (q, ev) := Step(p, c);
    assert [c][1..] == [] && Feed(q, []) == (q, []);
    assert ev + [] == ev;
  }

  lemma PutStays(p: Config, cs: seq<nat>, k: nat)
    requires Sized(p.params) && 0 < k < |cs| && PutAt(p, cs, k - 1)
    ensures Feed(p, cs[..k]).0.state == DCS_PASSTHROUGH
  {
    hide Feed, Step, Lookup;
    var before := Feed(p, cs[..k - 1]).0;
    FeedAppend(p, cs[..k - 1], [cs[k - 1]]);
    FeedOne(before, cs[k - 1]);
    PutStaysInPayload(before, cs[k - 1]);
    assert cs[..k] == cs[..k - 1] + [cs[k - 1]];
  }

  lemma NoDelMeansStepwise(p: Config, cs: seq<nat>)
    requires Sized(p.params) && NoDelInPayload(p, cs)
    ensures Batched(p, false, cs) == Feed(p, cs)
  {
    hide Batched, Feed, Step, Lookup, PutAt;
    BatchedIsStepwiseExactly(p, cs);
    if k :| 0 < k < |cs| && cs[k] == DEL && PutAt(p, cs, k - 1) {
      PutStays(p, cs, k);
      assert false;
    }
  }

  lemma NoDelSplits(p: Config, a: seq<nat>, b: seq<nat>)
    requires Sized(p.params) && NoDelInPayload(p, a + b)
    ensures NoDelInPayload(p, a) && NoDelInPayload(Feed(p, a).0, b)
  {
    hide Feed;
    forall k | 0 <= k < |a| && a[k] == DEL ensures Feed(p, a[..k]).0.state != DCS_PASSTHROUGH {
      assert (a + b)[k] == DEL && (a + b)[..k] == a[..k];
    }
    var q := Feed(p, a).0;
    forall k | 0 <= k < |b| && b[k] == DEL ensures Feed(q, b[..k]).0.state != DCS_PASSTHROUGH {
      FeedAppend(p, a, b[..k]);
      assert (a + b)[|a| + k] == DEL && (a + b)[..|a| + k] == a + b[..k];
    }
  }

  /** Input without DEL inside DCS payloads parses the same however it is cut
      into chunks: always as one code at a time. */
  lemma {:induction false} AnyChunkingIsStepwise(p: Config, chunks: seq<seq<nat>>)
    requires Sized(p.params) && NoDelInPayload(p, Concat(chunks))
    ensures ParsedInChunks(p, chunks) == Feed(p, Concat(chunks))
    decreases |chunks|
  {
    hide Feed, Batched;
    if |chunks| == 0 {
      assert Feed(p, []) == (p, []) by {
        FeedNothing(p);
      }
    } else {
      NoDelSplits(p, chunks[0], Concat(chunks[1..]));
      NoDelMeansStepwise(p, chunks[0]);
      FeedAppend(p, chunks[0], Concat(chunks[1..]));
      AnyChunkingIsStepwise(Feed(p, chunks[0]).0, chunks[1..]);
    }
  }

  lemma FeedNothing(p: Config)
    requires Sized(p.params)
    ensures Feed(p, []) == (p, [])
  {
  }

  // ---- the batches ---------------------------------------------------------

  predicate Printable(c: nat) {
    !(c < 32 || (c > 126 && c < 160))
  }

  predicate OscPayload(c: nat) {
    !(c < 32 || (c > 127 && c <= 159))
  }

  predicate DcsPayload(c: nat) {
    !(c == 24 || c == 26 || c == 27 || (c > 127 && c < 160))
  }

  predicate ParamCode(c: nat) {
    47 < c < 60
  }

  function Prints(cs: seq<nat>): (evs: seq<Event>)
    ensures |evs| == |cs| && forall i :: 0 <= i < |cs| ==> evs[i] == PrintEv(cs[i])
  {
    seq(|cs|, i requires 0 <= i < |cs| => PrintEv(cs[i]))
  }

  function OscPuts(cs: seq<nat>): (evs: seq<Event>)
    ensures |evs| == |cs| && forall i :: 0 <= i < |cs| ==> evs[i] == OscPutEv(cs[i])
  {
    seq(|cs|, i requires 0 <= i < |cs| => OscPutEv(cs[i]))
  }

  function DcsPuts(cs: seq<nat>): (evs: seq<Event>)
    ensures |evs| == |cs| && forall i :: 0 <= i < |cs| ==> evs[i] == DcsPutEv(cs[i])
  {
    seq(|cs|, i requires 0 <= i < |cs| => DcsPutEv(cs[i]))
  }

  lemma {:induction false} PrintRun(p: Config, cs: seq<nat>)
    requires Sized(p.params) && p.state == GROUND && forall i :: 0 <= i < |cs| ==> Printable(cs[i])
    ensures Batched(p, false, cs) == (p, Prints(cs)) && !EndsPutting(p, false, cs)
    decreases |cs|
  {
    if |cs| > 0 {
      PrintRun(p, cs[1..]);
      assert Step(p, cs[0]) == (p, [PrintEv(cs[0])]);
      assert Prints(cs) == [PrintEv(cs[0])] + Prints(cs[1..]);
    }
  }

  lemma {:induction false} OscRun(p: Config, cs: seq<nat>)
    requires Sized(p.params) && p.state == 8 && forall i :: 0 <= i < |cs| ==> OscPayload(cs[i])
    ensures Batched(p, false, cs) == (p, OscPuts(cs)) && !EndsPutting(p, false, cs)
    decreases |cs|
  {
    if |cs| > 0 {
      OscRun(p, cs[1..]);
      assert Step(p, cs[0]) == (p, [OscPutEv(cs[0])]);
      assert OscPuts(cs) == [OscPutEv(cs[0])] + OscPuts(cs[1..]);
    }
  }

  lemma {:induction false} DcsRun(p: Config, putting: bool, cs: seq<nat>)
    requires Sized(p.params) && p.state == DCS_PASSTHROUGH && forall i :: 0 <= i < |cs| ==> DcsPayload(cs[i])
    requires |cs| > 0 && !putting ==> cs[0] != DEL
    ensures Batched(p, putting, cs) == (p, DcsPuts(cs)) && (|cs| > 0 ==> EndsPutting(p, putting, cs))
    decreases |cs|
  {
    if |cs| > 0 {
      DcsRun(p, true, cs[1..]);
      assert BatchStep(p, putting, cs[0]) == (p, true, [DcsPutEv(cs[0])]);
      assert DcsPuts(cs) == [DcsPutEv(cs[0])] + DcsPuts(cs[1..]);
    }
  }

  lemma {:induction false} ParamRun(p: Config, cs: seq<nat>)
    requires Sized(p.params) && (p.state == 4 || p.state == 10)
    requires forall i :: 0 <= i < |cs| ==> ParamCode(cs[i])
    ensures Batched(p, false, cs) == (p.(params := AddedCodes(p.params, cs)), [])
    ensures !EndsPutting(p, false, cs)
    decreases |cs|
  {
    if |cs| > 0 {
      AddedKeepsSizes(p.params, cs[0]);
      var q := p.(params := AddedCode(p.params, cs[0]));
      assert BatchStep(p, false, cs[0]) == (q, false, []);
      ParamRun(q, cs[1..]);
      assert q.(params := AddedCodes(q.params, cs[1..])) == p.(params := AddedCodes(p.params, cs));
      assert Batched(p, false, cs).1 == [] + Batched(q, false, cs[1..]).1;
    }
  }

  /** Parsing data from h with p emits `ev` and goes on at u with q. */
  predicate Resumes(p: Config, data: seq<nat>, h: nat, q: Config, ev: seq<Event>, u: nat)
    requires Sized(p.params) && Sized(q.params) && h <= |data| && u <= |data|
  {
    var rest := Batched(q, false, data[u..]);
    Batched(p, false, data[h..]) == (rest.0, ev + rest.1)
  }

  lemma NothingYet(p: Config, data: seq<nat>)
    requires Sized(p.params)
    ensures Resumes(p, data, 0, p, [], 0)
  {
    var rest := Batched(p, false, data[0..]);
    assert [] + rest.1 == rest.1;
  }

  lemma ResumesAgain(p: Config, data: seq<nat>, q: Config, ev: seq<Event>, h: nat,
                     r: Config, more: seq<Event>, u: nat)
    requires Sized(p.params) && Sized(q.params) && Sized(r.params) && h <= |data| && u <= |data|
    requires Resumes(p, data, 0, q, ev, h) && Resumes(q, data, h, r, more, u)
    ensures Resumes(p, data, 0, r, ev + more, u)
  {
    var rest := Batched(r, false, data[u..]);
    assert ev + (more + rest.1) == (ev + more) + rest.1;
  }

  lemma AllDone(p: Config, data: seq<nat>, q: Config, ev: seq<Event>)
    requires Sized(p.params) && Sized(q.params) && Resumes(p, data, 0, q, ev, |data|)
    ensures Batched(p, false, data) == (q, ev)
  {
    assert data[0..] == data && data[|data|..] == [];
    assert ev + [] == ev;
  }

  lemma SingleCode(p: Config, data: seq<nat>, h: nat)
    requires Sized(p.params) && h < |data| && !Lookup(p.state, data[h]).0.DcsPut?
    ensures Resumes(p, data, h, Step(p, data[h]).0, Step(p, data[h]).1, h + 1)
  {
    hide Lookup, Step;
    assert data[h..][1..] == data[h + 1..];
  }

  lemma BatchResumes(p: Config, data: seq<nat>, h: nat, u: nat)
    requires Sized(p.params) && h < u <= |data| && !EndsPutting(p, false, data[h..u])
    ensures var (q, ev) := Batched(p, false, data[h..u]); Resumes(p, data, h, q, ev, u)
  {
    hide Batched, EndsPutting;
    assert data[h..] == data[h..u] + data[u..];
    BatchedAppend(p, false, data[h..u], data[u..]);
  }

  lemma PrintBatch(p: Config, data: seq<nat>, h: nat, u: nat)
    requires Sized(p.params) && h < u <= |data| && Lookup(p.state, data[h]).0.Print?
    requires forall i :: h < i < u ==> Printable(data[i])
    ensures Resumes(p, data, h, p, Prints(data[h..u]), u)
  {
    hide Batched, EndsPutting, Resumes;
    PrintRun(p, data[h..u]);
    BatchResumes(p, data, h, u);
  }

  lemma OscBatch(p: Config, data: seq<nat>, h: nat, u: nat)
    requires Sized(p.params) && h < u <= |data| && Lookup(p.state, data[h]).0.OscPut?
    requires forall i :: h < i < u ==> OscPayload(data[i])
    ensures Resumes(p, data, h, p, OscPuts(data[h..u]), u)
  {
    hide Batched, EndsPutting, Resumes;
    OscRun(p, data[h..u]);
    BatchResumes(p, data, h, u);
  }

  /** The DCS batch stops at a terminator, so restarting after it is harmless. */
  lemma DcsBatch(p: Config, data: seq<nat>, h: nat, u: nat)
    requires Sized(p.params) && h < u <= |data| && Lookup(p.state, data[h]).0.DcsPut?
    requires forall i :: h < i < u ==> DcsPayload(data[i])
    requires u < |data| ==> !DcsPayload(data[u])
    ensures Resumes(p, data, h, p, DcsPuts(data[h..u]), u)
  {
    hide Batched, EndsPutting;
    DcsRun(p, false, data[h..u]);
    assert data[h..] == data[h..u] + data[u..];
    BatchedAppend(p, false, data[h..u], data[u..]);
    RestartMatters(p, data[u..]);
  }

  lemma ParamBatch(p: Config, data: seq<nat>, h: nat, u: nat)
    requires Sized(p.params) && h < u <= |data| && Lookup(p.state, data[h]).0.Param?
    requires forall i :: h < i < u ==> ParamCode(data[i])
    ensures Resumes(p, data, h,
                    p.(state := Lookup(p.state, data[h]).1, params := AddedCodes(p.params, data[h..u])), [], u)
  {
    hide Lookup, Step, Batched, EndsPutting, AddedCode, AddedCodes, Resumes;
    ParamStep(p, data[h]);
    var q := Step(p, data[h]).0;
    SingleCode(p, data, h);
    ParamRun(q, data[h + 1..u]);
    AddedFirst(p.params, data[h..u]);
    assert data[h..u][1..] == data[h + 1..u];
    if h + 1 < u {
      BatchResumes(q, data, h + 1, u);
      TwoResumes(p, data, h, q, h + 1, q.(params := AddedCodes(q.params, data[h + 1..u])), u);
    } else {
      AddedNone(q.params);
      assert data[h + 1..u] == [];
    }
  }

  lemma ParamStep(p: Config, c: nat)
    requires Sized(p.params) && Lookup(p.state, c).0.Param?
    ensures Step(p, c) == (p.(state := Lookup(p.state, c).1, params := AddedCode(p.params, c)), [])
    ensures Step(p, c).0.state == 4 || Step(p, c).0.state == 10
  {
  }

  lemma AddedFirst(p: ParamList, cs: seq<nat>)
    requires Sized(p) && |cs| > 0
    ensures Sized(AddedCode(p, cs[0]))
    ensures AddedCodes(p, cs) == AddedCodes(AddedCode(p, cs[0]), cs[1..])
  {
    AddedKeepsSizes(p, cs[0]);
  }

  lemma AddedNone(p: ParamList)
    requires Sized(p)
    ensures AddedCodes(p, []) == p
  {
  }

  lemma TwoResumes(p: Config, data: seq<nat>, h: nat, q: Config, k: nat, r: Config, u: nat)
    requires Sized(p.params) && Sized(q.params) && Sized(r.params)
    requires h <= |data| && k <= |data| && u <= |data|
    requires Resumes(p, data, h, q, [], k) && Resumes(q, data, k, r, [], u)
    ensures Resumes(p, data, h, r, [], u)
  {
    hide Batched;
    assert forall evs: seq<Event> :: [] + evs == evs;
  }

  // ---- a whole control sequence --------------------------------------------

  const CSI: seq<nat> := [27, 91]
  const SEPARATOR: nat := 59

  /** The digits of parameters, with `;` between one and the next. */
  function Joined(ds: seq<seq<nat>>): (cs: seq<nat>)
    requires |ds| > 0
  {
    var last := ds[|ds| - 1];
    if |ds| == 1 then last else Joined(ds[..|ds| - 1]) + ([SEPARATOR] + last)
  }

  function Values(ds: seq<seq<nat>>): (vs: seq<int>)
    ensures |vs| == |ds| && forall i :: 0 <= i < |vs| ==> vs[i] == Min(Decimal(ds[i]), MAX_INT32)
  {
    seq(|ds|, i requires 0 <= i < |ds| => Min(Decimal(ds[i]), MAX_INT32))
  }

  /** A list of plain parameters: the first 32 are kept. */
  function ListOf(vs: seq<int>): ParamList {
    var n := Min(|vs|, MAX_PARAMS);
    ParamList(vs[..n], [], seq(n, i => 0), |vs| > MAX_PARAMS, false, false)
  }

  lemma {:induction false} AddedCodesAppend(p: ParamList, a: seq<nat>, b: seq<nat>)
    requires Sized(p)
    ensures AddedCodes(p, a + b) == AddedCodes(AddedCodes(p, a), b)
    decreases |a|
  {
    hide AddedCode;
    if |a| == 0 {
      assert a + b == b;
    } else {
      AddedKeepsSizes(p, a[0]);
      AddedCodesAppend(AddedCode(p, a[0]), a[1..], b);
      assert (a + b)[0] == a[0] && (a + b)[1..] == a[1..] + b;
    }
  }

  lemma {:induction false} DigitsRejected(p: ParamList, digits: seq<nat>)
    requires Sized(p) && AreDigits(digits) && p.rejectDigits
    ensures AddedCodes(p, digits) == p
  {
    if |digits| > 0 {
      DigitsRejected(p, digits[1..]);
    }
  }

  lemma OneMoreParam(vs: seq<int>, digits: seq<nat>)
    requires AreDigits(digits)
    ensures Sized(ListOf(vs))
    ensures AddedCodes(AddedParam(ListOf(vs), 0), digits) == ListOf(vs + [Min(Decimal(digits), MAX_INT32)])
  {
    var p, more := ListOf(vs), vs + [Min(Decimal(digits), MAX_INT32)];
    AddedKeepsSizes(p, SEPARATOR);
    if |vs| < MAX_PARAMS {
      ParamIsItsDecimal(p, digits);
      assert more[..|more|] == more && vs[..|vs|] == vs;
    } else {
      assert more[..MAX_PARAMS] == vs[..MAX_PARAMS];
      DigitsRejected(AddedParam(p, 0), digits);
    }
  }

  ghost predicate AllDigits(ds: seq<seq<nat>>) {
    forall i :: 0 <= i < |ds| ==> AreDigits(ds[i])
  }

  lemma {:induction false} ParamsAreTheList(ds: seq<seq<nat>>)
    requires |ds| > 0 && AllDigits(ds)
    ensures Sized(AddedParam(NO_PARAMS, 0))
    ensures AddedCodes(AddedParam(NO_PARAMS, 0), Joined(ds)) == ListOf(Values(ds))
    ensures forall i :: 0 <= i < |Joined(ds)| ==> ParamCode(Joined(ds)[i])
  {
    var n := |ds| - 1;
    var front, last := ds[..n], ds[n];
    hide AddedCodes, AddedParam, Decimal, ListOf, Values;
    OneMoreParam(Values(front), last);
    ValuesSnoc(front, last);
    assert ds == front + [last];
    NoParams();
    if n == 0 {
      NoValues();
      assert front == [];
    } else {
      ParamsAreTheList(front);
      AddedCodesAppend(AddedParam(NO_PARAMS, 0), Joined(front), [SEPARATOR] + last);
      AddedCodesAppend(ListOf(Values(front)), [SEPARATOR], last);
      OneSeparator(ListOf(Values(front)));
    }
  }

  lemma ValuesSnoc(ds: seq<seq<nat>>, last: seq<nat>)
    ensures Values(ds + [last]) == Values(ds) + [Min(Decimal(last), MAX_INT32)]
  {
    hide Decimal;
  }

  lemma NoValues()
    ensures Values([]) == []
  {
  }

  lemma NoParams()
    ensures ListOf([]) == NO_PARAMS && Sized(AddedParam(NO_PARAMS, 0))
  {
  }

  lemma OneSeparator(p: ParamList)
    requires Sized(p)
    ensures AddedCodes(p, [SEPARATOR]) == AddedParam(p, 0)
  {
    AddedKeepsSizes(p, SEPARATOR);
    assert [SEPARATOR][1..] == [];
  }

  lemma {:induction false} FeedParams(p: Config, cs: seq<nat>)
    requires Sized(p.params) && (p.state == 3 || p.state == 4)
    requires forall i :: 0 <= i < |cs| ==> ParamCode(cs[i])
    ensures Feed(p, cs) == (p.(state := if |cs| == 0 then p.state else 4, params := AddedCodes(p.params, cs)), [])
    decreases |cs|
  {
    if |cs| > 0 {
      AddedKeepsSizes(p.params, cs[0]);
      var q := p.(state := 4, params := AddedCode(p.params, cs[0]));
      assert Step(p, cs[0]) == (q, []);
      hide Step, AddedCode;
      FeedParams(q, cs[1..]);
      assert [] + Feed(q, cs[1..]).1 == [];
    }
  }

  function Sequence(ds: seq<seq<nat>>, final: nat): seq<nat>
    requires |ds| > 0
  {
    CSI + Joined(ds) + [final]
  }

  /** For all parameters: `CSI n1;n2;...;nk final` calls the handler of `final` once,
      with the list of the first 32 values, each its saturated decimal, whatever
      parameters and collected characters came before. */
  lemma ControlSequence(p: Config, ds: seq<seq<nat>>, final: nat)
    requires Sized(p.params) && p.state == GROUND && |ds| > 0 && AllDigits(ds) && 64 <= final <= 126
    ensures Feed(p, Sequence(ds, final))
         == (Config(GROUND, 0, ListOf(Values(ds))), [CsiEv(final, ListOf(Values(ds)))])
  {
    hide Joined, Values, ListOf, AddedCodes, AddedParam;
    ParamsAreTheList(ds);
    var q := Config(3, 0, AddedParam(NO_PARAMS, 0));
    IntroducerClears(p);
    var cs := Joined(ds);
    FeedParams(q, cs);
    var r := Feed(q, cs).0;
    FinalDispatches(r, final);
    FeedAppend(p, CSI, cs);
    FeedAppend(p, CSI + cs, [final]);
    var list := ListOf(Values(ds));
    assert Feed(p, CSI + cs) == (r, [] + []);
    assert Feed(r, [final]) == (Config(GROUND, 0, list), [CsiEv(final, list)]);
    assert [] + [] + [CsiEv(final, list)] == [CsiEv(final, list)];
  }

  lemma IntroducerClears(p: Config)
    requires Sized(p.params) && p.state == GROUND
    ensures Sized(AddedParam(NO_PARAMS, 0))
    ensures Feed(p, CSI) == (Config(3, 0, AddedParam(NO_PARAMS, 0)), [])
  {
    NoParams();
    var q := Fresh(p, 1);
    assert Step(p, 27) == (q, []) && Step(q, 91) == (Fresh(q, 3), []);
    hide Feed, Step;
    FeedOne(p, 27);
    FeedOne(q, 91);
    FeedAppend(p, [27], [91]);
    assert [27] + [91] == CSI;
    assert [] + Feed(q, [91]).1 == [];
  }

  lemma FinalDispatches(r: Config, final: nat)
    requires Sized(r.params) && (r.state == 3 || r.state == 4) && r.collect == 0 && 64 <= final <= 126
    ensures Feed(r, [final]) == (r.(state := GROUND), [CsiEv(final, r.params)])
  {
    FeedOne(r, final);
  }

  /** And so it is however the sequence is cut into chunks. */
  lemma ControlSequenceInChunks(p: Config, ds: seq<seq<nat>>, final: nat, chunks: seq<seq<nat>>)
    requires Sized(p.params) && p.state == GROUND && |ds| > 0 && AllDigits(ds) && 64 <= final <= 126
    requires Concat(chunks) == Sequence(ds, final)
    ensures ParsedInChunks(p, chunks)
         == (Config(GROUND, 0, ListOf(Values(ds))), [CsiEv(final, ListOf(Values(ds)))])
  {
    hide Joined, Values, ListOf, ParsedInChunks, Feed;
    ParamsAreTheList(ds);
    ControlSequence(p, ds, final);
    AnyChunkingIsStepwise(p, chunks);
  }

  /** `ESC P q x DEL`: the payload loop takes the DEL, the table ignores it. */
  lemma DelIsTaken(p: Config)
    requires Sized(p.params) && p.state == GROUND
    ensures var input, hooked := [ESC, 80, 113, 120, DEL], AddedParam(NO_PARAMS, 0);
            && Feed(p, input) == (Config(DCS_PASSTHROUGH, 0, hooked), [HookEv(113, hooked), DcsPutEv(120)])
            && Batched(p, false, input)
               == (Config(DCS_PASSTHROUGH, 0, hooked), [HookEv(113, hooked), DcsPutEv(120), DcsPutEv(DEL)])
  {
    var hooked := AddedParam(NO_PARAMS, 0);
    NoParams();
    var start, entry, payload := Config(1, 0, hooked), Config(9, 0, hooked), Config(DCS_PASSTHROUGH, 0, hooked);
    var hook := HookEv(113, hooked);
    PayloadSteps(p, hooked);
    DelInPayload(payload, hooked);
    hide Step, BatchStep, Feed, Batched;
    TwoKinds(entry, false, 113, [120, DEL]);
    assert [113] + [120, DEL] == [113, 120, DEL];
    TwoKinds(start, false, 80, [113, 120, DEL]);
    assert [80] + [113, 120, DEL] == [80, 113, 120, DEL];
    TwoKinds(p, false, ESC, [80, 113, 120, DEL]);
    assert [ESC] + [80, 113, 120, DEL] == [ESC, 80, 113, 120, DEL];
    Silent([hook] + [DcsPutEv(120)]);
    Silent([hook] + [DcsPutEv(120), DcsPutEv(DEL)]);
    assert [hook] + [DcsPutEv(120)] == [hook, DcsPutEv(120)];
    assert [hook] + [DcsPutEv(120), DcsPutEv(DEL)] == [hook, DcsPutEv(120), DcsPutEv(DEL)];
  }

  lemma Silent(evs: seq<Event>)
    ensures [] + ([] + evs) == evs
  {
  }

  lemma DelInPayload(payload: Config, hooked: ParamList)
    requires Sized(hooked) && payload == Config(DCS_PASSTHROUGH, 0, hooked)
    ensures Feed(payload, [120, DEL]) == (payload, [DcsPutEv(120)])
    ensures Batched(payload, false, [120, DEL]) == (payload, [DcsPutEv(120), DcsPutEv(DEL)])
  {
    assert Step(payload, 120) == (payload, [DcsPutEv(120)]) && Step(payload, DEL) == (payload, []);
    assert BatchStep(payload, false, 120) == (payload, true, [DcsPutEv(120)]);
    assert BatchStep(payload, true, DEL) == (payload, true, [DcsPutEv(DEL)]);
    hide Step, BatchStep, Feed, Batched;
    FeedNothing(payload);
    BatchedNothing(payload, true);
    TwoKinds(payload, true, DEL, []);
    TwoKinds(payload, false, 120, [DEL]);
    assert [DEL] + [] == [DEL] && [120] + [DEL] == [120, DEL];
    assert [DcsPutEv(DEL)] + [] == [DcsPutEv(DEL)] && [DcsPutEv(120)] + ([] + []) == [DcsPutEv(120)];
    assert [DcsPutEv(120)] + [DcsPutEv(DEL)] == [DcsPutEv(120), DcsPutEv(DEL)];
  }

  lemma PayloadSteps(p: Config, hooked: ParamList)
    requires Sized(p.params) && p.state == GROUND && hooked == AddedParam(NO_PARAMS, 0) && Sized(hooked)
    ensures var start, entry, payload := Config(1, 0, hooked), Config(9, 0, hooked), Config(DCS_PASSTHROUGH, 0, hooked);
            && Step(p, ESC) == (start, []) && BatchStep(p, false, ESC) == (start, false, [])
            && Step(start, 80) == (entry, []) && BatchStep(start, false, 80) == (entry, false, [])
            && Step(entry, 113) == (payload, [HookEv(113, hooked)])
            && BatchStep(entry, false, 113) == (payload, false, [HookEv(113, hooked)])
            && Step(payload, 120) == (payload, [DcsPutEv(120)])
            && BatchStep(payload, false, 120) == (payload, true, [DcsPutEv(120)])
            && Step(payload, DEL) == (payload, []) && BatchStep(payload, true, DEL) == (payload, true, [DcsPutEv(DEL)])
  {
  }

  /** The first code of both machines. */
  lemma TwoKinds(p: Config, putting: bool, c: nat, rest: seq<nat>)
    requires Sized(p.params)
    ensures var (q, ev) := Step(p, c);
            Feed(p, [c] + rest) == (Feed(q, rest).0, ev + Feed(q, rest).1)
    ensures var (q, on, ev) := BatchStep(p, putting, c);
            Batched(p, putting, [c] + rest) == (Batched(q, on, rest).0, ev + Batched(q, on, rest).1)
  {
    hide Step, BatchStep;
    assert ([c] + rest)[1..] == rest;
  }

  lemma BatchedNothing(p: Config, putting: bool)
    requires Sized(p.params)
    ensures Batched(p, putting, []) == (p, [])
  {
  }

  lemma SliceSnoc(data: seq<nat>, h: nat, u: nat)
    requires h <= u < |data|
    ensures data[h..u + 1] == data[h..u] + [data[u]]
  {
  }

  // ---- the parser ----------------------------------------------------------

  class Params {
    const params: array<int>
    const subParams: array<int>
    const subIdx: array<int>
    var length: nat
    var subParamsLength: nat
    var rejectDigits: bool
    var rejectSubDigits: bool
    var digitIsSub: bool

    ghost predicate Valid()
      reads this, params, subParams, subIdx
    {
      && params.Length == subIdx.Length == MAX_PARAMS && subParams.Length == MAX_SUB_PARAMS
      && params != subParams && params != subIdx && subParams != subIdx
      && length <= MAX_PARAMS && subParamsLength <= MAX_SUB_PARAMS
    }

    ghost function State(): (p: ParamList)
      requires Valid()
      reads this, params, subParams, subIdx
      ensures Sized(p)
    {
      ParamList(params[..length], subParams[..subParamsLength], subIdx[..length],
                rejectDigits, rejectSubDigits, digitIsSub)
    }

    constructor ()
      ensures Valid() && State() == NO_PARAMS
      ensures fresh(params) && fresh(subParams) && fresh(subIdx)
    {
      params := new int[MAX_PARAMS];
      subParams := new int[MAX_SUB_PARAMS];
      subIdx := new int[MAX_PARAMS];
      length, subParamsLength := 0, 0;
      rejectDigits, rejectSubDigits, digitIsSub := false, false, false;
    }

    method Reset()
      requires Valid()
      modifies this
      ensures Valid() && State() == NO_PARAMS
    {
      length, subParamsLength := 0, 0;
      rejectDigits, rejectSubDigits, digitIsSub := false, false, false;
    }

    method AddParam(v: int) returns (thrown: bool)
      requires Valid()
      modifies this, params, subIdx
      ensures Valid() && thrown == (v < -1 && old(length) < MAX_PARAMS)
      ensures State() == if thrown then old(State()).(digitIsSub := false) else AddedParam(old(State()), v)
    {
      thrown := false;
      digitIsSub := false;
      if length >= MAX_PARAMS {
        rejectDigits := true;
      } else {
        if v < -1 {
          return true;
        }
        subIdx[length] := subParamsLength * 256 + subParamsLength;
        params[length] := if v > MAX_INT32 then MAX_INT32 else v;
        length := length + 1;
      }
    }

    method AddSubParam(v: int) returns (thrown: bool)
      requires Valid()
      modifies this, subParams, subIdx
      ensures Valid()
      ensures thrown == (v < -1 && old(length) > 0 && !old(rejectDigits) && old(subParamsLength) < MAX_SUB_PARAMS)
      ensures State() == if thrown then old(State()).(digitIsSub := true) else AddedSubParam(old(State()), v)
    {
      thrown := false;
      digitIsSub := true;
      if length > 0 {
        if rejectDigits || subParamsLength >= MAX_SUB_PARAMS {
          rejectSubDigits := true;
        } else {
          if v < -1 {
            return true;
          }
          subParams[subParamsLength] := if v > MAX_INT32 then MAX_INT32 else v;
          subParamsLength := subParamsLength + 1;
          subIdx[length - 1] := subIdx[length - 1] + 1;
        }
      }
    }

    method AddDigit(d: int)
      requires Valid()
      modifies params, subParams
      ensures Valid() && State() == AddedDigit(old(State()), d)
    {
      var t := if digitIsSub then subParamsLength else length;
      if rejectDigits || t == 0 || (digitIsSub && rejectSubDigits) {
        return;
      }
      var store := if digitIsSub then subParams else params;
      var value := store[t - 1];
      store[t - 1] := if value != -1 then Min(10 * value + d, MAX_INT32) else d;
    }
  }

  class EscapeSequenceParser {
    const params: Params
    var currentState: StateId
    var collect: int
    var log: seq<Event>  // the handler calls, payloads code by code

    ghost predicate Valid()
      reads this, params, params.params, params.subParams, params.subIdx
    {
      params.Valid()
    }

    ghost function State(): (p: Config)
      requires Valid()
      reads this, params, params.params, params.subParams, params.subIdx
      ensures Sized(p.params)
    {
      Config(currentState, collect, params.State())
    }

    constructor ()
      ensures Valid() && log == []
      ensures State() == Config(GROUND, 0, AddedParam(NO_PARAMS, 0))
      ensures fresh(params) && fresh(params.params) && fresh(params.subParams) && fresh(params.subIdx)
    {
      var p := new Params();
      var _ := p.AddParam(0);
      params := p;
      currentState, collect, log := GROUND, 0, [];
    }

    /** The print loop, unrolled four times: the end of the printable run. */
    method ScanPrint(data: seq<nat>, h: nat) returns (u: nat)
      requires h < |data|
      ensures h < u <= |data|
      ensures forall i :: h < i < u ==> Printable(data[i])
      ensures u < |data| ==> !Printable(data[u])
    {
      u := h + 1;
      while true
        invariant h < u <= |data|
        invariant forall i :: h < i < u ==> Printable(data[i])
        decreases |data| - u
      {
        if u >= |data| || !Printable(data[u]) {
          return;
        }
        u := u + 1;
        if u >= |data| || !Printable(data[u]) {
          return;
        }
        u := u + 1;
        if u >= |data| || !Printable(data[u]) {
          return;
        }
        u := u + 1;
        if u >= |data| || !Printable(data[u]) {
          return;
        }
        u := u + 1;
      }
    }

    method ScanOsc(data: seq<nat>, h: nat) returns (u: nat)
      requires h < |data|
      ensures h < u <= |data|
      ensures forall i :: h < i < u ==> OscPayload(data[i])
      ensures u < |data| ==> !OscPayload(data[u])
    {
      u := h + 1;
      while !(u >= |data| || !OscPayload(data[u]))
        invariant h < u <= |data|
        invariant forall i :: h < i < u ==> OscPayload(data[i])
        decreases |data| - u
      {
        u := u + 1;
      }
    }

    method ScanDcs(data: seq<nat>, h: nat) returns (u: nat)
      requires h < |data|
      ensures h < u <= |data|
      ensures forall i :: h < i < u ==> DcsPayload(data[i])
      ensures u < |data| ==> !DcsPayload(data[u])
    {
      u := h + 1;
      while !(u >= |data| || !DcsPayload(data[u]))
        invariant h < u <= |data|
        invariant forall i :: h < i < u ==> DcsPayload(data[i])
        decreases |data| - u
      {
        u := u + 1;
      }
    }

    /** The parameter loop: consumes the run of parameter codes from h. */
    method RunParams(data: seq<nat>, h: nat) returns (u: nat)
      requires Valid() && h < |data|
      modifies params, params.params, params.subParams, params.subIdx
      ensures h < u <= |data|
      ensures forall i :: h < i < u ==> ParamCode(data[i])
      ensures u < |data| ==> !ParamCode(data[u])
      ensures Valid() && params.State() == AddedCodes(old(params.State()), data[h..u])
    {
      hide Sized, AddedCode;
      u := h;
      ghost var start := params.State();
      while true
        invariant h <= u < |data| && Valid()
        invariant forall i :: h < i <= u ==> ParamCode(data[i])
        invariant params.State() == AddedCodes(start, data[h..u])
        decreases |data| - u
      {
        AddedCodesSnoc(start, data[h..u], data[u]);
        SliceSnoc(data, h, u);
        OneCode(data[u]);
        u := u + 1;
        if !(u < |data| && ParamCode(data[u])) {
          break;
        }
      }
    }

    method OneCode(c: nat)
      requires Valid()
      modifies params, params.params, params.subParams, params.subIdx
      ensures Valid() && params.State() == AddedCode(old(params.State()), c)
    {
      if c == 59 {
        var _ := params.AddParam(0);
      } else if c == 58 {
        var _ := params.AddSubParam(-1);
      } else {
        params.AddDigit(c - 48);
      }
    }

    /** One round of the main loop at position h: a batch or a single code. */
    method Advance(data: seq<nat>, h: nat) returns (u: nat)
      requires Valid() && h < |data|
      modifies this, params, params.params, params.subParams, params.subIdx
      ensures Valid() && h < u <= |data|
      ensures old(log) <= log
      ensures Resumes(old(State()), data, h, State(), log[|old(log)|..], u)
    {
      hide Lookup, Step, Batched, Resumes;
      ghost var p := State();
      var r := data[h];
      var (action, next) := Lookup(currentState, r);
      u := h + 1;
      if action == Print {
        u := ScanPrint(data, h);
        log := log + Prints(data[h..u]);
        assert log[|old(log)|..] == Prints(data[h..u]);
        PrintBatch(p, data, h, u);
      } else if action == DcsPut {
        u := ScanDcs(data, h);
        log := log + DcsPuts(data[h..u]);
        assert log[|old(log)|..] == DcsPuts(data[h..u]);
        DcsBatch(p, data, h, u);
      } else if action == OscPut {
        u := ScanOsc(data, h);
        log := log + OscPuts(data[h..u]);
        assert log[|old(log)|..] == OscPuts(data[h..u]);
        OscBatch(p, data, h, u);
      } else if action == Param {
        u := RunParams(data, h);
        assert log[|old(log)|..] == [];
        ParamBatch(p, data, h, u);
        currentState := next;
      } else {
        Single(action, next, r);
        assert log[|old(log)|..] == Step(p, r).1;
        SingleCode(p, data, h);
      }
    }

    /** The actions that take one code. */
    method Single(action: Action, next: StateId, r: nat)
      requires Valid() && (action, next) == Lookup(currentState, r)
      requires !action.Print? && !action.DcsPut? && !action.OscPut? && !action.Param?
      modifies this, params, params.params, params.subParams, params.subIdx
      ensures Valid() && State() == Step(old(State()), r).0
      ensures log == old(log) + Step(old(State()), r).1
    {
      hide Lookup;
      var i := next;
      match action {
        case Execute => log := log + [ExecuteEv(r)];
        case Error => log := log + [ErrorEv(r, currentState, collect, Snapshot())];
        case CsiDispatch => log := log + [CsiEv(ShiftIn(collect, r), Snapshot())];
        case Collect => collect := ShiftIn(collect, r);
        case EscDispatch => log := log + [EscEv(ShiftIn(collect, r))];
        case Clear => ClearParams();
        case DcsHook => log := log + [HookEv(ShiftIn(collect, r), Snapshot())];
        case DcsUnhook =>
          log := log + [UnhookEv(r != 24 && r != 26)];
          i := if r == ESC then 1 else i;
          ClearParams();
        case OscStart => log := log + [OscStartEv];
        case OscEnd =>
          log := log + [OscEndEv(r != 24 && r != 26)];
          i := if r == ESC then 1 else i;
          ClearParams();
        case _ =>
      }
      currentState := i;
    }

    /** The parameter list as a handler sees it. */
    function Snapshot(): (p: ParamList)
      requires Valid()
      reads this, params, params.params, params.subParams, params.subIdx
      ensures p == params.State()
    {
      ParamList(params.params[..params.length], params.subParams[..params.subParamsLength],
                params.subIdx[..params.length], params.rejectDigits, params.rejectSubDigits, params.digitIsSub)
    }

    method ClearParams()
      requires Valid()
      modifies this`collect, params, params.params, params.subIdx
      ensures Valid() && collect == 0 && params.State() == AddedParam(NO_PARAMS, 0)
    {
      params.Reset();
      var _ := params.AddParam(0);
      collect := 0;
    }

    /** parse: the main loop over one chunk. */
    method Parse(data: seq<nat>)
      requires Valid()
      modifies this, params, params.params, params.subParams, params.subIdx
      ensures Valid()
      ensures State() == Batched(old(State()), false, data).0
      ensures log == old(log) + Batched(old(State()), false, data).1
    {
      hide Batched, Resumes;
      ghost var start := State();
      ghost var was := log;
      var h := 0;
      NothingYet(start, data);
      assert log[|was|..] == [];
      while h < |data|
        invariant 0 <= h <= |data| && Valid()
        invariant was <= log
        invariant Resumes(start, data, 0, State(), log[|was|..], h)
      {
        ghost var mid, midLog := State(), log;
        var u := Advance(data, h);
        ResumesAgain(start, data, mid, midLog[|was|..], h, State(), log[|midLog|..], u);
        assert log[|was|..] == midLog[|was|..] + log[|midLog|..];
        h := u;
      }
      AllDone(start, data, State(), log[|was|..]);
      assert log == was + log[|was|..];
    }
  }
}
