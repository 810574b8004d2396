// One client's session in main/gdb_main.cpp: when the target is believed to run,
// when a stop is reported, and the transfer of long strings in pieces.

module GdbSession {
  import opened Common

  // ---- the session, event by event -----------------------------------------

  datatype HaltReason = Running | Failed | Requested | Watchpoint | Fault | OtherHalt

  datatype Signal = SigLost | SigInt | SigTrap | SigSegv

  /** What the main loop reacts to. An empty packet stands for silence on the
      line; `OtherClients` is what happens to the shared target meanwhile. */
  datatype Event =
    | Silence(reason: HaltReason)
    | StepPacket
    | ContinuePacket
    | InterruptByte
    | VCont(text: string)
    | NonStop(on: bool)
    | Detach
    | OtherPacket
    | OtherClients(target: bool)

  /** What a session does that matters here, in order. */
  datatype Action =
    | Stopped(notification: bool, signal: Signal, watch: bool)
    | Resumed(stepping: bool)
    | HaltAsked
    | StepWanted       // an `s` packet, before it is known whether there is a target
    | StepArmed        // an `s` in vCont: nothing is resumed yet
    | StepForgotten    // the start of an accepted vCont
    | Refused
    | Answered

  datatype State = State(target: bool, runState: bool, singleStep: bool, nonStop: bool, log: seq<Action>)

  function Signalled(reason: HaltReason): Signal {
    match reason
    case Failed => SigLost
    case Requested => SigInt
    case Fault => SigSegv
    case _ => SigTrap
  }

  function Log(s: State, a: Action): State {
    s.(log := s.log + [a])
  }

  /** The poll branch. */
  function OnSilence(s: State, reason: HaltReason): State {
    if s.runState && s.target && reason != Running
    then Log(s.(runState := false, singleStep := false), Stopped(s.nonStop, Signalled(reason), reason == Watchpoint))
    else s
  }

  function OnContinue(s: State): State {
    if s.target then Log(s.(runState := true), Resumed(s.singleStep)) else Log(s, Refused)
  }

  /** One letter of a vCont packet; every letter is looked at, also inside thread
      numbers. */
  function OnLetter(s: State, c: char): State {
    if c == 'c' then Log(s.(runState := true), Resumed(s.singleStep))
    else if c == 't' then Log(s.(runState := true), HaltAsked)
    else if c == 's' then Log(s.(runState := true, singleStep := true), StepArmed)
    else s
  }

  function OnLetters(s: State, text: string): State
    decreases |text|
  {
    if |text| == 0 then s else OnLetters(OnLetter(s, text[0]), text[1..])
  }

  /** The index of the first c in a text, or its length. */
  function IndexOf(c: char, text: string): (i: nat)
    ensures i <= |text| && c !in text[..i] && (i < |text| ==> text[i] == c)
  {
    if |text| == 0 || text[0] == c then 0 else 1 + IndexOf(c, text[1..])
  }

  /** What follows `vCont` in the packet, up to the first NUL and without the first
      separator. */
  function Actions(text: string): string {
    var all := text[..IndexOf('\0', text)];
    if |all| > 0 && all[0] == ';' then all[1..] else all
  }

  function OnVCont(s: State, text: string): State {
    var rest := Actions(text);
    if |rest| > 0 && rest[0] == '?' then Log(s, Answered)
    else if !s.target then Log(s, Refused)
    else Log(OnLetters(Log(s.(singleStep := false), StepForgotten), rest), Answered)
  }

  function Next(s: State, e: Event): State {
    match e
    case Silence(reason) => OnSilence(s, reason)
    case StepPacket => OnContinue(Log(s.(singleStep := true), StepWanted))
    case ContinuePacket => OnContinue(s)
    case InterruptByte => Log(s.(runState := true), HaltAsked)
    case VCont(text) => OnVCont(s, text)
    case NonStop(on) => Log(s.(nonStop := on), Answered)
    case Detach => Log(s.(target := false), Answered)
    case OtherPacket => Log(s, Answered)
    case OtherClients(target) => s.(target := target)
  }

  function Init(target: bool): State {
    State(target, false, false, false, [])
  }

  function Run(s: State, events: seq<Event>): State
    decreases |events|
  {
    if |events| == 0 then s else Run(Next(s, events[0]), events[1..])
  }

  // ---- accounting ----------------------------------------------------------

  /** A resume, an interrupt or a vCont action that went through. */
  predicate Accepted(a: Action) {
    a.Resumed? || a.HaltAsked? || a.StepArmed?
  }

  /** Something accepted is still to be answered by a stop. */
  predicate Owed(log: seq<Action>) {
    |log| > 0 &&
    var last := log[|log| - 1];
    Accepted(last) || (!last.Stopped? && Owed(log[..|log| - 1]))
  }

  lemma {:induction false} OwedMeans(log: seq<Action>)
    ensures Owed(log) <==>
              exists k :: 0 <= k < |log| && Accepted(log[k]) && forall i :: k < i < |log| ==> !log[i].Stopped?
  {
    if |log| > 0 {
      hide Accepted;
      var n := |log| - 1;
      var before := log[..n];
      OwedMeans(before);
      if Owed(log) {
        if !Accepted(log[n]) {
          var k :| 0 <= k < n && Accepted(before[k]) && forall i :: k < i < n ==> !before[i].Stopped?;
          assert Accepted(log[k]);
          forall i | k < i < |log| ensures !log[i].Stopped? {
            assert i < n ==> before[i] == log[i];
          }
        }
      }
      if k :| 0 <= k < |log| && Accepted(log[k]) && forall i :: k < i < |log| ==> !log[i].Stopped? {
        if k < n {
          assert Accepted(before[k]) && forall i :: k < i < n ==> before[i] == log[i];
        }
      }
    }
  }

  /** A resume would step now. */
  predicate Stepping(log: seq<Action>) {
    |log| > 0 &&
    var last := log[|log| - 1];
    last.StepWanted? || last.StepArmed? || (!last.Stopped? && !last.StepForgotten? && Stepping(log[..|log| - 1]))
  }

  /** The two flags say nothing else than the log; every stop was owed, and every
      resume steps as the log then said. */
  ghost predicate Inv(s: State) {
    && s.runState == Owed(s.log)
    && s.singleStep == Stepping(s.log)
    && forall k :: 0 <= k < |s.log| ==> Justified(s.log, k)
  }

  ghost predicate Justified(log: seq<Action>, k: nat)
    requires k < |log|
  {
    && (log[k].Stopped? ==> Owed(log[..k]))
    && (log[k].Resumed? ==> log[k].stepping == Stepping(log[..k]))
  }

  lemma LogKeepsInv(s: State, a: Action, after: State)
    requires Inv(s) && after.log == s.log + [a]
    requires after.runState == (Accepted(a) || (!a.Stopped? && s.runState))
    requires after.singleStep == (a.StepWanted? || a.StepArmed? || (!a.Stopped? && !a.StepForgotten? && s.singleStep))
    requires (a.Stopped? ==> s.runState) && (a.Resumed? ==> a.stepping == s.singleStep)
    ensures Inv(after)
  {
    hide Owed, Stepping;
    Appended(s.log, a);
    var log := after.log;
    forall k | 0 <= k < |log| ensures Justified(log, k) {
      assert log[..k] == s.log[..k];
      assert k < |s.log| ==> Justified(s.log, k);
      assert k == |s.log| ==> s.log[..k] == s.log;
    }
  }

  lemma Appended(log: seq<Action>, a: Action)
    ensures Owed(log + [a]) == (Accepted(a) || (!a.Stopped? && Owed(log)))
    ensures Stepping(log + [a])
         == (a.StepWanted? || a.StepArmed? || (!a.Stopped? && !a.StepForgotten? && Stepping(log)))
  {
    assert (log + [a])[..|log|] == log;
  }

  lemma ContinueKeepsInv(s: State)
    requires Inv(s)
    ensures Inv(OnContinue(s))
  {
    LogKeepsInv(s, if s.target then Resumed(s.singleStep) else Refused, OnContinue(s));
  }

  lemma {:induction false} LettersKeepInv(s: State, text: string)
    requires Inv(s)
    ensures Inv(OnLetters(s, text))
    decreases |text|
  {
    hide Inv;
    if |text| > 0 {
      var c := text[0];
      if c == 'c' || c == 't' || c == 's' {
        var action := if c == 'c' then Resumed(s.singleStep) else if c == 't' then HaltAsked else StepArmed;
        LogKeepsInv(s, action, OnLetter(s, c));
      }
      LettersKeepInv(OnLetter(s, c), text[1..]);
    }
  }

  lemma VContKeepsInv(s: State, text: string)
    requires Inv(s)
    ensures Inv(OnVCont(s, text))
  {
    hide Inv, OnLetters;
    var rest := Actions(text);
    if |rest| > 0 && rest[0] == '?' {
      LogKeepsInv(s, Answered, OnVCont(s, text));
    } else if !s.target {
      LogKeepsInv(s, Refused, OnVCont(s, text));
    } else {
      var cleared := Log(s.(singleStep := false), StepForgotten);
      LogKeepsInv(s, StepForgotten, cleared);
      LettersKeepInv(cleared, rest);
      LogKeepsInv(OnLetters(cleared, rest), Answered, OnVCont(s, text));
    }
  }

  lemma NextKeepsInv(s: State, e: Event)
    requires Inv(s)
    ensures Inv(Next(s, e))
  {
    match e
    case Silence(reason) =>
      hide Inv;
      if s.runState && s.target && reason != Running {
        LogKeepsInv(s, Stopped(s.nonStop, Signalled(reason), reason == Watchpoint), Next(s, e));
      }
    case StepPacket =>
      hide Inv;
      var noted := Log(s.(singleStep := true), StepWanted);
      LogKeepsInv(s, StepWanted, noted);
      ContinueKeepsInv(noted);
    case ContinuePacket => ContinueKeepsInv(s);
    case InterruptByte => LogKeepsInv(s, HaltAsked, Next(s, e));
    case VCont(text) => VContKeepsInv(s, text);
    case NonStop(on) => LogKeepsInv(s, Answered, Next(s, e));
    case Detach => LogKeepsInv(s, Answered, Next(s, e));
    case OtherPacket => LogKeepsInv(s, Answered, Next(s, e));
    case OtherClients(target) =>
  }

  lemma {:induction false} RunKeepsInv(s: State, events: seq<Event>)
    requires Inv(s)
    ensures Inv(Run(s, events))
    decreases |events|
  {
    hide Inv, Next;
    if |events| > 0 {
      NextKeepsInv(s, events[0]);
      RunKeepsInv(Next(s, events[0]), events[1..]);
    }
  }

  // ---- what a client sees --------------------------------------------------

  /** Between two stop replies, and before the first, something was accepted; in
      either mode, for every session. */
  lemma StopsAreAnswers(target: bool, events: seq<Event>, i: int, j: nat)
    requires var log := Run(Init(target), events).log;
             -1 <= i < j < |log| && log[j].Stopped? && (i >= 0 ==> log[i].Stopped?)
    ensures var log := Run(Init(target), events).log;
            exists k :: i < k < j && Accepted(log[k])
  {
    var log := Run(Init(target), events).log;
    RunKeepsInv(Init(target), events);
    assert Justified(log, j);
    OwedMeans(log[..j]);
    var k :| 0 <= k < j && Accepted(log[..j][k]) && forall i :: k < i < j ==> !log[..j][i].Stopped?;
    assert Accepted(log[k]);
    assert i >= 0 ==> log[..j][i].Stopped?;
  }

  function Count(log: seq<Action>, stops: bool): nat {
    if |log| == 0 then 0
    else
      var last := log[|log| - 1];
      Count(log[..|log| - 1], stops) + if (if stops then last.Stopped? else Accepted(last)) then 1 else 0
  }

  lemma {:induction false} NoMoreStopsThanRequests(log: seq<Action>)
    requires forall k :: 0 <= k < |log| ==> Justified(log, k)
    ensures Count(log, true) + (if Owed(log) then 1 else 0) <= Count(log, false)
  {
    if |log| > 0 {
      var n := |log| - 1;
      var before := log[..n];
      forall k | 0 <= k < |before| ensures Justified(before, k) {
        assert Justified(log, k) && before[..k] == log[..k];
      }
      NoMoreStopsThanRequests(before);
      assert Justified(log, n);
    }
  }

  /** Polling a halted target reports it once if a stop is owed, and not at all
      otherwise; afterwards nothing is owed and no step is pending. */
  lemma HaltIsReportedOnce(target: bool, events: seq<Event>, reason: HaltReason, again: HaltReason)
    requires reason != Running && Run(Init(target), events).target
    ensures var s := Run(Init(target), events);
            var polled := Next(s, Silence(reason));
            && polled.log == (if !Owed(s.log) then s.log
                              else s.log + [Stopped(s.nonStop, Signalled(reason), reason == Watchpoint)])
            && (Owed(s.log) ==> !polled.runState && !polled.singleStep)
            && !Owed(polled.log) && Next(polled, Silence(again)) == polled
  {
    var s := Run(Init(target), events);
    RunKeepsInv(Init(target), events);
    NextKeepsInv(s, Silence(reason));
  }

  /** In every session: an interrupt asks for one halt and nothing else; from then on a
      stop is owed; and with a target, the next poll that finds it halted sends one. */
  lemma InterruptIsAnswered(target: bool, events: seq<Event>, reason: HaltReason)
    requires reason != Running
    ensures var s := Run(Init(target), events);
            var asked := Run(Init(target), events + [InterruptByte]);
            var polled := Run(Init(target), events + [InterruptByte] + [Silence(reason)]);
            && asked.log == s.log + [HaltAsked] && asked.target == s.target && Owed(asked.log)
            && polled.log == asked.log + (if s.target
                                          then [Stopped(s.nonStop, Signalled(reason), reason == Watchpoint)] else [])
            && (s.target ==> !Owed(polled.log) && !polled.runState && !polled.singleStep)
  {
    RunSnoc(Init(target), events, InterruptByte);
    RunSnoc(Init(target), events + [InterruptByte], Silence(reason));
    var s := Run(Init(target), events);
    Appended(s.log, HaltAsked);
    var asked := Next(s, InterruptByte);
    if s.target {
      Appended(asked.log, Stopped(asked.nonStop, Signalled(reason), reason == Watchpoint));
    }
  }

  lemma {:induction false} RunSnoc(s: State, events: seq<Event>, e: Event)
    ensures Run(s, events + [e]) == Next(Run(s, events), e)
    decreases |events|
  {
    hide Next;
    if |events| > 0 {
      RunSnoc(Next(s, events[0]), events[1..], e);
      assert (events + [e])[1..] == events[1..] + [e];
    } else {
      assert (events + [e])[1..] == [];
    }
  }

  /** The mode is that of the last QNonStop packet, and the target is there unless the
      last word on it was that it is not. */
  function LastMode(events: seq<Event>): bool {
    if |events| == 0 then false
    else
      var last := events[|events| - 1];
      if last.NonStop? then last.on else LastMode(events[..|events| - 1])
  }

  function LastTarget(target: bool, events: seq<Event>): bool {
    if |events| == 0 then target
    else
      var last := events[|events| - 1];
      if last.Detach? then false
      else if last.OtherClients? then last.target
      else LastTarget(target, events[..|events| - 1])
  }

  lemma {:induction false} ModeAndTarget(target: bool, events: seq<Event>)
    ensures Run(Init(target), events).nonStop == LastMode(events)
    ensures Run(Init(target), events).target == LastTarget(target, events)
  {
    if |events| > 0 {
      var n := |events| - 1;
      var s := Run(Init(target), events[..n]);
      ModeAndTarget(target, events[..n]);
      RunSnoc(Init(target), events[..n], events[n]);
      assert events == events[..n] + [events[n]];
      OneEvent(s, events[n]);
      hide Next;
    }
  }

  lemma OneEvent(s: State, e: Event)
    ensures Next(s, e).nonStop == if e.NonStop? then e.on else s.nonStop
    ensures Next(s, e).target == if e.Detach? then false else if e.OtherClients? then e.target else s.target
  {
    hide OnVCont;
    if e.VCont? {
      VContKeepsTarget(s, e.text);
    }
  }

  lemma VContKeepsTarget(s: State, text: string)
    ensures OnVCont(s, text).target == s.target && OnVCont(s, text).nonStop == s.nonStop
  {
    LettersAreDeeds(Log(s.(singleStep := false), StepForgotten), Actions(text));
  }

  /** A resume steps exactly when an `s` came since the last stop and the last
      accepted vCont, refused or not. */
  lemma ResumeSteps(target: bool, events: seq<Event>, k: nat)
    requires var log := Run(Init(target), events).log; k < |log| && log[k].Resumed?
    ensures var log := Run(Init(target), events).log;
            log[k].stepping == Stepping(log[..k])
  {
    RunKeepsInv(Init(target), events);
    assert Justified(Run(Init(target), events).log, k);
  }

  /** So a step refused for want of a target turns the next continue into one. */
  lemma RefusedStepSticks()
    ensures Run(Init(false), [StepPacket, OtherClients(true), ContinuePacket]).log
         == [StepWanted, Refused, Resumed(true)]
  {
    var events := [StepPacket, OtherClients(true), ContinuePacket];
    var one := Next(Init(false), events[0]);
    var two := Next(one, events[1]);
    assert events[1..][0] == OtherClients(true) && events[1..][1..][0] == ContinuePacket;
    assert Run(Next(two, ContinuePacket), events[1..][1..][1..]) == Next(two, ContinuePacket);
    assert Run(two, events[1..][1..]) == Next(two, ContinuePacket);
    assert Run(one, events[1..]) == Next(two, ContinuePacket);
  }

  /** Whether the first resume of a log steps, if there is one. */
  function FirstResume(log: seq<Action>): Option<bool> {
    if |log| == 0 then None
    else if log[0].Resumed? then Some(log[0].stepping)
    else FirstResume(log[1..])
  }

  lemma {:induction false} FirstResumeAppend(a: seq<Action>, b: seq<Action>)
    ensures FirstResume(a + b) == if FirstResume(a).Some? then FirstResume(a) else FirstResume(b)
  {
    if |a| == 0 {
      assert a + b == b;
    } else {
      FirstResumeAppend(a[1..], b);
      assert (a + b)[0] == a[0] && (a + b)[1..] == a[1..] + b;
    }
  }

  lemma {:induction false} FirstResumeMeans(log: seq<Action>)
    ensures FirstResume(log).Some? <==> exists k :: 0 <= k < |log| && log[k].Resumed?
  {
    if |log| > 0 {
      FirstResumeMeans(log[1..]);
      if k :| 0 <= k < |log| && log[k].Resumed? {
        assert k > 0 ==> log[1..][k - 1].Resumed?;
      }
      if k :| 0 <= k < |log[1..]| && log[1..][k].Resumed? {
        assert log[k + 1].Resumed?;
      }
    }
  }

  lemma IndexOfRest(text: string)
    requires |text| > 0
    ensures text[0] == 'c' ==> 'c' in text && IndexOf('c', text) == 0
    ensures text[0] != 'c' ==> ('c' in text <==> 'c' in text[1..])
    ensures text[0] != 'c' ==>
              ('s' in text[..IndexOf('c', text)] <==> text[0] == 's' || 's' in text[1..][..IndexOf('c', text[1..])])
  {
    assert text == [text[0]] + text[1..];
    if text[0] != 'c' {
      var i := IndexOf('c', text[1..]);
      assert text[..i + 1] == [text[0]] + text[1..][..i];
    }
  }

  lemma OneLetter(s: State, c: char)
    ensures var next := OnLetter(s, c);
            && s.log <= next.log
            && FirstResume(next.log[|s.log|..]) == (if c == 'c' then Some(s.singleStep) else None)
            && next.singleStep == (s.singleStep || c == 's')
  {
    var added := OnLetter(s, c).log[|s.log|..];
    assert |added| <= 1 && (|added| == 1 ==> added[1..] == []);
  }

  lemma {:induction false} LettersResume(s: State, text: string)
    ensures var log := OnLetters(s, text).log;
            && s.log <= log
            && FirstResume(log[|s.log|..])
               == if 'c' in text then Some(s.singleStep || 's' in text[..IndexOf('c', text)]) else None
    decreases |text|
  {
    if |text| > 0 {
      hide OnLetter, FirstResume, IndexOf;
      var next := OnLetter(s, text[0]);
      var log := OnLetters(next, text[1..]).log;
      LettersResume(next, text[1..]);
      OneLetter(s, text[0]);
      IndexOfRest(text);
      assert log[|s.log|..] == next.log[|s.log|..] + log[|next.log|..];
      FirstResumeAppend(next.log[|s.log|..], log[|next.log|..]);
    }
  }

  /** The action each letter stands for, in order; a resume steps if an `s` came before
      it, here or earlier. */
  function Deeds(stepping: bool, text: string): seq<Action>
    decreases |text|
  {
    if |text| == 0 then [] else Deed(stepping, text[0]) + Deeds(stepping || text[0] == 's', text[1..])
  }

  function Deed(stepping: bool, c: char): seq<Action> {
    if c == 'c' then [Resumed(stepping)]
    else if c == 't' then [HaltAsked]
    else if c == 's' then [StepArmed]
    else []
  }

  lemma OneDeed(s: State, c: char)
    ensures OnLetter(s, c)
         == State(s.target, s.runState || c == 'c' || c == 't' || c == 's', s.singleStep || c == 's', s.nonStop,
                  s.log + Deed(s.singleStep, c))
  {
  }

  lemma {:induction false} LettersAreDeeds(s: State, text: string)
    ensures OnLetters(s, text)
         == State(s.target, s.runState || 'c' in text || 't' in text || 's' in text, s.singleStep || 's' in text,
                  s.nonStop, s.log + Deeds(s.singleStep, text))
    decreases |text|
  {
    if |text| > 0 {
      hide OnLetter, Deed;
      var next := OnLetter(s, text[0]);
      OneDeed(s, text[0]);
      assert text == [text[0]] + text[1..];
      LettersAreDeeds(next, text[1..]);
      Regroup(s.log, Deed(s.singleStep, text[0]), Deeds(next.singleStep, text[1..]));
    }
  }

  function CountOf(c: char, text: string): nat {
    if |text| == 0 then 0 else (if text[0] == c then 1 else 0) + CountOf(c, text[1..])
  }

  function Halts(log: seq<Action>): nat {
    if |log| == 0 then 0 else (if log[0].HaltAsked? then 1 else 0) + Halts(log[1..])
  }

  /** One halt is asked for each `t`. */
  lemma {:induction false} HaltsAreCounted(stepping: bool, text: string)
    ensures Halts(Deeds(stepping, text)) == CountOf('t', text)
    decreases |text|
  {
    if |text| > 0 {
      HaltsAreCounted(stepping || text[0] == 's', text[1..]);
      var first, rest := Deed(stepping, text[0]), Deeds(stepping || text[0] == 's', text[1..]);
      if |first| == 1 {
        assert (first + rest)[1..] == rest;
      } else {
        assert first + rest == rest;
      }
    }
  }

  /** In every session: an accepted vCont does what its letters say, in order, asks for
      one halt for each `t`, and leaves a stop owed if there is any of the three letters
      or one was owed before. */
  lemma VContExactly(target: bool, events: seq<Event>, text: string)
    requires var rest := Actions(text); Run(Init(target), events).target && !(|rest| > 0 && rest[0] == '?')
    ensures var s, rest := Run(Init(target), events), Actions(text);
            var after := Run(Init(target), events + [VCont(text)]);
            && after.log == s.log + [StepForgotten] + Deeds(false, rest) + [Answered]
            && Halts(Deeds(false, rest)) == CountOf('t', rest)
            && (Owed(after.log) <==> Owed(s.log) || 'c' in rest || 't' in rest || 's' in rest)
  {
    var s, rest := Run(Init(target), events), Actions(text);
    RunSnoc(Init(target), events, VCont(text));
    RunKeepsInv(Init(target), events);
    VContKeepsInv(s, text);
    HaltsAreCounted(false, rest);
    hide Actions, Deeds, Owed, Stepping;
    LettersAreDeeds(Log(s.(singleStep := false), StepForgotten), rest);
  }

  /** For every text: an accepted vCont resumes the target if and only if a `c` occurs
      in it, and its first resume steps if and only if an `s` comes before. */
  lemma VContResumesExactly(s: State, text: string)
    requires var rest := Actions(text); s.target && !(|rest| > 0 && rest[0] == '?')
    ensures var rest, log := Actions(text), OnVCont(s, text).log;
            && s.log <= log
            && (FirstResume(log[|s.log|..]).Some? <==> 'c' in rest)
            && ('c' in rest ==> FirstResume(log[|s.log|..]) == Some('s' in rest[..IndexOf('c', rest)]))
            && ((exists k :: |s.log| <= k < |log| && log[k].Resumed?) <==> 'c' in rest)
  {
    var rest := Actions(text);
    var cleared := Log(s.(singleStep := false), StepForgotten);
    var moved := OnLetters(cleared, rest);
    LettersResume(cleared, rest);
    var log := OnVCont(s, text).log;
    assert log == moved.log + [Answered];
    var added := log[|s.log|..];
    assert added == [StepForgotten] + (moved.log[|cleared.log|..] + [Answered]);
    FirstResumeAppend([StepForgotten], moved.log[|cleared.log|..] + [Answered]);
    FirstResumeAppend(moved.log[|cleared.log|..], [Answered]);
    assert FirstResume([StepForgotten]) == FirstResume([StepForgotten][1..]) == None;
    assert FirstResume([Answered]) == FirstResume([Answered][1..]) == None;
    FirstResumeMeans(added);
    if k :| |s.log| <= k < |log| && log[k].Resumed? {
      assert added[k - |s.log|].Resumed?;
    }
    if k :| 0 <= k < |added| && added[k].Resumed? {
      assert log[k + |s.log|].Resumed?;
    }
  }

  /** So a vCont with only a step resumes nothing, while the client is owed a stop. */
  lemma LoneStepResumesNothing(s: State)
    requires s.target
    ensures var after := OnVCont(s, ";s");
            after.runState && after.singleStep && after.log == s.log + [StepForgotten, StepArmed, Answered]
  {
    var text := ";s";
    assert text[..IndexOf('\0', text)] == text;
    assert text[1..] == "s";
    var cleared := Log(s.(singleStep := false), StepForgotten);
    assert OnLetters(cleared, "s") == OnLetters(OnLetter(cleared, 's'), "s"[1..]) == OnLetter(cleared, 's');
  }

  // ---- the code ------------------------------------------------------------

  class Session {
    var target: bool
    var runState: bool
    var singleStep: bool
    var nonStop: bool
    var log: seq<Action>

    ghost function Now(): State
      reads this
    {
      State(target, runState, singleStep, nonStop, log)
    }

    constructor (target: bool)
      ensures Now() == Init(target)
    {
      this.target := target;
      runState, singleStep, nonStop := false, false, false;
      log := [];
    }

    method Put(a: Action)
      modifies this`log
      ensures log == old(log) + [a]
    {
      log := log + [a];
    }

    method Poll(reason: HaltReason)
      modifies this
      ensures Now() == Next(old(Now()), Silence(reason))
      ensures target == old(target) && nonStop == old(nonStop)
      ensures if old(runState) && target && reason != Running then
                && !runState && !singleStep
                && log == old(log) + [match reason
                                      case Failed => Stopped(nonStop, SigLost, false)
                                      case Requested => Stopped(nonStop, SigInt, false)
                                      case Watchpoint => Stopped(nonStop, SigTrap, true)
                                      case Fault => Stopped(nonStop, SigSegv, false)
                                      case _ => Stopped(nonStop, SigTrap, false)]
              else runState == old(runState) && singleStep == old(singleStep) && log == old(log)
    {
      if runState && target {
        match reason {
          case Failed => Put(Stopped(nonStop, SigLost, false));
          case Requested => Put(Stopped(nonStop, SigInt, false));
          case Watchpoint => Put(Stopped(nonStop, SigTrap, true));
          case Fault => Put(Stopped(nonStop, SigSegv, false));
          case Running =>
          case OtherHalt => Put(Stopped(nonStop, SigTrap, false));
        }
        if runState && reason != Running {
          runState := false;
          singleStep := false;
        }
      }
    }

    /** `s` and `S` fall through to `c` and `C`. */
    method StepOrContinue(step: bool)
      modifies this
      ensures Now() == Next(old(Now()), if step then StepPacket else ContinuePacket)
      ensures target == old(target) && nonStop == old(nonStop)
      ensures singleStep == (step || old(singleStep)) && runState == (target || old(runState))
      ensures log == old(log) + (if step then [StepWanted] else []) + [if target then Resumed(singleStep) else Refused]
    {
      if step {
        singleStep := true;
        Put(StepWanted);
      }
      if !target {
        Put(Refused);
        return;
      }
      Put(Resumed(singleStep));
      runState := true;
    }

    method Interrupt()
      modifies this
      ensures Now() == Next(old(Now()), InterruptByte)
      ensures Now() == old(Now()).(runState := true, log := old(log) + [HaltAsked])
    {
      runState := true;
      Put(HaltAsked);
    }

    method HandleVCont(text: string)
      modifies this
      ensures Now() == Next(old(Now()), VCont(text))
      ensures target == old(target) && nonStop == old(nonStop)
      ensures var rest := Actions(text);
              if |rest| > 0 && rest[0] == '?' then Now() == old(Now()).(log := old(log) + [Answered])
              else if !target then Now() == old(Now()).(log := old(log) + [Refused])
              else
                && log == old(log) + [StepForgotten] + Deeds(false, rest) + [Answered]
                && singleStep == ('s' in rest)
                && runState == (old(runState) || 'c' in rest || 't' in rest || 's' in rest)
    {
      var c := 0;
      if |text| > 0 && text[0] == ';' {
        c := 1;
      }
      ghost var rest, n := Actions(text), IndexOf('\0', text);
      assert c <= n && rest == text[c..n];
      if c < |text| && text[c] == '?' {
        Put(Answered);
        return;
      }
      if !target {
        Put(Refused);
        return;
      }
      singleStep := false;
      Put(StepForgotten);
      LettersAreDeeds(Now(), rest);
      Letters(text, c);
      Put(Answered);
    }

    /** The loop over the letters, up to the NUL that ends the packet. */
    method Letters(text: string, first: nat)
      requires first <= IndexOf('\0', text)
      modifies this
      ensures Now() == OnLetters(old(Now()), text[first..IndexOf('\0', text)])
    {
      hide OnLetter, OnLetters, IndexOf;
      ghost var start, n := Now(), IndexOf('\0', text);
      var c := first;
      while c < |text| && text[c] != '\0'
        invariant first <= c <= n
        invariant OnLetters(Now(), text[c..n]) == OnLetters(start, text[first..n])
      {
        assert c < n && text[c..n][1..] == text[c + 1..n];
        LettersUnfold(Now(), text[c..n]);
        Letter(text[c]);
        c := c + 1;
      }
      LettersUnfold(Now(), text[c..n]);
    }

    lemma LettersUnfold(s: State, text: string)
      ensures |text| == 0 ==> OnLetters(s, text) == s
      ensures |text| > 0 ==> OnLetters(s, text) == OnLetters(OnLetter(s, text[0]), text[1..])
    {
    }

    method Letter(c: char)
      modifies this
      ensures Now() == OnLetter(old(Now()), c)
    {
      match c {
        case 'c' =>
          runState := true;
          Put(Resumed(singleStep));
        case 't' =>
          Put(HaltAsked);
          runState := true;
        case 's' =>
          runState := true;
          singleStep := true;
          Put(StepArmed);
        case _ =>
      }
    }
  }

  // ---- strings in pieces ---------------------------------------------------

  datatype Piece = More(text: string) | End | Error

  /** handle_q_string_reply, once offset and length are read. */
  method StringReply(str: string, addr: nat, len: nat) returns (p: Piece)
    ensures p == PieceAt(str, addr, len)
    ensures p == if addr > |str| then Error else if addr == |str| then End else More(str[addr..Min(addr + len, |str|)])
  {
    if addr < |str| {
      var n := len;
      if n > |str[addr..]| {
        n := |str[addr..]|;
      }
      p := More(str[addr..][..n]);
    } else if addr == |str| {
      p := End;
    } else {
      p := Error;
    }
  }

  function PieceAt(str: string, addr: nat, len: nat): Piece {
    if addr < |str| then More(str[addr..addr + Min(len, |str| - addr)])
    else if addr == |str| then End
    else Error
  }

  datatype Transfer = Transfer(got: string, ended: bool, failed: bool)

  /** A client that asks for the lengths given, each time from where it is. */
  function Fetch(str: string, lengths: seq<nat>): Transfer {
    if |lengths| == 0 then Transfer("", false, false)
    else
      var before := Fetch(str, lengths[..|lengths| - 1]);
      if before.ended || before.failed then before
      else
        match PieceAt(str, |before.got|, lengths[|lengths| - 1])
        case More(text) => before.(got := before.got + text)
        case End => before.(ended := true)
        case Error => before.(failed := true)
  }

  /** Whatever positive lengths a client asks for: it never sees an error, has a
      prefix at any time, the whole string when told that it ends, and is told so
      after at most one request more than there are characters. */
  lemma {:induction false} FetchGetsTheString(str: string, lengths: seq<nat>)
    requires forall i :: 0 <= i < |lengths| ==> lengths[i] > 0
    ensures var t := Fetch(str, lengths);
            && !t.failed
            && |t.got| <= |str| && t.got == str[..|t.got|]
            && (t.ended ==> t.got == str)
            && (!t.ended ==> |t.got| >= Min(|lengths|, |str|))
            && (|lengths| > |str| ==> t.ended)
  {
    if |lengths| > 0 {
      var n := |lengths| - 1;
      FetchGetsTheString(str, lengths[..n]);
      var before := Fetch(str, lengths[..n]);
      if !before.ended && |before.got| < |str| {
        var to := |before.got| + Min(lengths[n], |str| - |before.got|);
        assert str[..|before.got|] + str[|before.got|..to] == str[..to];
      }
    }
  }
}
