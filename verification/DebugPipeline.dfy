// The debug log: putc_remote and dbg_task of main/platform.c over the buffer of
// main/CBUF.h, and http_debug_putc of main/http.c. The queue is as large as the
// range of its 8-bit indices and the producer never looks whether it is full.

module DebugPipeline {
  import opened Common
  import opened CircularBuffer
  import opened RingProtocol

  const NEWLINE: byte := 10
  const CARRIAGE_RETURN: byte := 13
  const ENTRIES: nat := 256

  /** The log as terminals want it. */
  function Expand(log: seq<byte>): seq<byte> {
    if |log| == 0 then [] else ExpandOne(log[0]) + Expand(log[1..])
  }

  function ExpandOne(c: byte): seq<byte> {
    if c == NEWLINE then [CARRIAGE_RETURN, NEWLINE] else [c]
  }

  function Lines(lines: seq<seq<byte>>, end: seq<byte>): seq<byte> {
    if |lines| == 0 then [] else lines[0] + end + Lines(lines[1..], end)
  }

  /** For every log, as lines and the rest of the last one: each LF becomes CR LF, and
      nothing else changes. */
  lemma {:induction false} LinesGetCrLf(lines: seq<seq<byte>>, rest: seq<byte>)
    requires 10 !in rest && forall i :: 0 <= i < |lines| ==> 10 !in lines[i]
    ensures Expand(Lines(lines, [10]) + rest) == Lines(lines, [13, 10]) + rest
  {
    if |lines| == 0 {
      PlainText(rest, []);
      assert Lines(lines, [10]) + rest == rest + [] && Lines(lines, [13, 10]) + rest == rest + Expand([]);
    } else {
      LinesGetCrLf(lines[1..], rest);
      hide Expand;
      OneLine(lines[0], Lines(lines[1..], [10]) + rest);
      Regroup(lines[0] + [10], Lines(lines[1..], [10]), rest);
      Regroup(lines[0] + [13, 10], Lines(lines[1..], [13, 10]), rest);
    }
  }

  lemma OneLine(line: seq<byte>, more: seq<byte>)
    requires 10 !in line
    ensures Expand(line + [10] + more) == line + [13, 10] + Expand(more)
  {
    PlainText(line, [10] + more);
    assert ([10] + more)[1..] == more && Expand([10] + more) == [13, 10] + Expand(more);
    hide Expand;
    Regroup(line, [10], more);
    Regroup(line, [13, 10], Expand(more));
  }

  lemma {:induction false} PlainText(text: seq<byte>, more: seq<byte>)
    requires 10 !in text
    ensures Expand(text + more) == text + Expand(more)
  {
    if |text| == 0 {
      assert text + more == more && text + Expand(more) == Expand(more);
    } else {
      PlainText(text[1..], more);
      assert (text + more)[0] == text[0] && (text + more)[1..] == text[1..] + more;
      assert Expand(text + more) == [text[0]] + Expand(text[1..] + more);
      assert text == [text[0]] + text[1..];
      hide Expand;
      Regroup([text[0]], text[1..], Expand(more));
    }
  }

  // ---- http_debug_putc -----------------------------------------------------

  /** The frames broadcast so far and the bytes held back. */
  datatype Http = Http(sent: seq<seq<byte>>, held: seq<byte>)

  function Collect(h: Http, c: byte): Http {
    var held := h.held + [c];
    if c == NEWLINE || |held| == ENTRIES then Http(h.sent + [held], []) else h.(held := held)
  }

  function CollectAll(h: Http, bytes: seq<byte>): Http
    decreases |bytes|
  {
    if |bytes| == 0 then h else CollectAll(Collect(h, bytes[0]), bytes[1..])
  }

  ghost predicate NoNewline(s: seq<byte>) {
    forall i :: 0 <= i < |s| ==> s[i] != NEWLINE
  }

  /** A frame ends a line or is full. */
  ghost predicate IsFrame(f: seq<byte>) {
    && 0 < |f| <= ENTRIES
    && NoNewline(f[..|f| - 1])
    && (f[|f| - 1] == NEWLINE || |f| == ENTRIES)
  }

  ghost predicate Framed(h: Http) {
    && (forall i :: 0 <= i < |h.sent| ==> IsFrame(h.sent[i]))
    && |h.held| < ENTRIES && NoNewline(h.held)
  }

  function Shown(h: Http): seq<byte> {
    Concat(h.sent) + h.held
  }

  lemma CollectKeeps(h: Http, c: byte)
    requires Framed(h)
    ensures Framed(Collect(h, c)) && Shown(Collect(h, c)) == Shown(h) + [c]
  {
    var held := h.held + [c];
    ConcatSnoc(h.sent, held);
    assert held[..|held| - 1] == h.held;
    assert Concat(h.sent) + held == Shown(h) + [c];
  }

  lemma {:induction false} CollectAllKeeps(h: Http, bytes: seq<byte>)
    requires Framed(h)
    ensures Framed(CollectAll(h, bytes)) && Shown(CollectAll(h, bytes)) == Shown(h) + bytes
    decreases |bytes|
  {
    if |bytes| == 0 {
      assert Shown(h) + bytes == Shown(h);
    } else {
      CollectKeeps(h, bytes[0]);
      hide Framed, Shown;
      CollectAllKeeps(Collect(h, bytes[0]), bytes[1..]);
      assert Shown(h) + [bytes[0]] + bytes[1..] == Shown(h) + bytes;
    }
  }

  // ---- the tasks, step by step ---------------------------------------------

  datatype Task = Waiting | Draining

  /** `giving` is the producer between its push of a newline and the semaphore;
      `hand` is the byte dbg_task has popped and not yet passed on. */
  datatype System = System(
    ring: Ring<byte>, giving: bool, sem: bool,
    task: Task, hand: Option<byte>, http: Http)

  datatype Move = Ringing(step: Step) | Give | Wake | Sleep | Deliver

  function Setup(log: seq<byte>): Config<byte> {
    Config(ENTRIES, ENTRIES, false, Expand(log))
  }

  ghost predicate Fit(log: seq<byte>, s: System) {
    Sane(Setup(log), s.ring) && Busy(Setup(log), s.ring)
  }

  ghost predicate MayMove(log: seq<byte>, s: System, move: Move)
    requires Fit(log, s)
  {
    match move
    case Ringing(step) =>
      && Enabled(Setup(log), s.ring, step)
      && (if step.Clear? || step.Store? || step.BumpPut? then !s.giving else s.task.Draining? && s.hand.None?)
    case Give => s.giving
    case Wake => s.task.Waiting? && s.sem
    case Sleep => s.task.Draining? && s.hand.None? && s.ring.consumer.Resting? && Length(Setup(log), s.ring) == 0
    case Deliver => s.hand.Some?
  }

  function Moved(log: seq<byte>, s: System, move: Move): (after: System)
    requires Fit(log, s) && MayMove(log, s, move)
    ensures Fit(log, after)
  {
    match move
    case Ringing(step) =>
      var ring := Do(Setup(log), s.ring, step);
      if step.BumpPut? then s.(ring := ring, giving := Expand(log)[s.ring.produced] == NEWLINE)
      else if step.BumpGet? then s.(ring := ring, hand := Some(s.ring.consumer.elem))
      else s.(ring := ring)
    case Give => s.(giving := false, sem := true)
    case Wake => s.(task := Draining, sem := false)
    case Sleep => s.(task := Waiting)
    case Deliver => s.(hand := None, http := Collect(s.http, s.hand.value))
  }

  function Start(log: seq<byte>, entries: seq<byte>): System
    requires |entries| == ENTRIES
  {
    System(Init(Setup(log), entries), false, false, Waiting, None, Http([], []))
  }

  ghost predicate Goes(log: seq<byte>, s: System, after: System) {
    Fit(log, s) && exists move :: MayMove(log, s, move) && after == Moved(log, s, move)
  }

  ghost predicate IsHistory(log: seq<byte>, states: seq<System>) {
    && |states| > 0
    && |states[0].ring.entries| == ENTRIES && states[0] == Start(log, states[0].ring.entries)
    && forall i :: 0 < i < |states| ==> Goes(log, states[i - 1], states[i])
  }

  function Hand(s: System): seq<byte> {
    if s.hand.Some? then [s.hand.value] else []
  }

  // ---- what every state keeps ----------------------------------------------

  /** This half never depends on how much is outstanding. */
  ghost predicate Passed(log: seq<byte>, s: System) {
    && Fit(log, s)
    && Framed(s.http)
    && Shown(s.http) + Hand(s) == s.ring.consumed
    && (s.task.Waiting? ==> s.hand.None? && s.ring.consumer.Resting?)
    && (s.hand.Some? ==> s.ring.consumer.Resting?)
  }

  /** No newline waits in the queue unless someone is about to fetch it. */
  ghost predicate Awake(log: seq<byte>, s: System) {
    s.task.Waiting? && !s.sem && !s.giving && |s.ring.consumed| <= s.ring.produced <= |Expand(log)| ==>
      NoNewline(Expand(log)[|s.ring.consumed|..s.ring.produced])
  }

  ghost predicate Good(log: seq<byte>, s: System) {
    Inv(Setup(log), s.ring) && Passed(log, s) && Awake(log, s)
  }

  lemma GoesKeepsPassed(log: seq<byte>, s: System, after: System)
    requires Passed(log, s) && Goes(log, s, after)
    ensures Passed(log, after)
  {
    hide Framed, Shown, Collect, Expand, Sane, Busy;
    var move :| MayMove(log, s, move) && after == Moved(log, s, move);
    if move.Deliver? {
      CollectKeeps(s.http, s.hand.value);
      assert Shown(after.http) + Hand(after) == Shown(s.http) + Hand(s);
    } else {
      assert after.ring.consumed == s.ring.consumed + if move == Ringing(BumpGet) then Hand(after) else [];
      assert move == Ringing(BumpGet) ==> Hand(s) == [];
    }
  }

  lemma GoesKeepsAwake(log: seq<byte>, s: System, after: System)
    requires Good(log, s) && Goes(log, s, after)
    ensures Awake(log, after)
  {
    hide Framed, Shown, Collect, Expand, Busy, Visible, Minus;
    var move :| MayMove(log, s, move) && after == Moved(log, s, move);
    if move == Ringing(BumpPut) && after.task.Waiting? && !after.sem && !after.giving {
      var all, from, to := Expand(log), |s.ring.consumed|, s.ring.produced;
      assert all[from..to + 1] == all[from..to] + [all[to]];
    }
  }

  lemma GoesKeepsRing(log: seq<byte>, s: System, after: System)
    requires Inv(Setup(log), s.ring) && Goes(log, s, after) && Outstanding(after.ring) < ENTRIES
    ensures Inv(Setup(log), after.ring)
  {
    hide Inv, Do, Collect, Expand, Enabled;
    var move :| MayMove(log, s, move) && after == Moved(log, s, move);
    if move.Ringing? {
      hide Minus, Visible;
      assert Follows(Setup(log), s.ring, after.ring);
      StepKeepsInv(Setup(log), s.ring, after.ring);
    }
  }

  lemma GoesKeepsGood(log: seq<byte>, s: System, after: System)
    requires Good(log, s) && Goes(log, s, after) && Outstanding(after.ring) < ENTRIES
    ensures Good(log, after)
  {
    hide Inv, Passed, Awake, Goes;
    GoesKeepsPassed(log, s, after);
    GoesKeepsAwake(log, s, after);
    GoesKeepsRing(log, s, after);
  }

  lemma {:induction false} HistoryKeepsPassed(log: seq<byte>, states: seq<System>)
    requires IsHistory(log, states)
    ensures Passed(log, states[|states| - 1])
  {
    hide Goes;
    var n := |states| - 1;
    if n > 0 {
      HistoryKeepsPassed(log, states[..n]);
      assert Goes(log, states[n - 1], states[n]);
      GoesKeepsPassed(log, states[n - 1], states[n]);
    }
  }

  lemma {:induction false} HistoryKeepsGood(log: seq<byte>, states: seq<System>)
    requires IsHistory(log, states)
    requires forall i :: 0 <= i < |states| ==> Outstanding(states[i].ring) < ENTRIES
    ensures Good(log, states[|states| - 1])
  {
    hide Goes;
    var n := |states| - 1;
    if n > 0 {
      hide Good, Outstanding;
      HistoryKeepsGood(log, states[..n]);
      assert Goes(log, states[n - 1], states[n]);
      GoesKeepsGood(log, states[n - 1], states[n]);
    }
  }

  // ---- conservation --------------------------------------------------------

  /** Everything logged so far is broadcast, held back, in hand or queued. */
  ghost predicate NothingLost(log: seq<byte>, s: System)
    requires Fit(log, s)
  {
    Shown(s.http) + Hand(s) + Queued(Setup(log), s.ring) == Expand(log)[..s.ring.produced]
  }

  /** For every log and every interleaving of the two tasks: 255 outstanding bytes
      are the exact limit. */
  lemma ConservationExactly(log: seq<byte>, states: seq<System>)
    requires IsHistory(log, states)
    requires forall i :: 0 <= i < |states| - 1 ==> Outstanding(states[i].ring) < ENTRIES
    ensures var last := states[|states| - 1];
            Fit(log, last) && (NothingLost(log, last) <==> Outstanding(last.ring) < ENTRIES)
  {
    hide Goes, Inv, Framed, Expand;
    HistoryKeepsPassed(log, states);
    var last := states[|states| - 1];
    if Outstanding(last.ring) < ENTRIES {
      HistoryKeepsGood(log, states);
      InvConserves(Setup(log), last.ring);
    } else {
      hide IsHistory, Visible;
      assert |Shown(last.http) + Hand(last) + Queued(Setup(log), last.ring)| < |Expand(log)[..last.ring.produced]|;
    }
  }

  /** When the producer is between two bytes, and dbg_task waits for a semaphore
      that nobody gave, every line that the log has ended is broadcast. */
  lemma EndedLinesAreBroadcast(log: seq<byte>, states: seq<System>)
    requires IsHistory(log, states)
    requires forall i :: 0 <= i < |states| ==> Outstanding(states[i].ring) < ENTRIES
    ensures var last := states[|states| - 1];
            last.task.Waiting? && !last.sem && !last.giving ==>
              && |Concat(last.http.sent)| <= last.ring.produced <= |Expand(log)|
              && Concat(last.http.sent) == Expand(log)[..|Concat(last.http.sent)|]
              && NoNewline(Expand(log)[|Concat(last.http.sent)|..last.ring.produced])
  {
    hide Goes, Expand;
    HistoryKeepsGood(log, states);
    var last := states[|states| - 1];
    if last.task.Waiting? && !last.sem && !last.giving {
      hide Visible, Minus;
      var all, sent, c, p := Expand(log), |Concat(last.http.sent)|, |last.ring.consumed|, last.ring.produced;
      assert all[..c] == Concat(last.http.sent) + last.http.held;
      assert all[..c][..sent] == all[..sent];
      assert last.http.held == all[..c][sent..] == all[sent..c];
      assert all[sent..p] == last.http.held + all[c..p];
    }
  }

  // ---- the limit is reached ------------------------------------------------

  lemma Plain(log: seq<byte>)
    requires NoNewline(log)
    ensures Expand(log) == log
  {
    PlainText(log, []);
    assert log + [] == log;
  }

  lemma OneMove(log: seq<byte>, states: seq<System>, move: Move) returns (longer: seq<System>)
    requires IsHistory(log, states) && Fit(log, states[|states| - 1])
    requires MayMove(log, states[|states| - 1], move)
    ensures IsHistory(log, longer) && longer == states + [Moved(log, states[|states| - 1], move)]
  {
    hide MayMove, Moved, Expand;
    longer := states + [Moved(log, states[|states| - 1], move)];
    forall i | 0 < i < |longer| ensures Goes(log, longer[i - 1], longer[i]) {
      assert i < |states| ==> longer[i] == states[i] && longer[i - 1] == states[i - 1];
      assert i < |states| ==> Goes(log, states[i - 1], states[i]);
    }
  }

  ghost predicate OnlyLogged(log: seq<byte>, states: seq<System>, n: nat) {
    && IsHistory(log, states)
    && (forall i :: 0 <= i < |states| - 1 ==> Outstanding(states[i].ring) < ENTRIES)
    && var last := states[|states| - 1];
       && Fit(log, last)
       && last.ring.producer.Ready? && last.ring.produced == n && last.ring.consumed == [] && !last.giving
  }

  /** dbg_task sleeps, as it does while no newline is logged, and n bytes come. */
  lemma {:induction false} LogOnly(log: seq<byte>, n: nat) returns (states: seq<System>)
    requires n <= |log| && n <= ENTRIES && NoNewline(log)
    ensures OnlyLogged(log, states, n)
  {
    hide Expand, Goes;
    Plain(log);
    if n == 0 {
      var entries := seq(ENTRIES, i => 0);
      states := [Start(log, entries)];
    } else {
      states := LogOnly(log, n - 1);
      hide IsHistory;
      states := OneMove(log, states, Ringing(Clear));
      states := OneMove(log, states, Ringing(Store));
      states := OneMove(log, states, Ringing(BumpPut));
    }
  }

  /** 256 bytes without a newline are enough to lose them all. */
  lemma LongLineIsLost(log: seq<byte>) returns (states: seq<System>)
    requires NoNewline(log) && |log| >= ENTRIES
    ensures IsHistory(log, states)
    ensures var last := states[|states| - 1];
            Fit(log, last) && last.ring.produced == ENTRIES && !NothingLost(log, last)
  {
    states := LogOnly(log, ENTRIES);
    ConservationExactly(log, states);
  }

  // ---- the code itself -----------------------------------------------------

  class HttpDebug {
    const buf: array<byte>
    var bufsize: nat
    var sent: seq<seq<byte>>

    ghost predicate Valid()
      reads this, buf
    {
      buf.Length == ENTRIES && bufsize < ENTRIES && Framed(Value())
    }

    ghost function Value(): Http
      requires bufsize <= buf.Length
      reads this, buf
    {
      Http(sent, buf[..bufsize])
    }

    constructor ()
      ensures Valid() && fresh(buf) && Value() == Http([], [])
    {
      buf := new byte[ENTRIES];
      bufsize, sent := 0, [];
    }

    method PutC(c: byte, flush: bool)
      requires Valid() && flush == (c == NEWLINE)
      modifies this, buf
      ensures Valid() && Value() == Collect(old(Value()), c)
      ensures var held := old(buf[..bufsize]) + [c];
              if c == 10 || |held| == 256 then sent == old(sent) + [held] && bufsize == 0
              else sent == old(sent) && buf[..bufsize] == held
    {
      ghost var before := Value();
      CollectKeeps(before, c);
      buf[bufsize] := c;
      bufsize := bufsize + 1;
      assert buf[..bufsize] == before.held + [c];
      if flush || bufsize == buf.Length {
        sent := sent + [buf[..bufsize]];
        bufsize := 0;
      }
    }
  }

  class DebugPort {
    const queue: CBuf<byte>
    const http: HttpDebug
    var sem: bool

    ghost predicate Valid()
      reads this, queue, http, http.buf
    {
      && queue.Valid() && queue.indexCount == ENTRIES && queue.entry.Length == ENTRIES
      && http.Valid()
      && queue.entry != http.buf
    }

    constructor ()
      ensures Valid() && fresh(queue) && fresh(http) && fresh(queue.entry) && fresh(http.buf)
      ensures queue.Contents() == [] && Shown(http.Value()) == []
    {
      queue := new CBuf<byte>(ENTRIES, ENTRIES);
      http := new HttpDebug();
      sem := false;
    }

    method DebugPutC(c: byte, flush: bool)
      requires Valid()
      modifies this`sem, queue`putIdx, queue.entry
      ensures Valid() && sem == (old(sem) || flush)
      ensures old(queue.Len()) < 255 ==> queue.Contents() == old(queue.Contents()) + [c]
      ensures old(queue.Len()) == 255 ==> queue.Contents() == []
    {
      queue.Push(c);
      if flush {
        sem := true;
      }
    }

    method PutcRemote(c: byte)
      requires Valid()
      modifies this`sem, queue`putIdx, queue.entry
      ensures Valid() && sem == (old(sem) || c == NEWLINE)
      ensures var bytes := if c == 10 then [13, 10] else [c];
              old(queue.Len()) + |bytes| < 256 ==> queue.Contents() == old(queue.Contents()) + bytes
    {
      if c == NEWLINE {
        DebugPutC(CARRIAGE_RETURN, false);
      }
      DebugPutC(c, c == NEWLINE);
    }

    /** One round of dbg_task, after it took the semaphore. */
    method Drain()
      requires Valid()
      modifies this`sem, queue`getIdx, http, http.buf
      ensures Valid() && queue.Contents() == [] && !sem
      ensures http.Value() == CollectAll(old(http.Value()), old(queue.Contents()))
    {
      sem := false;
      while !queue.IsEmpty()
        invariant Valid() && !sem
        invariant CollectAll(http.Value(), queue.Contents()) == CollectAll(old(http.Value()), old(queue.Contents()))
        decreases |queue.Contents()|
      {
        ghost var before := queue.Contents();
        var c := queue.Pop();
        assert before[0] == c && before[1..] == queue.Contents();
        http.PutC(c, c == NEWLINE);
      }
    }
  }
}
