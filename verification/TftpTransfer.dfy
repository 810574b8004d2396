// The receiver of OtaTftp composed with an RFC 1350 sender (sections 2, 4 and
// 6) over a network that loses, duplicates, delays and reorders: a message once
// sent may be delivered any number of times, at any later moment, or never.

module TftpTransfer {
  import opened Common
  import opened OtaTftp

  const BLOCK: int := 512

  // ---- the file and its packets -------------------------------------------

  /** A transfer ends with the first block shorter than 512 bytes. */
  function BlockCount(file: seq<byte>): int {
    |file| / BLOCK + 1
  }

  function BlockOf(file: seq<byte>, k: int): (b: seq<byte>)
    requires 1 <= k <= BlockCount(file)
    ensures |b| == BLOCK <==> k < BlockCount(file)
    ensures |b| <= BLOCK
  {
    file[(k - 1) * BLOCK..Min(k * BLOCK, |file|)]
  }

  /** The concatenation of blocks 1..n. */
  function Blocks(file: seq<byte>, n: nat): seq<byte>
    requires n <= BlockCount(file)
  {
    if n == 0 then [] else Blocks(file, n - 1) + BlockOf(file, n)
  }

  lemma {:induction false} BlocksArePrefixes(file: seq<byte>, n: nat)
    requires n <= BlockCount(file)
    ensures Blocks(file, n) == file[..Min(n * BLOCK, |file|)]
  {
    if n > 0 {
      BlocksArePrefixes(file, n - 1);
    }
  }

  datatype Message = Wrq | Data(number: nat)

  /** Block numbers are sent modulo 2^16. */
  function Wire(file: seq<byte>, m: Message): seq<byte>
    requires m.Data? ==> 1 <= m.number <= BlockCount(file)
  {
    if m.Wrq? then Request(OP_WRQ, FIRMWARE)
    else Encode16(OP_DATA) + Encode16(m.number) + BlockOf(file, m.number)
  }

  lemma WireReads(file: seq<byte>, m: Message)
    requires m.Data? ==> 1 <= m.number <= BlockCount(file)
    ensures |Wire(file, m)| >= HEADER
    ensures U16(Wire(file, m), 0) == if m.Wrq? then OP_WRQ else OP_DATA
    ensures m.Data? ==> U16(Wire(file, m), 2) == m.number % TWO_16
    ensures m.Data? ==> Wire(file, m)[HEADER..] == BlockOf(file, m.number)
  {
  }

  // ---- the system ----------------------------------------------------------

  /** `current` is the block the sender is sending: 0 while it waits for the
      ACK of its write request, BlockCount + 1 once the last ACK is in. `boot`
      says that tftp_task has made the new image the boot partition. */
  datatype System = System(rx: Rx, current: nat, net: set<Message>, boot: bool)

  datatype Action =
    | SendWrq
    | SendData
    | TakeAck(wire: int)
    | Deliver(m: Message, segments: seq<seq<byte>>, goodWrites: nat, ackFailure: Option<int>)
    | ReceiverTimeout
    | ReceiverFails(code: int)
    | Finish

  /** tftp_task has accepted the write request and sent ACK 0. */
  const INIT: System := System(Start([], [Ack(0)]), 0, {Wrq}, false)

  function Next(file: seq<byte>, s: System, a: Action): System {
    match a
    case SendWrq => s.(net := s.net + {Wrq})
    case SendData =>
      if 1 <= s.current <= BlockCount(file) then s.(net := s.net + {Data(s.current)}) else s
    case TakeAck(wire) =>
      if s.current <= BlockCount(file) && Ack(wire) in s.rx.sent && wire == s.current % TWO_16
      then s.(current := s.current + 1) else s
    case Deliver(m, segments, goodWrites, ackFailure) =>
      if m in s.net && (m.Data? ==> 1 <= m.number <= BlockCount(file))
         && Concat(segments) == Wire(file, m) && WellFormed(Packet(segments, goodWrites, ackFailure))
      then s.(rx := Step(s.rx, Packet(segments, goodWrites, ackFailure))) else s
    case ReceiverTimeout => s.(rx := Step(s.rx, Timeout))
    case ReceiverFails(code) => s.(rx := Step(s.rx, RecvFailed(code)))
    case Finish => if s.rx.status == Some(Ok) then s.(boot := true) else s
  }

  function Exec(file: seq<byte>, s: System, run: seq<Action>): System
    decreases |run|
  {
    if |run| == 0 then s else Exec(file, Next(file, s, run[0]), run[1..])
  }

  // ---- the invariant -------------------------------------------------------

  ghost predicate FlashMatches(file: seq<byte>, rx: Rx) {
    && 1 <= rx.block <= TWO_16
    && (rx.status == None ==>
          && rx.block <= BlockCount(file)
          && rx.flash == Blocks(file, rx.block - 1)
          && rx.receivedLen == |rx.flash|)
    && (rx.status == Some(Ok) ==>
          && rx.block == BlockCount(file) < TWO_16
          && rx.flash == file
          && rx.receivedLen == |file|)
    && rx.flash <= file
  }

  /** An ACK never runs ahead of flash. */
  ghost predicate AcksFollowFlash(file: seq<byte>, rx: Rx) {
    forall n :: Ack(n) in rx.sent ==>
      && 0 <= n <= BlockCount(file)
      && Blocks(file, n) <= rx.flash
      && (n < rx.block || (n == rx.block && rx.status.Some?))
  }

  ghost predicate SenderFollowsAcks(s: System) {
    && (forall j :: 0 <= j < s.current && j < TWO_16 ==> Ack(j) in s.rx.sent)
    && (forall k: nat :: Data(k) in s.net ==> 1 <= k <= s.current)
  }

  ghost predicate Inv(file: seq<byte>, s: System) {
    && FlashMatches(file, s.rx)
    && AcksFollowFlash(file, s.rx)
    && SenderFollowsAcks(s)
    && (s.boot ==> s.rx.status == Some(Ok))
  }

  lemma BlocksGrow(file: seq<byte>, n: nat, m: nat)
    requires n <= m <= BlockCount(file)
    ensures Blocks(file, n) <= Blocks(file, m) <= file
    ensures m == BlockCount(file) ==> Blocks(file, m) == file
  {
    BlocksArePrefixes(file, n);
    BlocksArePrefixes(file, m);
  }

  lemma InitInv(file: seq<byte>)
    ensures Inv(file, INIT)
  {
    BlocksGrow(file, 0, 0);
  }

  /** The ACK part of the invariant survives one more reply that is an error
      or an ACK of a block that is in flash. */
  lemma AcksStillFollow(file: seq<byte>, s: System, rx: Rx, r: Reply)
    requires AcksFollowFlash(file, s.rx) && SenderFollowsAcks(s) && s.rx.status == None
    requires rx.sent == s.rx.sent + [r] && s.rx.block <= rx.block && s.rx.flash <= rx.flash
    requires r.Ack? ==> 0 <= r.wire <= BlockCount(file) && Blocks(file, r.wire) <= rx.flash
    requires r.Ack? ==> r.wire < rx.block || (r.wire == rx.block && rx.status.Some?)
    ensures AcksFollowFlash(file, rx) && SenderFollowsAcks(s.(rx := rx))
  {
    assert forall n :: Ack(n) in s.rx.sent ==> Ack(n) in rx.sent;
    assert forall n :: Ack(n) in rx.sent ==> Ack(n) in s.rx.sent || r == Ack(n);
  }

  /** A receiver step that leaves flash, block and length as they are. */
  lemma QuietStep(file: seq<byte>, s: System, rx: Rx, r: Reply)
    requires Inv(file, s) && s.rx.status == None
    requires rx.block == s.rx.block && rx.flash == s.rx.flash && rx.receivedLen == s.rx.receivedLen
    requires rx.status != Some(Ok)
    requires rx.sent == s.rx.sent + [r] && (r.ErrorReply? || r == Ack(rx.block - 1))
    ensures Inv(file, s.(rx := rx))
  {
    AcksStillFollow(file, s, rx, r);
  }

  lemma TimeoutKeepsInv(file: seq<byte>, s: System, ev: Event)
    requires Inv(file, s) && (ev.Timeout? || ev.RecvFailed?)
    ensures Inv(file, s.(rx := Step(s.rx, ev)))
  {
    if s.rx.status == None {
      var rx := Step(s.rx, ev);
      QuietStep(file, s, rx, rx.sent[|s.rx.sent|]);
    }
  }

  /** While the receiver waits for block b, the sender has not moved past b, so
      a matching wire number can only be block b itself. */
  lemma WireNumberIsExact(file: seq<byte>, s: System, k: nat)
    requires Inv(file, s) && s.rx.status == None && Data(k) in s.net
    requires k % TWO_16 == s.rx.block
    ensures k == s.rx.block
  {
    assert s.rx.block < s.current ==> Ack(s.rx.block) in s.rx.sent;
  }

  /** A delivered message as the receiver reads it, however it is split. */
  lemma ReadsTheMessage(file: seq<byte>, m: Message, ev: Event)
    requires m.Data? ==> 1 <= m.number <= BlockCount(file)
    requires ev.Packet? && WellFormed(ev) && Concat(ev.segments) == Wire(file, m)
    ensures var d := Read(ev);
            && d.isData == m.Data?
            && (m.Data? ==> d.wire == m.number % TWO_16 && Carries(file, m.number, d))
  {
    WireReads(file, m);
    ChunksAreThePayload(ev.segments);
    ConcatOfPrefix(Chunks(ev.segments), Min(ev.goodWrites, |ev.segments|));
    assert Chunks(ev.segments)[..|ev.segments|] == Chunks(ev.segments);
  }

  predicate Carries(file: seq<byte>, k: nat, d: Datagram)
    requires 1 <= k <= BlockCount(file)
  {
    && d.isData
    && d.length == |BlockOf(file, k)| + HEADER
    && d.part <= BlockOf(file, k)
    && (d.whole ==> d.part == BlockOf(file, k))
  }

  lemma PartAppended(file: seq<byte>, b: nat, part: seq<byte>)
    requires 1 <= b <= BlockCount(file) && part <= BlockOf(file, b)
    ensures Blocks(file, b - 1) + part <= Blocks(file, b) <= file
    ensures |Blocks(file, b - 1)| == (b - 1) * BLOCK
    ensures b == BlockCount(file) ==> Blocks(file, b) == file
  {
    BlocksGrow(file, b - 1, b);
    BlocksArePrefixes(file, b - 1);
  }

  lemma AcceptWrites(file: seq<byte>, rx: Rx, d: Datagram)
    requires FlashMatches(file, rx) && rx.status == None && rx.block < TWO_16
    requires Carries(file, rx.block, d)
    ensures FlashMatches(file, Accept(rx, d))
    ensures rx.flash <= Accept(rx, d).flash
    ensures d.whole ==> Accept(rx, d).flash == Blocks(file, rx.block)
  {
    PartAppended(file, rx.block, d.part);
    if d.whole {
      assert Accept(rx, d).flash == Blocks(file, rx.block);
      assert |Accept(rx, d).flash| == |rx.flash| + d.length - HEADER;
    }
  }

  lemma AcceptKeepsInv(file: seq<byte>, s: System, d: Datagram)
    requires Inv(file, s) && s.rx.status == None && s.rx.block < TWO_16
    requires Carries(file, s.rx.block, d)
    ensures Inv(file, s.(rx := Accept(s.rx, d)))
  {
    AcceptWrites(file, s.rx, d);
    if d.whole {
      AcksStillFollow(file, s, Accept(s.rx, d), Ack(s.rx.block));
    }
  }

  lemma DatagramKeepsInv(file: seq<byte>, s: System, m: Message, d: Datagram)
    requires Inv(file, s) && s.rx.status == None && m in s.net
    requires m.Data? ==> 1 <= m.number <= BlockCount(file)
    requires d.isData == m.Data?
    requires m.Data? ==> d.wire == m.number % TWO_16 && Carries(file, m.number, d)
    ensures Inv(file, s.(rx := OnDatagram(s.rx, d)))
  {
    if d.isData && d.wire == s.rx.block {
      WireNumberIsExact(file, s, m.number);
      AcceptKeepsInv(file, s, d);
    } else {
      var rx := OnDatagram(s.rx, d);
      QuietStep(file, s, rx, rx.sent[|s.rx.sent|]);
    }
  }

  lemma DeliverKeepsInv(file: seq<byte>, s: System, m: Message, ev: Event)
    requires Inv(file, s) && m in s.net && (m.Data? ==> 1 <= m.number <= BlockCount(file))
    requires ev.Packet? && WellFormed(ev) && Concat(ev.segments) == Wire(file, m)
    ensures Inv(file, s.(rx := Step(s.rx, ev)))
  {
    if s.rx.status == None {
      ReadsTheMessage(file, m, ev);
      DatagramKeepsInv(file, s, m, Read(ev));
    }
  }

  lemma NextKeepsInv(file: seq<byte>, s: System, a: Action)
    requires Inv(file, s)
    ensures Inv(file, Next(file, s, a))
  {
    match a
    case Deliver(m, segments, goodWrites, ackFailure) =>
      if Next(file, s, a) != s {
        DeliverKeepsInv(file, s, m, Packet(segments, goodWrites, ackFailure));
      }
    case ReceiverTimeout => TimeoutKeepsInv(file, s, Timeout);
    case ReceiverFails(code) => TimeoutKeepsInv(file, s, RecvFailed(code));
    case SendWrq =>
    case SendData =>
    case TakeAck(wire) =>
    case Finish =>
  }

  lemma {:induction false} ExecKeepsInv(file: seq<byte>, s: System, run: seq<Action>)
    requires Inv(file, s)
    ensures Inv(file, Exec(file, s, run))
    decreases |run|
  {
    if |run| > 0 {
      NextKeepsInv(file, s, run[0]);
      ExecKeepsInv(file, Next(file, s, run[0]), run[1..]);
    }
  }

  // ---- the main results ----------------------------------------------------

  /** In every reachable state, for every file: while the receiver runs, flash
      is exactly blocks 1..block-1, each written once; success means flash is
      the whole file and the reported length its size; every other exit leaves
      a prefix; and the boot partition is set only on success. */
  lemma FlashIsCorrect(file: seq<byte>, run: seq<Action>)
    ensures var s := Exec(file, INIT, run);
            && 1 <= s.rx.block
            && (s.rx.status == None ==>
                  s.rx.block <= BlockCount(file) && s.rx.flash == Blocks(file, s.rx.block - 1))
            && (s.rx.status == Some(Ok) ==> s.rx.flash == file && s.rx.receivedLen == |file|)
            && s.rx.flash <= file
            && (s.boot ==> s.rx.flash == file)
  {
    InitInv(file);
    ExecKeepsInv(file, INIT, run);
  }

  /** ACK n is on the network only once blocks 1..n are in flash. */
  lemma AckMeansWritten(file: seq<byte>, run: seq<Action>, n: nat)
    requires Ack(n) in Exec(file, INIT, run).rx.sent
    ensures n <= BlockCount(file) && Blocks(file, n) <= Exec(file, INIT, run).rx.flash
  {
    InitInv(file);
    ExecKeepsInv(file, INIT, run);
  }

  /** A sender that has seen its last block acknowledged can rely on it, for
      every file whose blocks have distinct 16-bit numbers. */
  lemma SenderDoneMeansFileWritten(file: seq<byte>, run: seq<Action>)
    requires |file| < (TWO_16 - 1) * BLOCK
    requires Exec(file, INIT, run).current > BlockCount(file)
    ensures Exec(file, INIT, run).rx.flash == file
  {
    InitInv(file);
    ExecKeepsInv(file, INIT, run);
    var s := Exec(file, INIT, run);
    assert Ack(BlockCount(file)) in s.rx.sent;
    BlocksGrow(file, 0, BlockCount(file));
  }

  // ---- the sender and the receiver in step ---------------------------------

  /** The sender has got the ACK that the receiver sent last, or waits for it, and it
      has been sent. */
  ghost predicate InStep(s: System) {
    s.rx.status == None ==>
      s.rx.block - 1 <= s.current && Ack(s.rx.block - 1) in s.rx.sent
  }

  lemma DatagramKeepsInStep(file: seq<byte>, s: System, m: Message, d: Datagram)
    requires Inv(file, s) && InStep(s) && s.rx.status == None && m in s.net
    requires d.isData == m.Data? && (m.Data? ==> d.wire == m.number % TWO_16)
    ensures InStep(s.(rx := OnDatagram(s.rx, d)))
  {
    if d.isData && d.wire == s.rx.block {
      WireNumberIsExact(file, s, m.number);
    }
  }

  lemma NextKeepsInStep(file: seq<byte>, s: System, a: Action)
    requires Inv(file, s) && InStep(s)
    ensures InStep(Next(file, s, a))
  {
    match a
    case Deliver(m, segments, goodWrites, ackFailure) =>
      if Next(file, s, a) != s && s.rx.status == None {
        var ev := Packet(segments, goodWrites, ackFailure);
        ReadsTheMessage(file, m, ev);
        DatagramKeepsInStep(file, s, m, Read(ev));
      }
    case ReceiverTimeout =>
    case ReceiverFails(code) =>
    case SendWrq =>
    case SendData =>
    case TakeAck(wire) =>
    case Finish =>
  }

  lemma {:induction false} ExecKeepsInStep(file: seq<byte>, s: System, run: seq<Action>)
    requires Inv(file, s) && InStep(s)
    ensures Inv(file, Exec(file, s, run)) && InStep(Exec(file, s, run))
    decreases |run|
  {
    hide Inv, InStep, Next;
    if |run| > 0 {
      NextKeepsInv(file, s, run[0]);
      NextKeepsInStep(file, s, run[0]);
      ExecKeepsInStep(file, Next(file, s, run[0]), run[1..]);
    }
  }

  lemma Reached(file: seq<byte>, run: seq<Action>)
    ensures Inv(file, Exec(file, INIT, run)) && InStep(Exec(file, INIT, run))
  {
    InitInv(file);
    ExecKeepsInStep(file, INIT, run);
  }

  /** Stop and wait: while the receiver expects block b < 2^16, the sender sends block
      b, or it sends block b - 1 and waits for its ACK, which is on its way. */
  lemma StopAndWait(file: seq<byte>, run: seq<Action>)
    requires Exec(file, INIT, run).rx.status == None && Exec(file, INIT, run).rx.block < TWO_16
    ensures var s := Exec(file, INIT, run);
            && s.rx.block - 1 <= s.current <= s.rx.block
            && Ack(s.rx.block - 1) in s.rx.sent
  {
    Reached(file, run);
    var s := Exec(file, INIT, run);
    assert s.rx.block < s.current ==> Ack(s.rx.block) in s.rx.sent;
  }

  /** The sender repeats the block it is sending, and the repeat arrives. */
  function Repeated(file: seq<byte>, s: System, a: Action): System {
    Next(file, Next(file, s, SendData), a)
  }

  /** Whenever the sender still waits for the ACK of the block that the receiver has,
      a repeat of that block, however it is split, and a timeout with retries left add
      exactly the ACK it waits for, and with it the sender goes on. */
  lemma RepeatIsAnswered(file: seq<byte>, run: seq<Action>, a: Action)
    requires var s := Exec(file, INIT, run);
             && s.rx.status == None && 1 < s.rx.block == s.current + 1 && s.current <= BlockCount(file)
             && if a.Deliver? then a.m == Data(s.current) && Concat(a.segments) == Wire(file, a.m)
                                   && |a.segments| > 0 && |a.segments[0]| >= HEADER
                else a.ReceiverTimeout? && s.rx.retries > 0
    ensures var s := Exec(file, INIT, run);
            var t := Repeated(file, s, a);
            && t.rx.sent == s.rx.sent + [Ack(s.current % 0x10000)]
            && t.rx.status == None && t.rx.block == s.rx.block && t.rx.flash == s.rx.flash
            && Next(file, t, TakeAck(s.current % 0x10000)).current == s.current + 1
  {
    Reached(file, run);
    var s := Exec(file, INIT, run);
    var t := Repeated(file, s, a);
    if a.Deliver? {
      var ev := Packet(a.segments, a.goodWrites, a.ackFailure);
      ReadsTheMessage(file, a.m, ev);
      assert t.rx == OnDatagram(s.rx, Read(ev));
    }
    assert t.rx.sent[|s.rx.sent|] == Ack(s.current % 0x10000);
  }

  // ---- which files can be transferred at all -------------------------------

  function Good(file: seq<byte>, k: nat): Action
    requires 1 <= k <= BlockCount(file)
  {
    Deliver(Data(k), [Wire(file, Data(k))], 1, None)
  }

  /** The loss-free run up to the acceptance of block n. */
  function Lossless(file: seq<byte>, n: nat): seq<Action>
    requires n <= BlockCount(file)
  {
    if n == 0 then [] else Lossless(file, n - 1) + [TakeAck((n - 1) % TWO_16), SendData, Good(file, n)]
  }

  lemma {:induction false} ExecAppend(file: seq<byte>, s: System, a: seq<Action>, b: seq<Action>)
    ensures Exec(file, s, a + b) == Exec(file, Exec(file, s, a), b)
    decreases |a|
  {
    if |a| == 0 {
      assert a + b == b;
    } else {
      assert (a + b)[1..] == a[1..] + b;
      ExecAppend(file, Next(file, s, a[0]), a[1..], b);
    }
  }

  lemma ExecThree(file: seq<byte>, s: System, a: Action, b: Action, c: Action)
    ensures Exec(file, s, [a, b, c]) == Next(file, Next(file, Next(file, s, a), b), c)
  {
    assert [a, b, c][1..] == [b, c] && [b, c][1..] == [c];
    var s1 := Next(file, s, a);
    var s2 := Next(file, s1, b);
    assert Exec(file, s, [a, b, c]) == Exec(file, s1, [b, c]) == Exec(file, s2, [c]);
    assert [c][1..] == [] && Exec(file, s2, [c]) == Exec(file, Next(file, s2, c), []);
  }

  lemma GoodDelivery(file: seq<byte>, s: System, n: nat)
    requires 1 <= n <= BlockCount(file) && Data(n) in s.net
    requires s.rx.status == None && s.rx.block == n < TWO_16
    ensures var rx := Next(file, s, Good(file, n)).rx;
            && rx.sent == s.rx.sent + [Ack(n)]
            && (n < BlockCount(file) ==> rx.status == None && rx.block == n + 1)
            && (n == BlockCount(file) ==> rx.status == Some(Ok))
  {
    var wire := Wire(file, Data(n));
    var ev := Packet([wire], 1, None);
    assert Concat([wire]) == wire + Concat<byte>([]) == wire;
    WireReads(file, Data(n));
    ReadsTheMessage(file, Data(n), ev);
  }

  lemma OneMoreBlock(file: seq<byte>, s: System, n: nat)
    requires 1 <= n <= BlockCount(file) && n < TWO_16
    requires s.rx.status == None && s.rx.block == n && s.current == n - 1 && Ack(n - 1) in s.rx.sent
    ensures var t := Exec(file, s, [TakeAck((n - 1) % TWO_16), SendData, Good(file, n)]);
            && t.current == n && Ack(n) in t.rx.sent
            && (n < BlockCount(file) ==> t.rx.status == None && t.rx.block == n + 1)
            && (n == BlockCount(file) ==> t.rx.status == Some(Ok))
  {
    ExecThree(file, s, TakeAck((n - 1) % TWO_16), SendData, Good(file, n));
    GoodDelivery(file, Next(file, Next(file, s, TakeAck((n - 1) % TWO_16)), SendData), n);
  }

  lemma {:induction false} LosslessRunAdvances(file: seq<byte>, n: nat)
    requires n <= BlockCount(file) && n < TWO_16
    ensures var t := Exec(file, INIT, Lossless(file, n));
            && t.current == n && Ack(n) in t.rx.sent
            && (n < BlockCount(file) ==> t.rx.status == None && t.rx.block == n + 1)
            && (n > 0 && n == BlockCount(file) ==> t.rx.status == Some(Ok))
  {
    if n > 0 {
      LosslessRunAdvances(file, n - 1);
      var tail := [TakeAck((n - 1) % TWO_16), SendData, Good(file, n)];
      ExecAppend(file, INIT, Lossless(file, n - 1), tail);
      OneMoreBlock(file, Exec(file, INIT, Lossless(file, n - 1)), n);
    }
  }

  /** From block n on, whichever of the two the sender does. */
  lemma {:induction false} RestSucceeds(file: seq<byte>, s: System, n: nat) returns (more: seq<Action>)
    requires 1 <= n <= BlockCount(file) < TWO_16 && s.rx.status == None && s.rx.block == n
    requires s.current == n || (s.current == n - 1 && Ack(n - 1) in s.rx.sent)
    ensures var t := Exec(file, s, more);
            t.rx.status == Some(Ok) && t.current == BlockCount(file) && Ack(t.current) in t.rx.sent
    decreases BlockCount(file) - n
  {
    var first := [TakeAck((n - 1) % TWO_16), SendData, Good(file, n)];
    if s.current == n - 1 {
      OneMoreBlock(file, s, n);
    } else {
      ExecThree(file, s, TakeAck((n - 1) % TWO_16), SendData, Good(file, n));
      GoodDelivery(file, Next(file, Next(file, s, TakeAck((n - 1) % TWO_16)), SendData), n);
    }
    var t := Exec(file, s, first);
    more := [];
    if n < BlockCount(file) {
      more := RestSucceeds(file, t, n + 1);
    }
    ExecAppend(file, s, first, more);
    more := first + more;
  }

  /** Whatever was lost, duplicated or delayed so far: while the receiver runs, the
      transfer of a file within the limit can still succeed at both ends. */
  lemma RunningCanSucceed(file: seq<byte>, run: seq<Action>) returns (more: seq<Action>)
    requires |file| < (TWO_16 - 1) * BLOCK && Exec(file, INIT, run).rx.status == None
    ensures var t := Exec(file, INIT, run + more);
            t.rx.status == Some(Ok) && t.rx.flash == file && t.current > BlockCount(file)
  {
    var s := Exec(file, INIT, run);
    Reached(file, run);
    StopAndWait(file, run);
    var rest := RestSucceeds(file, s, s.rx.block);
    more := rest + [TakeAck(BlockCount(file))];
    ExecAppend(file, INIT, run, more);
    ExecAppend(file, s, rest, [TakeAck(BlockCount(file))]);
    var t := Exec(file, s, rest);
    assert [TakeAck(BlockCount(file))][1..] == [];
    assert Exec(file, t, [TakeAck(BlockCount(file))]) == Next(file, t, TakeAck(BlockCount(file)));
    FlashIsCorrect(file, run + more);
  }

  /** Some run ends in success exactly when the file is shorter than 65535
      blocks of 512 bytes. */
  lemma TransferableExactly(file: seq<byte>)
    ensures (exists run :: Exec(file, INIT, run).rx.status == Some(Ok))
       <==> |file| < (TWO_16 - 1) * BLOCK
  {
    if |file| < (TWO_16 - 1) * BLOCK {
      LosslessRunAdvances(file, BlockCount(file));
      assert Exec(file, INIT, Lossless(file, BlockCount(file))).rx.status == Some(Ok);
    }
    if run :| Exec(file, INIT, run).rx.status == Some(Ok) {
      InitInv(file);
      ExecKeepsInv(file, INIT, run);
    }
  }
}
