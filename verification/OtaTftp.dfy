// The TFTP firmware receiver of main/ota-tftp.c: the data loop of
// tftp_receive_data as a method over a script of network events, proved equal
// to a fold of one-event steps, and the properties of that fold.

module OtaTftp {
  import opened Common

  const OP_WRQ: int := 2
  const OP_DATA: int := 3
  const ERR_FILENOTFOUND: int := 1
  const ERR_ILLEGAL: int := 4
  const RETRANSMITS: int := 10
  const HEADER: int := 4
  const DATA_PACKET_SZ: int := 512 + 4
  const TWO_16: int := 0x1_0000
  const TWO_32: int := 0x1_0000_0000

  datatype Status = Ok | TimedOut | Invalid | NetError(code: int)

  datatype Reply = Ack(wire: int) | ErrorReply(code: int)

  /** What one netconn_recv call and the calls made while handling it answer.
      A packet arrives as netbuf segments; `goodWrites` says how many
      esp_ota_write calls succeed before one fails, and `ackFailure` is the
      error of the netconn_send that carries the ACK of an accepted block. */
  datatype Event =
    | Timeout
    | RecvFailed(code: int)
    | Packet(segments: seq<seq<byte>>, goodWrites: nat, ackFailure: Option<int>)

  /** The receiver assumes the first segment holds the 4-byte header. */
  predicate WellFormed(ev: Event) {
    ev.Packet? ==> |ev.segments| > 0 && |ev.segments[0]| >= HEADER
  }

  predicate WellFormedScript(evs: seq<Event>) {
    forall i :: 0 <= i < |evs| ==> WellFormed(evs[i])
  }

  function U16(p: seq<byte>, at: nat): (v: int)
    requires at + 2 <= |p|
    ensures 0 <= v < TWO_16
  {
    256 * (p[at] as int) + p[at + 1] as int
  }

  function Encode16(v: nat): (p: seq<byte>)
    ensures |p| == 2 && U16(p, 0) == v % TWO_16
  {
    [v / 256 % 256, v % 256]
  }

  // ---- writing one packet to flash ---------------------------------------

  /** The chunks handed to esp_ota_write: the header is cut off the first. */
  function Chunks(segments: seq<seq<byte>>): seq<seq<byte>>
    requires |segments| > 0 && |segments[0]| >= HEADER
  {
    [segments[0][HEADER..]] + segments[1..]
  }

  /** However a packet is split into segments, its chunks are the packet
      without the header. */
  lemma ChunksAreThePayload(segments: seq<seq<byte>>)
    requires |segments| > 0 && |segments[0]| >= HEADER
    ensures |Concat(segments)| >= HEADER
    ensures Concat(Chunks(segments)) == Concat(segments)[HEADER..]
  {
    assert Chunks(segments)[1..] == segments[1..];
  }

  lemma {:induction false} ConcatOfPrefix<T>(pieces: seq<seq<T>>, n: nat)
    requires n <= |pieces|
    ensures Concat(pieces[..n]) <= Concat(pieces)
  {
    ConcatAppend(pieces[..n], pieces[n..]);
    assert pieces == pieces[..n] + pieces[n..];
  }

  /** What reaches flash when the first `good` writes succeed. */
  function Written(segments: seq<seq<byte>>, good: nat): seq<byte>
    requires |segments| > 0 && |segments[0]| >= HEADER
  {
    Concat(Chunks(segments)[..Min(good, |segments|)])
  }

  // ---- one event ----------------------------------------------------------

  /** The locals of the receive loop, the flash contents, the replies sent, and
      the status once the loop has returned. */
  datatype Rx = Rx(block: int, retries: int, receivedLen: int, flash: seq<byte>,
                   sent: seq<Reply>, status: Option<Status>)

  function Start(flash: seq<byte>, sent: seq<Reply>): Rx {
    Rx(1, RETRANSMITS, 0, flash, sent, None)
  }

  function Exit(st: Rx, status: Status): Rx {
    st.(sent := st.sent + [ErrorReply(ERR_ILLEGAL)], status := Some(status))
  }

  function SendAck(st: Rx, block: int): Rx {
    st.(sent := st.sent + [Ack(block % TWO_16)])
  }

  /** A packet as the loop reads it: the opcode test, the block number, the
      length, and what the segment loop puts in flash. */
  datatype Datagram = Datagram(isData: bool, wire: int, length: int,
                               part: seq<byte>, whole: bool, ackFailure: Option<int>)

  function Read(ev: Event): (d: Datagram)
    requires WellFormed(ev) && ev.Packet?
    ensures 0 <= d.wire < TWO_16
  {
    ChunksAreThePayload(ev.segments);
    var packet := Concat(ev.segments);
    Datagram(U16(packet, 0) == OP_DATA, U16(packet, 2), |packet|,
             Written(ev.segments, ev.goodWrites), ev.goodWrites >= |ev.segments|, ev.ackFailure)
  }

  function Step(st: Rx, ev: Event): Rx
    requires WellFormed(ev)
  {
    if st.status.Some? then st
    else if ev.Timeout? then
      if st.retries > 0 && st.block > 1
      then SendAck(st.(retries := st.retries - 1), st.block - 1)
      else Exit(st.(retries := st.retries - 1), TimedOut)
    else if ev.RecvFailed? then Exit(st, NetError(ev.code))
    else OnDatagram(st, Read(ev))
  }

  function OnDatagram(st: Rx, d: Datagram): Rx {
    if !d.isData then Exit(st, Invalid)
    else if d.wire != st.block then
      if d.wire == st.block - 1 then SendAck(st, st.block - 1) else Exit(st, Invalid)
    else Accept(st, d)
  }

  function Accept(st: Rx, d: Datagram): Rx {
    var wrote := st.(retries := RETRANSMITS, flash := st.flash + d.part);
    if !d.whole then wrote.(status := Some(Invalid))
    else
      var acked := SendAck(wrote.(receivedLen := (st.receivedLen + d.length - HEADER) % TWO_32), st.block);
      if d.ackFailure.Some? then acked.(status := Some(NetError(d.ackFailure.value)))
      else if d.length < DATA_PACKET_SZ then acked.(status := Some(Ok))
      else acked.(block := st.block + 1)
  }

  function Run(st: Rx, evs: seq<Event>): Rx
    requires WellFormedScript(evs)
    decreases |evs|
  {
    if |evs| == 0 then st else Run(Step(st, evs[0]), evs[1..])
  }

  lemma {:induction false} RunStops(st: Rx, evs: seq<Event>)
    requires WellFormedScript(evs) && st.status.Some?
    ensures Run(st, evs) == st
  {
    if |evs| > 0 {
      RunStops(st, evs[1..]);
    }
  }

  lemma {:induction false} RunSnoc(st: Rx, evs: seq<Event>, ev: Event)
    requires WellFormedScript(evs + [ev])
    ensures WellFormedScript(evs) && WellFormed(ev)
    ensures Run(st, evs + [ev]) == Step(Run(st, evs), ev)
    decreases |evs|
  {
    assert WellFormed((evs + [ev])[|evs|]);
    forall i | 0 <= i < |evs| ensures WellFormed(evs[i]) {
      assert WellFormed((evs + [ev])[i]);
    }
    if |evs| > 0 {
      assert (evs + [ev])[1..] == evs[1..] + [ev];
      RunSnoc(Step(st, evs[0]), evs[1..], ev);
    }
  }

  // ---- request fields ------------------------------------------------------

  /** The index of the first NUL at or after `from`, or the packet length. */
  function NulFrom(packet: seq<byte>, from: nat): (k: nat)
    requires from <= |packet|
    ensures from <= k <= |packet|
    ensures forall i :: from <= i < k ==> packet[i] != 0
    ensures k < |packet| ==> packet[k] == 0
    decreases |packet| - from
  {
    if from == |packet| || packet[from] == 0 then from else NulFrom(packet, from + 1)
  }

  /** The NUL-terminated strings of a packet from an offset on, in order; a
      last piece without its NUL is not a field. */
  function FieldsFrom(packet: seq<byte>, from: nat): seq<seq<byte>>
    decreases |packet| - from
  {
    if from >= |packet| then []
    else
      var k := NulFrom(packet, from);
      if k == |packet| then [] else [packet[from..k]] + FieldsFrom(packet, k + 1)
  }

  /** Field k of the packet from an offset on, with its NUL. */
  function Field(packet: seq<byte>, from: nat, k: nat): Option<seq<byte>>
    decreases k
  {
    if from >= |packet| then None
    else
      var end := NulFrom(packet, from);
      if end == |packet| then None
      else if k == 0 then Some(packet[from..end + 1])
      else Field(packet, end + 1, k - 1)
  }

  lemma {:induction false} FieldIsNth(packet: seq<byte>, from: nat, k: nat)
    ensures var fs := FieldsFrom(packet, from);
            Field(packet, from, k) == if k < |fs| then Some(fs[k] + [0]) else None
    decreases k
  {
    if from < |packet| {
      var end := NulFrom(packet, from);
      if end < |packet| {
        assert packet[from..end + 1] == packet[from..end] + [0];
        if k > 0 {
          FieldIsNth(packet, end + 1, k - 1);
        }
      }
    }
  }

  /** tftp_get_field: the scan of the request with its field and offset
      counters; the returned copy includes the terminating NUL. */
  method GetField(field: nat, packet: seq<byte>) returns (result: Option<seq<byte>>)
    ensures var fs := FieldsFrom(packet, 2);
            result == if field < |fs| then Some(fs[field] + [0]) else None
  {
    FieldIsNth(packet, 2, field);
    var left: int := field;
    var offs := 2;
    var fieldOffs := 2;
    var fieldLen := 0;
    ghost var from := 2;  // where the string being scanned starts
    while left >= 0 && offs < |packet|
      invariant -1 <= left <= field && 2 <= from <= offs && (offs <= |packet| || offs == 2)
      invariant left >= 0 ==> Field(packet, from, left) == Field(packet, 2, field)
      invariant left >= 0 ==> forall i :: from <= i < offs ==> packet[i] != 0
      invariant left > 0 ==> fieldLen == 0
      invariant left == 0 ==> fieldOffs == from && fieldLen == offs - from
      invariant left == -1 ==> 2 <= fieldOffs <= fieldOffs + fieldLen <= |packet|
      invariant left == -1 ==> Field(packet, 2, field) == Some(packet[fieldOffs..fieldOffs + fieldLen])
      decreases |packet| - offs
    {
      var c := packet[offs];
      assert c == 0 && left >= 0 ==> NulFrom(packet, from) == offs;
      offs := offs + 1;
      if left == 0 {
        fieldLen := fieldLen + 1;
      }
      if c == 0 {
        left := left - 1;
        if left == 0 {
          fieldOffs := offs;
        }
        from := offs;
      }
    }
    if left != -1 {
      return None;
    }
    result := Some(packet[fieldOffs..fieldOffs + fieldLen]);
  }

  // "firmware.bin" and "octet"
  const FIRMWARE: seq<byte> := [102, 105, 114, 109, 119, 97, 114, 101, 46, 98, 105, 110]
  const OCTET: seq<byte> := [111, 99, 116, 101, 116]

  /** The request built by tftp_send_rrq, and the write request a client
      builds the same way. */
  function Request(opcode: nat, filename: seq<byte>): seq<byte> {
    Encode16(opcode) + filename + [0] + OCTET + [0]
  }

  /** tftp_get_field reads back what tftp_send_rrq writes; the packet fills the
      buffer allocated for it exactly. */
  lemma RequestRoundTrip(opcode: nat, filename: seq<byte>)
    requires 0 !in filename
    ensures FieldsFrom(Request(opcode, filename), 2) == [filename, OCTET]
    ensures |Request(opcode, filename)| == 4 + |filename| + |OCTET|
  {
    var p, n := Request(opcode, filename), |filename|;
    forall i | 2 <= i < 2 + n ensures p[i] != 0 {
      assert p[i] == filename[i - 2];
    }
    forall i | 3 + n <= i < 8 + n ensures p[i] != 0 {
      assert p[i] == OCTET[i - 3 - n];
    }
    assert p[2 + n] == 0 && p[8 + n] == 0;
    assert NulFrom(p, 2) == 2 + n && NulFrom(p, 3 + n) == 8 + n;
    assert p[2..2 + n] == filename && p[3 + n..8 + n] == OCTET;
    assert FieldsFrom(p, 9 + n) == [];
    assert FieldsFrom(p, 3 + n) == [OCTET] + FieldsFrom(p, 9 + n);
  }

  /** Characters as the bytes of a packet. */
  function Ascii(text: string): (bs: seq<byte>)
    requires forall i :: 0 <= i < |text| ==> text[i] < 128 as char
    ensures |bs| == |text| && forall i :: 0 <= i < |bs| ==> bs[i] == text[i] as int
  {
    seq(|text|, i requires 0 <= i < |text| => text[i] as int)
  }

  lemma FieldWithNul(request: seq<byte>, k: nat, name: seq<byte>)
    requires k < |FieldsFrom(request, 2)|
    ensures FieldsFrom(request, 2)[k] + [0] == name + [0] <==> FieldsFrom(request, 2)[k] == name
  {
    var f := FieldsFrom(request, 2)[k];
    assert (f + [0])[..|f + [0]| - 1] == f && (name + [0])[..|name + [0]| - 1] == name;
  }

  predicate AcceptsName(request: seq<byte>) {
    var fs := FieldsFrom(request, 2);
    |fs| > 0 && fs[0] == FIRMWARE
  }

  predicate AcceptsMode(request: seq<byte>) {
    var fs := FieldsFrom(request, 2);
    |fs| > 1 && fs[1] == OCTET
  }

  predicate IsWriteRequest(request: seq<byte>) {
    |request| >= 6 && U16(request, 0) == OP_WRQ
  }

  lemma FirmwareRequestIs()
    ensures Request(2, FIRMWARE) == [0, 2] + Ascii("firmware.bin") + [0] + Ascii("octet") + [0]
  {
    hide FieldsFrom, NulFrom;
    assert Ascii("firmware.bin") == FIRMWARE;
    assert Ascii("octet") == OCTET;
    assert Encode16(2) == [0, 2];
  }

  /** A write request for the firmware file passes every check of tftp_task. */
  lemma FirmwareRequestAccepted()
    ensures var request := [0, 2] + Ascii("firmware.bin") + [0] + Ascii("octet") + [0];
            IsWriteRequest(request) && AcceptsName(request) && AcceptsMode(request)
  {
    FirmwareRequestIs();
    RequestRoundTrip(OP_WRQ, FIRMWARE);
    hide Ascii, FieldsFrom, NulFrom;
  }

  // ---- the receive loop ---------------------------------------------------

  /** The OTA partition and the UDP connection: flash grows by esp_ota_write,
      `sent` records the packets handed to netconn_send. */
  class Receiver {
    var flash: seq<byte>
    var sent: seq<Reply>
    var receivedLen: int

    constructor ()
      ensures flash == [] && sent == [] && receivedLen == 0
    {
      flash, sent, receivedLen := [], [], 0;
    }

    /** The segment loop: every segment is written, the first without its
        header, until a write fails. */
    method WriteSegments(segments: seq<seq<byte>>, goodWrites: nat) returns (ok: bool)
      requires |segments| > 0 && |segments[0]| >= HEADER
      modifies this`flash
      ensures ok == (goodWrites >= |segments|)
      ensures flash == old(flash) + Written(segments, goodWrites)
    {
      ghost var chunks := Chunks(segments);
      var firstChunk := true;
      var k := 0;
      while k < |segments|
        invariant 0 <= k <= |segments| && firstChunk == (k == 0) && k <= goodWrites
        invariant flash == old(flash) + Concat(chunks[..k])
      {
        var chunk := segments[k];
        if firstChunk {
          chunk := chunk[HEADER..];
          firstChunk := false;
        }
        if k >= goodWrites {
          return false;
        }
        flash := flash + chunk;
        ConcatSnoc(chunks[..k], chunks[k]);
        assert chunks[..k + 1] == chunks[..k] + [chunks[k]];
        k := k + 1;
      }
      ok := true;
    }

    /** tftp_receive_data on an established connection: runs until it returns a
        status or the script of events ends. */
    method ReceiveData(evs: seq<Event>) returns (status: Option<Status>)
      requires WellFormedScript(evs)
      modifies this
      ensures var end := Run(Start(old(flash), old(sent)), evs);
              flash == end.flash && sent == end.sent && receivedLen == end.receivedLen && status == end.status
    {
      receivedLen := 0;
      var block := 1;
      var retries := RETRANSMITS;
      ghost var start := Start(flash, sent);
      var i := 0;
      while i < |evs|
        invariant 0 <= i <= |evs|
        invariant Run(start, evs) == Run(Rx(block, retries, receivedLen, flash, sent, None), evs[i..])
      {
        var ev := evs[i];
        ghost var now := Rx(block, retries, receivedLen, flash, sent, None);
        ghost var next := Step(now, ev);
        assert evs[i..][1..] == evs[i + 1..];
        i := i + 1;
        if ev.Timeout? {
          retries := retries - 1;
          if retries + 1 > 0 && block > 1 {
            sent := sent + [Ack((block - 1) % TWO_16)];
            continue;
          }
          sent := sent + [ErrorReply(ERR_ILLEGAL)];
          RunStops(next, evs[i..]);
          return Some(TimedOut);
        } else if ev.RecvFailed? {
          sent := sent + [ErrorReply(ERR_ILLEGAL)];
          RunStops(next, evs[i..]);
          return Some(NetError(ev.code));
        }
        ChunksAreThePayload(ev.segments);
        var packet := Concat(ev.segments);
        var opcode := U16(packet, 0);
        if opcode != OP_DATA {
          sent := sent + [ErrorReply(ERR_ILLEGAL)];
          RunStops(next, evs[i..]);
          return Some(Invalid);
        }
        var clientBlock := U16(packet, 2);
        if clientBlock != block {
          if clientBlock == block - 1 {
            sent := sent + [Ack((block - 1) % TWO_16)];
            continue;
          }
          sent := sent + [ErrorReply(ERR_ILLEGAL)];
          RunStops(next, evs[i..]);
          return Some(Invalid);
        }
        retries := RETRANSMITS;
        var len := |packet|;
        var wrote := WriteSegments(ev.segments, ev.goodWrites);
        if !wrote {
          RunStops(next, evs[i..]);
          return Some(Invalid);
        }
        receivedLen := (receivedLen + len - HEADER) % TWO_32;
        sent := sent + [Ack(block % TWO_16)];
        if ev.ackFailure.Some? {
          RunStops(next, evs[i..]);
          return Some(NetError(ev.ackFailure.value));
        }
        if len < DATA_PACKET_SZ {
          RunStops(next, evs[i..]);
          return Some(Ok);
        }
        block := block + 1;
      }
      status := None;
    }

    /** One round of tftp_task: check the request, acknowledge it, receive the
        data, and boot from the new image if that succeeded. Whether esp_ota_begin
        succeeds is not looked at; if it fails, an earlier update may be written on. */
    method HandleRequest(request: seq<byte>, ackFails: bool, begun: bool, evs: seq<Event>, bootFails: bool)
      returns (boot: bool)
      requires WellFormedScript(evs)
      modifies this
      ensures boot ==> IsWriteRequest(request) && AcceptsName(request) && AcceptsMode(request)
      ensures var start := Start(if begun then [] else old(flash), old(sent) + [Ack(0)]);
              if IsWriteRequest(request) && AcceptsName(request) && AcceptsMode(request) && !ackFails then
                && flash == Run(start, evs).flash && sent == Run(start, evs).sent
                && (boot <==> Run(start, evs).status == Some(Ok) && !bootFails)
              else
                && flash == old(flash) && !boot
                && sent == old(sent) +
                     if !IsWriteRequest(request) then []
                     else if !AcceptsName(request) then [ErrorReply(1)]
                     else if !AcceptsMode(request) then [ErrorReply(4)]
                     else [Ack(0)]
    {
      boot := false;
      if |request| < 6 {
        return;
      }
      var opcode := U16(request, 0);
      if opcode != OP_WRQ {
        return;
      }
      var filename := GetField(0, request);
      if filename.Some? {
        FieldWithNul(request, 0, FIRMWARE);
      }
      if filename.None? || filename.value != FIRMWARE + [0] {
        sent := sent + [ErrorReply(ERR_FILENOTFOUND)];
        return;
      }
      var mode := GetField(1, request);
      if mode.Some? {
        FieldWithNul(request, 1, OCTET);
      }
      if mode.None? || mode.value != OCTET + [0] {
        sent := sent + [ErrorReply(ERR_ILLEGAL)];
        return;
      }
      sent := sent + [Ack(0)];
      if ackFails {
        return;
      }
      if begun {
        flash := [];
      }
      var status := ReceiveData(evs);
      if status == Some(Ok) && !bootFails {
        boot := true;
      }
    }
  }

  // ---- a failed esp_ota_begin ----------------------------------------------

  function OnTop(old_: seq<byte>, st: Rx): Rx {
    st.(flash := old_ + st.flash)
  }

  lemma StepOnTop(old_: seq<byte>, st: Rx, ev: Event)
    requires WellFormed(ev)
    ensures Step(OnTop(old_, st), ev) == OnTop(old_, Step(st, ev))
  {
    hide Read;
    if ev.Packet? {
      Regroup(old_, st.flash, Read(ev).part);
    }
  }

  /** A transfer does not look at what is in flash: without esp_ota_begin it goes on
      top of the rest of an earlier one, with the same replies and the same status. */
  lemma {:induction false} RunOnTop(old_: seq<byte>, st: Rx, evs: seq<Event>)
    requires WellFormedScript(evs)
    ensures Run(OnTop(old_, st), evs) == OnTop(old_, Run(st, evs))
    decreases |evs|
  {
    hide Step;
    if |evs| > 0 {
      StepOnTop(old_, st, evs[0]);
      RunOnTop(old_, Step(st, evs[0]), evs[1..]);
    }
  }

  /** So the image is the one received if and only if nothing was in flash. */
  lemma FailedBegin(old_: seq<byte>, sent: seq<Reply>, evs: seq<Event>)
    requires WellFormedScript(evs)
    ensures var clean, onTop := Run(Start([], sent), evs), Run(Start(old_, sent), evs);
            && onTop.flash == old_ + clean.flash && onTop.status == clean.status && onTop.sent == clean.sent
            && (onTop.flash == clean.flash <==> old_ == [])
  {
    RunOnTop(old_, Start([], sent), evs);
    assert old_ + [] == old_;
  }

  // ---- ACK discipline and termination -------------------------------------

  /** How a running receiver treats an event. */
  datatype Kind = Accepted | Duplicate | Resent | Ended

  function KindOf(st: Rx, ev: Event): Kind
    requires WellFormed(ev)
  {
    match ev
    case Timeout => if st.retries > 0 && st.block > 1 then Resent else Ended
    case RecvFailed(_) => Ended
    case Packet(_, _, _) =>
      var d := Read(ev);
      if !d.isData then Ended
      else if d.wire == st.block then if d.whole then Accepted else Ended
      else if d.wire == st.block - 1 then Duplicate
      else Ended
  }

  /** The kinds of the events handled before the receiver returned. */
  function Kinds(st: Rx, evs: seq<Event>): (ks: seq<Kind>)
    requires WellFormedScript(evs)
    ensures |ks| <= |evs|
    decreases |evs|
  {
    if |evs| == 0 || st.status.Some? then []
    else [KindOf(st, evs[0])] + Kinds(Step(st, evs[0]), evs[1..])
  }

  function Count(ks: seq<Kind>, which: set<Kind>): nat {
    if |ks| == 0 then 0 else (if ks[0] in which then 1 else 0) + Count(ks[1..], which)
  }

  function AckCount(sent: seq<Reply>): nat {
    if |sent| == 0 then 0 else AckCount(sent[..|sent| - 1]) + if sent[|sent| - 1].Ack? then 1 else 0
  }

  lemma AckCountSnoc(sent: seq<Reply>, r: Reply)
    ensures AckCount(sent + [r]) == AckCount(sent) + if r.Ack? then 1 else 0
  {
    assert (sent + [r])[..|sent|] == sent;
  }

  lemma StepAcks(st: Rx, ev: Event)
    requires WellFormed(ev) && st.status.None?
    ensures AckCount(Step(st, ev).sent) == AckCount(st.sent) + if KindOf(st, ev).Ended? then 0 else 1
  {
    AckCountSnoc(st.sent, Ack((st.block - 1) % TWO_16));
    AckCountSnoc(st.sent, Ack(st.block % TWO_16));
    AckCountSnoc(st.sent, ErrorReply(ERR_ILLEGAL));
  }

  /** Every ACK of the data phase answers one accepted block, one duplicate or
      one timeout, and every one of those is answered. */
  lemma {:induction false} AckAccounting(st: Rx, evs: seq<Event>)
    requires WellFormedScript(evs)
    ensures AckCount(Run(st, evs).sent)
         == AckCount(st.sent) + Count(Kinds(st, evs), {Accepted, Duplicate, Resent})
    decreases |evs|
  {
    if st.status.Some? {
      RunStops(st, evs);
    } else if |evs| > 0 {
      StepAcks(st, evs[0]);
      AckAccounting(Step(st, evs[0]), evs[1..]);
    }
  }

  /** What every run keeps about the loop's counters. */
  predicate Sane(st: Rx) {
    && 1 <= st.block <= TWO_16
    && st.retries <= RETRANSMITS
    && (st.status.None? ==> st.retries >= 0)
    && (st.status == Some(Ok) ==> st.block < TWO_16)
  }

  lemma StepSane(st: Rx, ev: Event)
    requires WellFormed(ev) && Sane(st)
    ensures Sane(Step(st, ev))
  {
  }

  lemma {:induction false} RunSane(st: Rx, evs: seq<Event>)
    requires WellFormedScript(evs) && Sane(st)
    ensures Sane(Run(st, evs))
    decreases |evs|
  {
    if |evs| > 0 {
      StepSane(st, evs[0]);
      RunSane(Step(st, evs[0]), evs[1..]);
    }
  }

  lemma {:induction false} KindsFrom(st: Rx, evs: seq<Event>, i: nat)
    requires WellFormedScript(evs) && i <= |Kinds(st, evs)|
    ensures Kinds(st, evs)[i..] == Kinds(Run(st, evs[..i]), evs[i..])
    decreases |evs|
  {
    if i > 0 {
      KindsFrom(Step(st, evs[0]), evs[1..], i - 1);
      assert evs[..i][1..] == evs[1..][..i - 1];
      assert evs[1..][i - 1..] == evs[i..];
    } else {
      assert evs[0..] == evs && evs[..0] == [];
    }
  }

  lemma {:induction false} ResentWithinBudget(st: Rx, evs: seq<Event>, n: nat)
    requires WellFormedScript(evs) && Sane(st) && n <= |Kinds(st, evs)|
    requires forall k :: 0 <= k < n ==> Kinds(st, evs)[k] != Accepted
    ensures Count(Kinds(st, evs)[..n], {Resent}) <= Max(0, st.retries)
    decreases |evs|
  {
    if n > 0 {
      var ks := Kinds(st, evs);
      var next := Step(st, evs[0]);
      StepSane(st, evs[0]);
      assert ks[..n][1..] == ks[1..][..n - 1];
      forall k | 0 <= k < n - 1 ensures Kinds(next, evs[1..])[k] != Accepted {
        assert ks[k + 1] != Accepted;
      }
      ResentWithinBudget(next, evs[1..], n - 1);
      if next.status.Some? {
        assert Kinds(next, evs[1..]) == [];
      }
    }
  }

  /** In any stretch of a run without an accepted block, at most ten ACKs are
      retransmitted because of a timeout. */
  lemma RetryBudget(flash: seq<byte>, sent: seq<Reply>, evs: seq<Event>, i: nat, j: nat)
    requires WellFormedScript(evs) && i <= j <= |Kinds(Start(flash, sent), evs)|
    requires forall k :: i <= k < j ==> Kinds(Start(flash, sent), evs)[k] != Accepted
    ensures Count(Kinds(Start(flash, sent), evs)[i..j], {Resent}) <= RETRANSMITS
  {
    var st := Start(flash, sent);
    var ks := Kinds(st, evs);
    KindsFrom(st, evs, i);
    RunSane(st, evs[..i]);
    var mid := Run(st, evs[..i]);
    assert ks[i..j] == ks[i..][..j - i];
    forall k | 0 <= k < j - i ensures Kinds(mid, evs[i..])[k] != Accepted {
      assert ks[i..][k] == ks[i + k];
    }
    ResentWithinBudget(mid, evs[i..], j - i);
  }

  /** Timeouts answered since the last accepted block. */
  function ResentSince(ks: seq<Kind>): nat {
    if |ks| == 0 || ks[|ks| - 1] == Accepted then 0
    else ResentSince(ks[..|ks| - 1]) + if ks[|ks| - 1] == Resent then 1 else 0
  }

  lemma {:induction false} CountSnoc(ks: seq<Kind>, k: Kind, which: set<Kind>)
    ensures Count(ks + [k], which) == Count(ks, which) + if k in which then 1 else 0
  {
    if |ks| > 0 {
      CountSnoc(ks[1..], k, which);
      assert (ks + [k])[1..] == ks[1..] + [k];
    } else {
      assert (ks + [k])[1..] == [];
    }
  }

  lemma KindAt(st: Rx, evs: seq<Event>, i: nat)
    requires WellFormedScript(evs) && i < |Kinds(st, evs)|
    ensures Run(st, evs[..i]).status == None && Kinds(st, evs)[i] == KindOf(Run(st, evs[..i]), evs[i])
    ensures Run(st, evs[..i + 1]) == Step(Run(st, evs[..i]), evs[i])
  {
    hide Step;
    KindsFrom(st, evs, i);
    assert Kinds(st, evs)[i] == Kinds(st, evs)[i..][0];
    assert evs[..i + 1] == evs[..i] + [evs[i]];
    RunSnoc(st, evs[..i], evs[i]);
  }

  /** While the loop runs its counters say nothing else than the history: blocks
      accepted, and timeouts answered since the last of them. */
  lemma {:induction false} CountersAreHistory(flash: seq<byte>, sent: seq<Reply>, evs: seq<Event>, i: nat)
    requires WellFormedScript(evs) && i <= |Kinds(Start(flash, sent), evs)|
    requires Run(Start(flash, sent), evs[..i]).status == None
    ensures var now, ks := Run(Start(flash, sent), evs[..i]), Kinds(Start(flash, sent), evs)[..i];
            now.block == 1 + Count(ks, {Accepted}) && now.retries == RETRANSMITS - ResentSince(ks)
  {
    if i > 0 {
      var st := Start(flash, sent);
      var ks := Kinds(st, evs);
      KindAt(st, evs, i - 1);
      CountersAreHistory(flash, sent, evs, i - 1);
      assert ks[..i] == ks[..i - 1] + [ks[i - 1]];
      CountSnoc(ks[..i - 1], ks[i - 1], {Accepted});
    }
  }

  /** The 16-bit number at an offset of a packet, high byte first. */
  predicate Reads(packet: seq<byte>, at: nat, n: int)
    requires at + 2 <= |packet|
  {
    n == (packet[at] as int) * 256 + packet[at + 1] as int
  }

  /** What the loop makes of event i of any run, from the history alone. A timeout:
      the ACK of the last block, ten times and not before the first block. */
  lemma TimeoutExactly(flash: seq<byte>, sent: seq<Reply>, evs: seq<Event>, i: nat)
    requires WellFormedScript(evs) && i < |Kinds(Start(flash, sent), evs)| && evs[i].Timeout?
    ensures var start, ks := Start(flash, sent), Kinds(Start(flash, sent), evs);
            var before, after, accepted := Run(start, evs[..i]), Run(start, evs[..i + 1]), Count(ks[..i], {Accepted});
            && after.flash == before.flash
            && if accepted > 0 && ResentSince(ks[..i]) < 10
               then ks[i] == Resent && after.status == None && after.sent == before.sent + [Ack(accepted % 0x10000)]
               else ks[i] == Ended && after.status == Some(TimedOut) && after.sent == before.sent + [ErrorReply(4)]
  {
    KindAt(Start(flash, sent), evs, i);
    CountersAreHistory(flash, sent, evs, i);
  }

  /** Any other failure to receive is passed on. */
  lemma FailureExactly(flash: seq<byte>, sent: seq<Reply>, evs: seq<Event>, i: nat)
    requires WellFormedScript(evs) && i < |Kinds(Start(flash, sent), evs)| && evs[i].RecvFailed?
    ensures var start := Start(flash, sent);
            var before, after := Run(start, evs[..i]), Run(start, evs[..i + 1]);
            && Kinds(start, evs)[i] == Ended && after.flash == before.flash
            && after.status == Some(NetError(evs[i].code)) && after.sent == before.sent + [ErrorReply(4)]
  {
    KindAt(Start(flash, sent), evs, i);
  }

  /** A packet: the block behind the last one accepted is written and acknowledged, the
      last one is acknowledged again, and everything else ends the transfer. */
  lemma PacketExactly(flash: seq<byte>, sent: seq<Reply>, evs: seq<Event>, i: nat)
    requires WellFormedScript(evs) && i < |Kinds(Start(flash, sent), evs)| && evs[i].Packet?
    ensures |Concat(evs[i].segments)| >= 4
    ensures var start, ks := Start(flash, sent), Kinds(Start(flash, sent), evs);
            var before, after, accepted := Run(start, evs[..i]), Run(start, evs[..i + 1]), Count(ks[..i], {Accepted});
            var packet, pieces := Concat(evs[i].segments), Chunks(evs[i].segments);
            if Reads(packet, 0, 3) && Reads(packet, 2, accepted + 1) then
              && after.flash == before.flash + Concat(pieces[..Min(evs[i].goodWrites, |pieces|)])
              && if evs[i].goodWrites < |evs[i].segments|
                 then ks[i] == Ended && after.sent == before.sent && after.status == Some(Invalid)
                 else && ks[i] == Accepted
                      && after.sent == before.sent + [Ack((accepted + 1) % 0x10000)]
                      && after.status == (if evs[i].ackFailure.Some? then Some(NetError(evs[i].ackFailure.value))
                                          else if |packet| < 516 then Some(Ok) else None)
            else if Reads(packet, 0, 3) && Reads(packet, 2, accepted) then
              && ks[i] == Duplicate && after.flash == before.flash && after.status == None
              && after.sent == before.sent + [Ack(accepted % 0x10000)]
            else
              && ks[i] == Ended && after.flash == before.flash && after.status == Some(Invalid)
              && after.sent == before.sent + [ErrorReply(4)]
  {
    KindAt(Start(flash, sent), evs, i);
    CountersAreHistory(flash, sent, evs, i);
    ChunksAreThePayload(evs[i].segments);
  }

  /** In every run the reply to an event that the receiver survives in this sense is
      the ACK of the number of blocks accepted so far, this event included. */
  lemma RepliesNameTheBlocks(flash: seq<byte>, sent: seq<Reply>, evs: seq<Event>, i: nat)
    requires WellFormedScript(evs) && i < |Kinds(Start(flash, sent), evs)|
    ensures var start, ks := Start(flash, sent), Kinds(Start(flash, sent), evs);
            ks[i] in {Accepted, Duplicate, Resent} ==>
              Run(start, evs[..i + 1]).sent
              == Run(start, evs[..i]).sent + [Ack(Count(ks[..i + 1], {Accepted}) % 0x10000)]
  {
    var ks := Kinds(Start(flash, sent), evs);
    KindAt(Start(flash, sent), evs, i);
    CountersAreHistory(flash, sent, evs, i);
    assert ks[..i + 1] == ks[..i] + [ks[i]];
    CountSnoc(ks[..i], ks[i], {Accepted});
  }

  /** (blocks left, retries) decreases at every event that the receiver
      survives, duplicates apart. */
  lemma StepProgress(st: Rx, ev: Event)
    requires WellFormed(ev) && Sane(st) && st.status.None? && Step(st, ev).status.None?
    requires KindOf(st, ev) != Duplicate
    ensures var next := Step(st, ev);
            || TWO_16 - next.block < TWO_16 - st.block
            || (next.block == st.block && next.retries < st.retries)
  {
    StepSane(st, ev);
  }

  function Progress(st: Rx): int {
    (RETRANSMITS + 1) * (st.block - 1) + RETRANSMITS - st.retries
  }

  lemma {:induction false} WorkIsProgress(st: Rx, evs: seq<Event>)
    requires WellFormedScript(evs) && Sane(st) && Run(st, evs).status.None?
    ensures Count(Kinds(st, evs), {Accepted, Resent, Ended}) <= Progress(Run(st, evs)) - Progress(st)
    decreases |evs|
  {
    if |evs| > 0 {
      var next := Step(st, evs[0]);
      if next.status.Some? {
        RunStops(next, evs[1..]);
      }
      if st.status.Some? {
        RunStops(st, evs);
      }
      StepSane(st, evs[0]);
      WorkIsProgress(next, evs[1..]);
    }
  }

  /** A receiver that is still running has handled a bounded number of events
      other than duplicates: the transfer always ends or makes a block of
      progress within eleven of them. */
  lemma BoundedWork(flash: seq<byte>, sent: seq<Reply>, evs: seq<Event>)
    requires WellFormedScript(evs)
    requires Run(Start(flash, sent), evs).status.None?
    ensures |evs| - Count(Kinds(Start(flash, sent), evs), {Duplicate})
         <= (RETRANSMITS + 1) * (TWO_16 - 1) + RETRANSMITS
  {
    var st := Start(flash, sent);
    WorkIsProgress(st, evs);
    RunSane(st, evs);
    AllHandled(st, evs);
    CountSplits(Kinds(st, evs));
  }

  lemma {:induction false} AllHandled(st: Rx, evs: seq<Event>)
    requires WellFormedScript(evs) && Run(st, evs).status.None?
    ensures |Kinds(st, evs)| == |evs|
    decreases |evs|
  {
    if st.status.Some? {
      RunStops(st, evs);
    } else if |evs| > 0 {
      AllHandled(Step(st, evs[0]), evs[1..]);
    }
  }

  lemma {:induction false} CountSplits(ks: seq<Kind>)
    ensures |ks| == Count(ks, {Duplicate}) + Count(ks, {Accepted, Resent, Ended})
  {
    if |ks| > 0 {
      CountSplits(ks[1..]);
      match ks[0] {
        case Accepted | Duplicate | Resent | Ended =>
      }
    }
  }

  /** No transfer ends in success past block 65535, and the reported length is
      the number of bytes written, modulo the width of size_t. */
  lemma SuccessIsWithinTheWireNumbers(flash: seq<byte>, sent: seq<Reply>, evs: seq<Event>)
    requires WellFormedScript(evs)
    ensures var end := Run(Start(flash, sent), evs);
            && end.block <= TWO_16
            && (end.status == Some(Ok) ==> end.block < TWO_16)
            && (end.status == None || end.status == Some(Ok)
                ==> |flash| <= |end.flash| && end.receivedLen == (|end.flash| - |flash|) % TWO_32)
  {
    RunSane(Start(flash, sent), evs);
    LengthCounted(flash, Start(flash, sent), evs);
  }

  lemma WholePartLength(ev: Event)
    requires WellFormed(ev) && ev.Packet? && Read(ev).whole
    ensures |Read(ev).part| == Read(ev).length - HEADER
  {
    var segments := ev.segments;
    ChunksAreThePayload(segments);
    assert Chunks(segments)[..|segments|] == Chunks(segments);
  }

  predicate Counted(flash: seq<byte>, st: Rx) {
    st.status == None || st.status == Some(Ok) ==>
      |flash| <= |st.flash| && st.receivedLen == (|st.flash| - |flash|) % TWO_32
  }

  lemma StepCounted(flash: seq<byte>, st: Rx, ev: Event)
    requires WellFormed(ev) && Counted(flash, st)
    ensures Counted(flash, Step(st, ev))
  {
    if ev.Packet? && Read(ev).whole {
      WholePartLength(ev);
    }
    hide Read, WellFormed;
  }

  lemma {:induction false} LengthCounted(flash: seq<byte>, st: Rx, evs: seq<Event>)
    requires WellFormedScript(evs) && Counted(flash, st)
    ensures Counted(flash, Run(st, evs))
    decreases |evs|
  {
    hide Counted, Step;
    if |evs| > 0 {
      StepCounted(flash, st, evs[0]);
      LengthCounted(flash, Step(st, evs[0]), evs[1..]);
    }
  }
}
