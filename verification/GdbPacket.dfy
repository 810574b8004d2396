// The GDB remote packet layer of main/gdb_packet.cpp over the buffered transport
// of GDB_client in main/gdb_if.cpp: framing, escaping, checksums,
// resynchronisation and retransmission.

module GdbPacket {
  import opened Common

  const START: byte := 36     // '$'
  const END: byte := 35       // '#'
  const ESCAPE: byte := 125   // '}'
  const STAR: byte := 42      // '*'
  const REMOTE_SOM: byte := 33 // '!'
  const REMOTE_EOM: byte := 35 // '#'
  const PLUS: byte := 43
  const MINUS: byte := 45
  const NOTIFY: byte := 37    // '%'
  const NO_CHAR: byte := 0xFF
  const INTR: byte := 3
  const EOT: byte := 4

  // ---- frames --------------------------------------------------------------

  /** c ^ 0x20 */
  function Flip(c: byte): (d: byte)
    ensures d != c
  {
    if c / 32 % 2 == 1 then c - 32 else c + 32
  }

  predicate Special(c: byte) {
    c == START || c == END || c == ESCAPE || c == STAR
  }

  function EscapeOne(c: byte): seq<byte> {
    if Special(c) then [ESCAPE, Flip(c)] else [c]
  }

  function Escape(p: seq<byte>): seq<byte> {
    if |p| == 0 then [] else EscapeOne(p[0]) + Escape(p[1..])
  }

  lemma {:induction false} EscapeAppend(a: seq<byte>, b: seq<byte>)
    ensures Escape(a + b) == Escape(a) + Escape(b)
  {
    if |a| == 0 {
      assert a + b == b;
    } else {
      assert (a + b)[0] == a[0] && (a + b)[1..] == a[1..] + b;
      EscapeAppend(a[1..], b);
      assert EscapeOne(a[0]) + (Escape(a[1..]) + Escape(b)) == (EscapeOne(a[0]) + Escape(a[1..])) + Escape(b);
    }
  }

  function Total(raw: seq<byte>): nat {
    if |raw| == 0 then 0 else raw[0] as int + Total(raw[1..])
  }

  lemma {:induction false} TotalAppend(a: seq<byte>, b: seq<byte>)
    ensures Total(a + b) == Total(a) + Total(b)
  {
    if |a| == 0 {
      assert a + b == b;
    } else {
      assert (a + b)[0] == a[0] && (a + b)[1..] == a[1..] + b;
      TotalAppend(a[1..], b);
    }
  }

  /** The modulo-256 sum of raw bytes. */
  function Checksum(raw: seq<byte>): byte {
    Total(raw) % 256
  }

  /** One addition to the unsigned char csum. */
  function Plus(csum: byte, c: int): byte {
    (csum as int + c) % 256
  }

  lemma ChecksumAppend(a: seq<byte>, b: seq<byte>)
    ensures Checksum(a + b) == Plus(Checksum(a), Total(b))
  {
    TotalAppend(a, b);
    hide Total;
    ModAdd(Total(a), Total(b));
  }

  lemma ModAdd(x: int, y: int)
    ensures (x % 256 + y) % 256 == (x + y) % 256
  {
    assert x + y == 256 * (x / 256) + (x % 256 + y);
  }

  lemma PlusTwice(csum: byte, a: nat, b: nat)
    ensures Plus(Plus(csum, a), b) == Plus(csum, a + b)
  {
  }

  function HexDigit(n: int): byte
    requires 0 <= n < 16
  {
    if n < 10 then 48 + n else 55 + n
  }

  /** "%02X" */
  function Hex(n: byte): (h: seq<byte>)
    ensures |h| == 2
  {
    [HexDigit(n as int / 16), HexDigit(n as int % 16)]
  }

  function Frame(start: byte, p: seq<byte>): seq<byte> {
    [start] + Escape(p) + [END] + Hex(Checksum(Escape(p)))
  }

  // ---- strtol on two characters --------------------------------------------

  predicate IsSpace(c: byte) {
    c == 32 || 9 <= c <= 13
  }

  function HexValue(c: byte): Option<int> {
    if 48 <= c <= 57 then Some(c as int - 48)
    else if 65 <= c <= 70 then Some(c as int - 55)
    else if 97 <= c <= 102 then Some(c as int - 87)
    else None
  }

  function OrZero(v: Option<int>): int {
    if v.Some? then v.value else 0
  }

  /** strtol(s, NULL, 16) for a two-character string: leading blanks, a sign and
      a bare "0x" are accepted, and anything else that is no digit ends it. */
  function Strtol(a: byte, b: byte): int {
    if IsSpace(a) || a == PLUS then OrZero(HexValue(b))
    else if a == MINUS then -OrZero(HexValue(b))
    else if HexValue(a).None? then 0
    else if HexValue(b).None? then HexValue(a).value
    else 16 * HexValue(a).value + HexValue(b).value
  }

  lemma StrtolReadsHex(n: byte)
    ensures Strtol(Hex(n)[0], Hex(n)[1]) == n as int
  {
  }

  /** strtol as section 7.22.1.4 of ISO/IEC 9899:2011 describes it, for base 16: blanks,
      a sign, "0x" before a digit, and digits up to anything else. */
  function StandardStrtol(s: seq<byte>): int {
    if |s| > 0 && IsSpace(s[0]) then StandardStrtol(s[1..])
    else if |s| > 0 && s[0] == 45 then -Prefixed(s[1..])
    else if |s| > 0 && s[0] == 43 then Prefixed(s[1..])
    else Prefixed(s)
  }

  function Prefixed(s: seq<byte>): int {
    if |s| > 2 && s[0] == 48 && (s[1] == 120 || s[1] == 88) && HexValue(s[2]).Some? then Digits(s[2..], 0)
    else Digits(s, 0)
  }

  function Digits(s: seq<byte>, value: int): int
    decreases |s|
  {
    if |s| == 0 || HexValue(s[0]).None? then value else Digits(s[1..], 16 * value + HexValue(s[0]).value)
  }

  lemma StrtolIsTheStandard(a: byte, b: byte)
    ensures Strtol(a, b) == StandardStrtol([a, b])
  {
    assert [a, b][1..] == [b] && [b][1..] == [];
    OneDigit(b, 0);
    if IsSpace(a) {
      assert StandardStrtol([a, b]) == StandardStrtol([b]);
      assert StandardStrtol([]) == Prefixed([]) == 0;
    } else if a == 43 || a == 45 {
      assert Prefixed([b]) == OrZero(HexValue(b));
    } else {
      assert StandardStrtol([a, b]) == Prefixed([a, b]) == Digits([a, b], 0);
      if HexValue(a).Some? {
        OneDigit(b, HexValue(a).value);
        assert Digits([a, b], 0) == Digits([b], HexValue(a).value);
      }
    }
  }

  lemma OneDigit(b: byte, value: int)
    ensures Digits([b], value) == if HexValue(b).Some? then 16 * value + HexValue(b).value else value
    ensures Prefixed([b]) == Digits([b], 0)
  {
    assert [b][1..] == [];
  }

  /** With two real hex digits the comparison is exact; without them it can
      still succeed: "zz" stands for 0. */
  lemma StrtolIsLenient()
    ensures forall a: byte, b: byte :: HexValue(a).Some? && HexValue(b).Some?
              ==> Strtol(a, b) == 16 * HexValue(a).value + HexValue(b).value
    ensures HexValue(122).None? && Strtol(122, 122) == 0
  {
  }

  // ---- receiving, on the bytes of the stream -------------------------------

  datatype Body = Starved | Body(payload: seq<byte>, csum: byte, rest: seq<byte>)

  /** The capture loop, from just after a `$`: stops after `#`, or after one more
      byte once `size` bytes are stored. */
  function Capture(bs: seq<byte>, size: nat, acc: seq<byte>, csum: byte): Body
    requires |acc| <= size
    decreases |bs|
  {
    if |bs| == 0 then Starved
    else if bs[0] == END || |acc| == size then Body(acc, csum, bs[1..])
    else if bs[0] == START then Capture(bs[1..], size, [], 0)
    else if bs[0] == ESCAPE then
      if |bs| == 1 then Starved
      else Capture(bs[2..], size, acc + [Flip(bs[1])], Plus(csum, bs[1] as int + ESCAPE as int))
    else Capture(bs[1..], size, acc + [bs[0]], Plus(csum, bs[0] as int))
  }

  datatype FrameResult = NoFrame | FrameResult(payload: seq<byte>, accepted: bool, rest: seq<byte>)

  function TakeFrame(bs: seq<byte>, size: nat): (r: FrameResult)
    ensures r.FrameResult? ==> |r.rest| < |bs| && |r.payload| <= size
  {
    CaptureShrinks(bs, size, [], 0);
    var body := Capture(bs, size, [], 0);
    if body.Starved? || |body.rest| < 2 then NoFrame
    else FrameResult(body.payload, Strtol(body.rest[0], body.rest[1]) == body.csum as int, body.rest[2..])
  }

  lemma {:induction false} CaptureShrinks(bs: seq<byte>, size: nat, acc: seq<byte>, csum: byte)
    requires |acc| <= size
    ensures var r := Capture(bs, size, acc, csum); r.Body? ==> |r.rest| < |bs| && |r.payload| <= size
    decreases |bs|
  {
    if |bs| == 0 || bs[0] == END || |acc| == size {
    } else if bs[0] == START {
      CaptureShrinks(bs[1..], size, [], 0);
    } else if bs[0] == ESCAPE {
      if |bs| > 1 {
        CaptureShrinks(bs[2..], size, acc + [Flip(bs[1])], Plus(csum, bs[1] as int + ESCAPE as int));
      }
    } else {
      CaptureShrinks(bs[1..], size, acc + [bs[0]], Plus(csum, bs[0] as int));
    }
  }

  /** The `!` branch: skip to its end, which a `#`, a `$` or an overlong packet
      make; None if the stream ends first. */
  function SkipRemote(bs: seq<byte>, size: nat, i: nat): (r: Option<seq<byte>>)
    ensures r.Some? ==> |r.value| < |bs|
    decreases |bs|
  {
    if |bs| == 0 then None
    else if bs[0] == REMOTE_SOM then SkipRemote(bs[1..], size, 0)
    else if bs[0] == REMOTE_EOM || bs[0] == START then Some(bs[1..])
    else if i < size then SkipRemote(bs[1..], size, i + 1)
    else Some(bs[1..])
  }

  /** What the main loop gets out of a stream by calling gdb_getpacket again and
      again: the packets of the calls that do not return 0. A bare 0x03 or 0x04
      counts as a packet. */
  function Session(bs: seq<byte>, size: nat): seq<seq<byte>>
    decreases |bs|
  {
    if |bs| == 0 then []
    else if bs[0] == INTR || bs[0] == EOT then [[bs[0]]] + Session(bs[1..], size)
    else if bs[0] == START then
      var f := TakeFrame(bs[1..], size);
      if f.NoFrame? then []
      else (if f.accepted && |f.payload| > 0 then [f.payload] else []) + Session(f.rest, size)
    else if bs[0] == REMOTE_SOM then
      var r := SkipRemote(bs[1..], size, 0);
      if r.None? then [] else Session(r.value, size)
    else Session(bs[1..], size)
  }

  // ---- frames come back ----------------------------------------------------

  lemma {:induction false} CaptureReadsEscaped(p: seq<byte>, tail: seq<byte>, size: nat, acc: seq<byte>, csum: byte)
    requires |acc| + |p| <= size
    ensures Capture(Escape(p) + tail, size, acc, csum) == Capture(tail, size, acc + p, Plus(csum, Total(Escape(p))))
    decreases |p|
  {
    hide Capture, EscapeOne, Total, Plus, Escape;
    EscapeUnfolds(p, csum);
    if |p| == 0 {
      assert Escape(p) + tail == tail && acc + p == acc;
    } else {
      var one, rest := EscapeOne(p[0]), Escape(p[1..]);
      TotalAppend(one, rest);
      PlusTwice(csum, Total(one), Total(rest));
      CaptureOne(p[0], rest + tail, size, acc, csum);
      CaptureReadsEscaped(p[1..], tail, size, acc + [p[0]], Plus(csum, Total(one)));
      assert Escape(p) + tail == one + (rest + tail);
      assert acc + [p[0]] + p[1..] == acc + p;
    }
  }

  lemma EscapeUnfolds(p: seq<byte>, csum: byte)
    ensures |p| > 0 ==> Escape(p) == EscapeOne(p[0]) + Escape(p[1..])
    ensures |p| == 0 ==> Escape(p) == [] && Plus(csum, Total(Escape(p))) == csum
  {
  }

  lemma CaptureOne(c: byte, tail: seq<byte>, size: nat, acc: seq<byte>, csum: byte)
    requires |acc| < size
    ensures Capture(EscapeOne(c) + tail, size, acc, csum)
         == Capture(tail, size, acc + [c], Plus(csum, Total(EscapeOne(c))))
  {
    var bs := EscapeOne(c) + tail;
    if Special(c) {
      assert bs[0] == ESCAPE && bs[1] == Flip(c) && bs[2..] == tail && Flip(Flip(c)) == c;
      UnescapeOne(EscapeOne(c));
    } else {
      assert bs[0] == c && bs[1..] == tail;
      UnescapeOne(EscapeOne(c));
    }
  }

  /** A frame yields its payload, accepted, and nothing of what follows it. */
  lemma FrameIsTaken(p: seq<byte>, more: seq<byte>, size: nat)
    requires |p| <= size
    ensures (Frame(START, p) + more)[0] == START
    ensures TakeFrame((Frame(START, p) + more)[1..], size) == FrameResult(p, true, more)
  {
    hide Escape, Total, Hex, Strtol;
    var sum := Checksum(Escape(p));
    var hex := Hex(sum);
    var tail := [END] + hex + more;
    assert (Frame(START, p) + more)[1..] == Escape(p) + tail;
    CaptureReadsEscaped(p, tail, size, [], 0);
    assert Plus(0, Total(Escape(p))) == sum && [] + p == p;
    assert tail[0] == END && tail[1..] == hex + more;
    assert Capture(tail, size, p, sum) == Body(p, sum, hex + more);
    hide Capture;
    assert (hex + more)[2..] == more && (hex + more)[0] == hex[0] && (hex + more)[1] == hex[1];
    StrtolReadsHex(sum);
  }

  function Frames(ps: seq<seq<byte>>): seq<byte> {
    if |ps| == 0 then [] else Frame(START, ps[0]) + Frames(ps[1..])
  }

  function NonEmpty(ps: seq<seq<byte>>): seq<seq<byte>> {
    if |ps| == 0 then []
    else (if |ps[0]| > 0 then [ps[0]] else []) + NonEmpty(ps[1..])
  }

  lemma FrameIsRead(p: seq<byte>, more: seq<byte>, size: nat)
    requires |p| <= size
    ensures Session(Frame(START, p) + more, size) == (if |p| > 0 then [p] else []) + Session(more, size)
  {
    FrameIsTaken(p, more, size);
    hide TakeFrame, Frame;
  }

  /** Framed payloads are read back in order, whatever bytes they hold; an empty
      payload reads like silence. */
  lemma {:induction false} RoundTrip(ps: seq<seq<byte>>, more: seq<byte>, size: nat)
    requires forall i :: 0 <= i < |ps| ==> |ps[i]| <= size
    ensures Session(Frames(ps) + more, size) == NonEmpty(ps) + Session(more, size)
    decreases |ps|
  {
    hide Session, Frame;
    if |ps| == 0 {
      assert Frames(ps) + more == more;
      assert NonEmpty(ps) + Session(more, size) == Session(more, size);
    } else {
      var rest := Frames(ps[1..]) + more;
      assert Frames(ps) + more == Frame(START, ps[0]) + rest;
      FrameIsRead(ps[0], rest, size);
      RoundTrip(ps[1..], more, size);
      var first := if |ps[0]| > 0 then [ps[0]] else [];
      assert first + (NonEmpty(ps[1..]) + Session(more, size)) == (first + NonEmpty(ps[1..])) + Session(more, size);
    }
  }

  // ---- the bytes on the wire -----------------------------------------------

  /** Bytes as the source has them, in 8 bits. */
  function Octets(bs: seq<bv8>): (s: seq<byte>)
    ensures |s| == |bs| && forall i :: 0 <= i < |s| ==> s[i] == bs[i] as int
  {
    seq(|bs|, i requires 0 <= i < |bs| => bs[i] as int)
  }

  /** What gdb_putpacket puts between `$` and `#`. */
  function OnTheWire(bs: seq<bv8>): seq<bv8> {
    if |bs| == 0 then []
    else (if bs[0] in {0x24, 0x23, 0x7D, 0x2A} then [0x7D, bs[0] ^ 0x20] else [bs[0]]) + OnTheWire(bs[1..])
  }

  lemma FlipOfBits(b: bv8)
    ensures Flip(b as int) == (b ^ 0x20) as int
  {
  }

  lemma SpecialBits(b: bv8)
    ensures Special(b as int) <==> b in {0x24, 0x23, 0x7D, 0x2A}
  {
  }

  lemma OctetsAppend(a: seq<bv8>, b: seq<bv8>)
    ensures Octets(a + b) == Octets(a) + Octets(b)
  {
  }

  lemma OneOctet(b: bv8)
    ensures EscapeOne(b as int) == Octets(OnTheWire([b]))
  {
    FlipOfBits(b);
    SpecialBits(b);
    assert [b][1..] == [];
    hide Flip, Special;
  }

  /** For all payloads: `$`, `#`, `}` and `*`, and no others, are sent as `}` and the
      character with bit 5 changed. */
  lemma {:induction false} EscapedOnTheWire(bs: seq<bv8>)
    ensures Escape(Octets(bs)) == Octets(OnTheWire(bs))
  {
    hide EscapeOne;
    EscapeUnfolds(Octets(bs), 0);
    if |bs| > 0 {
      OneOctet(bs[0]);
      EscapedOnTheWire(bs[1..]);
      assert Octets(bs)[1..] == Octets(bs[1..]);
      assert [bs[0]][1..] == [];
      assert OnTheWire(bs) == OnTheWire([bs[0]]) + OnTheWire(bs[1..]);
      OctetsAppend(OnTheWire([bs[0]]), OnTheWire(bs[1..]));
    }
  }

  /** In the capture loop what follows a `}` is stored with bit 5 changed, and everything
      is added to the checksum as it came. */
  lemma UnescapedFromTheWire(b: bv8, more: seq<byte>, size: nat, acc: seq<byte>, csum: byte)
    requires |acc| < size
    ensures Capture([125, b as int] + more, size, acc, csum)
         == Capture(more, size, acc + [(b ^ 0x20) as int], (csum as int + 125 + b as int) % 256)
    ensures b !in {0x23, 0x24, 0x7D} ==>
              Capture([b as int] + more, size, acc, csum)
              == Capture(more, size, acc + [b as int], (csum as int + b as int) % 256)
  {
    FlipOfBits(b);
    hide Flip;
    CapturedPair(b as int, more, size, acc, csum);
  }

  lemma CapturedPair(c: byte, more: seq<byte>, size: nat, acc: seq<byte>, csum: byte)
    requires |acc| < size
    ensures Capture([125, c] + more, size, acc, csum)
         == Capture(more, size, acc + [Flip(c)], (csum as int + 125 + c as int) % 256)
    ensures c !in {35, 36, 125} ==>
              Capture([c] + more, size, acc, csum) == Capture(more, size, acc + [c], (csum as int + c as int) % 256)
  {
    var bs := [ESCAPE, c] + more;
    assert bs[2..] == more;
    assert ([c] + more)[1..] == more;
  }

  /** The payload `$`, framed, byte by byte: `$`, `}`, 4, `#` and the checksum `81`. */
  lemma DollarFramed()
    ensures Frame(36, [36]) == [36, 125, 4, 35, 56, 49]
  {
    assert Escape([36]) == [125, 4] + Escape([36][1..]) == [125, 4];
    assert Total([125, 4]) == 125 + Total([125, 4][1..]) == 125 + 4 + Total([125, 4][1..][1..]) == 129;
  }

  /** The two characters behind `#`: digits or capital letters that stand for the sum of
      the bytes on the wire between `$` and `#`. */
  lemma ChecksumIsTheSum(start: byte, p: seq<byte>)
    returns (d1: byte, d2: byte)
    ensures Frame(start, p) == [start] + Escape(p) + [35, d1, d2]
    ensures 48 <= d1 <= 57 || 65 <= d1 <= 70
    ensures 48 <= d2 <= 57 || 65 <= d2 <= 70
    ensures 16 * (d1 as int - if d1 < 65 then 48 else 55) + (d2 as int - if d2 < 65 then 48 else 55)
         == Sum(Escape(p)) % 256
  {
    hide Escape, Total;
    var hex := Hex(Checksum(Escape(p)));
    d1, d2 := hex[0], hex[1];
    TotalIsTheSum(Escape(p));
    assert [END] + hex == [35, d1, d2];
    Regroup([start] + Escape(p), [END], hex);
  }

  lemma {:induction false} TotalIsTheSum(raw: seq<byte>)
    ensures Total(raw) == Sum(raw)
  {
    if |raw| > 0 {
      TotalIsTheSum(raw[1..]);
    }
  }

  // ---- resynchronisation ---------------------------------------------------

  predicate Noise(c: byte) {
    c != START && c != REMOTE_SOM && c != INTR && c != EOT && c != NO_CHAR
  }

  /** Noise before a frame is skipped. */
  lemma {:induction false} NoiseIsSkipped(noise: seq<byte>, more: seq<byte>, size: nat)
    requires forall i :: 0 <= i < |noise| ==> Noise(noise[i])
    ensures Session(noise + more, size) == Session(more, size)
  {
    if |noise| == 0 {
      assert noise + more == more;
    } else {
      assert (noise + more)[0] == noise[0] && (noise + more)[1..] == noise[1..] + more;
      NoiseIsSkipped(noise[1..], more, size);
    }
  }

  /** A frame cut off between two escaped characters, before `size` of them, is
      dropped when the next frame starts. */
  lemma TruncatedFrameIsDropped(cut: seq<byte>, p: seq<byte>, more: seq<byte>, size: nat)
    requires |cut| < size && 0 < |p| <= size
    ensures Session([START] + Escape(cut) + Frame(START, p) + more, size) == [p] + Session(more, size)
  {
    var next := Frame(START, p) + more;
    var bs := [START] + Escape(cut) + Frame(START, p) + more;
    assert bs[0] == START && bs[1..] == Escape(cut) + next;
    CaptureReadsEscaped(cut, next, size, [], 0);
    FrameIsTaken(p, more, size);
    var csum := Plus(0, Total(Escape(cut)));
    assert Capture(next, size, [] + cut, csum) == Capture(next[1..], size, [], 0);
    assert TakeFrame(bs[1..], size) == TakeFrame(next[1..], size);
  }

  // ---- the checksum gate ---------------------------------------------------

  function Unescape(raw: seq<byte>): seq<byte>
    decreases |raw|
  {
    if |raw| == 0 then []
    else if raw[0] == ESCAPE && |raw| > 1 then [Flip(raw[1])] + Unescape(raw[2..])
    else [raw[0]] + Unescape(raw[1..])
  }

  /** No `}` is left without the character it escapes. */
  predicate Whole(raw: seq<byte>)
    decreases |raw|
  {
    |raw| == 0
    || (if raw[0] == ESCAPE then |raw| > 1 && Whole(raw[2..]) else Whole(raw[1..]))
  }

  lemma {:induction false} UnescapeAppend(a: seq<byte>, b: seq<byte>)
    requires Whole(a)
    ensures Unescape(a + b) == Unescape(a) + Unescape(b) && (Whole(a + b) <==> Whole(b))
    decreases |a|
  {
    hide Unescape, Whole;
    var ab := a + b;
    Unescapes(a);
    Unescapes(ab);
    if |a| == 0 {
      assert ab == b && Unescape(a) + Unescape(b) == Unescape(b);
    } else {
      var n := if a[0] == ESCAPE then 2 else 1;
      var first := if a[0] == ESCAPE then [Flip(a[1])] else [a[0]];
      assert ab[0] == a[0] && ab[n..] == a[n..] + b && (n == 2 ==> ab[1] == a[1]);
      UnescapeAppend(a[n..], b);
      assert first + (Unescape(a[n..]) + Unescape(b)) == (first + Unescape(a[n..])) + Unescape(b);
    }
  }

  lemma Unescapes(raw: seq<byte>)
    ensures |raw| == 0 ==> Whole(raw) && Unescape(raw) == []
    ensures |raw| > 0 && raw[0] != ESCAPE ==>
              Unescape(raw) == [raw[0]] + Unescape(raw[1..]) && Whole(raw) == Whole(raw[1..])
    ensures |raw| > 1 && raw[0] == ESCAPE ==>
              Unescape(raw) == [Flip(raw[1])] + Unescape(raw[2..]) && Whole(raw) == Whole(raw[2..])
    ensures |raw| == 1 && raw[0] == ESCAPE ==> !Whole(raw)
  {
  }

  /** One plain or escaped character of the capture loop. */
  lemma CaptureUnit(bs: seq<byte>, size: nat, acc: seq<byte>, csum: byte)
    requires |acc| < size && Capture(bs, size, acc, csum).Body? && bs[0] != END && bs[0] != START
    ensures var n := if bs[0] == ESCAPE then 2 else 1;
            && n <= |bs|
            && Whole(bs[..n]) && |Unescape(bs[..n])| == 1
            && Capture(bs, size, acc, csum)
               == Capture(bs[n..], size, acc + Unescape(bs[..n]), Plus(csum, Total(bs[..n])))
  {
    UnescapeOne(bs[..if bs[0] == ESCAPE then 2 else 1]);
  }

  /** A body captured from a stream: `raw` is what came since the last `$`, and
      `last` the byte that ended it. */
  predicate Captured(stream: seq<byte>, size: nat, body: Body, skipped: seq<byte>, raw: seq<byte>, last: byte) {
    && body.Body?
    && stream == skipped + raw + [last] + body.rest
    && (skipped != [] ==> skipped[|skipped| - 1] == START)
    && Whole(raw) && body.payload == Unescape(raw) && body.csum == Checksum(raw)
    && |body.payload| <= size && (last == END || |body.payload| == size)
  }

  lemma CapturedAfterRestart(before: seq<byte>, bs: seq<byte>, size: nat, body: Body,
                             skipped: seq<byte>, raw: seq<byte>, last: byte)
    requires |bs| > 0 && bs[0] == START && Captured([] + bs[1..], size, body, skipped, raw, last)
    ensures Captured(before + bs, size, body, before + [START] + skipped, raw, last)
  {
    var s := before + [START] + skipped;
    assert before + bs == before + [START] + ([] + bs[1..]);
    assert skipped == [] ==> s == before + [START];
    assert skipped != [] ==> s[|s| - 1] == skipped[|skipped| - 1];
  }

  lemma {:induction false} CapturedBytes(bs: seq<byte>, size: nat, acc: seq<byte>, csum: byte, before: seq<byte>)
      returns (skipped: seq<byte>, raw: seq<byte>, last: byte)
    requires |acc| <= size && Whole(before) && acc == Unescape(before) && csum == Checksum(before)
    requires Capture(bs, size, acc, csum).Body?
    ensures Captured(before + bs, size, Capture(bs, size, acc, csum), skipped, raw, last)
    decreases |bs|
  {
    assert |bs| > 0;
    hide Capture, Unescape, Whole, Plus, Total, Captured;
    if bs[0] == END || |acc| == size {
      skipped, raw, last := [], before, bs[0];
      CapturedAtEnd(bs, size, acc, csum, before);
    } else if bs[0] == START {
      EmptyRaw();
      CaptureRestarts(bs, size, acc, csum);
      skipped, raw, last := CapturedBytes(bs[1..], size, [], 0, []);
      CapturedAfterRestart(before, bs, size, Capture(bs[1..], size, [], 0), skipped, raw, last);
      skipped := before + [START] + skipped;
    } else {
      CaptureUnit(bs, size, acc, csum);
      var n := if bs[0] == ESCAPE then 2 else 1;
      var one := bs[..n];
      UnescapeAppend(before, one);
      ChecksumAppend(before, one);
      skipped, raw, last := CapturedBytes(bs[n..], size, acc + Unescape(one), Plus(csum, Total(one)), before + one);
      assert before + bs == (before + one) + bs[n..];
    }
  }

  lemma CapturedAtEnd(bs: seq<byte>, size: nat, acc: seq<byte>, csum: byte, before: seq<byte>)
    requires |acc| <= size && Whole(before) && acc == Unescape(before) && csum == Checksum(before)
    requires |bs| > 0 && (bs[0] == END || |acc| == size)
    ensures Captured(before + bs, size, Capture(bs, size, acc, csum), [], before, bs[0])
  {
    assert before + bs == [] + before + [bs[0]] + bs[1..];
  }

  lemma CaptureRestarts(bs: seq<byte>, size: nat, acc: seq<byte>, csum: byte)
    requires |acc| < size && |bs| > 0 && bs[0] == START
    ensures Capture(bs, size, acc, csum) == Capture(bs[1..], size, [], 0)
  {
  }

  lemma EmptyRaw()
    ensures Whole([]) && Unescape([]) == [] && Checksum([]) == 0
  {
  }

  lemma UnescapeOne(one: seq<byte>)
    requires (|one| == 1 && one[0] != ESCAPE) || (|one| == 2 && one[0] == ESCAPE)
    ensures Whole(one) && Unescape(one) == [if |one| == 1 then one[0] else Flip(one[1])]
    ensures Total(one) == if |one| == 1 then one[0] as int else one[0] as int + one[1] as int
  {
    if |one| == 2 {
      assert one[2..] == [] && one[1..][1..] == [];
    } else {
      assert one[1..] == [];
    }
  }

  /** A framed payload is accepted exactly when its two checksum characters read
      as the modulo-256 sum of the raw bytes since the last `$`, and it is those
      bytes unescaped. */
  lemma ChecksumGate(bs: seq<byte>, size: nat)
    returns (skipped: seq<byte>, raw: seq<byte>, last: byte, d1: byte, d2: byte)
    requires TakeFrame(bs, size).FrameResult?
    ensures var f := TakeFrame(bs, size);
            && bs == skipped + raw + [last, d1, d2] + f.rest
            && (skipped != [] ==> skipped[|skipped| - 1] == START)
            && Whole(raw) && f.payload == Unescape(raw) && |f.payload| <= size
            && (last == END || |f.payload| == size)
            && (f.accepted <==> Strtol(d1, d2) == Checksum(raw) as int)
  {
    skipped, raw, last := CapturedBytes(bs, size, [], 0, []);
    var rest := Capture(bs, size, [], 0).rest;
    d1, d2 := rest[0], rest[1];
    assert [] + bs == bs && [last] + rest == [last, d1, d2] + rest[2..];
  }

  // ---- every cut of a frame ------------------------------------------------

  /** The first k bytes of a frame leave the next one alone: they end in the body,
      between two characters, and hold fewer than `size` of them. */
  predicate CutIsClean(c: seq<byte>, k: nat, size: nat)
    requires 0 < k
  {
    && k - 1 <= |Escape(c)|
    && Whole(Escape(c)[..k - 1])
    && |Unescape(Escape(c)[..k - 1])| < size
  }

  lemma {:induction false} Escaped(a: seq<byte>)
    ensures Whole(Escape(a)) && Unescape(Escape(a)) == a && |Escape(a)| >= |a|
  {
    if |a| > 0 {
      UnescapeOne(EscapeOne(a[0]));
      Escaped(a[1..]);
      UnescapeAppend(EscapeOne(a[0]), Escape(a[1..]));
      assert Flip(Flip(a[0])) == a[0];
    }
  }

  /** The first q bytes of an escaped text: whole characters, and at most half of one
      more. */
  lemma {:induction false} EscapePrefix(c: seq<byte>, q: nat) returns (j: nat)
    requires q <= |Escape(c)|
    ensures j <= |c|
    ensures Escape(c)[..q] == Escape(c[..j]) || (j < |c| && Escape(c)[..q] == Escape(c[..j]) + [ESCAPE])
    decreases |c|
  {
    if q == 0 {
      j := 0;
    } else {
      var one, rest := EscapeOne(c[0]), Escape(c[1..]);
      assert Escape(c) == one + rest;
      if q < |one| {
        j := 0;
        assert Escape(c)[..q] == [ESCAPE];
      } else {
        var i := EscapePrefix(c[1..], q - |one|);
        j := i + 1;
        assert Escape(c)[..q] == one + rest[..q - |one|];
        assert c[..j][1..] == c[1..][..i] && Escape(c[..j]) == one + Escape(c[1..][..i]);
      }
    }
  }

  /** Past `size` characters the capture ends inside the text. */
  lemma {:induction false} OverlongBody(p: seq<byte>, tail: seq<byte>, size: nat, acc: seq<byte>, csum: byte)
    requires |acc| <= size < |acc| + |p|
    ensures var body := Capture(Escape(p) + [END] + tail, size, acc, csum);
            body.Body? && |body.rest| > |tail|
    decreases |p|
  {
    var one, rest := EscapeOne(p[0]), Escape(p[1..]);
    var bs := Escape(p) + [END] + tail;
    assert bs == one + (rest + [END] + tail);
    if |acc| < size {
      CaptureOne(p[0], rest + [END] + tail, size, acc, csum);
      OverlongBody(p[1..], tail, size, acc + [p[0]], Plus(csum, Total(one)));
    }
  }

  /** After a whole number of characters of the frame cut. */
  lemma CutBetween(a: seq<byte>, p: seq<byte>, more: seq<byte>, size: nat)
    requires |a| <= size && 0 < |p| <= size
    ensures TakeFrame(Escape(a) + Frame(START, p) + more, size) == FrameResult(p, true, more) <==> |a| < size
  {
    hide Escape, Total, Hex, Strtol;
    var next := Frame(START, p) + more;
    var csum := Plus(0, Total(Escape(a)));
    assert Escape(a) + Frame(START, p) + more == Escape(a) + next;
    CaptureReadsEscaped(a, next, size, [], 0);
    FrameIsTaken(p, more, size);
    assert [] + a == a && next[0] == START;
    if |a| < size {
      assert Capture(next, size, a, csum) == Capture(next[1..], size, [], 0);
    } else {
      assert Capture(next, size, a, csum) == Body(a, csum, next[1..]);
      Escaped(p);
    }
  }

  /** What a frame result owes to the captured body. */
  lemma TakenFrom(bs: seq<byte>, size: nat)
    ensures var body, f := Capture(bs, size, [], 0), TakeFrame(bs, size);
            f.FrameResult? ==> body.Body? && f.payload == body.payload && |f.rest| == |body.rest| - 2
  {
  }

  lemma CaptureEnds(next: seq<byte>, size: nat, acc: seq<byte>, csum: byte)
    requires |acc| <= size
    ensures Capture([END] + next, size, acc, csum) == Body(acc, csum, next)
  {
    assert ([END] + next)[1..] == next;
  }

  lemma CaptureEscaped(c: byte, next: seq<byte>, size: nat, acc: seq<byte>, csum: byte)
    requires |acc| < size
    ensures Capture([ESCAPE, c] + next, size, acc, csum)
         == Capture(next, size, acc + [Flip(c)], Plus(csum, c as int + ESCAPE as int))
  {
    assert ([ESCAPE, c] + next)[2..] == next;
  }

  lemma EscapedStart(a: seq<byte>, body: seq<byte>, hex: seq<byte>, more: seq<byte>)
    ensures a + [ESCAPE] + ([START] + body + [END] + hex) + more
         == a + ([ESCAPE, START] + (body + [END] + (hex + more)))
  {
  }

  /** With an escape left without its character. */
  lemma CutInEscape(a: seq<byte>, p: seq<byte>, more: seq<byte>, size: nat)
    requires |a| < size && 0 < |p| <= size
    ensures TakeFrame(Escape(a) + [ESCAPE] + Frame(START, p) + more, size) != FrameResult(p, true, more)
  {
    hide Escape, Total, Hex, Strtol, Capture, TakeFrame, Plus;
    var hex := Hex(Checksum(Escape(p)));
    var body := Escape(p) + [END] + (hex + more);
    var bs := Escape(a) + [ESCAPE] + Frame(START, p) + more;
    var csum := Plus(0, Total(Escape(a)));
    EscapedStart(Escape(a), Escape(p), hex, more);
    CaptureReadsEscaped(a, [ESCAPE, START] + body, size, [], 0);
    assert [] + a == a;
    var acc, sum := a + [Flip(START)], Plus(csum, START as int + ESCAPE as int);
    CaptureEscaped(START, body, size, a, csum);
    if |acc| + |p| <= size {
      Regroup(Escape(p), [END], hex + more);
      CaptureReadsEscaped(p, [END] + (hex + more), size, acc, sum);
      CaptureEnds(hex + more, size, acc + p, Plus(sum, Total(Escape(p))));
    } else {
      OverlongBody(p, hex + more, size, acc, sum);
    }
    TakenFrom(bs, size);
  }

  lemma Regrouped(a: seq<byte>, b: seq<byte>, c: seq<byte>, d: seq<byte>, e: seq<byte>)
    ensures a + b + c + d + e == a + (b + (c + d + e))
  {
  }

  /** In the checksum: the next `$` is taken for a digit. */
  lemma CutInChecksum(c: seq<byte>, digits: seq<byte>, p: seq<byte>, more: seq<byte>, size: nat)
    requires |c| <= size && |digits| < 2 && 0 < |p| <= size
    ensures TakeFrame(Escape(c) + [END] + digits + Frame(START, p) + more, size) != FrameResult(p, true, more)
  {
    hide Escape, Total, Hex, Strtol, Capture, TakeFrame, Plus;
    var next := digits + Frame(START, p) + more;
    var csum := Plus(0, Total(Escape(c)));
    var bs := Escape(c) + [END] + digits + Frame(START, p) + more;
    Regrouped(Escape(c), [END], digits, Frame(START, p), more);
    CaptureReadsEscaped(c, [END] + next, size, [], 0);
    assert [] + c == c;
    CaptureEnds(next, size, c, csum);
    Escaped(p);
    TakenFrom(bs, size);
  }

  /** For every cut of every frame: the frame that follows is read as it was written
      if and only if the cut is clean. */
  lemma CutFrameExactly(c: seq<byte>, k: nat, p: seq<byte>, more: seq<byte>, size: nat)
    requires |c| <= size && 0 < |p| <= size && 0 < k < |Frame(START, c)|
    ensures TakeFrame((Frame(START, c)[..k] + Frame(START, p) + more)[1..], size) == FrameResult(p, true, more)
            <==> CutIsClean(c, k, size)
  {
    hide Escape, Hex, Capture, Strtol, TakeFrame, Unescape, Whole;
    var frame, next := Frame(START, c), Frame(START, p);
    var bs := (frame[..k] + next + more)[1..];
    assert bs == frame[1..k] + next + more;
    if k - 1 <= |Escape(c)| {
      var raw := Escape(c)[..k - 1];
      assert frame[1..k] == raw;
      var j := EscapePrefix(c, k - 1);
      Escaped(c[..j]);
      if raw == Escape(c[..j]) {
        CutBetween(c[..j], p, more, size);
      } else {
        UnescapeAppend(Escape(c[..j]), [ESCAPE]);
        Unescapes([ESCAPE]);
        CutInEscape(c[..j], p, more, size);
      }
    } else {
      var digits := Hex(Checksum(Escape(c)))[..k - 2 - |Escape(c)|];
      assert frame[1..k] == Escape(c) + [END] + digits;
      CutInChecksum(c, digits, p, more, size);
    }
  }

  // ---- what is no frame ----------------------------------------------------

  /** The letters of a remote packet. */
  predicate Remote(c: byte) {
    c != 33 && c != 35 && c != 36
  }

  /** For all contents of a remote packet: `!` starts it again, `#` and `$` end it, and so
      does the character after `size` others. */
  lemma {:induction false} RemoteExactly(cs: seq<byte>, end: byte, more: seq<byte>, size: nat, i: nat)
    requires i <= size && forall k :: 0 <= k < |cs| ==> Remote(cs[k])
    ensures |cs| <= size - i && (end == 35 || end == 36) ==> SkipRemote(cs + [end] + more, size, i) == Some(more)
    ensures |cs| <= size - i && end == 33 ==> SkipRemote(cs + [end] + more, size, i) == SkipRemote(more, size, 0)
    ensures |cs| > size - i ==> SkipRemote(cs + [end] + more, size, i) == Some(cs[size - i + 1..] + [end] + more)
    decreases |cs|
  {
    var bs := cs + [end] + more;
    if |cs| == 0 {
      assert bs[0] == end && bs[1..] == more;
    } else {
      assert bs[0] == cs[0] && bs[1..] == cs[1..] + [end] + more;
      if i < size {
        RemoteExactly(cs[1..], end, more, size, i + 1);
      }
    }
  }

  /** A remote packet yields nothing to the main loop and is not acknowledged. */
  lemma RemoteIsSkipped(cs: seq<byte>, end: byte, more: seq<byte>, size: nat)
    requires |cs| <= size && (forall k :: 0 <= k < |cs| ==> Remote(cs[k])) && (end == 35 || end == 36)
    ensures Session([33] + cs + [end] + more, size) == Session(more, size)
    ensures Answers([33] + cs + [end] + more, size) == Answers(more, size)
  {
    var bs := [33] + cs + [end] + more;
    assert bs[0] == REMOTE_SOM && bs[1..] == cs + [end] + more;
    RemoteExactly(cs, end, more, size, 0);
  }

  /** A bare 0x03 or 0x04 is a packet of its own, and is not acknowledged. */
  lemma BareByte(c: byte, more: seq<byte>, size: nat)
    requires c == 3 || c == 4
    ensures Session([c] + more, size) == [[c]] + Session(more, size)
    ensures Answers([c] + more, size) == Answers(more, size)
  {
    assert ([c] + more)[1..] == more;
  }

  // ---- acknowledgements ----------------------------------------------------

  /** The replies a receiver in ack mode owes for a stream: one for each frame. */
  function Answers(bs: seq<byte>, size: nat): seq<byte>
    decreases |bs|
  {
    if |bs| == 0 then []
    else if bs[0] == START then
      var f := TakeFrame(bs[1..], size);
      if f.NoFrame? then [] else [if f.accepted then PLUS else MINUS] + Answers(f.rest, size)
    else if bs[0] == REMOTE_SOM then
      var r := SkipRemote(bs[1..], size, 0);
      if r.None? then [] else Answers(r.value, size)
    else Answers(bs[1..], size)
  }

  /** One `+` or `-` for each frame that is read to its end. */
  lemma EveryFrameIsAnswered(bs: seq<byte>, size: nat)
    requires TakeFrame(bs, size).FrameResult?
    ensures var f := TakeFrame(bs, size);
            Answers([36] + bs, size) == [if f.accepted then 43 else 45] + Answers(f.rest, size)
  {
    assert ([36] + bs)[1..] == bs;
    hide TakeFrame;
  }

  function Repeat<T>(x: seq<T>, n: nat): seq<T> {
    if n == 0 then [] else x + Repeat(x, n - 1)
  }

  lemma FrameIsAcknowledged(p: seq<byte>, more: seq<byte>, size: nat)
    requires |p| <= size
    ensures Answers(Frame(START, p) + more, size) == [PLUS] + Answers(more, size)
  {
    FrameIsTaken(p, more, size);
    hide TakeFrame, Frame;
  }

  lemma {:induction false} FramesAreAcknowledged(ps: seq<seq<byte>>, more: seq<byte>, size: nat)
    requires forall i :: 0 <= i < |ps| ==> |ps[i]| <= size
    ensures Answers(Frames(ps) + more, size) == Repeat([PLUS], |ps|) + Answers(more, size)
    decreases |ps|
  {
    hide Answers, Frame;
    if |ps| == 0 {
      assert Frames(ps) + more == more;
    } else {
      var rest := Frames(ps[1..]) + more;
      assert Frames(ps) + more == Frame(START, ps[0]) + rest;
      FrameIsAcknowledged(ps[0], rest, size);
      FramesAreAcknowledged(ps[1..], more, size);
      assert [PLUS] + (Repeat([PLUS], |ps| - 1) + Answers(more, size))
          == ([PLUS] + Repeat([PLUS], |ps| - 1)) + Answers(more, size);
    }
  }

  /** What a connection delivers: bytes, and None for a poll that timed out. */
  type Tokens = seq<Option<byte>>

  function BytesOf(ts: Tokens): seq<byte> {
    if |ts| == 0 then []
    else (if ts[0].Some? then [ts[0].value] else []) + BytesOf(ts[1..])
  }

  function Received(bs: seq<byte>): (ts: Tokens)
    ensures |ts| == |bs| && forall i :: 0 <= i < |bs| ==> ts[i] == Some(bs[i])
  {
    seq(|bs|, i requires 0 <= i < |bs| => Some(bs[i]))
  }

  /** How often a frame is sent: again after every answer that is not `+` (a
      timeout reads as 0xFF), four times at most. */
  function Transmissions(ts: Tokens, tries: nat): (n: nat)
    ensures n > 0
    decreases |ts|
  {
    if |ts| > 0 && ts[0] != Some(PLUS) && tries < 3 then 1 + Transmissions(ts[1..], tries + 1) else 1
  }

  lemma TransmissionsFrom(ts: Tokens, k: nat, tries: nat)
    requires k <= |ts|
    ensures Transmissions(ts[k..], tries)
         == if k < |ts| && ts[k] != Some(PLUS) && tries < 3 then 1 + Transmissions(ts[k + 1..], tries + 1) else 1
  {
    assert k < |ts| ==> ts[k..][1..] == ts[k + 1..];
  }

  lemma {:induction false} AtMostFour(ts: Tokens, tries: nat)
    requires tries <= 3
    ensures Transmissions(ts, tries) <= 4 - tries
    ensures |ts| > 0 && ts[0] == Some(PLUS) ==> Transmissions(ts, tries) == 1
    decreases |ts|
  {
    if |ts| > 0 && tries < 3 {
      AtMostFour(ts[1..], tries + 1);
    }
  }

  /** The place of the first `+` among the answers, or their number. */
  function FirstPlus(ts: Tokens): (k: nat)
    ensures k <= |ts| && (k < |ts| ==> ts[k] == Some(43)) && forall i :: 0 <= i < k ==> ts[i] != Some(43)
  {
    if |ts| == 0 || ts[0] == Some(43) then 0 else 1 + FirstPlus(ts[1..])
  }

  /** Once more than there are answers before the first `+`, and at most four times. */
  lemma {:induction false} TransmissionsExactly(ts: Tokens, tries: nat)
    requires tries <= 3
    ensures Transmissions(ts, tries) == Min(FirstPlus(ts) + 1, 4 - tries)
    decreases |ts|
  {
    if |ts| > 0 && tries < 3 {
      TransmissionsExactly(ts[1..], tries + 1);
    }
  }

  /** An unanswered frame is sent four times; PutPacket2 does so in no-ack mode
      as well, where PutPacket sends once. */
  lemma SilenceCostsFour(ts: Tokens)
    requires |ts| >= 3 && ts[0] == ts[1] == ts[2] == None
    ensures Transmissions(ts, 0) == 4
  {
    TransmissionsFrom(ts, 0, 0);
    TransmissionsFrom(ts, 1, 1);
    TransmissionsFrom(ts, 2, 2);
    TransmissionsFrom(ts, 3, 3);
    assert ts[0..] == ts;
  }

  /** In ack mode a frame that meets a receiver of this module is sent once and
      read once: the receiver's only answer to it is `+`. */
  lemma OneExchange(p: seq<byte>, size: nat, later: Tokens)
    requires 0 < |p| <= size
    ensures Session(Frame(START, p), size) == [p]
    ensures Transmissions(Received(Answers(Frame(START, p), size)) + later, 0) == 1
  {
    assert Frames([p]) + [] == Frame(START, p) by {
      assert Frames([p][1..]) == [];
    }
    RoundTrip([p], [], size);
    FramesAreAcknowledged([p], [], size);
    assert NonEmpty([p]) + Session([], size) == [p] by {
      assert NonEmpty([p][1..]) == [];
    }
    assert Repeat([PLUS], 1) == [PLUS] by {
      assert Repeat([PLUS], 0) == [];
    }
    AtMostFour(Received(Answers(Frame(START, p), size)) + later, 0);
  }

  /** A stream yields the packets `items` and then goes on like another stream,
      with no frame answered in between. */
  ghost predicate Alike(bs: seq<byte>, items: seq<seq<byte>>, rest: seq<byte>, size: nat) {
    Session(bs, size) == items + Session(rest, size) && Answers(bs, size) == Answers(rest, size)
  }

  /** What was written plus what the rest of the stream is owed has not changed;
      in no-ack mode nothing is owed. */
  ghost predicate Settled(out0: seq<byte>, bs0: seq<byte>, out: seq<byte>, bs: seq<byte>, size: nat, noAck: bool) {
    out + (if noAck then [] else Answers(bs, size)) == out0 + (if noAck then [] else Answers(bs0, size))
  }

  lemma NothingReadYet(out: seq<byte>, bs: seq<byte>, size: nat, noAck: bool)
    ensures Settled(out, bs, out, bs, size, noAck)
    ensures BytesOf([]) == [] && Session([], size) == []
  {
  }

  lemma AlikeMeans(bs: seq<byte>, items: seq<seq<byte>>, rest: seq<byte>, size: nat)
    requires Alike(bs, items, rest, size)
    ensures Session(bs, size) == items + Session(rest, size) && Answers(bs, size) == Answers(rest, size)
    ensures items == [] ==> Session(bs, size) == Session(rest, size)
  {
    assert [] + Session(rest, size) == Session(rest, size);
  }

  /** Reading on without a frame, and replying to one. */
  lemma SettledOn(out0: seq<byte>, bs0: seq<byte>, out: seq<byte>, bs: seq<byte>, later: seq<byte>,
                  size: nat, noAck: bool)
    requires Settled(out0, bs0, out, bs, size, noAck) && Answers(bs, size) == Answers(later, size)
    ensures Settled(out0, bs0, out, later, size, noAck)
  {
  }

  lemma SettledReply(out0: seq<byte>, bs0: seq<byte>, out: seq<byte>, bs: seq<byte>, c: byte, later: seq<byte>,
                     size: nat, noAck: bool)
    requires Settled(out0, bs0, out, bs, size, noAck) && Answers(bs, size) == [c] + Answers(later, size)
    ensures Settled(out0, bs0, if noAck then out else out + [c], later, size, noAck)
  {
    hide Answers;
    assert out + ([c] + Answers(later, size)) == (out + [c]) + Answers(later, size);
  }

  /** How the main loop's view of a stream unfolds outside frames. */
  lemma SessionSteps(bs: seq<byte>, size: nat)
    ensures |bs| == 0 ==> Session(bs, size) == [] && Answers(bs, size) == []
    ensures |bs| > 0 && (bs[0] == INTR || bs[0] == EOT) ==> Alike(bs, [[bs[0]]], bs[1..], size)
    ensures |bs| > 0 && bs[0] != START && bs[0] != REMOTE_SOM && bs[0] != INTR && bs[0] != EOT
            ==> Session(bs, size) == Session(bs[1..], size) && Answers(bs, size) == Answers(bs[1..], size)
    ensures |bs| > 0 && bs[0] == REMOTE_SOM ==>
              var r := SkipRemote(bs[1..], size, 0);
              && Session(bs, size) == (if r.None? then [] else Session(r.value, size))
              && Answers(bs, size) == (if r.None? then [] else Answers(r.value, size))
  {
  }

  /** ... and at a frame, given the stream after its `$`. */
  lemma FrameSteps(bs: seq<byte>, size: nat)
    ensures var body := Capture(bs, size, [], 0);
            var all := [START] + bs;
            && (body.Starved? || |body.rest| < 2 ==> Session(all, size) == [] && Answers(all, size) == [])
            && (body.Body? && |body.rest| >= 2 ==>
                  var good := body.csum as int == Strtol(body.rest[0], body.rest[1]);
                  && Session(all, size) == (if good && |body.payload| > 0 then [body.payload] else [])
                                           + Session(body.rest[2..], size)
                  && Answers(all, size) == [if good then PLUS else MINUS] + Answers(body.rest[2..], size))
    ensures Session([], size) == [] && Answers([], size) == []
  {
    var all := [START] + bs;
    assert all[0] == START && all[1..] == bs;
    hide Capture;
  }

  // ---- the transport -------------------------------------------------------

  const BUFFER_SIZE: nat := 256

  datatype NetEvent = Recv(bytes: seq<byte>) | Silence

  /** recv returns 1 to 256 bytes at a time. */
  predicate Deliverable(script: seq<NetEvent>) {
    forall i :: 0 <= i < |script| && script[i].Recv? ==> 0 < |script[i].bytes| <= BUFFER_SIZE
  }

  function ScriptTokens(script: seq<NetEvent>): Tokens {
    if |script| == 0 then []
    else (if script[0].Silence? then [None] else Received(script[0].bytes)) + ScriptTokens(script[1..])
  }

  /** The bytes a script delivers, whatever chunks and silences it is made of. */
  function Stream(script: seq<NetEvent>): seq<byte> {
    if |script| == 0 then []
    else (if script[0].Recv? then script[0].bytes else []) + Stream(script[1..])
  }

  lemma {:induction false} BytesOfAppend(a: Tokens, b: Tokens)
    ensures BytesOf(a + b) == BytesOf(a) + BytesOf(b)
  {
    if |a| == 0 {
      assert a + b == b;
    } else {
      assert (a + b)[0] == a[0] && (a + b)[1..] == a[1..] + b;
      BytesOfAppend(a[1..], b);
    }
  }

  lemma {:induction false} BytesOfReceived(bs: seq<byte>)
    ensures BytesOf(Received(bs)) == bs
  {
    if |bs| > 0 {
      assert Received(bs)[1..] == Received(bs[1..]);
      BytesOfReceived(bs[1..]);
    }
  }

  lemma {:induction false} ChunksAreInvisible(script: seq<NetEvent>)
    ensures BytesOf(ScriptTokens(script)) == Stream(script)
  {
    if |script| > 0 {
      var first := if script[0].Silence? then [None] else Received(script[0].bytes);
      BytesOfAppend(first, ScriptTokens(script[1..]));
      ChunksAreInvisible(script[1..]);
      if script[0].Recv? {
        BytesOfReceived(script[0].bytes);
      } else {
        assert first[1..] == [] && BytesOf(first) == [];
      }
    }
  }

  /** End to end: whatever the chunks and the silences in which the frames of a
      list of payloads arrive, the calls of gdb_getpacket return exactly them. */
  lemma EndToEnd(ps: seq<seq<byte>>, script: seq<NetEvent>, size: nat)
    requires forall i :: 0 <= i < |ps| ==> 0 < |ps[i]| <= size
    requires Stream(script) == Frames(ps)
    ensures Session(BytesOf(ScriptTokens(script)), size) == ps
    ensures Answers(BytesOf(ScriptTokens(script)), size) == Repeat([PLUS], |ps|)
  {
    ChunksAreInvisible(script);
    RoundTrip(ps, [], size);
    FramesAreAcknowledged(ps, [], size);
    NonEmptyIsAll(ps);
    assert Frames(ps) + [] == Frames(ps);
  }

  lemma {:induction false} NonEmptyIsAll(ps: seq<seq<byte>>)
    requires forall i :: 0 <= i < |ps| ==> 0 < |ps[i]|
    ensures NonEmpty(ps) == ps
  {
    if |ps| > 0 {
      NonEmptyIsAll(ps[1..]);
    }
  }

  class GdbClient {
    const buffer: array<byte>
    var bufferIndex: nat
    var bufferSize: nat
    const buf: array<byte>
    var bufsize: nat
    var noAckMode: bool
    var dead: bool              // destroy() was called
    var script: seq<NetEvent>   // what the socket will deliver; then the peer closes
    var wire: seq<byte>         // what was handed to send()

    ghost predicate Valid()
      reads this, buffer, buf
    {
      && buffer.Length == BUFFER_SIZE && buf.Length == BUFFER_SIZE && buffer != buf
      && bufferIndex <= bufferSize <= BUFFER_SIZE
      && bufsize < BUFFER_SIZE
      && Deliverable(script)
    }

    /** What is still to be read. */
    ghost function Input(): Tokens
      requires Valid()
      reads this, buffer, buf
    {
      Received(buffer[bufferIndex..bufferSize]) + ScriptTokens(script)
    }

    /** What was written, sent or still buffered. */
    ghost function Output(): seq<byte>
      requires Valid()
      reads this, buffer, buf
    {
      wire + buf[..bufsize]
    }

    constructor (script: seq<NetEvent>, noAckMode: bool)
      requires Deliverable(script)
      ensures Valid() && !dead && this.noAckMode == noAckMode && fresh(buffer) && fresh(buf)
      ensures Input() == ScriptTokens(script) && Output() == [] && bufsize == 0
    {
      buffer := new byte[BUFFER_SIZE];
      buf := new byte[BUFFER_SIZE];
      bufferIndex, bufferSize, bufsize := 0, 0, 0;
      this.script, wire := script, [];
      this.noAckMode, dead := noAckMode, false;
    }

    /** The next character of a non-empty buffer. */
    method PopChar() returns (c: byte)
      requires Valid() && bufferIndex < bufferSize
      modifies this`bufferIndex
      ensures Valid() && old(Input()) == [Some(c)] + Input()
    {
      ghost var before := Input();
      c := buffer[bufferIndex];
      bufferIndex := bufferIndex + 1;
      assert before == [Some(c)] + Input();
    }

    /** Time passing while recv blocks. */
    method DrainSilence()
      requires Valid() && bufferIndex == bufferSize
      modifies this`script
      ensures Valid() && BytesOf(Input()) == BytesOf(old(Input())) && |Input()| <= |old(Input())|
      ensures |script| > 0 ==> script[0].Recv?
      ensures old(|script|) > 0 && old(script[0]).Recv? ==> script == old(script)
      ensures |script| == 0 ==> Input() == []
    {
      while |script| > 0 && script[0].Silence?
        invariant Valid() && BytesOf(Input()) == BytesOf(old(Input())) && |Input()| <= |old(Input())|
        invariant old(|script|) > 0 && old(script[0]).Recv? ==> script == old(script)
        decreases |script|
      {
        ghost var now := Input();
        script := script[1..];
        assert now == [None] + Input();
      }
    }

    /** recv on an empty buffer, with data there. */
    method Refill()
      requires Valid() && bufferIndex == bufferSize && |script| > 0 && script[0].Recv?
      modifies this`bufferIndex, this`bufferSize, this`script, buffer
      ensures Valid() && Input() == old(Input()) && bufferIndex < bufferSize
    {
      var bytes := script[0].bytes;
      var k := 0;
      while k < |bytes|
        invariant 0 <= k <= |bytes|
        invariant buffer[..k] == bytes[..k]
        modifies buffer
      {
        buffer[k] := bytes[k];
        k := k + 1;
      }
      script := script[1..];
      bufferIndex, bufferSize := 0, |bytes|;
      assert buffer[0..|bytes|] == bytes;
    }

    /** Blocking read of one character; a closed peer ends the client. */
    method GetChar() returns (c: byte)
      requires Valid() && !dead
      modifies this`bufferIndex, this`bufferSize, this`script, this`dead, buffer
      ensures Valid() && Output() == old(Output())
      ensures dead ==> BytesOf(old(Input())) == [] && Input() == []
      ensures !dead ==> BytesOf(old(Input())) == [c] + BytesOf(Input()) && |Input()| < |old(Input())|
      ensures old(Input()) != [] && old(Input())[0].Some? ==>
                !dead && [Some(c)] + Input() == old(Input())
    {
      hide Deliverable, ScriptTokens;
      if bufferIndex >= bufferSize {
        SilenceFirst(script);
        DrainSilence();
        if |script| == 0 {
          dead := true;
          return 0;
        }
        Refill();
      }
      c := PopChar();
    }

    lemma SilenceFirst(script: seq<NetEvent>)
      requires Deliverable(script)
      ensures |ScriptTokens(script)| > 0 <==> |script| > 0
      ensures |script| > 0 ==> (ScriptTokens(script)[0].Some? <==> script[0].Recv?)
      ensures |script| > 0 && script[0].Silence? ==> ScriptTokens(script) == [None] + ScriptTokens(script[1..])
    {
    }

    /** Read with a timeout, which reads as 0xFF. The lock break around it is the
        subject of GdbLock. */
    method GetCharTo() returns (c: byte)
      requires Valid() && !dead
      modifies this`bufferIndex, this`bufferSize, this`script, this`dead, buffer
      ensures Valid() && Output() == old(Output())
      ensures dead <==> old(Input()) == []
      ensures dead ==> Input() == []
      ensures !dead ==>
                && Input() == old(Input())[1..]
                && c == (if old(Input())[0].Some? then old(Input())[0].value else NO_CHAR)
    {
      SilenceFirst(script);
      if bufferIndex < bufferSize {
        c := PopChar();
        return;
      }
      if |script| == 0 || script[0].Recv? {  // select: data, or the peer closed
        c := GetChar();
      } else {
        script := script[1..];
        c := NO_CHAR;
      }
    }

    /** gdb_if_putchar: a full or flushed buffer is sent. */
    method PutChar(c: byte, flush: bool)
      requires Valid()
      modifies this`bufsize, this`wire, buf
      ensures Valid() && Input() == old(Input())
      ensures Output() == old(Output()) + [c]
      ensures flush ==> bufsize == 0
    {
      buf[bufsize] := c;
      bufsize := bufsize + 1;
      if flush || bufsize == BUFFER_SIZE {
        wire := wire + buf[..bufsize];
        bufsize := 0;
      }
    }

    // ---- transmission ----

    method NextChar(c: byte, csum: byte) returns (sum: byte)
      requires Valid()
      modifies this`bufsize, this`wire, buf
      ensures Valid() && Input() == old(Input())
      ensures Output() == old(Output()) + EscapeOne(c)
      ensures sum == Plus(csum, Total(EscapeOne(c)))
    {
      UnescapeOne(EscapeOne(c));
      if c == START || c == END || c == ESCAPE || c == STAR {
        PutChar(ESCAPE, false);
        PutChar(Flip(c), false);
        sum := Plus(csum, ESCAPE as int + Flip(c) as int);
      } else {
        PutChar(c, false);
        sum := Plus(csum, c as int);
      }
    }

    /** The escaped characters of a packet, added to the running checksum. */
    method PutEscaped(p: seq<byte>, csum: byte) returns (sum: byte)
      requires Valid()
      modifies this`bufsize, this`wire, buf
      ensures Valid() && Input() == old(Input())
      ensures Output() == old(Output()) + Escape(p)
      ensures sum == Plus(csum, Total(Escape(p)))
    {
      hide EscapeOne, Total, Plus;
      sum := csum;
      EscapeUnfolds([], csum);
      var i := 0;
      while i < |p|
        invariant 0 <= i <= |p| && Valid() && Input() == old(Input())
        invariant Output() == old(Output()) + Escape(p[..i])
        invariant sum == Plus(csum, Total(Escape(p[..i])))
      {
        sum := NextChar(p[i], sum);
        EscapeSnoc(p[..i], p[i]);
        PlusTwice(csum, Total(Escape(p[..i])), Total(EscapeOne(p[i])));
        assert p[..i + 1] == p[..i] + [p[i]];
        i := i + 1;
      }
      assert p[..i] == p;
    }

    lemma EscapeSnoc(p: seq<byte>, c: byte)
      ensures Escape(p + [c]) == Escape(p) + EscapeOne(c)
      ensures Total(Escape(p + [c])) == Total(Escape(p)) + Total(EscapeOne(c))
    {
      EscapeAppend(p, [c]);
      TotalAppend(Escape(p), EscapeOne(c));
      assert [c][1..] == [] && Escape([c]) == EscapeOne(c) + [];
    }

    method PutEnd(csum: byte)
      requires Valid()
      modifies this`bufsize, this`wire, buf
      ensures Valid() && Input() == old(Input()) && bufsize == 0
      ensures Output() == old(Output()) + [END] + Hex(csum)
    {
      PutChar(END, false);
      var xmit := Hex(csum);
      PutChar(xmit[0], false);
      PutChar(xmit[1], true);
    }

    /** One transmission of a packet given in two parts. */
    method PutFrame(start: byte, a: seq<byte>, b: seq<byte>)
      requires Valid()
      modifies this`bufsize, this`wire, buf
      ensures Valid() && Input() == old(Input()) && bufsize == 0
      ensures Output() == old(Output()) + Frame(start, a + b)
    {
      hide Escape, Total, Hex, Plus, Valid, Input, Output;
      FrameSum(a, b);
      PutChar(start, false);
      var csum := PutEscaped(a, 0);
      csum := PutEscaped(b, csum);
      PutEnd(csum);
    }

    lemma FrameSum(a: seq<byte>, b: seq<byte>)
      ensures Plus(Plus(0, Total(Escape(a))), Total(Escape(b))) == Checksum(Escape(a + b))
      ensures Escape(a + b) == Escape(a) + Escape(b)
    {
      hide Escape, Total;
      EscapeAppend(a, b);
      ChecksumAppend(Escape(a), Escape(b));
    }

    /** The do-while loop around a transmission: repeat until `+` arrives, four
        times at most; `waits` is false when no answer is expected. */
    method PutUntilAcknowledged(start: byte, a: seq<byte>, b: seq<byte>, waits: bool)
      requires Valid() && !dead
      modifies this`bufferIndex, this`bufferSize, this`script, this`dead, buffer
      modifies this`bufsize, this`wire, buf
      ensures Valid() && bufsize == 0
      ensures var n := if waits then Transmissions(old(Input()), 0) else 1;
              && Output() == old(Output()) + Repeat(Frame(start, a + b), n)
              && (dead <==> waits && n > |old(Input())|)
              && (!dead ==> Input() == old(Input())[if waits then n else 0..])
    {
      hide Frame, Transmissions, Repeat, Valid, Input, Output;
      var tries := 0;
      ghost var out, ts, sent := Output(), Input(), 0;
      ghost var frame := Frame(start, a + b);
      RepeatNone(out, frame);
      assert ts[0..] == ts;
      while true
        invariant Valid() && !dead && 0 <= sent <= |ts| && Input() == ts[sent..]
        invariant Output() == out + Repeat(frame, sent)
        invariant sent == tries <= 3 && (!waits ==> sent == 0)
        invariant Transmissions(ts, 0) == sent + Transmissions(ts[sent..], tries)
        decreases 3 - tries
      {
        PutFrame(start, a, b);
        RepeatSnoc(frame, sent);
        assert out + Repeat(frame, sent) + frame == out + Repeat(frame, sent + 1);
        if !waits {
          return;
        }
        TransmissionsFrom(ts, sent, tries);
        assert sent < |ts| ==> ts[sent..][0] == ts[sent] && ts[sent..][1..] == ts[sent + 1..];
        var c := GetCharTo();
        sent := sent + 1;
        if dead || c == PLUS || !(tries < 3) {
          return;
        }
        tries := tries + 1;
      }
    }

    lemma RepeatNone(out: seq<byte>, x: seq<byte>)
      ensures out + Repeat(x, 0) == out
    {
    }

    lemma RepeatSnoc<T>(x: seq<T>, n: nat)
      ensures Repeat(x, n + 1) == Repeat(x, n) + x
    {
      if n > 0 {
        RepeatSnoc(x, n - 1);
      }
    }

    method PutPacket(packet: seq<byte>, start: byte)
      requires Valid() && !dead
      modifies this`bufferIndex, this`bufferSize, this`script, this`dead, buffer
      modifies this`bufsize, this`wire, buf
      ensures Valid() && bufsize == 0
      ensures var n := if noAckMode then 1 else Transmissions(old(Input()), 0);
              && Output() == old(Output()) + Repeat(Frame(start, packet), n)
              && (dead <==> !noAckMode && n > |old(Input())|)
              && (!dead ==> Input() == old(Input())[if noAckMode then 0 else n..])
    {
      hide Frame, Transmissions, Repeat;
      assert packet + [] == packet;
      PutUntilAcknowledged(start, packet, [], !noAckMode);
    }

    /** Waits for an answer in no-ack mode too. */
    method PutPacket2(packet1: seq<byte>, packet2: seq<byte>)
      requires Valid() && !dead
      modifies this`bufferIndex, this`bufferSize, this`script, this`dead, buffer
      modifies this`bufsize, this`wire, buf
      ensures Valid() && bufsize == 0
      ensures var n := Transmissions(old(Input()), 0);
              && Output() == old(Output()) + Repeat(Frame(START, packet1 + packet2), n)
              && (dead <==> n > |old(Input())|)
              && (!dead ==> Input() == old(Input())[n..])
    {
      PutUntilAcknowledged(START, packet1, packet2, true);
    }

    method PutNotification(packet: seq<byte>)
      requires Valid()
      modifies this`bufsize, this`wire, buf
      ensures Valid() && Input() == old(Input()) && bufsize == 0
      ensures Output() == old(Output()) + Frame(37, packet)
    {
      assert packet + [] == packet;
      PutFrame(NOTIFY, packet, []);
    }

    // ---- reception ----

    /** The remote-packet branch: characters are stored while there is room, and
        what the packet makes the probe do is left out. */
    method SkipRemotePacket(packet: array<byte>, size: nat)
      requires Valid() && !dead && packet.Length == size + 1 && packet != buffer && packet != buf
      modifies this`bufferIndex, this`bufferSize, this`script, this`dead, buffer, packet
      ensures Valid() && Output() == old(Output()) && |Input()| <= |old(Input())|
      ensures SkipRemote(BytesOf(old(Input())), size, 0) == if dead then None else Some(BytesOf(Input()))
      ensures dead ==> Input() == []
    {
      hide ScriptTokens, Deliverable, BytesOf;
      ghost var bs := BytesOf(Input());
      var i := 0;
      while true
        invariant Valid() && !dead && i <= size && Output() == old(Output()) && |Input()| <= |old(Input())|
        invariant SkipRemote(bs, size, 0) == SkipRemote(BytesOf(Input()), size, i)
        decreases |Input()|
      {
        ghost var now := BytesOf(Input());
        var c := GetChar();
        if dead {
          return;
        }
        assert now[1..] == BytesOf(Input());
        if c == REMOTE_SOM {
          i := 0;
        } else if c == REMOTE_EOM {
          packet[i] := 0;
          return;
        } else if c == START {
          return;
        } else if i < size {
          packet[i] := c;
          i := i + 1;
        } else {
          return;
        }
      }
    }

    /** The capture loop; no store goes past index size. */
    method CaptureBody(packet: array<byte>, size: nat) returns (i: nat, csum: byte)
      requires Valid() && !dead && packet.Length == size + 1 && packet != buffer && packet != buf
      modifies this`bufferIndex, this`bufferSize, this`script, this`dead, buffer, packet
      ensures Valid() && Output() == old(Output()) && |Input()| <= |old(Input())|
      ensures i <= size
      ensures Capture(BytesOf(old(Input())), size, [], 0)
           == if dead then Starved else Body(packet[..i], csum, BytesOf(Input()))
      ensures dead ==> Input() == []
    {
      hide Valid, Input, Output, BytesOf, Capture;
      ghost var bs := BytesOf(Input());
      i, csum := 0, 0;
      assert packet[..0] == [];
      while true
        invariant Valid() && !dead && i <= size && Output() == old(Output()) && |Input()| <= |old(Input())|
        invariant Capture(bs, size, [], 0) == Capture(BytesOf(Input()), size, packet[..i], csum)
        decreases |Input()|
      {
        ghost var now, acc := BytesOf(Input()), packet[..i];
        CaptureUnfolds(now, size, acc, csum);
        var c := GetChar();
        if dead {
          return;
        }
        assert now[0] == c && now[1..] == BytesOf(Input());
        if c == END || i == size {
          return;
        }
        if c == START {
          i, csum := 0, 0;
          assert packet[..0] == [];
          continue;
        }
        if c == ESCAPE {
          c := GetChar();
          if dead {
            return;
          }
          assert now[1] == c && now[2..] == now[1..][1..] == BytesOf(Input());
          csum := Plus(csum, c as int + ESCAPE as int);
          packet[i] := Flip(c);
          assert packet[..i + 1] == acc + [Flip(c)];
          i := i + 1;
          continue;
        }
        csum := Plus(csum, c as int);
        packet[i] := c;
        assert packet[..i + 1] == acc + [c];
        i := i + 1;
      }
    }

    lemma CaptureUnfolds(bs: seq<byte>, size: nat, acc: seq<byte>, csum: byte)
      requires |acc| <= size
      ensures |bs| == 0 ==> Capture(bs, size, acc, csum) == Starved
      ensures |bs| > 0 && (bs[0] == END || |acc| == size) ==> Capture(bs, size, acc, csum) == Body(acc, csum, bs[1..])
      ensures |bs| > 0 && bs[0] == START && |acc| < size ==>
                Capture(bs, size, acc, csum) == Capture(bs[1..], size, [], 0)
      ensures |bs| == 1 && bs[0] == ESCAPE && |acc| < size ==> Capture(bs, size, acc, csum) == Starved
      ensures |bs| > 1 && bs[0] == ESCAPE && |acc| < size ==>
                Capture(bs, size, acc, csum)
                == Capture(bs[2..], size, acc + [Flip(bs[1])], Plus(csum, bs[1] as int + ESCAPE as int))
      ensures |bs| > 0 && bs[0] != END && bs[0] != START && bs[0] != ESCAPE && |acc| < size ==>
                Capture(bs, size, acc, csum) == Capture(bs[1..], size, acc + [bs[0]], Plus(csum, bs[0] as int))
    {
    }

    /** The wait for a packet start: 0 on a timeout or 0xFF, 1 on a bare 0x03 or
        0x04, 2 once `$` was read. */
    method AwaitStart(packet: array<byte>, size: nat) returns (r: int)
      requires Valid() && !dead && packet.Length == size + 1 && packet != buffer && packet != buf
      modifies this`bufferIndex, this`bufferSize, this`script, this`dead, buffer, packet
      ensures Valid() && Output() == old(Output())
      ensures dead ==> Input() == [] && Alike(BytesOf(old(Input())), [], [], size)
      ensures !dead ==> 0 <= r <= 2 && |Input()| < |old(Input())|
      ensures !dead && r == 0 ==> Alike(BytesOf(old(Input())), [], BytesOf(Input()), size)
      ensures !dead && r == 1 ==> Alike(BytesOf(old(Input())), [[packet[0]]], BytesOf(Input()), size)
      ensures !dead && r == 2 ==> Alike(BytesOf(old(Input())), [], [START] + BytesOf(Input()), size)
    {
      hide ScriptTokens, Deliverable, Session, Answers;
      ghost var bs := BytesOf(Input());
      r := 0;
      while true
        invariant Valid() && !dead && Output() == old(Output()) && |Input()| <= |old(Input())|
        invariant Session(bs, size) == Session(BytesOf(Input()), size)
        invariant Answers(bs, size) == Answers(BytesOf(Input()), size)
        decreases |Input()|
      {
        ghost var now := BytesOf(Input());
        SessionSteps(now, size);
        SessionSteps([], size);
        var c := GetCharTo();
        if dead {
          return;
        }
        assert now == BytesOf(Input()) || (now[0] == c && now[1..] == BytesOf(Input()));
        packet[0] := c;
        if packet[0] == NO_CHAR {
          return 0;
        }
        if packet[0] == EOT || packet[0] == INTR {
          return 1;
        }
        if packet[0] == START {
          assert now == [START] + BytesOf(Input());
          return 2;
        }
        if packet[0] == REMOTE_SOM {
          SkipRemotePacket(packet, size);
          if dead {
            return;
          }
          packet[0] := 0;
        }
      }
    }

    /** The rest of a frame, from just after its `$` to its checksum. */
    method ReadFrame(packet: array<byte>, size: nat) returns (i: nat, good: bool)
      requires Valid() && !dead && packet.Length == size + 1 && packet != buffer && packet != buf
      modifies this`bufferIndex, this`bufferSize, this`script, this`dead, buffer, packet
      ensures Valid() && Output() == old(Output()) && i <= size && |Input()| <= |old(Input())|
      ensures dead ==> Input() == [] && Alike([START] + BytesOf(old(Input())), [], [], size)
      ensures !dead ==>
                var all := [START] + BytesOf(old(Input()));
                && Session(all, size) == (if good && i > 0 then [packet[..i]] else []) + Session(BytesOf(Input()), size)
                && Answers(all, size) == [if good then PLUS else MINUS] + Answers(BytesOf(Input()), size)
    {
      hide Valid, Input, Output, BytesOf, Session, Answers, Capture, Strtol;
      FrameSteps(BytesOf(Input()), size);
      var csum;
      good := false;
      i, csum := CaptureBody(packet, size);
      if dead {
        return;
      }
      ghost var rest := BytesOf(Input());
      var recvCsum0 := GetChar();
      if dead {
        return;
      }
      assert rest[1..] == BytesOf(Input());
      ghost var later := BytesOf(Input());
      var recvCsum1 := GetChar();
      if dead {
        return;
      }
      assert later[1..] == BytesOf(Input()) && rest[2..] == later[1..];
      good := csum as int == Strtol(recvCsum0, recvCsum1);
    }

    /** gdb_getpacket. Whatever the chunking and the timeouts, a call that does
        not return 0 returns the next packet of the byte stream, and in ack mode
        the replies written are those the stream is owed: `-` for each rejected
        frame, `+` for the accepted one. */
    method GetPacket(packet: array<byte>, size: nat) returns (ret: nat)
      requires Valid() && !dead && packet.Length == size + 1 && packet != buffer && packet != buf
      modifies this`bufferIndex, this`bufferSize, this`script, this`dead, buffer, packet
      modifies this`bufsize, this`wire, buf
      ensures Valid() && ret <= Max(1, size)
      ensures if dead then Input() == [] else |Input()| < |old(Input())|
      ensures !dead && ret > 1 ==> packet[ret] == 0
      ensures Session(BytesOf(old(Input())), size)
           == (if !dead && ret > 0 then [packet[..ret]] else []) + Session(BytesOf(Input()), size)
      ensures Settled(old(Output()), BytesOf(old(Input())), Output(), BytesOf(Input()), size, noAckMode)
    {
      hide Valid, Input, Output, BytesOf, Session, Answers, Settled, Alike;
      ghost var bs := BytesOf(Input());
      ghost var out := Output();
      NothingReadYet(out, bs, size, noAckMode);
      while true
        invariant Valid() && !dead && |Input()| <= |old(Input())|
        invariant Session(bs, size) == Session(BytesOf(Input()), size)
        invariant Settled(out, bs, Output(), BytesOf(Input()), size, noAckMode)
        decreases |Input()|
      {
        ghost var at := BytesOf(Input());
        var r := AwaitStart(packet, size);
        ghost var rest := if !dead && r == 2 then [START] + BytesOf(Input()) else BytesOf(Input());
        AlikeMeans(at, if !dead && r == 1 then [[packet[0]]] else [], rest, size);
        SettledOn(out, bs, Output(), at, rest, size, noAckMode);
        if dead || r == 0 {
          return 0;
        }
        if r == 1 {
          assert packet[..1] == [packet[0]];
          return 1;
        }
        var i, good := ReadFrame(packet, size);
        if dead {
          AlikeMeans(rest, [], [], size);
          SettledOn(out, bs, Output(), rest, [], size, noAckMode);
          return 0;
        }
        SettledReply(out, bs, Output(), rest, if good then PLUS else MINUS, BytesOf(Input()), size, noAckMode);
        if !noAckMode {
          PutChar(if good then PLUS else MINUS, true);
        }
        if good {
          ghost var payload := packet[..i];
          packet[i] := 0;
          assert packet[..i] == payload;
          return i;
        }
      }
    }
  }

  // ---- both ends -----------------------------------------------------------

  /** A network that delivers bytes as a plan says: 0 is a silence, n the next n bytes
      at most, and what the plan leaves over comes in full buffers. */
  method Deliver(bytes: seq<byte>, plan: seq<nat>) returns (script: seq<NetEvent>)
    ensures Deliverable(script) && Stream(script) == bytes
  {
    script := [];
    assert Stream(script) == bytes[..0];
    hide Stream, Deliverable;
    NothingDelivered();
    var sent, i := 0, 0;
    while sent < |bytes| || i < |plan|
      invariant 0 <= sent <= |bytes| && 0 <= i <= |plan|
      invariant Deliverable(script) && Stream(script) == bytes[..sent]
      decreases |bytes| - sent + |plan| - i
    {
      var n := if i < |plan| then plan[i] else BUFFER_SIZE;
      var event := Silence;
      if n > 0 && sent < |bytes| {
        var to := Min(sent + Min(n, BUFFER_SIZE), |bytes|);
        event := Recv(bytes[sent..to]);
        assert bytes[..to] == bytes[..sent] + bytes[sent..to];
        sent := to;
      }
      StreamSnoc(script, event);
      DeliverableSnoc(script, event);
      script := script + [event];
      if i < |plan| {
        i := i + 1;
      }
    }
    assert bytes[..sent] == bytes;
  }

  lemma NothingDelivered()
    ensures Deliverable([])
  {
  }

  lemma DeliverableSnoc(script: seq<NetEvent>, event: NetEvent)
    requires Deliverable(script) && (event.Recv? ==> 0 < |event.bytes| <= BUFFER_SIZE)
    ensures Deliverable(script + [event])
  {
  }

  lemma {:induction false} StreamSnoc(script: seq<NetEvent>, event: NetEvent)
    ensures Stream(script + [event]) == Stream(script) + if event.Recv? then event.bytes else []
  {
    if |script| > 0 {
      StreamSnoc(script[1..], event);
      assert (script + [event])[0] == script[0] && (script + [event])[1..] == script[1..] + [event];
    } else {
      assert script + [event] == [event] && [event][1..] == [];
    }
  }

  lemma {:induction false} FramesSnoc(ps: seq<seq<byte>>, p: seq<byte>)
    ensures Frames(ps + [p]) == Frames(ps) + Frame(START, p)
  {
    hide Frame;
    if |ps| > 0 {
      FramesSnoc(ps[1..], p);
      assert (ps + [p])[0] == ps[0] && (ps + [p])[1..] == ps[1..] + [p];
    } else {
      assert ps + [p] == [p] && [p][1..] == [];
    }
  }

  /** What a sender hears from a receiver that acknowledges n frames. */
  function Pluses(n: nat): (script: seq<NetEvent>)
    ensures Deliverable(script)
  {
    seq(n, i => Recv([PLUS]))
  }

  lemma {:induction false} HearPluses(n: nat)
    ensures ScriptTokens(Pluses(n)) == seq(n, i => Some(PLUS))
  {
    if n > 0 {
      HearPluses(n - 1);
      assert Pluses(n)[1..] == Pluses(n - 1);
      assert Received([PLUS]) == [Some(PLUS)];
      assert seq(n, i => Some(PLUS)) == [Some(PLUS)] + seq(n - 1, i => Some(PLUS));
    }
  }

  /** gdb_putpacket for each payload of a list; every frame is acknowledged. */
  method SendAll(ps: seq<seq<byte>>, noAckMode: bool) returns (wire: seq<byte>)
    ensures wire == Frames(ps)
  {
    hide Frame, Transmissions, Frames, Repeat, ScriptTokens;
    var sender := new GdbClient(Pluses(|ps|), noAckMode);
    HearPluses(|ps|);
    NoFrames();
    var i := 0;
    while i < |ps|
      invariant 0 <= i <= |ps|
      invariant sender.Valid() && !sender.dead && sender.noAckMode == noAckMode && sender.bufsize == 0
      invariant sender.Output() == Frames(ps[..i])
      invariant sender.Input() == seq(if noAckMode then |ps| else |ps| - i, j => Some(PLUS))
    {
      OneIsEnough(sender.Input());
      RepeatOnce(Frame(START, ps[i]));
      FramesSnoc(ps[..i], ps[i]);
      assert ps[..i + 1] == ps[..i] + [ps[i]];
      sender.PutPacket(ps[i], START);
      i := i + 1;
    }
    assert ps[..i] == ps;
    assert sender.wire + sender.buf[..0] == sender.wire;
    wire := sender.wire;
  }

  lemma NoFrames()
    ensures Frames([]) == []
  {
  }

  lemma OneIsEnough(ts: Tokens)
    ensures |ts| > 0 && ts[0] == Some(PLUS) ==> Transmissions(ts, 0) == 1
  {
  }

  lemma RepeatOnce(x: seq<byte>)
    ensures Repeat(x, 1) == x
  {
    assert Repeat(x, 1) == x + Repeat(x, 0);
  }

  /** gdb_getpacket until the connection closes. */
  method ReceiveAll(script: seq<NetEvent>, size: nat, noAckMode: bool) returns (got: seq<seq<byte>>)
    requires Deliverable(script)
    ensures got == Session(Stream(script), size)
  {
    hide Session, Settled, BytesOf, Stream, ScriptTokens;
    var receiver := new GdbClient(script, noAckMode);
    var packet := new byte[size + 1];
    ChunksAreInvisible(script);
    got := [];
    while !receiver.dead
      invariant receiver.Valid() && fresh(receiver) && fresh(receiver.buffer) && fresh(receiver.buf)
      invariant packet != receiver.buffer && packet != receiver.buf
      invariant receiver.dead ==> receiver.Input() == []
      invariant Session(Stream(script), size) == got + Session(BytesOf(receiver.Input()), size)
      decreases if receiver.dead then 0 else 1, |receiver.Input()|
    {
      ghost var rest := BytesOf(receiver.Input());
      var ret := receiver.GetPacket(packet, size);
      if !receiver.dead && ret > 0 {
        Regroup(got, [packet[..ret]], Session(BytesOf(receiver.Input()), size));
        got := got + [packet[..ret]];
      }
    }
    SessionOfNothing(size);
    assert got + [] == got;
  }

  lemma SessionOfNothing(size: nat)
    ensures BytesOf([]) == [] && Session([], size) == []
  {
  }

  /** End to end on the code: any payloads, either mode, any chunks and silences. */
  method Transfer(ps: seq<seq<byte>>, noAckMode: bool, plan: seq<nat>, size: nat) returns (got: seq<seq<byte>>)
    requires forall i :: 0 <= i < |ps| ==> 0 < |ps[i]| <= size
    ensures got == ps
  {
    hide Frames, Session, Stream, Answers;
    var wire := SendAll(ps, noAckMode);
    var script := Deliver(wire, plan);
    EndToEnd(ps, script, size);
    ChunksAreInvisible(script);
    got := ReceiveAll(script, size, noAckMode);
  }
}
