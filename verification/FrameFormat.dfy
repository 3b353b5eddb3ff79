/**
 The frames of a packet as values: their bytes when written in order into limited
 room, and the callbacks a reader makes from bytes.
 */
module FrameFormat {
  import opened Bytes
  import opened AckFormat
  import opened Wire

  datatype Header = Header(packetNumber: nat, packetNumberLength: nat)

  ghost predicate ValidHeader(h: Header)
  {
    h.packetNumber < TWO64 && h.packetNumberLength in {1, 2, 4, 6}
  }

  datatype Frame =
    | Padding(numBytes: int)
    | RstStream(streamId: nat, errorCode: nat, byteOffset: nat)
    | ConnectionClose(errorCode: nat, details: seq<byte>)
    | GoAway(errorCode: nat, lastGoodStreamId: nat, reason: seq<byte>)
    | WindowUpdate(streamId: nat, byteOffset: nat)
    | Blocked(streamId: nat)
    | StopWaiting(leastUnacked: nat)
    | Ping
    | MtuDiscovery
    | Stream(streamId: nat, fin: bool, offset: nat, data: seq<byte>)
    | Ack(ack: AckFrame)

  /** A visitor callback. An ACK arrives as a start followed by its ranges. */
  datatype Event =
    | Received(frame: Frame)
    | OnAckStart(largest: nat, delay: Delay)
    | OnAckRange(range: Range)

  const STREAM_LAST_ERROR := 17
  const LAST_ERROR := 120
  const MAX_ERROR_STRING := 256

  /** Field widths of the C++ structs. */
  ghost predicate ValidFrame(v: Version, h: Header, f: Frame)
  {
    match f
    case RstStream(id, e, o) => id < TWO32 && e < TWO32 && o < TWO64
    case ConnectionClose(e, _) => e < TWO32
    case GoAway(e, id, _) => e < TWO32 && id < TWO32
    case WindowUpdate(id, o) => id < TWO32 && o < TWO64
    case Blocked(id) => id < TWO32
    case StopWaiting(n) => n <= h.packetNumber
    case Stream(id, _, o, d) => id < TWO32 && o < TWO64 && |d| < TWO16
    case Ack(a) => Representable(v, a.packets) && Consistent(a)
    case _ => true
  }

  /** A text, or the first 256 bytes of it. */
  function Truncated(s: seq<byte>): (r: seq<byte>)
    ensures r <= s && |r| == if |s| < 256 then |s| else 256
  {
    if |s| <= MAX_ERROR_STRING then s else s[..MAX_ERROR_STRING]
  }

  // ---------------------------------------------------------------------------
  // Stream frame sizes and flags
  // ---------------------------------------------------------------------------

  function StreamIdSize(id: nat): (n: nat)
    ensures 1 <= n <= 4
  {
    if id < 256 then 1 else if id < TWO16 then 2 else if id < 0x100_0000 then 3 else 4
  }

  function StreamOffsetSize(v: Version, offset: nat): (n: nat)
    ensures n == 0 || 2 <= n <= 8
    ensures v.V41? ==> n in {0, 2, 4, 8}
  {
    if offset == 0 then 0
    else if offset < TWO16 then 2
    else if v.V41? then (if offset < TWO32 then 4 else 8)
    else if offset < 0x100_0000 then 3
    else if offset < TWO32 then 4
    else if offset < 0x100_0000_0000 then 5
    else if offset < TWO48 then 6
    else if offset < 0x100_0000_0000_0000 then 7
    else 8
  }

  function OffsetCode(v: Version, size: nat): (c: nat)
    requires size == 0 || 2 <= size <= 8
    ensures c < if v.V41? then 4 else 8
  {
    if v.V41? then (if size == 0 then 0 else if size == 2 then 1 else if size == 4 then 2 else 3)
    else if size == 0 then 0 else size - 1
  }

  function OffsetSizeFromCode(v: Version, c: nat): (n: nat)
  {
    if c == 0 then 0
    else if v.Other? then c + 1
    else if c == 1 then 2 else if c == 2 then 4 else 8
  }

  function Bit(b: bool): (n: nat) { if b then 1 else 0 }

  function StreamTypeByte(v: Version, fin: bool, hasLength: bool, offsetSize: nat, idSize: nat): (t: byte)
    requires 1 <= idSize <= 4 && (offsetSize == 0 || 2 <= offsetSize <= 8)
  {
    var c := OffsetCode(v, offsetSize);
    if v.V41? then 0xC0 + 32 * Bit(fin) + 8 * (idSize - 1) + 2 * c + Bit(hasLength)
    else 0x80 + 64 * Bit(fin) + 32 * Bit(hasLength) + 4 * c + (idSize - 1)
  }

  // ---------------------------------------------------------------------------
  // Writing
  // ---------------------------------------------------------------------------

  function Zeros(n: nat): (s: seq<byte>)
    ensures |s| == n
  {
    seq(n, _ => 0)
  }

  function PrefixedString(s: seq<byte>): (r: seq<byte>)
  {
    BigEndian(2, |s|) + s
  }

  function StreamBytes(v: Version, f: Frame, noLength: bool): (s: seq<byte>)
    requires f.Stream?
  {
    var idSize, offsetSize := StreamIdSize(f.streamId), StreamOffsetSize(v, f.offset);
    [StreamTypeByte(v, f.fin, !noLength, offsetSize, idSize)]
    + (BigEndian(idSize, f.streamId)
       + (BigEndian(offsetSize, f.offset) + if noLength then f.data else PrefixedString(f.data)))
  }

  function RstStreamBytes(v: Version, f: Frame): (s: seq<byte>)
    requires f.RstStream?
  {
    [1] + (BigEndian(4, f.streamId)
           + if v.V41? then BigEndian(4, f.errorCode) + BigEndian(8, f.byteOffset)
             else BigEndian(8, f.byteOffset) + BigEndian(4, f.errorCode))
  }

  /** The bytes of one frame (type byte first) in a writer with `room` bytes left; the frame is written
      if they fit. `None` when it cannot be written into any room. */
  ghost function FrameBytes(v: Version, h: Header, f: Frame, noLength: bool, room: nat): (r: Option<seq<byte>>)
  {
    match f
    case Padding(n) => if n == 0 then None else Some(Zeros(if n > 0 then n else Max(1, room)))
    case RstStream(_, _, _) => Some(RstStreamBytes(v, f))
    case ConnectionClose(e, d) => Some([2] + (BigEndian(4, e) + PrefixedString(Truncated(d))))
    case GoAway(e, id, d) => Some([3] + (BigEndian(4, e) + (BigEndian(4, id) + PrefixedString(Truncated(d)))))
    case WindowUpdate(id, o) => Some([4] + (BigEndian(4, id) + BigEndian(8, o)))
    case Blocked(id) => Some([5] + BigEndian(4, id))
    case StopWaiting(n) =>
      var delta := (h.packetNumber - n) % TWO64;
      if delta >= Pow256(h.packetNumberLength) then None else Some([6] + BigEndian(h.packetNumberLength, delta))
    case Ping => Some([7])
    case MtuDiscovery => Some([7])
    case Stream(_, _, _, _) => Some(StreamBytes(v, f, noLength))
    case Ack(a) => Some(AckBytes(v, a, room))
  }

  /** All frames in order; only the last one, if a stream frame, omits its data length. */
  ghost function PayloadBytes(v: Version, h: Header, frames: seq<Frame>, room: nat): (r: Option<seq<byte>>)
  {
    if frames == [] then Some([])
    else
      var first := FrameBytes(v, h, frames[0], |frames| == 1, room);
      if first.None? || |first.value| > room then None
      else
        var rest := PayloadBytes(v, h, frames[1..], room - |first.value|);
        if rest.None? then None else Some(first.value + rest.value)
  }

  // ---------------------------------------------------------------------------
  // Reading
  // ---------------------------------------------------------------------------

  /** Callbacks made, whether all went well, and the bytes left. */
  datatype FrameResult = FrameResult(ok: bool, events: seq<Event>, rest: seq<byte>)

  const Malformed := FrameResult(false, [], [])

  function One(f: Frame, rest: seq<byte>): (r: FrameResult)
  {
    FrameResult(true, [Received(f)], rest)
  }

  function Int(s: seq<byte>, from: nat, n: nat): (v: nat)
    requires from + n <= |s|
  {
    FromBigEndian(s[from..from + n])
  }

  /** A 16-bit length and that many bytes. */
  function ParsePrefixed(s: seq<byte>): (r: Option<(seq<byte>, seq<byte>)>)
    ensures r.Some? ==> |r.value.1| <= |s|
  {
    if |s| < 2 || |s| < 2 + Int(s, 0, 2) then None
    else Some((s[2..2 + Int(s, 0, 2)], s[2 + Int(s, 0, 2)..]))
  }

  /** A stream frame whose flags have been taken apart. */
  function ParseStreamFields(idSize: nat, offsetSize: nat, hasLength: bool, fin: bool, s: seq<byte>): (r: FrameResult)
    ensures r.ok ==> |r.rest| <= |s|
  {
    if |s| < idSize + offsetSize then Malformed
    else
      var id, offset, rest := Int(s, 0, idSize), Int(s, idSize, offsetSize), s[idSize + offsetSize..];
      if hasLength then
        var p := ParsePrefixed(rest);
        if p.None? then Malformed else One(Stream(id, fin, offset, p.value.0), p.value.1)
      else One(Stream(id, fin, offset, rest[..|rest| % TWO16]), [])
  }

  function ParseStream(v: Version, t: byte, s: seq<byte>): (r: FrameResult)
    ensures r.ok ==> |r.rest| <= |s|
  {
    if v.V41? then
      ParseStreamFields(1 + t / 8 % 4, OffsetSizeFromCode(v, t / 2 % 4), t % 2 == 1, t / 32 % 2 == 1, s)
    else
      ParseStreamFields(1 + t % 4, OffsetSizeFromCode(v, t / 4 % 8), t / 32 % 2 == 1, t / 64 % 2 == 1, s)
  }

  function Clamp(e: nat, last: nat): (r: nat)
    ensures (e < last ==> r == e) && (e >= last ==> r == last)
  {
    if e >= last then last else e
  }

  function ParseRstStream(v: Version, s: seq<byte>): (r: FrameResult)
    ensures r.ok ==> |r.rest| <= |s|
  {
    if |s| < 16 then Malformed
    else
      var error := if v.V41? then Int(s, 4, 4) else Int(s, 12, 4);
      var offset := if v.V41? then Int(s, 8, 8) else Int(s, 4, 8);
      One(RstStream(Int(s, 0, 4), Clamp(error, STREAM_LAST_ERROR), offset), s[16..])
  }

  function ParseConnectionClose(s: seq<byte>): (r: FrameResult)
    ensures r.ok ==> |r.rest| <= |s|
  {
    if |s| < 4 then Malformed
    else
      var p := ParsePrefixed(s[4..]);
      if p.None? then Malformed else One(ConnectionClose(Clamp(Int(s, 0, 4), LAST_ERROR), p.value.0), p.value.1)
  }

  function ParseGoAway(s: seq<byte>): (r: FrameResult)
    ensures r.ok ==> |r.rest| <= |s|
  {
    if |s| < 8 then Malformed
    else
      var p := ParsePrefixed(s[8..]);
      if p.None? then Malformed
      else One(GoAway(Clamp(Int(s, 0, 4), LAST_ERROR), Int(s, 4, 4), p.value.0), p.value.1)
  }

  function ParseStopWaiting(h: Header, s: seq<byte>): (r: FrameResult)
    ensures r.ok ==> |r.rest| <= |s|
  {
    if |s| < h.packetNumberLength || h.packetNumber < Int(s, 0, h.packetNumberLength) then Malformed
    else One(StopWaiting(h.packetNumber - Int(s, 0, h.packetNumberLength)), s[h.packetNumberLength..])
  }

  /** How many zero bytes `s` starts with. */
  function ZeroRun(s: seq<byte>): (n: nat)
    ensures n <= |s|
  {
    if s == [] || s[0] != 0 then 0 else 1 + ZeroRun(s[1..])
  }

  function RangeEvents(rs: seq<Range>): (es: seq<Event>)
    ensures |es| == |rs| && forall i | 0 <= i < |rs| :: es[i] == OnAckRange(rs[i])
  {
    seq(|rs|, i requires 0 <= i < |rs| => OnAckRange(rs[i]))
  }

  function AckEvents(started: Started, rs: seq<Range>): (es: seq<Event>)
  {
    (if started.AckStart? then [OnAckStart(started.largest, started.delay)] else []) + RangeEvents(rs)
  }

  predicate IsStreamType(v: Version, t: byte) { if v.V41? then t >= 192 else t >= 128 }

  predicate IsAckType(v: Version, t: byte) { if v.V41? then 160 <= t < 192 else 64 <= t < 128 }

  /** One frame, type byte `t` already read. */
  function ParseFrame(v: Version, h: Header, t: byte, s: seq<byte>): (r: FrameResult)
    ensures r.ok ==> |r.rest| <= |s|
  {
    if IsStreamType(v, t) then ParseStream(v, t, s)
    else if IsAckType(v, t) then
      var a := ParseAck(v, t, s);
      AckConsumes(v, t, s);
      FrameResult(a.parsed.ok, AckEvents(a.started, a.parsed.ranges), a.parsed.rest)
    else match t
      case 0 => One(Padding(1 + ZeroRun(s)), s[ZeroRun(s)..])
      case 1 => ParseRstStream(v, s)
      case 2 => ParseConnectionClose(s)
      case 3 => ParseGoAway(s)
      case 4 => if |s| < 12 then Malformed else One(WindowUpdate(Int(s, 0, 4), Int(s, 4, 8)), s[12..])
      case 5 => if |s| < 4 then Malformed else One(Blocked(Int(s, 0, 4)), s[4..])
      case 6 => ParseStopWaiting(h, s)
      case 7 => One(Ping, s)
      case _ => Malformed
  }

  datatype PayloadResult = PayloadResult(ok: bool, events: seq<Event>)

  /** The frame loop, with a visitor that never stops it. */
  function ParseFrames(v: Version, h: Header, s: seq<byte>): (r: PayloadResult)
    decreases |s|
  {
    if s == [] then PayloadResult(true, [])
    else
      var first := ParseFrame(v, h, s[0], s[1..]);
      if !first.ok then PayloadResult(false, first.events)
      else
        var rest := ParseFrames(v, h, first.rest);
        PayloadResult(rest.ok, first.events + rest.events)
  }
}
