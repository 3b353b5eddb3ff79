/**
 What a reader delivers from the frames a packet was built from.
 */
module FrameRoundTrip {
  import opened Bytes
  import opened AckFormat
  import opened AckRoundTrip
  import opened FrameFormat
  import opened Wire

  /** Reading an `n`-byte field back from the front of `s`. */
  lemma IntAtFront(n: nat, v: nat, rest: seq<byte>)
    requires v < Pow256(n)
    ensures Int(BigEndian(n, v) + rest, 0, n) == v
    ensures (BigEndian(n, v) + rest)[n..] == rest
  {
    BigEndianExact(n, v);
    assert (BigEndian(n, v) + rest)[0..n] == BigEndian(n, v);
  }

  /** Two adjacent fields. */
  lemma IntsAtFront(n: nat, v: nat, m: nat, w: nat, rest: seq<byte>)
    requires v < Pow256(n) && w < Pow256(m)
    ensures var s := BigEndian(n, v) + (BigEndian(m, w) + rest);
            Int(s, 0, n) == v && Int(s, n, m) == w && s[n + m..] == rest
  {
    hide BigEndian, FromBigEndian;
    var inner := BigEndian(m, w) + rest;
    var s := BigEndian(n, v) + inner;
    IntAtFront(n, v, inner);
    IntAtFront(m, w, rest);
    assert s[n..n + m] == inner[0..m];
    assert s[n + m..] == inner[m..];
  }

  lemma PrefixedReadsBack(d: seq<byte>, tail: seq<byte>)
    requires |d| < TWO16
    ensures ParsePrefixed(PrefixedString(d) + tail) == Some((d, tail))
  {
    Pow256Values();
    var s := PrefixedString(d) + tail;
    assert s == BigEndian(2, |d|) + (d + tail);
    IntAtFront(2, |d|, d + tail);
    assert s[2..2 + |d|] == d && s[2 + |d|..] == tail;
  }

  lemma StreamIdFits(id: nat)
    requires id < TWO32
    ensures id < Pow256(StreamIdSize(id))
  {
    Pow256Values();
    assert Pow256(3) == 256 * Pow256(2);
  }

  lemma StreamOffsetFits(v: Version, offset: nat)
    requires offset < TWO64
    ensures offset < Pow256(StreamOffsetSize(v, offset))
  {
    Pow256Values();
    assert Pow256(3) == 256 * Pow256(2);
    assert Pow256(5) == 256 * Pow256(4);
    assert Pow256(7) == 256 * Pow256(6);
  }

  lemma FlagFields41(fin: nat, id: nat, offset: nat, length: nat)
    requires fin < 2 && id < 4 && offset < 4 && length < 2
    ensures var t := 0xC0 + 32 * fin + 8 * id + 2 * offset + length;
            t < 256 && t / 32 % 2 == fin && t / 8 % 4 == id && t / 2 % 4 == offset && t % 2 == length
  {
    var t := 0xC0 + 32 * fin + 8 * id + 2 * offset + length;
    assert t / 2 == 96 + 16 * fin + 4 * id + offset;
    assert t / 8 == 24 + 4 * fin + id;
    assert t / 32 == 6 + fin;
  }

  lemma FlagFieldsOther(fin: nat, length: nat, offset: nat, id: nat)
    requires fin < 2 && length < 2 && offset < 8 && id < 4
    ensures var t := 0x80 + 64 * fin + 32 * length + 4 * offset + id;
            t < 256 && t / 64 % 2 == fin && t / 32 % 2 == length && t / 4 % 8 == offset && t % 4 == id
  {
    var t := 0x80 + 64 * fin + 32 * length + 4 * offset + id;
    assert t / 4 == 32 + 16 * fin + 8 * length + offset;
    assert t / 32 == 4 + 2 * fin + length;
    assert t / 64 == 2 + fin;
  }

  lemma StreamTypeReadsBack41(fin: bool, hasLength: bool, offsetSize: nat, idSize: nat, s: seq<byte>)
    requires 1 <= idSize <= 4 && offsetSize in {0, 2, 4, 8}
    ensures var t := StreamTypeByte(V41, fin, hasLength, offsetSize, idSize);
            IsStreamType(V41, t) && ParseStream(V41, t, s) == ParseStreamFields(idSize, offsetSize, hasLength, fin, s)
  {
    hide ParseStreamFields;
    FlagFields41(Bit(fin), idSize - 1, OffsetCode(V41, offsetSize), Bit(hasLength));
  }

  lemma StreamTypeReadsBackOther(fin: bool, hasLength: bool, offsetSize: nat, idSize: nat, s: seq<byte>)
    requires 1 <= idSize <= 4 && (offsetSize == 0 || 2 <= offsetSize <= 8)
    ensures var t := StreamTypeByte(Other, fin, hasLength, offsetSize, idSize);
            IsStreamType(Other, t) && ParseStream(Other, t, s) == ParseStreamFields(idSize, offsetSize, hasLength, fin, s)
  {
    hide ParseStreamFields;
    FlagFieldsOther(Bit(fin), Bit(hasLength), OffsetCode(Other, offsetSize), idSize - 1);
  }

  lemma StreamFieldsReadBack(f: Frame, noLength: bool, idSize: nat, offsetSize: nat, tail: seq<byte>)
    requires f.Stream? && |f.data| < TWO16 && (noLength ==> tail == [])
    requires f.streamId < Pow256(idSize) && f.offset < Pow256(offsetSize)
    ensures var payload := (if noLength then f.data else PrefixedString(f.data)) + tail;
            ParseStreamFields(idSize, offsetSize, !noLength, f.fin,
                              BigEndian(idSize, f.streamId) + (BigEndian(offsetSize, f.offset) + payload))
            == One(f, tail)
  {
    hide Int, BigEndian, FromBigEndian, PrefixedString, ParsePrefixed;
    var payload := (if noLength then f.data else PrefixedString(f.data)) + tail;
    IntsAtFront(idSize, f.streamId, offsetSize, f.offset, payload);
    if noLength {
      assert payload == f.data && f.data[..|f.data|] == f.data;
      ModSmall(|f.data|, TWO16);
    } else {
      PrefixedReadsBack(f.data, tail);
    }
  }

  /** A stream frame without a length takes all that is left, if and only if that is less than 64 kilobytes:
      its length is kept in 16 bits. */
  lemma TakesAllIff(idSize: nat, offsetSize: nat, fin: bool, s: seq<byte>)
    requires idSize + offsetSize <= |s|
    ensures var r := ParseStreamFields(idSize, offsetSize, false, fin, s); var left := s[idSize + offsetSize..];
            && r.ok && r.rest == [] && |r.events| == 1
            && (r.events[0] == Received(Stream(Int(s, 0, idSize), fin, Int(s, idSize, offsetSize), left)) <==> |left| < 0x1_0000)
  {
    hide Int;
    var left := s[idSize + offsetSize..];
    if |left| < TWO16 {
      ModSmall(|left|, TWO16);
      assert left[..|left|] == left;
    }
  }

  lemma StreamReadsBack(v: Version, f: Frame, noLength: bool, tail: seq<byte>)
    requires f.Stream? && f.streamId < TWO32 && f.offset < TWO64 && |f.data| < TWO16
    requires noLength ==> tail == []
    ensures var s := StreamBytes(v, f, noLength) + tail;
            IsStreamType(v, s[0]) && ParseStream(v, s[0], s[1..]) == One(f, tail)
  {
    var idSize, offsetSize := StreamIdSize(f.streamId), StreamOffsetSize(v, f.offset);
    var data := if noLength then f.data else PrefixedString(f.data);
    StreamIdFits(f.streamId);
    StreamOffsetFits(v, f.offset);
    StreamFieldsReadBack(f, noLength, idSize, offsetSize, tail);
    var body := BigEndian(idSize, f.streamId) + (BigEndian(offsetSize, f.offset) + (data + tail));
    if v.V41? {
      StreamTypeReadsBack41(f.fin, !noLength, offsetSize, idSize, body);
    } else {
      StreamTypeReadsBackOther(f.fin, !noLength, offsetSize, idSize, body);
    }
    Concat4(StreamTypeByte(v, f.fin, !noLength, offsetSize, idSize), BigEndian(idSize, f.streamId),
            BigEndian(offsetSize, f.offset), data, tail);
  }

  lemma Concat4(t: byte, a: seq<byte>, b: seq<byte>, c: seq<byte>, d: seq<byte>)
    ensures var s := [t] + (a + (b + c)) + d; s[0] == t && s[1..] == a + (b + (c + d))
  {
    assert b + c + d == b + (c + d);
    assert a + (b + c) + d == a + (b + c + d);
  }

  lemma RstStreamReadsBack(v: Version, f: Frame, tail: seq<byte>)
    requires f.RstStream? && f.streamId < TWO32 && f.errorCode < TWO32 && f.byteOffset < TWO64
    ensures var s := RstStreamBytes(v, f) + tail;
            && s[0] == 1
            && ParseRstStream(v, s[1..])
               == One(RstStream(f.streamId, Clamp(f.errorCode, STREAM_LAST_ERROR), f.byteOffset), tail)
  {
    Pow256Values();
    var n, a, m, b := if v.V41? then 4 else 8, if v.V41? then f.errorCode else f.byteOffset,
                      if v.V41? then 8 else 4, if v.V41? then f.byteOffset else f.errorCode;
    var inner := BigEndian(n, a) + (BigEndian(m, b) + tail);
    var body := BigEndian(4, f.streamId) + inner;
    assert RstStreamBytes(v, f) + tail == [1] + body;
    assert (RstStreamBytes(v, f) + tail)[1..] == body;
    IntAtFront(4, f.streamId, inner);
    IntsAtFront(n, a, m, b, tail);
    assert body[4..4 + n] == inner[0..n] && body[4 + n..16] == inner[n..n + m] && body[16..] == inner[n + m..];
  }

  lemma CloseReadsBack(e: nat, d: seq<byte>, tail: seq<byte>)
    requires e < TWO32
    ensures ParseConnectionClose(BigEndian(4, e) + PrefixedString(Truncated(d)) + tail)
            == One(ConnectionClose(Clamp(e, LAST_ERROR), Truncated(d)), tail)
  {
    Pow256Values();
    assert BigEndian(4, e) + PrefixedString(Truncated(d)) + tail == BigEndian(4, e) + (PrefixedString(Truncated(d)) + tail);
    IntAtFront(4, e, PrefixedString(Truncated(d)) + tail);
    PrefixedReadsBack(Truncated(d), tail);
  }

  lemma Regroup3(a: seq<byte>, b: seq<byte>, c: seq<byte>, d: seq<byte>)
    ensures a + (b + c) + d == a + (b + (c + d))
  {
  }

  lemma GoAwayReadsBack(e: nat, id: nat, d: seq<byte>, tail: seq<byte>)
    requires e < TWO32 && id < TWO32
    ensures ParseGoAway(BigEndian(4, e) + (BigEndian(4, id) + PrefixedString(Truncated(d))) + tail)
            == One(GoAway(Clamp(e, LAST_ERROR), id, Truncated(d)), tail)
  {
    Pow256Values();
    hide PrefixedString, ParsePrefixed, Truncated, Int;
    Regroup3(BigEndian(4, e), BigEndian(4, id), PrefixedString(Truncated(d)), tail);
    IntsAtFront(4, e, 4, id, PrefixedString(Truncated(d)) + tail);
    PrefixedReadsBack(Truncated(d), tail);
  }

  lemma StopWaitingReadsBack(h: Header, n: nat, tail: seq<byte>)
    requires ValidHeader(h) && n <= h.packetNumber && h.packetNumber - n < Pow256(h.packetNumberLength)
    ensures ParseStopWaiting(h, BigEndian(h.packetNumberLength, h.packetNumber - n) + tail) == One(StopWaiting(n), tail)
  {
    IntAtFront(h.packetNumberLength, h.packetNumber - n, tail);
  }

  /** What the visitor is told about one frame: MTU probes become pings, full padding its byte count,
      unknown error codes (17 and 120 on) become the last, and only 256 bytes of an error text arrive. */
  ghost function Delivered(v: Version, f: Frame, room: nat): (es: seq<Event>)
  {
    match f
    case Padding(n) => [Received(Padding(if n > 0 then n else room))]
    case RstStream(id, e, o) => [Received(RstStream(id, if e < 17 then e else 17, o))]
    case ConnectionClose(e, d) =>
      [Received(ConnectionClose(if e < 120 then e else 120, if |d| < 256 then d else d[..256]))]
    case GoAway(e, id, d) =>
      [Received(GoAway(if e < 120 then e else 120, id, if |d| < 256 then d else d[..256]))]
    case MtuDiscovery => [Received(Ping)]
    case Ack(a) =>
      AckEvents(AckStart(a.largestAcked, DelayRead(a.delay)), FrameRanges(a, LayoutFor(v, a, room).count))
    case _ => [Received(f)]
  }

  lemma AckTypeIsAck(v: Version, l: Layout)
    ensures IsAckType(v, TypeByte(v, l)) && !IsStreamType(v, TypeByte(v, l))
  {
  }

  lemma ParseAckFrame(v: Version, h: Header, a: AckFrame, room: nat, t: byte, s: seq<byte>, tail: seq<byte>)
    requires IsAckType(v, t) && !IsStreamType(v, t)
    requires ParseAck(v, t, s) == AckResult(AckStart(a.largestAcked, DelayRead(a.delay)),
                                            RangesResult(true, FrameRanges(a, LayoutFor(v, a, room).count), tail))
    ensures ParseFrame(v, h, t, s) == FrameResult(true, Delivered(v, Ack(a), room), tail)
  {
  }

  lemma AckReadsBack(v: Version, h: Header, a: AckFrame, room: nat, tail: seq<byte>)
    requires Representable(v, a.packets) && Consistent(a) && RoomForOneBlock(v, a, room)
    ensures var s := AckBytes(v, a, room) + tail;
            && s[0] != 0
            && ParseFrame(v, h, s[0], s[1..]) == FrameResult(true, Delivered(v, Ack(a), room), tail)
  {
    var s := AckBytes(v, a, room) + tail;
    assert s[0] == TypeByte(v, LayoutFor(v, a, room)) by {
      AckBytesShape(v, a, room, tail);
    }
    AckTypeIsAck(v, LayoutFor(v, a, room));
    AckReadsBackExactly(v, a, room, tail);
    ParseAckFrame(v, h, a, room, s[0], s[1..], tail);
  }

  lemma TextDelivered(d: seq<byte>)
    ensures Truncated(d) == if |d| < 256 then d else d[..256]
  {
  }

  /** Frames that end in a length-prefixed text. */
  lemma TextFrameReadsBack(v: Version, h: Header, f: Frame, tail: seq<byte>)
    requires ValidFrame(v, h, f) && (f.ConnectionClose? || f.GoAway?)
    ensures var s := FrameBytes(v, h, f, false, 0).value + tail;
            && s != [] && s[0] != 0
            && ParseFrame(v, h, s[0], s[1..]) == FrameResult(true, Delivered(v, f, 0), tail)
  {
    var s := FrameBytes(v, h, f, false, 0).value + tail;
    TextDelivered(if f.ConnectionClose? then f.details else f.reason);
    if f.ConnectionClose? {
      assert s[1..] == BigEndian(4, f.errorCode) + PrefixedString(Truncated(f.details)) + tail;
      CloseReadsBack(f.errorCode, f.details, tail);
    } else {
      assert s[1..] == BigEndian(4, f.errorCode)
                       + (BigEndian(4, f.lastGoodStreamId) + PrefixedString(Truncated(f.reason))) + tail;
      GoAwayReadsBack(f.errorCode, f.lastGoodStreamId, f.reason, tail);
    }
  }

  /** Frames of fixed size. */
  lemma FixedFrameReadsBack(v: Version, h: Header, f: Frame, tail: seq<byte>)
    requires ValidHeader(h) && ValidFrame(v, h, f)
    requires f.WindowUpdate? || f.Blocked? || f.StopWaiting? || f.Ping? || f.MtuDiscovery?
    requires FrameBytes(v, h, f, false, 0).Some?
    ensures var s := FrameBytes(v, h, f, false, 0).value + tail;
            && s != [] && s[0] != 0
            && ParseFrame(v, h, s[0], s[1..]) == FrameResult(true, Delivered(v, f, 0), tail)
  {
    Pow256Values();
    hide BigEndian, FromBigEndian, Int, Pow256;
    var s := FrameBytes(v, h, f, false, 0).value + tail;
    if f.WindowUpdate? {
      assert s[1..] == BigEndian(4, f.streamId) + (BigEndian(8, f.byteOffset) + tail);
      IntsAtFront(4, f.streamId, 8, f.byteOffset, tail);
    } else if f.Blocked? {
      assert s[1..] == BigEndian(4, f.streamId) + tail;
      IntAtFront(4, f.streamId, tail);
    } else if f.StopWaiting? {
      var delta := h.packetNumber - f.leastUnacked;
      ModSmall(delta, TWO64);
      assert s[1..] == BigEndian(h.packetNumberLength, delta) + tail;
      StopWaitingReadsBack(h, f.leastUnacked, tail);
    } else {
      assert s[1..] == tail;
    }
  }

  /** Every frame but padding reads back as its delivery, whatever follows it. */
  lemma FrameReadsBack(v: Version, h: Header, f: Frame, noLength: bool, room: nat, tail: seq<byte>)
    requires ValidHeader(h) && ValidFrame(v, h, f) && !f.Padding?
    requires FrameBytes(v, h, f, noLength, room).Some?
    requires f.Ack? ==> RoomForOneBlock(v, f.ack, room)
    requires f.Stream? && noLength ==> tail == []
    ensures var s := FrameBytes(v, h, f, noLength, room).value + tail;
            && s != [] && s[0] != 0
            && ParseFrame(v, h, s[0], s[1..]) == FrameResult(true, Delivered(v, f, room), tail)
  {
    if f.Stream? {
      StreamReadsBack(v, f, noLength, tail);
    } else if f.Ack? {
      AckReadsBack(v, h, f.ack, room, tail);
    } else if f.RstStream? {
      RstStreamReadsBack(v, f, tail);
    } else if f.ConnectionClose? || f.GoAway? {
      TextFrameReadsBack(v, h, f, tail);
    } else {
      FixedFrameReadsBack(v, h, f, tail);
    }
  }

  // ---------------------------------------------------------------------------
  // Whole payloads
  // ---------------------------------------------------------------------------

  predicate IsPadding(e: Event) { e.Received? && e.frame.Padding? }

  /** Adjacent paddings cannot be told apart on the wire: the reader reports their total. */
  function Join(es: seq<Event>, rest: seq<Event>): (r: seq<Event>)
  {
    if |es| == 1 && IsPadding(es[0]) && rest != [] && IsPadding(rest[0])
    then [Received(Padding(es[0].frame.numBytes + rest[0].frame.numBytes))] + rest[1..]
    else es + rest
  }

  lemma {:induction false} ZeroRunOfZeros(n: nat, s: seq<byte>)
    ensures ZeroRun(Zeros(n) + s) == n + ZeroRun(s)
  {
    if n == 0 {
      assert Zeros(n) + s == s;
    } else {
      assert (Zeros(n) + s)[1..] == Zeros(n - 1) + s;
      ZeroRunOfZeros(n - 1, s);
    }
  }

  /** A non-zero type byte never leads to a padding callback, and a good frame makes some callback. */
  lemma OtherFramesFirst(v: Version, h: Header, t: byte, s: seq<byte>)
    requires t != 0
    ensures var r := ParseFrame(v, h, t, s);
            && (r.ok ==> r.events != [])
            && (r.events != [] ==> !IsPadding(r.events[0]))
  {
    if IsAckType(v, t) && !IsStreamType(v, t) {
      AckStartsFirst(v, t, s);
    }
  }

  lemma AckStartsFirst(v: Version, t: byte, s: seq<byte>)
    ensures var r := ParseAck(v, t, s);
            && (r.parsed.ok ==> r.started.AckStart?)
            && (r.started.NotStarted? ==> r.parsed.ranges == [])
  {
  }

  lemma ParseFramesStep(v: Version, h: Header, s: seq<byte>, es: seq<Event>, rest: seq<byte>)
    requires s != [] && ParseFrame(v, h, s[0], s[1..]) == FrameResult(true, es, rest)
    ensures ParseFrames(v, h, s)
            == PayloadResult(ParseFrames(v, h, rest).ok, es + ParseFrames(v, h, rest).events)
  {
  }

  lemma LeadingZeros(v: Version, h: Header, s: seq<byte>)
    requires s != [] && s[0] == 0
    ensures var after := ParseFrames(v, h, s[ZeroRun(s)..]);
            ParseFrames(v, h, s) == PayloadResult(after.ok, [Received(Padding(ZeroRun(s)))] + after.events)
  {
    var run := ZeroRun(s[1..]);
    assert s[1..][run..] == s[1 + run..];
    assert !IsStreamType(v, 0) && !IsAckType(v, 0);
    ParseFramesStep(v, h, s, [Received(Padding(1 + run))], s[1 + run..]);
  }

  lemma NoLeadingPadding(v: Version, h: Header, s: seq<byte>)
    requires s == [] || s[0] != 0
    ensures var es := ParseFrames(v, h, s).events; es == [] || !IsPadding(es[0])
  {
    if s != [] {
      OtherFramesFirst(v, h, s[0], s[1..]);
    }
  }

  /** Zeros in front of a payload add to its leading padding, or become one. */
  lemma PaddingReads(v: Version, h: Header, n: nat, s: seq<byte>, z: seq<byte>, p: PayloadResult)
    requires n > 0 && z == Zeros(n) + s && p == ParseFrames(v, h, s)
    ensures ParseFrames(v, h, z) == PayloadResult(p.ok, Join([Received(Padding(n))], p.events))
  {
    hide ParseFrame;
    var run := ZeroRun(s);
    assert ZeroRun(z) == n + run && z[n + run..] == s[run..] by {
      ZeroRunOfZeros(n, s);
    }
    var after := ParseFrames(v, h, s[run..]);
    LeadingZeros(v, h, z);
    if run == 0 {
      assert s[run..] == s;
      NoLeadingPadding(v, h, s);
    } else {
      LeadingZeros(v, h, s);
    }
    JoinPaddings(n, run, after, p);
  }

  lemma JoinPaddings(n: nat, m: nat, after: PayloadResult, p: PayloadResult)
    requires if m == 0 then p == after && (p.events == [] || !IsPadding(p.events[0]))
             else p == PayloadResult(after.ok, [Received(Padding(m))] + after.events)
    ensures PayloadResult(p.ok, Join([Received(Padding(n))], p.events))
            == PayloadResult(after.ok, [Received(Padding(n + m))] + after.events)
  {
    assert ([Received(Padding(m))] + after.events)[1..] == after.events;
  }

  /** Every ACK frame, when its turn comes, finds room for one block. */
  ghost predicate AcksHaveRoom(v: Version, h: Header, frames: seq<Frame>, room: nat)
    requires PayloadBytes(v, h, frames, room).Some?
  {
    frames == [] ||
    (&& (frames[0].Ack? ==> RoomForOneBlock(v, frames[0].ack, room))
     && AcksHaveRoom(v, h, frames[1..], room - |FrameBytes(v, h, frames[0], |frames| == 1, room).value|))
  }

  ghost function DeliveredAll(v: Version, h: Header, frames: seq<Frame>, room: nat): (es: seq<Event>)
    requires PayloadBytes(v, h, frames, room).Some?
  {
    if frames == [] then []
    else Join(Delivered(v, frames[0], room),
              DeliveredAll(v, h, frames[1..], room - |FrameBytes(v, h, frames[0], |frames| == 1, room).value|))
  }

  /** For every frame list that can be written: the reader accepts the bytes and delivers the same
      frames in the same order, up to the writer's own normalisation and the joining of paddings. */
  lemma {:induction false} PayloadReadsBack(v: Version, h: Header, frames: seq<Frame>, room: nat)
    requires ValidHeader(h) && forall f | f in frames :: ValidFrame(v, h, f)
    requires PayloadBytes(v, h, frames, room).Some? && AcksHaveRoom(v, h, frames, room)
    ensures ParseFrames(v, h, PayloadBytes(v, h, frames, room).value)
            == PayloadResult(true, DeliveredAll(v, h, frames, room))
    decreases |frames|
  {
    hide ParseFrame, ParseFrames, FrameBytes, Delivered, ValidFrame, RoomForOneBlock;
    if frames == [] {
      NoFrames(v, h);
    } else {
      var f, last := frames[0], |frames| == 1;
      var left := room - |FrameBytes(v, h, f, last, room).value|;
      PayloadReadsBack(v, h, frames[1..], left);
      FirstFrameReads(v, h, f, last, room, PayloadBytes(v, h, frames[1..], left).value,
                      DeliveredAll(v, h, frames[1..], left));
    }
  }

  lemma NoFrames(v: Version, h: Header)
    ensures ParseFrames(v, h, []) == PayloadResult(true, [])
  {
  }

  /** One frame in front of a payload that reads back. */
  lemma FirstFrameReads(v: Version, h: Header, f: Frame, last: bool, room: nat, rest: seq<byte>, more: seq<Event>)
    requires ValidHeader(h) && ValidFrame(v, h, f)
    requires FrameBytes(v, h, f, last, room).Some? && |FrameBytes(v, h, f, last, room).value| <= room
    requires f.Ack? ==> RoomForOneBlock(v, f.ack, room)
    requires f.Stream? && last ==> rest == []
    requires ParseFrames(v, h, rest) == PayloadResult(true, more)
    ensures ParseFrames(v, h, FrameBytes(v, h, f, last, room).value + rest)
            == PayloadResult(true, Join(Delivered(v, f, room), more))
  {
    hide ParseFrame, ParseFrames, FrameBytes, Delivered, ValidFrame, RoomForOneBlock;
    var bytes := FrameBytes(v, h, f, last, room).value;
    if f.Padding? {
      PaddingBytes(v, h, f, last, room);
      PaddingReads(v, h, |bytes|, rest, bytes + rest, PayloadResult(true, more));
    } else {
      FrameReadsBack(v, h, f, last, room, rest);
      JoinOther(v, f, room, more);
      ParseFramesStep(v, h, bytes + rest, Delivered(v, f, room), rest);
    }
  }

  lemma PaddingBytes(v: Version, h: Header, f: Frame, noLength: bool, room: nat)
    requires f.Padding? && FrameBytes(v, h, f, noLength, room).Some?
    requires |FrameBytes(v, h, f, noLength, room).value| <= room
    ensures var bytes := FrameBytes(v, h, f, noLength, room).value;
            && |bytes| > 0 && bytes == Zeros(|bytes|)
            && Delivered(v, f, room) == [Received(Padding(|bytes|))]
  {
  }

  lemma JoinOther(v: Version, f: Frame, room: nat, rest: seq<Event>)
    requires !f.Padding?
    ensures Join(Delivered(v, f, room), rest) == Delivered(v, f, room) + rest
  {
  }
}
