/**
 When a written payload does not read back: an ACK squeezed into too little room runs on into the
 frames after it.
 */
module PayloadLimits {
  import opened Bytes
  import opened Wire
  import opened AckFormat
  import opened AckRoundTrip
  import opened FrameFormat
  import opened FrameRoundTrip

  /** An ACK frame in a payload is read from its own bytes if and only if there was room for one block. */
  lemma AckFrameReadsBackIff(v: Version, h: Header, a: AckFrame, room: nat, tail: seq<byte>)
    requires Representable(v, a.packets) && Consistent(a) && |AckBytes(v, a, room)| <= room
    ensures AckBytes(v, a, room) != []
    ensures var s := AckBytes(v, a, room) + tail;
            ParseFrame(v, h, s[0], s[1..]) == FrameResult(true, Delivered(v, Ack(a), room), tail)
            <==> RoomForOneBlock(v, a, room)
  {
    hide ParseAck, AckBytes, Delivered, RoomForOneBlock;
    AckBytesNonEmpty(v, a, room);
    var s := AckBytes(v, a, room) + tail;
    if RoomForOneBlock(v, a, room) {
      AckReadsBack(v, h, a, room, tail);
    } else {
      MissingCountByte(v, a, room, tail);
      AckTypeAtFront(v, a, room, tail);
    }
  }

  lemma AckTypeAtFront(v: Version, a: AckFrame, room: nat, tail: seq<byte>)
    ensures AckBytes(v, a, room) != []
    ensures var t := (AckBytes(v, a, room) + tail)[0]; t != 0 && IsAckType(v, t) && !IsStreamType(v, t)
  {
    AckBytesShape(v, a, room, tail);
    AckTypeIsAck(v, LayoutFor(v, a, room));
  }

  // ---------------------------------------------------------------------------
  // What the reader makes of such a frame, versions other than 41
  // ---------------------------------------------------------------------------

  lemma {:induction false} PowersLeaveOne(n: nat) returns (q: nat)
    ensures Pow256(n) == 255 * q + 1
  {
    if n == 0 {
      q := 0;
    } else {
      var p := PowersLeaveOne(n - 1);
      q := 256 * p + 1;
    }
  }

  lemma NotItsOwnShift(hi: nat, low: nat, p: nat, q: nat)
    requires p == 255 * q + 1 && low < p && hi < 256 && hi * p + low == 256 * low
    ensures hi == 0 && low == 0
  {
    assert hi * p == hi * q * 255 + hi;
    var m := low - hi * q;
    assert hi == 255 * m;
  }

  /** Dropping the first byte of a length and taking in a zero behind it always changes it. */
  lemma ShiftChangesLength(width: nat, length: nat)
    requires width > 0 && 0 < length < Pow256(width)
    ensures FromBigEndian(BigEndian(width, length)[1..] + [0]) != length
  {
    var b := BigEndian(width, length);
    var low := FromBigEndian(b[1..]);
    BigEndianExact(width, length);
    LeadingByte(b);
    assert (b[1..] + [0])[..width - 1] == b[1..];
    assert FromBigEndian(b[1..] + [0]) == 256 * low;
    var q := PowersLeaveOne(width - 1);
    if 256 * low == length {
      NotItsOwnShift(b[0], low, Pow256(width - 1), q);
    }
  }

  lemma HeadOfNoBlocks(f: AckFrame, l: Layout, tail: seq<byte>)
    requires l.count == 0
    ensures var first := BigEndian(l.blockWidth, l.info.firstBlockLength);
            HeadBytes(Other, f, l) + AfterHead(Other, f, l, tail)
            == BigEndian(l.largestWidth, f.largestAcked) + BigEndian(2, DelayWord(f.delay)) + (first + ([0] + tail))
  {
    hide BigEndian;
    assert ChosenBlocks(f, 0) == [];
    assert BlockBytes(l.blockWidth, []) == [];
    assert [] + ([0] + tail) == [0] + tail;
  }

  /** From the count byte on, with a byte of the length taken for the count. */
  lemma ShiftedRanges(many: bool, width: nat, largest: nat, length: nat, tail: seq<byte>)
    requires width > 0 && 0 < length < Pow256(width) && length <= largest + 1 < TWO64
    ensures var s := BigEndian(width, length) + ([0] + tail);
            var p := ParseRanges(Other, many, s[0], width, largest, 0, s[1..]);
            p.ok ==> p.ranges != [] && (p.ranges[0].start != largest + 1 - length || p.ranges[0].end != largest + 1)
  {
    hide BigEndian, FromBigEndian, ParseBlocks, ParseTail;
    var s := BigEndian(width, length) + ([0] + tail);
    ShiftChangesLength(width, length);
    assert s[1..][..width] == BigEndian(width, length)[1..] + [0];
  }

  /** Rejected, or accepted with a first range that is not the frame's. */
  lemma WrongFirstRange(f: AckFrame, room: nat, tail: seq<byte>)
    requires Representable(Other, f.packets) && Consistent(f) && |AckBytes(Other, f, room)| <= room
    requires !RoomForOneBlock(Other, f, room)
    ensures AckBytes(Other, f, room) != []
    ensures var s := AckBytes(Other, f, room) + tail; var r := ParseAck(Other, s[0], s[1..]);
            r.parsed.ok ==> r.started.AckStart? && r.parsed.ranges != [] && r.parsed.ranges[0] != FrameRanges(f, 0)[0]
  {
    hide BigEndian, FromBigEndian, ParseRanges, DelayOf, TypeByte, WidthFromCode, HasBlocks, Pow256, AckBytes;
    AckBytesNonEmpty(Other, f, room);
    var l := LayoutFor(Other, f, room);
    var s := AckBytes(Other, f, room) + tail;
    var length := l.info.firstBlockLength;
    var rest := BigEndian(l.blockWidth, length) + ([0] + tail);
    MissingCountByte(Other, f, room, tail);
    CountingAgreesWithWriting(Other, f, room);
    TypeByteRoundTrip(Other, l);
    AckBytesShape(Other, f, room, tail);
    HeadOfNoBlocks(f, l, tail);
    WidthHolds(Other, f.largestAcked);
    Pow256Values();
    DelayReadsBack(f.delay);
    ParseNumbers(l.largestWidth, f.largestAcked, DelayWord(f.delay), rest);
    TopLength(f);
    ShiftedRanges(true, l.blockWidth, f.largestAcked, length, tail);
  }

  lemma TopLength(f: AckFrame)
    requires f.packets != [] && Consistent(f)
    ensures Info(f.packets).firstBlockLength == Last(f.packets).max - Last(f.packets).min
    ensures FrameRanges(f, 0)[0] == Range(Last(f.packets).min, f.largestAcked + 1, |f.packets| == 1)
  {
    FirstLengthKept(Init(f.packets), Last(f.packets).min, AckInfo(Length(Last(f.packets)), Length(Last(f.packets)), 0));
  }

  lemma {:induction false} FirstLengthKept(rest: PacketNumberQueue, start: nat, info: AckInfo)
    requires rest != [] ==> Last(rest).max < start
    ensures Scan(rest, start, info).firstBlockLength == info.firstBlockLength
    decreases |rest|
  {
    if rest != [] && info.numAckBlocks < 255 {
      var i := Last(rest);
      FirstLengthKept(Init(rest), i.min,
                      info.(numAckBlocks := info.numAckBlocks + BlocksFor(start - i.max),
                            maxBlockLength := Max(info.maxBlockLength, Length(i))));
    }
  }

  // ---------------------------------------------------------------------------
  // Whole payloads
  // ---------------------------------------------------------------------------

  /** The bytes the first frame takes; the others are written into the rest of the room. */
  ghost function FirstSize(v: Version, h: Header, frames: seq<Frame>, room: nat): (n: nat)
    requires frames != [] && PayloadBytes(v, h, frames, room).Some?
    ensures n <= room && PayloadBytes(v, h, frames[1..], room - n).Some?
  {
    |FrameBytes(v, h, frames[0], |frames| == 1, room).value|
  }

  ghost predicate HeadReadsAlone(v: Version, h: Header, frames: seq<Frame>, room: nat)
    requires frames != [] && PayloadBytes(v, h, frames, room).Some?
  {
    ReadsAlone(v, h, frames[0], room, FrameBytes(v, h, frames[0], |frames| == 1, room).value,
               PayloadBytes(v, h, frames[1..], room - FirstSize(v, h, frames, room)).value)
  }

  /** Every frame but padding, when its turn comes, is read from its own bytes alone. */
  ghost predicate InStep(v: Version, h: Header, frames: seq<Frame>, room: nat)
    requires PayloadBytes(v, h, frames, room).Some?
  {
    frames == [] ||
    (&& InStep(v, h, frames[1..], room - |FrameBytes(v, h, frames[0], |frames| == 1, room).value|)
     && (frames[0].Padding? || HeadReadsAlone(v, h, frames, room)))
  }

  ghost predicate ReadsAlone(v: Version, h: Header, f: Frame, room: nat, bytes: seq<byte>, rest: seq<byte>)
  {
    bytes != [] && ParseFrame(v, h, (bytes + rest)[0], (bytes + rest)[1..]) == FrameResult(true, Delivered(v, f, room), rest)
  }

  lemma ReadsAloneIff(v: Version, h: Header, f: Frame, noLength: bool, room: nat, rest: seq<byte>)
    requires ValidHeader(h) && ValidFrame(v, h, f) && !f.Padding?
    requires FrameBytes(v, h, f, noLength, room).Some? && |FrameBytes(v, h, f, noLength, room).value| <= room
    requires f.Stream? && noLength ==> rest == []
    ensures ReadsAlone(v, h, f, room, FrameBytes(v, h, f, noLength, room).value, rest)
            <==> (f.Ack? ==> RoomForOneBlock(v, f.ack, room))
  {
    hide ParseFrame, Delivered, RoomForOneBlock, AckBytes, ParseAck;
    if f.Ack? {
      AckFrameReadsBackIff(v, h, f.ack, room, rest);
    } else {
      FrameBytesNonEmpty(v, h, f, noLength, room);
      FrameReadsBack(v, h, f, noLength, room, rest);
    }
  }

  lemma FrameBytesNonEmpty(v: Version, h: Header, f: Frame, noLength: bool, room: nat)
    requires FrameBytes(v, h, f, noLength, room).Some?
    ensures FrameBytes(v, h, f, noLength, room).value != []
  {
  }

  /** In every version: the reader keeps step with the writer if and only if every ACK had room for one
      block. */
  lemma {:induction false} InStepIff(v: Version, h: Header, frames: seq<Frame>, room: nat)
    requires ValidHeader(h) && forall f | f in frames :: ValidFrame(v, h, f)
    requires PayloadBytes(v, h, frames, room).Some?
    ensures InStep(v, h, frames, room) <==> AcksHaveRoom(v, h, frames, room)
    decreases |frames|
  {
    hide FrameBytes, ReadsAlone, RoomForOneBlock;
    if frames != [] {
      var bytes := FrameBytes(v, h, frames[0], |frames| == 1, room).value;
      InStepIff(v, h, frames[1..], room - |bytes|);
      if !frames[0].Padding? {
        ReadsAloneIff(v, h, frames[0], |frames| == 1, room, PayloadBytes(v, h, frames[1..], room - |bytes|).value);
      }
    }
  }

  /** A leading padding event is never of zero bytes. */
  ghost predicate Solid(es: seq<Event>)
  {
    es != [] && IsPadding(es[0]) ==> es[0].frame.numBytes > 0
  }

  lemma ParsedIsSolid(v: Version, h: Header, s: seq<byte>)
    ensures Solid(ParseFrames(v, h, s).events)
  {
    hide ParseFrame, ParseFrames;
    if s != [] && s[0] == 0 {
      LeadingZeros(v, h, s);
    } else {
      NoLeadingPadding(v, h, s);
    }
  }

  lemma {:induction false} DeliveredIsSolid(v: Version, h: Header, frames: seq<Frame>, room: nat)
    requires PayloadBytes(v, h, frames, room).Some?
    ensures Solid(DeliveredAll(v, h, frames, room))
    decreases |frames|
  {
    hide FrameBytes, Delivered;
    if frames != [] {
      var f, last := frames[0], |frames| == 1;
      var bytes := FrameBytes(v, h, f, last, room).value;
      DeliveredIsSolid(v, h, frames[1..], room - |bytes|);
      if f.Padding? {
        PaddingBytes(v, h, f, last, room);
      } else {
        JoinOther(v, f, room, DeliveredAll(v, h, frames[1..], room - |bytes|));
        StartsWithFrame(v, f, room);
      }
    }
  }

  lemma StartsWithFrame(v: Version, f: Frame, room: nat)
    requires !f.Padding?
    ensures Delivered(v, f, room) != [] && !IsPadding(Delivered(v, f, room)[0])
  {
  }

  lemma JoinCancels(n: int, a: seq<Event>, b: seq<Event>)
    requires Solid(a) && Solid(b) && Join([Received(Padding(n))], a) == Join([Received(Padding(n))], b)
    ensures a == b
  {
    var p := [Received(Padding(n))];
    var ja, jb := Join(p, a), Join(p, b);
    if a != [] && IsPadding(a[0]) {
      assert ja[1..] == a[1..] && a == [a[0]] + a[1..];
      if b != [] && IsPadding(b[0]) {
        assert jb[1..] == b[1..] && b == [b[0]] + b[1..];
      }
    } else if !(b != [] && IsPadding(b[0])) {
      assert ja[1..] == a && jb[1..] == b;
    }
  }

  lemma PrefixCancels(p: seq<Event>, a: seq<Event>, b: seq<Event>)
    requires p + a == p + b
    ensures a == b
  {
    assert a == (p + a)[|p|..] && b == (p + b)[|p|..];
  }

  lemma AckEventsStart(started: Started, rs: seq<Range>)
    requires started.AckStart? && rs != []
    ensures var es := AckEvents(started, rs); |es| >= 2 && es[1] == OnAckRange(rs[0])
  {
  }

  lemma AckLeads(v: Version, h: Header, s: seq<byte>)
    requires s != [] && IsAckType(v, s[0]) && !IsStreamType(v, s[0])
    ensures var r := ParseAck(v, s[0], s[1..]); var p := ParseFrames(v, h, s);
            && (!r.parsed.ok ==> !p.ok)
            && (r.parsed.ok ==> AckEvents(r.started, r.parsed.ranges) <= p.events)
  {
    hide ParseAck, AckEvents;
  }

  lemma AckDelivery(a: AckFrame, room: nat)
    ensures Delivered(Other, Ack(a), room)
            == AckEvents(AckStart(a.largestAcked, DelayRead(a.delay)), FrameRanges(a, LayoutFor(Other, a, room).count))
  {
  }

  /** An ACK without room spoils everything after it. */
  lemma BadAckSpoils(h: Header, a: AckFrame, room: nat, rest: seq<byte>, more: seq<Event>)
    requires Representable(Other, a.packets) && Consistent(a) && |AckBytes(Other, a, room)| <= room
    requires !RoomForOneBlock(Other, a, room)
    ensures ParseFrames(Other, h, AckBytes(Other, a, room) + rest)
            != PayloadResult(true, Delivered(Other, Ack(a), room) + more)
  {
    hide ParseAck, ParseFrame, ParseFrames, AckBytes, AckEvents, RoomForOneBlock, FrameRanges, LayoutFor, Delivered, DelayRead;
    var s := AckBytes(Other, a, room) + rest;
    WrongFirstRange(a, room, rest);
    MissingCountByte(Other, a, room, rest);
    AckTypeAtFront(Other, a, room, rest);
    AckLeads(Other, h, s);
    AckDelivery(a, room);
    var r := ParseAck(Other, s[0], s[1..]);
    if r.parsed.ok {
      RangesNonEmpty(a);
      AckEventsStart(r.started, r.parsed.ranges);
      AckEventsStart(AckStart(a.largestAcked, DelayRead(a.delay)), FrameRanges(a, 0));
    }
  }

  lemma RangesNonEmpty(a: AckFrame)
    ensures FrameRanges(a, 0) != []
  {
  }

  /** In every version but 41: a payload that was written is accepted and delivers its frames if and only
      if every ACK had room for one block. */
  lemma {:induction false} PayloadReadsBackIff(h: Header, frames: seq<Frame>, room: nat)
    requires ValidHeader(h) && forall f | f in frames :: ValidFrame(Other, h, f)
    requires PayloadBytes(Other, h, frames, room).Some?
    ensures ParseFrames(Other, h, PayloadBytes(Other, h, frames, room).value)
            == PayloadResult(true, DeliveredAll(Other, h, frames, room))
            <==> AcksHaveRoom(Other, h, frames, room)
    decreases |frames|
  {
    hide ParseFrame, ParseFrames, FrameBytes, Delivered, RoomForOneBlock;
    if AcksHaveRoom(Other, h, frames, room) {
      PayloadReadsBack(Other, h, frames, room);
    } else {
      var f, last := frames[0], |frames| == 1;
      var bytes := FrameBytes(Other, h, f, last, room).value;
      var left := room - |bytes|;
      var rest, more := PayloadBytes(Other, h, frames[1..], left).value, DeliveredAll(Other, h, frames[1..], left);
      PayloadReadsBackIff(h, frames[1..], left);
      DeliveredIsSolid(Other, h, frames[1..], left);
      SpoiledFrame(h, f, last, room, rest, more, AcksHaveRoom(Other, h, frames[1..], left));
    }
  }

  lemma SpoiledFrame(h: Header, f: Frame, last: bool, room: nat, rest: seq<byte>, more: seq<Event>, roomAfter: bool)
    requires ValidHeader(h) && ValidFrame(Other, h, f)
    requires FrameBytes(Other, h, f, last, room).Some? && |FrameBytes(Other, h, f, last, room).value| <= room
    requires f.Stream? && last ==> rest == []
    requires Solid(more) && (roomAfter || ParseFrames(Other, h, rest) != PayloadResult(true, more))
    requires !(roomAfter && (f.Ack? ==> RoomForOneBlock(Other, f.ack, room)))
    ensures ParseFrames(Other, h, FrameBytes(Other, h, f, last, room).value + rest)
            != PayloadResult(true, Join(Delivered(Other, f, room), more))
  {
    hide ParseFrame, ParseFrames, FrameBytes, Delivered, RoomForOneBlock;
    var bytes, p := FrameBytes(Other, h, f, last, room).value, ParseFrames(Other, h, rest);
    if f.Padding? {
      PaddingBytes(Other, h, f, last, room);
      PaddingReads(Other, h, |bytes|, rest, bytes + rest, p);
      ParsedIsSolid(Other, h, rest);
      if Join([Received(Padding(|bytes|))], p.events) == Join([Received(Padding(|bytes|))], more) {
        JoinCancels(|bytes|, p.events, more);
      }
    } else {
      JoinOther(Other, f, room, more);
      if f.Ack? && !RoomForOneBlock(Other, f.ack, room) {
        AckFrameBytes(h, f, last, room);
        BadAckSpoils(h, f.ack, room, rest, more);
      } else {
        FrameReadsBack(Other, h, f, last, room, rest);
        ParseFramesStep(Other, h, bytes + rest, Delivered(Other, f, room), rest);
        if Delivered(Other, f, room) + p.events == Delivered(Other, f, room) + more {
          PrefixCancels(Delivered(Other, f, room), p.events, more);
        }
      }
    }
  }

  lemma AckFrameBytes(h: Header, f: Frame, last: bool, room: nat)
    requires f.Ack?
    ensures FrameBytes(Other, h, f, last, room) == Some(AckBytes(Other, f.ack, room))
  {
  }

  // ---------------------------------------------------------------------------
  // The smallest harm done
  // ---------------------------------------------------------------------------

  lemma OneByteOfPadding(h: Header)
    ensures PayloadBytes(Other, h, [Padding(1)], 1) == Some([0])
  {
    var frames := [Padding(1)];
    assert frames[1..] == [] && Zeros(1) == [0];
    assert FrameBytes(Other, h, frames[0], true, 1) == Some([0]);
    assert PayloadBytes(Other, h, frames[1..], 0) == Some([]);
    assert [0] + [] == [0];
  }

  /** An ACK for packets 1 to 300, 1000 and 1001, and one byte of padding: the reader is told that packets
      490 to 1001 arrived, and never hears of the padding. */
  lemma AcknowledgesWhatNeverArrived(h: Header)
    ensures var frames := [Ack(Misread), Padding(1)]; var bytes := [0x65, 3, 0xE9, 0, 0, 0, 2, 0, 0];
            && ValidFrame(Other, h, frames[0]) && ValidFrame(Other, h, frames[1])
            && PayloadBytes(Other, h, frames, 9) == Some(bytes)
            && ParseFrames(Other, h, bytes)
               == PayloadResult(true, [OnAckStart(1001, Micros(0)), OnAckRange(Range(490, 1002, false))])
  {
    hide AckBytes, ParseAck, LayoutFor;
    MisreadLayout();
    MisreadBytes();
    var frames := [Ack(Misread), Padding(1)];
    var bytes: seq<byte> := [0x65, 3, 0xE9, 0, 0, 0, 2, 0, 0];
    assert frames[1..] == [Padding(1)];
    OneByteOfPadding(h);
    assert FrameBytes(Other, h, frames[0], false, 9) == Some([0x65, 3, 0xE9, 0, 0, 0, 2, 0]);
    assert [0x65, 3, 0xE9, 0, 0, 0, 2, 0] + [0] == bytes;
    AcknowledgesTheMissing(bytes[1..]);
    var range := Range(490, 1002, false);
    assert [range][1..] == [] && RangeEvents([range]) == [OnAckRange(range)] + RangeEvents([]);
    assert ParseFrame(Other, h, 0x65, bytes[1..])
           == FrameResult(true, [OnAckStart(1001, Micros(0)), OnAckRange(range)], []);
    ParseFramesStep(Other, h, bytes, [OnAckStart(1001, Micros(0)), OnAckRange(range)], []);
  }
}
