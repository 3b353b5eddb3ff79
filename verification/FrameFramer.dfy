/**
 The framer's packet methods: `BuildDataPacket` over the frames of a packet and
 `ProcessFrameData` over its bytes, proved against `FrameFormat`.
 */
module FrameFramer {
  import opened Bytes
  import opened Wire
  import opened AckFormat
  import opened AckFramer
  import opened AckLimits
  import opened FrameFormat

  // ---------------------------------------------------------------------------
  // Sizes
  // ---------------------------------------------------------------------------

  method GetStreamIdSize(id: nat) returns (n: nat)
    requires id < TWO32
    ensures n == StreamIdSize(id)
    ensures 1 <= n && id < Pow256(n) && (n > 1 ==> Pow256(n - 1) <= id)
  {
    Pow256Values();
    assert Pow256(3) == 256 * Pow256(2);
    var rest := id;
    n := 1;
    while n <= 4
      invariant 1 <= n <= 4
      invariant n == 1 ==> rest == id
      invariant n == 2 ==> rest == id / 256 > 0
      invariant n == 3 ==> rest == id / 65536 > 0
      invariant n == 4 ==> rest == id / 0x100_0000 > 0
    {
      rest := rest / 256;
      if rest == 0 {
        return;
      }
      n := n + 1;
    }
  }

  method GetStreamOffsetSize(v: Version, offset: nat) returns (n: nat)
    requires offset < TWO64
    ensures n == StreamOffsetSize(v, offset)
    ensures offset < Pow256(n)
    ensures forall m | m in (if v.V41? then {0, 2, 4, 8} else {0, 2, 3, 4, 5, 6, 7, 8}) && m < n :: Pow256(m) <= offset
  {
    OffsetSizeIsLeast(v, offset);
    if v.Other? {
      if offset == 0 {
        return 0;
      }
      var rest := offset / 256;
      n := 2;
      Pow256Values();
      assert Pow256(3) == 256 * Pow256(2) && Pow256(5) == 256 * Pow256(4) && Pow256(7) == 256 * Pow256(6);
      while n <= 8
        invariant 2 <= n <= 8 && rest == offset / Pow256(n - 1)
        invariant n > 2 ==> offset >= Pow256(n - 1)
      {
        NextByte(offset, n);
        rest := rest / 256;
        if rest == 0 {
          return;
        }
        n := n + 1;
      }
    }
    n := 0;
    while n <= 4
      invariant n in {0, 2, 4, 6}
      invariant n > 0 ==> offset > 0
      invariant n > 2 ==> offset >= TWO16
      invariant n > 4 ==> offset >= TWO32
    {
      Pow256Values();
      if offset / Pow256(n) == 0 {
        SmallQuotient(offset, Pow256(n));
        return;
      }
      SmallQuotient(offset, Pow256(n));
      n := n + 2;
    }
    n := 8;
  }

  lemma OffsetSizeIsLeast(v: Version, offset: nat)
    requires offset < TWO64
    ensures var n := StreamOffsetSize(v, offset);
            && offset < Pow256(n)
            && forall m | m in (if v.V41? then {0, 2, 4, 8} else {0, 2, 3, 4, 5, 6, 7, 8}) && m < n :: Pow256(m) <= offset
  {
    Pow256Values();
    assert Pow256(3) == 256 * Pow256(2) && Pow256(5) == 256 * Pow256(4) && Pow256(7) == 256 * Pow256(6);
  }

  lemma SmallQuotient(v: nat, d: nat)
    requires d > 0
    ensures v / d == 0 <==> v < d
  {
    if v < d {
      ModUnique(v, d, 0, v);
    }
  }

  lemma Distribute(d: nat, a: nat, b: nat, c: nat)
    ensures d * (256 * a + b) + c == (256 * d) * a + (d * b + c)
  {
    assert d * (256 * a + b) == d * (256 * a) + d * b;
    assert d * (256 * a) == (256 * d) * a;
  }

  lemma DivideTwice(v: nat, d: nat)
    requires d > 0
    ensures v / d / 256 == v / (256 * d)
  {
    var q := v / d;
    Distribute(d, q / 256, q % 256, v % d);
    MulMono(q % 256, 255, d);
    ModUnique(v, 256 * d, q / 256, d * (q % 256) + v % d);
  }

  lemma NextByte(v: nat, n: nat)
    requires n > 0
    ensures v / Pow256(n - 1) / 256 == v / Pow256(n)
    ensures v / Pow256(n) == 0 <==> v < Pow256(n)
  {
    DivideTwice(v, Pow256(n - 1));
    SmallQuotient(v, Pow256(n));
  }

  /** The planned length of a frame other than padding. */
  function FrameLength(v: Version, h: Header, f: Frame, noLength: bool): (n: nat)
    requires !f.Padding?
  {
    match f
    case Stream(id, _, o, d) => 1 + StreamIdSize(id) + StreamOffsetSize(v, o) + (if noLength then 0 else 2) + |d|
    case Ack(a) => AckFrameSize(v, a)
    case StopWaiting(_) => 1 + h.packetNumberLength
    case Ping => 1
    case MtuDiscovery => 1
    case RstStream(_, _, _) => 1 + 4 + 8 + 4
    case ConnectionClose(_, d) => 1 + 4 + 2 + |Truncated(d)|
    case GoAway(_, _, d) => 1 + 4 + 2 + 4 + |Truncated(d)|
    case WindowUpdate(_, _) => 1 + 4 + 8
    case Blocked(_) => 1 + 4
  }

  /** Every frame that fits is as long as planned. */
  lemma FrameLengthIsExact(v: Version, h: Header, f: Frame, noLength: bool, room: nat)
    requires !f.Padding? && ValidFrame(v, h, f) && FrameBytes(v, h, f, noLength, room).Some?
    requires FrameLength(v, h, f, noLength) <= room
    ensures |FrameBytes(v, h, f, noLength, room).value| == FrameLength(v, h, f, noLength)
  {
    if f.Ack? {
      AckSizeIsExact(v, f.ack, room);
    }
  }

  // ---------------------------------------------------------------------------
  // Writing
  // ---------------------------------------------------------------------------

  lemma StreamBytesShape(v: Version, f: Frame, noLength: bool)
    requires f.Stream?
    ensures var idSize := StreamIdSize(f.streamId); var offsetSize := StreamOffsetSize(v, f.offset);
            StreamBytes(v, f, noLength)
            == [StreamTypeByte(v, f.fin, !noLength, offsetSize, idSize)]
               + (BigEndian(idSize, f.streamId) + BigEndian(offsetSize, f.offset))
               + if noLength then f.data else PrefixedString(f.data)
  {
    hide BigEndian, StreamTypeByte, StreamIdSize, StreamOffsetSize, PrefixedString;
  }

  method AppendStreamFrame(v: Version, f: Frame, noLength: bool, w: DataWriter) returns (ok: bool)
    requires w.Valid() && f.Stream? && f.streamId < TWO32 && f.offset < TWO64 && |f.data| < TWO16
    modifies w, w.buffer
    ensures Appends(w, StreamBytes(v, f, noLength), ok)
  {
    hide DataWriter.Written, BigEndian, StreamTypeByte, StreamIdSize, StreamOffsetSize, StreamBytes;
    StreamBytesShape(v, f, noLength);
    var idSize := GetStreamIdSize(f.streamId);
    var offsetSize := GetStreamOffsetSize(v, f.offset);
    ok := AppendFixed(StreamTypeByte(v, f.fin, !noLength, offsetSize, idSize), idSize, f.streamId, offsetSize, f.offset, w);
    if !ok {
      return;
    }
    if noLength {
      ok := w.WriteBytes(f.data);
    } else {
      ok := w.WriteStringPiece16(f.data);
    }
  }

  method AppendRstStreamFrame(v: Version, f: Frame, w: DataWriter) returns (ok: bool)
    requires w.Valid() && f.RstStream?
    modifies w, w.buffer
    ensures Appends(w, RstStreamBytes(v, f), ok)
  {
    hide DataWriter.Written, BigEndian;
    ok := w.WriteUInt8(1);
    if !ok {
      return;
    }
    ok := w.WriteInt(4, f.streamId);
    if !ok {
      return;
    }
    if v.V41? {
      ok := AppendTwo(4, f.errorCode, 8, f.byteOffset, w);
    } else {
      ok := AppendTwo(8, f.byteOffset, 4, f.errorCode, w);
    }
  }

  method AppendTwo(n: nat, a: nat, m: nat, b: nat, w: DataWriter) returns (ok: bool)
    requires w.Valid() && n <= 8 && m <= 8
    modifies w, w.buffer
    ensures Appends(w, BigEndian(n, a) + BigEndian(m, b), ok)
  {
    hide DataWriter.Written, BigEndian;
    ok := w.WriteInt(n, a);
    if ok {
      ok := w.WriteInt(m, b);
    }
  }

  method AppendConnectionCloseFrame(f: Frame, w: DataWriter) returns (ok: bool)
    requires w.Valid() && f.ConnectionClose?
    modifies w, w.buffer
    ensures Appends(w, [2] + (BigEndian(4, f.errorCode) + PrefixedString(Truncated(f.details))), ok)
  {
    hide DataWriter.Written, BigEndian, Truncated;
    ok := w.WriteUInt8(2);
    if !ok {
      return;
    }
    ok := w.WriteInt(4, f.errorCode);
    if ok {
      ok := w.WriteStringPiece16(Truncated(f.details));
    }
  }

  method AppendGoAwayFrame(f: Frame, w: DataWriter) returns (ok: bool)
    requires w.Valid() && f.GoAway?
    modifies w, w.buffer
    ensures Appends(w, [3] + (BigEndian(4, f.errorCode)
                              + (BigEndian(4, f.lastGoodStreamId) + PrefixedString(Truncated(f.reason)))), ok)
  {
    hide DataWriter.Written, BigEndian, Truncated;
    ok := w.WriteUInt8(3);
    if !ok {
      return;
    }
    ok := w.WriteInt(4, f.errorCode);
    if !ok {
      return;
    }
    ok := w.WriteInt(4, f.lastGoodStreamId);
    if ok {
      ok := w.WriteStringPiece16(Truncated(f.reason));
    }
  }

  /** A type byte and at most two fixed fields. */
  method AppendFixed(t: byte, n: nat, a: nat, m: nat, b: nat, w: DataWriter) returns (ok: bool)
    requires w.Valid() && n <= 8 && m <= 8
    modifies w, w.buffer
    ensures Appends(w, [t] + (BigEndian(n, a) + BigEndian(m, b)), ok)
  {
    hide DataWriter.Written, BigEndian;
    ok := w.WriteUInt8(t);
    if ok {
      ok := AppendTwo(n, a, m, b, w);
    }
  }

  /** Zero bytes: the type byte, then the rest of the padding. */
  method AppendPaddingFrame(n: int, w: DataWriter) returns (ok: bool)
    requires w.Valid()
    modifies w, w.buffer
    ensures n == 0 ==> !ok && w.Valid() && old(w.Written()) <= w.Written()
    ensures n != 0 ==> Appends(w, Zeros(if n > 0 then n else Max(1, old(w.Room()))), ok)
  {
    hide DataWriter.Written;
    ok := w.WriteUInt8(0);
    if !ok {
      return;
    }
    if n == 0 {
      return false;
    }
    if n < 0 {
      w.WritePadding();
    } else {
      ok := w.WriteBytes(Zeros(n - 1));
    }
  }

  method AppendStopWaitingFrame(h: Header, leastUnacked: nat, w: DataWriter) returns (ok: bool)
    requires w.Valid() && h.packetNumberLength <= 8
    modifies w, w.buffer
    ensures var delta := (h.packetNumber - leastUnacked) % TWO64;
            if delta >= Pow256(h.packetNumberLength) then !ok && w.Valid() && old(w.Written()) <= w.Written()
            else Appends(w, [6] + BigEndian(h.packetNumberLength, delta), ok)
  {
    hide DataWriter.Written, BigEndian, Pow256;
    var delta := (h.packetNumber - leastUnacked) % TWO64;
    ok := w.WriteUInt8(6);
    if !ok {
      return;
    }
    if delta >= Pow256(h.packetNumberLength) {
      return false;
    }
    ok := w.WriteInt(h.packetNumberLength, delta);
  }

  /** `r` was written if it is something and fits. */
  twostate predicate AppendsIfAny(w: DataWriter, r: Option<seq<byte>>, ok: bool)
    requires old(w.Valid())
    reads w, w.buffer
  {
    if r.None? then !ok && w.Valid() && old(w.Written()) <= w.Written() else Appends(w, r.value, ok)
  }

  /** One turn of the frame loop: type byte and contents. */
  method AppendFrame(v: Version, h: Header, f: Frame, noLength: bool, w: DataWriter) returns (ok: bool)
    requires w.Valid() && ValidHeader(h) && ValidFrame(v, h, f)
    modifies w, w.buffer
    ensures AppendsIfAny(w, FrameBytes(v, h, f, noLength, old(w.Room())), ok)
  {
    hide DataWriter.Written, AckBytes, StreamBytes, RstStreamBytes, PrefixedString, Truncated, Zeros, Pow256;
    match f {
      case Padding(n) => ok := AppendPaddingFrame(n, w);
      case Stream(_, _, _, _) => ok := AppendStreamFrame(v, f, noLength, w);
      case Ack(a) => ok := AppendAckFrameAndTypeByte(v, a, w);
      case StopWaiting(n) => ok := AppendStopWaitingFrame(h, n, w);
      case MtuDiscovery => ok := w.WriteUInt8(7);
      case Ping => ok := w.WriteUInt8(7);
      case RstStream(_, _, _) => ok := AppendRstStreamFrame(v, f, w);
      case ConnectionClose(_, _) => ok := AppendConnectionCloseFrame(f, w);
      case GoAway(_, _, _) => ok := AppendGoAwayFrame(f, w);
      case WindowUpdate(id, o) => ok := AppendFixed(4, 4, id, 8, o, w);
      case Blocked(id) =>
        ok := AppendFixed(5, 4, id, 0, 0, w);
        assert BigEndian(4, id) + BigEndian(0, 0) == BigEndian(4, id);
    }
  }

  /** The frames of a packet, in order. */
  method BuildDataPacket(v: Version, h: Header, frames: seq<Frame>, w: DataWriter) returns (ok: bool)
    requires w.Valid() && ValidHeader(h) && forall f | f in frames :: ValidFrame(v, h, f)
    modifies w, w.buffer
    ensures w.Valid() && ok == PayloadBytes(v, h, frames, old(w.Room())).Some?
    ensures ok ==> w.Written() == old(w.Written()) + PayloadBytes(v, h, frames, old(w.Room())).value
  {
    hide DataWriter.Written, FrameBytes, ValidFrame, PayloadBytes;
    ghost var start, room, done := w.Written(), w.Room(), [];
    ghost var all := PayloadBytes(v, h, frames, room);
    var i := 0;
    while i < |frames|
      invariant i <= |frames| && w.Valid() && w.Written() == start + done
      invariant i == 0 ==> done == [] && w.Room() == room
      invariant var rest := PayloadBytes(v, h, frames[i..], w.Room());
                all.Some? == rest.Some? && (rest.Some? ==> all.value == done + rest.value)
    {
      ghost var now := FrameBytes(v, h, frames[i], i == |frames| - 1, w.Room());
      PayloadStep(v, h, frames, i, w.Room());
      ok := AppendFrame(v, h, frames[i], i == |frames| - 1, w);
      if !ok {
        return;
      }
      done := done + now.value;
      i := i + 1;
    }
    NothingLeft(v, h, frames[i..], w.Room());
    ok := true;
  }

  lemma NothingLeft(v: Version, h: Header, frames: seq<Frame>, room: nat)
    requires |frames| == 0
    ensures PayloadBytes(v, h, frames, room) == Some([])
  {
  }

  lemma PayloadStep(v: Version, h: Header, frames: seq<Frame>, i: nat, room: nat)
    requires i < |frames|
    ensures var first := FrameBytes(v, h, frames[i], i == |frames| - 1, room);
            PayloadBytes(v, h, frames[i..], room)
            == if first.None? || |first.value| > room then None
               else
                 var rest := PayloadBytes(v, h, frames[i + 1..], room - |first.value|);
                 if rest.None? then None else Some(first.value + rest.value)
  {
    hide FrameBytes;
    assert frames[i..][1..] == frames[i + 1..];
  }

  // ---------------------------------------------------------------------------
  // Reading
  // ---------------------------------------------------------------------------

  /** What the frame methods promise: `p` says how it went, what is left and what was reported. */
  twostate predicate Processes(r: DataReader, visitor: Visitor, p: FrameResult, ok: bool)
    requires r.Valid()
    reads r, visitor
  {
    ok == p.ok && (ok ==> r.Rest() == p.rest) && visitor.events == old(visitor.events) + p.events
  }

  /** A 16-bit length and that many bytes. */
  method ReadStringPiece16(r: DataReader) returns (s: Option<seq<byte>>)
    requires r.Valid()
    modifies r
    ensures r.Valid()
    ensures var p := ParsePrefixed(old(r.Rest()));
            s.Some? == p.Some? && (s.Some? ==> s.value == p.value.0 && r.Rest() == p.value.1)
  {
    hide FromBigEndian, DataReader.Rest;
    ghost var s0 := r.Rest();
    Slices(s0, 0, 2);
    var n := r.ReadInt(2);
    if n.None? {
      return None;
    }
    Slices(s0, 2, n.value);
    assert s0[..2] == s0[0..2];
    s := r.ReadBytes(n.value);
  }

  lemma Slices(s: seq<byte>, from: nat, n: nat)
    requires from <= |s|
    ensures s[from..][0..] == s[from..]
    ensures from + n <= |s| ==> s[from..][..n] == s[from..from + n] && s[from..][n..] == s[from + n..]
    ensures s[0..] == s
  {
  }

  method ProcessStreamFields(idSize: nat, offsetSize: nat, hasLength: bool, fin: bool, r: DataReader, visitor: Visitor)
    returns (ok: bool)
    requires r.Valid()
    modifies r, visitor
    ensures r.Valid() && Processes(r, visitor, ParseStreamFields(idSize, offsetSize, hasLength, fin, old(r.Rest())), ok)
  {
    hide FromBigEndian, DataReader.Rest, ParsePrefixed;
    ghost var s := r.Rest();
    Slices(s, 0, idSize);
    if |s| >= idSize {
      Slices(s, idSize, offsetSize);
    }
    var id := r.ReadInt(idSize);
    if id.None? {
      return false;
    }
    var offset := r.ReadInt(offsetSize);
    if offset.None? {
      return false;
    }
    if hasLength {
      var data := ReadStringPiece16(r);
      if data.None? {
        return false;
      }
      visitor.On(Received(Stream(id.value, fin, offset.value, data.value)));
    } else {
      ghost var rest := r.Rest();
      var data := r.ReadBytes(|r.Rest()|);
      assert rest[..|rest|] == rest && rest[|rest|..] == [];
      visitor.On(Received(Stream(id.value, fin, offset.value, data.value[..|data.value| % TWO16])));
    }
    ok := true;
  }

  method ProcessStreamFrame(v: Version, t: byte, r: DataReader, visitor: Visitor) returns (ok: bool)
    requires r.Valid()
    modifies r, visitor
    ensures r.Valid() && Processes(r, visitor, ParseStream(v, t, old(r.Rest())), ok)
  {
    hide DataReader.Rest, ParseStreamFields;
    if v.V41? {
      ok := ProcessStreamFields(1 + t / 8 % 4, OffsetSizeFromCode(v, t / 2 % 4), t % 2 == 1, t / 32 % 2 == 1, r, visitor);
    } else {
      ok := ProcessStreamFields(1 + t % 4, OffsetSizeFromCode(v, t / 4 % 8), t / 32 % 2 == 1, t / 64 % 2 == 1, r, visitor);
    }
  }

  /** Two adjacent integers. */
  method ReadTwo(n: nat, m: nat, r: DataReader) returns (p: Option<(nat, nat)>)
    requires r.Valid()
    modifies r
    ensures r.Valid()
    ensures p.Some? == (|old(r.Rest())| >= n + m)
    ensures p.Some? ==> p.value == (Int(old(r.Rest()), 0, n), Int(old(r.Rest()), n, m))
    ensures p.Some? ==> r.Rest() == old(r.Rest())[n + m..]
  {
    hide FromBigEndian, DataReader.Rest;
    ghost var s := r.Rest();
    if |s| >= n {
      Slices(s, n, m);
    }
    var a := r.ReadInt(n);
    if a.None? {
      return None;
    }
    var b := r.ReadInt(m);
    if b.None? {
      return None;
    }
    p := Some((a.value, b.value));
  }

  method ProcessRstStreamFrame(v: Version, r: DataReader, visitor: Visitor) returns (ok: bool)
    requires r.Valid()
    modifies r, visitor
    ensures r.Valid() && Processes(r, visitor, ParseRstStream(v, old(r.Rest())), ok)
  {
    hide FromBigEndian, DataReader.Rest;
    ghost var s := r.Rest();
    if |s| >= 4 {
      Slices(s, 4, 12);
    }
    var id := r.ReadInt(4);
    if id.None? {
      return false;
    }
    var p := ReadTwo(if v.V41? then 4 else 8, if v.V41? then 8 else 4, r);
    if p.None? {
      return false;
    }
    ShiftedInts(s);
    var (a, b) := p.value;
    var error, offset := if v.V41? then a else b, if v.V41? then b else a;
    visitor.On(Received(RstStream(id.value, Clamp(error, STREAM_LAST_ERROR), offset)));
    ok := true;
  }

  lemma ShiftedInts(s: seq<byte>)
    requires |s| >= 16
    ensures Int(s[4..], 0, 4) == Int(s, 4, 4) && Int(s[4..], 4, 8) == Int(s, 8, 8)
    ensures Int(s[4..], 0, 8) == Int(s, 4, 8) && Int(s[4..], 8, 4) == Int(s, 12, 4)
    ensures s[..4] == s[0..4]
  {
    assert s[4..][0..4] == s[4..8] && s[4..][4..12] == s[8..16] && s[4..][0..8] == s[4..12] && s[4..][8..12] == s[12..16];
  }

  method ProcessConnectionCloseFrame(r: DataReader, visitor: Visitor) returns (ok: bool)
    requires r.Valid()
    modifies r, visitor
    ensures r.Valid() && Processes(r, visitor, ParseConnectionClose(old(r.Rest())), ok)
  {
    hide FromBigEndian, DataReader.Rest, ParsePrefixed;
    Slices(r.Rest(), 0, 4);
    var error := r.ReadInt(4);
    if error.None? {
      return false;
    }
    var details := ReadStringPiece16(r);
    if details.None? {
      return false;
    }
    visitor.On(Received(ConnectionClose(Clamp(error.value, LAST_ERROR), details.value)));
    ok := true;
  }

  method ProcessGoAwayFrame(r: DataReader, visitor: Visitor) returns (ok: bool)
    requires r.Valid()
    modifies r, visitor
    ensures r.Valid() && Processes(r, visitor, ParseGoAway(old(r.Rest())), ok)
  {
    hide FromBigEndian, DataReader.Rest, ParsePrefixed, Int;
    var p := ReadTwo(4, 4, r);
    if p.None? {
      return false;
    }
    var reason := ReadStringPiece16(r);
    if reason.None? {
      return false;
    }
    visitor.On(Received(GoAway(Clamp(p.value.0, LAST_ERROR), p.value.1, reason.value)));
    ok := true;
  }

  method ProcessStopWaitingFrame(h: Header, r: DataReader, visitor: Visitor) returns (ok: bool)
    requires r.Valid()
    modifies r, visitor
    ensures r.Valid() && Processes(r, visitor, ParseStopWaiting(h, old(r.Rest())), ok)
  {
    hide FromBigEndian, DataReader.Rest;
    Slices(r.Rest(), 0, h.packetNumberLength);
    var delta := r.ReadInt(h.packetNumberLength);
    if delta.None? || h.packetNumber < delta.value {
      return false;
    }
    visitor.On(Received(StopWaiting(h.packetNumber - delta.value)));
    ok := true;
  }

  /** Counts zero bytes up to the next frame; the type byte was the first of them. */
  method ProcessPaddingFrame(r: DataReader, visitor: Visitor)
    requires r.Valid()
    modifies r, visitor
    ensures r.Valid()
    ensures var n := ZeroRun(old(r.Rest()));
            Processes(r, visitor, One(Padding(1 + n), old(r.Rest())[n..]), true)
  {
    hide DataReader.Rest, ZeroRun;
    var n := 1;
    ghost var s := r.Rest();
    while r.Rest() != [] && r.Rest()[0] == 0
      invariant r.Valid() && n <= 1 + |s| && r.Rest() == s[n - 1..]
      invariant ZeroRun(s) == n - 1 + ZeroRun(r.Rest())
      invariant visitor.events == old(visitor.events)
      decreases |r.Rest()|
    {
      ZeroRunStep(r.Rest());
      Slices(s, n - 1, 1);
      var _ := r.ReadBytes(1);
      n := n + 1;
    }
    ZeroRunStep(r.Rest());
    visitor.On(Received(Padding(n)));
  }

  lemma ZeroRunStep(s: seq<byte>)
    ensures ZeroRun(s) == if s == [] || s[0] != 0 then 0 else 1 + ZeroRun(s[1..])
  {
  }

  /** One frame whose type byte has been read. */
  method ProcessFrame(v: Version, h: Header, t: byte, r: DataReader, visitor: Visitor) returns (ok: bool)
    requires r.Valid()
    modifies r, visitor
    ensures r.Valid() && Processes(r, visitor, ParseFrame(v, h, t, old(r.Rest())), ok)
  {
    hide DataReader.Rest, ParseStream, ParseAck, ParseRstStream, ParseConnectionClose, ParseGoAway, ParseStopWaiting,
         ZeroRun, Int, AckEvents;
    if IsStreamType(v, t) {
      ok := ProcessStreamFrame(v, t, r, visitor);
    } else if IsAckType(v, t) {
      ok := ProcessAckFrame(v, t, r, visitor);
    } else if t == 0 {
      ProcessPaddingFrame(r, visitor);
      ok := true;
    } else if t == 1 {
      ok := ProcessRstStreamFrame(v, r, visitor);
    } else if t == 2 {
      ok := ProcessConnectionCloseFrame(r, visitor);
    } else if t == 3 {
      ok := ProcessGoAwayFrame(r, visitor);
    } else if t == 4 {
      var p := ReadTwo(4, 8, r);
      ok := p.Some?;
      if ok {
        visitor.On(Received(WindowUpdate(p.value.0, p.value.1)));
      }
    } else if t == 5 {
      var p := ReadTwo(4, 0, r);
      ok := p.Some?;
      if ok {
        visitor.On(Received(Blocked(p.value.0)));
      }
    } else if t == 6 {
      ok := ProcessStopWaitingFrame(h, r, visitor);
    } else if t == 7 {
      visitor.On(Received(Ping));
      ok := true;
    } else {
      ok := false;
    }
  }

  /** The frame loop. Each turn consumes at least the type byte, so it ends. */
  method ProcessFrameData(v: Version, h: Header, r: DataReader, visitor: Visitor) returns (ok: bool)
    requires r.Valid()
    modifies r, visitor
    ensures r.Valid()
    ensures old(r.Rest()) == [] ==> !ok && visitor.events == old(visitor.events)
    ensures old(r.Rest()) != [] ==>
              var p := ParseFrames(v, h, old(r.Rest()));
              ok == p.ok && visitor.events == old(visitor.events) + p.events
  {
    hide DataReader.Rest, ParseFrame, FromBigEndian, ParseFrames;
    if r.Rest() == [] {
      return false;
    }
    ghost var before, done := visitor.events, [];
    ghost var all := ParseFrames(v, h, r.Rest());
    while r.Rest() != []
      invariant r.Valid() && visitor.events == before + done
      invariant var p := ParseFrames(v, h, r.Rest()); all.ok == p.ok && all.events == done + p.events
      decreases |r.Rest()|
    {
      OneByte(r.Rest());
      FramesStep(v, h, r.Rest());
      var t := r.ReadInt(1);
      ghost var first := ParseFrame(v, h, t.value, r.Rest());
      ok := ProcessFrame(v, h, t.value, r, visitor);
      AppendTwice(before, done, first.events);
      if !ok {
        return;
      }
      AppendTwice(done, first.events, ParseFrames(v, h, r.Rest()).events);
      done := done + first.events;
    }
    FramesStep(v, h, r.Rest());
    ok := true;
  }

  lemma FramesStep(v: Version, h: Header, s: seq<byte>)
    ensures s == [] ==> ParseFrames(v, h, s) == PayloadResult(true, [])
    ensures s != [] ==>
              var first := ParseFrame(v, h, s[0], s[1..]);
              && (first.ok ==> |first.rest| < |s|)
              && ParseFrames(v, h, s)
                 == if !first.ok then PayloadResult(false, first.events)
                    else PayloadResult(ParseFrames(v, h, first.rest).ok,
                                       first.events + ParseFrames(v, h, first.rest).events)
  {
    hide ParseFrame;
  }
}
