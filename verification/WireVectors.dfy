/**
 Sample frames and their bytes, which pin type bytes, field order and widths. Frames, and bytes for versions
 other than 41, are those of the framer's own tests; the bytes for version 41, and those of a stream frame
 that is not the last of its packet, follow the code's own flag layout and field order.
 */
module WireVectors {
  import opened Bytes
  import opened Wire
  import opened AckFormat
  import opened FrameFormat
  import opened IetfAck

  /** "because I can" */
  const Reason: seq<byte> := [0x62, 0x65, 0x63, 0x61, 0x75, 0x73, 0x65, 0x20, 0x49, 0x20, 0x63, 0x61, 0x6E]

  /** "hello world!" */
  const Hello: seq<byte> := [0x68, 0x65, 0x6C, 0x6C, 0x6F, 0x20, 0x77, 0x6F, 0x72, 0x6C, 0x64, 0x21]

  lemma OneMore(n: nat, high: nat, low: byte)
    ensures BigEndian(n + 1, 256 * high + low) == BigEndian(n, high) + [low]
  {
    ModUnique(256 * high + low, 256, high, low);
  }

  lemma TwoBytes(high: nat, a: byte, b: byte, n: nat)
    ensures BigEndian(n + 2, 256 * (256 * high + a) + b) == BigEndian(n, high) + [a, b]
  {
    OneMore(n, high, a);
    OneMore(n + 1, 256 * high + a, b);
  }

  lemma FourBytes(a: byte, b: byte, c: byte, d: byte)
    ensures BigEndian(4, 256 * (256 * (256 * (256 * 0 + a) + b) + c) + d) == [a, b, c, d]
  {
    hide BigEndian;
    TwoBytes(0, a, b, 0);
    TwoBytes(256 * (256 * 0 + a) + b, c, d, 2);
  }

  lemma EightBytes(high: nat, a: byte, b: byte, c: byte, d: byte)
    ensures BigEndian(8, 256 * (256 * (256 * (256 * high + a) + b) + c) + d) == BigEndian(4, high) + [a, b, c, d]
  {
    hide BigEndian;
    TwoBytes(high, a, b, 4);
    TwoBytes(256 * (256 * high + a) + b, c, d, 6);
  }

  lemma SampleFields()
    ensures BigEndian(4, 0x01020304) == [1, 2, 3, 4]
    ensures BigEndian(4, 0x05060708) == [5, 6, 7, 8]
    ensures BigEndian(8, 0x0807060504030201) == [8, 7, 6, 5, 4, 3, 2, 1]
    ensures BigEndian(8, 0x1122334455667788) == [0x11, 0x22, 0x33, 0x44, 0x55, 0x66, 0x77, 0x88]
    ensures BigEndian(8, 0x3A98FEDC32107654) == [0x3A, 0x98, 0xFE, 0xDC, 0x32, 0x10, 0x76, 0x54]
    ensures BigEndian(4, 8) == [0, 0, 0, 8]
    ensures BigEndian(2, 13) == [0, 13]
  {
    hide BigEndian;
    FourBytes(1, 2, 3, 4);
    FourBytes(5, 6, 7, 8);
    FourBytes(8, 7, 6, 5);
    EightBytes(0x08070605, 4, 3, 2, 1);
    FourBytes(0x11, 0x22, 0x33, 0x44);
    EightBytes(0x11223344, 0x55, 0x66, 0x77, 0x88);
    FourBytes(0x3A, 0x98, 0xFE, 0xDC);
    EightBytes(0x3A98FEDC, 0x32, 0x10, 0x76, 0x54);
    FourBytes(0, 0, 0, 8);
    TwoBytes(0, 0, 13, 0);
  }

  /** RST_STREAM: the two versions differ in the order of the last two fields. */
  lemma RstStreamVector(h: Header, room: nat)
    ensures var f := RstStream(0x01020304, 0x05060708, 0x0807060504030201);
            && FrameBytes(Other, h, f, false, room) == Some([0x01, 1, 2, 3, 4, 8, 7, 6, 5, 4, 3, 2, 1, 5, 6, 7, 8])
            && FrameBytes(V41, h, f, false, room) == Some([0x01, 1, 2, 3, 4, 5, 6, 7, 8, 8, 7, 6, 5, 4, 3, 2, 1])
  {
    hide BigEndian;
    SampleFields();
    var f := RstStream(0x01020304, 0x05060708, 0x0807060504030201);
    assert RstStreamBytes(Other, f) == [0x01, 1, 2, 3, 4, 8, 7, 6, 5, 4, 3, 2, 1, 5, 6, 7, 8];
    assert RstStreamBytes(V41, f) == [0x01, 1, 2, 3, 4, 5, 6, 7, 8, 8, 7, 6, 5, 4, 3, 2, 1];
  }

  /** CONNECTION_CLOSE and GOAWAY. */
  lemma TextVectors(v: Version, h: Header, room: nat)
    ensures FrameBytes(v, h, ConnectionClose(0x05060708, Reason), false, room)
            == Some([0x02, 5, 6, 7, 8, 0, 13] + Reason)
    ensures FrameBytes(v, h, GoAway(0x05060708, 0x01020304, Reason), false, room)
            == Some([0x03, 5, 6, 7, 8, 1, 2, 3, 4, 0, 13] + Reason)
  {
    hide BigEndian;
    SampleFields();
    assert PrefixedString(Truncated(Reason)) == [0, 13] + Reason;
    assert [0x02] + ([5, 6, 7, 8] + ([0, 13] + Reason)) == [0x02, 5, 6, 7, 8, 0, 13] + Reason;
    assert [0x03] + ([5, 6, 7, 8] + ([1, 2, 3, 4] + ([0, 13] + Reason)))
           == [0x03, 5, 6, 7, 8, 1, 2, 3, 4, 0, 13] + Reason;
  }

  /** The frames of fixed size. */
  lemma FixedVectors(v: Version, room: nat)
    ensures var h := Header(0x12345678, 4);
            && FrameBytes(v, h, WindowUpdate(0x01020304, 0x1122334455667788), false, room)
               == Some([0x04, 1, 2, 3, 4, 0x11, 0x22, 0x33, 0x44, 0x55, 0x66, 0x77, 0x88])
            && FrameBytes(v, h, Blocked(0x01020304), false, room) == Some([0x05, 1, 2, 3, 4])
            && FrameBytes(v, h, StopWaiting(0x12345670), false, room) == Some([0x06, 0, 0, 0, 8])
            && FrameBytes(v, h, Ping, false, room) == Some([0x07])
            && FrameBytes(v, h, MtuDiscovery, false, room) == Some([0x07])
  {
    hide BigEndian;
    SampleFields();
    Pow256Values();
    assert [0x04] + ([1, 2, 3, 4] + [0x11, 0x22, 0x33, 0x44, 0x55, 0x66, 0x77, 0x88])
           == [0x04, 1, 2, 3, 4, 0x11, 0x22, 0x33, 0x44, 0x55, 0x66, 0x77, 0x88];
    assert [0x05] + [1, 2, 3, 4] == [0x05, 1, 2, 3, 4] && [0x06] + [0, 0, 0, 8] == [0x06, 0, 0, 0, 8];
  }

  lemma StreamShape(t: byte, data: seq<byte>)
    ensures [t] + ([1, 2, 3, 4] + ([0x3A, 0x98, 0xFE, 0xDC, 0x32, 0x10, 0x76, 0x54] + data))
            == [t, 1, 2, 3, 4, 0x3A, 0x98, 0xFE, 0xDC, 0x32, 0x10, 0x76, 0x54] + data
  {
  }

  /** STREAM, last in its packet and not. */
  lemma StreamVectors(h: Header, room: nat)
    ensures var f := Stream(0x01020304, true, 0x3A98FEDC32107654, Hello);
            && FrameBytes(Other, h, f, true, room)
               == Some([0xDF, 1, 2, 3, 4, 0x3A, 0x98, 0xFE, 0xDC, 0x32, 0x10, 0x76, 0x54] + Hello)
            && FrameBytes(Other, h, f, false, room)
               == Some([0xFF, 1, 2, 3, 4, 0x3A, 0x98, 0xFE, 0xDC, 0x32, 0x10, 0x76, 0x54] + ([0, 12] + Hello))
            && FrameBytes(V41, h, f, true, room)
               == Some([0xFE, 1, 2, 3, 4, 0x3A, 0x98, 0xFE, 0xDC, 0x32, 0x10, 0x76, 0x54] + Hello)
            && FrameBytes(V41, h, f, false, room)
               == Some([0xFF, 1, 2, 3, 4, 0x3A, 0x98, 0xFE, 0xDC, 0x32, 0x10, 0x76, 0x54] + ([0, 12] + Hello))
  {
    hide BigEndian;
    SampleFields();
    TwoBytes(0, 0, 12, 0);
    assert PrefixedString(Hello) == [0, 12] + Hello;
    StreamShape(0xDF, Hello);
    StreamShape(0xFE, Hello);
    StreamShape(0xFF, [0, 12] + Hello);
  }

  /** Packets 1 to 4, 10 to 499, 900 to 4658 and 4660. */
  function FourIntervals(): (s: PacketNumberQueue)
    ensures s == [Interval(1, 5), Interval(10, 500), Interval(900, 0x1233), Interval(0x1234, 0x1235)]
  {
    var s := [Interval(1, 5), Interval(10, 500), Interval(900, 0x1233), Interval(0x1234, 0x1235)];
    assert s[..1] == [Interval(1, 5)] && Separated(s[..1]);
    assert s[..2] == [Interval(1, 5), Interval(10, 500)] && s[..2][..1] == s[..1] && Separated(s[..2]);
    assert s[..3] == [Interval(1, 5), Interval(10, 500), Interval(900, 0x1233)] && s[..3][..2] == s[..2] && Separated(s[..3]);
    s
  }

  lemma FourIntervalsBlocks()
    ensures Info(FourIntervals()) == AckInfo(0xEAF, 1, 4)
    ensures AllBlocks(Init(FourIntervals()), 0x1234) == [Block(1, 0xEAF), Block(255, 0), Block(0x91, 0x1EA), Block(5, 4)]
  {
    var one: PacketNumberQueue := [Interval(1, 5)];
    var two: PacketNumberQueue := Init(Init(FourIntervals()));
    assert two == [Interval(1, 5), Interval(10, 500)] && Init(two) == one;
    assert AllBlocks(one, 10) == [Block(5, 4)];
    assert AllBlocks(two, 900) == GapBlocks(400, 490) + AllBlocks(one, 10);
    assert GapBlocks(400, 490) == [Block(255, 0), Block(0x91, 0x1EA)];
  }

  const FourBlocks: seq<byte> := [0x01, 0x0E, 0xAF, 0xFF, 0, 0, 0x91, 0x01, 0xEA, 0x05, 0, 0x04]

  lemma FourBlockBytes()
    ensures BlockBytes(2, [Block(1, 0xEAF), Block(255, 0), Block(0x91, 0x1EA), Block(5, 4)])
            == FourBlocks
  {
    hide BigEndian;
    TwoBytes(0, 0x0E, 0xAF, 0);
    TwoBytes(0, 0, 0, 0);
    TwoBytes(0, 0x01, 0xEA, 0);
    TwoBytes(0, 0, 0x04, 0);
    var bs := [Block(1, 0xEAF), Block(255, 0), Block(0x91, 0x1EA), Block(5, 4)];
    assert bs[1..] == [Block(255, 0), Block(0x91, 0x1EA), Block(5, 4)];
    assert bs[1..][1..] == [Block(0x91, 0x1EA), Block(5, 4)];
    assert bs[1..][1..][1..] == [Block(5, 4)];
    assert BlockBytes(2, [Block(5, 4)]) == [0x05, 0, 0x04];
  }

  const FourAcked := AckFrame(0x1234, Micros(0), FourIntervals())

  lemma FourLayout(v: Version, room: nat)
    requires room >= 21
    ensures var l := LayoutFor(v, FourAcked, room);
            l.info == AckInfo(0xEAF, 1, 4) && l.largestWidth == 2 && l.blockWidth == 2 && l.count == 4
    ensures ChosenBlocks(FourAcked, 4) == [Block(1, 0xEAF), Block(255, 0), Block(0x91, 0x1EA), Block(5, 4)]
    ensures DelayWord(Micros(0)) == 0
  {
    hide Info, AllBlocks;
    FourIntervalsBlocks();
    assert room - 9 >= 12 && (room - 9) / 3 >= 4;
  }

  lemma FourHead(v: Version, l: Layout)
    requires l.info == AckInfo(0xEAF, 1, 4) && l.largestWidth == 2 && l.blockWidth == 2 && l.count == 4
    ensures TypeByte(v, l) == if v.V41? then 0xB5 else 0x65
    ensures HeadBytes(v, FourAcked, l)
            == if v.V41? then [4, 0, 0x12, 0x34, 0, 0] else [0x12, 0x34, 0, 0, 4]
  {
    hide BigEndian;
    TwoBytes(0, 0x12, 0x34, 0);
    TwoBytes(0, 0, 0, 0);
    assert DelayWord(Micros(0)) == 0;
    assert BigEndian(2, 0x1234) + BigEndian(2, 0) == [0x12, 0x34, 0, 0];
  }

  lemma Flatten(blocks: seq<byte>)
    ensures [0x65] + ([0x12, 0x34, 0, 0, 4] + ([0, 1] + (blocks + [0]))) == [0x65, 0x12, 0x34, 0, 0, 4, 0, 1] + blocks + [0]
    ensures [0xB5] + ([4, 0, 0x12, 0x34, 0, 0] + ([0, 1] + (blocks + []))) == [0xB5, 4, 0, 0x12, 0x34, 0, 0, 0, 1] + blocks
  {
  }

  /** ACK, with room for all four blocks. */
  lemma AckVectors(v: Version, room: nat)
    requires room >= 21
    ensures AckBytes(v, FourAcked, room)
            == if v.V41? then [0xB5, 4, 0, 0x12, 0x34, 0, 0, 0, 1] + FourBlocks
               else [0x65, 0x12, 0x34, 0, 0, 4, 0, 1] + FourBlocks + [0]
  {
    hide BigEndian, BlockBytes, LayoutFor, ChosenBlocks, TypeByte, HeadBytes;
    FourLayout(v, room);
    FourHead(v, LayoutFor(v, FourAcked, room));
    FourBlockBytes();
    Flatten(FourBlocks);
    TwoBytes(0, 0, 1, 0);
    assert BigEndian(2, 1) == [0, 1];
  }

  lemma VarIntVectors()
    ensures VarIntBytes(0) == [0] && VarIntBytes(3) == [3] && VarIntBytes(4) == [4]
    ensures VarIntBytes(0x1234) == [0x52, 0x34] && VarIntBytes(0xEAE) == [0x4E, 0xAE]
    ensures VarIntBytes(0x18F) == [0x41, 0x8F] && VarIntBytes(0x1E9) == [0x41, 0xE9]
  {
    hide BigEndian;
    OneMore(0, 0, 0);
    OneMore(0, 0, 3);
    OneMore(0, 0, 4);
    TwoBytes(0, 0x12, 0x34, 0);
    TwoBytes(0, 0x0E, 0xAE, 0);
    TwoBytes(0, 0x01, 0x8F, 0);
    TwoBytes(0, 0x01, 0xE9, 0);
  }

  lemma IetfPairsVector()
    ensures PairBytes(Init(FourIntervals()), 0x1234) == [0, 0x4E, 0xAE, 0x41, 0x8F, 0x41, 0xE9, 4, 3]
  {
    hide VarIntBytes;
    VarIntVectors();
    var one: PacketNumberQueue := [Interval(1, 5)];
    var two: PacketNumberQueue := Init(Init(FourIntervals()));
    assert two == [Interval(1, 5), Interval(10, 500)] && Init(two) == one;
    assert PairBytes(one, 10) == [4, 3];
    assert PairBytes(two, 900) == [0x41, 0x8F, 0x41, 0xE9, 4, 3];
  }

  /** The same ACK in its IETF form. */
  lemma IetfAckVector()
    ensures IetfAckBody(FourAcked) == [0x52, 0x34, 0, 3, 0, 0, 0x4E, 0xAE, 0x41, 0x8F, 0x41, 0xE9, 4, 3]
  {
    hide VarIntBytes, PairBytes;
    VarIntVectors();
    IetfPairsVector();
  }
}
