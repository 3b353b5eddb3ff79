/**
 The ACK frame as a value: which blocks describe an interval set, which of them a
 writer with limited room emits, their bytes, and what a reader reports from bytes.
 The methods in `AckFramer` are proved against these functions.
 */
module AckFormat {
  import opened Bytes
  import UFloat16

  /** Transport versions above 38. Version 41 has its own flag layout and 8-byte numbers. */
  datatype Version = V41 | Other

  /** The packet numbers `min`, ..., `max - 1`. */
  datatype Interval = Interval(min: nat, max: nat)

  /** Intervals ascending, non-empty, and separated by at least one missing number. */
  predicate Separated(s: seq<Interval>)
  {
    s == [] ||
    (&& Last(s).min < Last(s).max
     && (|s| > 1 ==> s[|s| - 2].max < Last(s).min)
     && Separated(s[..|s| - 1]))
  }

  type PacketNumberQueue = s: seq<Interval> | Separated(s) witness []

  datatype Delay = Infinite | Micros(us: nat)

  datatype AckFrame = AckFrame(largestAcked: nat, delay: Delay, packets: PacketNumberQueue)

  function Last(s: seq<Interval>): (i: Interval)
    requires s != []
  {
    s[|s| - 1]
  }

  function Init(s: PacketNumberQueue): (r: PacketNumberQueue)
    requires s != []
    ensures |r| == |s| - 1
    ensures r != [] ==> Last(r).max < Last(s).min
  {
    s[..|s| - 1]
  }

  function Length(i: Interval): (n: int)
  {
    i.max - i.min
  }

  /** Unsigned 64-bit arithmetic wraps around. */
  function U64(x: nat): (r: nat)
    ensures r < TWO64 && (x < TWO64 ==> r == x) && (TWO64 <= x < 2 * TWO64 ==> r == x - TWO64)
  {
    x % TWO64
  }

  function Min(a: int, b: int): (r: int) { if a < b then a else b }

  function Max(a: int, b: int): (r: int) { if a < b then b else a }

  // ---------------------------------------------------------------------------
  // Blocks
  // ---------------------------------------------------------------------------

  /** A gap of missing numbers, then `length` acknowledged ones, going down. */
  datatype Block = Block(gap: byte, length: nat)

  /** How many blocks a gap takes when one block can skip at most 255 numbers. */
  function BlocksFor(gap: nat): (n: nat)
  {
    (gap + 254) / 255
  }

  /** One interval below a gap: empty blocks of 255 first, the real block last. */
  function GapBlocks(gap: nat, length: nat): (bs: seq<Block>)
    decreases gap
  {
    if gap <= 255 then [Block(gap, length)] else [Block(255, 0)] + GapBlocks(gap - 255, length)
  }

  /** All blocks of the intervals `rest`, which lie below `start`, top down. */
  function AllBlocks(rest: PacketNumberQueue, start: nat): (bs: seq<Block>)
    requires rest != [] ==> Last(rest).max < start
    decreases |rest|
  {
    if rest == [] then []
    else
      var i := Last(rest);
      GapBlocks(start - i.max, Length(i)) + AllBlocks(Init(rest), i.min)
  }

  /** The counting pass: stops as soon as 255 blocks have been seen. */
  datatype AckInfo = AckInfo(maxBlockLength: nat, firstBlockLength: nat, numAckBlocks: nat)

  function Scan(rest: PacketNumberQueue, start: nat, info: AckInfo): (r: AckInfo)
    requires rest != [] ==> Last(rest).max < start
    decreases |rest|
  {
    if rest == [] || info.numAckBlocks >= 255 then info
    else
      var i := Last(rest);
      Scan(Init(rest), i.min,
           info.(numAckBlocks := info.numAckBlocks + BlocksFor(start - i.max),
                 maxBlockLength := Max(info.maxBlockLength, Length(i))))
  }

  function Info(packets: PacketNumberQueue): (r: AckInfo)
  {
    if packets == [] then AckInfo(0, 0, 0)
    else
      var top := Last(packets);
      Scan(Init(packets), top.min, AckInfo(Length(top), Length(top), 0))
  }

  // ---------------------------------------------------------------------------
  // Widths
  // ---------------------------------------------------------------------------

  /** The narrowest width for a packet number or block length. */
  function MinWidth(v: Version, x: nat): (w: nat)
    ensures w in {1, 2, 4, 6, 8} && (w == 8 ==> v.V41?) && (w == 6 ==> v.Other?)
  {
    if x < 256 then 1 else if x < TWO16 then 2 else if x < TWO32 then 4 else if v.V41? then 8 else 6
  }

  function WidthCode(w: nat): (c: nat)
    ensures c < 4
  {
    if w == 1 then 0 else if w == 2 then 1 else if w == 4 then 2 else 3
  }

  function WidthFromCode(v: Version, c: nat): (w: nat)
    ensures w in {1, 2, 4, 6, 8} && (w == 8 ==> v.V41?)
  {
    if c == 0 then 1 else if c == 1 then 2 else if c == 2 then 4 else if v.V41? then 8 else 6
  }

  /** One past the numbers the widest field of version `v` can carry. */
  function Limit(v: Version): nat { if v.V41? then TWO64 else TWO48 }

  /** The numbers of the frame fit the version's fields, and an interval's `max` fits 64 bits. */
  ghost predicate Representable(v: Version, packets: PacketNumberQueue)
  {
    packets != [] ==>
      && Last(packets).max <= Limit(v)
      && Last(packets).max < TWO64
      && Last(packets).max - packets[0].min < Limit(v)
  }

  /** `largest_acked` is the top packet, or 0 when there is none. */
  ghost predicate Consistent(f: AckFrame)
  {
    f.largestAcked == if f.packets == [] then 0 else Last(f.packets).max - 1
  }

  // ---------------------------------------------------------------------------
  // Writing
  // ---------------------------------------------------------------------------

  function DelayWord(d: Delay): (w: nat)
  {
    match d
    case Infinite => UFloat16.Encode(UFloat16.MAX_VALUE)
    case Micros(us) => UFloat16.Encode(us)
  }

  /** C++ division of the available bytes, truncating toward zero, seen as an unsigned count. */
  function BlocksThatFit(available: int, blockSize: nat): (n: nat)
    requires 0 < blockSize && available + TWO62 > 0
  {
    if available >= 0 then available / blockSize
    else if -available < blockSize then 0
    else TWO64 - (-available) / blockSize
  }

  datatype Layout = Layout(info: AckInfo, largestWidth: nat, blockWidth: nat, available: int, count: nat)

  /** Type byte, largest acked, delay, timestamp count. */
  function MinAckFrameSize(largestWidth: nat): nat { 1 + largestWidth + 2 + 1 }

  /** The widths and the number of blocks chosen for a writer with `room` bytes left. */
  function LayoutFor(v: Version, f: AckFrame, room: nat): (l: Layout)
    ensures l.largestWidth == MinWidth(v, f.largestAcked)
    ensures l.blockWidth == MinWidth(v, l.info.maxBlockLength)
    ensures l.info == Info(f.packets) && l.count <= l.info.numAckBlocks && l.count <= 255
  {
    var info := Info(f.packets);
    var lw := MinWidth(v, f.largestAcked);
    var bw := MinWidth(v, info.maxBlockLength);
    var available := room - bw - MinAckFrameSize(lw) - (if info.numAckBlocks != 0 then 1 else 0);
    var fit := BlocksThatFit(available, bw + 1);
    Layout(info, lw, bw, available, Min(Min(info.numAckBlocks, fit), 255))
  }

  function TypeByte(v: Version, l: Layout): (t: byte)
  {
    var flags := 4 * WidthCode(l.largestWidth) + WidthCode(l.blockWidth);
    var many := if l.info.numAckBlocks != 0 then 1 else 0;
    if v.V41? then 0xA0 + 16 * many + flags else 0x40 + 32 * many + flags
  }

  function OneBlock(width: nat, b: Block): (s: seq<byte>)
    ensures |s| == 1 + width
  {
    [b.gap] + BigEndian(width, b.length)
  }

  function BlockBytes(width: nat, bs: seq<Block>): (s: seq<byte>)
  {
    if bs == [] then [] else OneBlock(width, bs[0]) + BlockBytes(width, bs[1..])
  }

  /** The blocks a frame's layout asks for: the first `count` of all its blocks. */
  ghost function ChosenBlocks(f: AckFrame, count: nat): (bs: seq<Block>)
  {
    if f.packets == [] then []
    else
      var all := AllBlocks(Init(f.packets), Last(f.packets).min);
      if count <= |all| then all[..count] else all
  }

  function CountByte(count: nat): (s: seq<byte>)
    requires count < 256
  {
    if count > 0 then [count] else []
  }

  /** Everything between the type byte and the first block length. */
  function HeadBytes(v: Version, f: AckFrame, l: Layout): (s: seq<byte>)
    requires l.count < 256
  {
    var numbers := BigEndian(l.largestWidth, f.largestAcked) + BigEndian(2, DelayWord(f.delay));
    if v.V41? then CountByte(l.count) + ([0] + numbers) else numbers + CountByte(l.count)
  }

  function TailBytes(v: Version): (s: seq<byte>) { if v.V41? then [] else [0] }

  /** The whole frame, type byte first. */
  ghost function AckBytes(v: Version, f: AckFrame, room: nat): (s: seq<byte>)
  {
    var l := LayoutFor(v, f, room);
    [TypeByte(v, l)] + (HeadBytes(v, f, l)
                        + (BigEndian(l.blockWidth, l.info.firstBlockLength)
                           + (BlockBytes(l.blockWidth, ChosenBlocks(f, l.count)) + TailBytes(v))))
  }

  // ---------------------------------------------------------------------------
  // Reading
  // ---------------------------------------------------------------------------

  /** One `OnAckRange(start, end, last_range)` callback. */
  datatype Range = Range(start: nat, end: nat, last: bool)

  /** Callbacks made so far, whether parsing went on to the end, and the bytes left. */
  datatype RangesResult = RangesResult(ok: bool, ranges: seq<Range>, rest: seq<byte>)

  function Prepend(r: seq<Range>, p: RangesResult): (q: RangesResult)
    ensures q.ok == p.ok && q.ranges == r + p.ranges && q.rest == p.rest
  {
    RangesResult(p.ok, r + p.ranges, p.rest)
  }

  /** `count` gap/length pairs below `first`, in wrapping 64-bit arithmetic. */
  function ParseBlocks(count: nat, width: nat, first: nat, s: seq<byte>): (p: RangesResult)
    decreases count
  {
    if count == 0 then RangesResult(true, [], s)
    else if |s| < 1 + width then RangesResult(false, [], [])
    else
      var length := FromBigEndian(s[1..1 + width]);
      var step := U64(s[0] + length);
      if first < step then RangesResult(false, [], [])
      else
        var start := first - step;
        var reported := if length > 0 then [Range(start, U64(start + length), count == 1)] else [];
        Prepend(reported, ParseBlocks(count - 1, width, start, s[1 + width..]))
  }

  /** From the first block length on: the first range, the blocks, the timestamps. */
  function ParseRanges(v: Version, many: bool, count: nat, width: nat, largest: nat, timestamps: nat,
                       s: seq<byte>): (p: RangesResult)
  {
    if |s| < width then RangesResult(false, [], [])
    else
      var length := FromBigEndian(s[..width]);
      var end := U64(largest + 1);
      if (length == 0 && (largest != 0 || count != 0)) || length > end then RangesResult(false, [], [])
      else
        var blocks := ParseBlocks(count, width, end - length, s[width..]);
        Prepend([Range(end - length, end, !many)],
                if blocks.ok then ParseTail(v, timestamps, blocks) else blocks)
  }

  /** The timestamp count (already read in version 41) and the timestamps, which are skipped. */
  function ParseTail(v: Version, timestamps: nat, p: RangesResult): (q: RangesResult)
    ensures q.ranges == p.ranges
  {
    if v.Other? && p.rest == [] then RangesResult(false, p.ranges, [])
    else
      var n := if v.Other? then p.rest[0] else timestamps;
      var rest := if v.Other? then p.rest[1..] else p.rest;
      var size := if n == 0 then 0 else 5 + 3 * (n - 1);
      if |rest| < size then RangesResult(false, p.ranges, []) else RangesResult(true, p.ranges, rest[size..])
  }

  /** `started` holds the `OnAckFrameStart` callback, once it has been made. */
  datatype Started = NotStarted | AckStart(largest: nat, delay: Delay)

  datatype AckResult = AckResult(started: Started, parsed: RangesResult)

  const Rejected := AckResult(NotStarted, RangesResult(false, [], []))

  function DelayOf(w: nat): (d: Delay)
    requires w < TWO16
  {
    var us := UFloat16.Decode(w);
    if us == UFloat16.MAX_VALUE then Infinite else Micros(us)
  }

  function HasBlocks(v: Version, typeByte: byte): bool
  {
    (typeByte / (if v.V41? then 16 else 32)) % 2 == 1
  }

  /** `ProcessAckFrame` on the bytes after the type byte, with a visitor that never stops it. */
  function ParseAck(v: Version, typeByte: byte, s: seq<byte>): (r: AckResult)
  {
    var many := HasBlocks(v, typeByte);
    var lw := WidthFromCode(v, typeByte / 4 % 4);
    var bw := WidthFromCode(v, typeByte % 4);
    if v.V41? then
      var skip := if many then 2 else 1;
      if |s| < skip + lw + 2 then Rejected
      else
        ParseBody(v, many, if many then s[0] else 0, s[skip - 1], lw, bw, s[skip..])
    else if |s| < lw + 2 then Rejected
    else ParseBody(v, many, 0, 0, lw, bw, s)
  }

  /** After the delay. Only the other versions read the block count here. */
  function ParseCounted(v: Version, many: bool, count: nat, timestamps: nat, bw: nat, largest: nat,
                        s: seq<byte>): (p: RangesResult)
  {
    if v.Other? && many then
      if s == [] then RangesResult(false, [], [])
      else ParseRanges(v, many, s[0], bw, largest, timestamps, s[1..])
    else ParseRanges(v, many, count, bw, largest, timestamps, s)
  }

  /** From the largest acked number on. */
  function ParseBody(v: Version, many: bool, count: nat, timestamps: nat, lw: nat, bw: nat,
                     s: seq<byte>): (r: AckResult)
    requires |s| >= lw + 2
  {
    Pow256Values();
    var largest := FromBigEndian(s[..lw]);
    AckResult(AckStart(largest, DelayOf(FromBigEndian(s[lw..lw + 2]))),
              ParseCounted(v, many, count, timestamps, bw, largest, s[lw + 2..]))
  }

  // ---------------------------------------------------------------------------
  // How much reading uses up
  // ---------------------------------------------------------------------------

  lemma {:induction false} BlocksConsume(count: nat, width: nat, first: nat, s: seq<byte>)
    ensures ParseBlocks(count, width, first, s).ok ==> |ParseBlocks(count, width, first, s).rest| <= |s|
    decreases count
  {
    if count > 0 && |s| >= 1 + width {
      var step := U64(s[0] + FromBigEndian(s[1..1 + width]));
      if step <= first {
        BlocksConsume(count - 1, width, first - step, s[1 + width..]);
      }
    }
  }

  lemma RangesConsume(v: Version, many: bool, count: nat, width: nat, largest: nat, timestamps: nat, s: seq<byte>)
    ensures var r := ParseRanges(v, many, count, width, largest, timestamps, s);
            r.ok ==> |r.rest| + width + |TailBytes(v)| <= |s|
  {
    if |s| >= width {
      var length, end := FromBigEndian(s[..width]), U64(largest + 1);
      if length <= end {
        BlocksConsume(count, width, end - length, s[width..]);
      }
    }
  }

  /** An accepted frame uses up its fixed fields, and one byte more if it announces blocks. */
  lemma AckConsumes(v: Version, t: byte, s: seq<byte>)
    ensures var lw, bw := WidthFromCode(v, t / 4 % 4), WidthFromCode(v, t % 4);
            ParseAck(v, t, s).parsed.ok ==>
              |ParseAck(v, t, s).parsed.rest| + lw + bw + 3 + (if HasBlocks(v, t) then 1 else 0) <= |s|
  {
    hide ParseRanges, FromBigEndian, DelayOf, Pow256;
    var many, lw, bw := HasBlocks(v, t), WidthFromCode(v, t / 4 % 4), WidthFromCode(v, t % 4);
    var skip := if v.Other? then 0 else if many then 2 else 1;
    if |s| >= skip + lw + 2 {
      var body := s[skip..];
      var largest, rest := FromBigEndian(body[..lw]), body[lw + 2..];
      if v.V41? {
        RangesConsume(v, many, if many then s[0] else 0, bw, largest, s[skip - 1], rest);
      } else if !many {
        RangesConsume(v, many, 0, bw, largest, 0, rest);
      } else if rest != [] {
        RangesConsume(v, many, rest[0], bw, largest, 0, rest[1..]);
      }
    }
  }
}
