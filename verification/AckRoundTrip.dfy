/**
 What the ACK reader reports from the ACK writer's bytes, for every interval set,
 every amount of room and everything that may follow the frame.
 */
module AckRoundTrip {
  import opened Bytes
  import opened AckFormat
  import UFloat16

  // ---------------------------------------------------------------------------
  // The counting pass and the writing pass agree
  // ---------------------------------------------------------------------------

  lemma {:induction false} GapBlocksCount(gap: nat, length: nat)
    requires gap > 0
    ensures |GapBlocks(gap, length)| == BlocksFor(gap)
    decreases gap
  {
    if gap > 255 {
      GapBlocksCount(gap - 255, length);
    }
  }

  lemma {:induction false} GapBlocksLengths(gap: nat, length: nat, max: nat)
    requires length <= max
    ensures forall b | b in GapBlocks(gap, length) :: b.length <= max
    decreases gap
  {
    if gap > 255 {
      GapBlocksLengths(gap - 255, length, max);
    }
  }

  /** From any point of the scan on: the count never exceeds the blocks there are, falls short of
      them only once 255 have been counted, and the maximum bounds every length counted. */
  lemma {:induction false} ScanCoversBlocks(rest: PacketNumberQueue, start: nat, info: AckInfo)
    requires rest != [] ==> Last(rest).max < start
    ensures var r := Scan(rest, start, info); var all := AllBlocks(rest, start);
            && 0 <= r.numAckBlocks - info.numAckBlocks <= |all|
            && (r.numAckBlocks >= 255 || r.numAckBlocks - info.numAckBlocks == |all|)
            && r.maxBlockLength >= info.maxBlockLength
            && r.firstBlockLength == info.firstBlockLength
            && forall k | 0 <= k < r.numAckBlocks - info.numAckBlocks :: all[k].length <= r.maxBlockLength
    decreases |rest|
  {
    if rest != [] && info.numAckBlocks < 255 {
      var i := Last(rest);
      var gap := start - i.max;
      var next := info.(numAckBlocks := info.numAckBlocks + BlocksFor(gap),
                        maxBlockLength := Max(info.maxBlockLength, Length(i)));
      ScanCoversBlocks(Init(rest), i.min, next);
      GapBlocksCount(gap, Length(i));
      GapBlocksLengths(gap, Length(i), Scan(rest, start, info).maxBlockLength);
    }
  }

  /** The counting pass, although it stops early, always finds at least as many blocks as the writer
      may be asked for, and every length the writer emits fits the width chosen from its maximum. */
  lemma CountingAgreesWithWriting(v: Version, f: AckFrame, room: nat)
    requires Representable(v, f.packets)
    ensures var l := LayoutFor(v, f, room); var bs := ChosenBlocks(f, l.count);
            && |bs| == l.count
            && l.info.firstBlockLength < Pow256(l.blockWidth)
            && LengthsFit(bs, l.blockWidth)
            && (l.info.numAckBlocks == 0 <==> |f.packets| <= 1)
  {
    if f.packets != [] {
      var top := Last(f.packets);
      var l := LayoutFor(v, f, room);
      ScanCoversBlocks(Init(f.packets), top.min, AckInfo(Length(top), Length(top), 0));
      LowestFirst(f.packets);
      ScanBounded(Init(f.packets), top.min, AckInfo(Length(top), Length(top), 0), f.packets[0].min, Limit(v));
      WidthHolds(v, l.info.maxBlockLength);
      if |f.packets| > 1 {
        GapBlocksCount(top.min - Last(Init(f.packets)).max, Length(Last(Init(f.packets))));
        ScanPositive(Init(f.packets), top.min, AckInfo(Length(top), Length(top), 0));
      }
    } else {
      assert Pow256(1) == 256;
    }
  }

  lemma {:induction false} LowestFirst(s: PacketNumberQueue)
    requires s != []
    ensures s[0].min <= Last(s).min
    ensures |s| > 1 ==> s[0].min <= Last(Init(s)).min
    decreases |s|
  {
    if |s| > 1 {
      LowestFirst(Init(s));
    }
  }

  lemma {:induction false} ScanBounded(rest: PacketNumberQueue, start: nat, info: AckInfo, low: nat, bound: nat)
    requires rest != [] ==> Last(rest).max < start && low == rest[0].min
    requires info.maxBlockLength < bound && start - low < bound
    ensures Scan(rest, start, info).maxBlockLength < bound
    decreases |rest|
  {
    if rest != [] && info.numAckBlocks < 255 {
      var i := Last(rest);
      LowestFirst(rest);
      ScanBounded(Init(rest), i.min,
                  info.(numAckBlocks := info.numAckBlocks + BlocksFor(start - i.max),
                        maxBlockLength := Max(info.maxBlockLength, Length(i))), low, bound);
    }
  }

  lemma ScanPositive(rest: PacketNumberQueue, start: nat, info: AckInfo)
    requires rest != [] && Last(rest).max < start && info.numAckBlocks == 0
    ensures Scan(rest, start, info).numAckBlocks > 0
  {
    var i := Last(rest);
    ScanCoversBlocks(Init(rest), i.min,
                     info.(numAckBlocks := BlocksFor(start - i.max),
                           maxBlockLength := Max(info.maxBlockLength, Length(i))));
  }

  /** The width chosen is the narrowest of the version's that holds the number. */
  lemma WidthHolds(v: Version, x: nat)
    requires x < Limit(v)
    ensures x < Pow256(MinWidth(v, x))
    ensures forall w | w in {1, 2, 4, if v.V41? then 8 else 6} && w < MinWidth(v, x) :: Pow256(w) <= x
  {
    Pow256Values();
  }

  // ---------------------------------------------------------------------------
  // Reading what was written
  // ---------------------------------------------------------------------------

  /** The intervals below `start` that `n` blocks describe completely, top down. A range is the
      last one when its real block is the last of the `n`; a trailing empty block leaves none. */
  function ReportedRanges(rest: PacketNumberQueue, start: nat, n: nat): (rs: seq<Range>)
    requires rest != [] ==> Last(rest).max < start
    decreases |rest|
  {
    if rest == [] || n < BlocksFor(start - Last(rest).max) then []
    else
      var i := Last(rest);
      var c := BlocksFor(start - i.max);
      [Range(i.min, i.max, n == c)] + ReportedRanges(Init(rest), i.min, n - c)
  }

  /** One block at the front of the input. */
  lemma ParseOneBlock(b: Block, count: nat, width: nat, first: nat, rest: seq<byte>)
    requires count > 0 && b.length < Pow256(width) && b.gap + b.length <= first < TWO64
    ensures var start := first - (b.gap + b.length);
            ParseBlocks(count, width, first, OneBlock(width, b) + rest)
            == Prepend(if b.length > 0 then [Range(start, start + b.length, count == 1)] else [],
                       ParseBlocks(count - 1, width, start, rest))
  {
    hide U64, BigEndian, FromBigEndian, Pow256;
    BigEndianExact(width, b.length);
    var s := OneBlock(width, b) + rest;
    assert s[1..1 + width] == BigEndian(width, b.length);
    assert s[1 + width..] == rest;
  }

  /** What a block list says, going down from `first`. */
  function Walk(bs: seq<Block>, first: nat): (rs: seq<Range>)
    requires Descends(bs, first)
    decreases |bs|
  {
    if bs == [] then []
    else
      var start := first - (bs[0].gap + bs[0].length);
      (if bs[0].length > 0 then [Range(start, start + bs[0].length, |bs| == 1)] else []) + Walk(bs[1..], start)
  }

  /** The blocks never go below zero. */
  predicate Descends(bs: seq<Block>, first: nat)
    decreases |bs|
  {
    bs == [] || (bs[0].gap + bs[0].length <= first && Descends(bs[1..], first - (bs[0].gap + bs[0].length)))
  }

  ghost predicate LengthsFit(bs: seq<Block>, width: nat)
  {
    forall b | b in bs :: b.length < Pow256(width)
  }

  lemma WalkStep(bs: seq<Block>, first: nat)
    requires bs != [] && Descends(bs, first)
    ensures var start := first - (bs[0].gap + bs[0].length);
            Walk(bs, first)
            == (if bs[0].length > 0 then [Range(start, start + bs[0].length, |bs| == 1)] else []) + Walk(bs[1..], start)
  {
  }

  lemma BlockBytesStep(width: nat, bs: seq<Block>, tail: seq<byte>)
    requires bs != []
    ensures BlockBytes(width, bs) + tail == OneBlock(width, bs[0]) + (BlockBytes(width, bs[1..]) + tail)
  {
  }

  /** The reader reads the bytes of a block list as that list. */
  lemma {:induction false} ParseBlockBytes(bs: seq<Block>, width: nat, first: nat, tail: seq<byte>)
    requires Descends(bs, first) && first < TWO64 && LengthsFit(bs, width)
    ensures ParseBlocks(|bs|, width, first, BlockBytes(width, bs) + tail) == RangesResult(true, Walk(bs, first), tail)
    decreases |bs|
  {
    hide ParseBlocks, OneBlock, BlockBytes, Pow256, Walk;
    if bs == [] {
      NoBlockBytes(width, first, tail);
    } else {
      assert bs[0] in bs;
      var start := first - (bs[0].gap + bs[0].length);
      ParseBlockBytes(bs[1..], width, start, tail);
      ParseOneBlock(bs[0], |bs|, width, first, BlockBytes(width, bs[1..]) + tail);
      BlockBytesStep(width, bs, tail);
      WalkStep(bs, first);
    }
  }

  lemma NoBlockBytes(width: nat, first: nat, tail: seq<byte>)
    ensures ParseBlocks(0, width, first, BlockBytes(width, []) + tail) == RangesResult(true, Walk([], first), tail)
  {
    assert BlockBytes(width, []) + tail == tail;
  }

  /** The leading blocks of one interval and of what follows it. */
  function LeadingBlocks(gap: nat, length: nat, more: seq<Block>, count: nat): (bs: seq<Block>)
    requires 0 < gap && count <= BlocksFor(gap) + |more|
    ensures |bs| == count
  {
    GapBlocksCount(gap, length);
    (GapBlocks(gap, length) + more)[..count]
  }

  lemma NoLeadingBlocks(gap: nat, length: nat, more: seq<Block>, first: nat)
    requires 0 < gap
    ensures BlocksFor(gap) > 0
    ensures var bs := LeadingBlocks(gap, length, more, 0); Descends(bs, first) && Walk(bs, first) == []
  {
  }

  lemma LeadingBlocksStep(gap: nat, length: nat, more: seq<Block>, count: nat)
    requires 0 < gap && 0 < count <= BlocksFor(gap) + |more|
    ensures gap > 255 ==> BlocksFor(gap) == 1 + BlocksFor(gap - 255)
                          && LeadingBlocks(gap, length, more, count)
                             == [Block(255, 0)] + LeadingBlocks(gap - 255, length, more, count - 1)
    ensures gap <= 255 ==> BlocksFor(gap) == 1
                           && LeadingBlocks(gap, length, more, count) == [Block(gap, length)] + more[..count - 1]
  {
    GapBlocksCount(gap, length);
    if gap > 255 {
      GapBlocksCount(gap - 255, length);
    }
  }

  lemma WalkCons(b: Block, bs: seq<Block>, first: nat)
    requires b.gap + b.length <= first && Descends(bs, first - (b.gap + b.length))
    ensures Descends([b] + bs, first)
    ensures var start := first - (b.gap + b.length);
            Walk([b] + bs, first)
            == (if b.length > 0 then [Range(start, start + b.length, bs == [])] else []) + Walk(bs, start)
  {
    assert ([b] + bs)[1..] == bs;
  }

  /** The blocks of one interval: empty blocks report nothing, the real one reports the interval. */
  lemma {:induction false} WalkGapBlocks(i: Interval, more: seq<Block>, count: nat, first: nat)
    requires i.min < i.max < first
    requires count <= BlocksFor(first - i.max) + |more|
    requires count >= BlocksFor(first - i.max) ==> Descends(more[..count - BlocksFor(first - i.max)], i.min)
    ensures var bs := LeadingBlocks(first - i.max, Length(i), more, count); var c := BlocksFor(first - i.max);
            && Descends(bs, first)
            && Walk(bs, first)
               == if count < c then [] else [Range(i.min, i.max, count == c)] + Walk(more[..count - c], i.min)
    decreases first
  {
    hide BlocksFor, LeadingBlocks, Walk, Descends;
    if count == 0 {
      NoLeadingBlocks(first - i.max, Length(i), more, first);
    } else {
      var gap := first - i.max;
      LeadingBlocksStep(gap, Length(i), more, count);
      if gap <= 255 {
        WalkCons(Block(gap, Length(i)), more[..count - 1], first);
      } else {
        WalkGapBlocks(i, more, count - 1, first - 255);
        WalkCons(Block(255, 0), LeadingBlocks(gap - 255, Length(i), more, count - 1), first);
      }
    }
  }

  /** Any number of leading blocks of an interval list reports exactly the intervals they complete. */
  lemma {:induction false} WalkIntervals(rest: PacketNumberQueue, start: nat, count: nat)
    requires rest != [] ==> Last(rest).max < start
    requires count <= |AllBlocks(rest, start)|
    ensures Descends(AllBlocks(rest, start)[..count], start)
    ensures Walk(AllBlocks(rest, start)[..count], start) == ReportedRanges(rest, start, count)
    decreases |rest|
  {
    if rest != [] {
      var i := Last(rest);
      var c := BlocksFor(start - i.max);
      GapBlocksCount(start - i.max, Length(i));
      if count >= c {
        WalkIntervals(Init(rest), i.min, count - c);
      }
      WalkGapBlocks(i, AllBlocks(Init(rest), i.min), count, start);
    }
  }

  /** The ranges the reader reports for frame `f` written with `count` blocks. */
  function FrameRanges(f: AckFrame, count: nat): (rs: seq<Range>)
  {
    if f.packets == [] then [Range(1, 1, true)]
    else
      var top := Last(f.packets);
      [Range(top.min, top.max, |f.packets| == 1)] + ReportedRanges(Init(f.packets), top.min, count)
  }

  /** What is left of a delay after its journey as a 16-bit float: all of it below 4096 microseconds, all but
      one part in 2048 below the largest float, and nothing but infinity from there on. */
  function DelayRead(d: Delay): (r: Delay)
    ensures d.Infinite? || d.us >= 0x3FFC0000000 ==> r == Infinite
    ensures d.Micros? && d.us < 0x3FFC0000000 ==>
              r.Micros? && r.us <= d.us && 2048 * (d.us - r.us) <= d.us && (d.us < 4096 ==> r.us == d.us)
  {
    if d.Infinite? || d.us >= UFloat16.MAX_VALUE then Infinite else Micros(UFloat16.RoundedDown(d.us))
  }

  /** The word written is read as that. */
  lemma DelayReadsBack(d: Delay)
    ensures DelayWord(d) < TWO16 && DelayOf(DelayWord(d)) == DelayRead(d)
  {
    UFloat16.EncodeThenDecode(if d.Infinite? then UFloat16.MAX_VALUE else d.us);
  }

  lemma WidthCodeReadsBack(v: Version, w: nat)
    requires w in {1, 2, 4, 6, 8} && (w == 8 ==> v.V41?) && (w == 6 ==> v.Other?)
    ensures WidthFromCode(v, WidthCode(w)) == w
  {
  }

  /** Three flag fields of a byte `base + unit * many + 4 * a + b`. */
  lemma AckFlagFields(base: nat, unit: nat, many: nat, a: nat, b: nat)
    requires (base == 0xA0 && unit == 16) || (base == 0x40 && unit == 32)
    requires many < 2 && a < 4 && b < 4
    ensures var t := base + unit * many + 4 * a + b; t / 4 % 4 == a && t % 4 == b && t / unit % 2 == many
  {
    var t := base + unit * many + 4 * a + b;
    if unit == 16 {
      assert t / 4 == 40 + 4 * many + a && t / 16 == 10 + many;
    } else {
      assert t / 4 == 16 + 8 * many + a && t / 32 == 2 + many;
    }
  }

  /** The flag byte gives back the widths and whether there are blocks. */
  lemma TypeByteRoundTrip(v: Version, l: Layout)
    requires l.largestWidth in {1, 2, 4, 6, 8} && (l.largestWidth == 8 ==> v.V41?) && (l.largestWidth == 6 ==> v.Other?)
    requires l.blockWidth in {1, 2, 4, 6, 8} && (l.blockWidth == 8 ==> v.V41?) && (l.blockWidth == 6 ==> v.Other?)
    ensures var t := TypeByte(v, l);
            && WidthFromCode(v, t / 4 % 4) == l.largestWidth
            && WidthFromCode(v, t % 4) == l.blockWidth
            && HasBlocks(v, t) == (l.info.numAckBlocks != 0)
  {
    WidthCodeReadsBack(v, l.largestWidth);
    WidthCodeReadsBack(v, l.blockWidth);
    AckFlagFields(if v.V41? then 0xA0 else 0x40, if v.V41? then 16 else 32,
                  if l.info.numAckBlocks != 0 then 1 else 0, WidthCode(l.largestWidth), WidthCode(l.blockWidth));
    hide WidthCode, WidthFromCode;
  }

  lemma ParseWrittenTail(v: Version, ranges: seq<Range>, tail: seq<byte>)
    ensures ParseTail(v, 0, RangesResult(true, ranges, TailBytes(v) + tail)) == RangesResult(true, ranges, tail)
  {
    assert v.Other? ==> (TailBytes(v) + tail)[1..] == tail;
    assert TailBytes(Version.V41) + tail == tail;
  }

  /** From the first block length on, for any block list that goes no lower than zero. */
  lemma ParseFirstAndBlocks(v: Version, many: bool, width: nat, largest: nat, length: nat, bs: seq<Block>,
                            tail: seq<byte>)
    requires length <= largest + 1 < TWO64 && length < Pow256(width)
    requires length == 0 ==> largest == 0 && bs == []
    requires Descends(bs, largest + 1 - length) && LengthsFit(bs, width)
    ensures ParseRanges(v, many, |bs|, width, largest, 0,
                        BigEndian(width, length) + (BlockBytes(width, bs) + (TailBytes(v) + tail)))
            == RangesResult(true, [Range(largest + 1 - length, largest + 1, !many)] + Walk(bs, largest + 1 - length),
                            tail)
  {
    hide ParseBlocks, ParseTail, BlockBytes, BigEndian, FromBigEndian, Walk, Descends, TailBytes;
    BigEndianExact(width, length);
    var rest := BlockBytes(width, bs) + (TailBytes(v) + tail);
    var s := BigEndian(width, length) + rest;
    assert s[..width] == BigEndian(width, length) && s[width..] == rest;
    var first := largest + 1 - length;
    ParseBlockBytes(bs, width, first, TailBytes(v) + tail);
    ParseWrittenTail(v, Walk(bs, first), tail);
    assert ParseRanges(v, many, |bs|, width, largest, 0, s)
        == Prepend([Range(first, largest + 1, !many)], ParseTail(v, 0, ParseBlocks(|bs|, width, first, rest)));
  }

  /** The part of a written frame after the head. */
  lemma ParseWrittenRanges(v: Version, f: AckFrame, room: nat, tail: seq<byte>)
    requires Representable(v, f.packets) && Consistent(f)
    ensures var l := LayoutFor(v, f, room);
            ParseRanges(v, l.info.numAckBlocks != 0, l.count, l.blockWidth, f.largestAcked, 0,
                        BigEndian(l.blockWidth, l.info.firstBlockLength)
                        + (BlockBytes(l.blockWidth, ChosenBlocks(f, l.count)) + (TailBytes(v) + tail)))
            == RangesResult(true, FrameRanges(f, l.count), tail)
  {
    var l := LayoutFor(v, f, room);
    var bs := ChosenBlocks(f, l.count);
    hide ParseRanges, BlockBytes, BigEndian, ReportedRanges, AllBlocks, MinWidth;
    CountingAgreesWithWriting(v, f, room);
    if f.packets != [] {
      var top := Last(f.packets);
      ScanCoversBlocks(Init(f.packets), top.min, AckInfo(Length(top), Length(top), 0));
      WalkIntervals(Init(f.packets), top.min, l.count);
    }
    ParseFirstAndBlocks(v, l.info.numAckBlocks != 0, l.blockWidth, f.largestAcked, l.info.firstBlockLength, bs, tail);
  }

  lemma ParseNumbers(lw: nat, largest: nat, word: nat, rest: seq<byte>)
    requires largest < Pow256(lw) && word < TWO16
    ensures var s := BigEndian(lw, largest) + BigEndian(2, word) + rest;
            && FromBigEndian(s[..lw]) == largest
            && FromBigEndian(s[lw..lw + 2]) == word
            && s[lw + 2..] == rest
  {
    Pow256Values();
    BigEndianExact(lw, largest);
    BigEndianExact(2, word);
    var s := BigEndian(lw, largest) + BigEndian(2, word) + rest;
    assert s[..lw] == BigEndian(lw, largest);
    assert s[lw..lw + 2] == BigEndian(2, word);
  }

  lemma BodyOf41(many: bool, count: nat, lw: nat, bw: nat, largest: nat, word: nat, rest: seq<byte>)
    requires largest < Pow256(lw) && word < TWO16
    ensures ParseBody(V41, many, count, 0, lw, bw, BigEndian(lw, largest) + BigEndian(2, word) + rest)
            == AckResult(AckStart(largest, DelayOf(word)), ParseRanges(V41, many, count, bw, largest, 0, rest))
  {
    hide ParseRanges, DelayOf, BigEndian, FromBigEndian;
    ParseNumbers(lw, largest, word, rest);
  }

  /** The head of a written version-41 frame. */
  lemma ParseHead41(t: byte, count: byte, lw: nat, bw: nat, largest: nat, word: nat, rest: seq<byte>)
    requires largest < Pow256(lw) && word < TWO16 && HasBlocks(V41, t) == (count > 0)
    requires WidthFromCode(V41, t / 4 % 4) == lw && WidthFromCode(V41, t % 4) == bw
    ensures ParseAck(V41, t, CountByte(count) + ([0] + (BigEndian(lw, largest) + BigEndian(2, word))) + rest)
            == AckResult(AckStart(largest, DelayOf(word)), ParseRanges(V41, count > 0, count, bw, largest, 0, rest))
  {
    hide ParseBody, DelayOf, BigEndian, FromBigEndian, WidthFromCode, HasBlocks;
    var numbers := BigEndian(lw, largest) + BigEndian(2, word);
    var s := CountByte(count) + ([0] + numbers) + rest;
    var skip := if count > 0 then 2 else 1;
    assert s[skip..] == numbers + rest;
    BodyOf41(count > 0, count, lw, bw, largest, word, rest);
  }

  /** The head of a frame written in any other version. */
  lemma ParseHeadOther(t: byte, count: byte, lw: nat, bw: nat, largest: nat, word: nat, rest: seq<byte>)
    requires largest < Pow256(lw) && word < TWO16 && HasBlocks(Other, t) == (count > 0)
    requires WidthFromCode(Other, t / 4 % 4) == lw && WidthFromCode(Other, t % 4) == bw
    ensures ParseAck(Other, t, BigEndian(lw, largest) + BigEndian(2, word) + (CountByte(count) + rest))
            == AckResult(AckStart(largest, DelayOf(word)), ParseRanges(Other, count > 0, count, bw, largest, 0, rest))
  {
    hide ParseRanges, DelayOf, BigEndian, FromBigEndian, WidthFromCode, HasBlocks;
    ParseNumbers(lw, largest, word, CountByte(count) + rest);
    assert (CountByte(count) + rest)[|CountByte(count)|..] == rest;
    if count == 0 {
      assert CountByte(count) + rest == rest;
    }
  }

  /** What follows the head of a written frame. */
  ghost function AfterHead(v: Version, f: AckFrame, l: Layout, tail: seq<byte>): (s: seq<byte>)
  {
    BigEndian(l.blockWidth, l.info.firstBlockLength)
    + (BlockBytes(l.blockWidth, ChosenBlocks(f, l.count)) + (TailBytes(v) + tail))
  }

  lemma AckBytesShape(v: Version, f: AckFrame, room: nat, tail: seq<byte>)
    ensures var l := LayoutFor(v, f, room); var s := AckBytes(v, f, room) + tail;
            s[0] == TypeByte(v, l) && s[1..] == HeadBytes(v, f, l) + AfterHead(v, f, l, tail)
  {
    var l := LayoutFor(v, f, room);
    var first := BigEndian(l.blockWidth, l.info.firstBlockLength);
    var blocks := BlockBytes(l.blockWidth, ChosenBlocks(f, l.count));
    Regroup(HeadBytes(v, f, l), first, blocks, TailBytes(v), tail);
    var body := HeadBytes(v, f, l) + (first + (blocks + TailBytes(v)));
    assert ([TypeByte(v, l)] + body + tail)[1..] == body + tail;
  }

  lemma Regroup(a: seq<byte>, b: seq<byte>, c: seq<byte>, d: seq<byte>, e: seq<byte>)
    ensures a + (b + (c + d)) + e == a + (b + (c + (d + e)))
  {
    assert c + d + e == c + (d + e);
    assert b + (c + d) + e == b + (c + d + e);
  }

  lemma ParseWrittenHead(v: Version, f: AckFrame, l: Layout, rest: seq<byte>)
    requires l.largestWidth in {1, 2, 4, 6, 8} && (l.largestWidth == 8 ==> v.V41?) && (l.largestWidth == 6 ==> v.Other?)
    requires l.blockWidth in {1, 2, 4, 6, 8} && (l.blockWidth == 8 ==> v.V41?) && (l.blockWidth == 6 ==> v.Other?)
    requires f.largestAcked < Pow256(l.largestWidth)
    requires l.count < 256 && (l.count > 0 <==> l.info.numAckBlocks != 0)
    ensures ParseAck(v, TypeByte(v, l), HeadBytes(v, f, l) + rest)
            == AckResult(AckStart(f.largestAcked, DelayRead(f.delay)),
                         ParseRanges(v, l.count > 0, l.count, l.blockWidth, f.largestAcked, 0, rest))
  {
    hide ParseAck, ParseRanges, TypeByte, WidthFromCode, HasBlocks, BigEndian, DelayOf, DelayWord, DelayRead;
    TypeByteRoundTrip(v, l);
    DelayReadsBack(f.delay);
    var numbers := BigEndian(l.largestWidth, f.largestAcked) + BigEndian(2, DelayWord(f.delay));
    if v.V41? {
      ParseHead41(TypeByte(v, l), l.count, l.largestWidth, l.blockWidth, f.largestAcked, DelayWord(f.delay), rest);
    } else {
      ParseHeadOther(TypeByte(v, l), l.count, l.largestWidth, l.blockWidth, f.largestAcked, DelayWord(f.delay), rest);
      assert HeadBytes(v, f, l) + rest == numbers + (CountByte(l.count) + rest);
    }
  }

  /** The writer had room for the count byte and at least one block, or there are no blocks. */
  ghost predicate RoomForOneBlock(v: Version, f: AckFrame, room: nat)
  {
    var l := LayoutFor(v, f, room);
    |f.packets| <= 1 || room >= MinAckFrameSize(l.largestWidth) + l.blockWidth + 1 + (l.blockWidth + 1)
  }

  lemma RoomMeansBlocks(v: Version, f: AckFrame, room: nat)
    requires Representable(v, f.packets) && RoomForOneBlock(v, f, room)
    ensures LayoutFor(v, f, room).count > 0 <==> LayoutFor(v, f, room).info.numAckBlocks != 0
  {
    CountingAgreesWithWriting(v, f, room);
  }

  /** For every interval set, every version and every following input: reading the written frame
      reports the top packet, the delay, and exactly the ranges the written blocks complete. */
  lemma AckReadsBackExactly(v: Version, f: AckFrame, room: nat, tail: seq<byte>)
    requires Representable(v, f.packets) && Consistent(f) && RoomForOneBlock(v, f, room)
    ensures var s := AckBytes(v, f, room) + tail;
            ParseAck(v, s[0], s[1..])
            == AckResult(AckStart(f.largestAcked, DelayRead(f.delay)),
                         RangesResult(true, FrameRanges(f, LayoutFor(v, f, room).count), tail))
  {
    hide DelayRead;
    var l := LayoutFor(v, f, room);
    RoomMeansBlocks(v, f, room);
    WidthHolds(v, f.largestAcked);
    AckBytesShape(v, f, room, tail);
    ParseWrittenHead(v, f, l, AfterHead(v, f, l, tail));
    ParseWrittenRanges(v, f, room, tail);
  }

  // ---------------------------------------------------------------------------
  // Which ranges those are
  // ---------------------------------------------------------------------------

  /** Blocks needed for the top `k` intervals below `start`. */
  function BlocksNeeded(rest: PacketNumberQueue, start: nat, k: nat): (n: nat)
    requires rest != [] ==> Last(rest).max < start
    requires k <= |rest|
    decreases |rest|
  {
    if k == 0 then 0
    else BlocksFor(start - Last(rest).max) + BlocksNeeded(Init(rest), Last(rest).min, k - 1)
  }

  lemma {:induction false} AllBlocksCount(rest: PacketNumberQueue, start: nat)
    requires rest != [] ==> Last(rest).max < start
    ensures |AllBlocks(rest, start)| == BlocksNeeded(rest, start, |rest|)
    decreases |rest|
  {
    if rest != [] {
      hide GapBlocks, BlocksFor, Separated;
      GapBlocksCount(start - Last(rest).max, Length(Last(rest)));
      AllBlocksCount(Init(rest), Last(rest).min);
    }
  }

  /** The intervals from the highest to the lowest. */
  function TopDown(rest: PacketNumberQueue): (r: seq<Interval>)
    ensures |r| == |rest| && forall k | 0 <= k < |rest| :: r[k] == rest[|rest| - 1 - k]
  {
    if rest == [] then [] else [Last(rest)] + TopDown(Init(rest))
  }

  /** The reported ranges are the top intervals in descending order. */
  lemma {:induction false} ReportedIsTopDownPrefix(rest: PacketNumberQueue, start: nat, n: nat)
    requires rest != [] ==> Last(rest).max < start
    ensures var rs := ReportedRanges(rest, start, n);
            |rs| <= |rest| && forall k | 0 <= k < |rs| :: Interval(rs[k].start, rs[k].end) == TopDown(rest)[k]
    decreases |rest|
  {
    if rest != [] && n >= BlocksFor(start - Last(rest).max) {
      ReportedIsTopDownPrefix(Init(rest), Last(rest).min, n - BlocksFor(start - Last(rest).max));
    }
  }

  /** They are as many as `n` blocks complete. */
  lemma {:induction false} ReportedIsMaximal(rest: PacketNumberQueue, start: nat, n: nat)
    requires rest != [] ==> Last(rest).max < start
    ensures var k := |ReportedRanges(rest, start, n)|;
            && k <= |rest| && BlocksNeeded(rest, start, k) <= n
            && (k < |rest| ==> n < BlocksNeeded(rest, start, k + 1))
    decreases |rest|
  {
    if rest != [] {
      var c := BlocksFor(start - Last(rest).max);
      if n >= c {
        ReportedIsMaximal(Init(rest), Last(rest).min, n - c);
      } else {
        assert BlocksNeeded(Init(rest), Last(rest).min, 0) == 0;
      }
    }
  }

  /** Only the lowest can be flagged as last: exactly when no block is left over for a cut-off one. */
  lemma {:induction false} LastFlagOnlyAtEnd(rest: PacketNumberQueue, start: nat, n: nat)
    requires rest != [] ==> Last(rest).max < start
    ensures var rs := ReportedRanges(rest, start, n);
            && |rs| <= |rest|
            && forall k | 0 <= k < |rs| :: rs[k].last == (k == |rs| - 1 && n == BlocksNeeded(rest, start, |rs|))
    decreases |rest|
  {
    if rest != [] && n >= BlocksFor(start - Last(rest).max) {
      var i := Last(rest);
      var m := n - BlocksFor(start - i.max);
      var inner := ReportedRanges(Init(rest), i.min, m);
      assert ReportedRanges(rest, start, n) == [Range(i.min, i.max, m == 0)] + inner;
      LastFlagOnlyAtEnd(Init(rest), i.min, m);
      ReportedIsMaximal(Init(rest), i.min, m);
      if inner != [] {
        PositiveNeed(Init(rest), i.min, |inner|);
      }
      hide BlocksFor, Separated, ReportedRanges;
    }
  }

  lemma PositiveNeed(rest: PacketNumberQueue, start: nat, k: nat)
    requires rest != [] && Last(rest).max < start
    requires 0 < k <= |rest|
    ensures BlocksNeeded(rest, start, k) > 0
  {
  }

  /** With as many blocks as there are, the ranges are all the intervals, the lowest one last. */
  lemma AllBlocksReportAll(f: AckFrame)
    requires f.packets != []
    ensures var rs := FrameRanges(f, BlocksNeeded(Init(f.packets), Last(f.packets).min, |f.packets| - 1));
            && |rs| == |f.packets|
            && forall k | 0 <= k < |rs| ::
                 var i := TopDown(f.packets)[k]; rs[k] == Range(i.min, i.max, k == |rs| - 1)
  {
    var rest, start := Init(f.packets), Last(f.packets).min;
    var all := BlocksNeeded(rest, start, |rest|);
    ReportedIsTopDownPrefix(rest, start, all);
    ReportedIsMaximal(rest, start, all);
    LastFlagOnlyAtEnd(rest, start, all);
    NeedIsMonotone(rest, start, |ReportedRanges(rest, start, all)|);
    hide BlocksNeeded, ReportedRanges, Separated;
  }

  /** When nothing is cut off, the ranges are all the intervals, last_range true on the lowest only. */
  lemma EverythingReported(v: Version, f: AckFrame, room: nat)
    requires Representable(v, f.packets) && f.packets != []
    requires var all := BlocksNeeded(Init(f.packets), Last(f.packets).min, |f.packets| - 1);
             var l := LayoutFor(v, f, room);
             all <= 255 && l.available >= all * (l.blockWidth + 1)
    ensures var rs := FrameRanges(f, LayoutFor(v, f, room).count);
            && |rs| == |f.packets|
            && forall k | 0 <= k < |rs| ::
                 var i := TopDown(f.packets)[k]; rs[k] == Range(i.min, i.max, k == |rs| - 1)
  {
    var rest, top := Init(f.packets), Last(f.packets);
    var l := LayoutFor(v, f, room);
    AllBlocksCount(rest, top.min);
    ScanCoversBlocks(rest, top.min, AckInfo(Length(top), Length(top), 0));
    EnoughRoomForAll(l.available, BlocksNeeded(rest, top.min, |rest|), l.blockWidth + 1);
    AllBlocksReportAll(f);
    hide FrameRanges, TopDown, AllBlocks, BlocksNeeded, Scan, BlocksThatFit;
  }

  lemma EnoughRoomForAll(available: int, count: nat, size: nat)
    requires size > 0 && available >= count * size
    ensures BlocksThatFit(available, size) >= count
  {
    if available / size < count {
      assert available == size * (available / size) + available % size;
      MulMono(available / size + 1, count, size);
    }
  }

  lemma {:induction false} NeedIsMonotone(rest: PacketNumberQueue, start: nat, k: nat)
    requires rest != [] ==> Last(rest).max < start
    requires k <= |rest|
    ensures BlocksNeeded(rest, start, k) <= BlocksNeeded(rest, start, |rest|)
    ensures k < |rest| ==> BlocksNeeded(rest, start, k + 1) <= BlocksNeeded(rest, start, |rest|)
    decreases |rest|
  {
    if rest != [] {
      NeedIsMonotone(Init(rest), Last(rest).min, if k > 0 then k - 1 else 0);
    }
  }

  // ---------------------------------------------------------------------------
  // When the room is too small
  // ---------------------------------------------------------------------------

  /** What reading a written frame, followed by `tail`, ought to give. */
  ghost function ReadExactly(v: Version, f: AckFrame, room: nat, tail: seq<byte>): AckResult
  {
    AckResult(AckStart(f.largestAcked, DelayRead(f.delay)),
              RangesResult(true, FrameRanges(f, LayoutFor(v, f, room).count), tail))
  }

  /** Without room for one block the frame announces blocks but has no count byte. The reader takes
      another byte for it, and so, if it accepts the frame at all, reads past its end. */
  lemma MissingCountByte(v: Version, f: AckFrame, room: nat, tail: seq<byte>)
    requires Representable(v, f.packets) && !RoomForOneBlock(v, f, room)
    requires |AckBytes(v, f, room)| <= room
    ensures LayoutFor(v, f, room).count == 0
    ensures var s := AckBytes(v, f, room) + tail; var p := ParseAck(v, s[0], s[1..]).parsed;
            p.ok ==> |p.rest| < |tail|
  {
    hide ParseAck, Pow256, BigEndian;
    var l := LayoutFor(v, f, room);
    CountingAgreesWithWriting(v, f, room);
    TypeByteRoundTrip(v, l);
    AckBytesShape(v, f, room, tail);
    var s := AckBytes(v, f, room) + tail;
    NoRoomNoBlocks(v, f, room);
    AckConsumes(v, s[0], s[1..]);
  }

  lemma NoRoomNoBlocks(v: Version, f: AckFrame, room: nat)
    requires Representable(v, f.packets) && !RoomForOneBlock(v, f, room)
    requires |AckBytes(v, f, room)| <= room
    ensures var l := LayoutFor(v, f, room);
            l.count == 0 && |AckBytes(v, f, room)| == MinAckFrameSize(l.largestWidth) + l.blockWidth
  {
    var l := LayoutFor(v, f, room);
    CountingAgreesWithWriting(v, f, room);
    assert l.count == 0;
  }

  /** A written frame reads back exactly, whatever follows it, if and only if there was room for one
      block (or only one interval to begin with). */
  lemma ReadsBackIffRoomForOneBlock(v: Version, f: AckFrame, room: nat, tail: seq<byte>)
    requires Representable(v, f.packets) && Consistent(f)
    requires |AckBytes(v, f, room)| <= room
    ensures var s := AckBytes(v, f, room) + tail;
            ParseAck(v, s[0], s[1..]) == ReadExactly(v, f, room, tail) <==> RoomForOneBlock(v, f, room)
  {
    hide ParseAck, LayoutFor, FrameRanges, DelayRead, RoomForOneBlock, AckBytes;
    AckBytesNonEmpty(v, f, room);
    if RoomForOneBlock(v, f, room) {
      AckReadsBackExactly(v, f, room, tail);
    } else {
      MissingCountByte(v, f, room, tail);
    }
  }

  lemma AckBytesNonEmpty(v: Version, f: AckFrame, room: nat)
    ensures AckBytes(v, f, room) != []
  {
  }

  /** Such frames exist: two intervals and six bytes of room. */
  lemma AnnouncedButMissingBlocks()
    ensures Separated([Interval(1, 3), Interval(5, 10)])
    ensures var f := AckFrame(9, Infinite, [Interval(1, 3), Interval(5, 10)]);
            && Representable(Other, f.packets) && Consistent(f)
            && |AckBytes(Other, f, 6)| <= 6
            && var s := AckBytes(Other, f, 6); !ParseAck(Other, s[0], s[1..]).parsed.ok
  {
    var two := [Interval(1, 3), Interval(5, 10)];
    assert two[..1] == [Interval(1, 3)];
    assert Separated(two[..1]);
    var f := AckFrame(9, Infinite, two);
    assert Init(f.packets) == [Interval(1, 3)];
    var l := LayoutFor(Other, f, 6);
    CountingAgreesWithWriting(Other, f, 6);
    assert l.blockWidth == 1 && l.count == 0;
    assert ChosenBlocks(f, 0) == [];
    MissingCountByte(Other, f, 6, []);
    assert AckBytes(Other, f, 6) + [] == AckBytes(Other, f, 6);
  }

  function FarApart(): (s: PacketNumberQueue)
  {
    var s := [Interval(1, 301), Interval(1000, 1002)];
    assert s[..1] == [Interval(1, 301)] && Separated(s[..1]);
    s
  }

  const Misread := AckFrame(1001, Micros(0), FarApart())

  lemma MisreadLayout()
    ensures Representable(Other, Misread.packets) && Consistent(Misread)
    ensures var l := LayoutFor(Other, Misread, 9);
            l.count == 0 && l.largestWidth == 2 && l.blockWidth == 2 && l.info.firstBlockLength == 2 && l.info.numAckBlocks != 0
  {
    assert Init(FarApart()) == [Interval(1, 301)];
    assert Init([Interval(1, 301)]) == [];
  }

  lemma TwoBytes(v: nat)
    requires v < TWO16
    ensures BigEndian(2, v) == [v / 256, v % 256]
  {
    assert BigEndian(1, v / 256) == BigEndian(0, v / 256 / 256) + [v / 256 % 256];
  }

  /** Packets 1 to 300 and 1000 and 1001, in nine bytes: eight are written. */
  lemma MisreadBytes()
    ensures AckBytes(Other, Misread, 9) == [0x65, 3, 0xE9, 0, 0, 0, 2, 0]
  {
    hide LayoutFor, BigEndian;
    MisreadLayout();
    TwoBytes(1001);
    TwoBytes(0);
    TwoBytes(2);
    assert ChosenBlocks(Misread, 0) == [];
    assert UFloat16.Encode(0) == 0;
  }

  lemma FromTwoBytes(a: byte, b: byte)
    ensures FromBigEndian([a, b]) == 256 * a + b
  {
    assert [a, b][..1] == [a] && [a][..0] == [];
    assert FromBigEndian([a]) == 256 * FromBigEndian([]) + a;
  }

  lemma MisreadRanges(s: seq<byte>)
    requires s == [2, 0, 0]
    ensures ParseRanges(Other, true, 0, 2, 1001, 0, s) == RangesResult(true, [Range(490, 1002, false)], [])
  {
    hide FromBigEndian;
    FromTwoBytes(2, 0);
    assert s[..2] == [2, 0] && s[2..] == [0];
    assert ParseBlocks(0, 2, 490, s[2..]) == RangesResult(true, [], [0]);
    assert [0][1..][0..] == [];
  }

  /** Followed by a zero byte, they are accepted as an acknowledgement of packets 490 to 1001. */
  lemma AcknowledgesTheMissing(s: seq<byte>)
    requires s == [3, 0xE9, 0, 0, 0, 2, 0, 0]
    ensures ParseAck(Other, 0x65, s)
            == AckResult(AckStart(1001, Micros(0)), RangesResult(true, [Range(490, 1002, false)], []))
  {
    hide FromBigEndian, ParseRanges, DelayOf;
    FromTwoBytes(3, 0xE9);
    FromTwoBytes(0, 0);
    assert s[..2] == [3, 0xE9] && s[2..4] == [0, 0] && s[4..] == [0, 2, 0, 0];
    assert s[4..][1..] == [2, 0, 0];
    MisreadRanges([2, 0, 0]);
    NoDelay();
  }

  lemma NoDelay()
    ensures DelayOf(0) == Micros(0)
  {
  }
}
