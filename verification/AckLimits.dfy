/**
 How many bytes an ACK frame takes, and what the reader can be made to report by
 bytes that no writer produced.
 */
module AckLimits {
  import opened Bytes
  import opened AckFormat
  import opened AckRoundTrip

  // ---------------------------------------------------------------------------
  // Size
  // ---------------------------------------------------------------------------

  lemma {:induction false} BlockBytesSize(width: nat, bs: seq<Block>)
    ensures |BlockBytes(width, bs)| == |bs| * (width + 1)
  {
    if bs != [] {
      BlockBytesSize(width, bs[1..]);
    }
  }

  lemma AckBytesSize(v: Version, f: AckFrame, room: nat)
    requires Representable(v, f.packets)
    ensures var l := LayoutFor(v, f, room);
            |AckBytes(v, f, room)|
            == MinAckFrameSize(l.largestWidth) + l.blockWidth + |CountByte(l.count)| + l.count * (l.blockWidth + 1)
  {
    var l := LayoutFor(v, f, room);
    CountingAgreesWithWriting(v, f, room);
    BlockBytesSize(l.blockWidth, ChosenBlocks(f, l.count));
  }

  /** The planned size of an ACK frame, not limited by room. */
  function AckFrameSize(v: Version, f: AckFrame): (n: nat)
  {
    var info := Info(f.packets);
    var bw := MinWidth(v, info.maxBlockLength);
    MinAckFrameSize(MinWidth(v, f.largestAcked)) + bw
    + if info.numAckBlocks != 0 then 1 + Min(info.numAckBlocks, 255) * (bw + 1) else 0
  }

  /** The planned size is exact whenever it fits. */
  lemma AckSizeIsExact(v: Version, f: AckFrame, room: nat)
    requires Representable(v, f.packets) && AckFrameSize(v, f) <= room
    ensures |AckBytes(v, f, room)| == AckFrameSize(v, f)
  {
    var l := LayoutFor(v, f, room);
    AckBytesSize(v, f, room);
    EnoughRoomForAll(l.available, Min(l.info.numAckBlocks, 255), l.blockWidth + 1);
  }

  /** Of the blocks there are, up to 255 of them, as many are written as there is room for. */
  lemma CountIsMaximal(v: Version, f: AckFrame, room: nat)
    ensures var l := LayoutFor(v, f, room);
            l.count < l.info.numAckBlocks && l.count < 255 ==>
              room < MinAckFrameSize(l.largestWidth) + l.blockWidth + 1 + (l.count + 1) * (l.blockWidth + 1)
  {
    hide Info, MinWidth, BlocksThatFit;
    var l := LayoutFor(v, f, room);
    OneMoreOverruns(l.available, l.blockWidth + 1, l.info.numAckBlocks);
  }

  lemma OneMoreOverruns(available: int, size: nat, num: nat)
    requires 0 < size && available + TWO62 > 0
    ensures var count := Min(Min(num, BlocksThatFit(available, size)), 255);
            count < num && count < 255 ==> available < (count + 1) * size
  {
    var fit := BlocksThatFit(available, size);
    if available >= 0 {
      assert available < (fit + 1) * size by {
        assert available == size * (available / size) + available % size;
      }
    } else if -available >= size {
      assert (-available) / size <= -available by {
        assert -available == size * ((-available) / size) + (-available) % size;
        MulMono(1, size, (-available) / size);
      }
    }
  }

  lemma TruncationFits(room: nat, base: nat, size: nat, num: nat)
    requires size > 1 && base < 256
    ensures var count := Min(Min(num, BlocksThatFit(room - base - 1, size)), 255);
            base + |CountByte(count)| + count * size <= room <==> base <= room
  {
    var available := room - base - 1;
    var count := Min(Min(num, BlocksThatFit(available, size)), 255);
    if available >= 0 {
      MulMono(count, available / size, size);
      assert available == size * (available / size) + available % size;
    } else if count > 0 {
      MulMono(1, count, size);
    }
  }

  /** Cutting blocks off always makes the frame fit, as soon as the fields before the blocks do. */
  lemma AckFitsIff(v: Version, f: AckFrame, room: nat)
    requires Representable(v, f.packets)
    ensures var l := LayoutFor(v, f, room);
            |AckBytes(v, f, room)| <= room <==> MinAckFrameSize(l.largestWidth) + l.blockWidth <= room
  {
    var l := LayoutFor(v, f, room);
    AckBytesSize(v, f, room);
    TruncationFits(room, MinAckFrameSize(l.largestWidth) + l.blockWidth, l.blockWidth + 1, l.info.numAckBlocks);
  }

  // ---------------------------------------------------------------------------
  // Arbitrary input
  // ---------------------------------------------------------------------------

  /** A gap byte and a length for each block. */
  function BlocksSize(count: nat, width: nat): (n: nat)
  {
    count * (1 + width)
  }

  lemma BlocksSizeStep(count: nat, width: nat)
    ensures BlocksSize(0, width) == 0
    ensures count > 0 ==> BlocksSize(count, width) == (1 + width) + BlocksSize(count - 1, width)
  {
  }

  lemma ParseBlocksStep(count: nat, width: nat, first: nat, s: seq<byte>) returns (next: nat)
    requires count > 0 && ParseBlocks(count, width, first, s).ok
    ensures 1 + width <= |s|
    ensures var p := ParseBlocks(count - 1, width, next, s[1 + width..]);
            p.ok && p.rest == ParseBlocks(count, width, first, s).rest
  {
    next := first - U64(s[0] + FromBigEndian(s[1..1 + width]));
  }

  lemma {:induction false} BlocksConsumeExactly(count: nat, width: nat, first: nat, s: seq<byte>)
    requires ParseBlocks(count, width, first, s).ok
    ensures BlocksSize(count, width) <= |s| && ParseBlocks(count, width, first, s).rest == s[BlocksSize(count, width)..]
    decreases count
  {
    hide BlocksSize;
    BlocksSizeStep(count, width);
    if count > 0 {
      var next := ParseBlocksStep(count, width, first, s);
      hide ParseBlocks;
      BlocksConsumeExactly(count - 1, width, next, s[1 + width..]);
      assert s[1 + width..][BlocksSize(count - 1, width)..] == s[BlocksSize(count, width)..];
    }
  }

  /** Five bytes for the first timestamp, three for each further one. */
  function TimestampBytes(n: nat): (size: nat)
  {
    if n == 0 then 0 else 3 * n + 2
  }

  /** `rest` is what follows the timestamps, `blocks` bytes having gone before them and, in every version
      but 41, their count. */
  ghost predicate Consumed(v: Version, s: seq<byte>, blocks: nat, stamps: nat, rest: seq<byte>)
  {
    var end := blocks + (if v.V41? then 0 else 1) + TimestampBytes(stamps);
    end <= |s| && rest == s[end..] && (v.Other? ==> stamps == s[blocks])
  }

  lemma RangesConsumeExactly(v: Version, many: bool, count: nat, width: nat, largest: nat, timestamps: nat,
                             s: seq<byte>) returns (stamps: nat)
    requires ParseRanges(v, many, count, width, largest, timestamps, s).ok
    ensures Consumed(v, s, width + BlocksSize(count, width), stamps, ParseRanges(v, many, count, width, largest, timestamps, s).rest)
    ensures v.V41? ==> stamps == timestamps
  {
    hide FromBigEndian, ParseBlocks, BlocksSize;
    var length, end := FromBigEndian(s[..width]), U64(largest + 1);
    var at := width + BlocksSize(count, width);
    BlocksConsumeExactly(count, width, end - length, s[width..]);
    assert s[width..][BlocksSize(count, width)..] == s[at..];
    stamps := if v.V41? then timestamps else s[at];
  }

  lemma ConsumedAfter(v: Version, s: seq<byte>, from: nat, blocks: nat, stamps: nat, rest: seq<byte>)
    requires from <= |s| && Consumed(v, s[from..], blocks, stamps, rest)
    ensures Consumed(v, s, from + blocks, stamps, rest)
  {
  }

  /** On any bytes: what an accepted ACK uses up is told by its two width codes, its block count and its
      timestamp count, and everything after that is left as it was. */
  lemma AckConsumesExactly(v: Version, t: byte, s: seq<byte>) returns (count: nat, stamps: nat)
    requires ParseAck(v, t, s).parsed.ok
    ensures var lw, bw := WidthFromCode(v, t / 4 % 4), WidthFromCode(v, t % 4);
            var many := if HasBlocks(v, t) then 1 else 0;
            var head := (if v.V41? then 1 else 0) + many + lw + 2;
            && head <= |s|
            && count == (if many == 0 then 0 else if v.V41? then s[0] else s[lw + 2])
            && (v.V41? ==> stamps == s[many])
            && Consumed(v, s, head + bw + BlocksSize(count, bw), stamps, ParseAck(v, t, s).parsed.rest)
  {
    hide ParseRanges, FromBigEndian, DelayOf, Pow256, Consumed, BlocksSize, WidthFromCode, HasBlocks;
    var many, lw, bw := HasBlocks(v, t), WidthFromCode(v, t / 4 % 4), WidthFromCode(v, t % 4);
    var skip := if v.Other? then 0 else if many then 2 else 1;
    var body := s[skip..];
    var largest, rest, from := FromBigEndian(body[..lw]), body[lw + 2..], skip + lw + 2;
    assert rest == s[from..];
    if v.V41? {
      count := if many then s[0] else 0;
      stamps := RangesConsumeExactly(v, many, count, bw, largest, s[skip - 1], rest);
      ConsumedAfter(v, s, from, bw + BlocksSize(count, bw), stamps, ParseAck(v, t, s).parsed.rest);
    } else if !many {
      count := 0;
      stamps := RangesConsumeExactly(v, many, 0, bw, largest, 0, rest);
      ConsumedAfter(v, s, from, bw + BlocksSize(count, bw), stamps, ParseAck(v, t, s).parsed.rest);
    } else {
      count := rest[0];
      assert rest[1..] == s[from + 1..];
      stamps := RangesConsumeExactly(v, many, count, bw, largest, 0, rest[1..]);
      ConsumedAfter(v, s, from + 1, bw + BlocksSize(count, bw), stamps, ParseAck(v, t, s).parsed.rest);
    }
  }

  /** Proper ranges below `top`, each below the previous one, with nothing after a last one. */
  ghost predicate Descending(rs: seq<Range>, top: nat)
    decreases |rs|
  {
    rs == [] || (rs[0].start <= rs[0].end <= top && (rs[0].last ==> |rs| == 1) && Descending(rs[1..], rs[0].start))
  }

  /** Recursive descent is the same as pairwise disjointness in descending order. */
  lemma {:induction false} DescendingPairwise(rs: seq<Range>, top: nat)
    requires Descending(rs, top)
    ensures forall i | 0 <= i < |rs| :: rs[i].start <= rs[i].end <= top
    ensures forall i, j | 0 <= i < j < |rs| :: rs[j].end <= rs[i].start && !rs[i].last
  {
    if rs != [] {
      DescendingPairwise(rs[1..], rs[0].start);
    }
  }

  /** Some block that the reader accepts makes `gap + length` overflow 64 bits. */
  predicate Wraps(count: nat, width: nat, first: nat, s: seq<byte>)
    decreases count
  {
    count > 0 && |s| >= 1 + width
    && var length := FromBigEndian(s[1..1 + width]); var sum := s[0] + length;
       && U64(sum) <= first
       && (sum >= TWO64 || Wraps(count - 1, width, first - U64(sum), s[1 + width..]))
  }

  lemma ShortFields(width: nat, s: seq<byte>)
    requires width in {1, 2, 4, 6} && |s| == width
    ensures FromBigEndian(s) < TWO48
  {
    Pow256Values();
  }

  lemma {:induction false} ShortWidthsNeverWrap(count: nat, width: nat, first: nat, s: seq<byte>)
    requires width in {1, 2, 4, 6}
    ensures !Wraps(count, width, first, s)
    decreases count
  {
    if count > 0 && |s| >= 1 + width {
      ShortFields(width, s[1..1 + width]);
      var sum := s[0] + FromBigEndian(s[1..1 + width]);
      if sum <= first {
        ShortWidthsNeverWrap(count - 1, width, first - sum, s[1 + width..]);
      }
    }
  }

  /** What one accepted block contributes. */
  lemma OneBlockStep(count: nat, width: nat, first: nat, s: seq<byte>)
    requires count > 0 && |s| >= 1 + width
    ensures var length := FromBigEndian(s[1..1 + width]); var step := U64(s[0] + length);
            step <= first ==>
              var rs := ParseBlocks(count, width, first, s).ranges;
              var inner := ParseBlocks(count - 1, width, first - step, s[1 + width..]).ranges;
              if length == 0 then rs == inner
              else rs == [Range(first - step, U64(first - step + length), count == 1)] + inner
    ensures count == 1 ==> |ParseBlocks(count, width, first, s).ranges| <= 1
  {
  }

  lemma NoMoreBlocks(count: nat, width: nat, first: nat, s: seq<byte>)
    ensures count == 0 || |s| < 1 + width || first < U64(s[0] + FromBigEndian(s[1..1 + width])) ==>
              ParseBlocks(count, width, first, s).ranges == []
  {
  }

  lemma {:induction false} NoWrapIsSound(count: nat, width: nat, first: nat, s: seq<byte>, bound: nat)
    requires first <= bound && first < TWO64 && !Wraps(count, width, first, s)
    ensures Descending(ParseBlocks(count, width, first, s).ranges, bound)
    decreases count
  {
    hide ParseBlocks, FromBigEndian, U64;
    NoMoreBlocks(count, width, first, s);
    if count > 0 && |s| >= 1 + width {
      OneBlockStep(count, width, first, s);
      var sum := s[0] + FromBigEndian(s[1..1 + width]);
      if sum <= first {
        NoWrapIsSound(count - 1, width, first - sum, s[1 + width..],
                      if sum == s[0] then bound else first - sum);
      }
    }
  }

  /** An overflowing block reports a range that is inverted or lies far above its predecessor;
      the at most 255 empty blocks in between cannot bridge that distance. */
  lemma {:induction false} WrapIsUnsound(count: nat, width: nat, first: nat, s: seq<byte>, bound: nat)
    requires count < 256 && width <= 8 && first < TWO64 && Wraps(count, width, first, s)
    requires first <= bound <= first + 255 * (256 - count)
    ensures !Descending(ParseBlocks(count, width, first, s).ranges, bound)
    decreases count
  {
    hide ParseBlocks, FromBigEndian, U64;
    OneBlockStep(count, width, first, s);
    var length := FromBigEndian(s[1..1 + width]);
    var sum := s[0] + length;
    if sum >= TWO64 {
      WideField(width, s[1..1 + width]);
      WrappedRange(s[0], length, first);
    } else {
      WrapIsUnsound(count - 1, width, first - sum, s[1 + width..], if length == 0 then bound else first - sum);
      if length > 0 {
        var rs := ParseBlocks(count, width, first, s).ranges;
        assert rs[1..] == ParseBlocks(count - 1, width, first - sum, s[1 + width..]).ranges;
      }
    }
  }

  lemma WideField(width: nat, s: seq<byte>)
    requires width <= 8 && |s| == width
    ensures FromBigEndian(s) < TWO64
  {
    Pow256Values();
    Pow256Monotone(width, 8);
  }

  lemma {:induction false} Pow256Monotone(a: nat, b: nat)
    requires a <= b
    ensures Pow256(a) <= Pow256(b)
  {
    if a < b {
      Pow256Monotone(a, b - 1);
    }
  }

  lemma WrappedRange(gap: byte, length: nat, first: nat)
    requires length < TWO64 <= gap + length && first < TWO64 && U64(gap + length) <= first
    ensures length > 0
    ensures var start := first - U64(gap + length); var end := U64(start + length);
            start > end || end > first + 255 * 256
  {
    hide U64;
    assert U64(gap + length) == gap + length - TWO64;
  }

  // The whole frame

  /** The first range is accepted and the blocks below it wrap. */
  predicate RangesWrap(count: nat, width: nat, largest: nat, s: seq<byte>)
  {
    |s| >= width
    && var length := FromBigEndian(s[..width]); var end := U64(largest + 1);
       && !(length == 0 && (largest != 0 || count != 0))
       && length <= end
       && Wraps(count, width, end - length, s[width..])
  }

  lemma RangesOf(v: Version, many: bool, count: nat, width: nat, largest: nat, timestamps: nat, s: seq<byte>)
    ensures var rs := ParseRanges(v, many, count, width, largest, timestamps, s).ranges;
            if |s| < width then rs == []
            else
              var length := FromBigEndian(s[..width]); var end := U64(largest + 1);
              if (length == 0 && (largest != 0 || count != 0)) || length > end then rs == []
              else rs == [Range(end - length, end, !many)] + ParseBlocks(count, width, end - length, s[width..]).ranges
  {
    hide ParseBlocks, FromBigEndian, U64;
  }

  lemma FirstRangeOf(v: Version, many: bool, count: nat, width: nat, largest: nat, timestamps: nat, s: seq<byte>)
    requires largest < TWO64 && (many || count == 0)
    ensures var p := ParseRanges(v, many, count, width, largest, timestamps, s);
            && (p.ok ==> p.ranges != [])
            && (p.ranges != [] ==>
                  && p.ranges[0].end == largest + 1 && p.ranges[0].last == !many
                  && (p.ranges[0].start == p.ranges[0].end ==> largest == 0 && count == 0))
  {
    hide ParseBlocks, FromBigEndian;
    RangesOf(v, many, count, width, largest, timestamps, s);
  }

  /** On any bytes: an accepted ACK has a first range, it ends with the largest acked number, and it is empty
      only if that number is zero and there are no blocks. */
  lemma FirstRangeEnds(v: Version, t: byte, s: seq<byte>)
    ensures var r := ParseAck(v, t, s);
            && (r.parsed.ok ==> r.parsed.ranges != [])
            && (r.parsed.ranges != [] ==>
                  && r.started.AckStart? && r.parsed.ranges[0].end == r.started.largest + 1
                  && r.parsed.ranges[0].last == !HasBlocks(v, t)
                  && (r.parsed.ranges[0].start == r.parsed.ranges[0].end ==> r.started.largest == 0))
  {
    hide ParseRanges, FromBigEndian, DelayOf, Pow256, HasBlocks, WidthFromCode;
    var many, lw, bw := HasBlocks(v, t), WidthFromCode(v, t / 4 % 4), WidthFromCode(v, t % 4);
    var skip := if v.Other? then 0 else if many then 2 else 1;
    if |s| >= skip + lw + 2 {
      var body := s[skip..];
      var largest, rest := FromBigEndian(body[..lw]), body[lw + 2..];
      WideField(lw, body[..lw]);
      if v.V41? {
        FirstRangeOf(v, many, if many then s[0] else 0, bw, largest, s[skip - 1], rest);
      } else if !many {
        FirstRangeOf(v, many, 0, bw, largest, 0, rest);
      } else if rest != [] {
        FirstRangeOf(v, many, rest[0], bw, largest, 0, rest[1..]);
      }
    }
  }

  /** A first range with blocks below it. */
  lemma FirstRangeSoundIff(many: bool, count: byte, width: nat, first: nat, end: nat, top: nat, s: seq<byte>,
                           rs: seq<Range>)
    requires first <= end <= top && end < TWO64 && width <= 8 && (!many ==> count == 0)
    requires rs == [Range(first, end, !many)] + ParseBlocks(count, width, first, s).ranges
    ensures Descending(rs, top) <==> !Wraps(count, width, first, s)
  {
    assert rs[1..] == ParseBlocks(count, width, first, s).ranges;
    assert count == 0 ==> ParseBlocks(count, width, first, s).ranges == [];
    if Wraps(count, width, first, s) {
      WrapIsUnsound(count, width, first, s, first);
    } else {
      NoWrapIsSound(count, width, first, s, first);
    }
    hide ParseBlocks, Wraps;
  }

  /** From the first block length on, for arbitrary bytes. */
  lemma RangesSoundIff(v: Version, many: bool, count: byte, width: nat, largest: nat, timestamps: nat, s: seq<byte>)
    requires largest < TWO64 && width <= 8 && (!many ==> count == 0)
    ensures Descending(ParseRanges(v, many, count, width, largest, timestamps, s).ranges, largest + 1)
            <==> !RangesWrap(count, width, largest, s)
  {
    hide ParseRanges, ParseBlocks, Wraps, FromBigEndian, U64;
    RangesOf(v, many, count, width, largest, timestamps, s);
    if |s| >= width {
      var length, end := FromBigEndian(s[..width]), U64(largest + 1);
      if !(length == 0 && (largest != 0 || count != 0)) && length <= end {
        FirstRangeSoundIff(many, count, width, end - length, end, largest + 1, s[width..],
                           ParseRanges(v, many, count, width, largest, timestamps, s).ranges);
      }
    }
  }

  /** Whether the blocks of a version-41 frame overflow: its 8-byte lengths can. */
  predicate AckWraps(v: Version, t: byte, s: seq<byte>)
  {
    v.V41? && HasBlocks(v, t)
    && var lw := WidthFromCode(v, t / 4 % 4); var bw := WidthFromCode(v, t % 4);
       |s| >= 2 + lw + 2 && RangesWrap(s[0], bw, FromBigEndian(s[2..2 + lw]), s[2 + lw + 2..])
  }

  /** For arbitrary bytes: the reported ranges are proper, pairwise disjoint, descending, inside
      [0, largest_acked + 1), with at most one last_range and nothing after it -- if and only if no
      block of a version-41 frame overflows. */
  lemma AckSoundIff(v: Version, t: byte, s: seq<byte>)
    ensures var r := ParseAck(v, t, s);
            r.started.AckStart? ==>
              (Descending(r.parsed.ranges, r.started.largest + 1) <==> !AckWraps(v, t, s))
    ensures ParseAck(v, t, s).started.NotStarted? ==> ParseAck(v, t, s).parsed.ranges == []
  {
    NoBlocksNoWrap();
    hide ParseRanges, FromBigEndian, DelayOf, U64, RangesWrap, Descending;
    var many, lw, bw := HasBlocks(v, t), WidthFromCode(v, t / 4 % 4), WidthFromCode(v, t % 4);
    var skip := if v.Other? then 0 else if many then 2 else 1;
    if |s| >= skip + lw + 2 {
      var body := s[skip..];
      var largest, rest := FromBigEndian(body[..lw]), body[lw + 2..];
      WideField(lw, body[..lw]);
      if v.V41? {
        RangesSoundIff(v, many, if many then s[0] else 0, bw, largest, s[skip - 1], rest);
        assert body[..lw] == s[skip..skip + lw] && rest == s[skip + lw + 2..];
      } else if !many {
        RangesSoundIff(v, many, 0, bw, largest, 0, rest);
        ShortRangesNeverWrap(0, bw, largest, rest);
      } else if rest != [] {
        RangesSoundIff(v, many, rest[0], bw, largest, 0, rest[1..]);
        ShortRangesNeverWrap(rest[0], bw, largest, rest[1..]);
      }
    }
  }

  lemma NoBlocksNoWrap()
    ensures forall width: nat, largest: nat, s: seq<byte> :: !RangesWrap(0, width, largest, s)
    ensures forall top: nat :: Descending([], top)
  {
  }

  lemma ShortRangesNeverWrap(count: nat, width: nat, largest: nat, s: seq<byte>)
    requires width in {1, 2, 4, 6}
    ensures !RangesWrap(count, width, largest, s)
  {
    if |s| >= width {
      var length, end := FromBigEndian(s[..width]), U64(largest + 1);
      if length <= end {
        ShortWidthsNeverWrap(count, width, end - length, s[width..]);
      }
    }
  }

  lemma WrappingBlock(block: seq<byte>)
    requires block == [1] + BigEndian(8, TWO64 - 1)
    ensures Wraps(1, 8, 10, block) && ParseBlocks(1, 8, 10, block) == RangesResult(true, [Range(10, 9, true)], [])
  {
    Pow256Values();
    BigEndianExact(8, TWO64 - 1);
    hide BigEndian, FromBigEndian;
    assert block[1..9] == BigEndian(8, TWO64 - 1) && block[9..] == [];
  }

  lemma WrappingRanges(body: seq<byte>)
    requires body == BigEndian(8, 1) + ([1] + BigEndian(8, TWO64 - 1))
    ensures RangesWrap(1, 8, 10, body) && ParseRanges(V41, true, 1, 8, 10, 0, body).ok
  {
    var block := [1] + BigEndian(8, TWO64 - 1);
    Pow256Values();
    BigEndianExact(8, 1);
    WrappingBlock(block);
    hide BigEndian, FromBigEndian, Wraps, ParseBlocks;
    assert body[..8] == BigEndian(8, 1) && body[8..] == block;
  }

  /** Version 41 accepts such a frame: gap 1 and length 2^64 - 1 report the range [10, 9). */
  lemma Version41CanWrap()
    ensures var s := [1, 0, 10, 0, 0] + (BigEndian(8, 1) + ([1] + BigEndian(8, TWO64 - 1)));
            AckWraps(V41, 0xB3, s) && ParseAck(V41, 0xB3, s).parsed.ok
  {
    var body := BigEndian(8, 1) + ([1] + BigEndian(8, TWO64 - 1));
    var s := [1, 0, 10, 0, 0] + body;
    WrappingRanges(body);
    assert FromBigEndian([10]) == 10;
    hide BigEndian, FromBigEndian, RangesWrap, ParseRanges;
    assert s[2..3] == [10] && s[5..] == body;
    var tail := s[2..];
    assert tail[..1] == s[2..3] && tail[3..] == body;
  }
}
