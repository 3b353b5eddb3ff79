/**
 The framer's ACK methods: the counting pass, the writing pass and the reading
 pass, each a loop proved against the functions of `AckFormat`.
 */
module AckFramer {
  import opened Bytes
  import opened Wire
  import opened AckFormat
  import opened AckRoundTrip
  import opened AckLimits
  import opened FrameFormat
  import UFloat16

  /** The visitor, as the list of callbacks it has received. */
  class Visitor {
    var events: seq<Event>

    constructor ()
      ensures events == []
    {
      events := [];
    }

    method On(e: Event)
      modifies this
      ensures events == old(events) + [e]
    {
      events := events + [e];
    }
  }

  /** `bytes` were written, all of them or (when they do not fit) at most a part of them. */
  twostate predicate Appends(w: DataWriter, bytes: seq<byte>, ok: bool)
    requires old(w.Valid())
    reads w, w.buffer
  {
    && w.Valid()
    && ok == (|bytes| <= old(w.Room()))
    && (ok ==> w.Written() == old(w.Written()) + bytes)
    && old(w.Written()) <= w.Written()
  }

  /** The reverse iterator over the intervals is the part of them still to come. */
  method GetAckFrameInfo(packets: PacketNumberQueue) returns (info: AckInfo)
    ensures info == Info(packets)
  {
    info := AckInfo(0, 0, 0);
    if packets == [] {
      return;
    }
    var top := Last(packets);
    var rest, start: nat := Init(packets), top.min;
    info := AckInfo(Length(top), Length(top), 0);
    while rest != [] && info.numAckBlocks < 255
      invariant rest != [] ==> Last(rest).max < start
      invariant Scan(rest, start, info) == Info(packets)
      decreases |rest|
    {
      var interval := Last(rest);
      info := info.(numAckBlocks := info.numAckBlocks + (start - interval.max + 254) / 255,
                    maxBlockLength := Max(info.maxBlockLength, Length(interval)));
      rest, start := Init(rest), interval.min;
    }
  }

  method AppendAckBlock(gap: byte, width: nat, length: nat, w: DataWriter) returns (ok: bool)
    requires w.Valid() && width <= 8
    modifies w, w.buffer
    ensures Appends(w, OneBlock(width, Block(gap, length)), ok)
  {
    ok := w.WriteUInt8(gap);
    if ok {
      ok := w.WriteInt(width, length);
    }
  }

  lemma {:induction false} BlockBytesSnoc(width: nat, bs: seq<Block>, b: Block)
    ensures BlockBytes(width, bs + [b]) == BlockBytes(width, bs) + OneBlock(width, b)
  {
    if bs == [] {
      assert [b][1..] == [];
    } else {
      assert (bs + [b])[1..] == bs[1..] + [b];
      BlockBytesSnoc(width, bs[1..], b);
    }
  }

  function Fillers(n: nat): (bs: seq<Block>)
    ensures |bs| == n
  {
    seq(n, _ => Block(255, 0))
  }

  lemma FillersSnoc(width: nat, n: nat)
    ensures BlockBytes(width, Fillers(n + 1)) == BlockBytes(width, Fillers(n)) + OneBlock(width, Block(255, 0))
  {
    assert Fillers(n + 1) == Fillers(n) + [Block(255, 0)];
    BlockBytesSnoc(width, Fillers(n), Block(255, 0));
  }

  lemma FillersGrow(width: nat, n: nat, m: nat)
    requires n <= m
    ensures |BlockBytes(width, Fillers(n))| <= |BlockBytes(width, Fillers(m))|
  {
    BlockBytesSize(width, Fillers(n));
    BlockBytesSize(width, Fillers(m));
    MulMono(n, m, width + 1);
  }

  /** A gap is its empty blocks followed by the real one. */
  lemma {:induction false} GapIsFillersThenBlock(gap: nat, length: nat)
    requires gap > 0
    ensures BlocksFor(gap) > 0 && 0 < gap - (BlocksFor(gap) - 1) * 255 <= 255
    ensures GapBlocks(gap, length)
            == Fillers(BlocksFor(gap) - 1) + [Block(gap - (BlocksFor(gap) - 1) * 255, length)]
    decreases gap
  {
    if gap > 255 {
      GapIsFillersThenBlock(gap - 255, length);
      assert BlocksFor(gap) == BlocksFor(gap - 255) + 1;
      assert Fillers(BlocksFor(gap) - 1) == [Block(255, 0)] + Fillers(BlocksFor(gap - 255) - 1);
    } else {
      assert BlocksFor(gap) == 1;
    }
  }

  lemma NoBlocks(width: nat, s: seq<byte>, none: seq<Block>)
    requires |none| == 0
    ensures s + BlockBytes(width, none) == s
  {
  }

  /** The empty blocks of a gap that takes `encoded` blocks, as long as blocks may be written. */
  method AppendFillers(width: nat, encoded: nat, room: nat, w: DataWriter) returns (ok: bool, n: nat)
    requires w.Valid() && width <= 8 && encoded > 0
    modifies w, w.buffer
    ensures Appends(w, BlockBytes(width, Fillers(Min(encoded - 1, room))), ok)
    ensures ok ==> n == Min(encoded - 1, room)
  {
    hide DataWriter.Written, BlockBytes, OneBlock, Fillers;
    ghost var start := w.Written();
    n := 0;
    NoBlocks(width, start, Fillers(0));
    while n + 1 < encoded && n < room
      invariant n <= Min(encoded - 1, room)
      invariant w.Valid() && w.Written() == start + BlockBytes(width, Fillers(n))
    {
      FillersSnoc(width, n);
      FillersGrow(width, n + 1, Min(encoded - 1, room));
      ok := AppendAckBlock(255, width, 0, w);
      if !ok {
        return;
      }
      n := n + 1;
    }
    ok := true;
  }

  lemma {:induction false} BlockBytesConcat(width: nat, a: seq<Block>, b: seq<Block>)
    ensures BlockBytes(width, a + b) == BlockBytes(width, a) + BlockBytes(width, b)
  {
    if a == [] {
      assert a + b == b;
    } else {
      assert (a + b)[1..] == a[1..] + b;
      BlockBytesConcat(width, a[1..], b);
    }
  }

  /** Writing part `b` of a block list after part `a`. */
  lemma WritingOn(width: nat, all: seq<Block>, from: nat, to: nat, count: nat, part: seq<Block>)
    requires from <= to <= count <= |all| && all[from..to] == part
    ensures BlockBytes(width, all[..to]) == BlockBytes(width, all[..from]) + BlockBytes(width, part)
    ensures |BlockBytes(width, all[..to])| <= |BlockBytes(width, all[..count])|
  {
    assert all[..to] == all[..from] + part;
    BlockBytesConcat(width, all[..from], part);
    BlockBytesSize(width, all[..to]);
    BlockBytesSize(width, all[..count]);
    MulMono(to, count, width + 1);
  }

  lemma FillersAreFirst(gap: nat, length: nat, mine: seq<Block>, rest: seq<Block>, limit: nat)
    requires gap > 0 && mine == GapBlocks(gap, length) + rest && limit <= |mine|
    ensures var k := Min(BlocksFor(gap) - 1, limit);
            && k >= 0 && mine[..k] == Fillers(k)
            && 0 < gap - (BlocksFor(gap) - 1) * 255 <= 255
            && (k < limit ==> mine[k] == Block(gap - (BlocksFor(gap) - 1) * 255, length) && mine[k + 1..] == rest)
  {
    GapIsFillersThenBlock(gap, length);
  }

  /** How many blocks of an interval are written, and their bytes step by step. */
  lemma IntervalPlan(gap: nat, length: nat, mine: seq<Block>, rest: seq<Block>, limit: nat, width: nat)
    requires gap > 0 && mine == GapBlocks(gap, length) + rest && limit <= |mine|
    ensures 0 < BlocksFor(gap) <= |mine| && 0 < gap - (BlocksFor(gap) - 1) * 255 <= 255
    ensures mine[BlocksFor(gap)..] == rest
    ensures var k := Min(BlocksFor(gap) - 1, limit); var last := Block(gap - (BlocksFor(gap) - 1) * 255, length);
            BlockBytes(width, mine[..Min(BlocksFor(gap), limit)])
            == BlockBytes(width, Fillers(k)) + if k < limit then OneBlock(width, last) else []
  {
    GapIsFillersThenBlock(gap, length);
    FillersAreFirst(gap, length, mine, rest, limit);
    var k, last := Min(BlocksFor(gap) - 1, limit), Block(gap - (BlocksFor(gap) - 1) * 255, length);
    if k < limit {
      WritingOn(width, mine, k, k + 1, limit, [last]);
      assert BlockBytes(width, [last]) == OneBlock(width, last);
    }
  }

  /** One interval: its empty blocks, then its real block, at most `limit` in all. */
  method AppendInterval(interval: Interval, start: nat, width: nat, limit: nat, ghost mine: seq<Block>,
                        ghost rest: seq<Block>, w: DataWriter) returns (ok: bool, more: nat)
    requires w.Valid() && width <= 8 && interval.min < interval.max < start
    requires mine == GapBlocks(start - interval.max, Length(interval)) + rest && limit <= |mine|
    modifies w, w.buffer
    ensures more == Min(BlocksFor(start - interval.max), limit) <= |mine|
    ensures Appends(w, BlockBytes(width, mine[..more]), ok)
    ensures more < limit ==> mine[more..] == rest
  {
    hide DataWriter.Written, BlockBytes, GapBlocks, BlocksFor, Fillers, OneBlock;
    var gap := start - interval.max;
    var encoded := BlocksFor(gap);
    IntervalPlan(gap, Length(interval), mine, rest, limit, width);
    more := Min(encoded, limit);
    var fillers;
    ok, fillers := AppendFillers(width, encoded, limit, w);
    if ok && fillers < limit {
      ok := AppendAckBlock(gap - (encoded - 1) * 255, width, Length(interval), w);
    }
  }

  /** All the blocks, top down, until `count` have been written. */
  method AppendAckBlocks(f: AckFrame, width: nat, count: nat, w: DataWriter) returns (ok: bool)
    requires w.Valid() && width <= 8 && |ChosenBlocks(f, count)| == count
    modifies w, w.buffer
    ensures Appends(w, BlockBytes(width, ChosenBlocks(f, count)), ok)
  {
    hide DataWriter.Written, BlockBytes, GapBlocks, BlocksFor, Separated, AllBlocks;
    if count == 0 {
      NoBlocks(width, w.Written(), ChosenBlocks(f, count));
      return true;
    }
    var rest, start: nat, written: nat := Init(f.packets), Last(f.packets).min, 0;
    ghost var all, before := AllBlocks(rest, start), w.Written();
    assert all[0..] == all;
    NoBlocks(width, before, all[..0]);
    while rest != [] && written < count
      invariant written <= count && (rest != [] ==> Last(rest).max < start)
      invariant w.Valid() && w.Written() == before + BlockBytes(width, all[..written])
      invariant written < count ==> all[written..] == AllBlocks(rest, start)
      decreases |rest|
    {
      var interval := Last(rest);
      AllBlocksStep(rest, start);
      ghost var mine := all[written..];
      var more: nat;
      ok, more := AppendInterval(interval, start, width, count - written, mine, AllBlocks(Init(rest), interval.min), w);
      assert all[written..written + more] == mine[..more];
      WritingOn(width, all, written, written + more, count, mine[..more]);
      if !ok {
        return;
      }
      assert all[written + more..] == mine[more..];
      rest, start, written := Init(rest), interval.min, written + more;
    }
    AllBlocksEnd(rest, start);
    ok := true;
  }

  lemma AllBlocksStep(rest: PacketNumberQueue, start: nat)
    requires rest != [] && Last(rest).max < start
    ensures Last(rest).min < Last(rest).max
    ensures AllBlocks(rest, start)
            == GapBlocks(start - Last(rest).max, Length(Last(rest))) + AllBlocks(Init(rest), Last(rest).min)
  {
  }

  lemma AllBlocksEnd(rest: PacketNumberQueue, start: nat)
    requires rest != [] ==> Last(rest).max < start
    ensures rest == [] ==> AllBlocks(rest, start) == []
  {
  }

  method AppendNumbers(f: AckFrame, largestWidth: nat, w: DataWriter) returns (ok: bool)
    requires w.Valid() && largestWidth <= 8
    modifies w, w.buffer
    ensures Appends(w, BigEndian(largestWidth, f.largestAcked) + BigEndian(2, DelayWord(f.delay)), ok)
  {
    hide DataWriter.Written, BigEndian, DelayWord;
    ok := w.WriteInt(largestWidth, f.largestAcked);
    if ok {
      var word := EncodeDelay(f.delay);
      ok := w.WriteInt(2, word);
    }
  }

  method AppendHeadOther(f: AckFrame, l: Layout, w: DataWriter) returns (ok: bool)
    requires w.Valid() && l.count < 256 && l.largestWidth <= 8
    modifies w, w.buffer
    ensures Appends(w, HeadBytes(Other, f, l), ok)
  {
    hide DataWriter.Written, BigEndian, DelayWord;
    ok := AppendNumbers(f, l.largestWidth, w);
    if ok && l.count > 0 {
      ok := w.WriteUInt8(l.count);
    }
  }

  method AppendHead41(f: AckFrame, l: Layout, w: DataWriter) returns (ok: bool)
    requires w.Valid() && l.count < 256 && l.largestWidth <= 8
    modifies w, w.buffer
    ensures Appends(w, HeadBytes(V41, f, l), ok)
  {
    hide DataWriter.Written, BigEndian, DelayWord;
    ok := w.WriteBytes(CountByte(l.count));
    if !ok {
      return;
    }
    ok := w.WriteUInt8(0);
    if !ok {
      return;
    }
    ok := AppendNumbers(f, l.largestWidth, w);
  }

  /** The type byte and everything before the first block length. */
  method AppendAckHead(v: Version, f: AckFrame, l: Layout, w: DataWriter) returns (ok: bool)
    requires w.Valid() && l.count < 256 && l.largestWidth <= 8
    modifies w, w.buffer
    ensures Appends(w, [TypeByte(v, l)] + HeadBytes(v, f, l), ok)
  {
    hide DataWriter.Written, TypeByte, HeadBytes;
    ok := w.WriteUInt8(TypeByte(v, l));
    if !ok {
      return;
    }
    if v.V41? {
      ok := AppendHead41(f, l, w);
    } else {
      ok := AppendHeadOther(f, l, w);
    }
  }

  method EncodeDelay(d: Delay) returns (word: nat)
    ensures word == DelayWord(d)
  {
    word := UFloat16.EncodeByShifting(if d.Infinite? then UFloat16.MAX_VALUE else d.us);
  }

  /** The widths and the block count, from the counting pass and the room left. */
  method ChooseLayout(v: Version, f: AckFrame, room: nat) returns (l: Layout)
    ensures l == LayoutFor(v, f, room)
  {
    var info := GetAckFrameInfo(f.packets);
    var largestWidth := MinWidth(v, f.largestAcked);
    var blockWidth := MinWidth(v, info.maxBlockLength);
    var available := room - blockWidth - MinAckFrameSize(largestWidth) - (if info.numAckBlocks != 0 then 1 else 0);
    var count := Min(info.numAckBlocks, BlocksThatFit(available, blockWidth + 1));
    if count > 255 {
      count := 255;
    }
    l := Layout(info, largestWidth, blockWidth, available, count);
  }

  /** The first block length, the blocks and the empty timestamp list. */
  method AppendAckRanges(v: Version, f: AckFrame, l: Layout, w: DataWriter) returns (ok: bool)
    requires w.Valid() && l.blockWidth <= 8 && |ChosenBlocks(f, l.count)| == l.count
    modifies w, w.buffer
    ensures Appends(w, BigEndian(l.blockWidth, l.info.firstBlockLength)
                       + (BlockBytes(l.blockWidth, ChosenBlocks(f, l.count)) + TailBytes(v)), ok)
  {
    hide DataWriter.Written, BigEndian, BlockBytes, ChosenBlocks;
    ok := w.WriteInt(l.blockWidth, l.info.firstBlockLength);
    if !ok {
      return;
    }
    ok := AppendAckBlocks(f, l.blockWidth, l.count, w);
    if !ok {
      return;
    }
    ok := w.WriteBytes(TailBytes(v));
  }

  method AppendAckFrameAndTypeByte(v: Version, f: AckFrame, w: DataWriter) returns (ok: bool)
    requires w.Valid() && Representable(v, f.packets)
    modifies w, w.buffer
    ensures Appends(w, AckBytes(v, f, old(w.Room())), ok)
  {
    hide DataWriter.Written, TypeByte, BigEndian, HeadBytes, BlockBytes, ChosenBlocks, LayoutFor, TailBytes;
    var l := ChooseLayout(v, f, w.Room());
    CountingAgreesWithWriting(v, f, w.Room());
    ok := AppendAckHead(v, f, l, w);
    if ok {
      ok := AppendAckRanges(v, f, l, w);
    }
  }

  // ---------------------------------------------------------------------------
  // Reading
  // ---------------------------------------------------------------------------

  lemma RangeEventsSnoc(rs: seq<Range>, r: Range)
    ensures RangeEvents(rs + [r]) == RangeEvents(rs) + [OnAckRange(r)]
  {
  }

  /** One step of the block loop. */
  lemma ParseBlocksStep(count: nat, width: nat, first: nat, s: seq<byte>)
    requires count > 0
    ensures |s| < 1 + width ==> ParseBlocks(count, width, first, s) == RangesResult(false, [], [])
    ensures |s| >= 1 + width ==>
              var gap := FromBigEndian(s[..1]); var length := FromBigEndian(s[1..][..width]);
              var step := U64(gap + length);
              if first < step then ParseBlocks(count, width, first, s) == RangesResult(false, [], [])
              else
                ParseBlocks(count, width, first, s)
                == Prepend(if length > 0 then [Range(first - step, U64(first - step + length), count == 1)] else [],
                           ParseBlocks(count - 1, width, first - step, s[1..][width..]))
  {
    if |s| >= 1 + width {
      OneByte(s);
      assert s[1..][..width] == s[1..1 + width] && s[1..][width..] == s[1 + width..];
    }
  }

  /** The reader's `count` blocks below `first`, reported as they are read. */
  method ProcessAckBlocks(count: nat, width: nat, first: nat, r: DataReader, visitor: Visitor) returns (ok: bool)
    requires r.Valid()
    modifies r, visitor
    ensures r.Valid()
    ensures var p := ParseBlocks(count, width, first, old(r.Rest()));
            && ok == p.ok && (ok ==> r.Rest() == p.rest)
            && visitor.events == old(visitor.events) + RangeEvents(p.ranges)
  {
    hide FromBigEndian, U64, ParseBlocks, RangeEvents, DataReader.Rest, Prepend;
    PrependNone(ParseBlocks(count, width, first, r.Rest()));
    NoRangeEvents(visitor.events);
    var firstReceived, i := first, 0;
    ghost var before, done := visitor.events, [];
    ghost var p := ParseBlocks(count, width, first, r.Rest());
    while i < count
      invariant i <= count && r.Valid()
      invariant p == Prepend(done, ParseBlocks(count - i, width, firstReceived, r.Rest()))
      invariant visitor.events == before + RangeEvents(done)
    {
      ParseBlocksStep(count - i, width, firstReceived, r.Rest());
      var gap := r.ReadInt(1);
      if gap.None? {
        return false;
      }
      var length := r.ReadInt(width);
      if length.None? {
        return false;
      }
      var step := U64(gap.value + length.value);
      if firstReceived < step {
        return false;
      }
      firstReceived := firstReceived - step;
      if length.value > 0 {
        var range := Range(firstReceived, U64(firstReceived + length.value), i + 1 == count);
        RangeEventsSnoc(done, range);
        PrependTwice(done, [range], ParseBlocks(count - i - 1, width, firstReceived, r.Rest()));
        AppendTwice(before, RangeEvents(done), [OnAckRange(range)]);
        visitor.On(OnAckRange(range));
        done := done + [range];
      } else {
        PrependNone(ParseBlocks(count - i - 1, width, firstReceived, r.Rest()));
      }
      i := i + 1;
    }
    NoBlocksLeft(width, firstReceived, r.Rest());
    assert done + [] == done;
    ok := true;
  }

  lemma PrependNone(p: RangesResult)
    ensures Prepend([], p) == p
  {
  }

  lemma PrependTwice(a: seq<Range>, b: seq<Range>, p: RangesResult)
    ensures Prepend(a, Prepend(b, p)) == Prepend(a + b, p)
  {
  }

  lemma AppendTwice(a: seq<Event>, b: seq<Event>, c: seq<Event>)
    ensures a + b + c == a + (b + c)
  {
  }

  lemma NoRangeEvents(before: seq<Event>)
    ensures before + RangeEvents([]) == before
  {
  }

  lemma NoBlocksLeft(width: nat, first: nat, s: seq<byte>)
    ensures ParseBlocks(0, width, first, s) == RangesResult(true, [], s)
  {
  }

  lemma OneByte(s: seq<byte>)
    requires |s| >= 1
    ensures FromBigEndian(s[..1]) == s[0]
  {
    assert s[..1][..0] == [] && FromBigEndian([]) == 0;
  }

  /** The timestamps are read past; their values go nowhere. */
  method ProcessTimestamps(v: Version, timestamps: nat, r: DataReader) returns (ok: bool)
    requires r.Valid()
    modifies r
    ensures r.Valid()
    ensures forall rs :: var p := ParseTail(v, timestamps, RangesResult(true, rs, old(r.Rest())));
                         ok == p.ok && (ok ==> r.Rest() == p.rest)
  {
    hide FromBigEndian, DataReader.Rest;
    FirstBytes(r.Rest());
    var n := timestamps;
    if v.Other? {
      var count := r.ReadInt(1);
      if count.None? {
        return false;
      }
      n := count.value;
    }
    if n > 0 {
      var skipped := r.ReadBytes(5 + 3 * (n - 1));
      return skipped.Some?;
    }
    ok := true;
  }

  lemma RangeEventsCons(r: Range, rs: seq<Range>)
    ensures RangeEvents([r] + rs) == [OnAckRange(r)] + RangeEvents(rs)
  {
  }

  /** From the first block length on. */
  method ProcessAckRanges(v: Version, many: bool, count: nat, width: nat, largest: nat, timestamps: nat,
                          r: DataReader, visitor: Visitor) returns (ok: bool)
    requires r.Valid()
    modifies r, visitor
    ensures r.Valid()
    ensures var p := ParseRanges(v, many, count, width, largest, timestamps, old(r.Rest()));
            && ok == p.ok && (ok ==> r.Rest() == p.rest)
            && visitor.events == old(visitor.events) + RangeEvents(p.ranges)
  {
    hide FromBigEndian, U64, ParseBlocks, ParseTail, RangeEvents, DataReader.Rest;
    var length := r.ReadInt(width);
    if length.None? {
      return false;
    }
    if length.value == 0 && (largest != 0 || count != 0) {
      return false;
    }
    var end := U64(largest + 1);
    if length.value > end {
      return false;
    }
    var first := Range(end - length.value, end, !many);
    visitor.On(OnAckRange(first));
    ghost var blocks := ParseBlocks(count, width, first.start, r.Rest());
    RangeEventsCons(first, blocks.ranges);
    ok := ProcessAckBlocks(count, width, first.start, r, visitor);
    if ok {
      ok := ProcessTimestamps(v, timestamps, r);
      assert blocks == RangesResult(true, blocks.ranges, blocks.rest);
    }
  }

  /** After the delay. */
  method ProcessCounted(v: Version, many: bool, count: nat, timestamps: nat, bw: nat, largest: nat, r: DataReader,
                        visitor: Visitor) returns (ok: bool)
    requires r.Valid()
    modifies r, visitor
    ensures r.Valid()
    ensures var p := ParseCounted(v, many, count, timestamps, bw, largest, old(r.Rest()));
            && ok == p.ok && (ok ==> r.Rest() == p.rest)
            && visitor.events == old(visitor.events) + RangeEvents(p.ranges)
  {
    hide FromBigEndian, ParseRanges, RangeEvents, DataReader.Rest;
    FirstBytes(r.Rest());
    var blocks := count;
    if v.Other? && many {
      var n := r.ReadInt(1);
      if n.None? {
        return false;
      }
      blocks := n.value;
    }
    ok := ProcessAckRanges(v, many, blocks, bw, largest, timestamps, r, visitor);
  }

  /** From the largest acked number on. */
  method ProcessAckBody(v: Version, many: bool, count: nat, timestamps: nat, lw: nat, bw: nat, r: DataReader,
                        visitor: Visitor) returns (ok: bool)
    requires r.Valid() && lw <= 8
    modifies r, visitor
    ensures r.Valid()
    ensures |old(r.Rest())| < lw + 2 ==> !ok && visitor.events == old(visitor.events)
    ensures |old(r.Rest())| >= lw + 2 ==>
              var p := ParseBody(v, many, count, timestamps, lw, bw, old(r.Rest()));
              && ok == p.parsed.ok && (ok ==> r.Rest() == p.parsed.rest)
              && visitor.events == old(visitor.events) + AckEvents(p.started, p.parsed.ranges)
  {
    hide FromBigEndian, ParseCounted, RangeEvents, DelayOf, DataReader.Rest;
    BodyPieces(r.Rest(), lw);
    var largest := r.ReadInt(lw);
    if largest.None? {
      return false;
    }
    var word := r.ReadInt(2);
    if word.None? {
      return false;
    }
    visitor.On(OnAckStart(largest.value, DelayOf(word.value)));
    ok := ProcessCounted(v, many, count, timestamps, bw, largest.value, r, visitor);
  }

  lemma BodyPieces(s: seq<byte>, lw: nat)
    ensures |s| >= lw + 2 ==> s[lw..][..2] == s[lw..lw + 2] && s[lw..][2..] == s[lw + 2..]
    ensures |s| >= lw + 2 ==> FromBigEndian(s[lw..lw + 2]) < TWO16
  {
    Pow256Values();
  }

  method ProcessAckFrame(v: Version, typeByte: byte, r: DataReader, visitor: Visitor) returns (ok: bool)
    requires r.Valid()
    modifies r, visitor
    ensures r.Valid()
    ensures var p := ParseAck(v, typeByte, old(r.Rest()));
            && ok == p.parsed.ok && (ok ==> r.Rest() == p.parsed.rest)
            && visitor.events == old(visitor.events) + AckEvents(p.started, p.parsed.ranges)
  {
    hide FromBigEndian, ParseBody, RangeEvents, DataReader.Rest;
    FirstBytes(r.Rest());
    var many := HasBlocks(v, typeByte);
    var count, timestamps := 0, 0;
    if v.V41? {
      if many {
        var n := r.ReadInt(1);
        if n.None? {
          return false;
        }
        count := n.value;
      }
      var t := r.ReadInt(1);
      if t.None? {
        return false;
      }
      timestamps := t.value;
    }
    var lw, bw := WidthFromCode(v, typeByte / 4 % 4), WidthFromCode(v, typeByte % 4);
    ok := ProcessAckBody(v, many, count, timestamps, lw, bw, r, visitor);
  }

  lemma FirstBytes(s: seq<byte>)
    ensures |s| > 0 ==> FromBigEndian(s[..1]) == s[0]
    ensures |s| > 1 ==> FromBigEndian(s[1..][..1]) == s[1] && s[1..][1..] == s[2..]
    ensures RangeEvents([]) == []
  {
    if |s| > 0 {
      OneByte(s);
    }
    if |s| > 1 {
      OneByte(s[1..]);
    }
  }
}
