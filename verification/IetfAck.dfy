/**
 The IETF form of the ACK frame: variable-length integers, blocks as gap and length
 pairs, decoded by sliding both ends of the previous block down.
 */
module IetfAck {
  import opened Bytes
  import opened Wire
  import opened AckFormat

  // ---------------------------------------------------------------------------
  // Variable-length integers: the top two bits of the first byte give the width
  // ---------------------------------------------------------------------------

  function VarIntTag(v: nat): (t: nat)
    ensures t < 4
  {
    if v < 64 then 0 else if v < 0x4000 then 1 else if v < 0x4000_0000 then 2 else 3
  }

  function VarIntWidth(tag: nat): (n: nat)
    ensures n in {1, 2, 4, 8}
  {
    if tag == 0 then 1 else if tag == 1 then 2 else if tag == 2 then 4 else 8
  }

  function VarIntBytes(v: nat): (s: seq<byte>)
    ensures |s| == VarIntWidth(VarIntTag(v))
  {
    var b := BigEndian(VarIntWidth(VarIntTag(v)), v);
    [64 * VarIntTag(v) + b[0] % 64] + b[1..]
  }

  /** The value and the bytes after it. */
  function ReadVarInt(s: seq<byte>): (r: Option<(nat, seq<byte>)>)
    ensures r.Some? ==> |r.value.1| < |s|
  {
    if s == [] || |s| < VarIntWidth(s[0] / 64) then None
    else
      var n := VarIntWidth(s[0] / 64);
      Some((FromBigEndian([s[0] % 64] + s[1..n]), s[n..]))
  }

  lemma TagFits(v: nat)
    requires v < TWO62
    ensures v < 64 * Pow256(VarIntWidth(VarIntTag(v)) - 1)
    ensures v < Pow256(VarIntWidth(VarIntTag(v)))
  {
    Pow256Values();
    assert Pow256(3) == 256 * Pow256(2) && Pow256(7) == 256 * Pow256(6);
  }

  lemma FirstByteSmall(n: nat, v: nat)
    requires n > 0 && v < 64 * Pow256(n - 1) && v < Pow256(n)
    ensures BigEndian(n, v)[0] < 64
  {
    var b := BigEndian(n, v);
    BigEndianExact(n, v);
    LeadingByte(b);
    if b[0] >= 64 {
      MulMono(64, b[0], Pow256(n - 1));
    }
  }

  lemma VarIntReadsBack(v: nat, tail: seq<byte>)
    requires v < TWO62
    ensures ReadVarInt(VarIntBytes(v) + tail) == Some((v, tail))
  {
    var tag, n := VarIntTag(v), VarIntWidth(VarIntTag(v));
    var b := BigEndian(n, v);
    TagFits(v);
    FirstByteSmall(n, v);
    BigEndianExact(n, v);
    hide VarIntTag, BigEndian, FromBigEndian;
    var s := VarIntBytes(v) + tail;
    assert s[0] / 64 == tag && s[0] % 64 == b[0];
    assert [s[0] % 64] + s[1..n] == b && s[n..] == tail;
  }

  // ---------------------------------------------------------------------------
  // Writing
  // ---------------------------------------------------------------------------

  /** Gap and block length, each less one, for every interval below `start`. */
  function PairBytes(rest: PacketNumberQueue, start: nat): (s: seq<byte>)
    requires rest != [] ==> Last(rest).max < start
    decreases |rest|
  {
    if rest == [] then []
    else
      var i := Last(rest);
      VarIntBytes(start - i.max - 1) + (VarIntBytes(Length(i) - 1) + PairBytes(Init(rest), i.min))
  }

  const ACK_TYPE: byte := 0x1a

  /** The frame without its type byte. */
  function IetfAckBody(f: AckFrame): (s: seq<byte>)
    requires f.packets != [] && f.delay.Micros?
  {
    var top := Last(f.packets);
    VarIntBytes(f.largestAcked)
    + (VarIntBytes(f.delay.us / 8)
       + (VarIntBytes(|f.packets| - 1)
          + (VarIntBytes(Length(top) - 1) + PairBytes(Init(f.packets), top.min))))
  }

  // ---------------------------------------------------------------------------
  // Reading
  // ---------------------------------------------------------------------------

  /** Unsigned subtraction wraps around. */
  function Sub64(a: nat, b: nat): (r: nat)
    ensures b <= a < TWO64 ==> r == a - b
  {
    (a - b) % TWO64
  }

  /** The `AddRange` calls made, and the bytes left if all went well. */
  datatype CallsResult = CallsResult(ok: bool, calls: seq<Interval>, rest: seq<byte>)

  /** `count` pairs below the block from `low` to `high`. */
  function ParsePairs(count: nat, low: nat, high: nat, s: seq<byte>): (r: CallsResult)
    decreases count
  {
    if count == 0 then CallsResult(true, [], s)
    else
      var gap := ReadVarInt(s);
      if gap.None? then CallsResult(false, [], [])
      else
        var block := ReadVarInt(gap.value.1);
        if block.None? then CallsResult(false, [], [])
        else
          var shift := block.value.0 + gap.value.0 + 2;
          var l, h := Sub64(low, shift), Sub64(high, shift);
          Calls([Interval(l, h)], ParsePairs(count - 1, l, h, block.value.1))
  }

  /** Calls already made, in front of those still to come. */
  function Calls(done: seq<Interval>, p: CallsResult): (r: CallsResult)
  {
    CallsResult(p.ok, done + p.calls, p.rest)
  }

  lemma NoPairsLeft(low: nat, high: nat, s: seq<byte>)
    ensures ParsePairs(0, low, high, s) == CallsResult(true, [], s)
  {
  }

  lemma ParsePairsStep(count: nat, low: nat, high: nat, s: seq<byte>)
    requires count > 0
    ensures var gap := ReadVarInt(s);
            gap.None? ==> ParsePairs(count, low, high, s) == CallsResult(false, [], [])
    ensures var gap := ReadVarInt(s);
            gap.Some? && ReadVarInt(gap.value.1).None? ==> ParsePairs(count, low, high, s) == CallsResult(false, [], [])
    ensures var gap := ReadVarInt(s);
            gap.Some? && ReadVarInt(gap.value.1).Some? ==>
              var block := ReadVarInt(gap.value.1);
              var shift := block.value.0 + gap.value.0 + 2;
              var l, h := Sub64(low, shift), Sub64(high, shift);
              ParsePairs(count, low, high, s)
              == Calls([Interval(l, h)], ParsePairs(count - 1, l, h, block.value.1))
  {
    hide ReadVarInt, Sub64;
  }

  /** `PacketNumberQueue::AddRange`: only above, below or touching the current ranges. */
  function AddRange(q: seq<Interval>, low: nat, high: nat): (r: seq<Interval>)
  {
    if low >= high then q
    else if q == [] then [Interval(low, high)]
    else if Last(q).max == low then q[..|q| - 1] + [Interval(Last(q).min, high)]
    else if Last(q).max < low then q + [Interval(low, high)]
    else if q[0].min == high then [Interval(low, q[0].max)] + q[1..]
    else if q[0].min > high then [Interval(low, high)] + q
    else q
  }

  function AddAll(q: seq<Interval>, calls: seq<Interval>): (r: seq<Interval>)
    decreases |calls|
  {
    if calls == [] then q else AddAll(AddRange(q, calls[0].min, calls[0].max), calls[1..])
  }

  lemma NoCalls(q: seq<Interval>)
    ensures AddAll(q, []) == q
  {
  }

  lemma AddAllCons(q: seq<Interval>, c: Interval, calls: seq<Interval>)
    ensures AddAll(q, [c] + calls) == AddAll(AddRange(q, c.min, c.max), calls)
  {
    assert ([c] + calls)[1..] == calls;
  }

  ghost predicate Contains(q: seq<Interval>, x: nat)
  {
    exists i :: 0 <= i < |q| && q[i].min <= x < q[i].max
  }

  datatype IetfResult = IetfResult(ok: bool, largest: nat, delay: Delay, calls: seq<Interval>, rest: seq<byte>)

  const Failed := IetfResult(false, 0, Infinite, [], [])

  function IetfDelay(us: nat): (d: Delay)
  {
    if us == 0x3ffffffffff8 then Infinite else Micros(us)
  }

  /** The whole frame after its type byte. */
  function ParseIetfAck(s: seq<byte>): (r: IetfResult)
  {
    var largest := ReadVarInt(s);
    if largest.None? then Failed
    else
      var delay := ReadVarInt(largest.value.1);
      if delay.None? then Failed
      else
        var count := ReadVarInt(delay.value.1);
        if count.None? then Failed
        else
          var first := ReadVarInt(count.value.1);
          if first.None? then Failed
          else
            var top := Interval(Sub64(largest.value.0, first.value.0), largest.value.0 + 1);
            var p := ParsePairs(count.value.0, top.min, top.max, first.value.1);
            IetfResult(p.ok, largest.value.0, IetfDelay(U64(8 * delay.value.0)), [top] + p.calls, p.rest)
  }

  // ---------------------------------------------------------------------------
  // What the reader makes of the writer's frame
  // ---------------------------------------------------------------------------

  /** Every block slides down with the length of the top one. */
  function Slid(rest: PacketNumberQueue, length: nat): (calls: seq<Interval>)
    ensures |calls| == |rest|
    ensures forall k | 0 <= k < |rest| :: calls[k] == Interval(rest[|rest| - 1 - k].min, rest[|rest| - 1 - k].min + length)
  {
    if rest == [] then []
    else [Interval(Last(rest).min, Last(rest).min + length)] + Slid(Init(rest), length)
  }

  lemma {:induction false} ParseWrittenPairs(rest: PacketNumberQueue, start: nat, length: nat, tail: seq<byte>)
    requires rest != [] ==> Last(rest).max < start
    requires start + length <= TWO62
    ensures ParsePairs(|rest|, start, start + length, PairBytes(rest, start) + tail)
            == CallsResult(true, Slid(rest, length), tail)
    decreases |rest|
  {
    hide VarIntBytes, ReadVarInt, ParsePairs, PairBytes;
    if rest == [] {
      NoPairsWritten(start, tail);
      NoPairsLeft(start, start + length, tail);
    } else {
      var i := Last(rest);
      var more := PairBytes(Init(rest), i.min) + tail;
      PairBytesThen(rest, start, tail);
      VarIntReadsBack(start - i.max - 1, VarIntBytes(Length(i) - 1) + more);
      VarIntReadsBack(Length(i) - 1, more);
      ParsePairsStep(|rest|, start, start + length, PairBytes(rest, start) + tail);
      ParseWrittenPairs(Init(rest), i.min, length, tail);
    }
  }

  lemma NoPairsWritten(start: nat, tail: seq<byte>)
    ensures PairBytes([], start) + tail == tail
  {
  }

  lemma PairBytesThen(rest: PacketNumberQueue, start: nat, tail: seq<byte>)
    requires rest != [] && Last(rest).max < start
    ensures var i := Last(rest);
            PairBytes(rest, start) + tail
            == VarIntBytes(start - i.max - 1) + (VarIntBytes(Length(i) - 1) + (PairBytes(Init(rest), i.min) + tail))
  {
    hide VarIntBytes;
    var i := Last(rest);
    Regroup(VarIntBytes(start - i.max - 1), VarIntBytes(Length(i) - 1), PairBytes(Init(rest), i.min), tail);
  }

  lemma Regroup(a: seq<byte>, b: seq<byte>, c: seq<byte>, d: seq<byte>)
    ensures a + (b + c) + d == a + (b + (c + d))
  {
  }

  /** Frames whose fields all fit variable-length integers. */
  ghost predicate Encodable(f: AckFrame)
  {
    && f.packets != [] && f.delay.Micros? && Consistent(f)
    && Last(f.packets).max <= TWO62 && f.delay.us < TWO64
  }

  /** The low edge of every interval, and every high edge the low edge plus the length of the top
      interval. */
  ghost function SlidFrame(f: AckFrame, tail: seq<byte>): IetfResult
    requires f.packets != [] && f.delay.Micros?
  {
    IetfResult(true, f.largestAcked, IetfDelay(8 * (f.delay.us / 8)), Slid(f.packets, Length(Last(f.packets))), tail)
  }

  lemma {:induction false} CountBelowTop(s: PacketNumberQueue)
    ensures s != [] ==> |s| <= Last(s).max
  {
    if |s| > 1 {
      CountBelowTop(Init(s));
    }
  }

  lemma BodyThen(f: AckFrame, tail: seq<byte>)
    requires f.packets != [] && f.delay.Micros?
    ensures var top := Last(f.packets);
            IetfAckBody(f) + tail
            == VarIntBytes(f.largestAcked)
               + (VarIntBytes(f.delay.us / 8)
                  + (VarIntBytes(|f.packets| - 1)
                     + (VarIntBytes(Length(top) - 1) + (PairBytes(Init(f.packets), top.min) + tail))))
  {
    hide VarIntBytes, PairBytes;
    var top := Last(f.packets);
    FiveThen(VarIntBytes(f.largestAcked), VarIntBytes(f.delay.us / 8), VarIntBytes(|f.packets| - 1),
             VarIntBytes(Length(top) - 1), PairBytes(Init(f.packets), top.min), tail);
  }

  lemma FiveThen(a: seq<byte>, b: seq<byte>, c: seq<byte>, d: seq<byte>, e: seq<byte>, f: seq<byte>)
    ensures a + (b + (c + (d + e))) + f == a + (b + (c + (d + (e + f))))
  {
    assert d + e + f == d + (e + f);
    assert c + (d + e) + f == c + (d + e + f);
    assert b + (c + (d + e)) + f == b + (c + (d + e) + f);
  }

  /** Whatever follows the frame, it is read to its end and no further. */
  lemma IetfAckReadsBack(f: AckFrame, tail: seq<byte>)
    requires Encodable(f)
    ensures ParseIetfAck(IetfAckBody(f) + tail) == SlidFrame(f, tail)
  {
    hide VarIntBytes, ReadVarInt, PairBytes, ParsePairs, IetfAckBody;
    CountBelowTop(f.packets);
    BodyThen(f, tail);
    var top := Last(f.packets);
    var pairs := PairBytes(Init(f.packets), top.min) + tail;
    var d := VarIntBytes(Length(top) - 1) + pairs;
    var c := VarIntBytes(|f.packets| - 1) + d;
    var b := VarIntBytes(f.delay.us / 8) + c;
    VarIntReadsBack(f.largestAcked, b);
    VarIntReadsBack(f.delay.us / 8, c);
    VarIntReadsBack(|f.packets| - 1, d);
    VarIntReadsBack(Length(top) - 1, pairs);
    ParseWrittenPairs(Init(f.packets), top.min, Length(top), tail);
  }
}
