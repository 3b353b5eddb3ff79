/**
 What the reader of an IETF ACK frame can be made to believe by bytes that no writer produced.
 */
module IetfLimits {
  import opened Bytes
  import opened Wire
  import opened AckFormat
  import opened IetfAck
  import opened IetfRoundTrip

  // ---------------------------------------------------------------------------
  // The queue stays a queue
  // ---------------------------------------------------------------------------

  lemma {:induction false} FrontOfQueue(q: PacketNumberQueue)
    requires q != []
    ensures q[0].min < q[0].max <= Last(q).max && Separated(q[1..])
    ensures |q| > 1 ==> q[0].max < q[1].min && Last(q[1..]) == Last(q)
    decreases |q|
  {
    if |q| == 1 {
      assert q[1..] == [];
    } else {
      FrontOfQueue(Init(q));
      assert q[1..][..|q| - 2] == Init(q)[1..];
    }
  }

  lemma {:induction false} PushFront(i: Interval, q: PacketNumberQueue)
    requires i.min < i.max && (q != [] ==> i.max < q[0].min)
    ensures Separated([i] + q)
    decreases |q|
  {
    var r := [i] + q;
    if q == [] {
      assert r == [i] && r[..0] == [];
    } else {
      PushFront(i, Init(q));
      assert r[..|r| - 1] == [i] + Init(q);
    }
  }

  /** `AddRange` keeps the intervals ascending, non-empty and apart, whatever it is called with. */
  lemma AddRangeSeparated(q: PacketNumberQueue, low: nat, high: nat)
    ensures Separated(AddRange(q, low, high))
  {
    hide Separated;
    var r := AddRange(q, low, high);
    if low < high && q != [] {
      FrontOfQueue(q);
      if Last(q).max == low {
        ExtendBack(q, high);
      } else if Last(q).max < low {
        PushBack(q, Interval(low, high));
      } else if q[0].min == high {
        PushFront(Interval(low, q[0].max), q[1..]);
      } else if q[0].min > high {
        PushFront(Interval(low, high), q);
      }
    } else if low < high {
      PushFront(Interval(low, high), []);
      assert [Interval(low, high)] + [] == r;
    }
  }

  lemma ExtendBack(q: PacketNumberQueue, high: nat)
    requires q != [] && Last(q).max < high
    ensures Separated(q[..|q| - 1] + [Interval(Last(q).min, high)])
  {
    var r := q[..|q| - 1] + [Interval(Last(q).min, high)];
    assert r[..|r| - 1] == q[..|q| - 1];
  }

  lemma PushBack(q: PacketNumberQueue, i: Interval)
    requires i.min < i.max && (q != [] ==> Last(q).max < i.min)
    ensures Separated(q + [i])
  {
    assert (q + [i])[..|q|] == q;
  }

  lemma {:induction false} AddAllSeparated(q: PacketNumberQueue, calls: seq<Interval>)
    ensures Separated(AddAll(q, calls))
    decreases |calls|
  {
    if calls != [] {
      AddRangeSeparated(q, calls[0].min, calls[0].max);
      AddAllSeparated(AddRange(q, calls[0].min, calls[0].max), calls[1..]);
    }
  }

  /** And it never forgets a packet. */
  lemma AddRangeGrows(q: PacketNumberQueue, low: nat, high: nat, x: nat)
    requires Contains(q, x)
    ensures Contains(AddRange(q, low, high), x)
  {
    hide Separated;
    var k :| 0 <= k < |q| && q[k].min <= x < q[k].max;
    var r := AddRange(q, low, high);
    if low < high {
      if Last(q).max <= low {
        ContainsAt(r, k, x);
      } else if q[0].min == high {
        ContainsAt(r, k, x);
      } else if q[0].min > high {
        ContainsAt(r, k + 1, x);
      }
    }
  }

  lemma {:induction false} AddAllGrows(q: PacketNumberQueue, calls: seq<Interval>, x: nat)
    requires Contains(q, x)
    ensures Contains(AddAll(q, calls), x)
    decreases |calls|
  {
    hide Contains;
    if calls != [] {
      AddRangeSeparated(q, calls[0].min, calls[0].max);
      AddRangeGrows(q, calls[0].min, calls[0].max, x);
      AddAllGrows(AddRange(q, calls[0].min, calls[0].max), calls[1..], x);
    }
  }

  // ---------------------------------------------------------------------------
  // Wrapping subtraction
  // ---------------------------------------------------------------------------

  lemma VarIntSmall(s: seq<byte>)
    requires ReadVarInt(s).Some?
    ensures ReadVarInt(s).value.0 < TWO62
  {
    var n := VarIntWidth(s[0] / 64);
    var b: seq<byte> := [s[0] % 64] + s[1..n];
    Pow256Values();
    LeadingByte(b);
    assert Pow256(3) == 256 * Pow256(2) && Pow256(7) == 256 * Pow256(6);
    MulMono(s[0] % 64, 63, Pow256(n - 1));
  }

  lemma ModOfMod(x: int, c: int)
    ensures (x % TWO64 - c) % TWO64 == (x - c) % TWO64
  {
    var q := x / TWO64;
    assert x % TWO64 - c == x - c - TWO64 * q;
  }

  lemma SubSwaps(a: nat, b: nat, c: nat)
    ensures Sub64(Sub64(a, b), c) == Sub64(Sub64(a, c), b)
  {
    ModOfMod(a - b, c);
    ModOfMod(a - c, b);
  }

  lemma SubWraps(a: nat, b: nat)
    requires a < b <= TWO64
    ensures Sub64(a, b) == a - b + TWO64
  {
  }

  /** Some pair read shifts the high edge below zero. */
  predicate HighWraps(count: nat, high: nat, s: seq<byte>)
    decreases count
  {
    count > 0 && ReadVarInt(s).Some? &&
    var gap := ReadVarInt(s).value;
    ReadVarInt(gap.1).Some? &&
    var block := ReadVarInt(gap.1).value;
    var shift := block.0 + gap.0 + 2;
    high < shift || HighWraps(count - 1, high - shift, block.1)
  }

  // ---------------------------------------------------------------------------
  // What the rebuilt set holds
  // ---------------------------------------------------------------------------

  ghost predicate Within(q: seq<Interval>, top: nat)
  {
    forall x: nat | Contains(q, x) :: x < top
  }

  ghost predicate Under(q: PacketNumberQueue, top: nat)
  {
    q != [] ==> Last(q).max <= top
  }

  lemma UnderIsWithin(q: PacketNumberQueue, top: nat)
    requires Under(q, top)
    ensures Within(q, top)
  {
    forall x: nat | Contains(q, x) ensures x < top {
      ContainsSplit(q, x);
    }
  }

  lemma AddRangeUnder(q: PacketNumberQueue, low: nat, high: nat, top: nat)
    requires Under(q, top) && high <= top
    ensures Separated(AddRange(q, low, high)) && Under(AddRange(q, low, high), top)
  {
    hide Separated;
    AddRangeSeparated(q, low, high);
  }

  /** A range above everything is taken in. */
  lemma AddRangeAbove(q: PacketNumberQueue, low: nat, high: nat)
    requires Under(q, low) && low < high
    ensures Contains(AddRange(q, low, high), low)
  {
    hide Separated;
    var r := AddRange(q, low, high);
    if q != [] {
      BelowTop(q, |q| - 1);
    }
    ContainsAt(r, |r| - 1, low);
  }

  /** Once the high edge has wrapped, the block is added far above the largest number. */
  lemma WrappedBlock(q: PacketNumberQueue, d: nat, high: nat, shift: nat, top: nat)
    requires Under(q, top) && high < shift <= 2 * TWO62 && high <= top <= TWO62 && 1 <= d <= TWO62
    ensures var l, h := Sub64(Sub64(high, d), shift), Sub64(high, shift);
            l >= top && Contains(AddRange(q, l, h), l)
  {
    hide Contains, AddRange, Separated;
    SubSwaps(high, d, shift);
    SubWraps(high, shift);
    var l, h := Sub64(Sub64(high, d), shift), Sub64(high, shift);
    assert l == h - d;
    AddRangeAbove(q, l, h);
  }

  lemma PairsStep(count: nat, low: nat, high: nat, s: seq<byte>)
    requires count > 0
    ensures ReadVarInt(s).None? ==> ParsePairs(count, low, high, s).calls == [] && !HighWraps(count, high, s)
    ensures ReadVarInt(s).Some? && ReadVarInt(ReadVarInt(s).value.1).None? ==>
              ParsePairs(count, low, high, s).calls == [] && !HighWraps(count, high, s)
    ensures ReadVarInt(s).Some? && ReadVarInt(ReadVarInt(s).value.1).Some? ==>
              var gap, block := ReadVarInt(s).value, ReadVarInt(ReadVarInt(s).value.1).value;
              var shift := block.0 + gap.0 + 2;
              && ParsePairs(count, low, high, s).calls
                 == [Interval(Sub64(low, shift), Sub64(high, shift))]
                    + ParsePairs(count - 1, Sub64(low, shift), Sub64(high, shift), block.1).calls
              && (HighWraps(count, high, s) <==> high < shift || HighWraps(count - 1, high - shift, block.1))
  {
    hide ReadVarInt, Sub64;
  }

  lemma {:induction false} PairsWithinIff(count: nat, d: nat, high: nat, top: nat, s: seq<byte>, q: PacketNumberQueue)
    requires Under(q, top) && high <= top <= TWO62 && 1 <= d <= TWO62
    ensures Within(AddAll(q, ParsePairs(count, Sub64(high, d), high, s).calls), top) <==> !HighWraps(count, high, s)
    decreases count, 0
  {
    hide ReadVarInt, ParsePairs, HighWraps, Sub64, AddRange, Contains, Separated, Under, Within, AddAll;
    var low := Sub64(high, d);
    if count == 0 {
      LoopEnds(low, high, s, q);
      UnderIsWithin(q, top);
    } else {
      PairsStep(count, low, high, s);
      NoCalls(q);
      UnderIsWithin(q, top);
      if ReadVarInt(s).Some? && ReadVarInt(ReadVarInt(s).value.1).Some? {
        var gap, block := ReadVarInt(s).value, ReadVarInt(ReadVarInt(s).value.1).value;
        var shift := block.0 + gap.0 + 2;
        VarIntSmall(s);
        VarIntSmall(gap.1);
        OnePairWithinIff(count - 1, d, high, shift, top, block.1, q);
      }
    }
  }

  lemma OnePairWithinIff(count: nat, d: nat, high: nat, shift: nat, top: nat, s: seq<byte>, q: PacketNumberQueue)
    requires Under(q, top) && high <= top <= TWO62 && 1 <= d <= TWO62 && shift <= 2 * TWO62
    ensures var l, h := Sub64(Sub64(high, d), shift), Sub64(high, shift);
            Within(AddAll(q, [Interval(l, h)] + ParsePairs(count, l, h, s).calls), top)
            <==> !(high < shift || HighWraps(count, high - shift, s))
    decreases count, 1
  {
    hide ReadVarInt, ParsePairs, HighWraps, AddRange, Contains, Separated;
    var l, h := Sub64(Sub64(high, d), shift), Sub64(high, shift);
    var calls := ParsePairs(count, l, h, s).calls;
    AddAllCons(q, Interval(l, h), calls);
    AddRangeSeparated(q, l, h);
    if high < shift {
      WrappedBlock(q, d, high, shift, top);
      AddAllGrows(AddRange(q, l, h), calls, l);
    } else {
      SubSwaps(high, d, shift);
      AddRangeUnder(q, l, h, top);
      PairsWithinIff(count, d, h, top, s, AddRange(q, l, h));
    }
  }

  lemma LoopEnds(low: nat, high: nat, s: seq<byte>, q: seq<Interval>)
    ensures AddAll(q, ParsePairs(0, low, high, s).calls) == q && !HighWraps(0, high, s)
  {
  }

  // ---------------------------------------------------------------------------
  // Whole frames
  // ---------------------------------------------------------------------------

  /** The frame is read as far as its blocks, and one of them shifts the high edge below zero. */
  predicate IetfWraps(s: seq<byte>)
  {
    ReadVarInt(s).Some? && var largest := ReadVarInt(s).value;
    ReadVarInt(largest.1).Some? && var delay := ReadVarInt(largest.1).value;
    ReadVarInt(delay.1).Some? && var count := ReadVarInt(delay.1).value;
    ReadVarInt(count.1).Some? && var first := ReadVarInt(count.1).value;
    HighWraps(count.0, largest.0 + 1, first.1)
  }

  /** From the first block on, into a fresh frame. */
  lemma BlocksWithinIff(largest: nat, first: nat, count: nat, s: seq<byte>)
    requires largest < TWO62 && first < TWO62
    ensures var top := Interval(Sub64(largest, first), largest + 1);
            Within(Received([top] + ParsePairs(count, top.min, top.max, s).calls), largest + 1)
            <==> !HighWraps(count, largest + 1, s)
  {
    hide ReadVarInt, ParsePairs, HighWraps, AddRange, Contains, Within;
    var low, high, d := Sub64(largest, first), largest + 1, first + 1;
    var calls := ParsePairs(count, low, high, s).calls;
    assert low == Sub64(high, d);
    AddAllCons([], Interval(low, high), calls);
    AddRangeUnder([], low, high, high);
    PairsWithinIff(count, d, high, high, s, AddRange([], low, high));
  }

  /** On any bytes at all: the rebuilt packet set is a proper queue; and it lies within [0, largest + 1) if
      and only if no high edge wraps. */
  lemma IetfSoundIff(s: seq<byte>)
    ensures var r := ParseIetfAck(s); var got := Received(r.calls);
            && Separated(got)
            && (r.calls == [] ==> got == [] && !IetfWraps(s))
            && (r.calls != [] ==> (Within(got, r.largest + 1) <==> !IetfWraps(s)))
  {
    hide ReadVarInt, ParsePairs, HighWraps, AddAll, Within, IetfDelay, U64, Sub64;
    NoCalls([]);
    AddAllSeparated([], ParseIetfAck(s).calls);
    if ParseIetfAck(s).calls != [] {
      var largest := ReadVarInt(s).value;
      var count := ReadVarInt(ReadVarInt(largest.1).value.1).value;
      var first := ReadVarInt(count.1).value;
      VarIntSmall(s);
      VarIntSmall(count.1);
      BlocksWithinIff(largest.0, first.0, count.0, first.1);
    }
  }

  lemma OneByteValue(b: byte, rest: seq<byte>)
    requires b < 64
    ensures ReadVarInt([b] + rest) == Some((b, rest))
  {
    var s := [b] + rest;
    assert [s[0] % 64] + s[1..1] == [b] && s[1..] == rest;
    assert [b][..0] == [] && FromBigEndian([b]) == 256 * FromBigEndian([]) + b;
  }

  /** Six bytes that make it wrap: packet 5 acknowledged, then a gap of eleven. */
  const Wrapping: seq<byte> := [5, 0, 1, 0, 10, 0]

  lemma WrappingReads()
    ensures ReadVarInt(Wrapping) == Some((5, [0, 1, 0, 10, 0])) && ReadVarInt([0, 1, 0, 10, 0]) == Some((0, [1, 0, 10, 0]))
    ensures ReadVarInt([1, 0, 10, 0]) == Some((1, [0, 10, 0])) && ReadVarInt([0, 10, 0]) == Some((0, [10, 0]))
    ensures ReadVarInt([10, 0]) == Some((10, [0])) && ReadVarInt([0]) == Some((0, []))
  {
    hide ReadVarInt;
    OneByteValue(5, [0, 1, 0, 10, 0]);
    OneByteValue(0, [1, 0, 10, 0]);
    OneByteValue(1, [0, 10, 0]);
    OneByteValue(0, [10, 0]);
    OneByteValue(10, [0]);
    OneByteValue(0, []);
    assert [5] + [0, 1, 0, 10, 0] == Wrapping && [0] + [1, 0, 10, 0] == [0, 1, 0, 10, 0];
    assert [1] + [0, 10, 0] == [1, 0, 10, 0] && [0] + [10, 0] == [0, 10, 0] && [10] + [0] == [10, 0] && [0] + [] == [0];
  }

  /** They are accepted, and leave a packet near the top of the number space in the set. */
  lemma IetfCanWrap()
    ensures IetfWraps(Wrapping) && ParseIetfAck(Wrapping).ok
    ensures Received(ParseIetfAck(Wrapping).calls) == [Interval(5, 6), Interval(TWO64 - 7, TWO64 - 6)]
  {
    hide ReadVarInt, ParsePairs;
    WrappingReads();
    var far := Interval(TWO64 - 7, TWO64 - 6);
    ParsePairsStep(1, 5, 6, [10, 0]);
    NoPairsLeft(far.min, far.max, []);
    assert [Interval(5, 6)] + [far] == [Interval(5, 6), far];
    AddAllCons([], Interval(5, 6), [far]);
    AddAllCons([Interval(5, 6)], far, []);
    assert [far] + [] == [far];
  }
}
