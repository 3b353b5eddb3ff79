/**
 Writing and reading IETF ACK frames, field by field, over the writer and the reader.
 */
module IetfFramer {
  import opened Bytes
  import opened Wire
  import opened AckFormat
  import opened IetfAck
  import opened AckFramer

  /** Values of 62 bits and fewer; the width is the narrowest that holds the value. */
  method WriteVarInt62(value: nat, w: DataWriter) returns (ok: bool)
    requires w.Valid()
    modifies w, w.buffer
    ensures w.Valid() && old(w.Written()) <= w.Written()
    ensures ok == (value < TWO62 && |VarIntBytes(value)| <= old(w.Room()))
    ensures ok ==> w.Written() == old(w.Written()) + VarIntBytes(value)
  {
    hide VarIntBytes, DataWriter.Written;
    if value >= TWO62 {
      return false;
    }
    ok := w.WriteBytes(VarIntBytes(value));
  }

  method ReadVarInt62(r: DataReader) returns (v: Option<nat>)
    requires r.Valid()
    modifies r
    ensures r.Valid()
    ensures var p := ReadVarInt(old(r.Rest()));
            v.Some? == p.Some? && (v.Some? ==> v.value == p.value.0 && r.Rest() == p.value.1)
  {
    if r.pos == |r.data| {
      return None;
    }
    var n := VarIntWidth(r.data[r.pos] / 64);
    ghost var s := r.Rest();
    if n > |r.data| - r.pos {
      return None;
    }
    v := Some(FromBigEndian([r.data[r.pos] % 64] + r.data[r.pos + 1..r.pos + n]));
    assert s[1..n] == r.data[r.pos + 1..r.pos + n] && s[n..] == r.data[r.pos + n..];
    r.pos := r.pos + n;
  }

  // ---------------------------------------------------------------------------
  // Writing
  // ---------------------------------------------------------------------------

  lemma JoinWrites(a: seq<byte>, b: seq<byte>, c: seq<byte>)
    ensures a + b + c == a + (b + c)
  {
  }

  /** Two variable-length integers. */
  method AppendTwo(a: nat, b: nat, w: DataWriter) returns (ok: bool)
    requires w.Valid() && a < TWO62 && b < TWO62
    modifies w, w.buffer
    ensures Appends(w, VarIntBytes(a) + VarIntBytes(b), ok)
  {
    hide VarIntBytes, VarIntWidth, VarIntTag, DataWriter.Written;
    ghost var before := w.Written();
    ok := WriteVarInt62(a, w);
    if ok {
      ok := WriteVarInt62(b, w);
      JoinWrites(before, VarIntBytes(a), VarIntBytes(b));
    }
  }

  /** The blocks below the first. */
  method AppendPairs(packets: PacketNumberQueue, w: DataWriter) returns (ok: bool)
    requires w.Valid() && packets != [] && Last(packets).max <= TWO62
    modifies w, w.buffer
    ensures Appends(w, PairBytes(Init(packets), Last(packets).min), ok)
  {
    hide VarIntBytes, VarIntWidth, VarIntTag, PairBytes, DataWriter.Written;
    var rest := Init(packets);
    var previousAckEnd: nat := Last(packets).min;
    ghost var before, all := w.Written(), PairBytes(rest, previousAckEnd);
    ghost var done: seq<byte> := [];
    while rest != []
      invariant w.Valid() && w.Written() == before + done
      invariant previousAckEnd <= TWO62
      invariant rest != [] ==> Last(rest).max < previousAckEnd
      invariant all == done + PairBytes(rest, previousAckEnd)
      decreases |rest|
    {
      var i := Last(rest);
      ghost var pair := VarIntBytes(previousAckEnd - i.max - 1) + VarIntBytes(Length(i) - 1);
      PairBytesStep(rest, previousAckEnd);
      JoinWrites(done, pair, PairBytes(Init(rest), i.min));
      ok := AppendTwo(previousAckEnd - i.max - 1, Length(i) - 1, w);
      if !ok {
        return;
      }
      JoinWrites(before, done, pair);
      done := done + pair;
      rest, previousAckEnd := Init(rest), i.min;
    }
    NoPairs(previousAckEnd);
    ok := true;
  }

  lemma PairBytesStep(rest: PacketNumberQueue, start: nat)
    requires rest != [] && Last(rest).max < start
    ensures var i := Last(rest);
            PairBytes(rest, start)
            == (VarIntBytes(start - i.max - 1) + VarIntBytes(Length(i) - 1)) + PairBytes(Init(rest), i.min)
  {
    var i := Last(rest);
    JoinWrites(VarIntBytes(start - i.max - 1), VarIntBytes(Length(i) - 1), PairBytes(Init(rest), i.min));
  }

  lemma NoPairs(start: nat)
    ensures PairBytes([], start) == []
  {
  }

  /** The fields before the first block, then that block. */
  method AppendIetfHead(f: AckFrame, w: DataWriter) returns (ok: bool)
    requires w.Valid() && Encodable(f)
    modifies w, w.buffer
    ensures Appends(w, [ACK_TYPE] + HeadFields(f), ok)
  {
    hide VarIntBytes, VarIntWidth, VarIntTag, DataWriter.Written, HeadFields;
    CountBelowTop(f.packets);
    ghost var before := w.Written();
    ghost var numbers := VarIntBytes(f.largestAcked) + VarIntBytes(f.delay.us / 8);
    ghost var counts := VarIntBytes(|f.packets| - 1) + VarIntBytes(Length(Last(f.packets)) - 1);
    HeadInTwo(f);
    JoinWrites(before, [ACK_TYPE], numbers);
    JoinWrites(before, [ACK_TYPE] + numbers, counts);
    ok := w.WriteUInt8(ACK_TYPE);
    if !ok {
      return;
    }
    ok := AppendTwo(f.largestAcked, f.delay.us / 8, w);
    if !ok {
      return;
    }
    ok := AppendTwo(|f.packets| - 1, Length(Last(f.packets)) - 1, w);
  }

  ghost function HeadFields(f: AckFrame): seq<byte>
    requires f.packets != [] && f.delay.Micros?
  {
    VarIntBytes(f.largestAcked)
    + (VarIntBytes(f.delay.us / 8)
       + (VarIntBytes(|f.packets| - 1) + VarIntBytes(Length(Last(f.packets)) - 1)))
  }

  lemma HeadInTwo(f: AckFrame)
    requires f.packets != [] && f.delay.Micros?
    ensures var numbers := VarIntBytes(f.largestAcked) + VarIntBytes(f.delay.us / 8);
            var counts := VarIntBytes(|f.packets| - 1) + VarIntBytes(Length(Last(f.packets)) - 1);
            [ACK_TYPE] + HeadFields(f) == ([ACK_TYPE] + numbers) + counts
  {
    hide VarIntBytes;
  }

  /** Fails on an infinite delay, on an empty packet set and on numbers over 62 bits; otherwise the
      whole frame is written, or there is no room for it. */
  method AppendIetfAckFrame(f: AckFrame, w: DataWriter) returns (ok: bool)
    requires w.Valid() && Consistent(f) && (f.delay.Micros? ==> f.delay.us < TWO64)
    modifies w, w.buffer
    ensures Encodable(f) ==> Appends(w, [ACK_TYPE] + IetfAckBody(f), ok)
    ensures !Encodable(f) ==> !ok && w.Valid()
  {
    hide VarIntBytes, VarIntWidth, VarIntTag, PairBytes, DataWriter.Written, IetfAckBody, HeadFields;
    if f.packets == [] || f.delay.Infinite? || Last(f.packets).max > TWO62 {
      return false;
    }
    ghost var before := w.Written();
    ghost var head, pairs := HeadFields(f), PairBytes(Init(f.packets), Last(f.packets).min);
    BodyIsHeadThenPairs(f);
    ok := AppendIetfHead(f, w);
    if ok {
      JoinWrites(before, [ACK_TYPE] + head, pairs);
      ok := AppendPairs(f.packets, w);
    }
  }

  lemma BodyIsHeadThenPairs(f: AckFrame)
    requires f.packets != [] && f.delay.Micros?
    ensures [ACK_TYPE] + IetfAckBody(f)
            == ([ACK_TYPE] + HeadFields(f)) + PairBytes(Init(f.packets), Last(f.packets).min)
  {
    hide VarIntBytes, PairBytes;
  }

  // ---------------------------------------------------------------------------
  // Reading
  // ---------------------------------------------------------------------------

  /** The frame the reader fills in. */
  class AckFrameState {
    var largestAcked: nat
    var delay: Delay
    var packets: seq<Interval>

    constructor ()
      ensures packets == []
    {
      largestAcked, delay, packets := 0, Infinite, [];
    }
  }

  lemma {:induction false} AddAllSnoc(q: seq<Interval>, calls: seq<Interval>, c: Interval)
    ensures AddAll(q, calls + [c]) == AddRange(AddAll(q, calls), c.min, c.max)
    decreases |calls|
  {
    if calls == [] {
      assert [c][1..] == [];
    } else {
      assert (calls + [c])[1..] == calls[1..] + [c];
      AddAllSnoc(AddRange(q, calls[0].min, calls[0].max), calls[1..], c);
    }
  }

  /** `count` gap and block pairs below the block from `low` to `high`. */
  method ProcessPairs(count: nat, low: nat, high: nat, r: DataReader, frame: AckFrameState) returns (ok: bool)
    requires r.Valid()
    modifies r, frame`packets
    ensures r.Valid()
    ensures var p := ParsePairs(count, low, high, old(r.Rest()));
            && ok == p.ok && (ok ==> r.Rest() == p.rest)
            && frame.packets == AddAll(old(frame.packets), p.calls)
  {
    hide ReadVarInt, ParsePairs, AddRange, AddAll, DataReader.Rest, Sub64;
    var left, blockLow, blockHigh := count, low, high;
    ghost var p := ParsePairs(count, low, high, r.Rest());
    ghost var done: seq<Interval> := [];
    assert frame.packets == AddAll(frame.packets, []) by {
      NoCalls(frame.packets);
    }
    while left != 0
      invariant r.Valid()
      invariant p == Calls(done, ParsePairs(left, blockLow, blockHigh, r.Rest()))
      invariant frame.packets == AddAll(old(frame.packets), done)
      invariant done + [] == done
    {
      ParsePairsStep(left, blockLow, blockHigh, r.Rest());
      var gap := ReadVarInt62(r);
      if gap.None? {
        return false;
      }
      var block := ReadVarInt62(r);
      if block.None? {
        return false;
      }
      var shift := block.value + gap.value + 2;
      blockHigh, blockLow := Sub64(blockHigh, shift), Sub64(blockLow, shift);
      AddAllSnoc(old(frame.packets), done, Interval(blockLow, blockHigh));
      frame.packets := AddRange(frame.packets, blockLow, blockHigh);
      CallsSnoc(done, Interval(blockLow, blockHigh), ParsePairs(left - 1, blockLow, blockHigh, r.Rest()));
      done := done + [Interval(blockLow, blockHigh)];
      left := left - 1;
    }
    NoPairsLeft(blockLow, blockHigh, r.Rest());
    ok := true;
  }

  lemma CallsSnoc(done: seq<Interval>, c: Interval, p: CallsResult)
    ensures Calls(done, Calls([c], p)) == Calls(done + [c], p)
  {
  }

  method ProcessIetfAckFrame(r: DataReader, frame: AckFrameState) returns (ok: bool)
    requires r.Valid()
    modifies r, frame
    ensures r.Valid()
    ensures var p := ParseIetfAck(old(r.Rest()));
            && ok == p.ok && (ok ==> r.Rest() == p.rest)
            && frame.packets == AddAll(old(frame.packets), p.calls)
            && (ok ==> frame.largestAcked == p.largest && frame.delay == p.delay)
  {
    hide ReadVarInt, ParsePairs, AddRange, AddAll, DataReader.Rest, Sub64, IetfDelay, U64;
    NoCalls(frame.packets);
    ghost var q := frame.packets;
    var largest := ReadVarInt62(r);
    if largest.None? {
      return false;
    }
    frame.largestAcked := largest.value;
    var delay := ReadVarInt62(r);
    if delay.None? {
      return false;
    }
    frame.delay := IetfDelay(U64(8 * delay.value));
    var count := ReadVarInt62(r);
    if count.None? {
      return false;
    }
    var first := ReadVarInt62(r);
    if first.None? {
      return false;
    }
    var top := Interval(Sub64(largest.value, first.value), largest.value + 1);
    frame.packets := AddRange(frame.packets, top.min, top.max);
    ghost var p := ParsePairs(count.value, top.min, top.max, r.Rest());
    AddAllCons(q, top, p.calls);
    ok := ProcessPairs(count.value, top.min, top.max, r, frame);
  }
}
