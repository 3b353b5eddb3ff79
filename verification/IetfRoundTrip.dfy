/**
 What the receiver of an IETF ACK frame ends up believing: the packet set it rebuilds
 is the sender's exactly when all intervals have the same length.
 */
module IetfRoundTrip {
  import opened Bytes
  import opened AckFormat
  import opened IetfAck

  lemma ContainsAt(q: seq<Interval>, k: nat, x: nat)
    requires k < |q| && q[k].min <= x < q[k].max
    ensures Contains(q, x)
  {
  }

  /** Above all the remaining intervals, `AddRange` only ever grows the set. */
  ghost predicate Below(rest: PacketNumberQueue, q: seq<Interval>)
  {
    && q != [] && q[0].min < q[0].max && q[0].min < Last(q).max
    && (forall x: nat | Contains(q, x) :: q[0].min <= x)
    && (rest != [] ==> Last(rest).max < q[0].min)
  }

  /** One more range under everything so far: prepended, merged at the seam, or dropped when it
      reaches into what is there. */
  lemma AddRangeBelow(q: seq<Interval>, low: nat, high: nat)
    requires q != [] && q[0].min < Last(q).max && low < q[0].min && low < high
    ensures high > q[0].min ==> AddRange(q, low, high) == q
    ensures high == q[0].min ==> AddRange(q, low, high) == [Interval(low, q[0].max)] + q[1..]
    ensures high < q[0].min ==> AddRange(q, low, high) == [Interval(low, high)] + q
  {
  }

  lemma ContainsHead(i: Interval, q: seq<Interval>, x: nat)
    ensures Contains([i] + q, x) <==> i.min <= x < i.max || Contains(q, x)
  {
    var r := [i] + q;
    if Contains(r, x) {
      var k :| 0 <= k < |r| && r[k].min <= x < r[k].max;
      if k > 0 {
        ContainsAt(q, k - 1, x);
      }
    }
    if Contains(q, x) {
      var k :| 0 <= k < |q| && q[k].min <= x < q[k].max;
      ContainsAt(r, k + 1, x);
    }
    if i.min <= x < i.max {
      ContainsAt(r, 0, x);
    }
  }

  lemma AddBelow(q: seq<Interval>, low: nat, high: nat)
    requires q != [] && q[0].min < q[0].max && q[0].min < Last(q).max && low < q[0].min && low < high
    ensures var r := AddRange(q, low, high);
            && r != [] && r[0].min < r[0].max && r[0].min < Last(r).max
            && (high > q[0].min ==> r == q)
            && (high <= q[0].min ==> r[0].min == low)
            && (forall x: nat :: Contains(r, x) <==> Contains(q, x) || (high <= q[0].min && low <= x < high))
  {
    hide AddRange, Contains;
    AddRangeBelow(q, low, high);
    assert q == [q[0]] + q[1..];
    forall x: nat
      ensures Contains(AddRange(q, low, high), x) <==> Contains(q, x) || (high <= q[0].min && low <= x < high)
    {
      ContainsHead(q[0], q[1..], x);
      ContainsHead(Interval(low, q[0].max), q[1..], x);
      ContainsHead(Interval(low, high), q, x);
    }
  }

  /** One turn of the receiver's loop over what the sender wrote. */
  lemma SlidStep(rest: PacketNumberQueue, length: nat, q: seq<Interval>)
    requires rest != []
    ensures var low := Last(rest).min;
            AddAll(q, Slid(rest, length)) == AddAll(AddRange(q, low, low + length), Slid(Init(rest), length))
  {
    assert Slid(rest, length)[1..] == Slid(Init(rest), length);
  }

  lemma {:induction false} Keeps(rest: PacketNumberQueue, length: nat, q: seq<Interval>, x: nat)
    requires length > 0 && Below(rest, q) && Contains(q, x)
    ensures Contains(AddAll(q, Slid(rest, length)), x)
    decreases |rest|
  {
    hide Slid, AddRange, Contains;
    if rest != [] {
      var low := Last(rest).min;
      SlidStep(rest, length, q);
      AddBelow(q, low, low + length);
      Keeps(Init(rest), length, AddRange(q, low, low + length), x);
    } else {
      NothingToAdd(length, q);
    }
  }

  lemma NothingToAdd(length: nat, q: seq<Interval>)
    ensures AddAll(q, Slid([], length)) == q
  {
  }

  ghost predicate Covered(q: seq<Interval>, low: nat, high: nat)
  {
    forall y: nat | low <= y < high :: Contains(q, y)
  }

  /** Where a number below the start can come from: one slid block, added whole. */
  lemma {:induction false} ComesFrom(rest: PacketNumberQueue, length: nat, q: seq<Interval>, x: nat)
    returns (j: nat)
    requires length > 0 && Below(rest, q) && !Contains(q, x)
    requires Contains(AddAll(q, Slid(rest, length)), x)
    ensures j < |rest| && rest[j].min <= x < rest[j].min + length <= q[0].min
    ensures Covered(AddAll(q, Slid(rest, length)), rest[j].min, rest[j].min + length)
    decreases |rest|
  {
    hide Slid, AddRange, Contains;
    NothingToAdd(length, q);
    var low := Last(rest).min;
    SlidStep(rest, length, q);
    AddBelow(q, low, low + length);
    var q' := AddRange(q, low, low + length);
    if Contains(q', x) {
      j := |rest| - 1;
      forall y: nat | low <= y < low + length ensures Contains(AddAll(q', Slid(Init(rest), length)), y) {
        Keeps(Init(rest), length, q', y);
      }
    } else {
      j := ComesFrom(Init(rest), length, q', x);
    }
  }

  ghost predicate SameLength(s: seq<Interval>, length: nat)
  {
    forall i | 0 <= i < |s| :: s[i].max == s[i].min + length
  }

  ghost predicate Agree(q: seq<Interval>, s: seq<Interval>, below: nat)
  {
    forall x: nat | x < below :: Contains(q, x) <==> Contains(s, x)
  }

  lemma {:induction false} BelowTop(s: PacketNumberQueue, i: nat)
    requires i < |s|
    ensures s[i].min < s[i].max <= Last(s).max
    ensures i + 1 < |s| ==> s[i].max < Last(s).min
    decreases |s|
  {
    if i + 1 < |s| {
      BelowTop(Init(s), i);
    }
  }

  lemma ContainsSplit(s: PacketNumberQueue, x: nat)
    requires s != []
    ensures Contains(s, x) <==> Contains(Init(s), x) || Last(s).min <= x < Last(s).max
    ensures Contains(Init(s), x) ==> x < Last(s).min
    ensures Contains(s, x) ==> x < Last(s).max
  {
    if Contains(s, x) {
      var i :| 0 <= i < |s| && s[i].min <= x < s[i].max;
      BelowTop(s, i);
      if i + 1 < |s| {
        ContainsAt(Init(s), i, x);
      }
    }
    if Contains(Init(s), x) {
      var i :| 0 <= i < |Init(s)| && Init(s)[i].min <= x < Init(s)[i].max;
      BelowTop(s, i);
      ContainsAt(s, i, x);
    }
    if Last(s).min <= x < Last(s).max {
      ContainsAt(s, |s| - 1, x);
    }
  }

  /** The end of an interval is not in the set. */
  lemma EndIsMissing(s: PacketNumberQueue, j: nat)
    requires j < |s|
    ensures !Contains(s, s[j].max)
    decreases |s|
  {
    ContainsSplit(s, s[j].max);
    BelowTop(s, j);
    if j + 1 < |s| {
      EndIsMissing(Init(s), j);
    }
  }

  /** A block longer than the top one loses its last packet. */
  lemma LongerLosesEnd(rest: PacketNumberQueue, length: nat, q: seq<Interval>)
    requires rest != [] && length > 0 && Below(rest, q) && Agree(AddAll(q, Slid(rest, length)), rest, q[0].min)
    ensures Last(rest).max - Last(rest).min <= length
  {
    hide Slid, AddRange, AddAll, Contains;
    var top := Last(rest);
    if top.max - top.min > length {
      var x := top.max - 1;
      ContainsSplit(rest, x);
      var j := ComesFrom(rest, length, q, x);
      BelowTop(rest, j);
    }
  }

  /** A block shorter than the top one brings in the number after its end, or is dropped. */
  lemma ShorterGainsEnd(rest: PacketNumberQueue, length: nat, q: seq<Interval>)
    requires rest != [] && length > 0 && Below(rest, q) && Agree(AddAll(q, Slid(rest, length)), rest, q[0].min)
    ensures length <= Last(rest).max - Last(rest).min
  {
    hide Slid, AddRange, AddAll, Contains;
    var top := Last(rest);
    if length > top.max - top.min {
      ContainsSplit(rest, top.min);
      var j := ComesFrom(rest, length, q, top.min);
      BelowTop(rest, j);
      EndIsMissing(rest, j);
    }
  }

  lemma {:induction false} NeedsSameLength(rest: PacketNumberQueue, length: nat, q: seq<Interval>)
    requires length > 0 && Below(rest, q) && Agree(AddAll(q, Slid(rest, length)), rest, q[0].min)
    ensures SameLength(rest, length)
    decreases |rest|
  {
    hide Slid, AddRange, AddAll, Contains;
    if rest != [] {
      var low := Last(rest).min;
      LongerLosesEnd(rest, length, q);
      ShorterGainsEnd(rest, length, q);
      SlidStep(rest, length, q);
      AddBelow(q, low, low + length);
      forall x: nat ensures x < low ==> (Contains(rest, x) <==> Contains(Init(rest), x)) {
        ContainsSplit(rest, x);
      }
      NeedsSameLength(Init(rest), length, AddRange(q, low, low + length));
    }
  }

  lemma {:induction false} SameLengthRebuilds(rest: PacketNumberQueue, length: nat, q: seq<Interval>)
    requires length > 0 && q != [] && SameLength(rest, length) && (rest != [] ==> Last(rest).max < q[0].min)
    requires q[0].min < Last(q).max
    ensures AddAll(q, Slid(rest, length)) == rest + q
    decreases |rest|
  {
    hide Slid, AddAll, AddRange;
    if rest == [] {
      NothingToAdd(length, q);
    } else {
      SlidStep(rest, length, q);
      AddRangeBelow(q, Last(rest).min, Last(rest).max);
      SameLengthRebuilds(Init(rest), length, [Last(rest)] + q);
      assert Init(rest) + ([Last(rest)] + q) == rest + q;
    }
  }

  /** The packet set a fresh frame holds after its `AddRange` calls. */
  function Received(calls: seq<Interval>): (q: seq<Interval>)
  {
    AddAll([], calls)
  }

  lemma FirstCall(s: PacketNumberQueue)
    requires s != []
    ensures var length := Length(Last(s)); length > 0 && Received(Slid(s, length)) == AddAll([Last(s)], Slid(Init(s), length))
  {
    SlidStep(s, Length(Last(s)), []);
  }

  /** The rebuilt packet set is the sender's if and only if every interval is as long as the top one;
      and then the intervals themselves are the sender's. */
  lemma IetfSetRoundTripIff(f: AckFrame, tail: seq<byte>)
    requires Encodable(f)
    ensures var got := Received(ParseIetfAck(IetfAckBody(f) + tail).calls); var length := Length(Last(f.packets));
            && ((forall x: nat :: Contains(got, x) <==> Contains(f.packets, x)) <==> SameLength(f.packets, length))
            && (SameLength(f.packets, length) ==> got == f.packets)
  {
    hide Slid, AddAll, ParseIetfAck, IetfAckBody, Contains, Received;
    IetfAckReadsBack(f, tail);
    RebuiltIff(f.packets);
  }

  lemma RebuiltIff(s: PacketNumberQueue)
    requires s != []
    ensures var length := Length(Last(s)); var got := Received(Slid(s, length));
            && ((forall x: nat :: Contains(got, x) <==> Contains(s, x)) <==> SameLength(s, length))
            && (SameLength(s, length) ==> got == s)
  {
    hide Slid, AddAll, Contains, Received;
    var rest, top, length := Init(s), Last(s), Length(Last(s));
    var got := Received(Slid(s, length));
    FirstCall(s);
    if SameLength(s, length) {
      SameLengthRebuilds(rest, length, [top]);
      assert rest + [top] == s;
    }
    if forall x: nat :: Contains(got, x) <==> Contains(s, x) {
      TopAlone(s);
      forall x: nat ensures x < top.min ==> (Contains(s, x) <==> Contains(rest, x)) {
        ContainsSplit(s, x);
      }
      NeedsSameLength(rest, length, [top]);
      assert s == rest + [top];
    }
  }

  lemma TopAlone(s: PacketNumberQueue)
    requires s != []
    ensures Below(Init(s), [Last(s)])
  {
  }

  function OneThenThree(): (s: PacketNumberQueue)
  {
    var s := [Interval(1, 2), Interval(5, 8)];
    assert s[..1] == [Interval(1, 2)] && Separated(s[..1]);
    s
  }

  /** Packets 1, 5, 6 and 7 arrive as 1, 2, 3, 5, 6 and 7: two packets acknowledged that never were. */
  lemma ShortBlockGrows(tail: seq<byte>)
    ensures var f := AckFrame(7, Micros(0), OneThenThree());
            && Encodable(f)
            && Received(ParseIetfAck(IetfAckBody(f) + tail).calls) == [Interval(1, 4), Interval(5, 8)]
  {
    hide ParseIetfAck, IetfAckBody;
    var s := OneThenThree();
    IetfAckReadsBack(AckFrame(7, Micros(0), s), tail);
    assert Slid(s, 3) == [Interval(5, 8), Interval(1, 4)];
    assert [Interval(5, 8), Interval(1, 4)][1..] == [Interval(1, 4)];
  }

  /** The delay survives exactly when it is a multiple of eight microseconds and not the one value the
      reader takes for infinity. */
  lemma IetfDelayIff(f: AckFrame, tail: seq<byte>)
    requires Encodable(f)
    ensures ParseIetfAck(IetfAckBody(f) + tail).delay == f.delay <==> f.delay.us % 8 == 0 && f.delay.us != 0x3ffffffffff8
  {
    hide ParseIetfAck, IetfAckBody, Slid;
    IetfAckReadsBack(f, tail);
  }
}
