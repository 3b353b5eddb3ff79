/**
 The bandwidth sampler's arithmetic: cumulative byte counters, a snapshot of them for every packet
 in flight, and the rate sample made when a packet is acknowledged.
 Times are microseconds, rates bits per second.
 */
module Sampling {
  import opened Totals

  /** The counters as they stood when the packet was sent. */
  datatype PacketState = PacketState(
    sentTime: nat,
    size: nat,
    totalBytesSent: nat,
    totalBytesSentAtLastAcked: nat,
    lastAckedSentTime: nat,
    lastAckedAckTime: nat,
    totalBytesAcked: nat)

  datatype State = State(
    totalBytesSent: nat,
    totalBytesAcked: nat,
    totalBytesSentAtLastAcked: nat,
    lastAckedSentTime: nat,
    lastAckedAckTime: nat,
    packets: map<nat, PacketState>)

  const Fresh := State(0, 0, 0, 0, 0, map[])

  /** Inserting a number already present changes nothing. */
  function Insert(m: map<nat, PacketState>, number: nat, p: PacketState): (r: map<nat, PacketState>)
  {
    if number in m then m else m[number := p]
  }

  /** An idle connection restarts the reference point at this packet. */
  function Restarted(s: State, time: nat, bytesInFlight: nat): (r: State)
  {
    if bytesInFlight == 0 then
      s.(lastAckedAckTime := time, totalBytesSentAtLastAcked := s.totalBytesSent, lastAckedSentTime := time)
    else s
  }

  function Snapshot(s: State, time: nat, bytes: nat): (p: PacketState)
  {
    PacketState(time, bytes, s.totalBytesSent, s.totalBytesSentAtLastAcked, s.lastAckedSentTime,
                s.lastAckedAckTime, s.totalBytesAcked)
  }

  function Sent(s: State, time: nat, number: nat, bytes: nat, bytesInFlight: nat): (r: State)
  {
    var t := Restarted(s.(totalBytesSent := s.totalBytesSent + bytes), time, bytesInFlight);
    t.(packets := Insert(t.packets, number, Snapshot(t, time, bytes)))
  }

  function Lost(s: State, number: nat): (r: State)
  {
    s.(packets := s.packets - {number})
  }

  function Acked(s: State, time: nat, number: nat): (r: State)
  {
    if number !in s.packets then s
    else
      var p := s.packets[number];
      s.(totalBytesAcked := s.totalBytesAcked + p.size, totalBytesSentAtLastAcked := p.totalBytesSent,
         lastAckedSentTime := p.sentTime, lastAckedAckTime := time, packets := s.packets - {number})
  }

  const INFINITE: nat := 0x7fff_ffff_ffff_ffff

  function Rate(bytes: nat, micros: nat): (r: nat)
    requires micros > 0
  {
    bytes * 1_000_000 / micros * 8
  }

  function Min(a: nat, b: nat): (r: nat)
  {
    if a < b then a else b
  }

  /** No subtraction in it goes below zero. */
  ghost predicate Sane(p: PacketState, s: State)
  {
    && p.totalBytesSentAtLastAcked <= p.totalBytesSent <= s.totalBytesSent
    && p.totalBytesAcked <= s.totalBytesAcked
  }

  /** `acked` is the acknowledged total with the packet itself counted in. */
  function SampleOf(p: PacketState, acked: nat, time: nat): (r: nat)
    requires p.totalBytesSentAtLastAcked <= p.totalBytesSent && p.totalBytesAcked <= acked
  {
    if p.lastAckedSentTime == 0 || time <= p.lastAckedAckTime then 0
    else
      var sendRate :=
        if p.sentTime > p.lastAckedSentTime then
          Rate(p.totalBytesSent - p.totalBytesSentAtLastAcked, p.sentTime - p.lastAckedSentTime)
        else INFINITE;
      Min(sendRate, Rate(acked - p.totalBytesAcked, time - p.lastAckedAckTime))
  }

  ghost predicate Valid(s: State)
  {
    && s.totalBytesSentAtLastAcked <= s.totalBytesSent
    && forall n | n in s.packets :: Sane(s.packets[n], s)
  }

  /** What the acknowledgement of `number` reports; zero when there is nothing to report. */
  function Sample(s: State, time: nat, number: nat, roundUpdate: bool): (r: nat)
    requires Valid(s)
  {
    if number !in s.packets || !roundUpdate then 0
    else SampleOf(s.packets[number], s.totalBytesAcked + s.packets[number].size, time)
  }

  // ---------------------------------------------------------------------------
  // Runs
  // ---------------------------------------------------------------------------

  datatype Op = Send(time: nat, number: nat, bytes: nat, bytesInFlight: nat) | Ack(time: nat, number: nat) | Lose(number: nat)

  function Apply(s: State, op: Op): (r: State)
  {
    match op
    case Send(time, number, bytes, bytesInFlight) => Sent(s, time, number, bytes, bytesInFlight)
    case Ack(time, number) => Acked(s, time, number)
    case Lose(number) => Lost(s, number)
  }

  function Run(ops: seq<Op>): (s: State)
  {
    if ops == [] then Fresh else Apply(Run(ops[..|ops| - 1]), ops[|ops| - 1])
  }

  lemma ValidStep(s: State, op: Op)
    requires Valid(s)
    ensures Valid(Apply(s, op))
  {
  }

  lemma {:induction false} RunValid(ops: seq<Op>)
    ensures Valid(Run(ops))
  {
    if ops != [] {
      RunValid(ops[..|ops| - 1]);
      ValidStep(Run(ops[..|ops| - 1]), ops[|ops| - 1]);
    }
  }

  ghost function Sizes(packets: map<nat, PacketState>): map<nat, nat>
  {
    map n | n in packets :: packets[n].size
  }

  ghost function InFlight(s: State): nat
  {
    Total(Sizes(s.packets))
  }

  ghost function SizeOf(s: State, number: nat): nat
  {
    if number in s.packets then s.packets[number].size else 0
  }

  /** What one operation does to each of the four ledgers, in the state it finds. */
  datatype Ledger = Ledger(sent: nat, acked: nat, lost: nat, ignored: nat)

  ghost function Entry(s: State, op: Op): Ledger
  {
    match op
    case Send(_, number, bytes, _) => Ledger(bytes, 0, 0, if number in s.packets then bytes else 0)
    case Ack(_, number) => Ledger(0, SizeOf(s, number), 0, 0)
    case Lose(number) => Ledger(0, 0, SizeOf(s, number), 0)
  }

  ghost function Add(a: Ledger, b: Ledger): Ledger
  {
    Ledger(a.sent + b.sent, a.acked + b.acked, a.lost + b.lost, a.ignored + b.ignored)
  }

  ghost function Books(ops: seq<Op>): Ledger
  {
    if ops == [] then Ledger(0, 0, 0, 0)
    else Add(Books(ops[..|ops| - 1]), Entry(Run(ops[..|ops| - 1]), ops[|ops| - 1]))
  }

  lemma RemoveSize(s: State, number: nat)
    ensures InFlight(s) == InFlight(s.(packets := s.packets - {number})) + SizeOf(s, number)
  {
    if number in s.packets {
      TotalRemove(Sizes(s.packets), number);
      assert Sizes(s.packets) - {number} == Sizes(s.packets - {number});
    } else {
      assert s.packets - {number} == s.packets;
    }
  }

  lemma InsertSize(m: map<nat, PacketState>, number: nat, p: PacketState)
    ensures Total(Sizes(Insert(m, number, p))) == Total(Sizes(m)) + if number in m then 0 else p.size
  {
    if number !in m {
      TotalInsert(Sizes(m), number, p.size);
      assert Sizes(m)[number := p.size] == Sizes(m[number := p]);
    }
  }

  lemma StepBalances(s: State, op: Op)
    ensures var t, e := Apply(s, op), Entry(s, op);
            && t.totalBytesSent == s.totalBytesSent + e.sent
            && t.totalBytesAcked == s.totalBytesAcked + e.acked
            && InFlight(t) + e.acked + e.lost + e.ignored == InFlight(s) + e.sent
  {
    match op {
      case Send(time, number, bytes, bytesInFlight) =>
        var t := Restarted(s.(totalBytesSent := s.totalBytesSent + bytes), time, bytesInFlight);
        InsertSize(s.packets, number, Snapshot(t, time, bytes));
      case Ack(_, number) =>
        RemoveSize(s, number);
      case Lose(number) =>
        RemoveSize(s, number);
    }
  }

  /** Every byte sent is acknowledged, in flight, lost, or was sent under a number already in flight. */
  lemma {:induction false} BytesConserved(ops: seq<Op>)
    ensures var s, b := Run(ops), Books(ops);
            && s.totalBytesSent == b.sent
            && s.totalBytesAcked == b.acked
            && b.sent == b.acked + InFlight(s) + b.lost + b.ignored
  {
    if ops == [] {
      assert Sizes(map[]) == map[];
    } else {
      BytesConserved(ops[..|ops| - 1]);
      StepBalances(Run(ops[..|ops| - 1]), ops[|ops| - 1]);
    }
  }

  /** Packet numbers that only grow are never ignored. */
  ghost predicate Increasing(ops: seq<Op>)
  {
    forall i, j | 0 <= i < j < |ops| && ops[i].Send? && ops[j].Send? :: ops[i].number < ops[j].number
  }

  lemma {:induction false} InFlightWasSent(ops: seq<Op>, number: nat) returns (i: nat)
    requires number in Run(ops).packets
    ensures i < |ops| && ops[i].Send? && ops[i].number == number
    ensures number !in Run(ops[..i]).packets && number in Run(ops[..i + 1]).packets
    ensures Run(ops).packets[number] == Run(ops[..i + 1]).packets[number]
  {
    var before := ops[..|ops| - 1];
    if number in Run(before).packets {
      i := InFlightWasSent(before, number);
      assert before[..i] == ops[..i] && before[..i + 1] == ops[..i + 1];
    } else {
      i := |ops| - 1;
      assert ops[..i + 1] == ops;
    }
  }

  lemma {:induction false} NothingIgnored(ops: seq<Op>)
    requires Increasing(ops)
    ensures Books(ops).ignored == 0
  {
    if ops != [] {
      var before, op := ops[..|ops| - 1], ops[|ops| - 1];
      NothingIgnored(before);
      if op.Send? && op.number in Run(before).packets {
        var _ := InFlightWasSent(before, op.number);
      }
    }
  }

  // ---------------------------------------------------------------------------
  // The reference point of a sample
  // ---------------------------------------------------------------------------

  lemma RunSnoc(ops: seq<Op>, n: nat)
    requires n < |ops|
    ensures Run(ops[..n + 1]) == Apply(Run(ops[..n]), ops[n])
    ensures Books(ops[..n + 1]) == Add(Books(ops[..n]), Entry(Run(ops[..n]), ops[n]))
  {
    assert ops[..n + 1][..n] == ops[..n];
  }

  /** Operation `k` moves the reference point: a packet sent with nothing in flight, or the acknowledgement
      of a packet in flight. */
  ghost predicate Marks(ops: seq<Op>, k: nat)
    requires k < |ops|
  {
    match ops[k]
    case Send(_, _, _, bytesInFlight) => bytesInFlight == 0
    case Ack(_, number) => number in Run(ops[..k]).packets
    case Lose(_) => false
  }

  /** Operation `j` sent the packet that operation `k` sends or acknowledges. */
  ghost predicate SentAt(ops: seq<Op>, k: nat, j: nat)
    requires k < |ops|
  {
    if ops[k].Send? then j == k
    else
      && j < k && ops[j].Send? && ops[j].number == ops[k].number && ops[j].number !in Run(ops[..j]).packets
      && forall m | j < m <= k :: ops[j].number in Run(ops[..m]).packets
  }

  /** `k` is the last of the first `n` operations to move the reference point, and `j` sent its packet. */
  ghost predicate Reference(ops: seq<Op>, n: nat, k: nat, j: nat)
    requires n <= |ops|
  {
    k < n && Marks(ops, k) && SentAt(ops, k, j) && forall m | k < m < n :: !Marks(ops, m)
  }

  ghost predicate RefersTo(ops: seq<Op>, n: nat, k: nat, j: nat, ackTime: nat, sentTime: nat, bytesSent: nat)
    requires n <= |ops|
  {
    && Reference(ops, n, k, j)
    && ackTime == ops[k].time && sentTime == ops[j].time && bytesSent == Books(ops[..j + 1]).sent
  }

  /** What the counters of the reference point say of it; all zero before there is one. */
  ghost predicate Refers(ops: seq<Op>, n: nat, ackTime: nat, sentTime: nat, bytesSent: nat)
    requires n <= |ops|
  {
    || (ackTime == 0 && sentTime == 0 && bytesSent == 0 && forall k | 0 <= k < n :: !Marks(ops, k))
    || (exists k: nat, j: nat :: RefersTo(ops, n, k, j, ackTime, sentTime, bytesSent))
  }

  /** A snapshot holds what there was to know when operation `i` sent the packet. */
  ghost predicate TakenAt(ops: seq<Op>, i: nat, p: PacketState)
  {
    && i < |ops| && ops[i].Send? && p.sentTime == ops[i].time && p.size == ops[i].bytes
    && p.totalBytesSent == Books(ops[..i + 1]).sent && p.totalBytesAcked == Books(ops[..i]).acked
    && Refers(ops, i + 1, p.lastAckedAckTime, p.lastAckedSentTime, p.totalBytesSentAtLastAcked)
  }

  /** The packet in flight under `number` was sent by operation `i` and has been in flight since. */
  ghost predicate Since(ops: seq<Op>, n: nat, number: nat, i: nat)
    requires n <= |ops|
  {
    && i < n && ops[i].Send? && ops[i].number == number && number !in Run(ops[..i]).packets
    && forall m | i < m <= n :: number in Run(ops[..m]).packets
  }

  ghost predicate Snapshots(ops: seq<Op>, n: nat)
    requires n <= |ops|
  {
    forall number | number in Run(ops[..n]).packets ::
      exists i :: Since(ops, n, number, i) && TakenAt(ops, i, Run(ops[..n]).packets[number])
  }

  ghost predicate RefersNow(ops: seq<Op>, n: nat)
    requires n <= |ops|
  {
    var s := Run(ops[..n]); Refers(ops, n, s.lastAckedAckTime, s.lastAckedSentTime, s.totalBytesSentAtLastAcked)
  }

  lemma SentSoFar(ops: seq<Op>, n: nat)
    requires n <= |ops|
    ensures Run(ops[..n]).totalBytesSent == Books(ops[..n]).sent && Run(ops[..n]).totalBytesAcked == Books(ops[..n]).acked
  {
    BytesConserved(ops[..n]);
  }

  /** Whatever does not move it leaves the reference point where it was. */
  lemma StillRefers(ops: seq<Op>, n: nat, ackTime: nat, sentTime: nat, bytesSent: nat)
    requires n < |ops| && !Marks(ops, n) && Refers(ops, n, ackTime, sentTime, bytesSent)
    ensures Refers(ops, n + 1, ackTime, sentTime, bytesSent)
  {
    hide Books, Run;
    if k: nat, j: nat :| RefersTo(ops, n, k, j, ackTime, sentTime, bytesSent) {
      assert RefersTo(ops, n + 1, k, j, ackTime, sentTime, bytesSent);
    }
  }

  lemma NowRefers(ops: seq<Op>, n: nat, j: nat)
    requires n < |ops| && Marks(ops, n) && SentAt(ops, n, j)
    ensures Refers(ops, n + 1, ops[n].time, ops[j].time, Books(ops[..j + 1]).sent)
  {
    hide Books, Run;
    assert RefersTo(ops, n + 1, n, j, ops[n].time, ops[j].time, Books(ops[..j + 1]).sent);
  }

  lemma StepRefers(ops: seq<Op>, n: nat)
    requires n < |ops| && RefersNow(ops, n) && Snapshots(ops, n)
    ensures RefersNow(ops, n + 1)
  {
    hide Run, Books, Refers, TakenAt, Since;
    var s, op := Run(ops[..n]), ops[n];
    RunSnoc(ops, n);
    SentSoFar(ops, n + 1);
    if !Marks(ops, n) {
      StillRefers(ops, n, s.lastAckedAckTime, s.lastAckedSentTime, s.totalBytesSentAtLastAcked);
    } else if op.Send? {
      NowRefers(ops, n, n);
    } else {
      var i :| Since(ops, n, op.number, i) && TakenAt(ops, i, s.packets[op.number]);
      SinceIsSentAt(ops, n, i);
      TakenFields(ops, i, s.packets[op.number]);
      NowRefers(ops, n, i);
    }
  }

  lemma SinceIsSentAt(ops: seq<Op>, n: nat, i: nat)
    requires n < |ops| && ops[n].Ack? && Since(ops, n, ops[n].number, i)
    ensures SentAt(ops, n, i)
  {
  }

  lemma TakenFields(ops: seq<Op>, i: nat, p: PacketState)
    requires TakenAt(ops, i, p)
    ensures i < |ops| && ops[i].Send? && p.sentTime == ops[i].time && p.size == ops[i].bytes && p.totalBytesSent == Books(ops[..i + 1]).sent
  {
  }

  lemma StepSnapshots(ops: seq<Op>, n: nat)
    requires n < |ops| && RefersNow(ops, n + 1) && Snapshots(ops, n)
    ensures Snapshots(ops, n + 1)
  {
    hide Run, Books, Refers, Apply, TakenAt;
    RunSnoc(ops, n);
    var s, t := Run(ops[..n]), Run(ops[..n + 1]);
    forall number | number in t.packets
      ensures exists i :: Since(ops, n + 1, number, i) && TakenAt(ops, i, t.packets[number])
    {
      EntryAfter(s, ops[n], number);
      if number in s.packets {
        var i :| Since(ops, n, number, i) && TakenAt(ops, i, s.packets[number]);
        assert Since(ops, n + 1, number, i);
      } else {
        SentSoFar(ops, n);
        SentSoFar(ops, n + 1);
        TakenNow(ops, n);
        assert Since(ops, n + 1, number, n);
      }
    }
  }

  /** A packet in flight afterwards was there before, with the same snapshot, or has just been sent. */
  lemma EntryAfter(s: State, op: Op, number: nat)
    requires number in Apply(s, op).packets
    ensures number in s.packets ==> Apply(s, op).packets[number] == s.packets[number]
    ensures number !in s.packets ==> op.Send? && op.number == number
  {
  }

  lemma TakenNow(ops: seq<Op>, n: nat)
    requires n < |ops| && ops[n].Send? && ops[n].number !in Run(ops[..n]).packets && RefersNow(ops, n + 1)
    ensures ops[n].number in Run(ops[..n + 1]).packets && TakenAt(ops, n, Run(ops[..n + 1]).packets[ops[n].number])
  {
    hide Run, Books, Refers;
    RunSnoc(ops, n);
    SentSoFar(ops, n);
    SentSoFar(ops, n + 1);
  }

  lemma {:induction false} SnapshotsOfRun(ops: seq<Op>, n: nat)
    requires n <= |ops|
    ensures RefersNow(ops, n) && Snapshots(ops, n)
  {
    if n > 0 {
      hide Run, RefersNow, Snapshots;
      SnapshotsOfRun(ops, n - 1);
      StepRefers(ops, n - 1);
      StepSnapshots(ops, n - 1);
    } else {
      assert ops[..0] == [];
    }
  }

  /** In every run: the packet in flight under a number was sent by some operation and has been in flight
      since; its snapshot has that operation's time and size, the bytes sent up to and including it, the bytes
      acknowledged before it, and for reference the last acknowledgement before it, or the last send into an
      idle connection if that is later: its time, the time its packet was sent, and the bytes sent by then. */
  lemma SnapshotTaken(ops: seq<Op>, number: nat) returns (i: nat)
    requires number in Run(ops).packets
    ensures Since(ops, |ops|, number, i) && TakenAt(ops, i, Run(ops).packets[number])
  {
    hide Run, Since, TakenAt;
    SnapshotsOfRun(ops, |ops|);
    assert ops[..|ops|] == ops;
    i :| Since(ops, |ops|, number, i) && TakenAt(ops, i, Run(ops).packets[number]);
  }

  /** The numerator of the ack rate: exactly the bytes acknowledged from the moment the packet was sent
      up to and including its own acknowledgement. */
  lemma AckedSinceSent(ops: seq<Op>, time: nat, number: nat) returns (i: nat)
    requires number in Run(ops).packets
    ensures Since(ops, |ops|, number, i) && TakenAt(ops, i, Run(ops).packets[number])
    ensures var p := Run(ops).packets[number];
            Run(ops).totalBytesAcked + p.size - p.totalBytesAcked
            == Books(ops + [Ack(time, number)]).acked - Books(ops[..i]).acked
  {
    hide Run, Books, Since;
    i := SnapshotTaken(ops, number);
    SentSoFar(ops, |ops|);
    assert ops[..|ops|] == ops;
    var more := ops + [Ack(time, number)];
    assert more[..|ops|] == ops && more[..|ops| + 1] == more;
    RunSnoc(more, |ops|);
  }

  lemma RateBound(bytes: nat, micros: nat)
    requires micros > 0
    ensures Rate(bytes, micros) * micros <= 8_000_000 * bytes
  {
    var q := bytes * 1_000_000 / micros;
    assert q * micros <= bytes * 1_000_000;
    assert q * 8 * micros == 8 * (q * micros);
  }

  /** And it falls short by less than one byte per second. */
  lemma RateTight(bytes: nat, micros: nat)
    requires micros > 0
    ensures 8_000_000 * bytes < (Rate(bytes, micros) + 8) * micros
  {
    var q := bytes * 1_000_000 / micros;
    assert bytes * 1_000_000 < (q + 1) * micros;
    assert (q * 8 + 8) * micros == 8 * ((q + 1) * micros);
  }

  lemma CappedRate(bw: nat, bytes: nat, micros: nat)
    requires micros > 0 && bw <= Rate(bytes, micros)
    ensures bw * micros <= 8_000_000 * bytes
  {
    hide Rate;
    RateBound(bytes, micros);
    MulLe(bw, Rate(bytes, micros), micros);
  }

  lemma MulLe(a: nat, b: nat, c: nat)
    requires a <= b
    ensures a * c <= b * c
  {
  }

  /** A sample is no more than the ack rate and no more than the send rate, where there is one. */
  lemma SampleOfBounded(p: PacketState, acked: nat, time: nat)
    requires p.totalBytesSentAtLastAcked <= p.totalBytesSent && p.totalBytesAcked <= acked
    ensures var bw := SampleOf(p, acked, time);
            && (bw > 0 ==> time > p.lastAckedAckTime)
            && (bw > 0 ==> bw * (time - p.lastAckedAckTime) <= 8_000_000 * (acked - p.totalBytesAcked))
            && (bw > 0 && p.sentTime > p.lastAckedSentTime ==>
                  bw * (p.sentTime - p.lastAckedSentTime) <= 8_000_000 * (p.totalBytesSent - p.totalBytesSentAtLastAcked))
  {
    hide Rate;
    var bw := SampleOf(p, acked, time);
    if bw > 0 {
      CappedRate(bw, acked - p.totalBytesAcked, time - p.lastAckedAckTime);
      if p.sentTime > p.lastAckedSentTime {
        CappedRate(bw, p.totalBytesSent - p.totalBytesSentAtLastAcked, p.sentTime - p.lastAckedSentTime);
      }
    }
  }

  /** Nor is it less: with a reference point and time elapsed, it is the ack rate or the send rate. */
  lemma SampleOfTight(p: PacketState, acked: nat, time: nat)
    requires p.totalBytesSentAtLastAcked <= p.totalBytesSent && p.totalBytesAcked <= acked
    requires p.lastAckedSentTime > 0 && time > p.lastAckedAckTime
    ensures var bw := SampleOf(p, acked, time);
            || bw == INFINITE
            || 8_000_000 * (acked - p.totalBytesAcked) < (bw + 8) * (time - p.lastAckedAckTime)
            || (p.sentTime > p.lastAckedSentTime &&
                8_000_000 * (p.totalBytesSent - p.totalBytesSentAtLastAcked) < (bw + 8) * (p.sentTime - p.lastAckedSentTime))
  {
    hide Rate;
    RateTight(acked - p.totalBytesAcked, time - p.lastAckedAckTime);
    if p.sentTime > p.lastAckedSentTime {
      RateTight(p.totalBytesSent - p.totalBytesSentAtLastAcked, p.sentTime - p.lastAckedSentTime);
    }
  }

  /** Over a whole run, a sample above zero: at most the bytes acknowledged since the packet was sent over the
      time since the reference point's own acknowledgement, and at most the bytes sent since the reference
      point's packet over the time since that was sent. */
  lemma SampleBounded(ops: seq<Op>, time: nat, number: nat, roundUpdate: bool) returns (i: nat, k: nat, j: nat)
    requires number in Run(ops).packets
    ensures Valid(Run(ops)) && Since(ops, |ops|, number, i)
    ensures var bw := Sample(Run(ops), time, number, roundUpdate);
            bw > 0 ==>
              && roundUpdate && Reference(ops, i + 1, k, j) && ops[j].time > 0 && time > ops[k].time
              && bw * (time - ops[k].time) <= 8_000_000 * (Books(ops + [Ack(time, number)]).acked - Books(ops[..i]).acked)
              && (ops[i].time > ops[j].time ==>
                    bw * (ops[i].time - ops[j].time) <= 8_000_000 * (Books(ops[..i + 1]).sent - Books(ops[..j + 1]).sent))
  {
    hide Run, Books, SampleOf, Since;
    RunValid(ops);
    i := AckedSinceSent(ops, time, number);
    var p := Run(ops).packets[number];
    SampleOfBounded(p, Run(ops).totalBytesAcked + p.size, time);
    k, j := 0, 0;
    if Sample(Run(ops), time, number, roundUpdate) > 0 {
      NoReferenceNoSample(p, Run(ops).totalBytesAcked + p.size, time);
      k, j :| RefersTo(ops, i + 1, k, j, p.lastAckedAckTime, p.lastAckedSentTime, p.totalBytesSentAtLastAcked);
    }
  }

  lemma NoReferenceNoSample(p: PacketState, acked: nat, time: nat)
    requires p.totalBytesSentAtLastAcked <= p.totalBytesSent && p.totalBytesAcked <= acked
    ensures p.lastAckedSentTime == 0 ==> SampleOf(p, acked, time) == 0
  {
  }

  lemma SameReference(ops: seq<Op>, n: nat, k: nat, j: nat, k': nat, j': nat)
    requires n <= |ops| && Reference(ops, n, k, j) && Reference(ops, n, k', j')
    ensures k == k' && j == j'
  {
    hide Run;
  }

  /** And no less than the smaller of the two, to within a byte per second, once there is time on both
      clocks. */
  lemma SampleTight(ops: seq<Op>, time: nat, number: nat, i: nat, k: nat, j: nat)
    requires number in Run(ops).packets && Since(ops, |ops|, number, i) && Reference(ops, i + 1, k, j)
    requires ops[j].time > 0 && time > ops[k].time
    ensures Valid(Run(ops))
    ensures var bw := Sample(Run(ops), time, number, true);
            || bw == INFINITE
            || 8_000_000 * (Books(ops + [Ack(time, number)]).acked - Books(ops[..i]).acked) < (bw + 8) * (time - ops[k].time)
            || (ops[i].time > ops[j].time &&
                8_000_000 * (Books(ops[..i + 1]).sent - Books(ops[..j + 1]).sent) < (bw + 8) * (ops[i].time - ops[j].time))
  {
    hide Run, Books, SampleOf, Since, Reference;
    RunValid(ops);
    var i' := AckedSinceSent(ops, time, number);
    SameSend(ops, number, i, i');
    var p := Run(ops).packets[number];
    ReferenceIs(ops, i + 1, k, j, p.lastAckedAckTime, p.lastAckedSentTime, p.totalBytesSentAtLastAcked);
    SampleOfTight(p, Run(ops).totalBytesAcked + p.size, time);
  }

  lemma ReferenceIs(ops: seq<Op>, n: nat, k: nat, j: nat, ackTime: nat, sentTime: nat, bytesSent: nat)
    requires n <= |ops| && Reference(ops, n, k, j) && Refers(ops, n, ackTime, sentTime, bytesSent)
    ensures ackTime == ops[k].time && sentTime == ops[j].time && bytesSent == Books(ops[..j + 1]).sent
  {
    hide Run, Books, Marks, SentAt;
    var k': nat, j': nat :| RefersTo(ops, n, k', j', ackTime, sentTime, bytesSent);
    SameReference(ops, n, k, j, k', j');
  }

  lemma SameSend(ops: seq<Op>, number: nat, i: nat, i': nat)
    requires Since(ops, |ops|, number, i) && Since(ops, |ops|, number, i')
    ensures i == i'
  {
    hide Run;
  }
}
