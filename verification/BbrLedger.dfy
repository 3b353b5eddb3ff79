/**
 Byte conservation for the sender: what it counts as in flight is what the sampler has in flight, so
 every byte sent is acknowledged, in flight or lost.
 */
module BbrLedger {
  import opened Totals
  import opened Bbr
  import opened BbrInvariant
  import opened BbrRuns
  import Sampling

  // ---------------------------------------------------------------------------
  // The two indexes agree on contents
  // ---------------------------------------------------------------------------

  ghost predicate SameEntry(p: Sampling.PacketState, q: PerPacket)
  {
    p.size == q.bytes && p.sentTime == q.sentTs
  }

  /** The same packets, of the same sizes, sent at the same times. */
  ghost predicate ContentsAgree(l: Link)
  {
    IndexesAgree(l) && forall k | k in l.sent :: SameEntry(l.sampler.packets[k], l.sent[k])
  }

  lemma SendKeepsContents(l: Link, now: nat, number: nat, bytes: nat)
    requires ContentsAgree(l) && (number <= l.lastSent || l.lastAck < number)
    ensures ContentsAgree(SendPacket(l, now, number, bytes))
  {
    SendAgreesIff(l, now, number, bytes);
  }

  lemma {:induction false} LoseRangeEntries(s: Sampling.State, first: nat, past: nat)
    requires first <= past
    ensures forall k | k in LoseRange(s, first, past).packets ::
              k in s.packets && LoseRange(s, first, past).packets[k] == s.packets[k]
    decreases past - first
  {
    if first < past {
      LoseRangeEntries(Sampling.Lost(s, first), first + 1, past);
    }
  }

  lemma AckedEntries(s: Sampling.State, now: nat, number: nat)
    ensures var t := Sampling.Acked(s, now, number);
            forall k | k in t.packets :: k in s.packets && t.packets[k] == s.packets[k]
  {
  }

  lemma AckKeepsContents(l: Link, now: nat, number: nat)
    requires InFlightExact(l) && ContentsAgree(l) && l.lastAck < number
    ensures ContentsAgree(AckPackets(l, now, number))
  {
    hide Sampling.Acked, Sampling.Valid, Total, LoseRange, InFlightExact;
    RunAccounted(l);
    AckKeeps(l, now, number);
    var lost := LoseRange(l.sampler, l.lastAck + 1, number);
    LoseRangeEntries(l.sampler, l.lastAck + 1, number);
    AckedEntries(lost, now, number);
  }

  lemma RunAccounted(l: Link)
    requires InFlightExact(l)
    ensures Accounted(l)
  {
  }

  lemma {:induction false} TimelyContents(inputs: seq<Input>)
    requires Timely(inputs)
    ensures ContentsAgree(Run(inputs).state.link)
  {
    hide Run, Inv, ContentsAgree, SendPacket, AckPackets;
    if inputs == [] {
      RunEmpty();
      StartContents();
    } else {
      var n := |inputs| - 1;
      var before, i := inputs[..n], inputs[n];
      assert inputs == before + [i];
      assert forall m | 0 <= m <= n :: before[..m] == inputs[..m];
      TimelyContents(before);
      RunSnocLink(before, i);
      RunInFlight(before);
      var l := Run(before).state.link;
      if i.Send? {
        assert inputs[n].Send? && inputs[..n] == before;
        SendKeepsContents(l, i.now, i.number, i.bytes);
      } else if l.lastAck < i.number {
        AckKeepsContents(l, i.now, i.number);
      } else {
        OldAckKeepsLink(before, i);
      }
    }
  }

  lemma StartContents()
    ensures ContentsAgree(Initial.link)
  {
  }

  lemma OldAckKeepsLink(inputs: seq<Input>, i: Input)
    requires i.Ack? && i.number <= Run(inputs).state.link.lastAck
    ensures Run(inputs + [i]).state.link == Run(inputs).state.link
  {
    hide Run, Inv, OnAck, OnAckEvents;
    RunSnoc(inputs, i);
    var o := Run(inputs);
    InvAccounted(o.state, o.log);
    OnAckLink(o.state, i.now, i.number, i.draw);
  }

  /** In every timely run the sender and the sampler have the same bytes in flight. */
  lemma SameBytesInFlight(inputs: seq<Input>)
    requires Timely(inputs)
    ensures var l := Run(inputs).state.link; l.bytesInFlight == Sampling.InFlight(l.sampler)
  {
    hide Run, Total, Timely;
    TimelyContents(inputs);
    InFlightIsTableTotal(inputs);
    var l := Run(inputs).state.link;
    assert Sampling.Sizes(l.sampler.packets) == ByteTable(l.sent);
  }

  // ---------------------------------------------------------------------------
  // The sampler's own run
  // ---------------------------------------------------------------------------

  function LoseOps(first: nat, past: nat): (ops: seq<Sampling.Op>)
    requires first <= past
    ensures forall i | 0 <= i < |ops| :: ops[i].Lose?
    decreases past - first
  {
    if first == past then [] else LoseOps(first, past - 1) + [Sampling.Lose(past - 1)]
  }

  /** What one input has the sampler do. */
  ghost function OpsFor(l: Link, i: Input): (ops: seq<Sampling.Op>)
  {
    match i
    case Send(now, number, bytes) =>
      if number <= l.lastSent then [] else [Sampling.Send(now, number, bytes, l.bytesInFlight)]
    case Ack(now, number, _) =>
      if number <= l.lastAck then [] else LoseOps(l.lastAck + 1, number) + [Sampling.Ack(now, number)]
  }

  ghost function OpsOf(inputs: seq<Input>): (ops: seq<Sampling.Op>)
  {
    if inputs == [] then []
    else OpsOf(inputs[..|inputs| - 1]) + OpsFor(Run(inputs[..|inputs| - 1]).state.link, inputs[|inputs| - 1])
  }

  lemma SamplerSnoc(ops: seq<Sampling.Op>, op: Sampling.Op)
    ensures Sampling.Run(ops + [op]) == Sampling.Apply(Sampling.Run(ops), op)
  {
    assert (ops + [op])[..|ops|] == ops;
  }

  lemma {:induction false} LoseRangeLast(s: Sampling.State, first: nat, past: nat)
    requires first < past
    ensures LoseRange(s, first, past) == Sampling.Lost(LoseRange(s, first, past - 1), past - 1)
    decreases past - first
  {
    if first < past - 1 {
      LoseRangeLast(Sampling.Lost(s, first), first + 1, past);
    }
  }

  lemma {:induction false} SamplerLoses(ops: seq<Sampling.Op>, first: nat, past: nat)
    requires first <= past
    ensures Sampling.Run(ops + LoseOps(first, past)) == LoseRange(Sampling.Run(ops), first, past)
    decreases past - first
  {
    hide Sampling.Run, Sampling.Lost;
    if first == past {
      assert ops + [] == ops;
    } else {
      SamplerLoses(ops, first, past - 1);
      LoseRangeLast(Sampling.Run(ops), first, past);
      assert ops + LoseOps(first, past) == ops + LoseOps(first, past - 1) + [Sampling.Lose(past - 1)];
      SamplerSnoc(ops + LoseOps(first, past - 1), Sampling.Lose(past - 1));
    }
  }

  lemma OpsStep(ops: seq<Sampling.Op>, l: Link, i: Input, r: Link)
    requires Accounted(l) && Sampling.Run(ops) == l.sampler
    requires i.Send? ==> r == SendPacket(l, i.now, i.number, i.bytes)
    requires i.Ack? ==> r == if l.lastAck < i.number then AckPackets(l, i.now, i.number) else l
    ensures Sampling.Run(ops + OpsFor(l, i)) == r.sampler
  {
    hide Sampling.Run, Sampling.Sent, Sampling.Acked, LoseRange, Sampling.Valid, Total, LoseOps;
    if OpsFor(l, i) == [] {
      assert ops + [] == ops;
    } else if i.Send? {
      SamplerSnoc(ops, Sampling.Send(i.now, i.number, i.bytes, l.bytesInFlight));
    } else {
      var lose := LoseOps(l.lastAck + 1, i.number);
      SamplerLoses(ops, l.lastAck + 1, i.number);
      SamplerSnoc(ops + lose, Sampling.Ack(i.now, i.number));
      assert ops + lose + [Sampling.Ack(i.now, i.number)] == ops + OpsFor(l, i);
    }
  }

  /** The sampler inside a run is a run of the sampler. */
  lemma {:induction false} SamplerOfRun(inputs: seq<Input>)
    ensures Sampling.Run(OpsOf(inputs)) == Run(inputs).state.link.sampler
  {
    hide Run, Inv, SendPacket, AckPackets, OpsFor, Accounted;
    if inputs == [] {
      RunEmpty();
    } else {
      var before, i := inputs[..|inputs| - 1], inputs[|inputs| - 1];
      assert inputs == before + [i];
      SamplerOfRun(before);
      RunSnocLink(before, i);
      if i.Ack? && i.number <= Run(before).state.link.lastAck {
        OldAckKeepsLink(before, i);
      }
      OpsStep(OpsOf(before), Run(before).state.link, i, Run(inputs).state.link);
    }
  }

  // ---------------------------------------------------------------------------
  // Nothing is sent under a number already in flight
  // ---------------------------------------------------------------------------

  ghost predicate SentUpTo(ops: seq<Sampling.Op>, last: nat)
  {
    forall i | 0 <= i < |ops| && ops[i].Send? :: ops[i].number <= last
  }

  lemma StillIncreasing(ops: seq<Sampling.Op>, l: Link, i: Input)
    requires Sampling.Increasing(ops) && SentUpTo(ops, l.lastSent)
    ensures Sampling.Increasing(ops + OpsFor(l, i))
    ensures SentUpTo(ops + OpsFor(l, i), if i.Send? && i.number > l.lastSent then i.number else l.lastSent)
  {
    hide LoseOps;
    var more := OpsFor(l, i);
    assert forall k | 0 <= k < |more| && more[k].Send? :: k == 0 && more[k].number > l.lastSent;
  }

  lemma LastSentOf(inputs: seq<Input>, i: Input)
    ensures var l := Run(inputs).state.link;
            Run(inputs + [i]).state.link.lastSent == if i.Send? && i.number > l.lastSent then i.number else l.lastSent
  {
    hide Run, Inv, Accounted;
    RunSnocLink(inputs, i);
    if i.Ack? && i.number <= Run(inputs).state.link.lastAck {
      OldAckKeepsLink(inputs, i);
    }
  }

  lemma {:induction false} OpsIncrease(inputs: seq<Input>)
    ensures Sampling.Increasing(OpsOf(inputs)) && SentUpTo(OpsOf(inputs), Run(inputs).state.link.lastSent)
  {
    hide Run, Inv, OpsFor, Sampling.Increasing;
    if inputs == [] {
      NoOps();
    } else {
      var before, i := inputs[..|inputs| - 1], inputs[|inputs| - 1];
      assert inputs == before + [i];
      OpsIncrease(before);
      StillIncreasing(OpsOf(before), Run(before).state.link, i);
      LastSentOf(before, i);
    }
  }

  lemma NoOps()
    ensures Sampling.Increasing([])
  {
  }

  /** In every timely run: bytes sent = bytes acknowledged + the sender's bytes in flight + bytes lost. */
  lemma SenderConservesBytes(inputs: seq<Input>)
    requires Timely(inputs)
    ensures var l, b := Run(inputs).state.link, Sampling.Books(OpsOf(inputs));
            && l.sampler.totalBytesSent == b.sent && l.sampler.totalBytesAcked == b.acked && b.ignored == 0
            && b.sent == b.acked + l.bytesInFlight + b.lost
  {
    hide Run, Inv, OpsOf, Timely, Sampling.Run, Sampling.Books, Sampling.InFlight, Sampling.Increasing;
    var ops := OpsOf(inputs);
    SamplerOfRun(inputs);
    SameBytesInFlight(inputs);
    OpsIncrease(inputs);
    Sampling.BytesConserved(ops);
    Sampling.NothingIgnored(ops);
  }
}
