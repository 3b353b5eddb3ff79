/**
 What the state of a run says of its inputs: which packets are in flight and since when, whose round-trip
 times were taken, where rounds end, and which bandwidth samples the estimate is made of.
 */
module BbrInputs {
  import opened Totals
  import opened BbrStartup
  import opened BbrHistory
  import opened Wire
  import opened Bbr
  import opened BbrInvariant
  import opened BbrRuns
  import opened BbrLedger
  import opened BbrDecisions
  import opened BbrEstimates
  import Sampling
  import Filter = WindowedFilter

  ghost function LinkOf(inputs: seq<Input>): Link
  {
    Run(inputs).state.link
  }

  /** Input `a` is the first to send its number or a larger one. */
  ghost predicate NewSend(inputs: seq<Input>, a: nat)
  {
    a < |inputs| && inputs[a].Send? && inputs[a].number > LinkOf(inputs[..a]).lastSent
  }

  /** Input `b` is an acknowledgement past all before it. */
  ghost predicate NewAck(inputs: seq<Input>, b: nat)
  {
    b < |inputs| && inputs[b].Ack? && inputs[b].number > LinkOf(inputs[..b]).lastAck
  }

  lemma LinkSnoc(inputs: seq<Input>, i: Input)
    ensures var l, r := LinkOf(inputs), LinkOf(inputs + [i]);
            && Accounted(l)
            && (i.Send? ==> r == SendPacket(l, i.now, i.number, i.bytes))
            && (i.Ack? ==> r == if l.lastAck < i.number then AckPackets(l, i.now, i.number) else l)
  {
    hide Run, Inv, SendPacket, AckPackets, Accounted;
    RunSnocLink(inputs, i);
    if i.Ack? && i.number <= LinkOf(inputs).lastAck {
      OldAckKeepsLink(inputs, i);
    }
  }

  lemma NoInputs()
    ensures LinkOf([]) == Initial.link
  {
  }

  // ---------------------------------------------------------------------------
  // Numbers
  // ---------------------------------------------------------------------------

  /** `lastSent` is the largest number sent, `lastAck` the largest acknowledged; zero before there is one. */
  lemma {:induction false} LargestNumbers(inputs: seq<Input>)
    ensures var l := LinkOf(inputs);
            && (forall i | i in inputs && i.Send? :: i.number <= l.lastSent)
            && (l.lastSent == 0 || exists i :: i in inputs && i.Send? && i.number == l.lastSent)
            && (forall i | i in inputs && i.Ack? :: i.number <= l.lastAck)
            && (l.lastAck == 0 || exists i :: i in inputs && i.Ack? && i.number == l.lastAck)
  {
    hide LinkOf, Accounted, Sampling.Sent, Sampling.Acked, LoseRange, Total;
    if inputs == [] {
      NoInputs();
    } else {
      var before, i := inputs[..|inputs| - 1], inputs[|inputs| - 1];
      assert inputs == before + [i];
      LargestNumbers(before);
      LinkSnoc(before, i);
      assert forall x | x in before :: x in inputs;
      assert i in inputs;
    }
  }

  // ---------------------------------------------------------------------------
  // The packets in flight
  // ---------------------------------------------------------------------------

  /** Input `a` sent packet `k`, and no acknowledgement since has reached it. */
  ghost predicate InFlightSince(inputs: seq<Input>, k: nat, a: nat)
  {
    NewSend(inputs, a) && inputs[a].number == k && forall b | a < b < |inputs| && NewAck(inputs, b) :: inputs[b].number < k
  }

  lemma NewStays(before: seq<Input>, inputs: seq<Input>, a: nat)
    requires before <= inputs && a < |before|
    ensures NewSend(inputs, a) <==> NewSend(before, a)
    ensures NewAck(inputs, a) <==> NewAck(before, a)
  {
    assert before[..a] == inputs[..a];
  }

  /** Older packets in flight stay so unless the next input is an acknowledgement that reaches them. */
  lemma InFlightStays(before: seq<Input>, i: Input, k: nat, a: nat)
    requires a < |before|
    ensures InFlightSince(before + [i], k, a) <==>
            InFlightSince(before, k, a) && (i.Ack? && i.number > LinkOf(before).lastAck ==> i.number < k)
  {
    hide LinkOf;
    var inputs, n := before + [i], |before|;
    assert inputs[..n] == before && inputs[n] == i;
    NewStays(before, inputs, a);
    forall b | a < b < n ensures inputs[b] == before[b] && (NewAck(inputs, b) <==> NewAck(before, b)) {
      NewStays(before, inputs, b);
    }
    hide NewAck, NewSend;
    assert NewAck(inputs, n) <==> i.Ack? && i.number > LinkOf(before).lastAck by {
      NewAckIs(inputs, n);
    }
  }

  lemma NewAckIs(inputs: seq<Input>, b: nat)
    ensures NewAck(inputs, b) <==> b < |inputs| && inputs[b].Ack? && inputs[b].number > LinkOf(inputs[..b]).lastAck
  {
  }

  ghost predicate TableIs(inputs: seq<Input>, k: nat)
  {
    var sent := LinkOf(inputs).sent;
    && (k in sent <==> exists a: nat :: InFlightSince(inputs, k, a))
    && forall a: nat | InFlightSince(inputs, k, a) :: k in sent && sent[k] == PerPacket(inputs[a].now, inputs[a].bytes)
  }

  lemma SentIsPast(inputs: seq<Input>, k: nat, a: nat)
    requires InFlightSince(inputs, k, a)
    ensures k <= LinkOf(inputs).lastSent && inputs[a].Send?
  {
    hide LinkOf;
    LargestNumbers(inputs);
    assert inputs[a] in inputs;
  }

  lemma NewlySent(before: seq<Input>, i: Input)
    ensures InFlightSince(before + [i], if i.Send? then i.number else 0, |before|) <==>
            i.Send? && i.number > LinkOf(before).lastSent
  {
    hide LinkOf;
    assert (before + [i])[..|before|] == before;
  }

  lemma TableStep(before: seq<Input>, i: Input, k: nat)
    requires TableIs(before, k)
    ensures TableIs(before + [i], k)
  {
    hide InFlightSince, LinkOf, Accounted, Sampling.Sent, Sampling.Acked, LoseRange, Total;
    var inputs, n := before + [i], |before|;
    LinkSnoc(before, i);
    TableBounded(before);
    NewlySent(before, i);
    forall a: nat | a < n
      ensures InFlightSince(inputs, k, a) <==>
              InFlightSince(before, k, a) && (i.Ack? && i.number > LinkOf(before).lastAck ==> i.number < k)
    {
      InFlightStays(before, i, k, a);
    }
    forall a: nat | InFlightSince(before, k, a) ensures k <= LinkOf(before).lastSent && a < n && inputs[a] == before[a] {
      SentIsPast(before, k, a);
      InFlightIndex(before, k, a);
    }
    forall a: nat | InFlightSince(inputs, k, a) ensures a <= n && (a == n ==> i.Send? && i.number == k) {
      InFlightIndex(inputs, k, a);
    }
  }

  lemma InFlightIndex(inputs: seq<Input>, k: nat, a: nat)
    requires InFlightSince(inputs, k, a)
    ensures a < |inputs| && inputs[a].Send? && inputs[a].number == k
  {
  }

  lemma TableBounded(inputs: seq<Input>)
    ensures forall k | k in LinkOf(inputs).sent :: k <= LinkOf(inputs).lastSent
  {
    hide Run, Total;
    RunInFlight(inputs);
  }

  /** In every run: the table holds a packet if and only if some input sent it and no acknowledgement since
      has reached it, and then with that input's time and size. */
  lemma {:induction false} TableOfRun(inputs: seq<Input>, k: nat)
    ensures TableIs(inputs, k)
  {
    hide LinkOf;
    if inputs == [] {
      NoInputs();
    } else {
      var before, i := inputs[..|inputs| - 1], inputs[|inputs| - 1];
      assert inputs == before + [i];
      TableOfRun(before, k);
      hide TableIs;
      TableStep(before, i, k);
    }
  }

  // ---------------------------------------------------------------------------
  // Round-trip times
  // ---------------------------------------------------------------------------

  lemma NoSamplesDecided(log: Log, d: Decisions, lastSent: nat, bytesInFlight: nat, before: nat, after: nat,
                         roundEnds: bool, draw: nat, e: Event)
    requires Decided(log, d, lastSent, bytesInFlight, before, after, roundEnds, draw) && e in Joined(d)
    ensures !e.Sampled?
  {
    hide After, FullFound, MinRttOf, Clock, PhaseSince, ProbedEnough, Goal, IsWindow, MinExpired, DelayTooHigh;
    assert e in d.backoff || e in d.leave || e in d.estimate || e in d.drain || e in d.increase || e in d.advance;
  }

  /** The samples that an input adds to the log: the one just heard. */
  lemma NewSamples(inputs: seq<Input>, i: Input, n: nat)
    requires |Run(inputs).log| <= n < |Run(inputs + [i]).log| && Run(inputs + [i]).log[n].Sampled?
    ensures i.Ack? && i.number > LinkOf(inputs).lastAck && i.number in LinkOf(inputs).sent
    ensures var sent := LinkOf(inputs).sent[i.number].sentTs;
            Run(inputs + [i]).log[n] == Sampled(i.number, if i.now < sent then 0 else i.now - sent)
  {
    hide Run, Inv, Decided, Joined, OnAck, OnAckEvents;
    var o, t := Run(inputs), Run(inputs + [i]);
    BbrRuns.RunSnoc(inputs, i);
    InvAccounted(o.state, o.log);
    if i.Ack? && i.number <= o.state.link.lastAck {
      OldAckLogsNothing(o.state, i.now, i.number, i.draw);
    } else if i.Ack? {
      var d := AckDecides(inputs, i);
      var heard := Heard(o, i);
      if n >= |heard| {
        assert t.log[n] in Joined(d);
        NoSamplesDecided(heard, d, o.state.link.lastSent, t.state.link.bytesInFlight, o.state.rounds.filter.best.sample,
                         t.state.rounds.filter.best.sample, i.number > o.state.rounds.end, i.draw, t.log[n]);
      }
    }
  }

  lemma OldAckLogsNothing(s: State, now: nat, number: nat, draw: nat)
    requires Accounted(s.link) && number <= s.link.lastAck
    ensures OnAckEvents(s, now, number, draw) == []
  {
  }

  lemma LogGrows(inputs: seq<Input>, i: Input)
    ensures Run(inputs).log <= Run(inputs + [i]).log
  {
    hide Run, Inv, OnAck, OnAckEvents;
    BbrRuns.RunSnoc(inputs, i);
  }

  /** In every run: each round-trip time in the log is the time from the input that sent the packet to the
      acknowledgement that found it in flight. */
  lemma {:induction false} RoundTrips(inputs: seq<Input>, n: nat) returns (a: nat, b: nat)
    requires n < |Run(inputs).log| && Run(inputs).log[n].Sampled?
    ensures a < b < |inputs| && NewAck(inputs, b) && InFlightSince(inputs[..b], inputs[b].number, a)
    ensures Run(inputs).log[n]
            == Sampled(inputs[b].number, if inputs[b].now < inputs[a].now then 0 else inputs[b].now - inputs[a].now)
  {
    hide Run, Inv, InFlightSince, NewAck;
    if inputs == [] {
      RunEmpty();
      assert false;
    } else {
      var m := |inputs| - 1;
      var before, i := inputs[..m], inputs[m];
      assert inputs == before + [i];
      LogGrows(before, i);
      if n < |Run(before).log| {
        a, b := RoundTrips(before, n);
        InFlightIndex(before[..b], before[b].number, a);
        assert before[..b] == inputs[..b] && before[..b][a] == inputs[a];
        NewStays(before, inputs, b);
      } else {
        NewSamples(before, i, n);
        TableOfRun(before, i.number);
        a :| InFlightSince(before, i.number, a);
        InFlightIndex(before, i.number, a);
        b := m;
        NewAckIs(inputs, b);
      }
    }
  }

  // ---------------------------------------------------------------------------
  // Rounds
  // ---------------------------------------------------------------------------

  ghost function RoundsOf(inputs: seq<Input>): Rounds
  {
    Run(inputs).state.rounds
  }

  /** The next input ends a round: a new acknowledgement past the round's last packet. */
  ghost predicate EndsRound(inputs: seq<Input>, i: Input)
  {
    i.Ack? && i.number > LinkOf(inputs).lastAck && i.number > RoundsOf(inputs).end
  }

  lemma RoundsSnoc(inputs: seq<Input>, i: Input)
    ensures var r, t := RoundsOf(inputs), RoundsOf(inputs + [i]);
            && t.count == r.count + (if EndsRound(inputs, i) then 1 else 0)
            && t.end == (if EndsRound(inputs, i) then LinkOf(inputs).lastSent else r.end)
  {
    hide Run, Inv, OnAck, OnAckEvents, RoundsStep;
    var o := Run(inputs);
    BbrRuns.RunSnoc(inputs, i);
    InvAccounted(o.state, o.log);
    if i.Ack? {
      if i.number <= o.state.link.lastAck {
        OldAck(o.state, i.now, i.number, i.draw);
      } else {
        OnAckRounds(o.state, i.now, i.number, i.draw);
        RoundEndIs(o.state, i.now, i.number, i.draw);
      }
    }
  }

  lemma RoundEndIs(s: State, now: nat, number: nat, draw: nat)
    requires Accounted(s.link) && s.link.lastAck < number
    ensures OnAck(s, now, number, draw).rounds.end == if RoundUpdate(s, number) then s.link.lastSent else s.rounds.end
  {
    hide AckPackets, Measured, SampleRtt, TargetWindow, GetMinRtt, Congested, Filter.Updated, Offset, ShouldLeave, NextPhase;
  }

  /** In every run: the current round ends with the last packet that had been sent when the round before it
      ended, and every round has been ended by an acknowledgement past that. */
  lemma {:induction false} RoundOfRun(inputs: seq<Input>) returns (k: nat)
    ensures var r := RoundsOf(inputs);
            if r.count == 0 then r.end == 0
            else
              && k < |inputs| && EndsRound(inputs[..k], inputs[k])
              && r.count == RoundsOf(inputs[..k]).count + 1 && r.end == LinkOf(inputs[..k]).lastSent
              && forall j | k < j < |inputs| :: !EndsRound(inputs[..j], inputs[j])
  {
    hide Run, Inv, RoundsOf, LinkOf, EndsRound;
    if inputs == [] {
      NoRounds();
      k := 0;
    } else {
      var n := |inputs| - 1;
      var before, i := inputs[..n], inputs[n];
      assert inputs == before + [i];
      k := RoundOfRun(before);
      RoundsSnoc(before, i);
      if EndsRound(before, i) {
        k := n;
      } else if RoundsOf(before).count > 0 {
        assert forall j | 0 <= j <= n :: before[..j] == inputs[..j];
      }
    }
  }

  lemma NoRounds()
    ensures RoundsOf([]) == Initial.rounds
  {
  }

  // ---------------------------------------------------------------------------
  // Bandwidth
  // ---------------------------------------------------------------------------

  /** The sampler's operations up to the acknowledgement that the next input brings. */
  ghost function OpsBefore(inputs: seq<Input>, number: nat): (ops: seq<Sampling.Op>)
  {
    var l := LinkOf(inputs);
    OpsOf(inputs) + if l.lastAck < number then LoseOps(l.lastAck + 1, number) else []
  }

  /** The sample the sampler makes of the next input. */
  ghost function SampleAt(inputs: seq<Input>, i: Input): (bw: nat)
    requires i.Ack?
  {
    Sampling.RunValid(OpsBefore(inputs, i.number));
    Sampling.Sample(Sampling.Run(OpsBefore(inputs, i.number)), i.now, i.number, true)
  }

  /** What the filter is fed: one sample at the end of every round but the first, stamped with the round. */
  ghost function FedOf(inputs: seq<Input>): (fed: seq<Filter.Stamped>)
  {
    if inputs == [] then []
    else
      var before, i := inputs[..|inputs| - 1], inputs[|inputs| - 1];
      FedOf(before)
      + if EndsRound(before, i) && RoundsOf(before).count > 0 then [Filter.Stamped(SampleAt(before, i), RoundsOf(before).count)]
        else []
  }

  lemma MeasuredIs(inputs: seq<Input>, i: Input)
    requires EndsRound(inputs, i)
    ensures var s := Run(inputs).state;
            Accounted(s.link) && s.link.lastAck < i.number && Measured(s, i.now, i.number) == SampleAt(inputs, i)
  {
    hide Run, Inv, OpsOf, Sampling.Run, Sampling.Sample, Sampling.Valid, LoseRange, LoseOps;
    var s := Run(inputs).state;
    InvAccounted(s, Run(inputs).log);
    SamplerOfRun(inputs);
    SamplerLoses(OpsOf(inputs), s.link.lastAck + 1, i.number);
  }

  lemma FilterSnoc(inputs: seq<Input>, i: Input)
    ensures RoundsOf(inputs + [i]).filter
            == if EndsRound(inputs, i) && RoundsOf(inputs).count > 0 then
                 Filter.Updated(RoundsOf(inputs).filter, Filter.Stamped(SampleAt(inputs, i), RoundsOf(inputs).count), 10)
               else RoundsOf(inputs).filter
  {
    hide Run, Inv, OnAck, OnAckEvents, SampleAt, Filter.Updated, Measured, EstimatesOf, RoundEnds;
    var o := Run(inputs);
    BbrRuns.RunSnoc(inputs, i);
    InvAccounted(o.state, o.log);
    if i.Ack? {
      if i.number <= o.state.link.lastAck {
        OldAck(o.state, i.now, i.number, i.draw);
      } else {
        OnAckRounds(o.state, i.now, i.number, i.draw);
        if EndsRound(inputs, i) {
          MeasuredIs(inputs, i);
        }
      }
    }
  }

  /** In every run the filter is the windowed maximum, over ten rounds, of the samples made at the ends of
      rounds. */
  lemma {:induction false} FilterOfRun(inputs: seq<Input>)
    ensures RoundsOf(inputs).filter == Filter.Fed(10, FedOf(inputs))
  {
    hide Run, Inv, RoundsOf, LinkOf, SampleAt, Filter.Updated;
    if inputs == [] {
      NoRounds();
    } else {
      var n := |inputs| - 1;
      var before, i := inputs[..n], inputs[n];
      assert inputs == before + [i];
      FilterOfRun(before);
      FilterSnoc(before, i);
      if EndsRound(before, i) && RoundsOf(before).count > 0 {
        Filter.FedSnoc(10, FedOf(before), Filter.Stamped(SampleAt(before, i), RoundsOf(before).count));
      } else {
        assert FedOf(before) + [] == FedOf(before);
      }
    }
  }

  /** The rounds of the samples count up, never past the round that is under way. */
  lemma {:induction false} FedRounds(inputs: seq<Input>)
    ensures var fed := FedOf(inputs);
            && (forall m | 0 <= m < |fed| :: fed[m].time == m + 1)
            && (if RoundsOf(inputs).count == 0 then fed == [] else |fed| == RoundsOf(inputs).count - 1)
  {
    hide Run, Inv, RoundsOf, LinkOf, SampleAt;
    if inputs == [] {
      NoRounds();
    } else {
      var n := |inputs| - 1;
      var before, i := inputs[..n], inputs[n];
      assert inputs == before + [i];
      FedRounds(before);
      RoundsSnoc(before, i);
    }
  }

  /** In every run with a second round: the estimate is a sample made at the end of one of the last eleven rounds
      before the one under way, and none since has exceeded it. */
  lemma EstimateIsMeasured(inputs: seq<Input>) returns (m: nat)
    requires 1 < RoundsOf(inputs).count < 0x1_0000_0000_0000_0000
    ensures var fed, best := FedOf(inputs), RoundsOf(inputs).filter.best;
            && |fed| == RoundsOf(inputs).count - 1
            && m < |fed| <= m + 11 && best.sample == fed[m].sample
            && forall j | m <= j < |fed| :: fed[j].sample <= best.sample
  {
    hide Run, Inv, RoundsOf, FedOf, Filter.Fed;
    FedRounds(inputs);
    FilterOfRun(inputs);
    m := Filter.BestOfWindow(10, FedOf(inputs));
  }
}
