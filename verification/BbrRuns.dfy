/**
 What the invariant says of whole runs: the packet indexes, the round-trip times, the gains and the
 order of the modes.
 */
module BbrRuns {
  import opened Totals
  import opened BbrHistory
  import opened Bbr
  import opened BbrInvariant
  import Sampling
  import Filter = WindowedFilter

  lemma RunStep(inputs: seq<Input>)
    requires inputs != []
    ensures Run(inputs) == Step(Run(inputs[..|inputs| - 1]), inputs[|inputs| - 1])
  {
  }

  // ---------------------------------------------------------------------------
  // The packet table and the sampler
  // ---------------------------------------------------------------------------

  /** No packet is sent for the first time with a number already acknowledged. */
  ghost predicate Timely(inputs: seq<Input>)
  {
    forall i | 0 <= i < |inputs| && inputs[i].Send? ::
      var l := Run(inputs[..i]).state.link; inputs[i].number <= l.lastSent || l.lastAck < inputs[i].number
  }

  ghost predicate AlwaysAgree(inputs: seq<Input>)
  {
    forall n | 0 <= n <= |inputs| :: IndexesAgree(Run(inputs[..n]).state.link)
  }

  /** Backing off, feeding and cycling leave the packets alone. */
  lemma AdaptLink(s: State, now: nat, draw: nat, roundUpdate: bool, bw: nat, round: nat)
    ensures Adapt(s, now, draw, roundUpdate, bw, round).link == s.link
  {
    hide TargetWindow, GetMinRtt, Congested, Filter.Updated, Offset, ShouldLeave;
  }

  lemma OnAckLink(s: State, now: nat, number: nat, draw: nat)
    requires Accounted(s.link)
    ensures OnAck(s, now, number, draw).link
            == if number <= s.link.lastAck then s.link else AckPackets(s.link, now, number)
  {
    hide Adapt, AckPackets, Measured, SampleRtt;
    if number > s.link.lastAck {
      AdaptLink(Receive(s, now, number), now, draw, RoundUpdate(s, number), Measured(s, now, number), s.rounds.count);
    }
  }

  /** One input: an acknowledgement never parts the two, a packet sent does if and only if it is late. */
  lemma StepAgreesIff(o: Outcome, i: Input)
    requires Inv(o.state, o.log) && IndexesAgree(o.state.link)
    ensures var l := o.state.link;
            IndexesAgree(Step(o, i).state.link) <==> (i.Send? ==> i.number <= l.lastSent || l.lastAck < i.number)
  {
    hide IndexesAgree, SendPacket, AckPackets, OnAck, OnAckEvents, MinRttExact, EpisodeExact, BaseLineExact, PaceExact, Legal;
    match i {
      case Send(now, number, bytes) =>
        SendAgreesIff(o.state.link, now, number, bytes);
      case Ack(now, number, draw) =>
        OnAckLink(o.state, now, number, draw);
        if number > o.state.link.lastAck {
          AckKeeps(o.state.link, now, number);
        }
    }
  }

  lemma StartAgrees()
    ensures IndexesAgree(Initial.link)
  {
  }

  /** The two indexes agree after every input of a run if and only if no packet is sent late. */
  lemma {:induction false} AgreeIff(inputs: seq<Input>)
    ensures AlwaysAgree(inputs) <==> Timely(inputs)
  {
    hide IndexesAgree, Step, Inv, Run;
    var n := |inputs|;
    assert inputs[..n] == inputs;
    if n == 0 {
      RunEmpty();
      StartAgrees();
    } else {
      var before, last := inputs[..n - 1], inputs[n - 1];
      assert forall m | 0 <= m < n :: before[..m] == inputs[..m];
      AgreeIff(before);
      RunStep(inputs);
      assert AlwaysAgree(inputs) <==> AlwaysAgree(before) && IndexesAgree(Run(inputs).state.link);
      assert Timely(inputs) <==>
             Timely(before) && (last.Send? ==> var l := Run(before).state.link; last.number <= l.lastSent || l.lastAck < last.number);
      if AlwaysAgree(before) {
        assert IndexesAgree(Run(before[..n - 1]).state.link) && before[..n - 1] == before;
        StepAgreesIff(Run(before), last);
      }
    }
  }

  lemma RunEmpty()
    ensures Run([]) == Outcome(Initial, [])
  {
  }

  /** Only packets already sent are acknowledged. */
  ghost predicate Honest(inputs: seq<Input>)
  {
    forall i | 0 <= i < |inputs| && inputs[i].Ack? :: inputs[i].number <= Run(inputs[..i]).state.link.lastSent
  }

  lemma {:induction false} HonestNeverAhead(inputs: seq<Input>, n: nat)
    requires Honest(inputs) && n <= |inputs|
    ensures var l := Run(inputs[..n]).state.link; l.lastAck <= l.lastSent
  {
    hide Run, Inv, OnAck, OnAckEvents;
    if n == 0 {
      RunEmpty();
    } else {
      HonestNeverAhead(inputs, n - 1);
      var before, i := Run(inputs[..n - 1]), inputs[n - 1];
      assert inputs[..n][..n - 1] == inputs[..n - 1];
      RunStep(inputs[..n]);
      if i.Ack? {
        InvAccounted(before.state, before.log);
        OnAckLink(before.state, i.now, i.number, i.draw);
      }
    }
  }

  /** A receiver that acknowledges only what was sent is one case of it. */
  lemma HonestIsTimely(inputs: seq<Input>)
    requires Honest(inputs)
    ensures Timely(inputs) && AlwaysAgree(inputs)
  {
    hide Run, Inv;
    forall i | 0 <= i < |inputs| && inputs[i].Send?
      ensures var l := Run(inputs[..i]).state.link; inputs[i].number <= l.lastSent || l.lastAck < inputs[i].number
    {
      HonestNeverAhead(inputs, i);
    }
    AgreeIff(inputs);
  }

  /** In every run the byte count is that of the table. */
  lemma InFlightIsTableTotal(inputs: seq<Input>)
    ensures var l := Run(inputs).state.link; l.bytesInFlight == Total(ByteTable(l.sent))
  {
    hide Run, Total;
    assert Inv(Run(inputs).state, Run(inputs).log);
  }

  const LateSend: seq<Input> := [Ack(0, 2, 0), Send(0, 1, 10), Ack(0, 3, 0)]

  lemma RunSnoc(inputs: seq<Input>, i: Input)
    ensures Run(inputs + [i]) == Step(Run(inputs), i)
  {
    hide Step;
    assert (inputs + [i])[..|inputs|] == inputs;
    RunStep(inputs + [i]);
  }

  lemma RunSnocLink(inputs: seq<Input>, i: Input)
    ensures var l, r := Run(inputs).state.link, Run(inputs + [i]).state.link;
            && Accounted(l)
            && (i.Send? ==> r == SendPacket(l, i.now, i.number, i.bytes))
            && (i.Ack? && l.lastAck < i.number ==> r == AckPackets(l, i.now, i.number))
  {
    hide Run, Inv, OnAck, OnAckEvents, SendPacket, AckPackets;
    RunSnoc(inputs, i);
    var o := Run(inputs);
    InvAccounted(o.state, o.log);
    if i.Ack? {
      OnAckLink(o.state, i.now, i.number, i.draw);
    }
  }

  /** Packet 2 acknowledged, then packet 1 sent, then packet 3 acknowledged: packet 1 is erased from the
      table and stays in the sampler. */
  lemma LateSendDiverges()
    ensures IndexesAgree(Run(LateSend[..1]).state.link)
    ensures !IndexesAgree(Run(LateSend[..2]).state.link)
    ensures var l := Run(LateSend).state.link; 1 !in l.sent && 1 in l.sampler.packets
  {
    hide Run, Total, Sampling.Valid, Sampling.Sent, Sampling.Acked, IndexesAgree, Accounted;
    RunEmpty();
    StartAgrees();
    var one, two: seq<Input> := LateSend[..1], LateSend[..2];
    assert one == [] + [LateSend[0]] && two == one + [LateSend[1]] && LateSend == two + [LateSend[2]];
    RunSnocLink([], LateSend[0]);
    RunSnocLink(one, LateSend[1]);
    RunSnocLink(two, LateSend[2]);
    var early, sent := Run(one).state.link, Run(two).state.link;
    RunInFlight([]);
    AckKeeps(Initial.link, 0, 2);
    SendAgreesIff(early, 0, 1, 10);
    SentKeys(early.sampler, 0, 1, 10, early.bytesInFlight);
    LoseRangeKeys(sent.sampler, 3, 3);
    AckedKeys(LoseRange(sent.sampler, 3, 3), 0, 3);
  }

  lemma RunInFlight(inputs: seq<Input>)
    ensures InFlightExact(Run(inputs).state.link)
  {
    hide Run, InFlightExact;
    assert Inv(Run(inputs).state, Run(inputs).log);
  }

  // ---------------------------------------------------------------------------
  // Round-trip times and gains
  // ---------------------------------------------------------------------------

  /** In every run: for each backoff on delay, two packets both sent after the backoff before it, the one
      with a round-trip time more than 1.2 times the other's, which is the least of them all. */
  lemma NeverSpurious(inputs: seq<Input>, n: nat) returns (low: nat, high: nat)
    requires var log := Run(inputs).log; n < |log| && log[n].Backoff? && !log[n].expired
    ensures var log := Run(inputs).log;
            && low < n && high < n && log[low].Sampled? && log[high].Sampled?
            && 5 * log[high].rtt > 6 * log[low].rtt
            && IsMin(log[low].rtt, SinceBackoff(log[..n]))
            && log[low].number > LastBackoff(log[..n]) && log[high].number > LastBackoff(log[..n])
            && (forall j | low <= j < n || high <= j < n :: !log[j].Backoff?)
  {
    hide Run, Inv, SinceBackoff, LastBackoff;
    var o := Run(inputs);
    RunLegal(inputs);
    var log := o.log;
    DelayBackoffJustified(log, n);
    var m: nat, r: nat :| IsMin(m, SinceBackoff(log[..n])) && r in SinceBackoff(log[..n]) && 5 * r > 6 * m;
    low := SampleSinceBackoff(log[..n], m);
    high := SampleSinceBackoff(log[..n], r);
  }

  lemma RunLegal(inputs: seq<Input>)
    ensures Legal(Run(inputs).log)
  {
    hide Run;
    assert Inv(Run(inputs).state, Run(inputs).log);
  }

  /** In every run the minimum is that of the window: all samples since the last of zero, or since the last
      expired DECREASE with samples, that stay's and those after it. */
  lemma MinRttRefines(inputs: seq<Input>)
    ensures var o := Run(inputs);
            if Window(o.log) == {} then o.state.rtt.minRtt == 0 else IsMin(o.state.rtt.minRtt, Window(o.log))
  {
    hide Run;
    assert Inv(Run(inputs).state, Run(inputs).log);
  }

  /** In every run the smoothed time is at most some sample since the backoff; and where samples are whole
      milliseconds, at least the smallest. */
  lemma SmoothedBetween(inputs: seq<Input>)
    ensures var o := Run(inputs); var s := SinceBackoff(o.log);
            s != {} ==>
              && (exists y: nat :: y in s && o.state.rtt.sRtt <= y)
              && (WholeMillis(o.log) ==> exists m: nat :: IsMin(m, s) && m <= o.state.rtt.sRtt)
  {
    hide Run, SinceBackoff, WholeMillis;
    assert Inv(Run(inputs).state, Run(inputs).log);
    assert SinceBackoff(Run(inputs).log) != {} ==> IsMin(Run(inputs).state.rtt.baseLine.value, SinceBackoff(Run(inputs).log));
  }

  /** In every run the pacing gain is the one for the mode and the phase. */
  lemma GainFollowsMode(inputs: seq<Input>)
    ensures var p := Run(inputs).state.pace;
            && (p.mode == INCREASE ==> p.offset < 8)
            && p.gain == match p.mode
                         case START => 200
                         case DRAIN => 50
                         case INCREASE => if p.offset == 0 then 111 else if p.offset == 1 then 90 else 100
                         case DECREASE => 75
  {
    hide Run, After;
    assert Inv(Run(inputs).state, Run(inputs).log);
  }

  // ---------------------------------------------------------------------------
  // The order of the modes
  // ---------------------------------------------------------------------------

  function ModeRank(m: Mode): (n: nat)
  {
    match m
    case START => 0
    case DRAIN => 1
    case INCREASE => 2
    case DECREASE => 2
  }

  ghost predicate ModeStep(p: Pace, q: Pace, full: bool)
  {
    && ModeRank(p.mode) <= ModeRank(q.mode)
    && (q.mode == DRAIN && p.mode != DRAIN ==> p.mode == START && full)
    && (q.mode == INCREASE && q.offset == 1 && !(p.mode == INCREASE && p.offset == 1) ==> p.mode == INCREASE && p.offset == 0)
  }

  lemma AdaptModes(s: State, now: nat, draw: nat, roundUpdate: bool, bw: nat, round: nat)
    requires s.pace.mode == INCREASE ==> s.pace.offset < CYCLE
    ensures var t := Adapt(s, now, draw, roundUpdate, bw, round); ModeStep(s.pace, t.pace, t.rounds.startup.full)
  {
    hide TargetWindow, GetMinRtt, Congested, Filter.Updated, Offset, ShouldLeave;
  }

  lemma StepModes(o: Outcome, i: Input)
    requires Inv(o.state, o.log)
    ensures var t := Step(o, i).state; ModeStep(o.state.pace, t.pace, t.rounds.startup.full)
  {
    hide Adapt, MinRttExact, EpisodeExact, BaseLineExact, Legal, InFlightExact, AckPackets, Measured, SampleRtt, ModeStep;
    ModeStays(o.state.pace, o.state.rounds.startup.full);
    if i.Ack? {
      InvAccounted(o.state, o.log);
      var s := o.state;
      if i.number > s.link.lastAck && s.rounds.count > 0 {
        AdaptModes(Receive(s, i.now, i.number), i.now, i.draw, RoundUpdate(s, i.number), Measured(s, i.now, i.number), s.rounds.count);
      }
    }
  }

  lemma ModeStays(p: Pace, full: bool)
    ensures ModeStep(p, p, full)
  {
  }

  /** Over every input of every run: DRAIN is entered only from START with the full bandwidth reached, and
      the 0.9 phase only from the 1.11 phase. */
  lemma ModesInOrder(inputs: seq<Input>, n: nat)
    requires n < |inputs|
    ensures var s, t := Run(inputs[..n]).state, Run(inputs[..n + 1]).state; ModeStep(s.pace, t.pace, t.rounds.startup.full)
  {
    hide Run, Step, Inv, ModeStep;
    assert inputs[..n + 1][..n] == inputs[..n];
    RunStep(inputs[..n + 1]);
    StepModes(Run(inputs[..n]), inputs[n]);
  }

  /** And the mode never goes back: not to START, not from INCREASE or DECREASE to DRAIN. */
  lemma {:induction false} ModeNeverGoesBack(inputs: seq<Input>, i: nat, j: nat)
    requires i <= j <= |inputs|
    ensures ModeRank(Run(inputs[..i]).state.pace.mode) <= ModeRank(Run(inputs[..j]).state.pace.mode)
    decreases j
  {
    hide Run, Inv;
    if i < j {
      ModeNeverGoesBack(inputs, i, j - 1);
      ModesInOrder(inputs, j - 1);
    }
  }

  /** The same at every step within an acknowledgement, as the log of the run has them. */
  lemma PhasesInOrder(inputs: seq<Input>, n: nat)
    requires n < |Run(inputs).log|
    ensures var log := Run(inputs).log; var p, q := After(log[..n]), After(log[..n + 1]);
            && Rank(p) <= Rank(q)
            && (q == Drain && p != Drain ==> p == Start && StartupAfter(log[..n]).full)
            && (q == Increase(1) && p != Increase(1) ==> p == Increase(0))
  {
    hide Run, After, StartupAfter, Rank;
    RunLegal(inputs);
    var log := Run(inputs).log;
    NeverGoesBack(log, n, n + 1);
    if After(log[..n + 1]) == Drain && After(log[..n]) != Drain {
      DrainMeansFull(log, n);
    }
    if After(log[..n + 1]) == Increase(1) && After(log[..n]) != Increase(1) {
      SlowFollowsFast(log, n);
    }
  }
}
