/**
 The bandwidth estimates of a run, and with them the end of STARTUP: it comes if and only if some
 estimate is not zero.
 */
module BbrEstimates {
  import opened BbrStartup
  import opened BbrHistory
  import opened Bbr
  import opened BbrInvariant
  import opened BbrRuns
  import Sampling
  import Filter = WindowedFilter

  lemma {:induction false} EstimatesJoin(a: Log, b: Log)
    ensures EstimatesOf(a + b) == EstimatesOf(a) + EstimatesOf(b)
    decreases |b|
  {
    if b == [] {
      assert a + b == a;
    } else {
      assert Init(a + b) == a + Init(b) && Last(a + b) == Last(b);
      EstimatesJoin(a, Init(b));
    }
  }

  lemma NoEstimate(es: Log)
    requires |es| <= 1 && (es == [] || !es[0].Estimated?)
    ensures EstimatesOf(es) == []
  {
    if es != [] {
      assert Init(es) == [];
    }
  }

  lemma OneEstimate(e: nat)
    ensures EstimatesOf([Estimated(e)]) == [e]
  {
    assert Init([Estimated(e)]) == [];
  }

  /** What one acknowledgement does to the rounds, the filter and the list of estimates. */
  ghost predicate RoundsStep(r: Rounds, t: Rounds, update: bool, bw: nat, round: nat, es: seq<nat>)
  {
    if update then
      && t.filter == Filter.Updated(r.filter, Filter.Stamped(bw, round), BANDWIDTH_WINDOW)
      && t.startup == RoundEnds(r.startup, t.filter.best.sample)
      && es == if r.startup.full then [] else [t.filter.best.sample]
    else t.filter == r.filter && t.startup == r.startup && es == []
  }

  lemma FeedRounds(s: State, update: bool, bw: nat, round: nat)
    ensures var t := MaybeFeed(s, update, bw, round);
            RoundsStep(s.rounds, t.rounds, update, bw, round, EstimatesOf(MaybeFeedEvents(s, update, bw, round)))
    ensures MaybeFeed(s, update, bw, round).rounds.count == s.rounds.count
  {
    hide Filter.Updated, EstimatesOf;
    NoEstimate([]);
    OneEstimate(MaybeFeed(s, true, bw, round).rounds.filter.best.sample);
  }

  lemma OtherStepsRounds(s: State, expired: bool, now: nat, draw: nat)
    ensures MaybeBackOff(s, expired).rounds == s.rounds && EstimatesOf(BackOffEvents(s, expired)) == []
    ensures MaybeLeave(s, now, draw).rounds == s.rounds && EstimatesOf(LeaveEvents(s, now, draw)) == []
    ensures MaybeDrain(s).rounds == s.rounds && EstimatesOf(DrainEvents(s)) == []
    ensures MaybeIncrease(s, now, draw).rounds == s.rounds && EstimatesOf(IncreaseEvents(s, draw)) == []
    ensures MaybeAdvance(s, now).rounds == s.rounds && EstimatesOf(AdvanceEvents(s, now)) == []
  {
    hide EstimatesOf, TargetWindow, GetMinRtt, Congested, Offset, ShouldLeave;
    NoEstimate(BackOffEvents(s, expired));
    NoEstimate(LeaveEvents(s, now, draw));
    NoEstimate(DrainEvents(s));
    NoEstimate(IncreaseEvents(s, draw));
    NoEstimate(AdvanceEvents(s, now));
  }

  lemma AdaptRounds(s: State, now: nat, draw: nat, update: bool, bw: nat, round: nat)
    ensures var t := Adapt(s, now, draw, update, bw, round);
            && t.rounds.count == s.rounds.count
            && RoundsStep(s.rounds, t.rounds, update, bw, round, EstimatesOf(AdaptEvents(s, now, draw, update, bw, round)))
  {
    hide MaybeBackOff, MaybeLeave, MaybeFeed, MaybeDrain, MaybeIncrease, MaybeAdvance, EstimatesOf, RoundsStep;
    hide BackOffEvents, LeaveEvents, MaybeFeedEvents, DrainEvents, IncreaseEvents, AdvanceEvents;
    var expired := now > s.rtt.minRttTimestamp + MIN_RTT_EXPIRY;
    var s1, e1 := MaybeBackOff(s, expired), BackOffEvents(s, expired);
    var s2, e2 := MaybeLeave(s1, now, draw), LeaveEvents(s1, now, draw);
    var s3, e3 := MaybeFeed(s2, update, bw, round), MaybeFeedEvents(s2, update, bw, round);
    var s4, e4 := MaybeDrain(s3), DrainEvents(s3);
    var s5, e5 := MaybeIncrease(s4, now, draw), IncreaseEvents(s4, draw);
    OtherStepsRounds(s, expired, now, draw);
    OtherStepsRounds(s1, expired, now, draw);
    FeedRounds(s2, update, bw, round);
    OtherStepsRounds(s3, expired, now, draw);
    OtherStepsRounds(s4, expired, now, draw);
    OtherStepsRounds(s5, expired, now, draw);
    SixJoined(e1, e2, e3, e4, e5, AdvanceEvents(s5, now));
  }

  lemma SixJoined(a: Log, b: Log, c: Log, d: Log, e: Log, f: Log)
    requires EstimatesOf(a) == [] && EstimatesOf(b) == []
    requires EstimatesOf(d) == [] && EstimatesOf(e) == [] && EstimatesOf(f) == []
    ensures EstimatesOf(a + b + c + d + e + f) == EstimatesOf(c)
  {
    hide EstimatesOf;
    EstimatesJoin(a, b);
    EstimatesJoin(a + b, c);
    EstimatesJoin(a + b + c, d);
    EstimatesJoin(a + b + c + d, e);
    EstimatesJoin(a + b + c + d + e, f);
  }

  lemma SampleHasNoEstimate(s: State, now: nat, number: nat)
    ensures EstimatesOf(SampleEvents(s, now, number)) == []
  {
    hide EstimatesOf;
    var e := Acked(number, s.link.lastSent, now);
    NoEstimate([e]);
    if number in s.link.sent {
      var x := Sampled(number, Elapsed(now, s.link.sent[number].sentTs));
      NoEstimate([x]);
      EstimatesJoin([e], [x]);
    } else {
      assert [e] + [] == [e];
    }
  }

  lemma OnAckRounds(s: State, now: nat, number: nat, draw: nat)
    requires Accounted(s.link) && s.link.lastAck < number
    ensures var t, es := OnAck(s, now, number, draw), EstimatesOf(OnAckEvents(s, now, number, draw));
            var update := RoundUpdate(s, number);
            && t.rounds.count == s.rounds.count + (if update then 1 else 0)
            && RoundsStep(s.rounds, t.rounds, update && s.rounds.count > 0, Measured(s, now, number), s.rounds.count, es)
  {
    hide Adapt, AdaptEvents, AckPackets, Measured, SampleRtt, SampleEvents, EstimatesOf;
    SampleHasNoEstimate(s, now, number);
    if s.rounds.count > 0 {
      var r := Receive(s, now, number);
      var update, bw := RoundUpdate(s, number), Measured(s, now, number);
      AdaptRounds(r, now, draw, update, bw, s.rounds.count);
      EstimatesJoin(SampleEvents(s, now, number), AdaptEvents(r, now, draw, update, bw, s.rounds.count));
    }
  }

  // ---------------------------------------------------------------------------
  // Every estimate is zero or at least a byte per second
  // ---------------------------------------------------------------------------

  ghost predicate AllWhole(es: seq<nat>)
  {
    forall i | 0 <= i < |es| :: WholeBytes(es[i])
  }

  predicate WholeFilter(f: Filter.Estimates)
  {
    WholeBytes(f.best.sample) && WholeBytes(f.second.sample) && WholeBytes(f.third.sample)
  }

  lemma SampleIsWhole(s: Sampling.State, time: nat, number: nat, roundUpdate: bool)
    requires Sampling.Valid(s)
    ensures WholeBytes(Sampling.Sample(s, time, number, roundUpdate))
  {
  }

  lemma FilterStaysWhole(f: Filter.Estimates, s: Filter.Stamped, window: nat)
    requires WholeFilter(f) && WholeBytes(s.sample)
    ensures WholeFilter(Filter.Updated(f, s, window))
  {
  }

  /** What estimates and rounds have to do with each other: all estimates whole; and until the full
      bandwidth is found, one for every round but the first. */
  ghost predicate Tallied(o: Outcome)
  {
    && WholeFilter(o.state.rounds.filter) && AllWhole(EstimatesOf(o.log))
    && (!o.state.rounds.startup.full ==>
          |EstimatesOf(o.log)| == if o.state.rounds.count == 0 then 0 else o.state.rounds.count - 1)
  }

  lemma MeasuredIsWhole(s: State, now: nat, number: nat)
    requires Accounted(s.link) && s.link.lastAck < number
    ensures WholeBytes(Measured(s, now, number))
  {
    hide Sampling.Sample, Sampling.Valid, LoseRange, WholeBytes;
    SampleIsWhole(LoseRange(s.link.sampler, s.link.lastAck + 1, number), now, number, RoundUpdate(s, number));
  }

  lemma RoundsStayTallied(r: Rounds, t: Rounds, update: bool, bw: nat, round: nat, es: seq<nat>, before: seq<nat>)
    requires RoundsStep(r, t, update && r.count > 0, bw, round, es) && WholeBytes(bw)
    requires t.count == r.count + if update then 1 else 0
    requires WholeFilter(r.filter) && AllWhole(before)
    requires !r.startup.full ==> |before| == if r.count == 0 then 0 else r.count - 1
    ensures WholeFilter(t.filter) && AllWhole(before + es)
    ensures !t.startup.full ==> |before + es| == if t.count == 0 then 0 else t.count - 1
  {
    hide Filter.Updated, WholeBytes;
    if update && r.count > 0 {
      FilterStaysWhole(r.filter, Filter.Stamped(bw, round), BANDWIDTH_WINDOW);
    }
  }

  lemma StepTallied(o: Outcome, i: Input)
    requires Inv(o.state, o.log) && Tallied(o)
    ensures Tallied(Step(o, i))
  {
    hide Inv, OnAck, OnAckEvents, EstimatesOf, RoundsStep, Measured, WholeBytes;
    InvAccounted(o.state, o.log);
    if i.Ack? {
      var s := o.state;
      if i.number <= s.link.lastAck {
        OldAck(s, i.now, i.number, i.draw);
        assert o.log + [] == o.log;
      } else {
        OnAckRounds(s, i.now, i.number, i.draw);
        MeasuredIsWhole(s, i.now, i.number);
        var es := OnAckEvents(s, i.now, i.number, i.draw);
        EstimatesJoin(o.log, es);
        RoundsStayTallied(s.rounds, OnAck(s, i.now, i.number, i.draw).rounds, RoundUpdate(s, i.number),
                          Measured(s, i.now, i.number), s.rounds.count, EstimatesOf(es), EstimatesOf(o.log));
      }
    }
  }

  lemma OldAck(s: State, now: nat, number: nat, draw: nat)
    requires Accounted(s.link) && number <= s.link.lastAck
    ensures OnAck(s, now, number, draw) == s && OnAckEvents(s, now, number, draw) == []
  {
  }

  lemma {:induction false} RunTallied(inputs: seq<Input>)
    ensures Tallied(Run(inputs))
  {
    hide Run, Inv, Step;
    if inputs == [] {
      RunEmpty();
      NoEstimate([]);
    } else {
      RunTallied(inputs[..|inputs| - 1]);
      RunStep(inputs);
      StepTallied(Run(inputs[..|inputs| - 1]), inputs[|inputs| - 1]);
    }
  }

  /** No run ever has an estimate between one and seven bits per second. */
  lemma EstimatesAreWhole(inputs: seq<Input>, i: nat)
    requires i < |EstimatesOf(Run(inputs).log)|
    ensures var e := EstimatesOf(Run(inputs).log)[i]; e == 0 || e >= 8
  {
    hide Run, Inv;
    RunTallied(inputs);
  }

  // ---------------------------------------------------------------------------
  // The end of STARTUP
  // ---------------------------------------------------------------------------

  lemma StartupIsOfLog(inputs: seq<Input>)
    ensures Run(inputs).state.rounds.startup == RunFrom(Begin, EstimatesOf(Run(inputs).log))
  {
    hide Run;
    assert Inv(Run(inputs).state, Run(inputs).log);
  }

  /** In every run whose estimates keep below a bound: the full bandwidth is found within `Bound(bound)`
      rounds of the first estimate that is not zero. */
  lemma StartupEndsInRuns(inputs: seq<Input>, bound: nat)
    requires var o := Run(inputs); var es := EstimatesOf(o.log);
             && AtMost(es, bound) && FirstPositive(es) < |es|
             && o.state.rounds.count > FirstPositive(es) + 1 + Bound(bound)
    ensures Run(inputs).state.rounds.startup.full
  {
    hide Run, Inv, RunFrom, EstimatesOf;
    RunTallied(inputs);
    StartupIsOfLog(inputs);
    var es := EstimatesOf(Run(inputs).log);
    if !Run(inputs).state.rounds.startup.full {
      StartupEnds(es, FirstPositive(es), bound);
    }
  }

  /** Given those rounds, if and only if there is such an estimate. */
  lemma StartupEndsIff(inputs: seq<Input>, bound: nat)
    requires var o := Run(inputs); var es := EstimatesOf(o.log);
             && AtMost(es, bound)
             && (FirstPositive(es) < |es| ==> o.state.rounds.count > FirstPositive(es) + 1 + Bound(bound))
    ensures Run(inputs).state.rounds.startup.full <==>
            exists i :: 0 <= i < |EstimatesOf(Run(inputs).log)| && EstimatesOf(Run(inputs).log)[i] != 0
  {
    hide Run, Inv, RunFrom, EstimatesOf;
    var es := EstimatesOf(Run(inputs).log);
    if FirstPositive(es) < |es| {
      StartupEndsInRuns(inputs, bound);
    } else {
      StartupIsOfLog(inputs);
      ZerosNeverEnd(es);
    }
  }

  /** In every run: the full bandwidth has been found if and only if an estimate that outgrew the record by a
      quarter was followed by three that did not outgrow it. */
  lemma FullBandwidthIff(inputs: seq<Input>)
    ensures Run(inputs).state.rounds.startup.full <==> exists k :: ThreeFlat(EstimatesOf(Run(inputs).log), k)
  {
    hide Run, Inv, RunFrom, EstimatesOf, ThreeFlat;
    StartupIsOfLog(inputs);
    FullIff(EstimatesOf(Run(inputs).log));
  }

  // ---------------------------------------------------------------------------
  // Runs that never leave STARTUP
  // ---------------------------------------------------------------------------

  ghost predicate Weightless(s: Sampling.State)
  {
    s.totalBytesAcked == 0 && forall k | k in s.packets :: s.packets[k].size == 0
  }

  predicate ZeroFilter(f: Filter.Estimates)
  {
    f.best.sample == 0 && f.second.sample == 0 && f.third.sample == 0
  }

  ghost predicate NothingMoves(s: State)
  {
    Weightless(s.link.sampler) && ZeroFilter(s.rounds.filter) && s.rounds.startup == Begin
  }

  ghost predicate EmptyPackets(inputs: seq<Input>)
  {
    forall i | 0 <= i < |inputs| && inputs[i].Send? :: inputs[i].bytes == 0
  }

  lemma {:induction false} LoseRangeWeightless(s: Sampling.State, first: nat, past: nat)
    requires first <= past && Weightless(s)
    ensures Weightless(LoseRange(s, first, past))
    decreases past - first
  {
    if first < past {
      LoseRangeWeightless(Sampling.Lost(s, first), first + 1, past);
    }
  }

  lemma WeightlessSample(s: Sampling.State, time: nat, number: nat, update: bool)
    requires Sampling.Valid(s) && Weightless(s)
    ensures Sampling.Sample(s, time, number, update) == 0
    ensures Weightless(Sampling.Acked(s, time, number))
  {
    if number in s.packets {
      assert Sampling.Sane(s.packets[number], s);
    }
  }

  lemma AckMovesNothing(s: State, now: nat, number: nat, draw: nat)
    requires Accounted(s.link) && NothingMoves(s)
    ensures NothingMoves(OnAck(s, now, number, draw))
  {
    hide OnAck, OnAckEvents, EstimatesOf, Sampling.Sample, Sampling.Acked, Sampling.Valid, LoseRange, Weightless;
    if number <= s.link.lastAck {
      OldAck(s, now, number, draw);
    } else {
      var lost := LoseRange(s.link.sampler, s.link.lastAck + 1, number);
      LoseRangeWeightless(s.link.sampler, s.link.lastAck + 1, number);
      WeightlessSample(lost, now, number, RoundUpdate(s, number));
      OnAckLink(s, now, number, draw);
      OnAckRounds(s, now, number, draw);
    }
  }

  /** A connection that sends only empty packets never leaves STARTUP, however long it lasts. */
  lemma {:induction false} EmptyPacketsNeverEnd(inputs: seq<Input>)
    requires EmptyPackets(inputs)
    ensures NothingMoves(Run(inputs).state)
  {
    hide Run, Inv, OnAck, OnAckEvents;
    if inputs == [] {
      RunEmpty();
    } else {
      var before, i := inputs[..|inputs| - 1], inputs[|inputs| - 1];
      EmptyPacketsNeverEnd(before);
      RunStep(inputs);
      if i.Ack? {
        InvAccounted(Run(before).state, Run(before).log);
        AckMovesNothing(Run(before).state, i.now, i.number, i.draw);
      }
    }
  }

  /** And such runs have any number of rounds. */
  lemma {:induction false} AnyNumberOfRounds(n: nat) returns (inputs: seq<Input>)
    ensures EmptyPackets(inputs) && Run(inputs).state.rounds.count == n && !Run(inputs).state.rounds.startup.full
    ensures var s := Run(inputs).state; s.link.lastSent == n && s.link.lastAck == n && s.rounds.end == n
  {
    hide Run, Inv, OnAck, OnAckEvents, Weightless;
    if n == 0 {
      inputs := [];
      RunEmpty();
    } else {
      var before := AnyNumberOfRounds(n - 1);
      var sent := before + [Send(0, n, 0)];
      inputs := sent + [Ack(0, n, 0)];
      assert sent[..|sent| - 1] == before && inputs[..|inputs| - 1] == sent;
      RunStep(sent);
      RunStep(inputs);
      var s := Run(sent).state;
      InvAccounted(s, Run(sent).log);
      OnAckLink(s, 0, n, 0);
      OnAckRounds(s, 0, n, 0);
      RoundEndsHere(s, 0, n, 0);
    }
    EmptyPacketsNeverEnd(inputs);
  }

  lemma RoundEndsHere(s: State, now: nat, number: nat, draw: nat)
    requires Accounted(s.link) && s.link.lastAck < number && RoundUpdate(s, number)
    ensures OnAck(s, now, number, draw).rounds.end == s.link.lastSent
  {
    hide AckPackets, Measured, SampleRtt, TargetWindow, GetMinRtt, Congested, Filter.Updated, Offset, ShouldLeave;
  }
}
