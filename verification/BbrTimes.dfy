/**
 What the sender's clocks and goals mean: when the minimum round-trip time was last renewed, when the phase
 of the gain cycle began, when and with what goal the sender backed off.
 */
module BbrTimes {
  import opened Totals
  import opened BbrStartup
  import opened BbrHistory
  import opened Wire
  import opened Bbr
  import opened BbrInvariant
  import opened BbrRuns
  import Filter = WindowedFilter

  /** The fields of the sender against the log; `probe` is when the stay in DECREASE counts as begun. */
  ghost predicate Timed(r: Rtt, p: Pace, log: Log, probe: nat)
  {
    && r.minRttTimestamp == RenewedAt(log)
    && (After(log).Decrease? ==> r.minRttRecord == LeastOr(Window(UpToBackoff(log)), 0) && p.bdp == Goal(log))
    && (After(log).Decrease? && Episode(log) != {} ==> r.minRttTimestampInDecrease == EpisodeLeastAt(log))
    && (After(log).Increase? ==> p.lastCycleStart == PhaseSince(log))
    && (After(log) == Decrease(true) ==> probe == Clock(UpToBackoff(log)) > 0)
  }

  lemma ClocksGrow(log: Log, e: Event)
    ensures Clock(log + [e]) == if e.Acked? then e.now else Clock(log)
    ensures PhaseSince(log + [e]) == if e.Increased? || e.Advanced? then Clock(log) else PhaseSince(log)
    ensures UpToBackoff(log + [e]) == if e.Backoff? then log else UpToBackoff(log)
    ensures Goal(log + [e]) == if e.Backoff? then e.goal else Goal(log)
  {
    assert Init(log + [e]) == log;
  }

  ghost predicate AtMostAll(x: nat, s: set<nat>)
  {
    forall m | m in s :: x <= m
  }

  lemma EpisodeLeastGrows(log: Log, e: Event)
    ensures EpisodeLeastAt(log + [e])
            == if e.Sampled? && After(log).Decrease? && AtMostAll(e.rtt, Episode(log)) then Clock(log) else EpisodeLeastAt(log)
  {
    assert Init(log + [e]) == log;
  }

  lemma RenewedGrows(log: Log, e: Event)
    ensures RenewedAt(log + [e])
            == if e.Sampled? then (if Renews(log, e.rtt) then Clock(log) else RenewedAt(log))
               else if e.Increased? && After(log) == Decrease(true) then
                 (if Episode(log) == {} then Clock(log) else EpisodeLeastAt(log))
               else RenewedAt(log)
  {
    hide Renews;
    assert Init(log + [e]) == log;
  }

  lemma TimesGrow(log: Log, e: Event)
    ensures Clock(log + [e]) == if e.Acked? then e.now else Clock(log)
    ensures PhaseSince(log + [e]) == if e.Increased? || e.Advanced? then Clock(log) else PhaseSince(log)
    ensures UpToBackoff(log + [e]) == if e.Backoff? then log else UpToBackoff(log)
    ensures Goal(log + [e]) == if e.Backoff? then e.goal else Goal(log)
    ensures After(log + [e]) == Move(After(log), e)
    ensures Episode(log + [e])
            == if e.Backoff? then {} else if e.Sampled? && After(log).Decrease? then Episode(log) + {e.rtt} else Episode(log)
    ensures !e.Sampled? ==> EpisodeLeastAt(log + [e]) == EpisodeLeastAt(log)
    ensures !e.Sampled? && !(e.Increased? && After(log).Decrease?) ==> RenewedAt(log + [e]) == RenewedAt(log)
  {
    hide After, Episode, Clock, PhaseSince, UpToBackoff, Goal, EpisodeLeastAt, RenewedAt, AtMostAll, Renews;
    ClocksGrow(log, e);
    Grows(log, e);
    EpisodeLeastGrows(log, e);
    RenewedGrows(log, e);
  }

  /** The check for a similar minimum, without the division. */
  lemma SimilarIff(m: nat, rtt: nat)
    ensures rtt <= Similar(m) <==> 8 * rtt <= 9 * m + 4
  {
  }

  lemma RenewsIff(r: Rtt, log: Log, rtt: nat, now: nat)
    requires MinRttExact(r, log)
    ensures ObserveMin(r, rtt, now).minRttTimestamp == if Renews(log, rtt) then now else r.minRttTimestamp
  {
    hide Window, Similar;
    SimilarIff(r.minRtt, rtt);
    if Window(log) != {} {
      assert IsMin(LeastOr(Window(log), 0), Window(log)) && IsMin(r.minRtt, Window(log));
    }
  }

  /** A sample equal to the minimum does not renew it: a steady delay lets it expire. */
  lemma EqualDoesNotRenew(log: Log, number: nat)
    requires Window(log) != {}
    ensures RenewedAt(log + [Sampled(number, LeastOr(Window(log), 0))]) == RenewedAt(log)
  {
    hide RenewedAt;
    RenewedGrows(log, Sampled(number, LeastOr(Window(log), 0)));
  }

  lemma SampledTimed(r: Rtt, p: Pace, log: Log, probe: nat, number: nat, rtt: nat, now: nat)
    requires Timed(r, p, log, probe) && RttExact(r, log) && PaceExact(p, After(log)) && Clock(log) == now
    ensures Timed(Observe(r, p.mode, number, rtt, now), p, log + [Sampled(number, rtt)], probe)
  {
    hide After, Episode, Clock, PhaseSince, UpToBackoff, Goal, EpisodeLeastAt, RenewedAt, Renews, Window;
    hide ObserveMin, ObserveEpisode, ObserveBaseLine, LeastOr, GainOf;
    var e := Sampled(number, rtt);
    TimesGrow(log, e);
    EpisodeLeastGrows(log, e);
    RenewedGrows(log, e);
    RenewsIff(r, log, rtt, now);
    ObserveMinFrame(r, rtt, now);
    var m := ObserveMin(r, rtt, now);
    EpisodeStamp(r, m, log, rtt, now);
    BaseLineStamps(m, rtt);
    ObserveMinStamps(r, rtt, now);
  }

  lemma ObserveMinStamps(r: Rtt, rtt: nat, now: nat)
    ensures ObserveMin(r, rtt, now).minRttTimestampInDecrease == r.minRttTimestampInDecrease
  {
  }

  lemma BaseLineStamps(r: Rtt, rtt: nat)
    ensures var q := ObserveBaseLine(r, rtt);
            && q.minRttTimestamp == r.minRttTimestamp && q.minRttRecord == r.minRttRecord
            && q.minRttTimestampInDecrease == r.minRttTimestampInDecrease
  {
  }

  lemma EpisodeStamp(r: Rtt, m: Rtt, log: Log, rtt: nat, now: nat)
    requires EpisodeExact(r, log) && m == ObserveMin(r, rtt, now)
    ensures var q := ObserveEpisode(m, rtt, now);
            && q.minRttTimestamp == m.minRttTimestamp && q.minRttRecord == m.minRttRecord
            && (After(log).Decrease? ==>
                  q.minRttTimestampInDecrease == if AtMostAll(rtt, Episode(log)) then now else r.minRttTimestampInDecrease)
  {
    hide Episode, After;
  }

  lemma AckedTimed(r: Rtt, p: Pace, log: Log, probe: nat, e: Event)
    requires Timed(r, p, log, probe) && e.Acked?
    ensures Timed(r, p, log + [e], probe)
  {
    hide After, Episode, Clock, PhaseSince, UpToBackoff, Goal, EpisodeLeastAt, RenewedAt, Window, LeastOr;
    TimesGrow(log, e);
  }

  /** An event of the mode machine other than a backoff or the end of one. */
  lemma QuietTimed(r: Rtt, p: Pace, q: Pace, log: Log, probe: nat, e: Event)
    requires Timed(r, p, log, probe) && !e.Sampled? && !e.Backoff? && !(e.Increased? && After(log).Decrease?)
    requires q.bdp == p.bdp
    requires q.lastCycleStart == if e.Increased? || e.Advanced? then Clock(log) else p.lastCycleStart
    ensures Timed(r, q, log + [e], probe)
  {
    hide After, Episode, Clock, PhaseSince, UpToBackoff, Goal, EpisodeLeastAt, RenewedAt, Window, LeastOr;
    TimesGrow(log, e);
  }

  lemma BackoffTimed(r: Rtt, p: Pace, log: Log, probe: nat, expired: bool, lastSent: nat, goal: nat)
    requires Timed(r, p, log, probe) && MinRttExact(r, log) && (expired ==> Clock(log) > 0)
    ensures Timed(BackOffRtt(r, lastSent), BackOffPace(p, expired, goal), log + [Backoff(expired, lastSent, goal)], Clock(log))
  {
    hide After, Episode, Clock, PhaseSince, UpToBackoff, Goal, EpisodeLeastAt, RenewedAt, Window;
    TimesGrow(log, Backoff(expired, lastSent, goal));
    if Window(log) != {} {
      assert IsMin(LeastOr(Window(log), 0), Window(log)) && IsMin(r.minRtt, Window(log));
    }
  }

  lemma LeaveTimed(r: Rtt, p: Pace, log: Log, probe: nat, now: nat, draw: nat, other: nat)
    requires Timed(r, p, log, probe) && EpisodeExact(r, log) && PaceExact(p, After(log)) && After(log).Decrease? && Clock(log) == now
    ensures Timed(LeaveRtt(r, p.minRttExpired, now), EnterIncrease(p.(minRttExpired := false), now, draw),
                  log + [Increased(Offset(draw))], other)
  {
    hide After, Episode, Clock, PhaseSince, UpToBackoff, Goal, EpisodeLeastAt, RenewedAt, Window, LeastOr, Offset, IsMin, GainOf;
    var e := Increased(Offset(draw));
    TimesGrow(log, e);
    RenewedGrows(log, e);
  }

  // ---------------------------------------------------------------------------
  // The steps of an acknowledgement
  // ---------------------------------------------------------------------------

  /** The log is right about all times, and about the time of the current acknowledgement. */
  ghost predicate OnTime(s: State, log: Log, now: nat, probe: nat)
  {
    Inv(s, log) && Timed(s.rtt, s.pace, log, probe) && Clock(log) == now
  }

  lemma InvParts(s: State, log: Log)
    requires Inv(s, log)
    ensures MinRttExact(s.rtt, log) && EpisodeExact(s.rtt, log) && RttExact(s.rtt, log) && PaceExact(s.pace, After(log))
  {
  }

  lemma PaceModes(p: Pace, phase: Phase)
    requires PaceExact(p, phase)
    ensures p.mode == DECREASE <==> phase.Decrease?
    ensures p.mode == DRAIN <==> phase.Drain?
    ensures p.mode == INCREASE <==> phase.Increase?
    ensures p.mode == START <==> phase.Start?
    ensures phase.Decrease? ==> p.minRttExpired == phase.expired
  {
  }

  lemma OtherProbe(r: Rtt, p: Pace, log: Log, probe: nat, other: nat)
    requires Timed(r, p, log, probe) && (After(log) == Decrease(true) ==> probe == other)
    ensures Timed(r, p, log, other)
  {
  }

  lemma BackOffOnTime(s: State, log: Log, now: nat)
    requires OnTime(s, log, now, s.pace.exitProbeAt)
    ensures var expired := now > s.rtt.minRttTimestamp + MIN_RTT_EXPIRY; var t := MaybeBackOff(s, expired);
            OnTime(t, log + BackOffEvents(s, expired), now, ProbeStart(t.pace, now).exitProbeAt)
  {
    hide Inv, Timed, Clock, Congested, TargetWindow, BackOffRtt, PaceExact, MinRttExact, EpisodeExact, RttExact;
    var expired := now > s.rtt.minRttTimestamp + MIN_RTT_EXPIRY;
    BackOffKeeps(s, log, expired);
    InvParts(s, log);
    if ShouldBackOff(s, expired) {
      var goal := TargetWindow(s.rtt, s.rounds.filter.best.sample);
      BackoffTimed(s.rtt, s.pace, log, s.pace.exitProbeAt, expired, s.link.lastSent, goal);
      TimesGrow(log, Backoff(expired, s.link.lastSent, goal));
    } else {
      assert log + [] == log;
      ProbePositive(s.rtt, s.pace, log);
      OtherProbe(s.rtt, s.pace, log, s.pace.exitProbeAt, ProbeStart(s.pace, now).exitProbeAt);
    }
  }

  lemma ProbePositive(r: Rtt, p: Pace, log: Log)
    requires Timed(r, p, log, p.exitProbeAt)
    ensures After(log) == Decrease(true) ==> p.exitProbeAt > 0
  {
  }

  lemma SameTimes(r: Rtt, p: Pace, q: Pace, log: Log, probe: nat)
    requires Timed(r, p, log, probe) && q.bdp == p.bdp && q.lastCycleStart == p.lastCycleStart
    ensures Timed(r, q, log, probe)
  {
  }

  lemma LeaveOnTime(s: State, log: Log, now: nat, draw: nat)
    requires OnTime(s, log, now, ProbeStart(s.pace, now).exitProbeAt)
    ensures var t := MaybeLeave(s, now, draw);
            OnTime(t, log + LeaveEvents(s, now, draw), now, t.pace.exitProbeAt)
  {
    hide Inv, Timed, Clock, LeaveRtt, PaceExact, MinRttExact, EpisodeExact, RttExact, Offset, After, ShouldLeave, EnterIncrease;
    LeaveKeeps(s, log, now, draw);
    InvParts(s, log);
    PaceModes(s.pace, After(log));
    assert log + [] == log;
    var probed := ProbeStart(s.pace, now);
    if s.pace.mode != DECREASE {
      OtherProbe(s.rtt, s.pace, log, probed.exitProbeAt, s.pace.exitProbeAt);
    } else {
      SameTimes(s.rtt, s.pace, probed, log, probed.exitProbeAt);
      var t := MaybeLeave(s, now, draw);
      if ShouldLeave(s.(pace := probed), now) {
        ProbedExact(s.pace, After(log), now);
        LeaveTimed(s.rtt, probed, log, probed.exitProbeAt, now, draw, t.pace.exitProbeAt);
        TimesGrow(log, Increased(Offset(draw)));
      }
    }
  }

  lemma ProbedExact(p: Pace, phase: Phase, now: nat)
    requires PaceExact(p, phase)
    ensures PaceExact(ProbeStart(p, now), phase)
  {
  }

  lemma QuietOnTime(s: State, t: State, log: Log, now: nat, e: Event)
    requires OnTime(s, log, now, s.pace.exitProbeAt) && Inv(t, log + [e]) && t.rtt == s.rtt
    requires !e.Sampled? && !e.Backoff? && !e.Acked? && !(e.Increased? && After(log).Decrease?)
    requires t.pace.bdp == s.pace.bdp && t.pace.exitProbeAt == s.pace.exitProbeAt
    requires t.pace.lastCycleStart == if e.Increased? || e.Advanced? then now else s.pace.lastCycleStart
    ensures OnTime(t, log + [e], now, t.pace.exitProbeAt)
  {
    hide Inv, Timed, Clock, After;
    QuietTimed(s.rtt, s.pace, t.pace, log, s.pace.exitProbeAt, e);
    TimesGrow(log, e);
  }

  lemma FeedOnTime(s: State, log: Log, now: nat, roundUpdate: bool, bw: nat, round: nat)
    requires OnTime(s, log, now, s.pace.exitProbeAt)
    ensures var t := MaybeFeed(s, roundUpdate, bw, round);
            OnTime(t, log + MaybeFeedEvents(s, roundUpdate, bw, round), now, t.pace.exitProbeAt)
  {
    hide Inv, Timed, Clock, Filter.Updated, RoundEnds;
    FeedKeeps(s, log, roundUpdate, bw, round);
    assert log + [] == log;
    var t := MaybeFeed(s, roundUpdate, bw, round);
    if roundUpdate && !s.rounds.startup.full {
      QuietOnTime(s, t, log, now, Estimated(t.rounds.filter.best.sample));
    }
  }

  lemma DrainOnTime(s: State, log: Log, now: nat)
    requires OnTime(s, log, now, s.pace.exitProbeAt)
    ensures var t := MaybeDrain(s); OnTime(t, log + DrainEvents(s), now, t.pace.exitProbeAt)
  {
    hide Inv, Timed, Clock;
    DrainKeeps(s, log);
    assert log + [] == log;
    if DrainEvents(s) != [] {
      QuietOnTime(s, MaybeDrain(s), log, now, Drained);
    }
  }

  lemma IncreaseOnTime(s: State, log: Log, now: nat, draw: nat)
    requires OnTime(s, log, now, s.pace.exitProbeAt)
    ensures var t := MaybeIncrease(s, now, draw); OnTime(t, log + IncreaseEvents(s, draw), now, t.pace.exitProbeAt)
  {
    hide Inv, Timed, Clock, TargetWindow, Offset, After, PaceExact;
    IncreaseKeeps(s, log, now, draw);
    InvParts(s, log);
    PaceModes(s.pace, After(log));
    assert log + [] == log;
    if ShouldIncrease(s) {
      QuietOnTime(s, MaybeIncrease(s, now, draw), log, now, Increased(Offset(draw)));
    }
  }

  lemma AdvanceOnTime(s: State, log: Log, now: nat)
    requires OnTime(s, log, now, s.pace.exitProbeAt)
    ensures var t := MaybeAdvance(s, now); OnTime(t, log + AdvanceEvents(s, now), now, t.pace.exitProbeAt)
  {
    hide Inv, Timed, Clock, GetMinRtt, NextPhase;
    AdvanceKeeps(s, log, now);
    assert log + [] == log;
    if ShouldAdvance(s, now) {
      QuietOnTime(s, MaybeAdvance(s, now), log, now, Advanced(NextPhase(s.pace.offset)));
    }
  }

  lemma ReceiveOnTime(s: State, log: Log, now: nat, number: nat)
    requires Inv(s, log) && Timed(s.rtt, s.pace, log, s.pace.exitProbeAt) && s.link.lastAck < number
    ensures Accounted(s.link) && OnTime(Receive(s, now, number), log + SampleEvents(s, now, number), now, s.pace.exitProbeAt)
  {
    hide Inv, Timed, Clock, After, AckPackets, Observe, PaceExact, MinRttExact, EpisodeExact, RttExact, Accounted, BaseLineExact;
    InvAccounted(s, log);
    ReceiveKeeps(s, log, now, number);
    InvParts(s, log);
    var e := Acked(number, s.link.lastSent, now);
    AckedTimed(s.rtt, s.pace, log, s.pace.exitProbeAt, e);
    TimesGrow(log, e);
    if number in s.link.sent {
      var x := Sampled(number, Elapsed(now, s.link.sent[number].sentTs));
      RttQuiet(s.rtt, log, e);
      SampledTimed(s.rtt, s.pace, log + [e], s.pace.exitProbeAt, number, x.rtt, now);
      TimesGrow(log + [e], x);
      assert log + [e] + [x] == log + ([e] + [x]);
    } else {
      assert [e] + [] == [e];
    }
  }

  lemma AdaptOnTime(s: State, log: Log, now: nat, draw: nat, roundUpdate: bool, bw: nat, round: nat)
    requires OnTime(s, log, now, s.pace.exitProbeAt)
    ensures var t := Adapt(s, now, draw, roundUpdate, bw, round);
            OnTime(t, log + AdaptEvents(s, now, draw, roundUpdate, bw, round), now, t.pace.exitProbeAt)
  {
    hide OnTime, MaybeBackOff, MaybeLeave, MaybeFeed, MaybeDrain, MaybeIncrease, MaybeAdvance;
    hide BackOffEvents, LeaveEvents, MaybeFeedEvents, DrainEvents, IncreaseEvents, AdvanceEvents;
    var expired := now > s.rtt.minRttTimestamp + MIN_RTT_EXPIRY;
    var s1, e1 := MaybeBackOff(s, expired), BackOffEvents(s, expired);
    var s2, e2 := MaybeLeave(s1, now, draw), LeaveEvents(s1, now, draw);
    var s3, e3 := MaybeFeed(s2, roundUpdate, bw, round), MaybeFeedEvents(s2, roundUpdate, bw, round);
    var s4, e4 := MaybeDrain(s3), DrainEvents(s3);
    var s5, e5 := MaybeIncrease(s4, now, draw), IncreaseEvents(s4, draw);
    BackOffOnTime(s, log, now);
    LeaveOnTime(s1, log + e1, now, draw);
    FeedOnTime(s2, log + e1 + e2, now, roundUpdate, bw, round);
    DrainOnTime(s3, log + e1 + e2 + e3, now);
    IncreaseOnTime(s4, log + e1 + e2 + e3 + e4, now, draw);
    AdvanceOnTime(s5, log + e1 + e2 + e3 + e4 + e5, now);
    Regroup(log, e1, e2, e3, e4, e5, AdvanceEvents(s5, now));
  }

  ghost predicate RunsOnTime(o: Outcome)
  {
    Timed(o.state.rtt, o.state.pace, o.log, o.state.pace.exitProbeAt)
  }

  lemma StepOnTime(o: Outcome, i: Input)
    requires Inv(o.state, o.log) && RunsOnTime(o)
    ensures RunsOnTime(Step(o, i))
  {
    hide Inv, Timed, Receive, Adapt, AdaptEvents, SampleEvents, Measured, Accounted;
    var s := o.state;
    InvAccounted(s, o.log);
    if i.Ack? {
      if i.number <= s.link.lastAck {
        assert o.log + [] == o.log;
      } else {
        ReceiveOnTime(s, o.log, i.now, i.number);
        ReceivePace(s, i.now, i.number);
        if s.rounds.count > 0 {
          var t, es := Receive(s, i.now, i.number), SampleEvents(s, i.now, i.number);
          var update, bw := RoundUpdate(s, i.number), Measured(s, i.now, i.number);
          AdaptOnTime(t, o.log + es, i.now, i.draw, update, bw, s.rounds.count);
          var more := AdaptEvents(t, i.now, i.draw, update, bw, s.rounds.count);
          assert o.log + es + more == o.log + (es + more);
        }
      }
    }
  }

  lemma ReceivePace(s: State, now: nat, number: nat)
    requires Accounted(s.link) && s.link.lastAck < number
    ensures Receive(s, now, number).pace == s.pace
  {
  }

  lemma StartsOnTime()
    ensures RunsOnTime(Outcome(Initial, []))
  {
  }

  lemma {:induction false} RunOnTime(inputs: seq<Input>)
    ensures RunsOnTime(Run(inputs))
  {
    hide Run, Inv, Step, RunsOnTime;
    if inputs == [] {
      RunEmpty();
      StartsOnTime();
    } else {
      RunOnTime(inputs[..|inputs| - 1]);
      RunStep(inputs);
      StepOnTime(Run(inputs[..|inputs| - 1]), inputs[|inputs| - 1]);
    }
  }

  /** In every run: `minRttTimestamp` is when the minimum was last renewed, `lastCycleStart` when the phase
      began, and in DECREASE the record is the minimum as of the backoff, `bdp` its goal and `exitProbeAt`,
      after an expiry, its time. */
  lemma TimesOfRun(inputs: seq<Input>)
    ensures var o := Run(inputs); var r, p, log := o.state.rtt, o.state.pace, o.log;
            && r.minRttTimestamp == RenewedAt(log)
            && (p.mode == INCREASE ==> p.lastCycleStart == PhaseSince(log))
            && (p.mode == DECREASE ==> r.minRttRecord == LeastOr(Window(UpToBackoff(log)), 0) && p.bdp == Goal(log))
            && (p.mode == DECREASE && p.minRttExpired ==> p.exitProbeAt == Clock(UpToBackoff(log)) > 0)
  {
    hide Run, After, PaceExact;
    RunOnTime(inputs);
    var o := Run(inputs);
    assert Inv(o.state, o.log);
    PaceModes(o.state.pace, After(o.log));
  }
}
