/**
 What the sender decides, and when: every backoff, every end of one, every estimate and every change of
 phase, as conditions on the log before it. Each is taken if and only if its condition holds.
 */
module BbrDecisions {
  import opened Totals
  import opened BbrStartup
  import opened BbrHistory
  import opened Wire
  import opened Bbr
  import opened BbrInvariant
  import opened BbrRuns
  import opened BbrTimes
  import Filter = WindowedFilter

  /** The minimum round-trip time, or 200 milliseconds while there is none. */
  ghost function MinRttOf(log: Log): (t: nat)
  {
    LeastOr(Window(log), 200_000)
  }

  /** The full bandwidth has been found: three flat estimates after a record. */
  ghost predicate FullFound(log: Log)
  {
    exists k :: ThreeFlat(EstimatesOf(log), k)
  }

  /** A single entry into the gain cycle, at the phase drawn, which is never the 0.9 one. */
  predicate EntersCycle(es: Log, draw: nat)
  {
    es == [Increased(if draw % 7 == 0 then 0 else draw % 7 + 1)]
  }

  /** Outside DECREASE, a minimum that has expired makes for a backoff; so does, in INCREASE, a delay that is
      too high. Its goal is what the bandwidth carries in the minimum round-trip time. */
  ghost predicate BacksOffAs(log: Log, es: Log, lastSent: nat, bandwidth: nat)
  {
    if !After(log).Decrease? && (MinExpired(log) || (After(log).Increase? && DelayTooHigh(log))) then
      && |es| == 1 && es[0].Backoff? && es[0].expired == MinExpired(log) && es[0].lastSent == lastSent
      && IsWindow(es[0].goal, bandwidth, MinRttOf(log))
    else es == []
  }

  /** DECREASE ends with the excess in flight gone or, for an expired minimum, probed for long enough. */
  ghost predicate LeavesAs(log: Log, es: Log, bytesInFlight: nat, draw: nat)
  {
    if After(log).Decrease? && (bytesInFlight <= Goal(log) || ProbedEnough(log)) then EntersCycle(es, draw) else es == []
  }

  /** A round that ends makes an estimate, until the full bandwidth is found. */
  ghost predicate EstimatesAs(log: Log, es: Log, roundEnds: bool, bandwidth: nat)
  {
    es == if roundEnds && !FullFound(log) then [Estimated(bandwidth)] else []
  }

  ghost predicate DrainsAs(log: Log, es: Log)
  {
    es == if After(log).Start? && FullFound(log) then [Drained] else []
  }

  /** DRAIN ends when no more is in flight than the bandwidth carries. */
  ghost predicate IncreasesAs(log: Log, es: Log, bytesInFlight: nat, bandwidth: nat, draw: nat)
  {
    if After(log).Drain? && exists w: nat :: IsWindow(w, bandwidth, MinRttOf(log)) && bytesInFlight <= w then EntersCycle(es, draw)
    else es == []
  }

  /** A phase ends after one minimum round-trip time. */
  ghost predicate AdvancesAs(log: Log, es: Log)
  {
    es == if After(log).Increase? && Clock(log) > PhaseSince(log) + MinRttOf(log) then
            [Advanced(if After(log).offset == 7 then 0 else After(log).offset + 1)]
          else []
  }

  // ---------------------------------------------------------------------------
  // One decision at a time
  // ---------------------------------------------------------------------------

  lemma MinRttIs(s: State, log: Log)
    requires Inv(s, log)
    ensures GetMinRtt(s.rtt) == MinRttOf(log) && (if s.rtt.minRtt != 0 then s.rtt.minRtt else 200_000) == MinRttOf(log)
  {
    hide Window, After, StartupAfter, Legal, InFlightExact, BaseLineExact, EpisodeExact, PaceExact;
    if Window(log) != {} {
      assert IsMin(MinRttOf(log), Window(log)) && IsMin(s.rtt.minRtt, Window(log));
    }
  }

  lemma FullIs(s: State, log: Log)
    requires Inv(s, log)
    ensures s.rounds.startup.full <==> FullFound(log)
  {
    hide Window, After, Legal, InFlightExact, BaseLineExact, EpisodeExact, PaceExact, MinRttExact, EstimatesOf, RunFrom, ThreeFlat;
    FullIff(EstimatesOf(log));
  }

  lemma OffsetIs(draw: nat)
    ensures Offset(draw) == if draw % 7 == 0 then 0 else draw % 7 + 1
  {
  }

  /** No two windows fit the same bandwidth and time. */
  lemma OneWindow(v: nat, w: nat, bandwidth: nat, rtt: nat)
    requires IsWindow(v, bandwidth, rtt) && IsWindow(w, bandwidth, rtt)
    ensures v == w
  {
  }

  lemma BackOffDecided(s: State, log: Log, now: nat)
    requires OnTime(s, log, now, s.pace.exitProbeAt)
    ensures var expired := now > s.rtt.minRttTimestamp + MIN_RTT_EXPIRY;
            BacksOffAs(log, BackOffEvents(s, expired), s.link.lastSent, s.rounds.filter.best.sample)
  {
    hide Inv, Clock, Congested, TargetWindow, PaceExact, MinRttExact, EpisodeExact, DelayTooHigh, After, IsWindow, MinRttOf;
    InvParts(s, log);
    PaceModes(s.pace, After(log));
    BaseLinePart(s, log);
    CongestedIff(s.rtt, log, s.pace.mode);
    MinRttIs(s, log);
  }

  lemma BaseLinePart(s: State, log: Log)
    requires Inv(s, log)
    ensures BaseLineExact(s.rtt, log)
  {
  }

  lemma LeaveDecided(s: State, log: Log, now: nat, draw: nat)
    requires OnTime(s, log, now, ProbeStart(s.pace, now).exitProbeAt)
    ensures LeavesAs(log, LeaveEvents(s, now, draw), s.link.bytesInFlight, draw)
  {
    hide Inv, PaceExact, MinRttExact, EpisodeExact, RttExact, After, Offset, LeastOr, Window, UpToBackoff, Clock, RenewedAt;
    InvParts(s, log);
    PaceModes(s.pace, After(log));
    OffsetIs(draw);
  }

  lemma EstimateDecided(s: State, log: Log, roundUpdate: bool, bw: nat, round: nat)
    requires Inv(s, log)
    ensures EstimatesAs(log, MaybeFeedEvents(s, roundUpdate, bw, round), roundUpdate,
                        MaybeFeed(s, roundUpdate, bw, round).rounds.filter.best.sample)
  {
    hide Inv, FullFound, Filter.Updated, RoundEnds;
    FullIs(s, log);
  }

  lemma DrainDecided(s: State, log: Log)
    requires Inv(s, log)
    ensures DrainsAs(log, DrainEvents(s))
  {
    hide Inv, FullFound, After, PaceExact, MinRttExact, EpisodeExact, RttExact;
    FullIs(s, log);
    InvParts(s, log);
    PaceModes(s.pace, After(log));
  }

  lemma IncreaseDecided(s: State, log: Log, draw: nat)
    requires Inv(s, log)
    ensures IncreasesAs(log, IncreaseEvents(s, draw), s.link.bytesInFlight, s.rounds.filter.best.sample, draw)
  {
    hide Inv, After, PaceExact, MinRttExact, EpisodeExact, RttExact, TargetWindow, Offset, MinRttOf, IsWindow;
    InvParts(s, log);
    PaceModes(s.pace, After(log));
    OffsetIs(draw);
    MinRttIs(s, log);
    var target := TargetWindow(s.rtt, s.rounds.filter.best.sample);
    forall w: nat | IsWindow(w, s.rounds.filter.best.sample, MinRttOf(log)) ensures w == target {
      OneWindow(w, target, s.rounds.filter.best.sample, MinRttOf(log));
    }
  }

  lemma AdvanceDecided(s: State, log: Log, now: nat)
    requires OnTime(s, log, now, s.pace.exitProbeAt)
    ensures AdvancesAs(log, AdvanceEvents(s, now))
  {
    hide Inv, MinRttExact, EpisodeExact, RttExact, MinRttOf, GetMinRtt, Clock, PhaseSince, After, NextPhase, RenewedAt;
    InvParts(s, log);
    MinRttIs(s, log);
  }

  // ---------------------------------------------------------------------------
  // All decisions of an acknowledgement
  // ---------------------------------------------------------------------------

  lemma StepFrames(s: State, expired: bool, now: nat, draw: nat, roundUpdate: bool, bw: nat, round: nat)
    ensures var t := MaybeBackOff(s, expired); t.link == s.link && t.rounds == s.rounds
    ensures var t := MaybeLeave(s, now, draw); t.link == s.link && t.rounds == s.rounds
    ensures MaybeFeed(s, roundUpdate, bw, round).link == s.link
    ensures var t := MaybeDrain(s); t.link == s.link && t.rounds == s.rounds
    ensures var t := MaybeIncrease(s, now, draw); t.link == s.link && t.rounds == s.rounds
    ensures var t := MaybeAdvance(s, now); t.link == s.link && t.rounds == s.rounds
  {
    hide TargetWindow, GetMinRtt, Congested, Filter.Updated, Offset, ShouldLeave, NextPhase;
  }

  /** The events of an acknowledgement after its own sample: at most one each of six kinds, in this order. */
  datatype Decisions = Decisions(backoff: Log, leave: Log, estimate: Log, drain: Log, increase: Log, advance: Log)

  function Joined(d: Decisions): (es: Log)
  {
    d.backoff + d.leave + d.estimate + d.drain + d.increase + d.advance
  }

  /** Each decision is the one its condition calls for, on the log as it stands when its turn comes. */
  ghost predicate Decided(log: Log, d: Decisions, lastSent: nat, bytesInFlight: nat, before: nat, after: nat,
                          roundEnds: bool, draw: nat)
  {
    var l1 := log + d.backoff;
    var l2 := l1 + d.leave;
    var l3 := l2 + d.estimate;
    var l4 := l3 + d.drain;
    var l5 := l4 + d.increase;
    && BacksOffAs(log, d.backoff, lastSent, before)
    && LeavesAs(l1, d.leave, bytesInFlight, draw)
    && EstimatesAs(l2, d.estimate, roundEnds, after)
    && DrainsAs(l3, d.drain)
    && IncreasesAs(l4, d.increase, bytesInFlight, after, draw)
    && AdvancesAs(l5, d.advance)
  }

  lemma AdaptDecided(s: State, log: Log, now: nat, draw: nat, roundUpdate: bool, bw: nat, round: nat) returns (d: Decisions)
    requires OnTime(s, log, now, s.pace.exitProbeAt)
    ensures AdaptEvents(s, now, draw, roundUpdate, bw, round) == Joined(d)
    ensures var t := Adapt(s, now, draw, roundUpdate, bw, round);
            && t.link == s.link
            && Decided(log, d, s.link.lastSent, s.link.bytesInFlight, s.rounds.filter.best.sample, t.rounds.filter.best.sample,
                       roundUpdate, draw)
  {
    hide OnTime, MaybeBackOff, MaybeLeave, MaybeFeed, MaybeDrain, MaybeIncrease, MaybeAdvance;
    hide BackOffEvents, LeaveEvents, MaybeFeedEvents, DrainEvents, IncreaseEvents, AdvanceEvents;
    hide BacksOffAs, LeavesAs, EstimatesAs, DrainsAs, IncreasesAs, AdvancesAs, Inv;
    var expired := now > s.rtt.minRttTimestamp + MIN_RTT_EXPIRY;
    var s1, e1 := MaybeBackOff(s, expired), BackOffEvents(s, expired);
    var s2, e2 := MaybeLeave(s1, now, draw), LeaveEvents(s1, now, draw);
    var s3, e3 := MaybeFeed(s2, roundUpdate, bw, round), MaybeFeedEvents(s2, roundUpdate, bw, round);
    var s4, e4 := MaybeDrain(s3), DrainEvents(s3);
    var s5, e5 := MaybeIncrease(s4, now, draw), IncreaseEvents(s4, draw);
    var e6 := AdvanceEvents(s5, now);
    StepFrames(s, expired, now, draw, roundUpdate, bw, round);
    StepFrames(s1, expired, now, draw, roundUpdate, bw, round);
    StepFrames(s2, expired, now, draw, roundUpdate, bw, round);
    StepFrames(s3, expired, now, draw, roundUpdate, bw, round);
    StepFrames(s4, expired, now, draw, roundUpdate, bw, round);
    StepFrames(s5, expired, now, draw, roundUpdate, bw, round);
    BackOffOnTime(s, log, now);
    BackOffDecided(s, log, now);
    LeaveOnTime(s1, log + e1, now, draw);
    LeaveDecided(s1, log + e1, now, draw);
    FeedOnTime(s2, log + e1 + e2, now, roundUpdate, bw, round);
    OnTimeInv(s2, log + e1 + e2, now);
    EstimateDecided(s2, log + e1 + e2, roundUpdate, bw, round);
    DrainOnTime(s3, log + e1 + e2 + e3, now);
    OnTimeInv(s3, log + e1 + e2 + e3, now);
    DrainDecided(s3, log + e1 + e2 + e3);
    IncreaseOnTime(s4, log + e1 + e2 + e3 + e4, now, draw);
    OnTimeInv(s4, log + e1 + e2 + e3 + e4, now);
    IncreaseDecided(s4, log + e1 + e2 + e3 + e4, draw);
    AdvanceDecided(s5, log + e1 + e2 + e3 + e4 + e5, now);
    d := Decisions(e1, e2, e3, e4, e5, e6);
  }

  lemma OnTimeInv(s: State, log: Log, now: nat)
    requires OnTime(s, log, now, s.pace.exitProbeAt)
    ensures Inv(s, log)
  {
  }

  /** The log once an acknowledgement has been heard: with its round-trip time, if the packet is in flight. */
  ghost function Heard(o: Outcome, i: Input): (log: Log)
    requires i.Ack?
  {
    var l := o.state.link;
    o.log + [Acked(i.number, l.lastSent, i.now)]
    + if i.number in l.sent then
        var sent := l.sent[i.number].sentTs;
        [Sampled(i.number, if i.now < sent then 0 else i.now - sent)]
      else []
  }

  lemma HeardIs(o: Outcome, i: Input)
    requires i.Ack?
    ensures o.log + SampleEvents(o.state, i.now, i.number) == Heard(o, i)
  {
    var l := o.state.link;
    var e := Acked(i.number, l.lastSent, i.now);
    if i.number in l.sent {
      var x := Sampled(i.number, Elapsed(i.now, l.sent[i.number].sentTs));
      assert o.log + ([e] + [x]) == o.log + [e] + [x];
    } else {
      assert o.log + ([e] + []) == o.log + [e] + [];
    }
  }

  /** Over every run, at every acknowledgement that is new: once a first round has ended, the sender backs off,
      leaves DECREASE, estimates, drains, enters the gain cycle and advances in it exactly when the log says so;
      before that it does none of it. */
  lemma AckDecides(inputs: seq<Input>, i: Input) returns (d: Decisions)
    requires i.Ack? && Run(inputs).state.link.lastAck < i.number
    ensures var o, t := Run(inputs), Run(inputs + [i]);
            && t.log == Heard(o, i) + Joined(d)
            && if o.state.rounds.count == 0 then Joined(d) == []
               else Decided(Heard(o, i), d, o.state.link.lastSent, t.state.link.bytesInFlight, o.state.rounds.filter.best.sample,
                            t.state.rounds.filter.best.sample, i.number > o.state.rounds.end, i.draw)
  {
    hide Run, Inv, Accounted, Receive, Adapt, AdaptEvents, SampleEvents, Measured, Heard, Decided, Joined, OnTime;
    var o := Run(inputs);
    var s := o.state;
    BbrRuns.RunSnoc(inputs, i);
    InvAccounted(s, o.log);
    HeardIs(o, i);
    var es, r := SampleEvents(s, i.now, i.number), Receive(s, i.now, i.number);
    if s.rounds.count == 0 {
      d := Decisions([], [], [], [], [], []);
      NothingJoined();
      assert Heard(o, i) + [] == Heard(o, i);
    } else {
      var update, bw := RoundUpdate(s, i.number), Measured(s, i.now, i.number);
      RunOnTime(inputs);
      ReceiveOnTime(s, o.log, i.now, i.number);
      ReceiveFrame(s, i.now, i.number);
      d := AdaptDecided(r, o.log + es, i.now, i.draw, update, bw, s.rounds.count);
      assert o.log + es + Joined(d) == o.log + (es + Joined(d));
    }
  }

  lemma NothingJoined()
    ensures Joined(Decisions([], [], [], [], [], [])) == []
  {
  }

  lemma ReceiveFrame(s: State, now: nat, number: nat)
    requires Accounted(s.link) && s.link.lastAck < number
    ensures var r := Receive(s, now, number);
            r.pace == s.pace && r.link.lastSent == s.link.lastSent && r.rounds.filter == s.rounds.filter
  {
  }

  ghost predicate HasBackoff(es: Log, expired: bool)
  {
    exists e :: e in es && e.Backoff? && e.expired == expired
  }

  lemma BackoffsJoin(a: Log, b: Log, expired: bool)
    ensures HasBackoff(a + b, expired) <==> HasBackoff(a, expired) || HasBackoff(b, expired)
  {
    if e :| e in a && e.Backoff? && e.expired == expired {
      assert e in a + b;
    }
    if e :| e in b && e.Backoff? && e.expired == expired {
      assert e in a + b;
    }
  }

  lemma NoOtherBackoffs(log: Log, d: Decisions, lastSent: nat, bytesInFlight: nat, before: nat, after: nat,
                        roundEnds: bool, draw: nat, expired: bool)
    requires Decided(log, d, lastSent, bytesInFlight, before, after, roundEnds, draw)
    ensures HasBackoff(Joined(d), expired) <==> HasBackoff(d.backoff, expired)
  {
    hide BacksOffAs, After, FullFound, MinRttOf, Clock, PhaseSince, ProbedEnough, Goal, IsWindow;
    BackoffsJoin(d.backoff, d.leave, expired);
    BackoffsJoin(d.backoff + d.leave, d.estimate, expired);
    BackoffsJoin(d.backoff + d.leave + d.estimate, d.drain, expired);
    BackoffsJoin(d.backoff + d.leave + d.estimate + d.drain, d.increase, expired);
    BackoffsJoin(d.backoff + d.leave + d.estimate + d.drain + d.increase, d.advance, expired);
  }

  lemma BackoffOf(log: Log, es: Log, lastSent: nat, bandwidth: nat, expired: bool)
    requires BacksOffAs(log, es, lastSent, bandwidth)
    ensures HasBackoff(es, expired) <==>
            if expired then !After(log).Decrease? && MinExpired(log)
            else After(log).Increase? && !MinExpired(log) && DelayTooHigh(log)
  {
    hide After, MinExpired, DelayTooHigh, MinRttOf, IsWindow;
    if es != [] {
      assert es[0] in es;
    }
  }

  lemma DecidedFirst(log: Log, d: Decisions, lastSent: nat, bytesInFlight: nat, before: nat, after: nat,
                     roundEnds: bool, draw: nat)
    requires Decided(log, d, lastSent, bytesInFlight, before, after, roundEnds, draw)
    ensures BacksOffAs(log, d.backoff, lastSent, before)
  {
  }

  /** So, past the first round, an acknowledgement makes the sender back off on delay if and only if it is in
      INCREASE, the minimum has not expired and the smoothed time, this sample included, exceeds 1.2 times the
      baseline; and on expiry if and only if it is not in DECREASE and the minimum has expired. */
  lemma BacksOffIff(inputs: seq<Input>, i: Input, expired: bool)
    requires i.Ack? && Run(inputs).state.link.lastAck < i.number && Run(inputs).state.rounds.count > 0
    ensures var log, heard := Run(inputs + [i]).log, Heard(Run(inputs), i);
            && heard <= log
            && (HasBackoff(log[|heard|..], expired) <==>
                if expired then !After(heard).Decrease? && MinExpired(heard)
                else After(heard).Increase? && !MinExpired(heard) && DelayTooHigh(heard))
  {
    hide Run, Inv, Heard, Decided, Joined, HasBackoff, BacksOffAs;
    var o, t := Run(inputs), Run(inputs + [i]);
    var d := AckDecides(inputs, i);
    var heard := Heard(o, i);
    assert t.log[|heard|..] == Joined(d);
    NoOtherBackoffs(heard, d, o.state.link.lastSent, t.state.link.bytesInFlight, o.state.rounds.filter.best.sample,
                    t.state.rounds.filter.best.sample, i.number > o.state.rounds.end, i.draw, expired);
    DecidedFirst(heard, d, o.state.link.lastSent, t.state.link.bytesInFlight, o.state.rounds.filter.best.sample,
                 t.state.rounds.filter.best.sample, i.number > o.state.rounds.end, i.draw);
    BackoffOf(heard, d.backoff, o.state.link.lastSent, o.state.rounds.filter.best.sample, expired);
  }
}
