/**
 What every run of the sender keeps: in-flight accounting, the minimum round-trip time as the minimum
 of a window of samples, the smoothed time between baseline and worst sample, the mode machine.
 */
module BbrInvariant {
  import opened Totals
  import opened BbrStartup
  import opened BbrHistory
  import opened Wire
  import opened Bbr
  import Sampling
  import Filter = WindowedFilter

  // ---------------------------------------------------------------------------
  // What a run is assumed to look like, where a property needs it
  // ---------------------------------------------------------------------------

  ghost predicate WholeMillis(log: Log)
  {
    forall e | e in log && e.Sampled? :: e.rtt % 1000 == 0
  }

  // ---------------------------------------------------------------------------
  // The invariant
  // ---------------------------------------------------------------------------

  /** The bytes in flight are those of the packets in the table. */
  ghost predicate InFlightExact(l: Link)
  {
    Accounted(l) && forall k | k in l.sent :: k <= l.lastSent
  }

  /** The table and the sampler hold the same packets, all after the last one acknowledged. */
  ghost predicate IndexesAgree(l: Link)
  {
    l.sampler.packets.Keys == l.sent.Keys && forall k | k in l.sent :: l.lastAck < k <= l.lastSent
  }

  ghost predicate MinRttExact(r: Rtt, log: Log)
  {
    if Window(log) == {} then r.minRtt == 0 else IsMin(r.minRtt, Window(log))
  }

  ghost predicate EpisodeExact(r: Rtt, log: Log)
  {
    After(log).Decrease? ==>
      if Episode(log) == {} then r.minRttInDecrease == None && r.minRttRecord == r.minRtt
      else r.minRttInDecrease.Some? && IsMin(r.minRttInDecrease.value, Episode(log))
  }

  ghost predicate AtMostSome(x: nat, s: set<nat>)
  {
    exists y :: y in s && x <= y
  }

  /** The baseline is the smallest sample since the backoff, the smoothed time at most the largest; and
      on whole milliseconds at least the baseline. */
  ghost predicate BaseLineExact(r: Rtt, log: Log)
  {
    && r.seqAtBackoff == LastBackoff(log) && r.sRtt == Smoothed(log)
    && (SinceBackoff(log) == {} ==> r.baseLine == None && r.sRtt == 0)
    && (SinceBackoff(log) != {} ==>
          && r.baseLine.Some? && IsMin(r.baseLine.value, SinceBackoff(log))
          && AtMostSome(r.sRtt, SinceBackoff(log))
          && (WholeMillis(log) ==> r.baseLine.value % 1000 == 0 && r.sRtt % 1000 == 0 && r.baseLine.value <= r.sRtt))
  }

  function GainOf(p: Phase): (g: nat)
  {
    match p
    case Start => HIGH_GAIN
    case Drain => DRAIN_GAIN
    case Increase(k) => if k < CYCLE then PACING_GAIN[k] else 0
    case Decrease(_) => DECREASE_GAIN
  }

  /** The gain is the one for the mode and phase. */
  ghost predicate PaceExact(p: Pace, phase: Phase)
  {
    && p.gain == GainOf(phase)
    && match phase
       case Start => p.mode == START
       case Drain => p.mode == DRAIN
       case Increase(k) => p.mode == INCREASE && p.offset == k < CYCLE
       case Decrease(expired) => p.mode == DECREASE && p.minRttExpired == expired
  }

  ghost predicate Inv(s: State, log: Log)
  {
    && InFlightExact(s.link)
    && MinRttExact(s.rtt, log)
    && EpisodeExact(s.rtt, log)
    && BaseLineExact(s.rtt, log)
    && PaceExact(s.pace, After(log))
    && s.rounds.startup == StartupAfter(log)
    && Legal(log)
  }

  // ---------------------------------------------------------------------------
  // How the log's functions grow
  // ---------------------------------------------------------------------------

  lemma Grows(log: Log, e: Event)
    ensures After(log + [e]) == Move(After(log), e)
    ensures LastBackoff(log + [e]) == if e.Backoff? then e.lastSent else LastBackoff(log)
    ensures Episode(log + [e])
            == if e.Backoff? then {} else if e.Sampled? && After(log).Decrease? then Episode(log) + {e.rtt} else Episode(log)
  {
    assert Init(log + [e]) == log;
  }

  lemma SinceBackoffGrows(log: Log, e: Event)
    ensures SinceBackoff(log + [e])
            == if e.Backoff? then {}
               else if e.Sampled? && After(log).Increase? && e.number > LastBackoff(log) then SinceBackoff(log) + {e.rtt}
               else SinceBackoff(log)
  {
    assert Init(log + [e]) == log;
  }

  lemma WindowGrows(log: Log, e: Event)
    ensures Window(log + [e])
            == if e.Sampled? then UnlessZero(Window(log) + {e.rtt})
               else if e.Increased? && After(log) == Decrease(true) && Episode(log) != {} then UnlessZero(Episode(log))
               else Window(log)
  {
    assert Init(log + [e]) == log;
  }

  lemma StartupGrows(log: Log, e: Event)
    ensures StartupAfter(log + [e]) == if e.Estimated? then RoundEnds(StartupAfter(log), e.bandwidth) else StartupAfter(log)
  {
    assert Init(log + [e]) == log;
    if e.Estimated? {
      RunSnoc(Begin, EstimatesOf(log), e.bandwidth);
    }
  }

  lemma SmoothedGrows(log: Log, e: Event)
    ensures Smoothed(log + [e])
            == if e.Backoff? then 0
               else if !Counts(log, e) then Smoothed(log)
               else if IsLeastSoFar(e.rtt, SinceBackoff(log)) then e.rtt / 1000 * 1000
               else if Smoothed(log) == 0 then e.rtt
               else Blended(Smoothed(log), e.rtt)
  {
    hide Blended, IsLeastSoFar;
    assert Init(log + [e]) == log;
  }

  lemma WholeMillisGrows(log: Log, e: Event)
    ensures WholeMillis(log + [e]) <==> WholeMillis(log) && (e.Sampled? ==> e.rtt % 1000 == 0)
  {
    if WholeMillis(log + [e]) {
      forall x | x in log ensures x in log + [e] {
      }
      assert e in log + [e];
    }
  }

  // ---------------------------------------------------------------------------
  // Packets in flight
  // ---------------------------------------------------------------------------

  lemma SentKeys(s: Sampling.State, now: nat, number: nat, bytes: nat, bytesInFlight: nat)
    ensures Sampling.Sent(s, now, number, bytes, bytesInFlight).packets.Keys == s.packets.Keys + {number}
  {
  }

  lemma SendKeeps(l: Link, now: nat, number: nat, bytes: nat)
    requires InFlightExact(l)
    ensures InFlightExact(SendPacket(l, now, number, bytes))
  {
    hide Sampling.Sent, Sampling.Valid, Total;
    if number > l.lastSent {
      Sampling.ValidStep(l.sampler, Sampling.Send(now, number, bytes, l.bytesInFlight));
      TotalInsert(ByteTable(l.sent), number, bytes);
      assert ByteTable(l.sent)[number := bytes] == ByteTable(l.sent[number := PerPacket(now, bytes)]);
    }
  }

  /** Sending keeps the two indexes together unless the packet is new and yet already acknowledged. */
  lemma SendAgreesIff(l: Link, now: nat, number: nat, bytes: nat)
    requires IndexesAgree(l)
    ensures IndexesAgree(SendPacket(l, now, number, bytes)) <==> number <= l.lastSent || l.lastAck < number
  {
    hide Sampling.Sent;
    SentKeys(l.sampler, now, number, bytes, l.bytesInFlight);
    var sent := SendPacket(l, now, number, bytes).sent;
    assert number > l.lastSent ==> number in sent;
  }

  lemma {:induction false} LoseRangeKeys(s: Sampling.State, first: nat, past: nat)
    requires first <= past
    ensures forall k :: k in LoseRange(s, first, past).packets <==> k in s.packets && !(first <= k < past)
    decreases past - first
  {
    if first < past {
      LoseRangeKeys(Sampling.Lost(s, first), first + 1, past);
    }
  }

  lemma AckedKeys(s: Sampling.State, now: nat, number: nat)
    ensures Sampling.Acked(s, now, number).packets.Keys == s.packets.Keys - {number}
  {
  }

  /** The loss loop, the erase loop and the sampler's own removal take out the same packets, whatever
      number is acknowledged. */
  lemma AckKeeps(l: Link, now: nat, number: nat)
    requires InFlightExact(l) && l.lastAck < number
    ensures InFlightExact(AckPackets(l, now, number))
    ensures IndexesAgree(l) ==> IndexesAgree(AckPackets(l, now, number))
  {
    hide Sampling.Acked, Sampling.Valid, Total, LoseRange;
    var lost := LoseRange(l.sampler, l.lastAck + 1, number);
    LoseRangeKeys(l.sampler, l.lastAck + 1, number);
    AckedKeys(lost, now, number);
    Sampling.ValidStep(lost, Sampling.Ack(now, number));
    if IndexesAgree(l) {
      assert Sampling.Acked(lost, now, number).packets.Keys == Above(l.sent, number).Keys;
    }
  }

  // ---------------------------------------------------------------------------
  // Round-trip times
  // ---------------------------------------------------------------------------

  ghost predicate RttExact(r: Rtt, log: Log)
  {
    MinRttExact(r, log) && EpisodeExact(r, log) && BaseLineExact(r, log)
  }

  /** Events that carry no round-trip time and do not leave DECREASE. */
  lemma RttQuiet(r: Rtt, log: Log, e: Event)
    requires RttExact(r, log) && !e.Sampled? && !e.Backoff?
    requires e.Increased? ==> !After(log).Decrease?
    ensures RttExact(r, log + [e])
  {
    hide Window, SinceBackoff, Smoothed, Episode, LastBackoff, After;
    Grows(log, e);
    SinceBackoffGrows(log, e);
    SmoothedGrows(log, e);
    WindowGrows(log, e);
    WholeMillisGrows(log, e);
  }

  lemma MinOfMore(m: nat, s: set<nat>, x: nat)
    requires s != {} ==> IsMin(m, s)
    ensures IsMin(if s == {} || x < m then x else m, s + {x})
  {
  }

  lemma ObserveMinKeeps(r: Rtt, log: Log, number: nat, rtt: nat, now: nat)
    requires MinRttExact(r, log)
    ensures MinRttExact(ObserveMin(r, rtt, now), log + [Sampled(number, rtt)])
  {
    hide Window;
    var e := Sampled(number, rtt);
    WindowGrows(log, e);
    MinOfMore(r.minRtt, Window(log), rtt);
  }

  lemma ObserveEpisodeKeeps(r: Rtt, log: Log, number: nat, rtt: nat, now: nat)
    requires EpisodeExact(r, log) && After(log).Decrease?
    ensures EpisodeExact(ObserveEpisode(ObserveMin(r, rtt, now), rtt, now), log + [Sampled(number, rtt)])
  {
    hide Episode, After;
    Grows(log, Sampled(number, rtt));
    MinOfMore(if r.minRttInDecrease.Some? then r.minRttInDecrease.value else 0, Episode(log), rtt);
  }

  lemma Blend(x: nat, y: nat, w: nat)
    ensures var z := (5 * x + 95 * y) / 100; (z <= x || z <= y) && (w <= x && w <= y ==> w <= z)
  {
  }

  /** The smoothed time is at most the larger of the two; and on whole milliseconds at least the smaller. */
  lemma SmoothBounds(a: nat, b: nat, m: nat)
    ensures Smooth(a, b) <= a || Smooth(a, b) <= b
    ensures Smooth(a, b) % 1000 == 0
    ensures m % 1000 == 0 && m <= a && m <= b ==> m <= Smooth(a, b)
  {
    Blend(a / 1000, b / 1000, m / 1000);
  }

  lemma SmoothIs(a: nat, b: nat)
    ensures Smooth(a, b) == Blended(a, b)
    ensures Smooth(b, b) == b / 1000 * 1000
  {
  }

  lemma AtMostMore(x: nat, s: set<nat>, r: nat)
    requires x <= r || AtMostSome(x, s)
    ensures AtMostSome(x, s + {r})
  {
    if x <= r {
      assert r in s + {r};
    } else {
      var y :| y in s && x <= y;
      assert y in s + {r};
    }
  }

  lemma ObserveBaseLineKeeps(r: Rtt, log: Log, number: nat, rtt: nat)
    requires BaseLineExact(r, log) && After(log).Increase? && number > LastBackoff(log)
    ensures BaseLineExact(ObserveBaseLine(r, rtt), log + [Sampled(number, rtt)])
  {
    hide SinceBackoff, After, LastBackoff, Smooth, Smoothed, Blended, WholeMillis, AtMostSome;
    var e := Sampled(number, rtt);
    var s := SinceBackoff(log);
    Grows(log, e);
    SinceBackoffGrows(log, e);
    WholeMillisGrows(log, e);
    MinOfMore(if r.baseLine.Some? then r.baseLine.value else 0, s, rtt);
    var m := if r.baseLine.Some? && r.baseLine.value <= rtt then r.baseLine.value else rtt;
    SmoothBounds(r.sRtt, rtt, m);
    SmoothBounds(rtt, rtt, m);
    SmoothIs(r.sRtt, rtt);
    SmoothedGrows(log, e);
    var q := ObserveBaseLine(r, rtt);
    if q.sRtt > rtt && s != {} {
      SmootherStill(r.sRtt, q.sRtt, s);
    }
    AtMostMore(q.sRtt, s, rtt);
  }

  lemma SmootherStill(a: nat, b: nat, s: set<nat>)
    requires AtMostSome(a, s) && b <= a
    ensures AtMostSome(b, s)
  {
    var y :| y in s && a <= y;
    assert b <= y;
  }

  lemma ObserveKeeps(r: Rtt, mode: Mode, log: Log, number: nat, rtt: nat, now: nat)
    requires RttExact(r, log)
    requires (mode == DECREASE <==> After(log).Decrease?) && (mode == INCREASE <==> After(log).Increase?)
    ensures RttExact(Observe(r, mode, number, rtt, now), log + [Sampled(number, rtt)])
  {
    hide Window, SinceBackoff, Smoothed, Episode, LastBackoff, After, ObserveMin, ObserveEpisode, ObserveBaseLine, IsMin;
    var e := Sampled(number, rtt);
    var m := ObserveMin(r, rtt, now);
    ObserveMinKeeps(r, log, number, rtt, now);
    ObserveMinFrame(r, rtt, now);
    Grows(log, e);
    if mode == DECREASE {
      ObserveEpisodeKeeps(r, log, number, rtt, now);
      ObserveEpisodeFrame(m, rtt, now);
      BaseLineQuiet(r, log, e);
    } else if mode == INCREASE && number > r.seqAtBackoff {
      ObserveBaseLineFrame(m, rtt);
      ObserveBaseLineKeeps(m, log, number, rtt);
    } else {
      BaseLineQuiet(r, log, e);
    }
  }

  lemma ObserveMinFrame(r: Rtt, rtt: nat, now: nat)
    ensures var q := ObserveMin(r, rtt, now);
            && q.baseLine == r.baseLine && q.sRtt == r.sRtt && q.seqAtBackoff == r.seqAtBackoff
            && q.minRttInDecrease == r.minRttInDecrease && q.minRttRecord == r.minRttRecord
  {
  }

  lemma ObserveEpisodeFrame(r: Rtt, rtt: nat, now: nat)
    ensures var q := ObserveEpisode(r, rtt, now);
            && q.baseLine == r.baseLine && q.sRtt == r.sRtt && q.seqAtBackoff == r.seqAtBackoff
            && q.minRtt == r.minRtt && q.minRttRecord == r.minRttRecord
  {
  }

  lemma ObserveBaseLineFrame(r: Rtt, rtt: nat)
    ensures var q := ObserveBaseLine(r, rtt); q.minRtt == r.minRtt && q.seqAtBackoff == r.seqAtBackoff
  {
  }

  lemma BaseLineQuiet(r: Rtt, log: Log, e: Event)
    requires BaseLineExact(r, log) && !e.Backoff?
    requires e.Sampled? && After(log).Increase? ==> e.number <= LastBackoff(log)
    ensures BaseLineExact(r, log + [e])
  {
    hide SinceBackoff, Smoothed, LastBackoff, After, IsMin;
    Grows(log, e);
    SinceBackoffGrows(log, e);
    SmoothedGrows(log, e);
    WholeMillisGrows(log, e);
  }

  lemma BackOffKeepsRtt(r: Rtt, log: Log, expired: bool, lastSent: nat, goal: nat)
    requires RttExact(r, log)
    ensures RttExact(BackOffRtt(r, lastSent), log + [Backoff(expired, lastSent, goal)])
  {
    hide Window, SinceBackoff, Smoothed, Episode, LastBackoff, After, IsMin;
    var e := Backoff(expired, lastSent, goal);
    Grows(log, e);
    SinceBackoffGrows(log, e);
    SmoothedGrows(log, e);
    WindowGrows(log, e);
  }

  /** Leaving an expired DECREASE replaces the window by the episode, if it has samples. */
  lemma LeaveKeepsRtt(r: Rtt, log: Log, expired: bool, now: nat, k: nat)
    requires RttExact(r, log) && After(log) == Decrease(expired)
    ensures RttExact(LeaveRtt(r, expired, now), log + [Increased(k)])
  {
    hide Window, SinceBackoff, Smoothed, Episode, LastBackoff, After;
    var e := Increased(k);
    Grows(log, e);
    WindowGrows(log, e);
    BaseLineQuiet(r, log, e);
  }

  // ---------------------------------------------------------------------------
  // The steps of an acknowledgement
  // ---------------------------------------------------------------------------

  /** A delay backoff is never spurious: the smoothed time is at most the largest sample. */
  lemma CongestedIsJustified(r: Rtt, log: Log, mode: Mode)
    requires BaseLineExact(r, log) && Congested(r, mode)
    ensures Justified(log)
  {
    hide SinceBackoff, LastBackoff, Smoothed;
    var m := r.baseLine.value;
    var y :| y in SinceBackoff(log) && r.sRtt <= y;
    assert IsMin(m, SinceBackoff(log)) && 5 * y > 6 * m;
  }

  /** Nor is one ever missed: in INCREASE the check fires exactly when the log says the delay is too high. */
  lemma CongestedIff(r: Rtt, log: Log, mode: Mode)
    requires BaseLineExact(r, log)
    ensures Congested(r, mode) <==> mode == INCREASE && DelayTooHigh(log)
  {
    hide SinceBackoff, LastBackoff, Smoothed;
    if SinceBackoff(log) != {} {
      var m := LeastOr(SinceBackoff(log), 0);
      assert m == r.baseLine.value;
    }
  }

  lemma BackOffKeeps(s: State, log: Log, expired: bool)
    requires Inv(s, log)
    ensures Inv(MaybeBackOff(s, expired), log + BackOffEvents(s, expired))
  {
    hide RttExact, After, StartupAfter, Justified, DelayTooHigh, Congested, TargetWindow, BackOffRtt, InFlightExact;
    if ShouldBackOff(s, expired) {
      var goal := TargetWindow(s.rtt, s.rounds.filter.best.sample);
      var e := Backoff(expired, s.link.lastSent, goal);
      RttParts(s.rtt, log);
      BackOffKeepsRtt(s.rtt, log, expired, s.link.lastSent, goal);
      RttParts(BackOffRtt(s.rtt, s.link.lastSent), log + [e]);
      if !expired {
        CongestedIsJustified(s.rtt, log, s.pace.mode);
        CongestedIff(s.rtt, log, s.pace.mode);
      }
      Grows(log, e);
      StartupGrows(log, e);
      LegalSnoc(log, e);
    } else {
      assert log + [] == log;
    }
  }

  lemma RttParts(r: Rtt, log: Log)
    ensures RttExact(r, log) <==> MinRttExact(r, log) && EpisodeExact(r, log) && BaseLineExact(r, log)
  {
  }

  lemma LeaveKeeps(s: State, log: Log, now: nat, draw: nat)
    requires Inv(s, log)
    ensures Inv(MaybeLeave(s, now, draw), log + LeaveEvents(s, now, draw))
  {
    hide RttExact, After, StartupAfter, Justified, LeaveRtt, InFlightExact, Offset, ShouldLeave;
    assert log + [] == log;
    if s.pace.mode == DECREASE && ShouldLeave(s.(pace := ProbeStart(s.pace, now)), now) {
      var e := Increased(Offset(draw));
      var r := LeaveRtt(s.rtt, s.pace.minRttExpired, now);
      RttParts(s.rtt, log);
      LeaveKeepsRtt(s.rtt, log, s.pace.minRttExpired, now, Offset(draw));
      RttParts(r, log + [e]);
      Grows(log, e);
      StartupGrows(log, e);
      LegalSnoc(log, e);
    }
  }

  /** An event that leaves the round-trip times alone. */
  lemma QuietKeeps(s: State, log: Log, e: Event, pace: Pace, rounds: Rounds)
    requires Inv(s, log) && LegalNext(log, e) && !e.Sampled? && !e.Backoff? && !e.Acked?
    requires e.Increased? ==> !After(log).Decrease?
    requires PaceExact(pace, Move(After(log), e))
    requires rounds.startup == if e.Estimated? then RoundEnds(StartupAfter(log), e.bandwidth) else StartupAfter(log)
    ensures Inv(s.(pace := pace, rounds := rounds), log + [e])
  {
    hide RttExact, After, StartupAfter, Justified, InFlightExact, PaceExact, LegalNext;
    RttParts(s.rtt, log);
    RttQuiet(s.rtt, log, e);
    RttParts(s.rtt, log + [e]);
    Grows(log, e);
    StartupGrows(log, e);
    LegalSnoc(log, e);
  }

  lemma FeedKeeps(s: State, log: Log, roundUpdate: bool, bw: nat, round: nat)
    requires Inv(s, log)
    ensures Inv(MaybeFeed(s, roundUpdate, bw, round), log + MaybeFeedEvents(s, roundUpdate, bw, round))
  {
    hide RttExact, After, StartupAfter, Justified, InFlightExact, Filter.Updated;
    assert log + [] == log;
    if roundUpdate && !s.rounds.startup.full {
      var t := FeedFilter(s, bw, round);
      QuietKeeps(s, log, Estimated(t.rounds.filter.best.sample), s.pace, t.rounds);
    }
  }

  lemma DrainKeeps(s: State, log: Log)
    requires Inv(s, log)
    ensures Inv(MaybeDrain(s), log + DrainEvents(s))
  {
    hide RttExact, After, StartupAfter, Justified, InFlightExact;
    assert log + [] == log;
    if s.pace.mode == START && s.rounds.startup.full {
      QuietKeeps(s, log, Drained, MaybeDrain(s).pace, s.rounds);
    }
  }

  lemma IncreaseKeeps(s: State, log: Log, now: nat, draw: nat)
    requires Inv(s, log)
    ensures Inv(MaybeIncrease(s, now, draw), log + IncreaseEvents(s, draw))
  {
    hide RttExact, After, StartupAfter, Justified, InFlightExact, TargetWindow, Offset;
    assert log + [] == log;
    if ShouldIncrease(s) {
      QuietKeeps(s, log, Increased(Offset(draw)), EnterIncrease(s.pace, now, draw), s.rounds);
    }
  }

  lemma AdvanceKeeps(s: State, log: Log, now: nat)
    requires Inv(s, log)
    ensures Inv(MaybeAdvance(s, now), log + AdvanceEvents(s, now))
  {
    hide RttExact, After, StartupAfter, Justified, DelayTooHigh, InFlightExact, GetMinRtt, AdvancedPace, PaceExact, NextPhase;
    assert log + [] == log;
    if ShouldAdvance(s, now) {
      AdvancedExact(s.pace, After(log), now);
      QuietKeeps(s, log, Advanced(NextPhase(s.pace.offset)), AdvancedPace(s.pace, now), s.rounds);
    }
  }

  lemma AdvancedExact(p: Pace, phase: Phase, now: nat)
    requires PaceExact(p, phase) && p.mode == INCREASE
    ensures phase.Increase? && phase.offset == p.offset
    ensures PaceExact(AdvancedPace(p, now), Increase(NextPhase(p.offset)))
  {
  }

  lemma AdaptKeeps(s: State, log: Log, now: nat, draw: nat, roundUpdate: bool, bw: nat, round: nat)
    requires Inv(s, log)
    ensures Inv(Adapt(s, now, draw, roundUpdate, bw, round), log + AdaptEvents(s, now, draw, roundUpdate, bw, round))
  {
    hide Inv, MaybeBackOff, MaybeLeave, MaybeFeed, MaybeDrain, MaybeIncrease, MaybeAdvance;
    hide BackOffEvents, LeaveEvents, MaybeFeedEvents, DrainEvents, IncreaseEvents, AdvanceEvents;
    var expired := now > s.rtt.minRttTimestamp + MIN_RTT_EXPIRY;
    var s1, e1 := MaybeBackOff(s, expired), BackOffEvents(s, expired);
    var s2, e2 := MaybeLeave(s1, now, draw), LeaveEvents(s1, now, draw);
    var s3, e3 := MaybeFeed(s2, roundUpdate, bw, round), MaybeFeedEvents(s2, roundUpdate, bw, round);
    var s4, e4 := MaybeDrain(s3), DrainEvents(s3);
    var s5, e5 := MaybeIncrease(s4, now, draw), IncreaseEvents(s4, draw);
    BackOffKeeps(s, log, expired);
    LeaveKeeps(s1, log + e1, now, draw);
    FeedKeeps(s2, log + e1 + e2, roundUpdate, bw, round);
    DrainKeeps(s3, log + e1 + e2 + e3);
    IncreaseKeeps(s4, log + e1 + e2 + e3 + e4, now, draw);
    AdvanceKeeps(s5, log + e1 + e2 + e3 + e4 + e5, now);
    Regroup(log, e1, e2, e3, e4, e5, AdvanceEvents(s5, now));
  }

  /** What no acknowledgement leaves undone, once the first round is over: START does not outlast the full
      bandwidth, nor DRAIN the excess in flight, nor a gain phase the minimum round-trip time, nor DECREASE
      the excess in flight or, after an expiry, four times the recorded minimum; and an expired minimum
      always makes for a backoff. */
  lemma EveryAckSettles(s: State, now: nat, draw: nat, roundUpdate: bool, bw: nat, round: nat)
    ensures var t := Adapt(s, now, draw, roundUpdate, bw, round);
            && (t.pace.mode == START ==> !t.rounds.startup.full)
            && (t.pace.mode == DRAIN ==> t.link.bytesInFlight > TargetWindow(t.rtt, t.rounds.filter.best.sample))
            && (t.pace.mode == INCREASE ==> now <= t.pace.lastCycleStart + GetMinRtt(t.rtt))
            && (t.pace.mode == DECREASE ==>
                  && t.link.bytesInFlight > t.pace.bdp
                  && (t.pace.minRttExpired ==> now <= t.pace.exitProbeAt + 4 * t.rtt.minRttRecord))
    ensures s.pace.mode != DECREASE && now > s.rtt.minRttTimestamp + 10_000_000 ==>
              Backoff(true, s.link.lastSent, TargetWindow(s.rtt, s.rounds.filter.best.sample))
              in AdaptEvents(s, now, draw, roundUpdate, bw, round)
  {
    hide TargetWindow, GetMinRtt, Congested, Filter.Updated, Offset;
  }

  lemma Regroup(log: Log, a: Log, b: Log, c: Log, d: Log, e: Log, f: Log)
    ensures log + a + b + c + d + e + f == log + (a + b + c + d + e + f)
  {
  }

  lemma ReceiveKeeps(s: State, log: Log, now: nat, number: nat)
    requires Inv(s, log) && s.link.lastAck < number
    ensures Inv(Receive(s, now, number), log + SampleEvents(s, now, number))
  {
    hide RttExact, After, StartupAfter, Justified, InFlightExact, AckPackets, Observe;
    InvAccounted(s, log);
    var e := Acked(number, s.link.lastSent, now);
    var t := Receive(s, now, number);
    RttParts(s.rtt, log);
    RttQuiet(s.rtt, log, e);
    Grows(log, e);
    StartupGrows(log, e);
    LegalSnoc(log, e);
    AckKeeps(s.link, now, number);
    if number in s.link.sent {
      var x := Sampled(number, Elapsed(now, s.link.sent[number].sentTs));
      ObserveKeeps(s.rtt, s.pace.mode, log + [e], number, x.rtt, now);
      Grows(log + [e], x);
      StartupGrows(log + [e], x);
      LegalSnoc(log + [e], x);
      assert log + [e] + [x] == log + ([e] + [x]);
      RttParts(t.rtt, log + [e] + [x]);
    } else {
      RttParts(t.rtt, log + [e]);
      assert [e] + [] == [e];
    }
  }

  lemma OnAckKeeps(s: State, log: Log, now: nat, number: nat, draw: nat)
    requires Inv(s, log)
    ensures Accounted(s.link) && Inv(OnAck(s, now, number, draw), log + OnAckEvents(s, now, number, draw))
  {
    hide Inv, Accounted, Receive, Adapt, SampleEvents, AdaptEvents, Measured, RoundUpdate;
    InvAccounted(s, log);
    if number <= s.link.lastAck {
      assert log + [] == log;
    } else {
      ReceiveKeeps(s, log, now, number);
      if s.rounds.count > 0 {
        var t, es := Receive(s, now, number), SampleEvents(s, now, number);
        var update, bw := RoundUpdate(s, number), Measured(s, now, number);
        AdaptKeeps(t, log + es, now, draw, update, bw, s.rounds.count);
        var more := AdaptEvents(t, now, draw, update, bw, s.rounds.count);
        assert log + es + more == log + (es + more);
      }
    }
  }

  lemma InvAccounted(s: State, log: Log)
    requires Inv(s, log)
    ensures Accounted(s.link)
  {
  }

  // ---------------------------------------------------------------------------
  // Runs
  // ---------------------------------------------------------------------------

  datatype Input = Send(now: nat, number: nat, bytes: nat) | Ack(now: nat, number: nat, draw: nat)

  datatype Outcome = Outcome(state: State, log: Log)

  ghost function Step(o: Outcome, i: Input): Outcome
    requires Inv(o.state, o.log)
  {
    match i
    case Send(now, number, bytes) => Outcome(OnPacketSent(o.state, now, number, bytes), o.log)
    case Ack(now, number, draw) =>
      Outcome(OnAck(o.state, now, number, draw), o.log + OnAckEvents(o.state, now, number, draw))
  }

  lemma InitialInv()
    ensures Inv(Initial, [])
  {
    assert ByteTable(map[]) == map[];
  }

  lemma StepKeeps(o: Outcome, i: Input)
    requires Inv(o.state, o.log)
    ensures Inv(Step(o, i).state, Step(o, i).log)
  {
    hide MinRttExact, EpisodeExact, BaseLineExact, PaceExact, StartupAfter, InFlightExact, OnAck, OnAckEvents, Legal;
    match i {
      case Send(now, number, bytes) =>
        SendKeeps(o.state.link, now, number, bytes);
      case Ack(now, number, draw) =>
        OnAckKeeps(o.state, o.log, now, number, draw);
    }
  }

  /** The state and the log after any sequence of inputs; the invariant holds in all of them. */
  ghost function Run(inputs: seq<Input>): (o: Outcome)
    ensures Inv(o.state, o.log)
  {
    if inputs == [] then
      InitialInv();
      Outcome(Initial, [])
    else
      var before := Run(inputs[..|inputs| - 1]);
      StepKeeps(before, inputs[|inputs| - 1]);
      Step(before, inputs[|inputs| - 1])
  }
}
