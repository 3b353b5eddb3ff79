/**
 The sender as an object: its fields, its packet table and its sampler updated in place, each method
 proved to take the step that module Bbr describes.
 */
module BbrSender {
  import opened Totals
  import opened BbrStartup
  import opened BbrHistory
  import opened Wire
  import opened Bbr
  import opened BbrInvariant
  import opened BbrRuns
  import opened Sampler
  import Sampling
  import opened WindowedFilter

  class MyBbrSender {
    const sampler: MySampler
    const maxBandwidth: MaxFilter

    var mode: Mode
    var lastSentPacket: nat
    var lastAckSeq: nat
    var currentRoundTripEnd: nat
    var roundTripCount: nat
    var seqAtBackoff: nat
    var baseLineRtt: Option<nat>
    var sentPackets: map<nat, PerPacket>
    var minRtt: nat
    var sRtt: nat
    var minRttTimestamp: nat
    var minRttInDecrease: Option<nat>
    var minRttTimestampInDecrease: nat
    var minRttRecord: nat
    var exitProbeRttAt: nat
    var pacingGain: nat
    var isAtFullBandwidth: bool
    var cycleCurrentOffset: nat
    var lastCycleStart: nat
    var roundsWithoutBandwidthGain: nat
    var bandwidthAtLastRound: nat
    var bytesInFlight: nat
    var bdp: nat
    var minRttExpired: bool

    /** Everything that has happened. */
    ghost var log: Log

    ghost predicate Shape()
    {
      maxBandwidth.Valid() && maxBandwidth.window == BANDWIDTH_WINDOW
    }

    ghost function LinkNow(): (l: Link)
      reads this`lastSentPacket, this`lastAckSeq, this`bytesInFlight, this`sentPackets, sampler
      ensures l.lastSent == lastSentPacket && l.bytesInFlight == bytesInFlight
    {
      Link(lastSentPacket, lastAckSeq, bytesInFlight, sentPackets, sampler.Now())
    }

    ghost function RttNow(): (r: Rtt)
      reads this`minRtt, this`minRttTimestamp, this`minRttInDecrease, this`minRttTimestampInDecrease, this`minRttRecord,
            this`baseLineRtt, this`sRtt, this`seqAtBackoff
      ensures r.minRttTimestamp == minRttTimestamp
    {
      Rtt(minRtt, minRttTimestamp, minRttInDecrease, minRttTimestampInDecrease, minRttRecord, baseLineRtt, sRtt, seqAtBackoff)
    }

    ghost function PaceNow(): (p: Pace)
      reads this`mode, this`pacingGain, this`cycleCurrentOffset, this`lastCycleStart, this`exitProbeRttAt, this`bdp, this`minRttExpired
      ensures p.mode == mode
    {
      Pace(mode, pacingGain, cycleCurrentOffset, lastCycleStart, exitProbeRttAt, bdp, minRttExpired)
    }

    ghost function RoundsNow(): Rounds
      requires Shape()
      reads this`roundTripCount, this`currentRoundTripEnd, this`bandwidthAtLastRound, this`roundsWithoutBandwidthGain,
            this`isAtFullBandwidth, maxBandwidth.estimates
    {
      Rounds(roundTripCount, currentRoundTripEnd, maxBandwidth.Now(),
             Startup(bandwidthAtLastRound, roundsWithoutBandwidthGain, isAtFullBandwidth))
    }

    ghost function Now(): State
      requires Shape()
      reads this, sampler, maxBandwidth.estimates
    {
      State(LinkNow(), RttNow(), PaceNow(), RoundsNow())
    }

    ghost predicate Valid()
      reads this, sampler, maxBandwidth.estimates
    {
      Shape() && Inv(Now(), log)
    }

    constructor ()
      ensures Valid() && Now() == Initial && log == []
      ensures fresh(sampler) && fresh(maxBandwidth) && fresh(maxBandwidth.estimates)
    {
      sampler := new MySampler();
      maxBandwidth := new MaxFilter(BANDWIDTH_WINDOW);
      lastSentPacket, lastAckSeq, currentRoundTripEnd, roundTripCount, seqAtBackoff := 0, 0, 0, 0, 0;
      baseLineRtt, sentPackets, minRtt, sRtt, minRttTimestamp := None, map[], 0, 0, 0;
      minRttInDecrease, minRttTimestampInDecrease, minRttRecord, exitProbeRttAt := None, 0, 0, 0;
      isAtFullBandwidth, cycleCurrentOffset, lastCycleStart := false, 0, 0;
      roundsWithoutBandwidthGain, bandwidthAtLastRound, bytesInFlight, bdp, minRttExpired := 0, 0, 0, 0, false;
      mode, pacingGain := START, HIGH_GAIN;
      log := [];
      new;
      InitialInv();
    }

    method OnPacketSent(now: nat, number: nat, bytes: nat)
      requires Valid()
      modifies this`lastSentPacket, this`bytesInFlight, this`sentPackets, sampler
      ensures Valid() && Now() == Bbr.OnPacketSent(old(Now()), now, number, bytes)
      ensures old(IndexesAgree(LinkNow())) ==>
                (IndexesAgree(LinkNow()) <==> number <= old(lastSentPacket) || lastAckSeq < number)
    {
      hide Inv, Sampling.Sent, Sampling.Valid, IndexesAgree;
      SendStep(Now(), log, now, number, bytes);
      if number <= lastSentPacket {
        return;
      }
      lastSentPacket := number;
      sampler.OnPacketSent(now, number, bytes, bytesInFlight);
      bytesInFlight := bytesInFlight + bytes;
      if number !in sentPackets {
        sentPackets := sentPackets[number := PerPacket(now, bytes)];
      }
    }

    /** The numbers skipped by an acknowledgement are lost. */
    method LoseSkipped(number: nat)
      requires lastAckSeq < number && Sampling.Valid(sampler.Now())
      modifies sampler
      ensures sampler.Now() == LoseRange(old(sampler.Now()), lastAckSeq + 1, number)
      ensures Sampling.Valid(sampler.Now())
    {
      hide Sampling.Valid, Sampling.Lost;
      var i := lastAckSeq + 1;
      while i < number
        invariant i <= number && Sampling.Valid(sampler.Now())
        invariant LoseRange(sampler.Now(), i, number) == LoseRange(old(sampler.Now()), lastAckSeq + 1, number)
      {
        sampler.OnPacketLost(i);
        i := i + 1;
      }
    }

    method UpdateMinRtt(now: nat, rtt: nat)
      modifies this`minRtt, this`minRttTimestamp
      ensures RttNow() == ObserveMin(old(RttNow()), rtt, now)
    {
      if minRtt == 0 {
        minRtt, minRttTimestamp := rtt, now;
      } else {
        if rtt < minRtt {
          minRtt, minRttTimestamp := rtt, now;
        }
        if rtt > minRtt && rtt <= Similar(minRtt) {
          minRttTimestamp := now;
        }
      }
    }

    method UpdateBaseLine(rtt: nat)
      modifies this`baseLineRtt, this`sRtt
      ensures RttNow() == ObserveBaseLine(old(RttNow()), rtt)
    {
      if baseLineRtt.None? || rtt < baseLineRtt.value {
        baseLineRtt := Some(rtt);
        sRtt := rtt;
      }
      if sRtt == 0 {
        sRtt := rtt;
      } else {
        var oldMs, newMs := sRtt / 1000, rtt / 1000;
        var smoothMs := (5 * oldMs + 95 * newMs) / 100;
        sRtt := smoothMs * 1000;
      }
    }

    method UpdateRtt(now: nat, number: nat, rtt: nat)
      modifies this`minRtt, this`minRttTimestamp, this`minRttInDecrease, this`minRttTimestampInDecrease, this`baseLineRtt, this`sRtt
      ensures RttNow() == Observe(old(RttNow()), mode, number, rtt, now)
    {
      hide ObserveBaseLine;
      UpdateMinRtt(now, rtt);
      if mode == DECREASE {
        if minRttInDecrease.None? || rtt <= minRttInDecrease.value {
          minRttInDecrease, minRttTimestampInDecrease := Some(rtt), now;
        }
      }
      if mode == INCREASE {
        if number > seqAtBackoff {
          UpdateBaseLine(rtt);
        }
      }
    }

    /** Erases the packets up to `number`, lowest first. */
    method EraseAcked(number: nat)
      requires bytesInFlight == Total(ByteTable(sentPackets))
      modifies this`sentPackets, this`bytesInFlight
      ensures sentPackets == Above(old(sentPackets), number)
      ensures bytesInFlight == Total(ByteTable(sentPackets))
    {
      hide Total;
      while sentPackets != map[]
        invariant bytesInFlight == Total(ByteTable(sentPackets))
        invariant Above(sentPackets, number) == Above(old(sentPackets), number)
        decreases |sentPackets|
      {
        ghost var least := HasLeast(sentPackets.Keys);
        var k :| k in sentPackets && forall j | j in sentPackets :: k <= j;
        if k > number {
          break;
        }
        EraseOne(sentPackets, k);
        bytesInFlight := bytesInFlight - sentPackets[k].bytes;
        sentPackets := sentPackets - {k};
      }
    }

    method UpdateRttAndInflight(now: nat, number: nat)
      requires Shape() && bytesInFlight == Total(ByteTable(sentPackets))
      requires forall k | k in sentPackets :: sentPackets[k].sentTs <= now
      modifies this`minRtt, this`minRttTimestamp, this`minRttInDecrease, this`minRttTimestampInDecrease, this`baseLineRtt, this`sRtt,
               this`sentPackets, this`bytesInFlight, this`log
      ensures RttNow() == SampleRtt(old(Now()), now, number)
      ensures sentPackets == Above(old(sentPackets), number)
      ensures bytesInFlight == Total(ByteTable(sentPackets))
      ensures log == old(log) + SampleEvents(old(Now()), now, number)
    {
      hide Total, ByteTable, Above, Observe;
      log := log + [Acked(number, lastSentPacket, now)];
      if number in sentPackets {
        var rtt := now - sentPackets[number].sentTs;
        UpdateRtt(now, number, rtt);
        log := log + [Sampled(number, rtt)];
      }
      EraseAcked(number);
    }

    method UpdateRoundTripCounter(number: nat) returns (update: bool)
      modifies this`roundTripCount, this`currentRoundTripEnd
      ensures update == (number > old(currentRoundTripEnd))
      ensures roundTripCount == old(roundTripCount) + if update then 1 else 0
      ensures currentRoundTripEnd == if update then lastSentPacket else old(currentRoundTripEnd)
    {
      if number > currentRoundTripEnd {
        roundTripCount := roundTripCount + 1;
        currentRoundTripEnd := lastSentPacket;
        return true;
      }
      return false;
    }

    predicate CheckIfCongestion()
      reads this
      ensures CheckIfCongestion() == Congested(RttNow(), mode)
    {
      mode == INCREASE && baseLineRtt.Some? && sRtt > Tolerable(baseLineRtt.value)
    }

    function MinRttOrDefault(): (d: nat)
      reads this
      ensures d == GetMinRtt(RttNow())
    {
      if minRtt != 0 then minRtt else DEFAULT_RTT
    }

    function GetTargetCongestionWindow(): (w: nat)
      requires Shape()
      reads this, maxBandwidth.estimates
      ensures w == TargetWindow(RttNow(), RoundsNow().filter.best.sample)
    {
      var product := maxBandwidth.GetBest() / 8 * MinRttOrDefault() / 1_000_000;
      if product == 0 then INITIAL_WINDOW else product
    }

    method EnterIncreaseMode(now: nat, draw: nat)
      modifies this`mode, this`cycleCurrentOffset, this`lastCycleStart, this`pacingGain, this`log
      ensures PaceNow() == EnterIncrease(old(PaceNow()), now, draw)
      ensures log == old(log) + [Increased(Offset(draw))]
    {
      mode := INCREASE;
      cycleCurrentOffset := draw % (CYCLE - 1);
      if cycleCurrentOffset >= 1 {
        cycleCurrentOffset := cycleCurrentOffset + 1;
      }
      lastCycleStart := now;
      pacingGain := PACING_GAIN[cycleCurrentOffset];
      log := log + [Increased(cycleCurrentOffset)];
    }

    method RestartRtts()
      modifies this`seqAtBackoff, this`sRtt, this`baseLineRtt, this`minRttRecord, this`minRttInDecrease
      ensures RttNow() == BackOffRtt(old(RttNow()), lastSentPacket)
    {
      seqAtBackoff, sRtt, baseLineRtt := lastSentPacket, 0, None;
      minRttRecord, minRttInDecrease := minRtt, None;
    }

    method EnterDecrease(expired: bool, target: nat)
      modifies this`mode, this`exitProbeRttAt, this`pacingGain, this`bdp, this`minRttExpired
      ensures PaceNow() == BackOffPace(old(PaceNow()), expired, target)
    {
      mode, exitProbeRttAt := DECREASE, 0;
      pacingGain, bdp, minRttExpired := DECREASE_GAIN, target, expired;
    }

    method MaybeEnterDecrease(expired: bool, congested: bool)
      requires Shape() && congested == Congested(RttNow(), mode)
      modifies this`mode, this`seqAtBackoff, this`sRtt, this`baseLineRtt, this`minRttRecord, this`exitProbeRttAt,
               this`minRttInDecrease, this`pacingGain, this`bdp, this`minRttExpired, this`log
      ensures Now() == MaybeBackOff(old(Now()), expired)
      ensures log == old(log) + BackOffEvents(old(Now()), expired)
    {
      hide LinkNow, PaceNow, RttNow, RoundsNow, TargetWindow, Congested, BackOffPace, BackOffRtt, MaybeBackOff, BackOffEvents;
      BackOffParts(Now(), expired);
      if mode == DECREASE || !(expired || congested) {
        return;
      }
      var target := GetTargetCongestionWindow();
      RestartRtts();
      EnterDecrease(expired, target);
      log := log + [Backoff(expired, lastSentPacket, target)];
    }

    method LeaveDecrease(now: nat, draw: nat)
      modifies this`mode, this`minRtt, this`minRttTimestamp, this`pacingGain, this`cycleCurrentOffset, this`lastCycleStart,
               this`minRttExpired, this`log
      ensures RttNow() == LeaveRtt(old(RttNow()), old(minRttExpired), now)
      ensures PaceNow() == EnterIncrease(old(PaceNow()).(minRttExpired := false), now, draw)
      ensures log == old(log) + [Increased(Offset(draw))]
    {
      hide Offset, EnterIncrease;
      if minRttExpired {
        if minRttInDecrease.None? {
          minRtt, minRttTimestamp := minRttRecord, now;
        } else {
          minRtt, minRttTimestamp := minRttInDecrease.value, minRttTimestampInDecrease;
        }
        minRttExpired := false;
      }
      EnterIncreaseMode(now, draw);
    }

    method MaybeExitDecrease(now: nat, draw: nat)
      requires Shape()
      modifies this`mode, this`minRtt, this`minRttTimestamp, this`exitProbeRttAt, this`pacingGain, this`cycleCurrentOffset,
               this`lastCycleStart, this`minRttExpired, this`log
      ensures Now() == MaybeLeave(old(Now()), now, draw)
      ensures log == old(log) + LeaveEvents(old(Now()), now, draw)
    {
      hide RoundsNow, Offset, EnterIncrease, LeaveRtt;
      if mode != DECREASE {
        return;
      }
      if exitProbeRttAt == 0 {
        exitProbeRttAt := now;
      }
      var excessDrained := bytesInFlight <= bdp;
      if (minRttExpired && now > exitProbeRttAt + 4 * minRttRecord) || excessDrained {
        LeaveDecrease(now, draw);
      }
    }

    method CheckIfFullBandwidthReached()
      requires Shape() && !isAtFullBandwidth
      modifies this`bandwidthAtLastRound, this`roundsWithoutBandwidthGain, this`isAtFullBandwidth, this`log
      ensures Startup(bandwidthAtLastRound, roundsWithoutBandwidthGain, isAtFullBandwidth)
              == CheckIfFull(old(Startup(bandwidthAtLastRound, roundsWithoutBandwidthGain, isAtFullBandwidth)), maxBandwidth.GetBest())
      ensures log == old(log) + [Estimated(maxBandwidth.GetBest())]
    {
      var best := maxBandwidth.GetBest();
      log := log + [Estimated(best)];
      if best >= Target(bandwidthAtLastRound) {
        bandwidthAtLastRound := best;
        roundsWithoutBandwidthGain := 0;
        return;
      }
      roundsWithoutBandwidthGain := roundsWithoutBandwidthGain + 1;
      if roundsWithoutBandwidthGain >= STARTUP_ROUNDS {
        isAtFullBandwidth := true;
      }
    }

    method EndRound(update: bool, bw: nat, round: nat)
      requires Shape()
      modifies this`bandwidthAtLastRound, this`roundsWithoutBandwidthGain, this`isAtFullBandwidth, this`log, maxBandwidth.estimates
      ensures Now() == MaybeFeed(old(Now()), update, bw, round)
      ensures log == old(log) + MaybeFeedEvents(old(Now()), update, bw, round)
    {
      hide Updated, CheckIfFull;
      if update {
        maxBandwidth.Update(bw, round);
      }
      if update && !isAtFullBandwidth {
        CheckIfFullBandwidthReached();
      }
    }

    method MaybeExitStartup()
      requires Shape()
      modifies this`mode, this`pacingGain, this`log
      ensures Now() == MaybeDrain(old(Now())) && log == old(log) + DrainEvents(old(Now()))
    {
      hide LinkNow, RttNow;
      if mode == START && isAtFullBandwidth {
        mode := DRAIN;
        pacingGain := DRAIN_GAIN;
        log := log + [Drained];
      }
    }

    method MaybeExitDrain(now: nat, draw: nat)
      requires Shape()
      modifies this`mode, this`cycleCurrentOffset, this`lastCycleStart, this`pacingGain, this`log
      ensures Now() == MaybeIncrease(old(Now()), now, draw) && log == old(log) + IncreaseEvents(old(Now()), draw)
    {
      hide RttNow, RoundsNow, TargetWindow, Offset, EnterIncrease;
      if mode == DRAIN {
        var target := GetTargetCongestionWindow();
        if bytesInFlight <= target {
          EnterIncreaseMode(now, draw);
        }
      }
    }

    method UpdateGainCyclePhase(now: nat)
      requires Shape()
      modifies this`cycleCurrentOffset, this`lastCycleStart, this`pacingGain, this`log
      ensures Now() == MaybeAdvance(old(Now()), now) && log == old(log) + AdvanceEvents(old(Now()), now)
    {
      hide LinkNow, RttNow, RoundsNow, GetMinRtt, MaybeAdvance, AdvanceEvents;
      AdvanceParts(Now(), now);
      if mode != INCREASE || now <= lastCycleStart + MinRttOrDefault() {
        return;
      }
      log := log + [Advanced((cycleCurrentOffset + 1) % CYCLE)];
      AdvanceCycle(now);
    }

    method AdvanceCycle(now: nat)
      modifies this`cycleCurrentOffset, this`lastCycleStart, this`pacingGain
      ensures PaceNow() == AdvancedPace(old(PaceNow()), now)
    {
      cycleCurrentOffset := (cycleCurrentOffset + 1) % CYCLE;
      lastCycleStart := now;
      pacingGain := PACING_GAIN[cycleCurrentOffset];
    }

    method AdaptToAck(now: nat, draw: nat, update: bool, bw: nat, round: nat)
      requires Shape()
      modifies this, maxBandwidth.estimates
      ensures Now() == Adapt(old(Now()), now, draw, update, bw, round)
      ensures log == old(log) + AdaptEvents(old(Now()), now, draw, update, bw, round)
    {
      hide LinkNow, RttNow, PaceNow, RoundsNow, Congested;
      hide MaybeBackOff, MaybeLeave, MaybeFeed, MaybeDrain, MaybeIncrease, MaybeAdvance;
      hide BackOffEvents, LeaveEvents, MaybeFeedEvents, DrainEvents, IncreaseEvents, AdvanceEvents;
      ghost var s, before := Now(), log;
      var expired := now > minRttTimestamp + MIN_RTT_EXPIRY;
      var congested := CheckIfCongestion();
      ghost var e1 := BackOffEvents(s, expired);
      MaybeEnterDecrease(expired, congested);
      ghost var e2 := LeaveEvents(Now(), now, draw);
      MaybeExitDecrease(now, draw);
      ghost var e3 := MaybeFeedEvents(Now(), update, bw, round);
      EndRound(update, bw, round);
      ghost var e4 := DrainEvents(Now());
      MaybeExitStartup();
      ghost var e5 := IncreaseEvents(Now(), draw);
      MaybeExitDrain(now, draw);
      Regroup(before, e1, e2, e3, e4, e5, AdvanceEvents(Now(), now));
      UpdateGainCyclePhase(now);
    }

    method ClearUpTo(now: nat, number: nat)
      requires Shape() && Accounted(LinkNow()) && lastAckSeq < number
      requires forall k | k in sentPackets :: sentPackets[k].sentTs <= now
      modifies this`lastAckSeq, this`minRtt, this`minRttTimestamp, this`minRttInDecrease, this`minRttTimestampInDecrease,
               this`baseLineRtt, this`sRtt, this`sentPackets, this`bytesInFlight, this`log, sampler
      ensures RttNow() == SampleRtt(old(Now()), now, number)
      ensures log == old(log) + SampleEvents(old(Now()), now, number)
      ensures LinkNow() == Erase(old(LinkNow()), number).(lastAck := number,
                sampler := LoseRange(old(sampler.Now()), old(lastAckSeq) + 1, number))
      ensures Sampling.Valid(sampler.Now())
    {
      hide Total, ByteTable, Above, Observe, Sampling.Valid, LoseRange, PaceNow, RttNow, RoundsNow;
      LoseSkipped(number);
      lastAckSeq := number;
      UpdateRttAndInflight(now, number);
    }

    method ReceiveAck(now: nat, number: nat) returns (update: bool, bw: nat)
      requires Shape() && Accounted(LinkNow()) && lastAckSeq < number
      requires forall k | k in sentPackets :: sentPackets[k].sentTs <= now
      modifies this`lastAckSeq, this`minRtt, this`minRttTimestamp, this`minRttInDecrease, this`minRttTimestampInDecrease,
               this`baseLineRtt, this`sRtt, this`sentPackets, this`bytesInFlight, this`log, this`roundTripCount,
               this`currentRoundTripEnd, sampler
      ensures Now() == Receive(old(Now()), now, number)
      ensures log == old(log) + SampleEvents(old(Now()), now, number)
      ensures update == RoundUpdate(old(Now()), number) && bw == Measured(old(Now()), now, number)
    {
      hide Total, ByteTable, Above, SampleRtt, SampleEvents, Sampling.Valid, Sampling.Acked, Sampling.Sample, LoseRange, PaceNow, RttNow;
      ClearUpTo(now, number);
      update := UpdateRoundTripCounter(number);
      bw := sampler.OnPacketAcknowledged(now, number, update);
    }

    method OnAck(now: nat, number: nat, draw: nat)
      requires Valid()
      requires forall k | k in sentPackets :: sentPackets[k].sentTs <= now
      modifies this, sampler, maxBandwidth.estimates
      ensures Valid() && Now() == Bbr.OnAck(old(Now()), now, number, draw)
      ensures log == old(log) + OnAckEvents(old(Now()), now, number, draw)
      ensures old(IndexesAgree(LinkNow())) ==> IndexesAgree(LinkNow())
    {
      hide IndexesAgree, Inv, Accounted, Adapt, AdaptEvents, SampleEvents, Receive, Measured, RoundUpdate, RttNow, PaceNow;
      ghost var s, before := Now(), log;
      OnAckKeeps(s, before, now, number, draw);
      AckAgrees(s, before, now, number, draw);
      if number <= lastAckSeq {
        return;
      }
      var currentRound := roundTripCount;
      var update, bw := ReceiveAck(now, number);
      if currentRound == 0 {
        return;
      }
      ghost var es, t := log, Now();
      AdaptToAck(now, draw, update, bw, currentRound);
      assert log == before + (SampleEvents(s, now, number) + AdaptEvents(t, now, draw, update, bw, currentRound));
    }
  }

  lemma EraseOne(sent: map<nat, PerPacket>, k: nat)
    requires k in sent
    ensures Total(ByteTable(sent)) == sent[k].bytes + Total(ByteTable(sent - {k}))
  {
    TotalRemove(ByteTable(sent), k);
    assert ByteTable(sent) - {k} == ByteTable(sent - {k});
  }

  lemma AdvanceParts(s: State, now: nat)
    ensures !ShouldAdvance(s, now) ==> MaybeAdvance(s, now) == s && AdvanceEvents(s, now) == []
    ensures ShouldAdvance(s, now) ==>
              && MaybeAdvance(s, now) == State(s.link, s.rtt, AdvancedPace(s.pace, now), s.rounds)
              && AdvanceEvents(s, now) == [Advanced(NextPhase(s.pace.offset))]
  {
  }

  lemma BackOffParts(s: State, expired: bool)
    ensures !ShouldBackOff(s, expired) ==> MaybeBackOff(s, expired) == s && BackOffEvents(s, expired) == []
    ensures ShouldBackOff(s, expired) ==>
              && MaybeBackOff(s, expired)
                 == State(s.link, BackOffRtt(s.rtt, s.link.lastSent),
                          BackOffPace(s.pace, expired, TargetWindow(s.rtt, s.rounds.filter.best.sample)), s.rounds)
              && BackOffEvents(s, expired) == [Backoff(expired, s.link.lastSent, TargetWindow(s.rtt, s.rounds.filter.best.sample))]
  {
  }

  lemma SendStep(s: State, log: Log, now: nat, number: nat, bytes: nat)
    requires Inv(s, log)
    ensures var t := Bbr.OnPacketSent(s, now, number, bytes);
            && Inv(t, log) && Sampling.Valid(s.link.sampler)
            && (IndexesAgree(s.link) ==> (IndexesAgree(t.link) <==> number <= s.link.lastSent || s.link.lastAck < number))
  {
    hide Sampling.Sent, Sampling.Valid, IndexesAgree;
    SendKeeps(s.link, now, number, bytes);
    if IndexesAgree(s.link) {
      SendAgreesIff(s.link, now, number, bytes);
    }
  }

  lemma AckAgrees(s: State, log: Log, now: nat, number: nat, draw: nat)
    requires Inv(s, log)
    ensures Accounted(s.link)
    ensures IndexesAgree(s.link) ==> IndexesAgree(Bbr.OnAck(s, now, number, draw).link)
  {
    hide Bbr.OnAck, IndexesAgree, MinRttExact, EpisodeExact, BaseLineExact, PaceExact, Legal;
    OnAckLink(s, now, number, draw);
    if number > s.link.lastAck {
      AckKeeps(s.link, now, number);
    }
  }
}
