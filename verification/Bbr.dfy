/**
 The delay-constrained BBR sender on values: one step for every packet sent and every
 acknowledgement, with the events it logs. Times are microseconds, gains hundredths.
 */
module Bbr {
  import opened Totals
  import opened BbrStartup
  import opened BbrHistory
  import opened Wire
  import Sampling
  import Filter = WindowedFilter

  datatype Mode = START | DRAIN | INCREASE | DECREASE

  datatype PerPacket = PerPacket(sentTs: nat, bytes: nat)

  /** Packets in flight, here and in the sampler. */
  datatype Link = Link(
    lastSent: nat,
    lastAck: nat,
    bytesInFlight: nat,
    sent: map<nat, PerPacket>,
    sampler: Sampling.State)

  /** Round-trip times; `None` stands for an infinite one. */
  datatype Rtt = Rtt(
    minRtt: nat,
    minRttTimestamp: nat,
    minRttInDecrease: Option<nat>,
    minRttTimestampInDecrease: nat,
    minRttRecord: nat,
    baseLine: Option<nat>,
    sRtt: nat,
    seqAtBackoff: nat)

  datatype Pace = Pace(
    mode: Mode,
    gain: nat,
    offset: nat,
    lastCycleStart: nat,
    exitProbeAt: nat,
    bdp: nat,
    minRttExpired: bool)

  datatype Rounds = Rounds(count: nat, end: nat, filter: Filter.Estimates, startup: Startup)

  datatype State = State(link: Link, rtt: Rtt, pace: Pace, rounds: Rounds)

  const HIGH_GAIN: nat := 200
  const DRAIN_GAIN: nat := 50
  const DECREASE_GAIN: nat := 75
  const PACING_GAIN: seq<nat> := [111, 90, 100, 100, 100, 100, 100, 100]
  const BANDWIDTH_WINDOW: nat := 10
  const MIN_RTT_EXPIRY: nat := 10_000_000
  const INITIAL_WINDOW: nat := 10_000
  const DEFAULT_RTT: nat := 200_000

  const Initial := State(
    Link(0, 0, 0, map[], Sampling.Fresh),
    Rtt(0, 0, None, 0, 0, None, 0, 0),
    Pace(START, HIGH_GAIN, 0, 0, 0, 0, false),
    Rounds(0, 0, Filter.Empty, Begin))

  // ---------------------------------------------------------------------------
  // Packets in flight
  // ---------------------------------------------------------------------------

  function SendPacket(l: Link, now: nat, number: nat, bytes: nat): (r: Link)
  {
    if number <= l.lastSent then l
    else
      Link(number, l.lastAck, l.bytesInFlight + bytes,
           if number in l.sent then l.sent else l.sent[number := PerPacket(now, bytes)],
           Sampling.Sent(l.sampler, now, number, bytes, l.bytesInFlight))
  }

  /** The sampler forgets every number from `first` up to `past`. */
  function LoseRange(s: Sampling.State, first: nat, past: nat): (r: Sampling.State)
    requires first <= past
    ensures Sampling.Valid(s) ==> Sampling.Valid(r)
    decreases past - first
  {
    if first == past then s else LoseRange(Sampling.Lost(s, first), first + 1, past)
  }

  function Above(sent: map<nat, PerPacket>, number: nat): (r: map<nat, PerPacket>)
  {
    map k | k in sent && k > number :: sent[k]
  }

  ghost function ByteTable(sent: map<nat, PerPacket>): map<nat, nat>
  {
    map k | k in sent :: sent[k].bytes
  }

  /** Erasing the packets up to `number` takes their bytes off. */
  ghost function Erase(l: Link, number: nat): Link
    requires l.bytesInFlight == Total(ByteTable(l.sent))
  {
    l.(sent := Above(l.sent, number), bytesInFlight := Total(ByteTable(Above(l.sent, number))))
  }

  // ---------------------------------------------------------------------------
  // Round-trip times
  // ---------------------------------------------------------------------------

  /** Time elapsed on a clock that never runs back. */
  function Elapsed(now: nat, then_: nat): (d: nat)
  {
    if now >= then_ then now - then_ else 0
  }

  /** 1.125 times, rounded. */
  function Similar(minRtt: nat): (r: nat)
  {
    (9 * minRtt + 4) / 8
  }

  /** 1.2 times, rounded. */
  function Tolerable(rtt: nat): (r: nat)
  {
    (12 * rtt + 5) / 10
  }

  function ObserveMin(r: Rtt, rtt: nat, now: nat): (q: Rtt)
  {
    if r.minRtt == 0 || rtt < r.minRtt then r.(minRtt := rtt, minRttTimestamp := now)
    else if rtt > r.minRtt && rtt <= Similar(r.minRtt) then r.(minRttTimestamp := now)
    else r
  }

  function ObserveEpisode(r: Rtt, rtt: nat, now: nat): (q: Rtt)
  {
    if r.minRttInDecrease.None? || rtt <= r.minRttInDecrease.value then
      r.(minRttInDecrease := Some(rtt), minRttTimestampInDecrease := now)
    else r
  }

  /** 5 parts old and 95 parts new, in whole milliseconds. */
  function Smooth(old_: nat, new_: nat): (r: nat)
  {
    (5 * (old_ / 1000) + 95 * (new_ / 1000)) / 100 * 1000
  }

  function ObserveBaseLine(r: Rtt, rtt: nat): (q: Rtt)
  {
    var t := if r.baseLine.None? || rtt < r.baseLine.value then r.(baseLine := Some(rtt), sRtt := rtt) else r;
    t.(sRtt := if t.sRtt == 0 then rtt else Smooth(t.sRtt, rtt))
  }

  function Observe(r: Rtt, mode: Mode, number: nat, rtt: nat, now: nat): (q: Rtt)
  {
    var m := ObserveMin(r, rtt, now);
    match mode
    case DECREASE => ObserveEpisode(m, rtt, now)
    case INCREASE => if number > r.seqAtBackoff then ObserveBaseLine(m, rtt) else m
    case START => m
    case DRAIN => m
  }

  predicate Congested(r: Rtt, mode: Mode)
  {
    mode == INCREASE && r.baseLine.Some? && r.sRtt > Tolerable(r.baseLine.value)
  }

  // ---------------------------------------------------------------------------
  // Modes and gains
  // ---------------------------------------------------------------------------

  function GetMinRtt(r: Rtt): (d: nat)
  {
    if r.minRtt != 0 then r.minRtt else DEFAULT_RTT
  }

  function TargetWindow(r: Rtt, bandwidth: nat): (w: nat)
    ensures IsWindow(w, bandwidth, if r.minRtt != 0 then r.minRtt else 200_000)
  {
    var bdp := bandwidth / 8 * GetMinRtt(r) / 1_000_000;
    if bdp == 0 then INITIAL_WINDOW else bdp
  }

  /** A random offset that is not 1. */
  function Offset(draw: nat): (k: nat)
    ensures k < CYCLE && k != 1
  {
    if draw % (CYCLE - 1) >= 1 then draw % (CYCLE - 1) + 1 else 0
  }

  function EnterIncrease(p: Pace, now: nat, draw: nat): (q: Pace)
  {
    p.(mode := INCREASE, offset := Offset(draw), lastCycleStart := now, gain := PACING_GAIN[Offset(draw)])
  }

  function BackOffRtt(r: Rtt, lastSent: nat): (q: Rtt)
  {
    r.(seqAtBackoff := lastSent, sRtt := 0, baseLine := None, minRttRecord := r.minRtt, minRttInDecrease := None)
  }

  function BackOffPace(p: Pace, expired: bool, bdp: nat): (q: Pace)
  {
    p.(mode := DECREASE, exitProbeAt := 0, gain := DECREASE_GAIN, bdp := bdp, minRttExpired := expired)
  }

  predicate ShouldBackOff(s: State, expired: bool)
  {
    s.pace.mode != DECREASE && (expired || Congested(s.rtt, s.pace.mode))
  }

  function MaybeBackOff(s: State, expired: bool): (t: State)
  {
    if !ShouldBackOff(s, expired) then s
    else
      s.(rtt := BackOffRtt(s.rtt, s.link.lastSent),
         pace := BackOffPace(s.pace, expired, TargetWindow(s.rtt, s.rounds.filter.best.sample)))
  }

  function ProbeStart(p: Pace, now: nat): (q: Pace)
  {
    if p.exitProbeAt == 0 then p.(exitProbeAt := now) else p
  }

  predicate ShouldLeave(s: State, now: nat)
  {
    || (s.pace.minRttExpired && now > s.pace.exitProbeAt + 4 * s.rtt.minRttRecord)
    || s.link.bytesInFlight <= s.pace.bdp
  }

  function LeaveRtt(r: Rtt, expired: bool, now: nat): (q: Rtt)
  {
    if !expired then r
    else if r.minRttInDecrease.None? then r.(minRtt := r.minRttRecord, minRttTimestamp := now)
    else r.(minRtt := r.minRttInDecrease.value, minRttTimestamp := r.minRttTimestampInDecrease)
  }

  function MaybeLeave(s: State, now: nat, draw: nat): (t: State)
  {
    if s.pace.mode != DECREASE then s
    else
      var p := s.(pace := ProbeStart(s.pace, now));
      if !ShouldLeave(p, now) then p
      else p.(rtt := LeaveRtt(p.rtt, p.pace.minRttExpired, now),
              pace := EnterIncrease(p.pace.(minRttExpired := false), now, draw))
  }

  function LeaveEvents(s: State, now: nat, draw: nat): (es: Log)
  {
    if s.pace.mode == DECREASE && ShouldLeave(s.(pace := ProbeStart(s.pace, now)), now) then [Increased(Offset(draw))] else []
  }

  function BackOffEvents(s: State, expired: bool): (es: Log)
  {
    if ShouldBackOff(s, expired) then
      [Backoff(expired, s.link.lastSent, TargetWindow(s.rtt, s.rounds.filter.best.sample))]
    else []
  }

  /** START becomes DRAIN once the full bandwidth is reached. */
  function MaybeDrain(s: State): (t: State)
  {
    if s.pace.mode == START && s.rounds.startup.full then s.(pace := s.pace.(mode := DRAIN, gain := DRAIN_GAIN)) else s
  }

  function DrainEvents(s: State): (es: Log)
  {
    if s.pace.mode == START && s.rounds.startup.full then [Drained] else []
  }

  predicate ShouldIncrease(s: State)
  {
    s.pace.mode == DRAIN && s.link.bytesInFlight <= TargetWindow(s.rtt, s.rounds.filter.best.sample)
  }

  function MaybeIncrease(s: State, now: nat, draw: nat): (t: State)
  {
    if ShouldIncrease(s) then s.(pace := EnterIncrease(s.pace, now, draw)) else s
  }

  function IncreaseEvents(s: State, draw: nat): (es: Log)
  {
    if ShouldIncrease(s) then [Increased(Offset(draw))] else []
  }

  predicate ShouldAdvance(s: State, now: nat)
  {
    s.pace.mode == INCREASE && now > s.pace.lastCycleStart + GetMinRtt(s.rtt)
  }

  function AdvancedPace(p: Pace, now: nat): (q: Pace)
  {
    var k := NextPhase(p.offset);
    p.(offset := k, lastCycleStart := now, gain := PACING_GAIN[k])
  }

  function MaybeAdvance(s: State, now: nat): (t: State)
  {
    if ShouldAdvance(s, now) then s.(pace := AdvancedPace(s.pace, now)) else s
  }

  function AdvanceEvents(s: State, now: nat): (es: Log)
  {
    if ShouldAdvance(s, now) then [Advanced(NextPhase(s.pace.offset))] else []
  }

  // ---------------------------------------------------------------------------
  // Steps
  // ---------------------------------------------------------------------------

  function OnPacketSent(s: State, now: nat, number: nat, bytes: nat): (t: State)
  {
    s.(link := SendPacket(s.link, now, number, bytes))
  }

  ghost predicate Accounted(l: Link)
  {
    l.bytesInFlight == Total(ByteTable(l.sent)) && Sampling.Valid(l.sampler)
  }

  predicate RoundUpdate(s: State, number: nat)
  {
    number > s.rounds.end
  }

  function SampleRtt(s: State, now: nat, number: nat): (q: Rtt)
  {
    if number in s.link.sent then Observe(s.rtt, s.pace.mode, number, Elapsed(now, s.link.sent[number].sentTs), now)
    else s.rtt
  }

  function SampleEvents(s: State, now: nat, number: nat): (es: Log)
  {
    [Acked(number, s.link.lastSent, now)]
    + if number in s.link.sent then [Sampled(number, Elapsed(now, s.link.sent[number].sentTs))] else []
  }

  /** Bookkeeping for the acknowledged packet and all those before it. */
  ghost function AckPackets(l: Link, now: nat, number: nat): Link
    requires Accounted(l) && l.lastAck < number
  {
    var lost := LoseRange(l.sampler, l.lastAck + 1, number);
    Erase(l, number).(lastAck := number, sampler := Sampling.Acked(lost, now, number))
  }

  /** The first half of an acknowledgement: in-flight packets, round-trip time, round counter. */
  ghost function Receive(s: State, now: nat, number: nat): State
    requires Accounted(s.link) && s.link.lastAck < number
  {
    State(AckPackets(s.link, now, number), SampleRtt(s, now, number), s.pace,
          if RoundUpdate(s, number) then s.rounds.(count := s.rounds.count + 1, end := s.link.lastSent) else s.rounds)
  }

  /** The bandwidth sample the acknowledgement makes. */
  ghost function Measured(s: State, now: nat, number: nat): nat
    requires Accounted(s.link) && s.link.lastAck < number
  {
    var lost := LoseRange(s.link.sampler, s.link.lastAck + 1, number);
    Sampling.Sample(lost, now, number, RoundUpdate(s, number))
  }

  /** The end of a round feeds the filter and, until it succeeds, the full-bandwidth check. */
  function FeedFilter(s: State, bw: nat, round: nat): (t: State)
  {
    var f := Filter.Updated(s.rounds.filter, Filter.Stamped(bw, round), BANDWIDTH_WINDOW);
    s.(rounds := s.rounds.(filter := f, startup := RoundEnds(s.rounds.startup, f.best.sample)))
  }

  function FeedEvents(s: State, bw: nat, round: nat): (es: Log)
  {
    if s.rounds.startup.full then []
    else [Estimated(Filter.Updated(s.rounds.filter, Filter.Stamped(bw, round), BANDWIDTH_WINDOW).best.sample)]
  }

  function MaybeFeed(s: State, roundUpdate: bool, bw: nat, round: nat): (t: State)
  {
    if roundUpdate then FeedFilter(s, bw, round) else s
  }

  function MaybeFeedEvents(s: State, roundUpdate: bool, bw: nat, round: nat): (es: Log)
  {
    if roundUpdate then FeedEvents(s, bw, round) else []
  }

  /** The second half: backing off, feeding the filter, leaving START and DRAIN, cycling the gain. */
  function Adapt(s: State, now: nat, draw: nat, roundUpdate: bool, bw: nat, round: nat): (t: State)
  {
    var s1 := MaybeBackOff(s, now > s.rtt.minRttTimestamp + MIN_RTT_EXPIRY);
    var s2 := MaybeLeave(s1, now, draw);
    var s3 := MaybeFeed(s2, roundUpdate, bw, round);
    var s4 := MaybeDrain(s3);
    var s5 := MaybeIncrease(s4, now, draw);
    MaybeAdvance(s5, now)
  }

  function AdaptEvents(s: State, now: nat, draw: nat, roundUpdate: bool, bw: nat, round: nat): (es: Log)
  {
    var expired := now > s.rtt.minRttTimestamp + MIN_RTT_EXPIRY;
    var s1 := MaybeBackOff(s, expired);
    var s2 := MaybeLeave(s1, now, draw);
    var s3 := MaybeFeed(s2, roundUpdate, bw, round);
    var s4 := MaybeDrain(s3);
    var s5 := MaybeIncrease(s4, now, draw);
    BackOffEvents(s, expired) + LeaveEvents(s1, now, draw) + MaybeFeedEvents(s2, roundUpdate, bw, round)
    + DrainEvents(s3) + IncreaseEvents(s4, draw) + AdvanceEvents(s5, now)
  }

  /** Before the first round ends there is nothing to adapt. */
  ghost function OnAck(s: State, now: nat, number: nat, draw: nat): State
    requires Accounted(s.link)
  {
    if number <= s.link.lastAck then s
    else if s.rounds.count == 0 then Receive(s, now, number)
    else Adapt(Receive(s, now, number), now, draw, RoundUpdate(s, number), Measured(s, now, number), s.rounds.count)
  }

  ghost function OnAckEvents(s: State, now: nat, number: nat, draw: nat): Log
    requires Accounted(s.link)
  {
    if number <= s.link.lastAck then []
    else if s.rounds.count == 0 then SampleEvents(s, now, number)
    else SampleEvents(s, now, number)
         + AdaptEvents(Receive(s, now, number), now, draw, RoundUpdate(s, number), Measured(s, now, number), s.rounds.count)
  }
}
