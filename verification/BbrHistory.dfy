/**
 What a run of the sender leaves behind, as a log of events, and what the log says about the mode
 machine and about the round-trip times measured.
 */
module BbrHistory {
  import opened BbrStartup

  /** Where the sender stands: the mode, with the gain-cycle offset or the reason for the backoff. */
  datatype Phase = Start | Drain | Increase(offset: nat) | Decrease(expired: bool)

  datatype Event =
    | Acked(number: nat, lastSent: nat, now: nat)
    | Sampled(number: nat, rtt: nat)
    | Estimated(bandwidth: nat)
    | Drained
    | Increased(offset: nat)
    | Advanced(offset: nat)
    | Backoff(expired: bool, lastSent: nat, goal: nat)

  type Log = seq<Event>

  function Init(log: Log): (r: Log)
    requires log != []
  {
    log[..|log| - 1]
  }

  function Last(log: Log): (e: Event)
    requires log != []
  {
    log[|log| - 1]
  }

  function Move(p: Phase, e: Event): (r: Phase)
  {
    match e
    case Drained => Drain
    case Increased(k) => Increase(k)
    case Advanced(k) => Increase(k)
    case Backoff(expired, _, _) => Decrease(expired)
    case Acked(_, _, _) => p
    case Sampled(_, _) => p
    case Estimated(_) => p
  }

  function After(log: Log): (p: Phase)
  {
    if log == [] then Start else Move(After(Init(log)), Last(log))
  }

  function EstimatesOf(log: Log): (es: seq<nat>)
  {
    if log == [] then []
    else if Last(log).Estimated? then EstimatesOf(Init(log)) + [Last(log).bandwidth]
    else EstimatesOf(Init(log))
  }

  function StartupAfter(log: Log): (s: Startup)
  {
    RunFrom(Begin, EstimatesOf(log))
  }

  // ---------------------------------------------------------------------------
  // Sets of round-trip times
  // ---------------------------------------------------------------------------

  ghost predicate IsMin(m: nat, s: set<nat>)
  {
    m in s && forall x | x in s :: m <= x
  }

  /** The last packet sent when the sender last backed off. */
  function LastBackoff(log: Log): (n: nat)
  {
    if log == [] then 0 else if Last(log).Backoff? then Last(log).lastSent else LastBackoff(Init(log))
  }

  /** Samples taken while increasing, of packets sent after the last backoff. */
  function SinceBackoff(log: Log): (s: set<nat>)
  {
    if log == [] || Last(log).Backoff? then {}
    else
      var s := SinceBackoff(Init(log));
      if Last(log).Sampled? && After(Init(log)).Increase? && Last(log).number > LastBackoff(Init(log)) then s + {Last(log).rtt}
      else s
  }

  /** Samples taken during the current or last stay in DECREASE. */
  function Episode(log: Log): (s: set<nat>)
  {
    if log == [] || Last(log).Backoff? then {}
    else
      var s := Episode(Init(log));
      if Last(log).Sampled? && After(Init(log)).Decrease? then s + {Last(log).rtt} else s
  }

  /** A time of zero stands for none: it wipes out all before it. */
  function UnlessZero(s: set<nat>): (r: set<nat>)
  {
    if 0 in s then {} else s
  }

  /** All samples since the last of zero, replaced on leaving an expired DECREASE by that stay's own if it had
      any. */
  function Window(log: Log): (s: set<nat>)
    ensures 0 !in s
  {
    if log == [] then {}
    else
      var before := Init(log);
      match Last(log)
      case Sampled(_, rtt) => UnlessZero(Window(before) + {rtt})
      case Increased(_) => if After(before) == Decrease(true) && Episode(before) != {} then UnlessZero(Episode(before)) else Window(before)
      case Acked(_, _, _) => Window(before)
      case Estimated(_) => Window(before)
      case Drained => Window(before)
      case Advanced(_) => Window(before)
      case Backoff(_, _, _) => Window(before)
  }

  lemma {:induction false} HasLeast(s: set<nat>) returns (m: nat)
    requires s != {}
    ensures IsMin(m, s)
    decreases |s|
  {
    var x :| x in s;
    m := x;
    if s - {x} != {} {
      var y := HasLeast(s - {x});
      m := if y < x then y else x;
    }
    forall y | y in s ensures m <= y {
      if y != x {
        assert y in s - {x};
      }
    }
  }

  lemma ThereIsLeast(s: set<nat>)
    requires s != {}
    ensures exists m :: IsMin(m, s)
  {
    var m := HasLeast(s);
  }

  /** The least of a set, or `none` if it is empty. */
  ghost function LeastOr(s: set<nat>, none: nat): (m: nat)
    ensures if s == {} then m == none else IsMin(m, s)
  {
    if s == {} then none
    else
      ThereIsLeast(s);
      var m: nat :| IsMin(m, s);
      m
  }

  // ---------------------------------------------------------------------------
  // Delays and the times that decide
  // ---------------------------------------------------------------------------

  /** When the last acknowledgement arrived. */
  function Clock(log: Log): (t: nat)
  {
    if log == [] then 0 else if Last(log).Acked? then Last(log).now else Clock(Init(log))
  }

  /** Event `e` after `log` is a sample that counts towards the baseline. */
  predicate Counts(log: Log, e: Event)
  {
    e.Sampled? && After(log).Increase? && e.number > LastBackoff(log)
  }

  ghost predicate IsLeastSoFar(rtt: nat, s: set<nat>)
  {
    forall m | m in s :: rtt < m
  }

  /** 95 parts new and 5 parts old, in whole milliseconds. */
  function Blended(old_: nat, new_: nat): (t: nat)
  {
    (5 * (old_ / 1000) + 95 * (new_ / 1000)) / 100 * 1000
  }

  /** The smoothed time of the samples since the backoff; a new minimum starts it over. */
  ghost function Smoothed(log: Log): (t: nat)
  {
    if log == [] || Last(log).Backoff? then 0
    else
      var before := Init(log);
      if !Counts(before, Last(log)) then Smoothed(before)
      else
        var rtt, s := Last(log).rtt, Smoothed(before);
        if IsLeastSoFar(rtt, SinceBackoff(before)) then rtt / 1000 * 1000
        else if s == 0 then rtt
        else Blended(s, rtt)
  }

  /** The smoothed time exceeds 1.2 times the least sample since the backoff, rounded. */
  ghost predicate DelayTooHigh(log: Log)
  {
    SinceBackoff(log) != {} && 10 * Smoothed(log) > 12 * LeastOr(SinceBackoff(log), 0) + 5
  }

  /** A sample renews the minimum if it is the first, or less, or more by an eighth at most; not if equal. */
  ghost predicate Renews(log: Log, rtt: nat)
  {
    var m := LeastOr(Window(log), 0);
    Window(log) == {} || rtt < m || (rtt > m && 8 * rtt <= 9 * m + 4)
  }

  /** When the last of the least samples of the stay in DECREASE was taken. */
  ghost function EpisodeLeastAt(log: Log): (t: nat)
  {
    if log == [] then 0
    else
      var before := Init(log);
      if Last(log).Sampled? && After(before).Decrease? && forall m | m in Episode(before) :: Last(log).rtt <= m then Clock(before)
      else EpisodeLeastAt(before)
  }

  /** When the minimum was last renewed: by a sample, or by leaving an expired DECREASE. */
  ghost function RenewedAt(log: Log): (t: nat)
  {
    if log == [] then 0
    else
      var before := Init(log);
      match Last(log)
      case Sampled(_, rtt) => if Renews(before, rtt) then Clock(before) else RenewedAt(before)
      case Increased(_) =>
        if After(before) != Decrease(true) then RenewedAt(before)
        else if Episode(before) == {} then Clock(before)
        else EpisodeLeastAt(before)
      case Acked(_, _, _) => RenewedAt(before)
      case Estimated(_) => RenewedAt(before)
      case Drained => RenewedAt(before)
      case Advanced(_) => RenewedAt(before)
      case Backoff(_, _, _) => RenewedAt(before)
  }

  /** Ten seconds have passed without that. */
  ghost predicate MinExpired(log: Log)
  {
    Clock(log) > RenewedAt(log) + 10_000_000
  }

  /** When the current phase of the gain cycle began. */
  function PhaseSince(log: Log): (t: nat)
  {
    if log == [] then 0
    else if Last(log).Increased? || Last(log).Advanced? then Clock(Init(log))
    else PhaseSince(Init(log))
  }

  /** The log up to the last backoff. */
  function UpToBackoff(log: Log): (r: Log)
  {
    if log == [] then [] else if Last(log).Backoff? then Init(log) else UpToBackoff(Init(log))
  }

  /** The bytes in flight that the last backoff aims for. */
  function Goal(log: Log): (bytes: nat)
  {
    if log == [] then 0 else if Last(log).Backoff? then Last(log).goal else Goal(Init(log))
  }

  /** In a DECREASE for an expired minimum: four times the minimum have passed. */
  ghost predicate ProbedEnough(log: Log)
  {
    After(log) == Decrease(true) && Clock(log) > Clock(UpToBackoff(log)) + 4 * LeastOr(Window(UpToBackoff(log)), 0)
  }

  /** `bytes` is what `bandwidth` carries in `rtt` microseconds, or ten packets of 1000 if that is nothing. */
  predicate IsWindow(bytes: nat, bandwidth: nat, rtt: nat)
  {
    var product := bandwidth / 8 * rtt;
    if product < 1_000_000 then bytes == 10 * 1000 else 1_000_000 * bytes <= product < 1_000_000 * (bytes + 1)
  }

  /** Some packet sent after the last backoff took more than 1.2 times the best of them. */
  ghost predicate Justified(log: Log)
  {
    exists m: nat, r: nat :: IsMin(m, SinceBackoff(log)) && r in SinceBackoff(log) && 5 * r > 6 * m
  }

  // ---------------------------------------------------------------------------
  // Legal runs
  // ---------------------------------------------------------------------------

  const CYCLE: nat := 8

  function NextPhase(k: nat): (n: nat)
    ensures n < 8 && (k < 7 ==> n == k + 1) && (k == 7 ==> n == 0)
  {
    (k + 1) % CYCLE
  }

  ghost predicate LegalNext(log: Log, e: Event)
  {
    match e
    case Drained => After(log) == Start && StartupAfter(log).full
    case Increased(k) => (After(log).Drain? || After(log).Decrease?) && k < CYCLE && k != 1
    case Advanced(k) => After(log).Increase? && k == NextPhase(After(log).offset)
    case Backoff(expired, _, _) => !After(log).Decrease? && (!expired ==> After(log).Increase? && Justified(log) && DelayTooHigh(log))
    case Acked(_, _, _) => true
    case Sampled(_, _) => true
    case Estimated(_) => !StartupAfter(log).full
  }

  ghost predicate Legal(log: Log)
  {
    log == [] || (Legal(Init(log)) && LegalNext(Init(log), Last(log)))
  }

  lemma LegalSnoc(log: Log, e: Event)
    requires Legal(log) && LegalNext(log, e)
    ensures Legal(log + [e])
  {
    assert Init(log + [e]) == log;
  }

  lemma {:induction false} LegalPrefix(log: Log, n: nat)
    requires Legal(log) && n <= |log|
    ensures Legal(log[..n])
  {
    if n == |log| {
      assert log[..n] == log;
    } else {
      LegalPrefix(Init(log), n);
      assert Init(log)[..n] == log[..n];
    }
  }

  /** Each event of a legal log was legal where it happened. */
  lemma LegalAt(log: Log, n: nat)
    requires Legal(log) && n < |log|
    ensures LegalNext(log[..n], log[n]) && After(log[..n + 1]) == Move(After(log[..n]), log[n])
  {
    LegalPrefix(log, n + 1);
    assert Init(log[..n + 1]) == log[..n];
  }

  /** The 0.9 phase of the gain cycle is only ever entered from the 1.11 phase. */
  lemma SlowFollowsFast(log: Log, n: nat)
    requires Legal(log) && n < |log|
    requires After(log[..n + 1]) == Increase(1) && After(log[..n]) != Increase(1)
    ensures After(log[..n]) == Increase(0) && log[n] == Advanced(1)
  {
    hide After;
    LegalAt(log, n);
    OffsetInRange(log, n);
  }

  lemma {:induction false} OffsetInRange(log: Log, n: nat)
    requires Legal(log) && n <= |log| && After(log[..n]).Increase?
    ensures After(log[..n]).offset < CYCLE
    decreases n
  {
    if n > 0 {
      LegalAt(log, n - 1);
      if After(log[..n - 1]).Increase? {
        OffsetInRange(log, n - 1);
      }
    }
  }

  /** How far along the one-way street START, DRAIN, then INCREASE and DECREASE. */
  function Rank(p: Phase): (n: nat)
  {
    match p
    case Start => 0
    case Drain => 1
    case Increase(_) => 2
    case Decrease(_) => 2
  }

  /** The mode never goes back: not to START, not from INCREASE or DECREASE to DRAIN. */
  lemma {:induction false} NeverGoesBack(log: Log, i: nat, j: nat)
    requires Legal(log) && i <= j <= |log|
    ensures Rank(After(log[..i])) <= Rank(After(log[..j]))
    decreases j
  {
    hide After;
    if i < j {
      NeverGoesBack(log, i, j - 1);
      LegalAt(log, j - 1);
    }
  }

  /** DRAIN is entered only from START, and only with the full bandwidth reached. */
  lemma DrainMeansFull(log: Log, n: nat)
    requires Legal(log) && n < |log| && After(log[..n]) != Drain && After(log[..n + 1]) == Drain
    ensures After(log[..n]) == Start && StartupAfter(log[..n]).full
  {
    hide After, StartupAfter;
    LegalAt(log, n);
  }

  /** A backoff that is not due to an expired minimum comes from INCREASE, and some packet sent after the
      backoff before it had a round-trip time over 1.2 times the smallest of its peers. */
  lemma DelayBackoffJustified(log: Log, n: nat)
    requires Legal(log) && n < |log| && log[n].Backoff? && !log[n].expired
    ensures After(log[..n]).Increase? && Justified(log[..n])
  {
    hide After, Justified;
    LegalAt(log, n);
  }

  /** Every sample that counts towards a delay backoff is an event of the log since the backoff before. */
  lemma {:induction false} SampleSinceBackoff(log: Log, r: nat) returns (k: nat)
    requires r in SinceBackoff(log)
    ensures k < |log| && log[k].Sampled? && log[k].rtt == r && log[k].number > LastBackoff(log)
    ensures forall j | k <= j < |log| :: !log[j].Backoff?
  {
    if r in SinceBackoff(Init(log)) {
      k := SampleSinceBackoff(Init(log), r);
    } else {
      k := |log| - 1;
    }
  }
}
