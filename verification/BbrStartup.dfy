/**
 The rule by which the sender leaves STARTUP: three round trips in which the bandwidth estimate
 fails to grow by a quarter.
 */
module BbrStartup {

  datatype Startup = Startup(bandwidthAtLastRound: nat, roundsWithoutGain: nat, full: bool)

  const Begin := Startup(0, 0, false)

  const STARTUP_ROUNDS: nat := 3

  /** 1.25 times, rounded to the nearest integer. */
  function Target(bandwidth: nat): (t: nat)
  {
    (5 * bandwidth + 2) / 4
  }

  function CheckIfFull(s: Startup, estimate: nat): (r: Startup)
  {
    if estimate >= Target(s.bandwidthAtLastRound) then Startup(estimate, 0, s.full)
    else s.(roundsWithoutGain := s.roundsWithoutGain + 1, full := s.full || s.roundsWithoutGain + 1 >= STARTUP_ROUNDS)
  }

  /** The check is made only until it succeeds. */
  function RoundEnds(s: Startup, estimate: nat): (r: Startup)
  {
    if s.full then s else CheckIfFull(s, estimate)
  }

  function RunFrom(s: Startup, estimates: seq<nat>): (r: Startup)
    decreases |estimates|
  {
    if estimates == [] then s else RunFrom(RoundEnds(s, estimates[0]), estimates[1..])
  }

  lemma {:induction false} StaysFull(s: Startup, estimates: seq<nat>)
    requires s.full
    ensures RunFrom(s, estimates) == s
    decreases |estimates|
  {
    if estimates != [] {
      StaysFull(s, estimates[1..]);
    }
  }

  lemma {:induction false} RunSnoc(s: Startup, estimates: seq<nat>, e: nat)
    ensures RunFrom(s, estimates + [e]) == RoundEnds(RunFrom(s, estimates), e)
    decreases |estimates|
  {
    if estimates == [] {
      assert [e][1..] == [];
    } else {
      assert (estimates + [e])[1..] == estimates[1..] + [e];
      RunSnoc(RoundEnds(s, estimates[0]), estimates[1..], e);
    }
  }

  /** How often the recorded bandwidth can still grow by a quarter without passing `bound`. */
  function Growths(bandwidth: nat, bound: nat): (n: nat)
    requires bandwidth >= 2
    decreases bound - bandwidth
  {
    if Target(bandwidth) > bound then 0 else 1 + Growths(Target(bandwidth), bound)
  }

  lemma {:induction false} GrowthsAntitone(a: nat, b: nat, bound: nat)
    requires 2 <= a <= b
    ensures Growths(b, bound) <= Growths(a, bound)
    decreases bound - a
  {
    if Target(b) <= bound {
      GrowthsAntitone(Target(a), Target(b), bound);
    }
  }

  /** Rounds that can still pass before the check succeeds. */
  ghost function Patience(s: Startup, bound: nat): nat
    requires s.bandwidthAtLastRound >= 2 && s.roundsWithoutGain < STARTUP_ROUNDS
  {
    3 * Growths(s.bandwidthAtLastRound, bound) + (STARTUP_ROUNDS - s.roundsWithoutGain)
  }

  ghost predicate Going(s: Startup)
  {
    s.bandwidthAtLastRound >= 2 && (s.full || s.roundsWithoutGain < STARTUP_ROUNDS)
  }

  lemma PatienceRunsOut(s: Startup, e: nat, bound: nat)
    requires Going(s) && !s.full && e <= bound
    ensures var t := RoundEnds(s, e); Going(t) && (t.full || Patience(t, bound) < Patience(s, bound))
  {
    hide Growths;
    var last := s.bandwidthAtLastRound;
    if e >= Target(last) {
      GrowthsStep(last, bound);
      GrowthsAntitone(Target(last), e, bound);
    }
  }

  lemma GrowthsStep(bandwidth: nat, bound: nat)
    requires bandwidth >= 2 && Target(bandwidth) <= bound
    ensures Growths(bandwidth, bound) == 1 + Growths(Target(bandwidth), bound)
  {
  }

  ghost predicate AtMost(estimates: seq<nat>, bound: nat)
  {
    forall i | 0 <= i < |estimates| :: estimates[i] <= bound
  }

  lemma {:induction false} FullOncePatienceEnds(s: Startup, estimates: seq<nat>, bound: nat)
    requires Going(s) && AtMost(estimates, bound) && (s.full || |estimates| >= Patience(s, bound))
    ensures RunFrom(s, estimates).full
    decreases |estimates|
  {
    hide Growths, RoundEnds;
    if s.full {
      StaysFull(s, estimates);
    } else {
      PatienceRunsOut(s, estimates[0], bound);
      FullOncePatienceEnds(RoundEnds(s, estimates[0]), estimates[1..], bound);
    }
  }

  /** The round updates STARTUP can last after the first estimate of two or more. */
  function Bound(bound: nat): (n: nat)
  {
    3 * (Growths(2, bound) + 1)
  }

  lemma {:induction false} RoundsStayBelow(s: Startup, estimates: seq<nat>)
    requires s.full || s.roundsWithoutGain < STARTUP_ROUNDS
    ensures var r := RunFrom(s, estimates); r.full || r.roundsWithoutGain < STARTUP_ROUNDS
    decreases |estimates|
  {
    if estimates != [] {
      RoundsStayBelow(RoundEnds(s, estimates[0]), estimates[1..]);
    }
  }

  lemma {:induction false} RunSplit(s: Startup, a: seq<nat>, b: seq<nat>)
    ensures RunFrom(s, a + b) == RunFrom(RunFrom(s, a), b)
    decreases |a|
  {
    if a == [] {
      assert a + b == b;
    } else {
      assert (a + b)[1..] == a[1..] + b;
      RunSplit(RoundEnds(s, a[0]), a[1..], b);
    }
  }

  /** STARTUP ends: whatever the estimates up to `bound`, the check has succeeded `Bound(bound)` round
      updates after the first estimate of two bits per second or more. */
  lemma StartupEnds(estimates: seq<nat>, i: nat, bound: nat)
    requires AtMost(estimates, bound) && i < |estimates| && estimates[i] >= 2
    requires |estimates| > i + Bound(bound)
    ensures RunFrom(Begin, estimates).full
  {
    hide Growths, RunFrom;
    var a, b := estimates[..i], estimates[i + 1..];
    var s := RunFrom(Begin, a);
    var t := RoundEnds(s, estimates[i]);
    RoundsStayBelow(Begin, a);
    RunSnoc(Begin, a, estimates[i]);
    RunSplit(Begin, a + [estimates[i]], b);
    assert estimates == a + [estimates[i]] + b;
    if t.full {
      StaysFull(t, b);
    } else {
      if t.bandwidthAtLastRound >= 2 {
        GrowthsAntitone(2, t.bandwidthAtLastRound, bound);
      }
      FullOncePatienceEnds(t, b, bound);
    }
  }

  // ---------------------------------------------------------------------------
  // Exactly when the check succeeds
  // ---------------------------------------------------------------------------

  /** Less than a quarter more than `b`, to the nearest integer. */
  predicate Flat(e: nat, b: nat)
  {
    4 * e + 2 <= 5 * b
  }

  /** The place of the last estimate that outgrew the record before it; the first one counts. */
  function LastRecord(estimates: seq<nat>): (k: nat)
    requires estimates != []
    ensures k < |estimates|
  {
    var n := |estimates| - 1;
    if n == 0 then 0
    else
      var k := LastRecord(estimates[..n]);
      if Flat(estimates[n], estimates[k]) then k else n
  }

  /** Three estimates in a row stay flat after the record at `k`. */
  ghost predicate ThreeFlat(estimates: seq<nat>, k: nat)
  {
    && k + 3 < |estimates| && LastRecord(estimates[..k + 1]) == k
    && Flat(estimates[k + 1], estimates[k]) && Flat(estimates[k + 2], estimates[k]) && Flat(estimates[k + 3], estimates[k])
  }

  /** What the check knows while it has not succeeded: the record and the estimates since. */
  ghost predicate Knows(s: Startup, estimates: seq<nat>)
  {
    if estimates == [] then s == Begin
    else
      var k := LastRecord(estimates);
      s == Startup(estimates[k], |estimates| - 1 - k, false) && |estimates| - 1 - k < 3
  }

  lemma {:induction false} FlatSinceRecord(estimates: seq<nat>, j: nat)
    requires estimates != [] && LastRecord(estimates) < j < |estimates|
    ensures Flat(estimates[j], estimates[LastRecord(estimates)])
    ensures LastRecord(estimates[..LastRecord(estimates) + 1]) == LastRecord(estimates)
  {
    var n := |estimates| - 1;
    var before := estimates[..n];
    var k := LastRecord(estimates);
    if j < n {
      FlatSinceRecord(before, j);
      assert before[..k + 1] == estimates[..k + 1];
    } else if k < n - 1 {
      FlatSinceRecord(before, n - 1);
      assert before[..k + 1] == estimates[..k + 1];
    } else {
      assert before[..k + 1] == before == estimates[..k + 1];
    }
  }

  lemma {:induction false} RecordHolds(estimates: seq<nat>, k: nat, n: nat)
    requires k < n <= |estimates| && LastRecord(estimates[..k + 1]) == k
    requires forall j | k < j < n :: Flat(estimates[j], estimates[k])
    ensures LastRecord(estimates[..n]) == k
  {
    if n > k + 1 {
      RecordHolds(estimates, k, n - 1);
      assert estimates[..n][..n - 1] == estimates[..n - 1];
    }
  }

  lemma ThreeFlatMore(estimates: seq<nat>, e: nat, k: nat)
    requires ThreeFlat(estimates, k)
    ensures ThreeFlat(estimates + [e], k)
  {
    assert (estimates + [e])[..k + 1] == estimates[..k + 1];
  }

  /** One more estimate: the fourth since the record, itself included, decides. */
  lemma OneMoreEstimate(s: Startup, estimates: seq<nat>, e: nat)
    requires Knows(s, estimates)
    ensures var t, more := CheckIfFull(s, e), estimates + [e];
            && (!t.full ==> Knows(t, more))
            && (t.full ==> |more| > 3 && ThreeFlat(more, |more| - 4))
  {
    var more := estimates + [e];
    assert more[..|estimates|] == estimates;
    if estimates != [] {
      var k := LastRecord(estimates);
      assert more[k] == estimates[k];
      if CheckIfFull(s, e).full {
        FlatSinceRecord(more, |more| - 1);
        FlatSinceRecord(more, |more| - 2);
        FlatSinceRecord(more, |more| - 3);
      }
    }
  }

  lemma {:induction false} FullNeedsThreeFlat(estimates: seq<nat>) returns (k: nat)
    ensures var s := RunFrom(Begin, estimates);
            if s.full then ThreeFlat(estimates, k) else Knows(s, estimates)
  {
    if estimates == [] {
      k := 0;
    } else {
      var n := |estimates| - 1;
      var before, e := estimates[..n], estimates[n];
      assert estimates == before + [e];
      k := FullNeedsThreeFlat(before);
      RunSnoc(Begin, before, e);
      if RunFrom(Begin, before).full {
        ThreeFlatMore(before, e, k);
      } else {
        OneMoreEstimate(RunFrom(Begin, before), before, e);
        k := if |estimates| > 3 then |estimates| - 4 else 0;
      }
    }
  }

  /** The check has succeeded if and only if some estimate that outgrew the record before it by a quarter was
      followed by three that did not outgrow it: no sooner, and no later. */
  lemma FullIff(estimates: seq<nat>)
    ensures RunFrom(Begin, estimates).full <==> exists k :: ThreeFlat(estimates, k)
  {
    hide RunFrom, ThreeFlat, Knows;
    var found := FullNeedsThreeFlat(estimates);
    if k :| ThreeFlat(estimates, k) {
      ThreeFlatEnds(estimates, k);
      var upto, rest := estimates[..k + 4], estimates[k + 4..];
      RunSplit(Begin, upto, rest);
      assert estimates == upto + rest;
      StaysFull(RunFrom(Begin, upto), rest);
    }
  }

  lemma ThreeFlatEnds(estimates: seq<nat>, k: nat)
    requires ThreeFlat(estimates, k)
    ensures k + 4 <= |estimates| && RunFrom(Begin, estimates[..k + 4]).full
  {
    hide RunFrom;
    var upto := estimates[..k + 4];
    RecordHolds(estimates, k, k + 4);
    var found := FullNeedsThreeFlat(upto);
  }

  /** Nothing is its own target: while the estimate stays at zero, STARTUP goes on. */
  lemma {:induction false} ZerosNeverEnd(estimates: seq<nat>)
    requires forall i | 0 <= i < |estimates| :: estimates[i] == 0
    ensures RunFrom(Begin, estimates) == Begin
  {
    if estimates != [] {
      var before := estimates[..|estimates| - 1];
      ZerosNeverEnd(before);
      RunSnoc(Begin, before, 0);
      assert estimates == before + [0];
    }
  }

  /** The place of the first estimate that is not zero, or the end. */
  function FirstPositive(estimates: seq<nat>): (n: nat)
    ensures n <= |estimates| && (n < |estimates| ==> estimates[n] > 0)
    ensures forall i | 0 <= i < n :: estimates[i] == 0
  {
    if estimates == [] || estimates[0] > 0 then 0 else 1 + FirstPositive(estimates[1..])
  }

  /** An estimate is zero or, being whole bytes per second, at least eight bits. */
  predicate WholeBytes(bandwidth: nat)
  {
    bandwidth == 0 || bandwidth >= 8
  }
}
