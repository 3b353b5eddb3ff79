/**
 The windowed maximum filter: three estimates stand for all the samples of a window.
 */
module WindowedFilter {
  import opened Bytes

  datatype Stamped = Stamped(sample: nat, time: nat)

  datatype Estimates = Estimates(best: Stamped, second: Stamped, third: Stamped)

  const Empty := Estimates(Stamped(0, 0), Stamped(0, 0), Stamped(0, 0))

  /** The unsigned difference exceeds `age`; it wraps around when time runs back. */
  predicate Older(now: nat, then_: nat, age: nat)
  {
    (now - then_) % TWO64 > age
  }

  function Place(e: Estimates, s: Stamped): (r: Estimates)
  {
    if s.sample >= e.second.sample then Estimates(e.best, s, s)
    else if s.sample >= e.third.sample then Estimates(e.best, e.second, s)
    else e
  }

  function Expire(e: Estimates, s: Stamped, window: nat): (r: Estimates)
  {
    if Older(s.time, e.best.time, window) then
      var p := Estimates(e.second, e.third, s);
      if Older(s.time, p.best.time, window) then Estimates(p.second, p.third, p.third) else p
    else if e.second.sample == e.best.sample && Older(s.time, e.second.time, window / 4) then Estimates(e.best, s, s)
    else if e.third.sample == e.second.sample && Older(s.time, e.third.time, window / 2) then Estimates(e.best, e.second, s)
    else e
  }

  function Updated(e: Estimates, s: Stamped, window: nat): (r: Estimates)
  {
    if e.best.sample == 0 || s.sample >= e.best.sample || Older(s.time, e.third.time, window) then Estimates(s, s, s)
    else Expire(Place(e, s), s, window)
  }

  function Fed(window: nat, fed: seq<Stamped>): (e: Estimates)
  {
    if fed == [] then Empty else Updated(Fed(window, fed[..|fed| - 1]), fed[|fed| - 1], window)
  }

  /** Sample `k` is the estimate `s`, and no sample since has been larger. */
  ghost predicate Holds(fed: seq<Stamped>, k: nat, s: Stamped)
  {
    k < |fed| && fed[k] == s && forall j | k <= j < |fed| :: fed[j].sample <= s.sample
  }

  ghost predicate Tracks(fed: seq<Stamped>, e: Estimates, i: nat, j: nat, k: nat)
  {
    i <= j <= k && Holds(fed, i, e.best) && Holds(fed, j, e.second) && Holds(fed, k, e.third)
  }

  lemma HoldsAppend(fed: seq<Stamped>, k: nat, s: Stamped, n: Stamped)
    requires Holds(fed, k, s) && n.sample <= s.sample
    ensures Holds(fed + [n], k, s)
  {
  }

  lemma HoldsNew(fed: seq<Stamped>, n: Stamped)
    ensures Holds(fed + [n], |fed|, n)
  {
  }

  lemma PlaceTracks(fed: seq<Stamped>, e: Estimates, i: nat, j: nat, k: nat, s: Stamped)
    returns (j': nat, k': nat)
    requires Tracks(fed, e, i, j, k) && s.sample < e.best.sample
    ensures Tracks(fed + [s], Place(e, s), i, j', k')
    ensures s.sample <= Place(e, s).third.sample
  {
    hide Holds;
    HoldsAppend(fed, i, e.best, s);
    HoldsNew(fed, s);
    HoldsBound(fed, i, e.best);
    HoldsBound(fed, j, e.second);
    HoldsBound(fed, k, e.third);
    if s.sample >= e.second.sample {
      j', k' := |fed|, |fed|;
    } else {
      HoldsAppend(fed, j, e.second, s);
      if s.sample >= e.third.sample {
        j', k' := j, |fed|;
      } else {
        HoldsAppend(fed, k, e.third, s);
        j', k' := j, k;
      }
    }
  }

  lemma HoldsBound(fed: seq<Stamped>, k: nat, s: Stamped)
    requires Holds(fed, k, s)
    ensures k < |fed|
  {
  }

  lemma ExpireTracks(fed: seq<Stamped>, e: Estimates, i: nat, j: nat, k: nat, s: Stamped, window: nat)
    returns (i': nat, j': nat, k': nat)
    requires fed != [] && fed[|fed| - 1] == s && Tracks(fed, e, i, j, k) && s.sample <= e.third.sample
    ensures Tracks(fed, Expire(e, s, window), i', j', k')
  {
    var n := |fed| - 1;
    i', j', k' := i, j, k;
    if Older(s.time, e.best.time, window) {
      i', j', k' := j, k, n;
      if Older(s.time, e.second.time, window) {
        i', j', k' := k, n, n;
      }
    } else if e.second.sample == e.best.sample && Older(s.time, e.second.time, window / 4) {
      j', k' := n, n;
    } else if e.third.sample == e.second.sample && Older(s.time, e.third.time, window / 2) {
      k' := n;
    }
  }

  /** The best estimate is always some sample that no later one has exceeded; the second and third
      likewise, each taken no earlier than the one before. */
  lemma {:induction false} EstimatesTrack(window: nat, fed: seq<Stamped>) returns (i: nat, j: nat, k: nat)
    requires fed != []
    ensures Tracks(fed, Fed(window, fed), i, j, k)
  {
    hide Place, Expire;
    var before, s := fed[..|fed| - 1], fed[|fed| - 1];
    assert fed == before + [s];
    var e := Fed(window, before);
    if e.best.sample == 0 || s.sample >= e.best.sample || Older(s.time, e.third.time, window) {
      i, j, k := |before|, |before|, |before|;
      HoldsNew(before, s);
    } else {
      i, j, k := EstimatesTrack(window, before);
      j, k := PlaceTracks(before, e, i, j, k, s);
      i, j, k := ExpireTracks(fed, Place(e, s), i, j, k, s, window);
    }
  }

  /** The best estimate is never older than the window. */
  lemma BestIsRecent(window: nat, fed: seq<Stamped>)
    requires fed != []
    ensures !Older(fed[|fed| - 1].time, Fed(window, fed).best.time, window)
  {
  }

  /** Hence the filter reports a sample from the window, at least as large as everything after it. */
  lemma BestOfWindow(window: nat, fed: seq<Stamped>) returns (i: nat)
    requires fed != [] && fed[|fed| - 1].time < TWO64
    ensures i < |fed| && Fed(window, fed).best == fed[i]
    ensures fed[|fed| - 1].time <= fed[i].time + window
    ensures forall j | i <= j < |fed| :: fed[j].sample <= fed[i].sample
  {
    hide Fed;
    var j, k;
    i, j, k := EstimatesTrack(window, fed);
    BestIsRecent(window, fed);
  }

  /** Times that fit their 64 bits and never run back. */
  ghost predicate InOrder(fed: seq<Stamped>)
  {
    forall i, j | 0 <= i <= j < |fed| :: fed[i].time <= fed[j].time < TWO64
  }

  lemma OlderInOrder(now: nat, then_: nat, age: nat)
    requires then_ <= now < TWO64
    ensures Older(now, then_, age) <==> now > then_ + age
  {
    ModSmall(now - then_, TWO64);
  }

  lemma FedSnoc(window: nat, fed: seq<Stamped>, s: Stamped)
    ensures Fed(window, fed + [s]) == Updated(Fed(window, fed), s, window)
  {
    assert (fed + [s])[..|fed|] == fed;
  }

  lemma OrderedEstimates(window: nat, fed: seq<Stamped>, now: nat)
    requires fed != [] && InOrder(fed) && fed[|fed| - 1].time <= now
    ensures var e := Fed(window, fed); e.best.time <= e.second.time <= e.third.time <= now
  {
    hide Fed;
    var i, j, k := EstimatesTrack(window, fed);
  }

  /** When the best estimate changes: a sample at least as large replaces it, it is kept as long as it is
      inside the window and larger, and past the window it gives way to a later one. */
  lemma BestKept(window: nat, fed: seq<Stamped>, s: Stamped)
    requires fed != [] && InOrder(fed + [s])
    ensures var old_, new_ := Fed(window, fed).best, Fed(window, fed + [s]).best;
            && (s.sample >= old_.sample ==> new_ == s)
            && (s.sample < old_.sample && s.time <= old_.time + window ==> new_ == old_)
            && (s.time > old_.time + window ==> old_.time < new_.time)
  {
    hide Fed, Older;
    var e := Fed(window, fed);
    assert forall i | 0 <= i < |fed| :: (fed + [s])[i] == fed[i];
    assert (fed + [s])[|fed|] == s;
    assert InOrder(fed);
    FedSnoc(window, fed, s);
    OrderedEstimates(window, fed, s.time);
    OrderedEstimates(window, fed + [s], s.time);
    OlderInOrder(s.time, e.best.time, window);
    OlderInOrder(s.time, e.third.time, window);
    OlderInOrder(s.time, Fed(window, fed + [s]).best.time, window);
    BestIsRecent(window, fed + [s]);
  }

  /** While the best estimate lasts, an equal second is never older than a quarter of the window, nor a third
      equal to the second older than half of it. */
  lemma RunnersUpAreFresh(window: nat, e: Estimates, s: Stamped)
    requires s.time < TWO64 && Updated(e, s, window).best == e.best != s && !Older(s.time, e.best.time, window)
    ensures var u := Updated(e, s, window);
            && (u.second.sample == u.best.sample ==> !Older(s.time, u.second.time, window / 4))
            && (u.third.sample == u.second.sample ==> !Older(s.time, u.third.time, window / 2))
  {
    assert !Older(s.time, s.time, window / 4) && !Older(s.time, s.time, window / 2);
  }

  /** Nothing larger is dropped on the way from `e` to `u`, but with age. */
  ghost predicate DropsWithAge(window: nat, e: Estimates, u: Estimates, now: nat)
  {
    var staleSecond := e.second.sample == e.best.sample && Older(now, e.second.time, window / 4);
    var staleThird := e.third.sample == e.second.sample && Older(now, e.third.time, window / 2);
    if !Older(now, e.best.time, window) then
      && (u.second.sample >= e.second.sample || staleSecond)
      && (u.third.sample >= e.third.sample || staleSecond || staleThird)
    else if !Older(now, e.second.time, window) then u.best.sample >= e.second.sample && u.second.sample >= e.third.sample
    else Older(now, e.third.time, window) || u.best.sample >= e.third.sample
  }

  lemma UpdateDropsWithAge(window: nat, e: Estimates, s: Stamped)
    requires e.best.sample >= e.second.sample >= e.third.sample && s.sample < e.best.sample
    requires !Older(s.time, e.third.time, window)
    ensures DropsWithAge(window, e, Updated(e, s, window), s.time)
  {
  }

  /** No estimate gives way to a smaller sample but with age: a second that only repeats the best after a
      quarter of the window, a third that only repeats the second after half of it, and the best after all
      of it, when the larger of the others still inside takes its place. */
  lemma OnlyAgeDrops(window: nat, fed: seq<Stamped>, s: Stamped)
    requires fed != [] && InOrder(fed + [s]) && s.sample < Fed(window, fed).best.sample
    requires s.time <= Fed(window, fed).third.time + window
    ensures DropsWithAge(window, Fed(window, fed), Fed(window, fed + [s]), s.time)
  {
    hide Fed, DropsWithAge, Updated, Older;
    var i, j, k := EstimatesTrack(window, fed);
    assert forall i | 0 <= i < |fed| :: (fed + [s])[i] == fed[i];
    assert (fed + [s])[|fed|] == s;
    assert InOrder(fed);
    FedSnoc(window, fed, s);
    OrderedEstimates(window, fed, s.time);
    OlderInOrder(s.time, Fed(window, fed).third.time, window);
    UpdateDropsWithAge(window, Fed(window, fed), s);
  }

  class MaxFilter {
    const window: nat
    const estimates: array<Stamped>

    ghost predicate Valid()
    {
      estimates.Length == 3
    }

    ghost function Now(): Estimates
      requires Valid()
      reads estimates
    {
      Estimates(estimates[0], estimates[1], estimates[2])
    }

    constructor (windowLength: nat)
      ensures Valid() && window == windowLength && Now() == Empty && fresh(estimates)
    {
      window := windowLength;
      estimates := new Stamped[3](_ => Stamped(0, 0));
    }

    function GetBest(): (r: nat)
      requires Valid()
      reads estimates
      ensures r == Now().best.sample
    {
      estimates[0].sample
    }

    method Update(newSample: nat, newTime: nat)
      requires Valid()
      modifies estimates
      ensures Now() == Updated(old(Now()), Stamped(newSample, newTime), window)
    {
      var s := Stamped(newSample, newTime);
      if estimates[0].sample == 0 || newSample >= estimates[0].sample || Older(newTime, estimates[2].time, window) {
        estimates[0], estimates[1], estimates[2] := s, s, s;
        return;
      }
      if newSample >= estimates[1].sample {
        estimates[1] := s;
        estimates[2] := estimates[1];
      } else if newSample >= estimates[2].sample {
        estimates[2] := s;
      }
      if Older(newTime, estimates[0].time, window) {
        estimates[0] := estimates[1];
        estimates[1] := estimates[2];
        estimates[2] := s;
        if Older(newTime, estimates[0].time, window) {
          estimates[0] := estimates[1];
          estimates[1] := estimates[2];
        }
        return;
      }
      if estimates[1].sample == estimates[0].sample && Older(newTime, estimates[1].time, window / 4) {
        estimates[1] := s;
        estimates[2] := s;
        return;
      }
      if estimates[2].sample == estimates[1].sample && Older(newTime, estimates[2].time, window / 2) {
        estimates[2] := s;
      }
    }
  }
}
