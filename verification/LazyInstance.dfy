/**
 Thread-safe lazy creation: one atomic word that is 0 before, 1 while one thread creates, and the
 pointer afterwards. Any number of threads, any interleaving of their atomic steps.
 */
module LazyInstance {
  import opened Totals

  const CREATING: nat := 1

  /** Where a thread stands in `GetOrCreateLazyPointer`, between two atomic steps. */
  datatype Pc =
    | Load                      // about to make the fast-path load
    | Swap                      // about to compare and swap 0 for 1
    | Spin                      // about to load the word to see whether it is still 1
    | Create                    // about to run the creator
    | Store(instance: nat)      // about to publish the instance
    | Register(instance: nat)   // about to register the destructor
    | Reload                    // about to load the instance another thread made
    | Done(result: nat)         // returned; free to call again

  /** `created` and `registered` count runs of the creator and registrations of the destructor. */
  datatype State = State(word: nat, pcs: map<nat, Pc>, created: nat, registered: nat)

  /** One step of one thread; `value` is what the creator returns, should it run in this step. */
  datatype Step = Step(thread: nat, value: nat)

  /** Any bit of a pointer set, other than the one that says "creating". */
  predicate IsCreated(word: nat)
  {
    word > CREATING
  }

  function MoveTo(s: State, thread: nat, pc: Pc): (r: State)
    requires thread in s.pcs
    ensures r.pcs.Keys == s.pcs.Keys
  {
    s.(pcs := s.pcs[thread := pc])
  }

  function Next(s: State, step: Step): (r: State)
    requires step.thread in s.pcs
    ensures r.pcs.Keys == s.pcs.Keys
  {
    var t := step.thread;
    match s.pcs[t]
    case Load => MoveTo(s, t, if IsCreated(s.word) then Done(s.word) else Swap)
    case Swap => if s.word == 0 then MoveTo(s, t, Create).(word := CREATING) else MoveTo(s, t, Spin)
    case Spin => if s.word == CREATING then s else MoveTo(s, t, Reload)
    case Create => MoveTo(s, t, Store(step.value)).(created := s.created + 1)
    case Store(v) => MoveTo(s, t, Register(v)).(word := v)
    case Register(v) => MoveTo(s, t, Done(v)).(registered := s.registered + if v != 0 then 1 else 0)
    case Reload => MoveTo(s, t, Done(s.word))
    case Done(_) => MoveTo(s, t, Load)
  }

  function Begin(threads: set<nat>): (s: State)
  {
    State(0, map t | t in threads :: Load, 0, 0)
  }

  /** The steps are by threads that exist. */
  predicate Runnable(threads: set<nat>, steps: seq<Step>)
  {
    forall i | 0 <= i < |steps| :: steps[i].thread in threads
  }

  function Run(threads: set<nat>, steps: seq<Step>): (s: State)
    requires Runnable(threads, steps)
    ensures s.pcs.Keys == threads
  {
    if steps == [] then Begin(threads) else Next(Run(threads, steps[..|steps| - 1]), steps[|steps| - 1])
  }

  /** What creators may return. */
  ghost predicate Follows(steps: seq<Step>, policy: nat -> bool)
  {
    forall i | 0 <= i < |steps| :: policy(steps[i].value)
  }

  // ---------------------------------------------------------------------------
  // Mutual exclusion, whatever creators return
  // ---------------------------------------------------------------------------

  predicate Holds(pc: Pc)
  {
    pc.Create? || pc.Store?
  }

  /** At most one thread creates; and the word is 1 exactly while one does. */
  ghost predicate Exclusive(s: State)
  {
    && (forall t, u | t in s.pcs && u in s.pcs && Holds(s.pcs[t]) && Holds(s.pcs[u]) :: t == u)
    && (s.word == CREATING <==> exists t :: t in s.pcs && Holds(s.pcs[t]))
    && (forall t | t in s.pcs && s.pcs[t].Store? :: s.pcs[t].instance != CREATING)
  }

  lemma ExclusiveStep(s: State, step: Step)
    requires Exclusive(s) && step.thread in s.pcs && step.value != CREATING
    ensures Exclusive(Next(s, step))
  {
    var t := step.thread;
    var r := Next(s, step);
    assert Holds(r.pcs[t]) ==> t in r.pcs;
    if s.word == CREATING && !Holds(s.pcs[t]) {
      var o :| o in s.pcs && Holds(s.pcs[o]);
      assert r.pcs[o] == s.pcs[o];
    }
  }

  lemma {:induction false} AlwaysExclusive(threads: set<nat>, steps: seq<Step>)
    requires Runnable(threads, steps) && Follows(steps, v => v != CREATING)
    ensures Exclusive(Run(threads, steps))
  {
    if steps != [] {
      AlwaysExclusive(threads, steps[..|steps| - 1]);
      ExclusiveStep(Run(threads, steps[..|steps| - 1]), steps[|steps| - 1]);
    }
  }

  // ---------------------------------------------------------------------------
  // Creation happens once, when creators return real pointers
  // ---------------------------------------------------------------------------

  predicate Waiting(pc: Pc)
  {
    pc.Load? || pc.Swap? || pc.Spin?
  }

  ghost predicate Untouched(s: State)
  {
    s.created == 0 && s.registered == 0 && forall t | t in s.pcs :: s.pcs[t].Load? || s.pcs[t].Swap?
  }

  ghost predicate OwnedBy(s: State, o: nat)
  {
    && o in s.pcs && Holds(s.pcs[o]) && s.registered == 0
    && s.created == (if s.pcs[o].Store? then 1 else 0)
    && (s.pcs[o].Store? ==> IsCreated(s.pcs[o].instance))
    && forall t | t in s.pcs && t != o :: Waiting(s.pcs[t])
  }

  predicate Finishing(pc: Pc, word: nat)
  {
    Waiting(pc) || pc.Reload? || pc == Register(word) || pc == Done(word)
  }

  ghost predicate Registering(s: State, o: nat)
  {
    o in s.pcs && s.pcs[o].Register? && forall t | t in s.pcs && t != o :: !s.pcs[t].Register?
  }

  /** The destructor is registered by the one thread that created, and once. */
  ghost predicate RegisteredOnce(s: State)
  {
    || (s.registered == 1 && forall t | t in s.pcs :: !s.pcs[t].Register?)
    || (s.registered == 0 && exists o :: Registering(s, o))
  }

  ghost predicate Published(s: State)
  {
    s.created == 1 && RegisteredOnce(s) && forall t | t in s.pcs :: Finishing(s.pcs[t], s.word)
  }

  ghost predicate Once(s: State)
  {
    if s.word == 0 then Untouched(s)
    else if s.word == CREATING then exists o :: OwnedBy(s, o)
    else Published(s)
  }

  lemma OnceUntouched(s: State, step: Step)
    requires s.word == 0 && Untouched(s) && step.thread in s.pcs
    ensures Once(Next(s, step))
  {
    if s.pcs[step.thread].Swap? {
      assert OwnedBy(Next(s, step), step.thread);
    }
  }

  lemma OnceOwned(s: State, step: Step, o: nat)
    requires s.word == CREATING && OwnedBy(s, o) && step.thread in s.pcs && IsCreated(step.value)
    ensures Once(Next(s, step))
  {
    var r := Next(s, step);
    if step.thread == o && s.pcs[o].Store? {
      assert Registering(r, o);
      assert Published(r);
    } else {
      assert OwnedBy(r, o);
    }
  }

  lemma PublishedStep(s: State, step: Step)
    requires IsCreated(s.word) && Published(s) && step.thread in s.pcs
    ensures var r := Next(s, step);
            && r.word == s.word && r.created == s.created
            && (forall u | u in s.pcs && u != step.thread :: r.pcs[u] == s.pcs[u])
            && Finishing(r.pcs[step.thread], r.word) && !r.pcs[step.thread].Register?
            && r.registered == s.registered + if s.pcs[step.thread].Register? then 1 else 0
  {
    hide RegisteredOnce;
  }

  lemma OncePublished(s: State, step: Step)
    requires IsCreated(s.word) && Published(s) && step.thread in s.pcs
    ensures Published(Next(s, step)) && Next(s, step).word == s.word
  {
    hide Next, Finishing;
    PublishedStep(s, step);
    if s.registered == 0 && !s.pcs[step.thread].Register? {
      var o :| Registering(s, o);
      assert Registering(Next(s, step), o);
    }
  }

  lemma OnceStep(s: State, step: Step)
    requires Once(s) && step.thread in s.pcs && IsCreated(step.value)
    ensures Once(Next(s, step))
  {
    hide Untouched, OwnedBy, Published, Next;
    if s.word == 0 {
      OnceUntouched(s, step);
    } else if s.word == CREATING {
      var o :| OwnedBy(s, o);
      OnceOwned(s, step, o);
    } else {
      OncePublished(s, step);
    }
  }

  lemma {:induction false} AlwaysOnce(threads: set<nat>, steps: seq<Step>)
    requires Runnable(threads, steps) && Follows(steps, IsCreated)
    ensures Once(Run(threads, steps))
  {
    if steps != [] {
      AlwaysOnce(threads, steps[..|steps| - 1]);
      OnceStep(Run(threads, steps[..|steps| - 1]), steps[|steps| - 1]);
    }
  }

  /** The creator runs at most once and the destructor is registered at most once; every thread that has
      returned has the one pointer in the word, and it is a real one. */
  lemma CreatedOnce(threads: set<nat>, steps: seq<Step>)
    requires Runnable(threads, steps) && Follows(steps, IsCreated)
    ensures var s := Run(threads, steps);
            && s.created <= 1 && s.registered <= s.created
            && forall t | t in threads && s.pcs[t].Done? :: s.pcs[t].result == s.word && IsCreated(s.word) && s.created == 1
  {
    hide Run;
    AlwaysOnce(threads, steps);
    var s := Run(threads, steps);
    if s.word == CREATING {
      var o :| OwnedBy(s, o);
    }
  }

  /** Once published, the word never changes again. */
  lemma {:induction false} PointerIsForever(threads: set<nat>, steps: seq<Step>, n: nat)
    requires Runnable(threads, steps) && Follows(steps, IsCreated) && n <= |steps|
    requires IsCreated(Run(threads, steps[..n]).word)
    ensures Run(threads, steps).word == Run(threads, steps[..n]).word
    decreases |steps|
  {
    if n == |steps| {
      assert steps[..n] == steps;
    } else {
      var before := steps[..|steps| - 1];
      assert before[..n] == steps[..n];
      PointerIsForever(threads, before, n);
      AlwaysOnce(threads, before);
      OncePublished(Run(threads, before), steps[|steps| - 1]);
    }
  }

  /** And a call made from then on returns it in a single step, touching nothing. */
  lemma FastPath(threads: set<nat>, steps: seq<Step>, step: Step)
    requires Runnable(threads, steps) && Runnable(threads, steps + [step]) && step.thread in threads
    requires var s := Run(threads, steps); IsCreated(s.word) && s.pcs[step.thread].Load?
    ensures var s, r := Run(threads, steps), Run(threads, steps + [step]);
            r == s.(pcs := s.pcs[step.thread := Done(s.word)])
  {
    assert (steps + [step])[..|steps|] == steps;
  }

  // ---------------------------------------------------------------------------
  // Every pointer is a creator's
  // ---------------------------------------------------------------------------

  /** A real pointer in the word, or with a thread that has made it, published it or returned it. */
  ghost predicate Around(s: State, v: nat)
  {
    IsCreated(v) &&
    (s.word == v || exists t :: t in s.pcs && (s.pcs[t] == Store(v) || s.pcs[t] == Register(v) || s.pcs[t] == Done(v)))
  }

  /** Step `i` runs the creator, and it returns `v`. */
  ghost predicate Creates(threads: set<nat>, steps: seq<Step>, i: nat, v: nat)
    requires Runnable(threads, steps)
  {
    i < |steps| && Run(threads, steps[..i]).pcs[steps[i].thread].Create? && steps[i].value == v
  }

  lemma AroundBefore(s: State, step: Step, v: nat)
    requires step.thread in s.pcs && Around(Next(s, step), v)
    ensures Around(s, v) || (s.pcs[step.thread].Create? && step.value == v)
  {
    var t, r := step.thread, Next(s, step);
    if u :| u in r.pcs && (r.pcs[u] == Store(v) || r.pcs[u] == Register(v) || r.pcs[u] == Done(v)) {
      assert u in s.pcs && (u != t ==> r.pcs[u] == s.pcs[u]);
    }
  }

  /** Whatever creators return: no real pointer is ever in the word or in anyone's hands that a creator did not
      return. */
  lemma {:induction false} ReturnsWhatWasCreated(threads: set<nat>, steps: seq<Step>, v: nat) returns (i: nat)
    requires Runnable(threads, steps) && Around(Run(threads, steps), v)
    ensures Creates(threads, steps, i, v)
  {
    hide Next, Around;
    var n := |steps| - 1;
    if steps == [] {
      NothingAround(threads, v);
    } else {
      var before := steps[..n];
      AroundBefore(Run(threads, before), steps[n], v);
      if Around(Run(threads, before), v) {
        i := ReturnsWhatWasCreated(threads, before, v);
        assert before[..i] == steps[..i];
      } else {
        i := n;
      }
    }
  }

  lemma NothingAround(threads: set<nat>, v: nat)
    ensures !Around(Begin(threads), v)
  {
  }

  // ---------------------------------------------------------------------------
  // Creators that return null
  // ---------------------------------------------------------------------------

  lemma Extend(threads: set<nat>, steps: seq<Step>, thread: nat) returns (more: seq<Step>)
    requires Runnable(threads, steps) && thread in threads
    requires forall i | 0 <= i < |steps| :: steps[i].value == 0
    ensures Runnable(threads, more) && forall i | 0 <= i < |more| :: more[i].value == 0
    ensures Run(threads, more) == Next(Run(threads, steps), Step(thread, 0))
  {
    more := steps + [Step(thread, 0)];
    assert more[..|more| - 1] == steps;
  }

  /** One thread's creator returns null, and it has returned, while a second waits. */
  lemma NullGoesBack(threads: set<nat>, a: nat, b: nat) returns (steps: seq<Step>)
    requires a in threads && b in threads && a != b
    ensures Runnable(threads, steps) && forall i | 0 <= i < |steps| :: steps[i].value == 0
    ensures var s := Run(threads, steps); s.word == 0 && s.pcs[a] == Done(0) && s.pcs[b] == Spin
  {
    steps := [];
    assert Run(threads, steps) == Begin(threads);
    hide Run;
    steps := Extend(threads, steps, a);
    steps := Extend(threads, steps, b);
    steps := Extend(threads, steps, a);
    steps := Extend(threads, steps, b);
    steps := Extend(threads, steps, a);
    steps := Extend(threads, steps, a);
    steps := Extend(threads, steps, a);
  }

  /** A creator returns null and the word goes back to 0; a thread that was waiting has seen it leave 1,
      but before it reads the word again the other thread calls once more and takes its turn to create.
      The waiting thread returns 1 as its pointer. */
  lemma NullLetsOneEscape(threads: set<nat>, a: nat, b: nat) returns (steps: seq<Step>)
    requires a in threads && b in threads && a != b
    ensures Runnable(threads, steps) && forall i | 0 <= i < |steps| :: steps[i].value == 0
    ensures Run(threads, steps).pcs[b] == Done(CREATING)
  {
    hide Run;
    steps := NullGoesBack(threads, a, b);
    steps := Extend(threads, steps, b);
    steps := Extend(threads, steps, a);
    steps := Extend(threads, steps, a);
    steps := Extend(threads, steps, a);
    steps := Extend(threads, steps, b);
  }

  ghost predicate NobodyGetsOne(s: State)
  {
    forall t | t in s.pcs :: s.pcs[t] != Done(CREATING)
  }

  /** With two threads or more: no run returns 1 to anyone if and only if no creator may return null. */
  lemma SafeIffNeverNull(threads: set<nat>, policy: nat -> bool, a: nat, b: nat)
    requires a in threads && b in threads && a != b && !policy(CREATING)
    ensures (forall steps | Runnable(threads, steps) && Follows(steps, policy) :: NobodyGetsOne(Run(threads, steps)))
            <==> !policy(0)
  {
    if policy(0) {
      var steps := NullLetsOneEscape(threads, a, b);
      assert Follows(steps, policy) && !NobodyGetsOne(Run(threads, steps));
    } else {
      forall steps | Runnable(threads, steps) && Follows(steps, policy) ensures NobodyGetsOne(Run(threads, steps)) {
        CreatedOnce(threads, steps);
      }
    }
  }

  // ---------------------------------------------------------------------------
  // Nobody is ever stuck
  // ---------------------------------------------------------------------------

  /** The steps a thread has left until it returns, spinning aside. */
  function Rank(pc: Pc): (n: nat)
  {
    match pc
    case Load => 5
    case Swap => 4
    case Create => 3
    case Store(_) => 2
    case Spin => 2
    case Register(_) => 1
    case Reload => 1
    case Done(_) => 0
  }

  ghost function Ranks(s: State): map<nat, nat>
  {
    map t | t in s.pcs :: Rank(s.pcs[t])
  }

  ghost function StepsLeft(s: State): nat
  {
    Total(Ranks(s))
  }

  /** Every step that is not a turn of the spin loop brings the end nearer. */
  lemma StepCounts(s: State, step: Step)
    requires step.thread in s.pcs && !s.pcs[step.thread].Done?
    requires !(s.pcs[step.thread].Spin? && s.word == CREATING)
    ensures StepsLeft(Next(s, step)) < StepsLeft(s)
  {
    var t, r := step.thread, Next(s, step);
    assert Rank(r.pcs[t]) < Rank(s.pcs[t]);
    TotalRemove(Ranks(s), t);
    TotalRemove(Ranks(r), t);
    assert Ranks(s) - {t} == Ranks(r) - {t};
  }

  ghost predicate AllDone(s: State)
  {
    forall t | t in s.pcs :: s.pcs[t].Done?
  }

  /** While anyone is left, someone can take a step that counts. */
  lemma SomeoneCanMove(s: State) returns (t: nat)
    requires Exclusive(s) && !AllDone(s)
    ensures t in s.pcs && !s.pcs[t].Done? && !(s.pcs[t].Spin? && s.word == CREATING)
  {
    if s.word == CREATING {
      t :| t in s.pcs && Holds(s.pcs[t]);
    } else {
      t :| t in s.pcs && !s.pcs[t].Done?;
    }
  }

  lemma RunSnoc(threads: set<nat>, steps: seq<Step>, step: Step)
    requires Runnable(threads, steps) && step.thread in threads
    ensures Runnable(threads, steps + [step]) && Run(threads, steps + [step]) == Next(Run(threads, steps), step)
  {
    hide Next;
    assert (steps + [step])[..|steps|] == steps;
  }

  /** From every reachable state all threads can still return. */
  lemma {:induction false} EveryoneCanFinish(threads: set<nat>, steps: seq<Step>, value: nat) returns (more: seq<Step>)
    requires Runnable(threads, steps) && Follows(steps, v => v != CREATING) && value != CREATING
    ensures Runnable(threads, steps + more) && Follows(steps + more, v => v != CREATING)
    ensures AllDone(Run(threads, steps + more)) && |more| <= StepsLeft(Run(threads, steps))
    decreases StepsLeft(Run(threads, steps))
  {
    hide Next, StepsLeft, AllDone, Exclusive, Run;
    var s := Run(threads, steps);
    if AllDone(s) {
      more := [];
      assert steps + [] == steps;
    } else {
      AlwaysExclusive(threads, steps);
      var t := SomeoneCanMove(s);
      var next := steps + [Step(t, value)];
      RunSnoc(threads, steps, Step(t, value));
      StepCounts(s, Step(t, value));
      var rest := EveryoneCanFinish(threads, next, value);
      more := [Step(t, value)] + rest;
      assert steps + more == next + rest;
    }
  }
}
