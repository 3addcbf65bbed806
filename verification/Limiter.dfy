/** The wide-query limiter: a counter under a mutex and a condition variable, as a machine whose steps
    are the critical sections of any number of threads. */
module Limiter {
  import opened Wrappers

  datatype Thread =
    | Outside
    | Waiting        // parked on the condition variable
    | Notified       // woken, about to take the mutex and test again
    | Holding        // owns a permit

  datatype State = State(limit: nat, active: nat, threads: seq<Thread>)

  datatype Step =
    | Enter(thread: nat)                               // `acquire`: test the counter
    | Resume(thread: nat)                              // the wait returns: test again
    | Spurious(thread: nat)                            // the wait returns without a notification
    | Release(thread: nat, woken: Option<nat>)         // `drop`: give back and notify one waiter

  function New(limit: nat, threads: nat): State {
    State(if limit < 1 then 1 else limit, 0, seq(threads, i => Outside))
  }

  function Count(threads: seq<Thread>, kind: Thread): nat {
    if threads == [] then 0
    else Count(threads[..|threads| - 1], kind) + (if threads[|threads| - 1] == kind then 1 else 0)
  }

  predicate Is(s: State, thread: nat, kind: Thread) {
    thread < |s.threads| && s.threads[thread] == kind
  }

  // Under the mutex: take a permit, or park.
  function Admit(s: State, thread: nat): State
    requires thread < |s.threads|
  {
    if s.active < s.limit then s.(active := s.active + 1, threads := s.threads[thread := Holding])
    else s.(threads := s.threads[thread := Waiting])
  }

  function SaturatingPred(n: nat): nat {
    if n == 0 then 0 else n - 1
  }

  /** A notification wakes one parked thread, whichever, if there is one. */
  ghost predicate Enabled(s: State, step: Step) {
    match step
    case Enter(thread) => Is(s, thread, Outside)
    case Resume(thread) => Is(s, thread, Notified)
    case Spurious(thread) => Is(s, thread, Waiting)
    case Release(thread, woken) =>
      && Is(s, thread, Holding)
      && match woken
         case Some(other) => Is(s, other, Waiting)
         case None => forall other :: !Is(s, other, Waiting)
  }

  function Take(s: State, step: Step): State
    requires Enabled(s, step)
  {
    match step
    case Enter(thread) => Admit(s, thread)
    case Resume(thread) => Admit(s, thread)
    case Spurious(thread) => s.(threads := s.threads[thread := Notified])
    case Release(thread, woken) =>
      var left := s.threads[thread := Outside];
      s.(active := SaturatingPred(s.active), threads := if woken.Some? then left[woken.value := Notified] else left)
  }

  /** The counter is the number of permits and within the limit; and while a thread is parked, the
      permits and the threads on their way to one use the limit up. */
  ghost predicate Safe(s: State) {
    && s.limit > 0
    && s.active == Count(s.threads, Holding) <= s.limit
    && (Count(s.threads, Waiting) > 0 ==> Count(s.threads, Notified) + s.active >= s.limit)
  }

  lemma {:induction false} CountUpdate(threads: seq<Thread>, i: nat, kind: Thread, counted: Thread)
    requires i < |threads|
    ensures Count(threads[i := kind], counted) ==
            Count(threads, counted) - (if threads[i] == counted then 1 else 0) + (if kind == counted then 1 else 0)
  {
    var k := |threads| - 1;
    if i == k {
      assert threads[i := kind][..k] == threads[..k];
    } else {
      assert threads[i := kind][..k] == threads[..k][i := kind];
      CountUpdate(threads[..k], i, kind, counted);
    }
  }

  lemma {:induction false} CountedMember(threads: seq<Thread>, i: nat)
    requires i < |threads|
    ensures Count(threads, threads[i]) > 0
  {
    var k := |threads| - 1;
    if i < k { CountedMember(threads[..k], i); }
  }

  lemma {:induction false} SomeCounted(threads: seq<Thread>, kind: Thread)
    requires Count(threads, kind) > 0
    ensures exists i :: 0 <= i < |threads| && threads[i] == kind
  {
    var k := |threads| - 1;
    if threads[k] != kind {
      SomeCounted(threads[..k], kind);
      var i :| 0 <= i < k && threads[..k][i] == kind;
      assert threads[i] == kind;
    }
  }

  lemma CountAll(threads: seq<Thread>, i: nat, kind: Thread)
    requires i < |threads|
    ensures forall counted ::
              Count(threads[i := kind], counted) ==
              Count(threads, counted) - (if threads[i] == counted then 1 else 0) + (if kind == counted then 1 else 0)
  {
    forall counted { CountUpdate(threads, i, kind, counted); }
  }

  lemma AdmitSafe(s: State, thread: nat)
    requires Safe(s) && (Is(s, thread, Outside) || Is(s, thread, Notified))
    ensures Safe(Admit(s, thread))
  {
    CountAll(s.threads, thread, if s.active < s.limit then Holding else Waiting);
  }

  lemma ReleaseSafe(s: State, thread: nat, woken: Option<nat>)
    requires Safe(s) && Enabled(s, Release(thread, woken))
    ensures Safe(Take(s, Release(thread, woken))) && s.active > 0
  {
    CountedMember(s.threads, thread);
    CountAll(s.threads, thread, Outside);
    if woken.Some? {
      CountAll(s.threads[thread := Outside], woken.value, Notified);
    } else if Count(s.threads, Waiting) > 0 {
      SomeCounted(s.threads, Waiting);
      var other :| 0 <= other < |s.threads| && s.threads[other] == Waiting;
      assert Is(s, other, Waiting);
    }
  }

  /** Every step keeps it, and releasing never subtracts from zero. */
  lemma StepSafe(s: State, step: Step)
    requires Safe(s) && Enabled(s, step)
    ensures Safe(Take(s, step))
    ensures step.Release? ==> s.active > 0
  {
    match step
    case Enter(thread) => AdmitSafe(s, thread);
    case Resume(thread) => AdmitSafe(s, thread);
    case Spurious(thread) => CountAll(s.threads, thread, Notified);
    case Release(thread, woken) => ReleaseSafe(s, thread, woken);
  }

  // ----- every interleaving -----

  ghost predicate Possible(s: State, steps: seq<Step>)
    decreases |steps|
  {
    steps == [] || (Enabled(s, steps[0]) && Possible(Take(s, steps[0]), steps[1..]))
  }

  ghost function After(s: State, steps: seq<Step>): State
    requires Possible(s, steps)
    decreases |steps|
  {
    if steps == [] then s else After(Take(s, steps[0]), steps[1..])
  }

  lemma {:induction false} NobodyYet(threads: nat, kind: Thread)
    requires kind != Outside
    ensures Count(seq(threads, i => Outside), kind) == 0
  {
    if threads > 0 {
      NobodyYet(threads - 1, kind);
      assert seq(threads, i => Outside)[..threads - 1] == seq(threads - 1, i => Outside);
    }
  }

  /** At the start nobody holds a permit or waits for one, and there is at least one permit. */
  lemma StartsFree(limit: nat, threads: nat)
    ensures var s := New(limit, threads);
            && s.active == 0 && s.limit >= 1 && (limit >= 1 ==> s.limit == limit) && (limit == 0 ==> s.limit == 1)
            && |s.threads| == threads && forall thread :: 0 <= thread < threads ==> Is(s, thread, Outside)
  {
  }

  lemma {:induction false} RunSafe(s: State, steps: seq<Step>)
    requires Safe(s) && Possible(s, steps)
    ensures Safe(After(s, steps))
    decreases |steps|
  {
    if steps != [] {
      StepSafe(s, steps[0]);
      RunSafe(Take(s, steps[0]), steps[1..]);
    }
  }

  /** In every interleaving of every number of threads the limit holds and no wake-up is lost. */
  lemma EveryRunIsSafe(limit: nat, threads: nat, steps: seq<Step>)
    requires Possible(New(limit, threads), steps)
    ensures Safe(After(New(limit, threads), steps))
  {
    NobodyYet(threads, Holding);
    NobodyYet(threads, Waiting);
    NobodyYet(threads, Notified);
    RunSafe(New(limit, threads), steps);
  }

  /** Whenever a permit is free and somebody waits for one, a notified thread can take it at once. */
  lemma FreePermitIsTaken(s: State, waiting: nat)
    requires Safe(s) && Is(s, waiting, Waiting) && s.active < s.limit
    ensures exists thread :: Enabled(s, Resume(thread)) && Is(Take(s, Resume(thread)), thread, Holding)
  {
    CountedMember(s.threads, waiting);
    SomeCounted(s.threads, Notified);
    var thread :| 0 <= thread < |s.threads| && s.threads[thread] == Notified;
    assert Enabled(s, Resume(thread));
  }

  /** So nobody waits for ever: as long as somebody waits, a permit will be given back or a notified
      thread can take one. */
  lemma NoDeadlock(s: State, waiting: nat)
    requires Safe(s) && Is(s, waiting, Waiting)
    ensures (exists thread :: Is(s, thread, Holding)) || (exists thread :: Enabled(s, Resume(thread)))
  {
    if s.active < s.limit {
      FreePermitIsTaken(s, waiting);
    } else {
      SomeCounted(s.threads, Holding);
      var thread :| 0 <= thread < |s.threads| && s.threads[thread] == Holding;
      assert Is(s, thread, Holding);
    }
  }

  // ----- the counter itself -----

  /** The critical sections: what `acquire` and `drop` do while they hold the mutex. */
  class WideQueryLimiter {
    var active: nat
    const limit: nat

    constructor (limit: nat)
      ensures active == 0 && this.limit == New(limit, 0).limit
      ensures if limit == 0 then this.limit == 1 else this.limit == limit
    {
      active, this.limit := 0, if limit < 1 then 1 else limit;
    }

    // One turn of the waiting loop: a permit, or the thread parks.
    method Test(ghost s: State, ghost thread: nat) returns (admitted: bool)
      requires thread < |s.threads| && s.active == active && s.limit == limit
      modifies this`active
      ensures active == Admit(s, thread).active
      ensures admitted <==> Is(Admit(s, thread), thread, Holding)
    {
      if active >= limit { return false; }
      active := active + 1;
      return true;
    }

    method Drop(ghost s: State, ghost thread: nat, ghost woken: Option<nat>)
      requires Safe(s) && Enabled(s, Release(thread, woken)) && s.active == active && s.limit == limit
      modifies this`active
      ensures active == Take(s, Release(thread, woken)).active == old(active) - 1
    {
      active := SaturatingPred(active);
      ReleaseSafe(s, thread, woken);
    }
  }
}
