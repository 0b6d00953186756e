/**
 The FIFO mutex with cancellation. A waiter is known by its index; being granted, being
 queued and being refused are the three ways a call to acquire can begin.
*/
module Mutex {
  import opened Wrappers

  datatype MutexState = MutexState(locked: bool, pending: seq<nat>)

  const FREE := MutexState(false, [])

  datatype Outcome = Granted | Queued | Refused

  function Acquire(m: MutexState, waiter: nat, aborted: bool): (MutexState, Outcome)
  {
    if aborted then (m, Refused)
    else if !m.locked then (m.(locked := true), Granted)
    else (m.(pending := m.pending + [waiter]), Queued)
  }

  /** The second component is the waiter that is served next, if there is one. */
  function Release(m: MutexState): (MutexState, Option<nat>)
  {
    if m.pending != [] then (MutexState(true, m.pending[1..]), Some(m.pending[0]))
    else (m.(locked := false), None)
  }

  function Abort(m: MutexState): MutexState
  {
    m.(pending := [])
  }

  predicate Increasing(xs: seq<nat>)
  {
    forall j, k :: 0 <= j < k < |xs| ==> xs[j] < xs[k]
  }

  lemma IncreasingOneMore(xs: seq<nat>, x: nat)
    requires Increasing(xs) && forall p :: p in xs ==> p < x
    ensures Increasing(xs + [x])
  {
    forall j | 0 <= j < |xs| ensures xs[j] < x { assert xs[j] in xs; }
  }

  class Lock {
    var locked: bool
    var pending: seq<nat>
    var index: nat
    ghost var callers: seq<nat>   // who waits, as the provider counts its calls
    ghost const slot: nat         // which mutex it is, as the provider counts them

    /** Waiters queue in the order of their calls, and only behind a holder. */
    ghost predicate Valid()
      reads this
    {
      && Increasing(pending)
      && (forall i :: i in pending ==> i < index)
      && (pending != [] ==> locked)
      && |callers| == |pending|
    }

    function State(): MutexState
      reads this
    {
      MutexState(locked, pending)
    }

    /** The state in terms of the provider's calls. */
    ghost function Callers(): MutexState
      reads this
    {
      MutexState(locked, callers)
    }

    constructor (ghost slot: nat)
      ensures Valid() && State() == Callers() == FREE && this.slot == slot
    {
      this.slot := slot;
      locked := false;
      pending := [];
      index := 0;
      callers := [];
    }

    method Take(aborted: bool, ghost caller: nat) returns (waiter: nat, outcome: Outcome)
      requires Valid()
      modifies this
      ensures Valid()
      ensures waiter == old(index) && index == waiter + 1
      ensures (State(), outcome) == Acquire(old(State()), waiter, aborted)
      ensures (Callers(), outcome) == Acquire(old(Callers()), caller, aborted)
      ensures outcome == Refused <==> aborted
      ensures outcome == Granted <==> !aborted && !old(locked)
      ensures locked == (old(locked) || outcome == Granted)
      ensures pending == if outcome == Queued then old(pending) + [waiter] else old(pending)
    {
      waiter := index;
      index := index + 1;
      if aborted {
        return waiter, Refused;
      }
      if !locked {
        locked := true;
        return waiter, Granted;
      }
      IncreasingOneMore(pending, waiter);
      pending := pending + [waiter];
      callers := callers + [caller];
      outcome := Queued;
    }

    method Give() returns (next: Option<nat>, ghost caller: Option<nat>)
      requires Valid()
      modifies this
      ensures Valid() && index == old(index)
      ensures (State(), next) == Release(old(State()))
      ensures (Callers(), caller) == Release(old(Callers()))
      ensures (next.Some? <==> caller.Some?) && (locked <==> next.Some?)
      ensures old(pending) == if next.Some? then [next.value] + pending else pending
    {
      caller := Release(Callers()).1;
      if |pending| > 0 {
        next := Some(pending[0]);
        assert forall i :: i in pending[1..] ==> i in pending;
        pending := pending[1..];
        callers := callers[1..];
        locked := true;
      } else {
        next := None;
        locked := false;
      }
    }

    /** The abort handlers run in turn; each takes its own waiter out of the queue. */
    method Cancel() returns (refused: seq<nat>)
      requires Valid()
      modifies this
      ensures Valid() && State() == Abort(old(State())) && Callers() == Abort(old(Callers()))
      ensures refused == old(pending)
    {
      var handlers := pending;
      refused := [];
      for k := 0 to |handlers|
        invariant locked == old(locked) && index == old(index)
        invariant pending == handlers[k..] && refused == handlers[..k]
      {
        WithoutFirst(pending);
        pending := Without(pending, handlers[k]);
        refused := refused + [handlers[k]];
      }
      callers := [];
    }
  }

  function Without(xs: seq<nat>, x: nat): seq<nat>
  {
    if xs == [] then []
    else (if xs[0] != x then [xs[0]] else []) + Without(xs[1..], x)
  }

  lemma WithoutFirst(xs: seq<nat>)
    requires xs != [] && Increasing(xs)
    ensures Without(xs, xs[0]) == xs[1..]
  {
    forall k | 0 <= k < |xs[1..]| ensures xs[1..][k] != xs[0] {}
    WithoutAbsent(xs[1..], xs[0]);
  }

  lemma {:induction false} WithoutAbsent(xs: seq<nat>, x: nat)
    requires x !in xs
    ensures Without(xs, x) == xs
  {
    if xs != [] { WithoutAbsent(xs[1..], x); }
  }

  function ReleaseTimes(m: MutexState, n: nat): MutexState
    decreases n
  {
    if n == 0 then m else ReleaseTimes(Release(m).0, n - 1)
  }

  /** The waiter at position k of the queue is the one that release number k serves, and it is locked until then. */
  lemma {:induction false} ServedInTurn(m: MutexState, k: nat)
    requires k < |m.pending| && m.locked
    ensures ReleaseTimes(m, k).locked && Release(ReleaseTimes(m, k)).1 == Some(m.pending[k])
    decreases k
  {
    if k > 0 { ServedInTurn(Release(m).0, k - 1); }
  }
}
