/**
 The in-memory lock provider as an object: a dictionary of mutexes, one for each resource that
 is locked or was locked last. What it does are the steps of a lock registry, so it always mirrors
 one that a run leads to, and what holds in every run of a registry holds for the object.
*/
module LockProvider {
  import opened Wrappers
  import opened Mutex
  import opened LockRegistry

  class MemoryLockProvider {
    var locks: map<string, Lock>
    var aborted: bool
    ghost var registry: Registry
    ghost var mutexes: seq<Lock>  // every mutex ever made, as the registry counts them

    /** The dictionary and its mutexes are what the registry says. */
    ghost predicate Valid()
      reads this, mutexes
    {
      && Inv(registry) && Sane(registry)
      && aborted == registry.aborted
      && |mutexes| == |registry.slots|
      && (forall m :: 0 <= m < |mutexes| ==>
            mutexes[m].slot == m && mutexes[m].Valid() && mutexes[m].Callers() == registry.slots[m].state)
      && locks.Keys == registry.current.Keys
      && (forall r :: r in locks ==> registry.current[r] < |mutexes| && locks[r] == mutexes[registry.current[r]])
    }

    constructor ()
      ensures Valid() && Reachable(registry) && locks == map[] && registry == EMPTY
    {
      assert Reaches([], EMPTY);
      locks := map[];
      aborted := false;
      registry := EMPTY;
      mutexes := [];
    }

    /** The mutex of a resource, which is made when there is none. */
    method MutexOf(resource: string) returns (mutex: Lock)
      requires Valid()
      modifies this
      ensures Valid() && registry == WithMutex(old(registry), resource)
      ensures registry.current[resource] < |mutexes| && mutex == mutexes[registry.current[resource]]
      ensures mutexes == old(mutexes) || (fresh(mutex) && mutexes == old(mutexes) + [mutex])
    {
      hide Inv, Sane, WithMutex, Lock.Valid, Lock.Callers;
      MutexEffect(registry, resource);
      if resource !in locks {
        mutex := new Lock(|mutexes|);
        locks := locks[resource := mutex];
        mutexes := mutexes + [mutex];
        registry := WithMutex(registry, resource);
      }
      mutex := locks[resource];
    }

    /** The synchronous part of a lock call; a queued call is served by a later unlock. */
    method LockResource(resource: string) returns (mutex: Lock, waiter: nat, outcome: Outcome, ghost call: nat)
      requires Valid() && Reachable(registry)
      modifies this, mutexes
      ensures Valid() && Reachable(registry)
      ensures mutexes == old(mutexes) || (fresh(mutex) && mutexes == old(mutexes) + [mutex])
      ensures call == |old(registry).calls| && registry == LockCall(old(registry), resource)
      ensures CallTo(registry, call, resource, mutexes, mutex)
      ensures registry.calls[call].status == StatusOf(outcome)
    {
      hide Inv, Sane, LockCall, WithMutex, Reachable;
      MutexFirst(registry, resource);
      LockReaches(registry, resource);
      mutex := MutexOf(resource);
      waiter, outcome, call := Enter(resource, mutex);
    }

    /** The call to the mutex that is registered for the resource. */
    method Enter(resource: string, mutex: Lock) returns (waiter: nat, outcome: Outcome, ghost call: nat)
      requires Valid() && resource in registry.current && registry.current[resource] < |mutexes|
      requires mutex == mutexes[registry.current[resource]]
      modifies this, mutex
      ensures Valid() && mutexes == old(mutexes)
      ensures call == |old(registry).calls| && registry == LockCall(old(registry), resource)
      ensures CallTo(registry, call, resource, mutexes, mutex)
      ensures registry.calls[call].status == StatusOf(outcome)
    {
      hide Inv, Sane, Lock.Valid, Lock.Callers, Acquire, Release, LockCall;
      LockEffect(registry, resource);
      call := |registry.calls|;
      waiter, outcome := mutex.Take(aborted, call);
      registry := LockCall(registry, resource);
    }

    /** The unlock of one grant: the mutex goes to its next waiter, or leaves the dictionary. */
    method Unlock(resource: string, mutex: Lock, ghost call: nat) returns (next: Option<nat>)
      requires Valid() && Reachable(registry)
      requires Enabled(registry, DoUnlock(call)) && CallTo(registry, call, resource, mutexes, mutex)
      modifies this, mutex
      ensures Valid() && Reachable(registry) && mutexes == old(mutexes)
      ensures registry == UnlockCall(old(registry), call)
      ensures next.Some? <==> mutex.locked
    {
      hide Inv, Sane, Lock.Valid, Lock.Callers, Acquire, Release, UnlockCall, Reachable;
      UnlockReaches(registry, call);
      UnlockEffect(registry, call);
      assert mutex == mutexes[registry.calls[call].mutex] && registry.calls[call].resource == resource;
      hide CallTo, Enabled;
      ghost var caller;
      next, caller := mutex.Give();
      if !mutex.locked {
        locks := locks - {resource};
      }
      registry := UnlockCall(registry, call);
    }

    /** The clean-up after a rejected call. */
    method CleanUp(resource: string, ghost call: nat)
      requires Valid() && Reachable(registry)
      requires Enabled(registry, DoCleanUp(call)) && registry.calls[call].resource == resource
      modifies this
      ensures Valid() && Reachable(registry) && mutexes == old(mutexes)
      ensures registry == LockRegistry.Step(old(registry), DoCleanUp(call))
    {
      hide Inv, Sane, LockRegistry.Step, Lock.Valid, Lock.Callers, Reachable;
      ReachesOn(registry, DoCleanUp(call));
      CleanUpEffect(registry, call);
      locks := locks - {resource};
      registry := LockRegistry.Step(registry, DoCleanUp(call));
    }

    /** Aborting rejects every waiter of every mutex and empties the dictionary. */
    method Destroy()
      requires Valid() && Reachable(registry)
      modifies this, mutexes
      ensures Valid() && Reachable(registry) && mutexes == old(mutexes)
      ensures registry == LockRegistry.Destroy(old(registry)) && locks == map[]
    {
      hide Inv, Sane, Lock.Valid, Lock.Callers, Acquire, Release, LockRegistry.Destroy, Reachable;
      DestroyReaches(registry);
      DestroyEffect(registry);
      var waiting := locks;
      aborted := true;
      locks := map[];
      var todo := waiting.Keys;
      ghost var before := registry;
      while todo != {}
        invariant todo <= waiting.Keys && mutexes == old(mutexes) && registry == before
        invariant locks == map[] && aborted
        invariant forall m :: 0 <= m < |mutexes| ==>
                    mutexes[m].Valid() && mutexes[m].Callers() == PartlyAborted(before, todo, m)
      {
        hide PartlyAborted;
        var r :| r in todo;
        assert waiting[r] == mutexes[before.current[r]];
        OneMoreAborted(before, todo, r);
        var _ := waiting[r].Cancel();
        todo := todo - {r};
      }
      registry := LockRegistry.Destroy(registry);
    }
  }

  /** Every resource of the object has at most one holder, across all mutexes it ever made. */
  lemma OneHolderOfObject(provider: MemoryLockProvider, a: nat, b: nat)
    requires provider.Valid() && Reachable(provider.registry) && SameResource(provider.registry, a, b)
    requires provider.registry.calls[a].status == provider.registry.calls[b].status == Holding
    ensures a == b
  {
    var es :| Reaches(es, provider.registry);
    OneHolder(es, provider.registry, a, b);
  }

  /** The object grants each resource in the order of the calls, and passes nobody over. */
  lemma GrantsOfObjectFollowArrival(provider: MemoryLockProvider, j: nat, k: nat)
    requires provider.Valid() && Reachable(provider.registry) && j < k < |provider.registry.grants|
    requires SameResource(provider.registry, provider.registry.grants[j], provider.registry.grants[k])
    ensures var reg := provider.registry;
            && reg.grants[j] < reg.grants[k]
            && forall w :: 0 <= w < reg.grants[k] && SameResource(reg, w, reg.grants[k]) ==>
                 reg.calls[w].status != Waiting
  {
    var es :| Reaches(es, provider.registry);
    GrantsFollowArrival(es, provider.registry, j, k);
  }

  ghost predicate Reachable(reg: Registry)
  {
    exists es :: Reaches(es, reg)
  }

  lemma ReachesOn(reg: Registry, e: Event)
    requires Reachable(reg) && Sane(reg) && Enabled(reg, e)
    ensures Reachable(LockRegistry.Step(reg, e))
  {
    var es :| Reaches(es, reg);
    var es', after := es + [e], LockRegistry.Step(reg, e);
    assert es'[..|es'| - 1] == es && es'[|es'| - 1] == e;
    hide LockRegistry.Step;
    assert Reaches(es'[..|es'| - 1], reg) && Next(reg, es'[|es'| - 1], after);
    assert Reaches(es', after);
  }

  lemma LockReaches(reg: Registry, r: string)
    requires Reachable(reg) && Sane(reg)
    ensures Reachable(LockCall(reg, r))
  {
    ReachesOn(reg, DoLock(r));
  }

  lemma UnlockReaches(reg: Registry, id: nat)
    requires Reachable(reg) && Sane(reg) && Enabled(reg, DoUnlock(id))
    ensures Reachable(UnlockCall(reg, id))
  {
    ReachesOn(reg, DoUnlock(id));
  }

  lemma DestroyReaches(reg: Registry)
    requires Reachable(reg) && Sane(reg)
    ensures Reachable(LockRegistry.Destroy(reg))
  {
    ReachesOn(reg, DoDestroy);
  }

  function StatusOf(outcome: Outcome): Status
  {
    match outcome case Granted => Holding case Queued => Waiting case Refused => Rejected
  }

  /** The call went to the mutex, for the resource. */
  ghost predicate CallTo(reg: Registry, call: nat, resource: string, mutexes: seq<Lock>, mutex: Lock)
  {
    && call < |reg.calls| && reg.calls[call].resource == resource
    && reg.calls[call].mutex < |mutexes| && mutexes[reg.calls[call].mutex] == mutex
  }

  lemma MutexFirst(reg: Registry, r: string)
    requires Inv(reg) && Sane(reg)
    ensures LockCall(WithMutex(reg, r), r) == LockCall(reg, r) && WithMutex(reg, r).calls == reg.calls
  {}

  /** What one lock call changes in the registry, once the resource has a mutex. */
  lemma LockEffect(reg: Registry, r: string)
    requires Inv(reg) && Sane(reg) && r in reg.current
    ensures var after, m, id := LockCall(reg, r), reg.current[r], |reg.calls|;
            && Inv(after) && Sane(after) && after.aborted == reg.aborted && after.current == reg.current
            && |after.slots| == |reg.slots|
            && |after.calls| == id + 1 && after.calls[id].mutex == m && after.calls[id].resource == r
            && (forall k :: 0 <= k < |reg.slots| && k != m ==> after.slots[k].state == reg.slots[k].state)
            && var (state, outcome) := Acquire(reg.slots[m].state, id, reg.aborted);
               after.slots[m].state == state && after.calls[id].status == StatusOf(outcome)
  {
    LockKeepsInv(reg, r);
    InvIsSane(LockCall(reg, r));
    hide Inv, Sane;
  }

  lemma MutexEffect(reg: Registry, r: string)
    requires Inv(reg) && Sane(reg)
    ensures var with := WithMutex(reg, r);
            && Inv(with) && Sane(with) && with.aborted == reg.aborted
            && (if r in reg.current then with == reg
                else
                  && with.current == reg.current[r := |reg.slots|] && |with.slots| == |reg.slots| + 1
                  && (forall k :: 0 <= k < |reg.slots| ==> with.slots[k].state == reg.slots[k].state)
                  && with.slots[|reg.slots|].state == FREE)
  {
    NewMutexKeepsInv(reg, r);
  }

  lemma CleanUpEffect(reg: Registry, id: nat)
    requires Inv(reg) && Sane(reg) && Enabled(reg, DoCleanUp(id))
    ensures var after := LockRegistry.Step(reg, DoCleanUp(id));
            && Inv(after) && Sane(after) && after.aborted == reg.aborted && after.slots == reg.slots
            && after.current == reg.current - {reg.calls[id].resource}
  {
    LockRegistry.StepKeepsInv(reg, DoCleanUp(id));
    InvIsSane(LockRegistry.Step(reg, DoCleanUp(id)));
  }

  lemma UnlockEffect(reg: Registry, id: nat)
    requires Inv(reg) && Sane(reg) && Enabled(reg, DoUnlock(id))
    ensures var after, m := UnlockCall(reg, id), reg.calls[id].mutex;
            && Inv(after) && Sane(after) && after.aborted == reg.aborted
            && |after.slots| == |reg.slots| && m < |reg.slots|
            && (forall k :: 0 <= k < |reg.slots| && k != m ==> after.slots[k].state == reg.slots[k].state)
            && var (state, next) := Release(reg.slots[m].state);
               && after.slots[m].state == state
               && after.current == if next.Some? then reg.current else reg.current - {reg.calls[id].resource}
  {
    UnlockKeepsInv(reg, id);
    InvIsSane(UnlockCall(reg, id));
    hide Inv, Sane;
  }

  lemma DestroyEffect(reg: Registry)
    requires Inv(reg) && Sane(reg)
    ensures var after := LockRegistry.Destroy(reg);
            && Inv(after) && Sane(after) && after.aborted && after.current == map[] && |after.slots| == |reg.slots|
            && forall m :: 0 <= m < |reg.slots| ==> after.slots[m].state == PartlyAborted(reg, {}, m)
    ensures forall m :: 0 <= m < |reg.slots| ==> PartlyAborted(reg, reg.current.Keys, m) == reg.slots[m].state
  {
    DestroyKeepsInv(reg);
    InvIsSane(LockRegistry.Destroy(reg));
    forall m | 0 <= m < |reg.slots| ensures PartlyAborted(reg, reg.current.Keys, m) == reg.slots[m].state {
      assert SlotInv(reg, m);
    }
  }

  /** The state of a mutex while those of the resources in `todo` are not aborted yet. */
  ghost function PartlyAborted(reg: Registry, todo: set<string>, m: nat): MutexState
    requires m < |reg.slots| && todo <= reg.current.Keys
  {
    if exists r :: r in todo && reg.current[r] == m then reg.slots[m].state else Mutex.Abort(reg.slots[m].state)
  }

  lemma OneMoreAborted(reg: Registry, todo: set<string>, r: string)
    requires Inv(reg) && Sane(reg) && r in todo && todo <= reg.current.Keys
    ensures forall m :: 0 <= m < |reg.slots| ==>
              PartlyAborted(reg, todo - {r}, m) ==
              if m == reg.current[r] then Mutex.Abort(PartlyAborted(reg, todo, m)) else PartlyAborted(reg, todo, m)
  {
    forall q | q in reg.current && reg.current[q] == reg.current[r] ensures q == r { assert CurrentInv(reg); }
  }
}
