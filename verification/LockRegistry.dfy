/**
 The in-memory lock provider: a mutex is created when a resource is first locked and dropped
 when it is left unlocked. The registry below records every mutex ever created and every call
 ever made, over all interleavings of lock, unlock and destroy.
*/
module LockRegistry {
  import opened Wrappers
  import opened Mutex

  datatype Status = Waiting | Holding | Released | Rejected

  /** One call to lock, and the mutex it went to. */
  datatype Call = Call(resource: string, mutex: nat, status: Status)

  /** A mutex with the call that holds it. */
  datatype Slot = Slot(resource: string, state: MutexState, holder: Option<nat>)

  datatype Registry = Registry(
    current: map<string, nat>,
    slots: seq<Slot>,
    aborted: bool,
    calls: seq<Call>,
    grants: seq<nat>)

  const EMPTY := Registry(map[], [], false, [], [])

  datatype Event = DoLock(resource: string) | DoUnlock(call: nat) | DoDestroy | DoCleanUp(call: nat)

  /** Unlocking happens once for each grant; the cleaning up follows a rejection. */
  predicate Enabled(reg: Registry, e: Event)
  {
    match e
    case DoLock(_) => true
    case DoDestroy => true
    case DoUnlock(id) => id < |reg.calls| && reg.calls[id].status == Holding
    case DoCleanUp(id) => id < |reg.calls| && reg.calls[id].status == Rejected
  }

  /** Indices point at mutexes and calls that exist. */
  predicate Sane(reg: Registry)
  {
    && (forall r :: r in reg.current ==> reg.current[r] < |reg.slots|)
    && (forall id :: 0 <= id < |reg.calls| ==> reg.calls[id].mutex < |reg.slots|)
    && (forall m, p :: 0 <= m < |reg.slots| && p in reg.slots[m].state.pending ==> p < |reg.calls|)
  }

  /** A lock call finds the mutex of its resource, or makes one. */
  function WithMutex(reg: Registry, r: string): (with: Registry)
    requires Sane(reg)
    ensures Sane(with) && r in with.current
  {
    if r in reg.current then reg
    else reg.(current := reg.current[r := |reg.slots|], slots := reg.slots + [Slot(r, FREE, None)])
  }

  function LockCall(reg: Registry, r: string): Registry
    requires Sane(reg)
  {
    var with := WithMutex(reg, r);
    var m, id := with.current[r], |with.calls|;
    var (state, outcome) := Acquire(with.slots[m].state, id, with.aborted);
    var status := match outcome case Granted => Holding case Queued => Waiting case Refused => Rejected;
    with.(slots := with.slots[m := with.slots[m].(state := state,
                                                  holder := if outcome == Granted then Some(id)
                                                            else with.slots[m].holder)],
          calls := with.calls + [Call(r, m, status)],
          grants := if outcome == Granted then with.grants + [id] else with.grants)
  }

  /** The mutex serves its next waiter, or is dropped from the registry when it ends up unlocked. */
  function UnlockCall(reg: Registry, id: nat): (after: Registry)
    requires Sane(reg) && Enabled(reg, DoUnlock(id))
    ensures |after.calls| == |reg.calls| && |after.slots| == |reg.slots|
  {
    var m := reg.calls[id].mutex;
    var (state, next) := Release(reg.slots[m].state);
    var released := reg.(slots := reg.slots[m := reg.slots[m].(state := state, holder := next)],
                         calls := reg.calls[id := reg.calls[id].(status := Released)]);
    match next
    case Some(h) =>
      assert h in reg.slots[m].state.pending;
      released.(calls := released.calls[h := released.calls[h].(status := Holding)], grants := reg.grants + [h])
    case None =>
      released.(current := reg.current - {reg.calls[id].resource})
  }

  function Abandoned(c: Call): Call
  {
    if c.status == Waiting then c.(status := Rejected) else c
  }

  function Destroy(reg: Registry): Registry
  {
    reg.(current := map[],
         aborted := true,
         slots := seq(|reg.slots|, m requires 0 <= m < |reg.slots| =>
                    reg.slots[m].(state := Abort(reg.slots[m].state))),
         calls := seq(|reg.calls|, id requires 0 <= id < |reg.calls| => Abandoned(reg.calls[id])))
  }

  function Step(reg: Registry, e: Event): Registry
    requires Sane(reg) && Enabled(reg, e)
  {
    match e
    case DoLock(r) => LockCall(reg, r)
    case DoUnlock(id) => UnlockCall(reg, id)
    case DoDestroy => Destroy(reg)
    case DoCleanUp(id) => reg.(current := reg.current - {reg.calls[id].resource})
  }

  predicate Next(reg: Registry, e: Event, reg': Registry)
  {
    Sane(reg) && Enabled(reg, e) && reg' == Step(reg, e)
  }

  ghost predicate Reaches(es: seq<Event>, reg: Registry)
  {
    if es == [] then reg == EMPTY
    else
      exists before: Registry {:trigger before.calls} ::
        Reaches(es[..|es| - 1], before) && Next(before, es[|es| - 1], reg)
  }

  // ---------- the invariant ----------

  predicate CallInv(reg: Registry, id: nat)
    requires id < |reg.calls|
  {
    var c := reg.calls[id];
    && c.mutex < |reg.slots|
    && reg.slots[c.mutex].resource == c.resource
    && (c.status == Holding <==> reg.slots[c.mutex].holder == Some(id))
    && (c.status == Waiting <==> id in reg.slots[c.mutex].state.pending)
    && (c.status == Holding || c.status == Released <==> id in reg.grants)
    && (c.status == Rejected ==> reg.aborted)
  }

  predicate SlotInv(reg: Registry, m: nat)
    requires m < |reg.slots|
  {
    var s := reg.slots[m];
    && (s.state.locked <==> s.holder.Some?)
    && (s.holder.Some? ==> s.holder.value < |reg.calls| && reg.calls[s.holder.value].mutex == m)
    && Increasing(s.state.pending)
    && (forall p :: p in s.state.pending ==> p < |reg.calls| && reg.calls[p].mutex == m)
    && (s.state.pending != [] ==> s.state.locked && !reg.aborted)
    && (s.state.locked && !reg.aborted ==> s.resource in reg.current && reg.current[s.resource] == m)
  }

  predicate CurrentInv(reg: Registry)
  {
    forall r :: r in reg.current ==> reg.current[r] < |reg.slots| && reg.slots[reg.current[r]].resource == r
  }

  /** No resource is locked through two mutexes. */
  predicate OneLockedMutex(reg: Registry)
  {
    forall m, n :: 0 <= m < n < |reg.slots| && reg.slots[m].state.locked && reg.slots[n].state.locked ==>
      reg.slots[m].resource != reg.slots[n].resource
  }

  predicate SameResource(reg: Registry, a: nat, b: nat)
  {
    a < |reg.calls| && b < |reg.calls| && reg.calls[a].resource == reg.calls[b].resource
  }

  /**
   Calls for one resource are granted in the order they were made, each after the one before it
   was released, and none is passed over.
  */
  predicate ArrivalOrder(reg: Registry)
  {
    && (forall g :: g in reg.grants ==> g < |reg.calls|)
    && (forall j, k :: 0 <= j < k < |reg.grants| && SameResource(reg, reg.grants[j], reg.grants[k]) ==>
          reg.grants[j] < reg.grants[k])
    && (forall j, k :: 0 <= j < k < |reg.grants| && SameResource(reg, reg.grants[j], reg.grants[k]) ==>
          reg.calls[reg.grants[j]].status == Released)
    && (forall g, w :: g in reg.grants && 0 <= w < |reg.calls| && SameResource(reg, g, w) ==>
          reg.calls[w].status == Waiting ==> g < w)
  }

  predicate Inv(reg: Registry)
  {
    && (forall id :: 0 <= id < |reg.calls| ==> CallInv(reg, id))
    && (forall m :: 0 <= m < |reg.slots| ==> SlotInv(reg, m))
    && CurrentInv(reg) && OneLockedMutex(reg) && ArrivalOrder(reg)
  }

  lemma InvIsSane(reg: Registry)
    requires Inv(reg)
    ensures Sane(reg)
  {
    forall id | 0 <= id < |reg.calls| ensures reg.calls[id].mutex < |reg.slots| { assert CallInv(reg, id); }
    forall m, p | 0 <= m < |reg.slots| && p in reg.slots[m].state.pending
      ensures p < |reg.calls|
    {
      assert SlotInv(reg, m);
    }
  }

  lemma NewMutexKeepsInv(reg: Registry, r: string)
    requires Inv(reg) && Sane(reg)
    ensures Inv(WithMutex(reg, r))
  {
    var with := WithMutex(reg, r);
    QuietKeepsOrder(reg, with);
    hide ArrivalOrder;
    forall id | 0 <= id < |with.calls| ensures CallInv(with, id) { assert CallInv(reg, id); }
    forall m | 0 <= m < |with.slots| ensures SlotInv(with, m) {
      if m < |reg.slots| { assert SlotInv(reg, m); }
    }
  }

  /** A waiting call waits for the mutex that is registered for its resource. */
  lemma WaitersAreAtCurrent(reg: Registry, w: nat)
    requires Inv(reg) && w < |reg.calls| && reg.calls[w].status == Waiting
    ensures var r := reg.calls[w].resource;
            !reg.aborted && r in reg.current && reg.current[r] == reg.calls[w].mutex
            && reg.calls[w].mutex < |reg.slots| && reg.slots[reg.calls[w].mutex].state.locked
  {
    assert CallInv(reg, w);
    assert SlotInv(reg, reg.calls[w].mutex);
  }

  /** If the mutex of a resource is free, its earlier grants are released. */
  lemma GrantedWhileFree(reg: Registry, r: string, g: nat)
    requires Inv(reg) && Sane(reg) && r in reg.current && !reg.aborted
    requires !reg.slots[reg.current[r]].state.locked
    requires g in reg.grants && g < |reg.calls| && reg.calls[g].resource == r
    ensures reg.calls[g].status == Released
  {
    assert CallInv(reg, g);
    assert SlotInv(reg, reg.calls[g].mutex);
  }

  lemma LockKeepsOrder(reg: Registry, r: string)
    requires Inv(reg) && Sane(reg) && r in reg.current
    ensures ArrivalOrder(LockCall(reg, r))
  {
    var after, id := LockCall(reg, r), |reg.calls|;
    forall g, w | g in after.grants && 0 <= w < |after.calls| && SameResource(after, g, w) &&
        after.calls[w].status == Waiting
      ensures g < w
    {
      if w < id {
        WaitersAreAtCurrent(reg, w);
        assert g in reg.grants && SameResource(reg, g, w);
      }
    }
    forall j, k | 0 <= j < k < |after.grants| && SameResource(after, after.grants[j], after.grants[k])
      ensures after.grants[j] < after.grants[k] && after.calls[after.grants[j]].status == Released
    {
      assert after.grants[j] == reg.grants[j] && reg.grants[j] in reg.grants;
      if k < |reg.grants| {
        assert reg.grants[k] in reg.grants;
        assert SameResource(reg, reg.grants[j], reg.grants[k]);
      } else {
        GrantedWhileFree(reg, r, reg.grants[j]);
      }
    }
  }

  lemma LockKeepsSlots(reg: Registry, r: string, k: nat)
    requires Inv(reg) && Sane(reg) && r in reg.current && k < |reg.slots|
    ensures SlotInv(LockCall(reg, r), k)
  {
    assert SlotInv(reg, k);
    if k == reg.current[r] {
      if Acquire(reg.slots[k].state, |reg.calls|, reg.aborted).1 == Queued {
        IncreasingOneMore(reg.slots[k].state.pending, |reg.calls|);
      }
    }
  }

  lemma LockKeepsCalls(reg: Registry, r: string, id: nat)
    requires Inv(reg) && Sane(reg) && r in reg.current && id <= |reg.calls|
    ensures CallInv(LockCall(reg, r), id)
  {
    var m := reg.current[r];
    assert SlotInv(reg, m);
    if id < |reg.calls| {
      assert CallInv(reg, id);
    }
  }

  lemma LockKeepsInv(reg: Registry, r: string)
    requires Inv(reg) && Sane(reg)
    ensures Inv(LockCall(reg, r))
  {
    NewMutexKeepsInv(reg, r);
    var with, after := WithMutex(reg, r), LockCall(reg, r);
    assert LockCall(with, r) == after;
    LockKeepsOrder(with, r);
    forall id | 0 <= id < |after.calls| ensures CallInv(after, id) { LockKeepsCalls(with, r, id); }
    forall k | 0 <= k < |after.slots| ensures SlotInv(after, k) { LockKeepsSlots(with, r, k); }
    LockKeepsUnique(with, r);
  }

  lemma LockKeepsUnique(reg: Registry, r: string)
    requires Inv(reg) && Sane(reg) && r in reg.current
    ensures CurrentInv(LockCall(reg, r)) && OneLockedMutex(LockCall(reg, r))
  {
    var after, m := LockCall(reg, r), reg.current[r];
    forall k | 0 <= k < |reg.slots| && k != m && after.slots[k].state.locked && after.slots[m].state.locked
      ensures after.slots[k].resource != r
    {
      assert SlotInv(reg, k);
    }
  }

  // ---------- unlocking ----------

  lemma UnlockKeepsCalls(reg: Registry, id: nat, k: nat)
    requires Inv(reg) && Sane(reg) && Enabled(reg, DoUnlock(id)) && k < |reg.calls|
    ensures CallInv(UnlockCall(reg, id), k)
  {
    var m := reg.calls[id].mutex;
    assert CallInv(reg, id) && SlotInv(reg, m) && CallInv(reg, k);
    var pending := reg.slots[m].state.pending;
    if pending != [] {
      var h := pending[0];
      assert h in pending;
      assert CallInv(reg, h);
      assert forall p :: p in pending[1..] <==> p in pending && p != h;
    }
  }

  lemma UnlockKeepsSlots(reg: Registry, id: nat, k: nat)
    requires Inv(reg) && Sane(reg) && Enabled(reg, DoUnlock(id)) && k < |reg.slots|
    ensures SlotInv(UnlockCall(reg, id), k)
  {
    var m := reg.calls[id].mutex;
    assert CallInv(reg, id) && SlotInv(reg, m) && SlotInv(reg, k);
    var pending := reg.slots[m].state.pending;
    if pending != [] {
      assert pending[0] in pending;
      assert forall p :: p in pending[1..] ==> p in pending;
    }
  }

  lemma UnlockServesFirst(reg: Registry, id: nat, w: nat)
    requires Inv(reg) && Sane(reg) && Enabled(reg, DoUnlock(id))
    requires reg.slots[reg.calls[id].mutex].state.pending != []
    requires w < |reg.calls| && reg.calls[w].status == Waiting
    ensures var h := reg.slots[reg.calls[id].mutex].state.pending[0];
            && h < |reg.calls| && reg.calls[h].status == Waiting
            && (SameResource(reg, h, w) ==> h <= w)
  {
    var m := reg.calls[id].mutex;
    var h := reg.slots[m].state.pending[0];
    assert SlotInv(reg, m);
    assert h in reg.slots[m].state.pending && CallInv(reg, h);
    if SameResource(reg, h, w) {
      WaitersAreAtCurrent(reg, w);
      WaitersAreAtCurrent(reg, h);
      assert CallInv(reg, w);
      var k :| 0 <= k < |reg.slots[m].state.pending| && reg.slots[m].state.pending[k] == w;
    }
  }

  /** Serving a waiting call keeps the order if it is the first of its resource to wait. */
  lemma ServingKeepsOrder(before: Registry, after: Registry, h: nat)
    requires ArrivalOrder(before) && |after.calls| == |before.calls|
    requires forall k :: 0 <= k < |before.calls| ==>
               after.calls[k].resource == before.calls[k].resource
               && (before.calls[k].status == Released ==> after.calls[k].status == Released)
    requires forall k :: 0 <= k < |before.calls| && after.calls[k].status == Waiting ==>
               before.calls[k].status == Waiting && k != h && (SameResource(before, h, k) ==> h < k)
    requires h < |before.calls| && before.calls[h].status == Waiting
    requires after.grants == before.grants + [h]
    requires forall g :: g in before.grants && SameResource(before, g, h) ==> after.calls[g].status == Released
    ensures ArrivalOrder(after)
  {
    forall g, w | g in after.grants && 0 <= w < |after.calls| && SameResource(after, g, w) &&
        after.calls[w].status == Waiting
      ensures g < w
    {
      assert SameResource(before, g, w);
    }
    forall j, k | 0 <= j < k < |after.grants| && SameResource(after, after.grants[j], after.grants[k])
      ensures after.grants[j] < after.grants[k] && after.calls[after.grants[j]].status == Released
    {
      assert after.grants[j] == before.grants[j] && before.grants[j] in before.grants;
      assert SameResource(before, after.grants[j], after.grants[k]);
    }
  }

  /** Without new waiting calls and new grants the order is kept. */
  lemma QuietKeepsOrder(before: Registry, after: Registry)
    requires ArrivalOrder(before) && |after.calls| == |before.calls| && after.grants == before.grants
    requires forall k :: 0 <= k < |before.calls| ==>
               after.calls[k].resource == before.calls[k].resource
               && (after.calls[k].status == Waiting ==> before.calls[k].status == Waiting)
               && (before.calls[k].status == Released ==> after.calls[k].status == Released)
    ensures ArrivalOrder(after)
  {
    forall g, w | g in after.grants && 0 <= w < |after.calls| && SameResource(after, g, w) &&
        after.calls[w].status == Waiting
      ensures g < w
    {
      assert SameResource(before, g, w);
    }
    forall j, k | 0 <= j < k < |after.grants| && SameResource(after, after.grants[j], after.grants[k])
      ensures after.grants[j] < after.grants[k] && after.calls[after.grants[j]].status == Released
    {
      assert SameResource(before, after.grants[j], after.grants[k]);
    }
  }

  lemma UnlockKeepsOrder(reg: Registry, id: nat)
    requires Inv(reg) && Sane(reg) && Enabled(reg, DoUnlock(id))
    ensures ArrivalOrder(UnlockCall(reg, id))
  {
    var after, pending := UnlockCall(reg, id), reg.slots[reg.calls[id].mutex].state.pending;
    if pending != [] {
      UnlockServesFirst(reg, id, FirstWaiting(reg, id));
      forall k | 0 <= k < |reg.calls| && after.calls[k].status == Waiting
        ensures reg.calls[k].status == Waiting && k != pending[0] &&
                  (SameResource(reg, pending[0], k) ==> pending[0] < k)
      {
        UnlockServesFirst(reg, id, k);
      }
      forall g | g in reg.grants && SameResource(reg, g, pending[0]) ensures after.calls[g].status == Released {
        assert CallInv(reg, g) && CallInv(reg, id) && CallInv(reg, pending[0]);
        assert SlotInv(reg, reg.calls[g].mutex) && SlotInv(reg, reg.calls[id].mutex);
        WaitersAreAtCurrent(reg, pending[0]);
      }
      ServingKeepsOrder(reg, after, pending[0]);
    } else {
      QuietKeepsOrder(reg, after);
    }
  }

  function FirstWaiting(reg: Registry, id: nat): (w: nat)
    requires Inv(reg) && Sane(reg) && Enabled(reg, DoUnlock(id))
    requires reg.slots[reg.calls[id].mutex].state.pending != []
    ensures w < |reg.calls| && reg.calls[w].status == Waiting
    ensures w == reg.slots[reg.calls[id].mutex].state.pending[0]
  {
    var m := reg.calls[id].mutex;
    var h := reg.slots[m].state.pending[0];
    assert SlotInv(reg, m) && h in reg.slots[m].state.pending && CallInv(reg, h);
    h
  }

  lemma UnlockKeepsInv(reg: Registry, id: nat)
    requires Inv(reg) && Sane(reg) && Enabled(reg, DoUnlock(id))
    ensures Inv(UnlockCall(reg, id))
  {
    var after, m := UnlockCall(reg, id), reg.calls[id].mutex;
    assert CallInv(reg, id) && SlotInv(reg, m);
    UnlockKeepsOrder(reg, id);
    forall k | 0 <= k < |after.calls| ensures CallInv(after, k) { UnlockKeepsCalls(reg, id, k); }
    forall k | 0 <= k < |after.slots| ensures SlotInv(after, k) { UnlockKeepsSlots(reg, id, k); }
  }

  // ---------- destroying ----------

  lemma DestroyKeepsInv(reg: Registry)
    requires Inv(reg)
    ensures Inv(Destroy(reg))
  {
    var after := Destroy(reg);
    forall id | 0 <= id < |after.calls| ensures CallInv(after, id) {
      assert CallInv(reg, id);
      assert SlotInv(reg, reg.calls[id].mutex);
    }
    forall m | 0 <= m < |after.slots| ensures SlotInv(after, m) { assert SlotInv(reg, m); }
    QuietKeepsOrder(reg, after);
  }

  lemma CleanUpKeepsInv(reg: Registry, id: nat)
    requires Inv(reg) && Enabled(reg, DoCleanUp(id)) && reg.aborted
    ensures Inv(reg.(current := reg.current - {reg.calls[id].resource}))
  {
    var after := reg.(current := reg.current - {reg.calls[id].resource});
    forall k | 0 <= k < |after.calls| ensures CallInv(after, k) { assert CallInv(reg, k); }
    forall m | 0 <= m < |after.slots| ensures SlotInv(after, m) { assert SlotInv(reg, m); }
    QuietKeepsOrder(reg, after);
  }

  lemma StepKeepsInv(reg: Registry, e: Event)
    requires Inv(reg) && Sane(reg) && Enabled(reg, e)
    ensures Inv(Step(reg, e))
  {
    match e
    case DoLock(r) => LockKeepsInv(reg, r);
    case DoUnlock(id) => UnlockKeepsInv(reg, id);
    case DoDestroy => DestroyKeepsInv(reg);
    case DoCleanUp(id) =>
      assert CallInv(reg, id);
      CleanUpKeepsInv(reg, id);
  }

  lemma {:induction false} ReachableInv(es: seq<Event>, reg: Registry)
    requires Reaches(es, reg)
    ensures Inv(reg) && Sane(reg)
  {
    if es != [] {
      var before: Registry :| Reaches(es[..|es| - 1], before) && Next(before, es[|es| - 1], reg);
      hide Reaches, Step, Inv;
      ReachableInv(es[..|es| - 1], before);
      StepKeepsInv(before, es[|es| - 1]);
    }
    InvIsSane(reg);
  }

  lemma OneHolderNow(reg: Registry, a: nat, b: nat)
    requires Inv(reg) && SameResource(reg, a, b)
    requires reg.calls[a].status == Holding && reg.calls[b].status == Holding
    ensures a == b
  {
    assert CallInv(reg, a) && CallInv(reg, b);
    assert SlotInv(reg, reg.calls[a].mutex) && SlotInv(reg, reg.calls[b].mutex);
  }

  // ---------- what callers can rely on ----------

  /** In every run a resource has at most one holder, across all mutexes ever made for it. */
  lemma OneHolder(es: seq<Event>, reg: Registry, a: nat, b: nat)
    requires Reaches(es, reg) && SameResource(reg, a, b)
    requires reg.calls[a].status == Holding && reg.calls[b].status == Holding
    ensures a == b
  {
    ReachableInv(es, reg);
    OneHolderNow(reg, a, b);
  }

  /** In every run a call waits only while another call holds its resource, and it is not aborted. */
  lemma WaitingHasHolder(es: seq<Event>, reg: Registry, w: nat) returns (holder: nat)
    requires Reaches(es, reg) && w < |reg.calls| && reg.calls[w].status == Waiting
    ensures SameResource(reg, holder, w) && reg.calls[holder].status == Holding && !reg.aborted
  {
    ReachableInv(es, reg);
    hide Reaches;
    WaitersAreAtCurrent(reg, w);
    assert SlotInv(reg, reg.calls[w].mutex);
    holder := reg.slots[reg.calls[w].mutex].holder.value;
    assert CallInv(reg, holder) && CallInv(reg, w);
  }

  /** In every run grants follow the order of the calls, and a granted call leaves no earlier one waiting. */
  lemma GrantsFollowArrival(es: seq<Event>, reg: Registry, j: nat, k: nat)
    requires Reaches(es, reg) && j < k < |reg.grants| && SameResource(reg, reg.grants[j], reg.grants[k])
    ensures reg.grants[j] < reg.grants[k]
    ensures forall w :: 0 <= w < reg.grants[k] && SameResource(reg, w, reg.grants[k]) ==> reg.calls[w].status != Waiting
  {
    ReachableInv(es, reg);
    forall w | 0 <= w < reg.grants[k] && SameResource(reg, w, reg.grants[k]) ensures reg.calls[w].status != Waiting {
      assert SameResource(reg, reg.grants[k], w);
    }
  }

  /**
   What a call is told, in every run: it is refused exactly after a destroy; otherwise it holds the lock
   at once exactly if no other call holds the resource, and waits exactly if one does.
  */
  lemma LockAnswersExactly(es: seq<Event>, reg: Registry, r: string)
    requires Reaches(es, reg) && Sane(reg)
    ensures var after, id := LockCall(reg, r), |reg.calls|;
            && |after.calls| == id + 1 && after.calls[id].resource == r
            && (after.calls[id].status == Rejected <==> reg.aborted)
            && (after.calls[id].status == Holding <==> !reg.aborted && !Held(reg, r))
            && (after.calls[id].status == Waiting <==> !reg.aborted && Held(reg, r))
  {
    ReachableInv(es, reg);
    hide Reaches;
    if h :| 0 <= h < |reg.calls| && reg.calls[h].resource == r && reg.calls[h].status == Holding {
      assert CallInv(reg, h) && SlotInv(reg, reg.calls[h].mutex);
    }
    if r in reg.current && reg.slots[reg.current[r]].state.locked {
      var m := reg.current[r];
      assert SlotInv(reg, m);
      assert CallInv(reg, reg.slots[m].holder.value);
    }
  }

  predicate Held(reg: Registry, r: string)
  {
    exists h :: 0 <= h < |reg.calls| && reg.calls[h].resource == r && reg.calls[h].status == Holding
  }

  /** Until a destroy the dictionary has a mutex for exactly those resources that are held. */
  lemma RegisteredExactly(es: seq<Event>, reg: Registry, r: string)
    requires Reaches(es, reg) && !reg.aborted
    ensures r in reg.current <==> Held(reg, r)
  {
    ReachableInv(es, reg);
    RegisteredAreLocked(es, reg);
    hide Reaches;
    if h :| 0 <= h < |reg.calls| && reg.calls[h].resource == r && reg.calls[h].status == Holding {
      assert CallInv(reg, h) && SlotInv(reg, reg.calls[h].mutex);
    }
    if r in reg.current {
      var m := reg.current[r];
      assert SlotInv(reg, m);
      assert CallInv(reg, reg.slots[m].holder.value);
    }
  }

  predicate AllRegisteredLocked(reg: Registry)
  {
    !reg.aborted ==>
      forall r :: r in reg.current && reg.current[r] < |reg.slots| ==> reg.slots[reg.current[r]].state.locked
  }

  lemma StepKeepsRegistered(reg: Registry, e: Event)
    requires Inv(reg) && Sane(reg) && Enabled(reg, e) && AllRegisteredLocked(reg)
    ensures AllRegisteredLocked(Step(reg, e))
  {
    if e.DoUnlock? {
      assert CallInv(reg, e.call) && SlotInv(reg, reg.calls[e.call].mutex) && CurrentInv(reg);
    }
  }

  lemma {:induction false} RegisteredAreLocked(es: seq<Event>, reg: Registry)
    requires Reaches(es, reg)
    ensures AllRegisteredLocked(reg)
  {
    if es != [] {
      var before: Registry :| Reaches(es[..|es| - 1], before) && Next(before, es[|es| - 1], reg);
      hide Reaches, Step, Inv, AllRegisteredLocked;
      ReachableInv(es[..|es| - 1], before);
      RegisteredAreLocked(es[..|es| - 1], before);
      StepKeepsRegistered(before, es[|es| - 1]);
    }
  }

  /** Destroying rejects every waiter, and nothing is granted or queued from then on. */
  lemma NothingAfterDestroy(es: seq<Event>, reg: Registry, e: Event)
    requires Reaches(es, reg) && reg.aborted && Sane(reg) && Enabled(reg, e)
    ensures forall id :: 0 <= id < |reg.calls| ==> reg.calls[id].status != Waiting
    ensures Step(reg, e).aborted && Step(reg, e).grants == reg.grants
  {
    ReachableInv(es, reg);
    hide Reaches;
    forall id | 0 <= id < |reg.calls| ensures reg.calls[id].status != Waiting {
      if reg.calls[id].status == Waiting { WaitersAreAtCurrent(reg, id); }
    }
    if e.DoUnlock? { assert SlotInv(reg, reg.calls[e.call].mutex); }
  }

  /** How many calls are served before `w`. */
  ghost function Position(reg: Registry, w: nat): nat
    requires w < |reg.calls| && reg.calls[w].mutex < |reg.slots|
    requires w in reg.slots[reg.calls[w].mutex].state.pending
  {
    var pending := reg.slots[reg.calls[w].mutex].state.pending;
    var k :| 0 <= k < |pending| && pending[k] == w;
    k
  }

  /** Each unlock of a resource serves a call that waits for it, or brings it one place forward. */
  lemma UnlockAdvances(es: seq<Event>, reg: Registry, id: nat, w: nat)
    requires Reaches(es, reg) && Sane(reg) && Enabled(reg, DoUnlock(id)) && SameResource(reg, id, w)
    requires reg.calls[w].status == Waiting && w in reg.slots[reg.calls[w].mutex].state.pending
    ensures var after := UnlockCall(reg, id);
            if Position(reg, w) == 0 then after.calls[w].status == Holding
            else
              && after.calls[w].mutex == reg.calls[w].mutex
              && w in after.slots[after.calls[w].mutex].state.pending
              && Position(after, w) == Position(reg, w) - 1
  {
    ReachableInv(es, reg);
    hide Reaches;
    UnlockKeepsInv(reg, id);
    var after, m := UnlockCall(reg, id), reg.calls[w].mutex;
    WaitersAreAtCurrent(reg, w);
    assert CallInv(reg, id) && CallInv(reg, w) && SlotInv(reg, m) && SlotInv(reg, reg.calls[id].mutex);
    assert reg.calls[id].mutex == m;
    var pending, k := reg.slots[m].state.pending, Position(reg, w);
    if k > 0 {
      assert after.slots[m].state.pending == pending[1..] && pending[1..][k - 1] == w;
      assert SlotInv(after, m);
    }
  }
}
