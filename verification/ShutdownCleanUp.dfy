/**
 What a shutdown leaves of the locks: the dictionary of mutexes is emptied, calls that come later make
 new entries there, and each refused update takes its own out again.
*/
module ShutdownCleanUp {
  import opened LockRegistry
  import opened AtomicUpdate

  /** The update was refused its lock, and has not ended yet. */
  predicate Refused(st: Store, i: nat)
  {
    i < |st.updates| && i < |st.locks.calls| && st.locks.calls[i].status == Rejected && st.updates[i].phase == Asking
  }

  predicate RefusedFor(st: Store, r: string)
  {
    exists i :: 0 <= i < |st.updates| && Refused(st, i) && st.locks.calls[i].resource == r
  }

  predicate Accounted(st: Store)
  {
    st.locks.aborted ==> forall r :: r in st.locks.current ==> RefusedFor(st, r)
  }

  lemma StillRefused(st: Store, st': Store)
    requires |st'.updates| >= |st.updates| && st.locks.aborted && Accounted(st)
    requires forall i :: 0 <= i < |st.updates| && Refused(st, i) && st.locks.calls[i].resource in st'.locks.current ==>
               Refused(st', i) && st'.locks.calls[i].resource == st.locks.calls[i].resource
    requires st'.locks.current.Keys <= st.locks.current.Keys
    ensures Accounted(st')
  {
    forall r | r in st'.locks.current ensures RefusedFor(st', r) {
      assert r in st.locks.current && RefusedFor(st, r);
      var i :| 0 <= i < |st.updates| && Refused(st, i) && st.locks.calls[i].resource == r;
      assert Refused(st', i);
    }
  }

  lemma UnlockAfterAbort(reg: Registry, id: nat)
    requires Inv(reg) && Sane(reg) && LockRegistry.Enabled(reg, DoUnlock(id)) && reg.aborted
    ensures var after := UnlockCall(reg, id);
            && after.aborted && after.current.Keys <= reg.current.Keys && |after.calls| == |reg.calls|
            && forall k :: 0 <= k < |reg.calls| && k != id ==> after.calls[k] == reg.calls[k]
  {
    assert CallInv(reg, id) && SlotInv(reg, reg.calls[id].mutex);
  }

  lemma StepKeepsAccounted(st: Store, e: AtomicUpdate.Event)
    requires AtomicUpdate.Enabled(st, e) && Inv(st.locks) && Sane(st.locks) && Accounted(st)
    ensures Accounted(AtomicUpdate.Step(st, e))
  {
    var st' := AtomicUpdate.Step(st, e);
    match e
    case Begin(key, callback) => BeginKeepsAccounted(st, key, callback);
    case Shutdown =>
    case Fail(i) => if st.locks.aborted { StillRefused(st, st'); }
    case _ =>
      if st.locks.aborted {
        UnlockAfterAbort(st.locks, e.update);
        StillRefused(st, st');
      }
  }

  lemma BeginKeepsAccounted(st: Store, key: string, callback: Callback)
    requires AtomicUpdate.Enabled(st, Begin(key, callback)) && Inv(st.locks) && Sane(st.locks) && Accounted(st)
    ensures Accounted(AtomicUpdate.Step(st, Begin(key, callback)))
  {
    var st', n := AtomicUpdate.Step(st, Begin(key, callback)), |st.updates|;
    if st.locks.aborted {
      assert Refused(st', n) && st'.locks.calls[n].resource == Resource(key);
      forall r | r in st'.locks.current ensures RefusedFor(st', r) {
        if r != Resource(key) {
          var i :| 0 <= i < |st.updates| && Refused(st, i) && st.locks.calls[i].resource == r;
          assert Refused(st', i);
        }
      }
    }
  }

  lemma {:induction false} ReachableAccounted(db: map<string, Value>, es: seq<AtomicUpdate.Event>, st: Store)
    requires AtomicUpdate.Reaches(db, es, st)
    ensures Accounted(st)
  {
    if es != [] {
      var before: Store :|
        AtomicUpdate.Reaches(db, es[..|es| - 1], before) && AtomicUpdate.Next(before, es[|es| - 1], st);
      hide AtomicUpdate.Reaches, AtomicUpdate.Step, Accounted, Inv;
      AtomicUpdate.ReachableInv(db, es[..|es| - 1], before);
      ReachableAccounted(db, es[..|es| - 1], before);
      StepKeepsAccounted(before, es[|es| - 1]);
    }
  }

  /** After a shutdown no mutex stays in the dictionary, once every update that was refused has ended. */
  lemma NothingStaysRegistered(db: map<string, Value>, es: seq<AtomicUpdate.Event>, st: Store)
    requires AtomicUpdate.Reaches(db, es, st) && st.locks.aborted
    requires forall i :: 0 <= i < |st.updates| ==> !Refused(st, i)
    ensures st.locks.current == map[]
  {
    ReachableAccounted(db, es, st);
    hide AtomicUpdate.Reaches;
    assert forall r :: !RefusedFor(st, r);
  }
}
