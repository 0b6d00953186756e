/**
 When updates of a key come to a stop. An update that leaks its lock blocks its key for good,
 and that happens exactly if it reads a text that does not parse, or its callback leaves an
 object that cannot be written out.
*/
module UpdateProgress {
  import opened Mutex
  import opened LockRegistry
  import opened AtomicUpdate
  import opened SerialUpdates

  // ---------- one state ----------

  /** The event takes an update of the key one step further. */
  predicate MovesKey(st: Store, key: string, e: AtomicUpdate.Event)
  {
    (e.Read? || e.Finish?) && AtomicUpdate.Enabled(st, e) && st.updates[e.update].key == key
  }

  predicate LeakedOn(st: Store, key: string)
  {
    exists k :: 0 <= k < |st.updates| && st.updates[k].key == key && st.updates[k].phase == Leaked
  }

  predicate Unfinished(st: Store, i: nat)
  {
    i < |st.updates| && (st.updates[i].phase == Asking || st.updates[i].phase.Running?)
  }

  /** The update that holds the lock another one of the same key asks for. */
  lemma HolderOf(st: Store, db: map<string, Value>, i: nat) returns (h: nat)
    requires StoreInv(st, db) && Unfinished(st, i) && st.locks.calls[i].status != Rejected
    ensures h < |st.updates| && st.updates[h].key == st.updates[i].key && st.locks.calls[h].status == Holding
    ensures Unfinished(st, h) || st.updates[h].phase == Leaked
  {
    var reg := st.locks;
    assert UpdateInv(st, i) && CallInv(reg, i);
    h := i;
    if reg.calls[i].status == Waiting {
      WaitersAreAtCurrent(reg, i);
      assert SlotInv(reg, reg.calls[i].mutex);
      h := reg.slots[reg.calls[i].mutex].holder.value;
    }
    assert CallInv(reg, h) && UpdateInv(st, h);
    SameKey(st.updates[h].key, st.updates[i].key);
  }

  lemma SameKey(a: string, b: string)
    ensures Resource(a) == Resource(b) ==> a == b
  {
    assert Resource(a)[5..] == a && Resource(b)[5..] == b;
  }

  /** In every run, a key with an unfinished update stands still exactly if an update of it has leaked its lock. */
  lemma StuckExactly(db: map<string, Value>, es: seq<AtomicUpdate.Event>, st: Store, i: nat)
    requires AtomicUpdate.Reaches(db, es, st) && Unfinished(st, i)
    requires |st.locks.calls| == |st.updates| && st.locks.calls[i].status != Rejected
    ensures (exists e :: MovesKey(st, st.updates[i].key, e)) <==> !LeakedOn(st, st.updates[i].key)
  {
    AtomicUpdate.ReachableInv(db, es, st);
    var h := HolderOf(st, db, i);
    hide AtomicUpdate.Reaches, Inv;
    if st.updates[h].phase != Leaked {
      assert MovesKey(st, st.updates[i].key, if st.updates[h].phase == Asking then Read(h) else Finish(h));
    }
    forall k | 0 <= k < |st.updates| && k != h && st.locks.calls[k].status == Holding
      ensures st.updates[k].key != st.updates[h].key
    {
      assert UpdateInv(st, h) && UpdateInv(st, k);
      AloneOnKey(st, h, k);
    }
    forall k | 0 <= k < |st.updates| && st.updates[k].phase == Leaked ensures st.locks.calls[k].status == Holding {
      assert UpdateInv(st, k);
    }
  }

  /**
   An update that has leaked its lock was the last to be served: what the finished updates before it
   made of the initial value is a text that does not parse, or its callback leaves what cannot be written.
  */
  lemma LeakHasCause(db: map<string, Value>, es: seq<AtomicUpdate.Event>, st: Store, k: nat)
    requires AtomicUpdate.Reaches(db, es, st) && k < |st.updates| && st.updates[k].phase == Leaked
    ensures st.updates[k].key in db
    ensures var v := InOrderOfCalls(st.updates, st.updates[k].key, db[st.updates[k].key]);
            (v.text != "" && !v.parses) || st.updates[k].callback(v).Unwritable?
  {
    AtomicUpdate.ReachableInv(db, es, st);
    assert UpdateInv(st, k);
    NoUpdateLost(db, es, st, st.updates[k].key);
  }

  // ---------- the rest of a run ----------

  lemma {:induction false} RunsAreDetermined(db: map<string, Value>, es: seq<AtomicUpdate.Event>, a: Store, b: Store)
    requires AtomicUpdate.Reaches(db, es, a) && AtomicUpdate.Reaches(db, es, b)
    ensures a == b
  {
    if es != [] {
      var n := |es| - 1;
      var x: Store :| AtomicUpdate.Reaches(db, es[..n], x) && AtomicUpdate.Next(x, es[n], a);
      var y: Store :| AtomicUpdate.Reaches(db, es[..n], y) && AtomicUpdate.Next(y, es[n], b);
      RunsAreDetermined(db, es[..n], x, y);
    }
  }

  /** Update `k` has leaked the lock of the key of `w`, and `w` is not finished, if it has begun at all. */
  predicate Blocks(st: Store, key: string, k: nat, w: nat)
  {
    && k < |st.updates| && k != w && st.updates[k].phase == Leaked && st.updates[k].key == key
    && (w < |st.updates| && st.updates[w].key == key ==> st.updates[w].phase in {Asking, Failed})
  }

  lemma StepKeepsBlocking(st: Store, e: AtomicUpdate.Event, db: map<string, Value>, key: string, k: nat, w: nat)
    requires StoreInv(st, db) && AtomicUpdate.Enabled(st, e) && Blocks(st, key, k, w)
    ensures Blocks(AtomicUpdate.Step(st, e), key, k, w)
  {
    assert UpdateInv(st, k);
    hide Inv;
    if w < |st.updates| && st.updates[w].key == key && st.locks.calls[w].status == Holding {
      assert UpdateInv(st, w);
      AloneOnKey(st, k, w);
    }
  }

  /**
   A leaked lock is never given back: however the run goes on, an update of that key which is not
   finished yet, or begins later, gets no further than asking, or is refused at shutdown.
  */
  lemma {:induction false} LeakIsForever(db: map<string, Value>, es: seq<AtomicUpdate.Event>, st: Store,
                                         more: seq<AtomicUpdate.Event>, st': Store,
                      key: string, k: nat, w: nat)
    requires AtomicUpdate.Reaches(db, es, st) && AtomicUpdate.Reaches(db, es + more, st') && Blocks(st, key, k, w)
    ensures Blocks(st', key, k, w)
  {
    if more == [] {
      assert es + more == es;
      RunsAreDetermined(db, es, st, st');
    } else {
      var n := |more| - 1;
      assert (es + more)[..|es + more| - 1] == es + more[..n] && (es + more)[|es + more| - 1] == more[n];
      var before: Store :| AtomicUpdate.Reaches(db, es + more[..n], before) && AtomicUpdate.Next(before, more[n], st');
      LeakIsForever(db, es, st, more[..n], before, key, k, w);
      AtomicUpdate.ReachableInv(db, es + more[..n], before);
      hide AtomicUpdate.Reaches, StoreInv, AtomicUpdate.Step;
      StepKeepsBlocking(before, more[n], db, key, k, w);
    }
  }

  // ---------- all runs ----------

  /** Which callbacks the callers use. */
  type Callers = Callback -> bool

  ghost predicate UsesOnly(es: seq<AtomicUpdate.Event>, callers: Callers)
  {
    forall k :: 0 <= k < |es| && es[k].Begin? ==> callers(es[k].callback)
  }

  ghost predicate AllFrom(cs: seq<Callback>, callers: Callers)
  {
    forall k :: 0 <= k < |cs| ==> callers(cs[k])
  }

  function ApplyAll(cs: seq<Callback>, v: Value): Value
  {
    if cs == [] then v else Apply(cs[|cs| - 1], ApplyAll(cs[..|cs| - 1], v))
  }

  /**
   Whatever the callers' callbacks make of the value one after another, the next one can read it and
   write its result.
  */
  ghost predicate Smooth(v: Value, callers: Callers)
  {
    forall cs, c :: AllFrom(cs, callers) && callers(c) ==>
      Readable(ApplyAll(cs, v)) && !c(ApplyAll(cs, v)).Unwritable?
  }

  lemma StepKeepsCallbacks(st: Store, e: AtomicUpdate.Event)
    requires AtomicUpdate.Enabled(st, e) && Sane(st.locks)
    ensures var us := AtomicUpdate.Step(st, e).updates;
            && |us| == |st.updates| + (if e.Begin? then 1 else 0)
            && (forall k :: 0 <= k < |st.updates| ==> us[k].callback == st.updates[k].callback)
            && (e.Begin? ==> us[|st.updates|].callback == e.callback)
  {}

  lemma {:induction false} CallbacksAreCallers(db: map<string, Value>, es: seq<AtomicUpdate.Event>, st: Store,
                                               callers: Callers)
    requires AtomicUpdate.Reaches(db, es, st) && UsesOnly(es, callers)
    ensures forall k :: 0 <= k < |st.updates| ==> callers(st.updates[k].callback)
  {
    if es != [] {
      var n := |es| - 1;
      var before: Store :| AtomicUpdate.Reaches(db, es[..n], before) && AtomicUpdate.Next(before, es[n], st);
      CallbacksAreCallers(db, es[..n], before, callers);
      hide AtomicUpdate.Reaches;
      StepKeepsCallbacks(before, es[n]);
    }
  }

  /** The serial meaning is what some of the callbacks make of the value. */
  lemma {:induction false} SerialIsApplyAll(us: seq<Update>, order: seq<nat>, key: string, v: Value, callers: Callers)
      returns (cs: seq<Callback>)
    requires forall k :: 0 <= k < |us| ==> callers(us[k].callback)
    ensures AllFrom(cs, callers) && Serial(us, order, key, v) == ApplyAll(cs, v)
  {
    if order == [] {
      cs := [];
    } else {
      var i := order[|order| - 1];
      cs := SerialIsApplyAll(us, order[..|order| - 1], key, v, callers);
      if Counts(us, i, key) {
        var front := cs;
        cs := cs + [us[i].callback];
        assert cs[..|cs| - 1] == front;
      }
    }
  }

  lemma SmoothNeverLeaks(db: map<string, Value>, es: seq<AtomicUpdate.Event>, st: Store, callers: Callers, key: string)
    requires AtomicUpdate.Reaches(db, es, st) && UsesOnly(es, callers)
    requires forall x :: x in db ==> Smooth(db[x], callers)
    ensures !LeakedOn(st, key)
  {
    AtomicUpdate.ReachableInv(db, es, st);
    CallbacksAreCallers(db, es, st, callers);
    hide AtomicUpdate.Reaches, Inv;
    forall k | 0 <= k < |st.updates| && st.updates[k].key == key ensures st.updates[k].phase != Leaked {
      assert UpdateInv(st, k);
      if key in db {
        var cs := SerialIsApplyAll(st.updates, st.locks.grants, key, db[key], callers);
        assert Smooth(db[key], callers) && AllFrom(cs, callers) && callers(st.updates[k].callback);
      }
    }
  }

  /** Nothing is locked and nothing was shut down. */
  predicate AtRest(st: Store)
  {
    Sane(st.locks) && |st.locks.calls| == |st.updates| && st.locks.current == map[] && !st.locks.aborted
  }

  lemma OneMoreEvent(db: map<string, Value>, es: seq<AtomicUpdate.Event>, st: Store, e: AtomicUpdate.Event)
    requires AtomicUpdate.Reaches(db, es, st) && AtomicUpdate.Enabled(st, e) && Sane(st.locks)
    ensures AtomicUpdate.Reaches(db, es + [e], AtomicUpdate.Step(st, e)) && Sane(AtomicUpdate.Step(st, e).locks)
  {
    assert (es + [e])[..|es + [e]| - 1] == es;
    assert AtomicUpdate.Next(st, e, AtomicUpdate.Step(st, e));
    AtomicUpdate.ReachableInv(db, es + [e], AtomicUpdate.Step(st, e));
  }

  /** At rest, the first update of a key gets the lock at once. */
  lemma BeginAtRest(st: Store, key: string, c: Callback)
    requires AtRest(st)
    ensures var after := AtomicUpdate.Step(st, Begin(key, c));
            var n, r := |st.updates|, Resource(key);
            && after.db == st.db && after.updates == st.updates + [Update(key, c, Asking)]
            && |after.locks.calls| == n + 1 && after.locks.calls[n].status == Holding &&
                 after.locks.calls[n].resource == r
            && after.locks.calls[n].mutex < |after.locks.slots|
            && after.locks.slots[after.locks.calls[n].mutex].state == MutexState(true, [])
            && after.locks.current.Keys == {r} && !after.locks.aborted
  {}

  /** One update from beginning to end, alone. */
  lemma UpdateAlone(db: map<string, Value>, es: seq<AtomicUpdate.Event>, st: Store, key: string, c: Callback,
                    callers: Callers)
    returns (es': seq<AtomicUpdate.Event>, st': Store)
    requires AtomicUpdate.Reaches(db, es, st) && AtRest(st) && key in st.db && UsesOnly(es, callers) && callers(c)
    ensures AtomicUpdate.Reaches(db, es', st') && UsesOnly(es', callers)
    ensures var v := st.db[key];
            if Readable(v) && !c(v).Unwritable? then AtRest(st') && st'.db == st.db[key := Apply(c, v)]
            else LeakedOn(st', key)
  {
    var n, v := |st.updates|, st.db[key];
    BeginAtRest(st, key, c);
    OneMoreEvent(db, es, st, Begin(key, c));
    es', st' := es + [Begin(key, c)], AtomicUpdate.Step(st, Begin(key, c));
    hide AtomicUpdate.Reaches, Sane, LockCall;
    OneMoreEvent(db, es', st', Read(n));
    es', st' := es' + [Read(n)], AtomicUpdate.Step(st', Read(n));
    if Readable(v) {
      OneMoreEvent(db, es', st', Finish(n));
      es', st' := es' + [Finish(n)], AtomicUpdate.Step(st', Finish(n));
    }
    if !Readable(v) || c(v).Unwritable? { assert st'.updates[n].phase == Leaked; }
  }

  lemma {:induction false} UpdatesAlone(db: map<string, Value>, key: string, cs: seq<Callback>, callers: Callers)
    returns (es: seq<AtomicUpdate.Event>, st: Store)
    requires key in db && AllFrom(cs, callers)
    ensures AtomicUpdate.Reaches(db, es, st) && UsesOnly(es, callers)
    ensures LeakedOn(st, key) || (AtRest(st) && key in st.db && st.db[key] == ApplyAll(cs, db[key]))
  {
    if cs == [] {
      es, st := [], Store(EMPTY, db, []);
    } else {
      es, st := UpdatesAlone(db, key, cs[..|cs| - 1], callers);
      if !LeakedOn(st, key) {
        es, st := UpdateAlone(db, es, st, key, cs[|cs| - 1], callers);
      }
    }
  }

  /**
   No run of these callers ever leaks a lock, exactly if every stored value is smooth under their
   callbacks: readable to begin with and after any of them, and never turned into what cannot be
   written.
  */
  lemma NoRunLeaksExactly(db: map<string, Value>, callers: Callers)
    ensures (forall es, st, key :: AtomicUpdate.Reaches(db, es, st) && UsesOnly(es, callers) ==> !LeakedOn(st, key))
            <==> (forall key :: key in db ==> Smooth(db[key], callers))
  {
    hide AtomicUpdate.Reaches, UsesOnly, LeakedOn;
    if forall key :: key in db ==> Smooth(db[key], callers) {
      forall es, st, key | AtomicUpdate.Reaches(db, es, st) && UsesOnly(es, callers) ensures !LeakedOn(st, key) {
        SmoothNeverLeaks(db, es, st, callers, key);
      }
    } else {
      var key :| key in db && !Smooth(db[key], callers);
      var es, st := SomeRunLeaks(db, key, callers);
    }
  }

  lemma SomeRunLeaks(db: map<string, Value>, key: string, callers: Callers)
      returns (es: seq<AtomicUpdate.Event>, st: Store)
    requires key in db && !Smooth(db[key], callers)
    ensures AtomicUpdate.Reaches(db, es, st) && UsesOnly(es, callers) && LeakedOn(st, key)
  {
    var cs, c :| AllFrom(cs, callers) && callers(c)
      && !(Readable(ApplyAll(cs, db[key])) && !c(ApplyAll(cs, db[key])).Unwritable?);
    es, st := UpdatesAlone(db, key, cs, callers);
    if !LeakedOn(st, key) { es, st := UpdateAlone(db, es, st, key, c, callers); }
  }

  /**
   Where every value is smooth no run gets stuck: while an update is unfinished, some update of its key
   can go on, or it was refused.
  */
  lemma NeverStuck(db: map<string, Value>, es: seq<AtomicUpdate.Event>, st: Store, i: nat, callers: Callers)
    requires AtomicUpdate.Reaches(db, es, st) && UsesOnly(es, callers) && Unfinished(st, i)
    requires forall key :: key in db ==> Smooth(db[key], callers)
    ensures AtomicUpdate.Enabled(st, Fail(i)) || exists e :: MovesKey(st, st.updates[i].key, e)
  {
    AtomicUpdate.ReachableInv(db, es, st);
    SmoothNeverLeaks(db, es, st, callers, st.updates[i].key);
    assert UpdateInv(st, i);
    if st.locks.calls[i].status != Rejected { StuckExactly(db, es, st, i); }
  }

  /** A text that does not parse: the first update of its key keeps the lock, and no later one is ever served. */
  lemma BrokenTextBlocksKey(key: string, first: Callback, second: Callback)
    returns (es: seq<AtomicUpdate.Event>, st: Store)
    ensures var db := map[key := Value("{", false)];
            && AtomicUpdate.Reaches(db, es, st) && es == [Begin(key, first), Read(0), Begin(key, second)]
            && forall more, st' :: AtomicUpdate.Reaches(db, es + more, st') ==> Blocks(st', key, 0, 1)
  {
    var db := map[key := Value("{", false)];
    es, st := [], Store(EMPTY, db, []);
    BeginAtRest(st, key, first);
    OneMoreEvent(db, es, st, Begin(key, first));
    es, st := es + [Begin(key, first)], AtomicUpdate.Step(st, Begin(key, first));
    hide LockCall, Sane, AtomicUpdate.Reaches;
    OneMoreEvent(db, es, st, Read(0));
    es, st := es + [Read(0)], AtomicUpdate.Step(st, Read(0));
    OneMoreEvent(db, es, st, Begin(key, second));
    es, st := es + [Begin(key, second)], AtomicUpdate.Step(st, Begin(key, second));
    assert Blocks(st, key, 0, 1);
    forall more, st' | AtomicUpdate.Reaches(db, es + more, st') ensures Blocks(st', key, 0, 1) {
      LeakIsForever(db, es, st, more, st', key, 0, 1);
    }
  }
}
