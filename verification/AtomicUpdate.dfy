/**
 Read-modify-write under the lock of a key: any number of storage updates, interleaved at
 every point where the program waits. The stored value is always the callbacks of the finished
 updates applied one after another in the order the lock was granted. An update that fails while
 it parses what it read, or while it writes out its result, ends without giving the lock back.
*/
module AtomicUpdate {
  import opened Wrappers
  import opened LockRegistry

  /** A stored text, and whether the parser accepts it. */
  datatype Value = Value(text: string, parses: bool)

  /** An empty text is not parsed: the callback gets a new object. */
  predicate Readable(v: Value)
  {
    v.text == "" || v.parses
  }

  /** What a callback makes of a stored value: nothing when it returns false or throws. */
  datatype Answer = Nothing | NewValue(value: Value) | Unwritable

  type Callback = Value -> Answer

  datatype Phase =
    | Asking                      // the lock is not granted, or the value not read yet
    | Running(snapshot: Value)    // the callback works on what was read
    | Done
    | Failed                      // the lock was refused
    | Leaked                      // ended with the lock still held

  datatype Update = Update(key: string, callback: Callback, phase: Phase)

  /** Update number i makes lock call number i. */
  datatype Store = Store(locks: Registry, db: map<string, Value>, updates: seq<Update>)

  datatype Event =
    | Begin(key: string, callback: Callback)
    | Read(update: nat)
    | Finish(update: nat)
    | Fail(update: nat)
    | Shutdown

  function Resource(key: string): string
  {
    "lock:" + key
  }

  predicate Enabled(st: Store, e: Event)
  {
    && |st.locks.calls| == |st.updates|
    && match e
       case Begin(_, _) => true
       case Shutdown => true
       case Read(i) => i < |st.updates| && st.updates[i].phase == Asking && st.locks.calls[i].status == Holding
       case Finish(i) => i < |st.updates| && st.updates[i].phase.Running? && st.locks.calls[i].status == Holding
       case Fail(i) => i < |st.updates| && st.updates[i].phase == Asking && st.locks.calls[i].status == Rejected
  }

  function WithPhase(st: Store, i: nat, phase: Phase): seq<Update>
    requires i < |st.updates|
  {
    st.updates[i := st.updates[i].(phase := phase)]
  }

  /** The update goes into another phase, and nothing else changes. */
  function Moved(st: Store, i: nat, next: Phase): Store
    requires i < |st.updates|
  {
    st.(updates := WithPhase(st, i, next))
  }

  /** What a holder leaves behind: it unlocks, and `value`, if there is one, is stored. */
  function Left(st: Store, i: nat, value: Option<Value>): Store
    requires Sane(st.locks) && i < |st.updates| && LockRegistry.Enabled(st.locks, DoUnlock(i))
  {
    Store(UnlockCall(st.locks, i),
          if value.Some? then st.db[st.updates[i].key := value.value] else st.db,
          WithPhase(st, i, Done))
  }

  function Step(st: Store, e: Event): Store
    requires Enabled(st, e) && Sane(st.locks)
  {
    match e
    case Begin(key, callback) =>
      st.(locks := LockCall(st.locks, Resource(key)), updates := st.updates + [Update(key, callback, Asking)])
    case Shutdown =>
      st.(locks := Destroy(st.locks))
    case Read(i) =>
      var key := st.updates[i].key;
      if key !in st.db then Left(st, i, None)
      else Moved(st, i, if Readable(st.db[key]) then Running(st.db[key]) else Leaked)
    case Finish(i) =>
      var answer := st.updates[i].callback(st.updates[i].phase.snapshot);
      if answer.Unwritable? then Moved(st, i, Leaked)
      else Left(st, i, if answer.NewValue? then Some(answer.value) else None)
    case Fail(i) =>
      st.(locks := LockRegistry.Step(st.locks, DoCleanUp(i)), updates := WithPhase(st, i, Failed))
  }

  ghost predicate Next(st: Store, e: Event, st': Store)
  {
    Enabled(st, e) && Sane(st.locks) && st' == Step(st, e)
  }

  ghost predicate Reaches(db: map<string, Value>, es: seq<Event>, st: Store)
  {
    if es == [] then st == Store(EMPTY, db, [])
    else
      exists before: Store {:trigger before.updates} ::
        Reaches(db, es[..|es| - 1], before) && Next(before, es[|es| - 1], st)
  }

  // ---------- the serial meaning ----------

  function Apply(callback: Callback, v: Value): Value
  {
    match callback(v) case NewValue(w) => w case _ => v
  }

  /** The callbacks of the finished updates of `key`, applied in the order of `order`. */
  function Serial(updates: seq<Update>, order: seq<nat>, key: string, v: Value): Value
  {
    if order == [] then v
    else
      var before, i := Serial(updates, order[..|order| - 1], key, v), order[|order| - 1];
      if i < |updates| && updates[i].key == key && updates[i].phase == Done
      then Apply(updates[i].callback, before) else before
  }

  // ---------- the invariant ----------

  predicate UpdateInv(st: Store, i: nat)
    requires i < |st.updates| && |st.locks.calls| == |st.updates|
  {
    var u, c := st.updates[i], st.locks.calls[i];
    && c.resource == Resource(u.key)
    && (u.phase == Done <==> c.status == Released)
    && (u.phase == Failed ==> c.status == Rejected)
    && (c.status == Waiting ==> u.phase == Asking)
    && (u.phase.Running? ==> c.status == Holding && u.key in st.db && st.db[u.key] == u.phase.snapshot
                             && Readable(u.phase.snapshot))
    && (u.phase.Leaked? ==> c.status == Holding && u.key in st.db
                            && (!Readable(st.db[u.key]) || u.callback(st.db[u.key]).Unwritable?))
  }

  predicate StoreInv(st: Store, db: map<string, Value>)
  {
    && Inv(st.locks) && Sane(st.locks)
    && |st.locks.calls| == |st.updates|
    && (forall i :: 0 <= i < |st.updates| ==> UpdateInv(st, i))
    && db.Keys == st.db.Keys
    && (forall key :: key in db ==> st.db[key] == Serial(st.updates, st.locks.grants, key, db[key]))
  }

  lemma {:induction false} SerialAppend(us: seq<Update>, xs: seq<nat>, ys: seq<nat>, key: string, v: Value)
    ensures Serial(us, xs + ys, key, v) == Serial(us, ys, key, Serial(us, xs, key, v))
  {
    if ys == [] {
      assert xs + ys == xs;
    } else {
      assert (xs + ys)[..|xs + ys| - 1] == xs + ys[..|ys| - 1];
      SerialAppend(us, xs, ys[..|ys| - 1], key, v);
    }
  }

  /** Update `i` counts for `key`. */
  predicate Counts(us: seq<Update>, i: nat, key: string)
  {
    i < |us| && us[i].key == key && us[i].phase == Done
  }

  /** The meaning of an order only depends on the finished updates of the key in it. */
  lemma {:induction false} SerialFrame(us: seq<Update>, vs: seq<Update>, order: seq<nat>, key: string, v: Value)
    requires forall i :: i in order ==>
               (Counts(us, i, key) <==> Counts(vs, i, key))
               && (Counts(us, i, key) ==> vs[i].callback == us[i].callback)
    ensures Serial(us, order, key, v) == Serial(vs, order, key, v)
  {
    if order != [] {
      assert order == order[..|order| - 1] + [order[|order| - 1]];
      SerialFrame(us, vs, order[..|order| - 1], key, v);
    }
  }

  lemma {:induction false} SerialOfNothing(us: seq<Update>, order: seq<nat>, key: string, v: Value)
    requires forall k :: 0 <= k < |order| ==> !Counts(us, order[k], key)
    ensures Serial(us, order, key, v) == v
  {
    if order != [] {
      SerialOfNothing(us, order[..|order| - 1], key, v);
    }
  }

  /** What a step of the registry does to the list of grants. */
  predicate GrantsGrow(before: seq<nat>, after: seq<nat>, us: seq<Update>)
  {
    after == before || (|after| == |before| + 1 && after[..|before|] == before
                        && !(after[|before|] < |us| && us[after[|before|]].phase == Done))
  }

  lemma SerialGrows(us: seq<Update>, before: seq<nat>, after: seq<nat>, key: string, v: Value)
    requires GrantsGrow(before, after, us)
    ensures Serial(us, after, key, v) == Serial(us, before, key, v)
  {}

  /** What is granted after a holder is granted for another key. */
  lemma LaterIsOther(st: Store, p: nat, q: nat)
    requires Inv(st.locks) && |st.locks.calls| == |st.updates| && p < q < |st.locks.grants|
    requires forall k :: 0 <= k < |st.updates| ==> UpdateInv(st, k)
    requires st.locks.grants[p] < |st.updates| && st.locks.calls[st.locks.grants[p]].status == Holding
    ensures st.locks.grants[q] < |st.updates| &&
              st.updates[st.locks.grants[q]].key != st.updates[st.locks.grants[p]].key
  {
    var reg := st.locks;
    var i, g := reg.grants[p], reg.grants[q];
    assert g in reg.grants;
    assert UpdateInv(st, i) && UpdateInv(st, g);
    if st.updates[g].key == st.updates[i].key {
      assert reg.calls[g].resource == reg.calls[i].resource;
      assert SameResource(reg, reg.grants[p], reg.grants[q]);
    }
  }

  /** The holder's grant is the last one of its key. */
  lemma HolderIsLast(st: Store, i: nat) returns (p: nat)
    requires Inv(st.locks) && Sane(st.locks) && |st.locks.calls| == |st.updates|
    requires forall k :: 0 <= k < |st.updates| ==> UpdateInv(st, k)
    requires i < |st.updates| && st.locks.calls[i].status == Holding
    ensures p < |st.locks.grants| && st.locks.grants[p] == i
    ensures i !in st.locks.grants[..p]
    ensures forall q :: p < q < |st.locks.grants| ==>
              st.locks.grants[q] != i && !Counts(st.updates, st.locks.grants[q], st.updates[i].key)
  {
    var reg := st.locks;
    assert CallInv(reg, i);
    p :| 0 <= p < |reg.grants| && reg.grants[p] == i;
    forall q | 0 <= q < p ensures reg.grants[..p][q] != i {
      assert reg.grants[q] == i ==> SameResource(reg, reg.grants[q], reg.grants[p]);
    }
    forall q | p < q < |reg.grants| ensures !Counts(st.updates, reg.grants[q], st.updates[i].key) {
      LaterIsOther(st, p, q);
    }
  }

  /** The meaning of an order up to the last place that counts. */
  lemma SerialAround(us: seq<Update>, order: seq<nat>, p: nat, key: string, v: Value)
    requires p < |order| && forall q :: p < q < |order| ==> !Counts(us, order[q], key)
    ensures var before := Serial(us, order[..p], key, v);
            Serial(us, order, key, v) ==
                if Counts(us, order[p], key) then Apply(us[order[p]].callback, before) else before
  {
    var front, tail := order[..p + 1], order[p + 1..];
    assert order == front + tail && front[..p] == order[..p];
    SerialAppend(us, front, tail, key, v);
    SerialOfNothing(us, tail, key, Serial(us, front, key, v));
  }

  /** Finishing the holder of a key appends its callback to the meaning of that key, and only there. */
  lemma FinishAppends(st: Store, i: nat, key: string, v: Value)
    requires Inv(st.locks) && Sane(st.locks) && |st.locks.calls| == |st.updates|
    requires forall k :: 0 <= k < |st.updates| ==> UpdateInv(st, k)
    requires i < |st.updates| && st.locks.calls[i].status == Holding
    ensures var before := Serial(st.updates, st.locks.grants, key, v);
            Serial(WithPhase(st, i, Done), st.locks.grants, key, v) ==
            if key == st.updates[i].key then Apply(st.updates[i].callback, before) else before
  {
    var us, vs, grants := st.updates, WithPhase(st, i, Done), st.locks.grants;
    assert UpdateInv(st, i);
    var p := HolderIsLast(st, i);
    hide Inv, Sane, UpdateInv;
    if key == us[i].key {
      SerialAround(us, grants, p, key, v);
      SerialAround(vs, grants, p, key, v);
      SerialFrame(us, vs, grants[..p], key, v);
    } else {
      SerialFrame(us, vs, grants, key, v);
    }
  }

  // ---------- the steps ----------

  lemma UnlockGrows(st: Store, i: nat, vs: seq<Update>)
    requires Inv(st.locks) && Sane(st.locks) && |st.locks.calls| == |st.updates| == |vs|
    requires forall k :: 0 <= k < |st.updates| ==> UpdateInv(st, k)
    requires i < |st.updates| && st.locks.calls[i].status == Holding && vs == WithPhase(st, i, Done)
    ensures var after := UnlockCall(st.locks, i);
            && GrantsGrow(st.locks.grants, after.grants, vs)
            && (forall k :: 0 <= k < |st.updates| ==>
                  after.calls[k].resource == st.locks.calls[k].resource
                  && (k != i ==> after.calls[k].status == st.locks.calls[k].status
                                 || (st.locks.calls[k].status == Waiting && after.calls[k].status == Holding)))
            && after.calls[i].status == Released
  {
    var m := st.locks.calls[i].mutex;
    var pending := st.locks.slots[m].state.pending;
    if pending != [] {
      var h := FirstWaiting(st.locks, i);
      assert UpdateInv(st, h);
    }
  }

  /** While update `i` holds the lock of its key, no other update works on that key. */
  lemma AloneOnKey(st: Store, i: nat, k: nat)
    requires Inv(st.locks) && Sane(st.locks) && |st.locks.calls| == |st.updates|
    requires i < |st.updates| && k < |st.updates| && UpdateInv(st, i) && UpdateInv(st, k)
    requires st.locks.calls[i].status == Holding && st.locks.calls[k].status == Holding && k != i
    ensures st.updates[k].key != st.updates[i].key
  {
    if SameResource(st.locks, i, k) { OneHolderNow(st.locks, i, k); }
  }

  lemma LeavingKeepsUpdates(st: Store, i: nat, value: Option<Value>, k: nat)
    requires Inv(st.locks) && Sane(st.locks) && |st.locks.calls| == |st.updates|
    requires forall j :: 0 <= j < |st.updates| ==> UpdateInv(st, j)
    requires i < |st.updates| && st.locks.calls[i].status == Holding && k < |st.updates|
    ensures UpdateInv(Left(st, i, value), k)
  {
    UnlockGrows(st, i, WithPhase(st, i, Done));
    hide UnlockCall, Inv;
    assert UpdateInv(st, k) && UpdateInv(st, i);
    if k != i && st.locks.calls[k].status == Holding { AloneOnKey(st, i, k); }
  }

  lemma LeavingKeepsInv(st: Store, i: nat, value: Option<Value>, db: map<string, Value>)
    requires StoreInv(st, db) && i < |st.updates| && st.locks.calls[i].status == Holding
    requires value.Some? ==> st.updates[i].key in db
    requires var u := st.updates[i];
             u.key in db ==> Apply(u.callback, st.db[u.key]) == if value.Some? then value.value else st.db[u.key]
    ensures StoreInv(Left(st, i, value), db)
  {
    var after, vs := Left(st, i, value), WithPhase(st, i, Done);
    UnlockKeepsInv(st.locks, i);
    InvIsSane(after.locks);
    UnlockGrows(st, i, vs);
    hide UnlockCall, Inv;
    forall k | 0 <= k < |after.updates| ensures UpdateInv(after, k) { LeavingKeepsUpdates(st, i, value, k); }
    forall key | key in db ensures after.db[key] == Serial(vs, after.locks.grants, key, db[key]) {
      FinishAppends(st, i, key, db[key]);
      SerialGrows(vs, st.locks.grants, after.locks.grants, key, db[key]);
    }
  }

  lemma LockGrows(reg: Registry, r: string, vs: seq<Update>)
    requires Sane(reg) && |vs| == |reg.calls| + 1 && vs[|reg.calls|].phase == Asking
    ensures var after := LockCall(reg, r);
            && GrantsGrow(reg.grants, after.grants, vs)
            && |after.calls| == |vs| && after.calls[..|reg.calls|] == reg.calls
            && after.calls[|reg.calls|].resource == r && after.calls[|reg.calls|].status != Released
  {}

  lemma BeginKeepsMeaning(st: Store, u: Update, grants: seq<nat>, key: string, v: Value)
    requires u.phase == Asking && GrantsGrow(st.locks.grants, grants, st.updates + [u])
    ensures Serial(st.updates + [u], grants, key, v) == Serial(st.updates, st.locks.grants, key, v)
  {
    SerialFrame(st.updates, st.updates + [u], st.locks.grants, key, v);
    SerialGrows(st.updates + [u], st.locks.grants, grants, key, v);
  }

  lemma BeginKeepsUpdate(st: Store, locks: Registry, u: Update, k: nat)
    requires |st.locks.calls| == |st.updates| && k < |st.updates| && UpdateInv(st, k)
    requires |locks.calls| == |st.updates| + 1 && locks.calls[..|st.updates|] == st.locks.calls
    ensures UpdateInv(Store(locks, st.db, st.updates + [u]), k)
  {
    assert locks.calls[k] == locks.calls[..|st.updates|][k];
  }

  lemma BeginKeepsInv(st: Store, key: string, callback: Callback, db: map<string, Value>)
    requires StoreInv(st, db)
    ensures StoreInv(Step(st, Begin(key, callback)), db)
  {
    var u, locks := Update(key, callback, Asking), LockCall(st.locks, Resource(key));
    LockKeepsInv(st.locks, Resource(key));
    InvIsSane(locks);
    LockGrows(st.locks, Resource(key), st.updates + [u]);
    hide Inv, LockCall, Sane, GrantsGrow, Serial, UpdateInv;
    var after := Store(locks, st.db, st.updates + [u]);
    forall k | 0 <= k < |st.updates| ensures UpdateInv(after, k) { BeginKeepsUpdate(st, locks, u, k); }
    assert UpdateInv(after, |st.updates|) by { BeginsWaiting(st, locks, u); }
    forall other | other in db ensures after.db[other] == Serial(after.updates, locks.grants, other, db[other]) {
      BeginKeepsMeaning(st, u, locks.grants, other, db[other]);
    }
  }

  lemma BeginsWaiting(st: Store, locks: Registry, u: Update)
    requires |locks.calls| == |st.updates| + 1 && u.phase == Asking
    requires locks.calls[|st.updates|].resource == Resource(u.key) && locks.calls[|st.updates|].status != Released
    ensures UpdateInv(Store(locks, st.db, st.updates + [u]), |st.updates|)
  {}

  /** A step that only moves the holder of a key on keeps the invariant. */
  lemma HoldingOnKeepsInv(st: Store, i: nat, next: Phase, db: map<string, Value>)
    requires StoreInv(st, db) && i < |st.updates| && st.locks.calls[i].status == Holding && st.updates[i].phase != Done
    requires (next.Running? || next.Leaked?) && UpdateInv(Moved(st, i, next), i)
    ensures StoreInv(Moved(st, i, next), db)
  {
    var after := Moved(st, i, next);
    hide Inv, Sane;
    forall k | 0 <= k < |after.updates| ensures UpdateInv(after, k) { assert UpdateInv(st, k); }
    forall other | other in db ensures after.db[other] == Serial(after.updates, after.locks.grants, other, db[other]) {
      SerialFrame(st.updates, after.updates, st.locks.grants, other, db[other]);
    }
  }

  lemma ReadKeepsInv(st: Store, i: nat, db: map<string, Value>)
    requires StoreInv(st, db) && Enabled(st, Read(i))
    ensures StoreInv(Step(st, Read(i)), db)
  {
    var key := st.updates[i].key;
    assert UpdateInv(st, i);
    if key in st.db {
      HoldingOnKeepsInv(st, i, if Readable(st.db[key]) then Running(st.db[key]) else Leaked, db);
    } else {
      LeavingKeepsInv(st, i, None, db);
    }
  }

  lemma FinishKeepsInv(st: Store, i: nat, db: map<string, Value>)
    requires StoreInv(st, db) && Enabled(st, Finish(i))
    ensures StoreInv(Step(st, Finish(i)), db)
  {
    assert UpdateInv(st, i);
    match st.updates[i].callback(st.updates[i].phase.snapshot)
    case Nothing => LeavingKeepsInv(st, i, None, db);
    case NewValue(value) => LeavingKeepsInv(st, i, Some(value), db);
    case Unwritable => HoldingOnKeepsInv(st, i, Leaked, db);
  }

  /** A rejected call was never granted, so it does not count. */
  lemma FailKeepsInv(st: Store, i: nat, db: map<string, Value>)
    requires StoreInv(st, db) && Enabled(st, Fail(i))
    ensures StoreInv(Step(st, Fail(i)), db)
  {
    var after := Step(st, Fail(i));
    assert CallInv(st.locks, i);
    CleanUpKeepsInv(st.locks, i);
    InvIsSane(after.locks);
    forall k | 0 <= k < |after.updates| ensures UpdateInv(after, k) { assert UpdateInv(st, k); }
    forall key | key in db ensures after.db[key] == Serial(after.updates, after.locks.grants, key, db[key]) {
      SerialFrame(st.updates, after.updates, st.locks.grants, key, db[key]);
    }
  }

  lemma ShutdownKeepsInv(st: Store, db: map<string, Value>)
    requires StoreInv(st, db)
    ensures StoreInv(Step(st, Shutdown), db)
  {
    var after := Step(st, Shutdown);
    DestroyKeepsInv(st.locks);
    InvIsSane(after.locks);
    hide Inv;
    forall k | 0 <= k < |after.updates| ensures UpdateInv(after, k) { assert UpdateInv(st, k); }
  }

  lemma StepKeepsInv(st: Store, e: Event, db: map<string, Value>)
    requires StoreInv(st, db) && Enabled(st, e)
    ensures StoreInv(Step(st, e), db)
  {
    match e
    case Begin(key, callback) => BeginKeepsInv(st, key, callback, db);
    case Read(i) => ReadKeepsInv(st, i, db);
    case Finish(i) => FinishKeepsInv(st, i, db);
    case Fail(i) => FailKeepsInv(st, i, db);
    case Shutdown => ShutdownKeepsInv(st, db);
  }

  lemma {:induction false} ReachableInv(db: map<string, Value>, es: seq<Event>, st: Store)
    requires Reaches(db, es, st)
    ensures StoreInv(st, db)
  {
    if es != [] {
      var before: Store :| Reaches(db, es[..|es| - 1], before) && Next(before, es[|es| - 1], st);
      hide Reaches, Step, StoreInv;
      ReachableInv(db, es[..|es| - 1], before);
      StepKeepsInv(before, es[|es| - 1], db);
    } else {
      assert EMPTY.grants == [];
    }
  }
}
