/**
 What the callers of an atomic update can rely on: values are what the finished callbacks made of
 them one after another, in the order the updates were called.
*/
module SerialUpdates {
  import opened LockRegistry
  import opened AtomicUpdate

  /**
   Serialisable updates: in every state of every run, each stored value is its initial value
   under the callbacks of the finished updates of its key, one after another in grant order.
  */
  lemma UpdatesAreSerial(db: map<string, Value>, es: seq<AtomicUpdate.Event>, st: Store, key: string)
    requires AtomicUpdate.Reaches(db, es, st) && key in db
    ensures key in st.db && st.db[key] == Serial(st.updates, st.locks.grants, key, db[key])
  {
    AtomicUpdate.ReachableInv(db, es, st);
  }

  /** What the callbacks of the finished updates of `key` make of a value, in the order they were begun. */
  function InOrderOfCalls(updates: seq<Update>, key: string, v: Value): Value
  {
    if updates == [] then v
    else
      var before, u := InOrderOfCalls(updates[..|updates| - 1], key, v), updates[|updates| - 1];
      if u.key == key && u.phase == Done then Apply(u.callback, before) else before
  }

  /** `order` lists every finished update of `key` once, in the order of the calls. */
  predicate ListsInOrder(us: seq<Update>, order: seq<nat>, key: string)
  {
    && (forall j, k :: 0 <= j < k < |order| && Counts(us, order[j], key) && Counts(us, order[k], key) ==>
         order[j] < order[k])
    && (forall i :: 0 <= i < |us| && Counts(us, i, key) ==> i in order)
  }

  /** What precedes the last update in such an order lists the updates before it. */
  lemma LastIsLast(us: seq<Update>, order: seq<nat>, key: string, p: nat)
    requires ListsInOrder(us, order, key) && us != [] && p < |order|
    requires order[p] == |us| - 1 && Counts(us, |us| - 1, key)
    ensures forall q :: p < q < |order| ==> !Counts(us, order[q], key)
    ensures forall i :: i in order[..p] ==> i != |us| - 1
    ensures ListsInOrder(us[..|us| - 1], order[..p], key)
  {
    var n := |us| - 1;
    var head, tail, shorter := order[..p], order[p + 1..], us[..n];
    forall i | i in head ensures i != n {
      var q :| 0 <= q < p && order[q] == i;
      assert Counts(us, order[q], key) ==> order[q] < order[p];
    }
    forall i | 0 <= i < |shorter| && Counts(shorter, i, key) ensures i in head {
      assert Counts(us, i, key);
      assert order == head + [n] + tail;
    }
    forall j, k | 0 <= j < k < |head| && Counts(shorter, head[j], key) && Counts(shorter, head[k], key)
      ensures head[j] < head[k]
    {
      assert Counts(us, order[j], key) && Counts(us, order[k], key);
    }
  }

  lemma SkippedIsSkipped(us: seq<Update>, order: seq<nat>, key: string)
    requires ListsInOrder(us, order, key) && us != [] && !Counts(us, |us| - 1, key)
    ensures ListsInOrder(us[..|us| - 1], order, key)
  {
    var shorter := us[..|us| - 1];
    forall j, k | 0 <= j < k < |order| && Counts(shorter, order[j], key) && Counts(shorter, order[k], key)
      ensures order[j] < order[k]
    {
      assert Counts(us, order[j], key) && Counts(us, order[k], key);
    }
    forall i | 0 <= i < |shorter| && Counts(shorter, i, key) ensures i in order { assert Counts(us, i, key); }
  }

  lemma WithoutLast(us: seq<Update>, order: seq<nat>, key: string, v: Value)
    requires us != []
    requires forall i :: i in order ==> i != |us| - 1 || !Counts(us, i, key)
    ensures Serial(us, order, key, v) == Serial(us[..|us| - 1], order, key, v)
  {
    SerialFrame(us, us[..|us| - 1], order, key, v);
  }

  lemma {:induction false} SortedOrderIsCallOrder(us: seq<Update>, order: seq<nat>, key: string, v: Value)
    requires ListsInOrder(us, order, key)
    ensures Serial(us, order, key, v) == InOrderOfCalls(us, key, v)
  {
    if us == [] {
      SerialOfNothing(us, order, key, v);
    } else if !Counts(us, |us| - 1, key) {
      SkippedIsSkipped(us, order, key);
      hide ListsInOrder;
      WithoutLast(us, order, key, v);
      SortedOrderIsCallOrder(us[..|us| - 1], order, key, v);
    } else {
      var n := |us| - 1;
      var p :| 0 <= p < |order| && order[p] == n;
      LastIsLast(us, order, key, p);
      hide ListsInOrder;
      var head := order[..p];
      SerialAround(us, order, p, key, v);
      WithoutLast(us, head, key, v);
      SortedOrderIsCallOrder(us[..n], head, key, v);
    }
  }

  /**
   No update is lost: in every state of every run, a stored value is its initial value under the
   callbacks of all finished updates of its key, each once, in the order they were called.
  */
  lemma NoUpdateLost(db: map<string, Value>, es: seq<AtomicUpdate.Event>, st: Store, key: string)
    requires AtomicUpdate.Reaches(db, es, st) && key in db
    ensures key in st.db && st.db[key] == InOrderOfCalls(st.updates, key, db[key])
  {
    AtomicUpdate.ReachableInv(db, es, st);
    hide AtomicUpdate.Reaches;
    var us, reg := st.updates, st.locks;
    assert forall i :: i in reg.grants ==> i < |us|;
    forall j, k | 0 <= j < k < |reg.grants| && Counts(us, reg.grants[j], key) && Counts(us, reg.grants[k], key)
      ensures reg.grants[j] < reg.grants[k]
    {
      assert UpdateInv(st, reg.grants[j]) && UpdateInv(st, reg.grants[k]);
      assert SameResource(reg, reg.grants[j], reg.grants[k]);
    }
    forall i | 0 <= i < |us| && Counts(us, i, key) ensures i in reg.grants {
      assert UpdateInv(st, i) && CallInv(reg, i);
    }
    SortedOrderIsCallOrder(us, reg.grants, key, db[key]);
  }
}
