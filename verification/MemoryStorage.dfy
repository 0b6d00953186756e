/**
 The in-memory storage provider as an object: a dictionary for each namespace, a timer for each
 key that expires, and the mutex a key is read and replaced under.
*/
module MemoryStorage {
  import opened Wrappers
  import opened Mutex
  import opened LockProvider
  import AtomicUpdate

  type Text = string

  datatype Error = NamespaceNotFound | KeyNotFound

  /** The value under a key, or why there is none. */
  function Lookup(db: map<string, map<string, Text>>, ns: string, key: string): (found: Result<Text, Error>)
    ensures found.Ok? ==> ns in db && key in db[ns] && found.value == db[ns][key]
    ensures found.Err? ==> if ns in db then found.error == KeyNotFound && key !in db[ns]
                           else found.error == NamespaceNotFound
  {
    if ns !in db then Err(NamespaceNotFound)
    else if key !in db[ns] then Err(KeyNotFound)
    else Ok(db[ns][key])
  }

  type Timers = map<(string, string), int>

  /** Writing a key replaces its timer; without a time to live, in seconds, it has none from then on. */
  function Rearmed(timers: Timers, ns: string, key: string, ttl: Option<int>, now: int): (after: Timers)
    ensures (ns, key) in after <==> ttl.Some?
    ensures ttl.Some? ==> after[(ns, key)] - now == 1000 * ttl.value
    ensures forall k :: k != (ns, key) ==> (k in after <==> k in timers) && (k in after ==> after[k] == timers[k])
  {
    if ttl.Some? then timers[(ns, key) := now + ttl.value * 1000] else timers - {(ns, key)}
  }

  class MemoryStorageProvider {
    var db: map<string, map<string, Text>>
    var timers: Timers
    const locks: MemoryLockProvider

    constructor (locks: MemoryLockProvider)
      ensures db == map[] && timers == map[] && this.locks == locks
    {
      this.locks := locks;
      db := map[];
      timers := map[];
    }

    /** A namespace starts without keys, and no other namespace changes. */
    method Init(ns: string)
      modifies `db
      ensures forall key :: Lookup(db, ns, key) == Err(KeyNotFound)
      ensures forall n, k :: n != ns ==> Lookup(db, n, k) == Lookup(old(db), n, k)
    {
      db := db[ns := map[]];
    }

    /** A key that holds the empty string counts as free. */
    method Add(ns: string, key: string, value: Text, ttl: Option<int>, now: int) returns (r: Result<bool, Error>)
      modifies `db, `timers
      ensures r.Err? <==> ns !in old(db)
      ensures r == Ok(true) <==> ns in old(db) && Lookup(old(db), ns, key) in {Err(KeyNotFound), Ok("")}
      ensures r == Ok(true) ==> Lookup(db, ns, key) == Ok(value) && timers == Rearmed(old(timers), ns, key, ttl, now)
      ensures r != Ok(true) ==> db == old(db) && timers == old(timers)
      ensures forall n, k :: (n, k) != (ns, key) ==> Lookup(db, n, k) == Lookup(old(db), n, k)
    {
      if ns !in db { return Err(NamespaceNotFound); }
      if key in db[ns] && db[ns][key] != "" { return Ok(false); }
      db := db[ns := db[ns][key := value]];
      UpdateTTL(ns, key, ttl, now);
      r := Ok(true);
    }

    method Put(ns: string, key: string, value: Text, ttl: Option<int>, now: int) returns (r: Result<bool, Error>)
      modifies `db, `timers
      ensures r == if ns in old(db) then Ok(true) else Err(NamespaceNotFound)
      ensures r.Ok? ==> Lookup(db, ns, key) == Ok(value) && timers == Rearmed(old(timers), ns, key, ttl, now)
      ensures r.Err? ==> db == old(db) && timers == old(timers)
      ensures forall n, k :: (n, k) != (ns, key) ==> Lookup(db, n, k) == Lookup(old(db), n, k)
    {
      if ns !in db { return Err(NamespaceNotFound); }
      db := db[ns := db[ns][key := value]];
      UpdateTTL(ns, key, ttl, now);
      r := Ok(true);
    }

    method UpdateTTL(ns: string, key: string, ttl: Option<int>, now: int)
      modifies `timers
      ensures timers == Rearmed(old(timers), ns, key, ttl, now)
    {
      timers := timers - {(ns, key)};
      if ttl.Some? {
        timers := timers[(ns, key) := now + ttl.value * 1000];
      }
      assert timers == Rearmed(old(timers), ns, key, ttl, now);
    }

    /** A timer goes off: its key is gone, whatever it holds by then. */
    method Expire(ns: string, key: string)
      requires (ns, key) in timers && ns in db
      modifies `db, `timers
      ensures Lookup(db, ns, key) == Err(KeyNotFound) && timers == old(timers) - {(ns, key)}
      ensures forall n, k :: (n, k) != (ns, key) ==> Lookup(db, n, k) == Lookup(old(db), n, k)
    {
      timers := timers - {(ns, key)};
      db := db[ns := db[ns] - {key}];
    }

    /** Deleting leaves the timer of the key running. */
    method Delete(ns: string, key: string) returns (r: Result<bool, Error>)
      modifies `db
      ensures r == match Lookup(old(db), ns, key) case Ok(_) => Ok(true) case Err(e) => Err(e)
      ensures r.Ok? ==> Lookup(db, ns, key) == Err(KeyNotFound)
      ensures r.Err? ==> db == old(db)
      ensures forall n, k :: (n, k) != (ns, key) ==> Lookup(db, n, k) == Lookup(old(db), n, k)
    {
      if ns !in db { return Err(NamespaceNotFound); }
      if key !in db[ns] { return Err(KeyNotFound); }
      db := db[ns := db[ns] - {key}];
      r := Ok(true);
    }

    /** The namespace holds the texts of the store, and the lock provider is in the store's registry. */
    ghost predicate Mirrors(st: AtomicUpdate.Store, ns: string)
      reads this, locks, locks.mutexes
    {
      locks.Valid() && Reachable(locks.registry) && locks.registry == st.locks && ns in db && db[ns] == TextsOf(st.db)
    }

    /**
     What an atomic read does once it holds `mutex`: it keeps the lock only if there is a value. This is
     the read step of an atomic update, of which `st` is the state.
    */
    method ReadLocked(ns: string, key: string, mutex: Lock, ghost st: AtomicUpdate.Store, ghost call: nat)
      returns (r: Result<Text, Error>, next: Option<nat>)
      requires Mirrors(st, ns) && AtomicUpdate.Enabled(st, AtomicUpdate.Read(call)) && st.updates[call].key == key
      requires CallTo(locks.registry, call, AtomicUpdate.Resource(key), locks.mutexes, mutex)
      modifies locks, locks.mutexes
      ensures r == Lookup(db, ns, key) && db == old(db)
      ensures Mirrors(AtomicUpdate.Step(st, AtomicUpdate.Read(call)), ns)
      ensures r.Ok? ==> next == None
    {
      next := None;
      if key !in db[ns] {
        next := locks.Unlock(AtomicUpdate.Resource(key), mutex, call);
        return Err(KeyNotFound), next;
      }
      r := Ok(db[ns][key]);
    }

    /**
     The end of an atomic update: the new value, if there is one, is stored before the lock is given
     up. This is the last step of an atomic update. The timer of the key is replaced in any case, so that
     giving up without a value and without a time to live keeps the value for good.
    */
    method Release(ns: string, key: string, mutex: Lock, newValue: Option<Text>, newTTL: Option<int>, now: int,
                   ghost st: AtomicUpdate.Store, ghost call: nat)
      returns (next: Option<nat>)
      requires Mirrors(st, ns) && AtomicUpdate.Enabled(st, AtomicUpdate.Finish(call)) && st.updates[call].key == key
      requires newValue == Written(st.updates[call].callback(st.updates[call].phase.snapshot))
      requires !st.updates[call].callback(st.updates[call].phase.snapshot).Unwritable?
      requires CallTo(locks.registry, call, AtomicUpdate.Resource(key), locks.mutexes, mutex)
      modifies `db, `timers, locks, locks.mutexes
      ensures timers == Rearmed(old(timers), ns, key, newTTL, now)
      ensures Lookup(db, ns, key) == match newValue case Some(v) => Ok(v) case None => Lookup(old(db), ns, key)
      ensures forall n, k :: (n, k) != (ns, key) ==> Lookup(db, n, k) == Lookup(old(db), n, k)
      ensures Mirrors(AtomicUpdate.Step(st, AtomicUpdate.Finish(call)), ns)
    {
      hide LockRegistry.Inv, LockRegistry.Sane, LockRegistry.UnlockCall, Reachable;
      if newValue.Some? {
        db := db[ns := db[ns][key := newValue.value]];
      }
      UpdateTTL(ns, key, newTTL, now);
      next := locks.Unlock(AtomicUpdate.Resource(key), mutex, call);
    }
  }

  function TextsOf(db: map<string, AtomicUpdate.Value>): map<string, Text>
  {
    map k | k in db :: db[k].text
  }

  /** The text an update hands over when it ends. */
  function Written(answer: AtomicUpdate.Answer): Option<Text>
  {
    if answer.NewValue? then Some(answer.value.text) else None
  }
}
