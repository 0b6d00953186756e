/**
 Listing with the in-memory provider, whose cursor is a position in the list of keys. A deletion
 between two calls moves the keys behind it to the front, and can move one past the cursor.
*/
module KeyPositions {
  import opened Wrappers
  import opened Pagination

  /** The keys when each call is made, in the order the provider has them. */
  type Snapshots = nat -> seq<string>

  function FetchAt(keys: seq<string>, cursor: Option<nat>, n: nat): Fetched<nat>
  {
    var start := StartOf(cursor);
    var data := keys[Clip(keys, start)..Clip(keys, start + n)];
    Fetched(data, if data == [] then None else Some(start + |data|))
  }

  function Clip(keys: seq<string>, p: nat): nat
  {
    if p < |keys| then p else |keys|
  }

  function StartOf(cursor: Option<nat>): nat
  {
    if cursor.Some? then cursor.value else 0
  }

  function MemoryProvider(store: Snapshots): Provider<nat>
  {
    (t: nat, c: Option<nat>, n: nat) => FetchAt(store(t), c, n)
  }

  function NoPositionRank(c: Option<nat>): nat
  {
    0
  }

  lemma MemoryProgresses(store: Snapshots)
    ensures Progresses(MemoryProvider(store), NoPositionRank)
  {
    forall t: nat, c: Option<nat>, n: nat | MemoryProvider(store)(t, c, n).keys == []
      ensures MemoryProvider(store)(t, c, n).cursor.None?
    {
      assert MemoryProvider(store)(t, c, n) == FetchAt(store(t), c, n);
    }
  }

  /** The pages of a listing from its start. */
  ghost function Pages(store: Snapshots, count: nat, pages: nat): Followed<nat>
  {
    MemoryProgresses(store);
    Follow(MemoryProvider(store), NoPositionRank, 0, None, count, pages)
  }

  predicate Ended(state: Option<ListState<nat>>)
  {
    state.Some? && state.value.cursor.None? && state.value.queue == []
  }

  // ---------- positions ----------

  predicate Distinct(keys: seq<string>)
  {
    forall j, k :: 0 <= j < k < |keys| ==> keys[j] != keys[k]
  }

  function PositionOf(keys: seq<string>, key: string): (p: nat)
    requires key in keys
    ensures p < |keys| && keys[p] == key
  {
    if keys[0] == key then 0 else 1 + PositionOf(keys[1..], key)
  }

  /** The key is in the store at each of the given calls, among different others. */
  ghost predicate Throughout(store: Snapshots, t: nat, t': nat, key: string)
  {
    forall s :: t <= s < t' ==> Distinct(store(s)) && key in store(s)
  }

  function One(b: bool): int
  {
    if b then 1 else 0
  }

  /** Where the key is at a call. */
  function Place(store: Snapshots, s: nat, key: string): nat
  {
    if key in store(s) then PositionOf(store(s), key) else |store(s)|
  }

  /** How often the key falls from at or after the cursor to before it, between two calls. */
  function Falls(store: Snapshots, t: nat, log: seq<Fetched<nat>>, key: string): int
    decreases |log|
  {
    if |log| < 2 || log[0].cursor.None? then 0
    else
      var c := log[0].cursor.value;
      One(Place(store, t, key) >= c && Place(store, t + 1, key) < c) + Falls(store, t + 1, log[1..], key)
  }

  /** How often it rises from before the cursor to at or after it. */
  function Rises(store: Snapshots, t: nat, log: seq<Fetched<nat>>, key: string): int
    decreases |log|
  {
    if |log| < 2 || log[0].cursor.None? then 0
    else
      var c := log[0].cursor.value;
      One(Place(store, t, key) < c && Place(store, t + 1, key) >= c) + Rises(store, t + 1, log[1..], key)
  }

  function Times(keys: seq<string>, key: string): int
  {
    multiset(keys)[key]
  }

  lemma TimesConcat(a: seq<string>, b: seq<string>, key: string)
    ensures Times(a + b, key) == Times(a, key) + Times(b, key)
  {}

  lemma {:induction false} TimesInStretch(keys: seq<string>, lo: nat, hi: nat, key: string)
    requires Distinct(keys) && key in keys && lo <= hi <= |keys|
    ensures Times(keys[lo..hi], key) == One(lo <= PositionOf(keys, key) < hi)
  {
    if lo < hi {
      assert keys[lo..hi] == keys[lo..hi - 1] + [keys[hi - 1]];
      TimesInStretch(keys, lo, hi - 1, key);
      var p := PositionOf(keys, key);
      assert keys[hi - 1] == key <==> hi - 1 == p;
    } else {
      assert keys[lo..hi] == [];
    }
  }

  lemma FetchFacts(keys: seq<string>, cursor: Option<nat>, n: nat)
    requires n > 0
    ensures var r, start := FetchAt(keys, cursor, n), StartOf(cursor);
            && r.keys == keys[Clip(keys, start)..Clip(keys, start + n)]
            && (r.cursor.None? <==> |keys| <= start)
            && (r.cursor.Some? ==> start < r.cursor.value == Clip(keys, start + n))
  {}

  /** One call: the key is returned iff its position is between the cursors. */
  lemma CallReturns(keys: seq<string>, cursor: Option<nat>, n: nat, key: string)
    requires Distinct(keys) && key in keys && n > 0
    ensures var r, p := FetchAt(keys, cursor, n), PositionOf(keys, key);
            Times(r.keys, key) == One(StartOf(cursor) <= p) - (if r.cursor.Some? then One(r.cursor.value <= p) else 0)
  {
    hide FetchAt, Distinct, PositionOf, Times;
    var start := StartOf(cursor);
    FetchFacts(keys, cursor, n);
    TimesInStretch(keys, Clip(keys, start), Clip(keys, start + n), key);
  }

  /** Where the key is at the next call is where it was, but for a rise or a fall. */
  lemma CrossingsUnfold(store: Snapshots, t: nat, log: seq<Fetched<nat>>, key: string)
    requires |log| >= 2 && log[0].cursor.Some?
    ensures var c := log[0].cursor.value;
            Rises(store, t, log, key) - Falls(store, t, log, key) ==
            One(Place(store, t + 1, key) >= c) - One(Place(store, t, key) >= c)
            + Rises(store, t + 1, log[1..], key) - Falls(store, t + 1, log[1..], key)
  {
    hide Place;
  }

  lemma ChainGoesOn(store: Snapshots, t: nat, cursor: Option<nat>, log: seq<Fetched<nat>>, last: Option<nat>)
    requires Chain(MemoryProvider(store), 1, t, cursor, log, last) && log != []
    ensures if |log| == 1 then last == log[0].cursor
            else log[0].cursor.Some? && Chain(MemoryProvider(store), 1, t + 1, log[0].cursor, log[1..], last)
  {}

  lemma {:induction false} ChainReturns(store: Snapshots, t: nat, cursor: Option<nat>, log: seq<Fetched<nat>>,
                                        last: Option<nat>, key: string)
    requires Chain(MemoryProvider(store), 1, t, cursor, log, last) && log != []
    requires Throughout(store, t, t + |log|, key)
    ensures Times(KeysOf(log), key) ==
            One(Place(store, t, key) >= StartOf(cursor)) + Rises(store, t, log, key) - Falls(store, t, log, key)
            - if last.Some? then One(Place(store, t + |log| - 1, key) >= last.value) else 0
    decreases |log|
  {
    hide Chain, MemoryProvider, Times, Place, One;
    FirstReturns(store, t, cursor, log, last, key);
    ChainGoesOn(store, t, cursor, log, last);
    if |log| > 1 {
      CrossingsUnfold(store, t, log, key);
      StillThere(store, t, t + |log|, key);
      ChainReturns(store, t + 1, log[0].cursor, log[1..], last, key);
      hide Rises, Falls, KeysOf, Throughout;
    } else {
      assert log[1..] == [];
      NoTimes(key);
    }
  }

  lemma StillThere(store: Snapshots, t: nat, t': nat, key: string)
    requires Throughout(store, t, t', key)
    ensures Throughout(store, t + 1, t', key)
  {}

  lemma FirstReturns(store: Snapshots, t: nat, cursor: Option<nat>, log: seq<Fetched<nat>>, last: Option<nat>,
                     key: string)
    requires Chain(MemoryProvider(store), 1, t, cursor, log, last) && log != []
    requires Throughout(store, t, t + |log|, key)
    ensures Times(KeysOf(log), key) == One(Place(store, t, key) >= StartOf(cursor))
              - (if log[0].cursor.Some? then One(Place(store, t, key) >= log[0].cursor.value) else 0) +
                  Times(KeysOf(log[1..]), key)
  {
    var n: nat :| n >= 1 && log[0] == MemoryProvider(store)(t, cursor, n);
    assert log[0] == FetchAt(store(t), cursor, n);
    CallReturns(store(t), cursor, n, key);
    TimesConcat(log[0].keys, KeysOf(log[1..]), key);
    hide FetchAt, Times, PositionOf, Chain, MemoryProvider, Distinct;
  }

  lemma NoTimes(key: string)
    ensures Times([], key) == 0
  {}

  /**
   However the store changes between the calls, a finished listing returns a key that is there all
   the time exactly once for the start, once more for each rise, and once less for each fall.
  */
  lemma ReturnedExactly(store: Snapshots, count: nat, pages: nat, key: string) returns (log: seq<Fetched<nat>>)
    requires count > 0 && pages > 0 && Ended(Pages(store, count, pages).state)
    requires Throughout(store, 0, Pages(store, count, pages).time, key)
    ensures Chain(MemoryProvider(store), 1, 0, None, log, None) && |log| == Pages(store, count, pages).time
    ensures Pages(store, count, pages).keys == KeysOf(log)
    ensures Times(Pages(store, count, pages).keys, key) == 1 + Rises(store, 0, log, key) - Falls(store, 0, log, key)
    ensures key in Pages(store, count, pages).keys <==> Falls(store, 0, log, key) <= Rises(store, 0, log, key)
  {
    log := ListingLog(store, count, pages);
    ChainReturns(store, 0, None, log, None, key);
    hide Pages, Chain, Rises, Falls;
    assert key in Pages(store, count, pages).keys <==> key in multiset(Pages(store, count, pages).keys);
  }

  /** The provider calls behind a finished listing. */
  lemma ListingLog(store: Snapshots, count: nat, pages: nat) returns (log: seq<Fetched<nat>>)
    requires count > 0 && pages > 0 && Ended(Pages(store, count, pages).state)
    ensures log != [] && Chain(MemoryProvider(store), 1, 0, None, log, None)
    ensures |log| == Pages(store, count, pages).time && Pages(store, count, pages).keys == KeysOf(log)
  {
    MemoryProgresses(store);
    var r := Pages(store, count, pages);
    log := FollowConserves(MemoryProvider(store), NoPositionRank, 0, None, count, pages);
    assert r.keys + [] == r.keys;
    FirstPageCalls(store, count, pages);
  }

  lemma FirstPageCalls(store: Snapshots, count: nat, pages: nat)
    requires pages > 0
    ensures Pages(store, count, pages).time > 0
  {
    MemoryProgresses(store);
    var first := CollectConserves(MemoryProvider(store), NoPositionRank, 0, None, [], count);
    var page := List(MemoryProvider(store), NoPositionRank, 0, None, count);
    var rest := FollowConserves(MemoryProvider(store), NoPositionRank, page.time, Some(page.state), count, pages - 1);
  }

  // ---------- stores that only delete and append ----------

  /** Some keys are deleted, and new ones come at the end. */
  ghost predicate DeletesAndAppends(before: seq<string>, after: seq<string>)
  {
    exists k: nat :: k <= |after| && Subsequence(after[..k], before)
      && forall j :: k <= j < |after| ==> after[j] !in before
  }

  ghost predicate OnlyDeletesAndAppends(store: Snapshots)
  {
    forall s: nat :: DeletesAndAppends(store(s), store(s + 1))
  }

  predicate Subsequence(xs: seq<string>, ys: seq<string>)
  {
    xs == [] || (ys != [] && if xs[0] == ys[0] then Subsequence(xs[1..], ys[1..]) else Subsequence(xs, ys[1..]))
  }

  lemma {:induction false} SubsequenceLowers(xs: seq<string>, ys: seq<string>, key: string)
    requires Subsequence(xs, ys) && key in xs && Distinct(ys) && key in ys
    ensures PositionOf(xs, key) <= PositionOf(ys, key)
  {
    if xs[0] == ys[0] {
      if xs[0] != key { SubsequenceLowers(xs[1..], ys[1..], key); }
    } else {
      InSubsequence(xs, ys[1..], key);
      assert ys[0] != key;
      SubsequenceLowers(xs, ys[1..], key);
    }
  }

  lemma {:induction false} InSubsequence(xs: seq<string>, ys: seq<string>, key: string)
    requires Subsequence(xs, ys) && key in xs
    ensures key in ys
  {
    if xs[0] == ys[0] {
      if xs[0] != key { InSubsequence(xs[1..], ys[1..], key); }
    } else {
      InSubsequence(xs, ys[1..], key);
    }
  }

  lemma {:induction false} PositionInPrefix(xs: seq<string>, k: nat, key: string)
    requires k <= |xs| && key in xs[..k]
    ensures PositionOf(xs, key) == PositionOf(xs[..k], key)
  {
    if xs[0] != key {
      assert xs[..k][1..] == xs[1..][..k - 1];
      PositionInPrefix(xs[1..], k - 1, key);
    }
  }

  lemma DeletionsLower(before: seq<string>, after: seq<string>, key: string)
    requires DeletesAndAppends(before, after) && Distinct(before) && key in before && key in after
    ensures PositionOf(after, key) <= PositionOf(before, key)
  {
    var k: nat :|
      k <= |after| && Subsequence(after[..k], before) && forall j :: k <= j < |after| ==> after[j] !in before;
    var p := PositionOf(after, key);
    assert p < k && after[..k][p] == key;
    PositionInPrefix(after, k, key);
    SubsequenceLowers(after[..k], before, key);
  }

  lemma {:induction false} NoRises(store: Snapshots, t: nat, log: seq<Fetched<nat>>, key: string)
    requires Throughout(store, t, t + |log|, key) && OnlyDeletesAndAppends(store)
    ensures Rises(store, t, log, key) == 0 && Falls(store, t, log, key) >= 0
    decreases |log|
  {
    if |log| >= 2 && log[0].cursor.Some? {
      assert DeletesAndAppends(store(t), store(t + 1));
      DeletionsLower(store(t), store(t + 1), key);
      hide DeletesAndAppends, PositionOf, Distinct;
      NoRises(store, t + 1, log[1..], key);
    }
  }

  /**
   In a store whose keys are only deleted, and added at the end, a finished listing returns a key
   that is there all the time exactly if it never falls past the cursor between two calls, and never
   more than once.
  */
  lemma ListedIffNeverFalls(store: Snapshots, count: nat, pages: nat, key: string) returns (log: seq<Fetched<nat>>)
    requires count > 0 && pages > 0 && Ended(Pages(store, count, pages).state)
    requires Throughout(store, 0, Pages(store, count, pages).time, key)
    requires OnlyDeletesAndAppends(store)
    ensures Chain(MemoryProvider(store), 1, 0, None, log, None) && |log| == Pages(store, count, pages).time
    ensures key in Pages(store, count, pages).keys <==> Falls(store, 0, log, key) == 0
    ensures Times(Pages(store, count, pages).keys, key) <= 1
  {
    log := ReturnedExactly(store, count, pages, key);
    NoRises(store, 0, log, key);
    var keys := Pages(store, count, pages).keys;
    assert key in keys <==> key in multiset(keys);
    hide Pages;
  }

  // ---------- a fixed store, and a changing one ----------

  predicate Stretch(keys: seq<string>, start: nat, end: nat, out: seq<string>)
  {
    start <= end <= |keys| && out == keys[start..end]
  }

  lemma StretchesJoin(keys: seq<string>, start: nat, mid: nat, end: nat, a: seq<string>, b: seq<string>)
    requires Stretch(keys, start, mid, a) && Stretch(keys, mid, end, b)
    ensures Stretch(keys, start, end, a + b)
  {}

  function EndOf(keys: seq<string>, cursor: Option<nat>): nat
  {
    if cursor.Some? then cursor.value else |keys|
  }

  lemma FetchIsStretch(keys: seq<string>, cursor: Option<nat>, n: nat)
    requires n > 0 && StartOf(cursor) <= |keys|
    ensures var r := FetchAt(keys, cursor, n);
            && Stretch(keys, StartOf(cursor), EndOf(keys, r.cursor), r.keys)
            && |r.keys| == (if n < |keys| - StartOf(cursor) then n else |keys| - StartOf(cursor))
            && (r.cursor.None? <==> r.keys == [])
  {}

  predicate Holds(snapshot: seq<string>, keys: seq<string>)
  {
    snapshot == keys
  }

  /** Over a fixed store the answers of consecutive calls are consecutive stretches of its keys. */
  lemma {:induction false} ChainIsStretch(keys: seq<string>, store: Snapshots, t: nat, cursor: Option<nat>,
                                          log: seq<Fetched<nat>>, last: Option<nat>)
    requires forall s :: Holds(store(s), keys)
    requires Chain(MemoryProvider(store), 1, t, cursor, log, last) && log != []
    requires StartOf(cursor) <= |keys|
    ensures Stretch(keys, StartOf(cursor), EndOf(keys, last), KeysOf(log))
    decreases |log|
  {
    var n: nat :| n >= 1 && log[0] == MemoryProvider(store)(t, cursor, n);
    assert Holds(store(t), keys);
    FetchIsStretch(keys, cursor, n);
    hide FetchAt;
    if |log| > 1 {
      var mid := EndOf(keys, log[0].cursor);
      assert Stretch(keys, StartOf(cursor), mid, log[0].keys);
      ChainIsStretch(keys, store, t + 1, log[0].cursor, log[1..], last);
      hide Chain, MemoryProvider, Stretch;
      StretchesJoin(keys, StartOf(cursor), mid, EndOf(keys, last), log[0].keys, KeysOf(log[1..]));
    } else {
      assert KeysOf(log[1..]) == [];
      assert log[0].keys + [] == log[0].keys;
    }
  }

  /** Over a fixed store a finished listing by position returns all keys, once each and in their order. */
  lemma FixedMemoryIsListed(keys: seq<string>, store: Snapshots, count: nat, pages: nat)
    requires forall s :: Holds(store(s), keys)
    requires count > 0 && pages > 0 && Ended(Pages(store, count, pages).state)
    ensures Pages(store, count, pages).keys == keys
  {
    var log := ListingLog(store, count, pages);
    hide Pages, MemoryProvider, Chain;
    ChainIsStretch(keys, store, 0, None, log, None);
    assert Stretch(keys, 0, |keys|, KeysOf(log));
  }

  /** A deletion between two calls moves the keys under the cursor: one that is there all the time is skipped. */
  lemma DeletionSkipsKey(a: string, b: string) returns (store: Snapshots)
    requires a != b
    ensures OnlyDeletesAndAppends(store) && forall s :: b in store(s) && Distinct(store(s))
    ensures Ended(Pages(store, 1, 2).state) && Pages(store, 1, 2).keys == [a]
  {
    store := s => if s == 0 then [a, b] else [b];
    SkipsAtFirst(a, b);
    MemoryProgresses(store);
    var fetch := MemoryProvider(store);
    assert fetch(0, None, 1) == FetchAt([a, b], None, 1) == Fetched([a], Some(1));
    assert fetch(1, Some(1), 1) == FetchAt([b], Some(1), 1) == Fetched([], None);
    var one := List(fetch, NoPositionRank, 0, None, 1);
    assert one == Listing(ListState(Some(1), [], [a]), 1);
    var two := List(fetch, NoPositionRank, 1, Some(one.state), 1);
    assert two == Listing(ListState(None, [], []), 2);
    hide DeletesAndAppends;
    assert Follow(fetch, NoPositionRank, 2, Some(two.state), 1, 0).keys == [];
    assert Follow(fetch, NoPositionRank, 1, Some(one.state), 1, 1).keys == [];
  }

  lemma SkipsAtFirst(a: string, b: string)
    requires a != b
    ensures DeletesAndAppends([a, b], [b]) && DeletesAndAppends([b], [b])
  {
    assert Subsequence([], []);
    assert [b][1..] == [] && [a, b][1..] == [b] && [b][..1] == [b];
    assert Subsequence([b], [b]);
    assert Subsequence([b], [a, b]);
  }
}
