/**
 Listing with a provider that returns keys in order, as a database does: the keys after the
 cursor, and the last of them as the next cursor. The store may change between the calls.
*/
module KeyOrder {
  import opened Wrappers
  import opened Ordering
  import opened Pagination

  predicate Increasing(keys: seq<string>)
  {
    forall j, k :: 0 <= j < k < |keys| ==> Before(keys[j], keys[k])
  }

  predicate AtMost(a: string, b: string)
  {
    a == b || Before(a, b)
  }

  function After(keys: seq<string>, c: string): seq<string>
  {
    if keys == [] then [] else if Before(c, keys[0]) then keys else After(keys[1..], c)
  }

  function From(cursor: Option<string>): string
  {
    if cursor.Some? then cursor.value else ""
  }

  function FetchAfter(keys: seq<string>, c: string, n: nat): Fetched<string>
  {
    var after := After(keys, c);
    var page := if |after| < n then after else after[..n];
    Fetched(page, if page == [] then None else Some(page[|page| - 1]))
  }

  /** The keys in the store when each call is made, in order. */
  type Snapshots = nat -> seq<string>

  function OrderedProvider(store: Snapshots): Provider<string>
  {
    (t: nat, c: Option<string>, n: nat) => FetchAfter(store(t), From(c), n)
  }

  ghost predicate Ordered(store: Snapshots)
  {
    forall t :: Increasing(store(t))
  }

  /** A provider in order returns no cursor without keys. */
  function NoRank(c: Option<string>): nat
  {
    0
  }

  lemma OrderedProgresses(store: Snapshots)
    ensures Progresses(OrderedProvider(store), NoRank)
  {
    forall t: nat, c: Option<string>, n: nat | OrderedProvider(store)(t, c, n).keys == []
      ensures OrderedProvider(store)(t, c, n).cursor.None?
    {
      assert OrderedProvider(store)(t, c, n) == FetchAfter(store(t), From(c), n);
    }
  }

  lemma {:induction false} AfterIsSelection(keys: seq<string>, c: string)
    requires Increasing(keys)
    ensures Increasing(After(keys, c))
    ensures forall k :: k in After(keys, c) <==> k in keys && Before(c, k)
  {
    if keys != [] {
      if Before(c, keys[0]) {
        forall k | k in keys ensures Before(c, k) {
          if k != keys[0] { BeforeTransitive(c, keys[0], k); }
        }
      } else {
        AfterIsSelection(keys[1..], c);
      }
    }
  }

  /**
   What the calls from `t` up to `t'` return, from cursor `c` on: in order, between the cursors,
   all from the store, and complete for the keys that are in the store at every one of the calls.
  */
  ghost predicate Segment(store: Snapshots, t: nat, t': nat, c: string, out: seq<string>, c': Option<string>)
  {
    && t <= t' && Increasing(out)
    && (c'.Some? ==> AtMost(c, c'.value))
    && (forall k :: k in out ==> Before(c, k) && (c'.Some? ==> AtMost(k, c'.value)))
    && (forall k :: k in out ==> exists s :: t <= s < t' && k in store(s))
    && (forall k :: Before(c, k) && (c'.Some? ==> AtMost(k, c'.value)) ==>
          (forall s :: t <= s < t' ==> k in store(s)) ==> k in out)
  }

  lemma FetchIsSegment(store: Snapshots, t: nat, c: string, n: nat)
    requires Ordered(store) && n > 0
    ensures var r := FetchAfter(store(t), c, n);
            && Segment(store, t, t + 1, c, r.keys, r.cursor)
            && |r.keys| <= n && (r.cursor.None? <==> r.keys == [])
            && (|r.keys| < n ==> forall k :: k in store(t) && Before(c, k) ==> k in r.keys)
  {
    var r, after := FetchAfter(store(t), c, n), After(store(t), c);
    AfterIsSelection(store(t), c);
    hide After;
    forall k | k in r.keys ensures Before(c, k) && k in store(t) && (r.cursor.Some? ==> AtMost(k, r.cursor.value)) {
      assert k in after;
    }
    forall k | k in store(t) && Before(c, k) && (r.cursor.Some? ==> AtMost(k, r.cursor.value)) ensures k in r.keys {
      InPage(after, n, k);
    }
  }

  lemma InPage(after: seq<string>, n: nat, k: string)
    requires Increasing(after) && n > 0 && k in after
    requires |after| >= n ==> AtMost(k, after[n - 1])
    ensures k in if |after| < n then after else after[..n]
  {
    var j :| 0 <= j < |after| && after[j] == k;
    if j >= n {
      BeforeAsymmetric(after[n - 1], after[j]);
      BeforeIrreflexive(k);
    }
    if |after| >= n { assert after[..n][j] == k; }
  }

  lemma SegmentsCompose(store: Snapshots, t: nat, t1: nat, t2: nat, c: string, a: seq<string>, mid: string,
                        b: seq<string>, c2: Option<string>)
    requires Segment(store, t, t1, c, a, Some(mid)) && Segment(store, t1, t2, mid, b, c2)
    ensures Segment(store, t, t2, c, a + b, c2)
  {
    forall x, y | x in a && y in b ensures Before(x, y) {
      if x != mid { BeforeTransitive(x, mid, y); }
    }
    forall k | Before(mid, k) ensures Before(c, k) {
      if c != mid { BeforeTransitive(c, mid, k); }
    }
    if c2.Some? {
      forall k | AtMost(k, mid) ensures AtMost(k, c2.value) {
        if k != mid && mid != c2.value { BeforeTransitive(k, mid, c2.value); }
      }
    }
    forall k | Before(c, k) && (c2.Some? ==> AtMost(k, c2.value)) && (forall s :: t <= s < t2 ==> k in store(s))
      ensures k in a + b
    {
      BeforeTotal(k, mid);
      assert k in a || k in b;
    }
  }

  lemma CollectUnfolds(store: Snapshots, t: nat, c: Option<string>, data: seq<string>, count: nat)
    requires Progresses(OrderedProvider(store), NoRank) && |data| < count
    ensures var f := FetchAfter(store(t), From(c), count - |data|);
            && |data + f.keys| <= count
            && Collect(OrderedProvider(store), NoRank, t, c, data, count) ==
               if |data + f.keys| < count && f.cursor.Some?
               then Collect(OrderedProvider(store), NoRank, t + 1, f.cursor, data + f.keys, count)
               else Collected(data + f.keys, f.cursor, t + 1)
  {
    assert OrderedProvider(store)(t, c, Short(data, count)) == FetchAfter(store(t), From(c), count - |data|);
  }

  /** One answer, and the answers that come after it. */
  lemma SegmentGrows(store: Snapshots, t: nat, t': nat, c: string, data: seq<string>, f: Fetched<string>,
                     whole: seq<string>, last: Option<string>)
    requires f.cursor.Some? && Segment(store, t, t + 1, c, f.keys, f.cursor)
    requires |data + f.keys| <= |whole| && whole[..|data + f.keys|] == data + f.keys
    requires Segment(store, t + 1, t', f.cursor.value, whole[|data + f.keys|..], last)
    ensures whole[..|data|] == data && Segment(store, t, t', c, whole[|data|..], last)
  {
    hide Segment;
    SplitTwice(whole, data, f.keys);
    SegmentsCompose(store, t, t + 1, t', c, f.keys, f.cursor.value, whole[|data + f.keys|..], last);
  }

  lemma NoCursorNoKeys(keys: seq<string>, c: string, n: nat)
    ensures FetchAfter(keys, c, n).cursor.None? <==> FetchAfter(keys, c, n).keys == []
  {}

  lemma FromCursor(cursor: Option<string>)
    ensures cursor.Some? ==> From(cursor) == cursor.value
  {}

  lemma {:induction false} CollectSegment(store: Snapshots, t: nat, c: Option<string>, data: seq<string>, count: nat)
    requires Ordered(store) && Progresses(OrderedProvider(store), NoRank) && |data| < count
    ensures var r := Collect(OrderedProvider(store), NoRank, t, c, data, count);
            && |data| <= |r.data| <= count && r.data[..|data|] == data
            && Segment(store, t, r.time, From(c), r.data[|data|..], r.cursor)
            && (r.cursor.Some? ==> |r.data| == count)
    decreases count - |data|
  {
    hide Segment, After, Collect, Progresses, Ordered, OrderedProvider, FetchAfter, From;
    var f := FetchAfter(store(t), From(c), count - |data|);
    NoCursorNoKeys(store(t), From(c), count - |data|);
    FetchIsSegment(store, t, From(c), count - |data|);
    CollectUnfolds(store, t, c, data, count);
    var more := data + f.keys;
    if |more| < count && f.cursor.Some? {
      CollectSegment(store, t + 1, f.cursor, more, count);
      var r := Collect(OrderedProvider(store), NoRank, t + 1, f.cursor, more, count);
      FromCursor(f.cursor);
      SegmentGrows(store, t, r.time, From(c), data, f, r.data, r.cursor);
    } else {
      assert more[..|data|] == data && more[|data|..] == f.keys;
    }
  }

  lemma SplitTwice(whole: seq<string>, a: seq<string>, b: seq<string>)
    requires |a + b| <= |whole| && whole[..|a + b|] == a + b
    ensures whole[..|a|] == a && whole[|a|..] == b + whole[|a + b|..]
  {
    assert whole == (a + b) + whole[|a + b|..];
  }

  /** A state between two pages: nothing is queued, and the listing may be finished. */
  predicate Settled(state: Option<ListState<string>>)
  {
    state.Some? ==> state.value.queue == []
  }

  predicate Ended(state: Option<ListState<string>>)
  {
    state.Some? && state.value.cursor.None?
  }

  /** How many keys fill a number of pages. */
  function Capacity(pages: nat, count: nat): nat
  {
    if pages == 0 then 0 else count + Capacity(pages - 1, count)
  }

  lemma {:induction false} CapacityIsProduct(pages: nat, count: nat)
    ensures Capacity(pages, count) == pages * count
  {
    if pages > 0 { CapacityIsProduct(pages - 1, count); }
  }

  lemma {:induction false} FollowSegment(store: Snapshots, t: nat, state: Option<ListState<string>>, count: nat,
                                         pages: nat)
    requires Ordered(store) && Progresses(OrderedProvider(store), NoRank) && count > 0
    requires Settled(state) && !Ended(state) && pages > 0
    ensures var r := Follow(OrderedProvider(store), NoRank, t, state, count, pages);
            && Settled(r.state)
            && Segment(store, t, r.time, From(CursorOf(state)), r.keys, CursorOf(r.state))
            && (!Ended(r.state) ==> |r.keys| == Capacity(pages, count))
    decreases pages
  {
    var page := List(OrderedProvider(store), NoRank, t, state, count);
    var rest := Follow(OrderedProvider(store), NoRank, page.time, Some(page.state), count, pages - 1);
    PageSegment(store, t, state, count);
    hide Segment, List, Progresses, Ordered, OrderedProvider;
    if page.state.cursor.None? || pages == 1 {
      FollowEnded(store, page.time, page.state, count, pages - 1);
      assert page.state.keys + [] == page.state.keys;
      assert Capacity(0, count) == 0;
    } else {
      FollowSegment(store, page.time, Some(page.state), count, pages - 1);
      SegmentsCompose(store, t, page.time, rest.time, From(CursorOf(state)), page.state.keys, page.state.cursor.value,
                      rest.keys, CursorOf(rest.state));
    }
  }

  lemma PageSegment(store: Snapshots, t: nat, state: Option<ListState<string>>, count: nat)
    requires Ordered(store) && Progresses(OrderedProvider(store), NoRank) && count > 0
    requires Settled(state) && !Ended(state)
    ensures var r := List(OrderedProvider(store), NoRank, t, state, count);
            && r.state.queue == []
            && Segment(store, t, r.time, From(CursorOf(state)), r.state.keys, r.state.cursor)
            && (r.state.cursor.Some? ==> |r.state.keys| == count)
  {
    CollectSegment(store, t, CursorOf(state), [], count);
    var fetched := Collect(OrderedProvider(store), NoRank, t, CursorOf(state), [], count);
    hide Segment, Collect, Progresses, Ordered, OrderedProvider;
    assert fetched.data[0..] == fetched.data == fetched.data[..|fetched.data|];
  }

  /** After the end there are only empty pages. */
  lemma {:induction false} FollowEnded(store: Snapshots, t: nat, state: ListState<string>, count: nat, pages: nat)
    requires Progresses(OrderedProvider(store), NoRank) && state.queue == []
    requires state.cursor.None? || pages == 0
    ensures var r := Follow(OrderedProvider(store), NoRank, t, Some(state), count, pages);
            r.keys == [] && r.time == t && r.state.Some? && Settled(r.state) && CursorOf(r.state) == state.cursor
    decreases pages
  {
    if pages > 0 { FollowEnded(store, t, ListState(None, [], []), count, pages - 1); }
  }

  // ---------- what callers can rely on ----------

  /** The pages of a listing from its start. */
  ghost function Pages(store: Snapshots, count: nat, pages: nat): Followed<string>
  {
    OrderedProgresses(store);
    Follow(OrderedProvider(store), NoRank, 0, None, count, pages)
  }

  /**
   Under inserts and deletes between any two provider calls: a finished listing is strictly in
   order, so no key comes twice; a key present throughout is returned; a returned key was present.
   The empty string is no key: a listing starts after it.
  */
  lemma PagesAreComplete(store: Snapshots, count: nat, pages: nat)
    requires Ordered(store) && count > 0 && pages > 0 && Ended(Pages(store, count, pages).state)
    ensures var r := Pages(store, count, pages);
            && Increasing(r.keys)
            && (forall k :: k != "" && (forall s :: 0 <= s < r.time ==> k in store(s)) ==> k in r.keys)
            && (forall k :: k in r.keys ==> exists s :: 0 <= s < r.time && k in store(s))
  {
    OrderedProgresses(store);
    FollowSegment(store, 0, None, count, pages);
    hide Follow;
  }

  lemma {:induction false} SameKeys(a: seq<string>, b: seq<string>)
    requires Increasing(a) && Increasing(b) && forall k :: k in a <==> k in b
    ensures a == b
  {
    assert a != [] ==> a[0] in b;
    assert b != [] ==> b[0] in a;
    if a != [] && b != [] {
      FirstIsLeast(a, b[0]);
      FirstIsLeast(b, a[0]);
      if a[0] != b[0] { BeforeAsymmetric(a[0], b[0]); }
      forall k ensures k in a[1..] <==> k in b[1..] {
        BeforeIrreflexive(a[0]);
        assert k in a <==> k == a[0] || k in a[1..];
        assert k in b <==> k == b[0] || k in b[1..];
      }
      SameKeys(a[1..], b[1..]);
    }
  }

  lemma FirstIsLeast(a: seq<string>, k: string)
    requires Increasing(a) && k in a
    ensures k == a[0] || Before(a[0], k)
  {}

  /** Over a fixed store the pages of a finished listing are all of its keys, once each and in order. */
  lemma FixedStoreIsListed(keys: seq<string>, count: nat, pages: nat)
    requires Increasing(keys) && "" !in keys && count > 0 && pages > 0
    requires Ended(Pages(s => keys, count, pages).state)
    ensures Pages(s => keys, count, pages).keys == keys
  {
    var store: Snapshots := s => keys;
    PagesAreComplete(store, count, pages);
    assert forall k :: k in keys ==> k != "";
    hide Pages;
    SameKeys(Pages(store, count, pages).keys, keys);
  }

  lemma {:induction false} IncreasingFits(a: seq<string>, b: seq<string>)
    requires Increasing(a) && forall k :: k in a ==> k in b
    ensures |a| <= |b|
  {
    if a != [] {
      assert a[0] in b;
      var j :| 0 <= j < |b| && b[j] == a[0];
      assert b == b[..j] + [b[j]] + b[j + 1..];
      forall k | k in a[1..] ensures k in b[..j] + b[j + 1..] {
        assert k in a && k in b;
        BeforeIrreflexive(k);
      }
      IncreasingFits(a[1..], b[..j] + b[j + 1..]);
    }
  }

  /** Following cursors over a fixed store ends: with more pages than it has keys to fill, none is left. */
  lemma PagesEnd(keys: seq<string>, count: nat, pages: nat)
    requires Increasing(keys) && pages * count > |keys|
    ensures Ended(Pages(s => keys, count, pages).state)
  {
    var store: Snapshots := s => keys;
    assert count > 0 && pages > 0;
    OrderedProgresses(store);
    CapacityIsProduct(pages, count);
    FollowSegment(store, 0, None, count, pages);
    hide Follow;
    IncreasingFits(Pages(store, count, pages).keys, keys);
  }

  /** A page of no keys ends the listing, whatever there is: the provider has no last key to return as a cursor. */
  lemma EmptyPageEnds(store: Snapshots, pages: nat)
    requires pages > 0
    ensures Pages(store, 0, pages).keys == [] && Ended(Pages(store, 0, pages).state)
  {
    OrderedProgresses(store);
    var page := List(OrderedProvider(store), NoRank, 0, None, 0);
    assert OrderedProvider(store)(0, None, 0) == FetchAfter(store(0), From(None), 0) == Fetched([], None);
    assert page == Listing(ListState(None, [], []), 1);
    FollowEnded(store, 1, page.state, 0, pages - 1);
  }
}
