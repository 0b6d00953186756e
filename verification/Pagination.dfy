/**
 Listing keys page by page. A provider is asked for keys from a cursor on; what it returns
 beyond the size of a page waits in a queue. Provider calls are numbered, so that the store may
 change from one call to the next. The encoding of cursors is not part of this model.
*/
module Pagination {
  import opened Wrappers

  datatype Fetched<C> = Fetched(keys: seq<string>, cursor: Option<C>)

  /** The answer of a provider to call number `time`, for a cursor and a number of keys. */
  type Provider<!C> = (nat, Option<C>, nat) -> Fetched<C>

  datatype ListState<C> = ListState(cursor: Option<C>, queue: seq<string>, keys: seq<string>)

  /** A provider may return no keys and a cursor, but not forever. */
  ghost predicate Progresses<C(!new)>(fetch: Provider<C>, rank: Option<C> -> nat)
  {
    forall t: nat, c: Option<C>, n: nat :: n > 0 && fetch(t, c, n).keys == [] && fetch(t, c, n).cursor.Some? ==>
      rank(fetch(t, c, n).cursor) < rank(c)
  }

  /** How many keys are missing. */
  function Short(data: seq<string>, count: nat): nat
  {
    if |data| < count then count - |data| else 0
  }

  datatype Collected<C> = Collected(data: seq<string>, cursor: Option<C>, time: nat)

  /** The fetching of one page: provider calls until there are enough keys or none are left. */
  ghost function Collect<C(!new)>(fetch: Provider<C>, rank: Option<C> -> nat, time: nat, cursor: Option<C>,
                                  data: seq<string>, count: nat): Collected<C>
    requires Progresses(fetch, rank)
    decreases Short(data, count), rank(cursor)
  {
    var r := fetch(time, cursor, Short(data, count));
    var more := data + r.keys;
    if |more| < count && r.cursor.Some? then Collect(fetch, rank, time + 1, r.cursor, more, count)
    else Collected(more, r.cursor, time + 1)
  }

  datatype Listing<C> = Listing(state: ListState<C>, time: nat)

  /** One page, from the state that the page before left; None is the start of the listing. */
  ghost function List<C(!new)>(fetch: Provider<C>, rank: Option<C> -> nat, time: nat, state: Option<ListState<C>>,
                               count: nat): Listing<C>
    requires Progresses(fetch, rank)
  {
    if state.Some? && state.value.queue != [] then
      var queue := state.value.queue;
      var size := if |queue| < count then |queue| else count;
      Listing(ListState(state.value.cursor, queue[size..], queue[..size]), time)
    else if state.Some? && state.value.cursor.None? then
      Listing(ListState(None, [], []), time)
    else
      var c := Collect(fetch, rank, time, if state.Some? then state.value.cursor else None, [], count);
      var size := if |c.data| < count then |c.data| else count;
      Listing(ListState(c.cursor, c.data[size..], c.data[..size]), c.time)
  }

  class Storage<C(!new)> {
    const fetch: Provider<C>
    var time: nat

    constructor (fetch: Provider<C>)
      ensures this.fetch == fetch && time == 0
    {
      this.fetch := fetch;
      time := 0;
    }

    method ListPage(state: Option<ListState<C>>, count: nat, ghost rank: Option<C> -> nat) returns (page: ListState<C>)
      requires Progresses(fetch, rank)
      modifies this
      ensures Listing(page, time) == List(fetch, rank, old(time), state, count)
    {
      if state.Some? && |state.value.queue| > 0 {
        var queue := state.value.queue;
        var size := if |queue| < count then |queue| else count;
        return ListState(state.value.cursor, queue[size..], queue[..size]);
      }
      if state.Some? && state.value.cursor.None? {
        return ListState(None, [], []);
      }
      var cursor := if state.Some? then state.value.cursor else None;
      var data: seq<string> := [];
      ghost var whole := Collect(fetch, rank, time, cursor, [], count);
      var more := true;
      while more
        invariant more ==> Collect(fetch, rank, time, cursor, data, count) == whole
        invariant !more ==> Collected(data, cursor, time) == whole
        decreases more, Short(data, count), rank(cursor)
      {
        var r := fetch(time, cursor, Short(data, count));
        time := time + 1;
        cursor := r.cursor;
        data := data + r.keys;
        more := |data| < count && cursor.Some?;
      }
      var size := if |data| < count then |data| else count;
      page := ListState(cursor, data[size..], data[..size]);
    }

    /** The account listing: one page, and then what is left over from fetching it. */
    method ListWithPending(cursor: Option<C>, count: nat, ghost rank: Option<C> -> nat)
        returns (keys: seq<string>, next: Option<C>)
      requires Progresses(fetch, rank)
      modifies this
      ensures Collected(keys, next, time) == Collect(fetch, rank, old(time), cursor, [], count)
    {
      var state := if cursor.Some? then Some(ListState(cursor, [], [])) else None;
      var page := ListPage(state, count, rank);
      keys := page.keys;
      if |page.queue| > 0 {
        var pending := |page.queue|;
        ghost var fetched := page.keys + page.queue;
        page := ListPage(Some(page), pending, rank);
        keys := keys + page.keys;
        assert keys == fetched;
      }
      next := page.cursor;
    }
  }

  // ---------- nothing is lost ----------

  /**
   `log` holds the answers to consecutive calls from `time` on, each going on from the cursor before
   it and asking for at least `least` keys.
  */
  ghost predicate Chain<C(!new)>(fetch: Provider<C>, least: nat, time: nat, cursor: Option<C>, log: seq<Fetched<C>>,
                                 last: Option<C>)
    decreases |log|
  {
    if log == [] then last == cursor
    else
      && (exists n: nat :: n >= least && log[0] == fetch(time, cursor, n))
      && (if |log| == 1 then last == log[0].cursor
          else log[0].cursor.Some? && Chain(fetch, least, time + 1, log[0].cursor, log[1..], last))
  }

  function KeysOf<C>(log: seq<Fetched<C>>): seq<string>
  {
    if log == [] then [] else log[0].keys + KeysOf(log[1..])
  }

  lemma {:induction false} KeysOfConcat<C>(a: seq<Fetched<C>>, b: seq<Fetched<C>>)
    ensures KeysOf(a + b) == KeysOf(a) + KeysOf(b)
  {
    if a == [] {
      assert a + b == b;
    } else {
      assert (a + b)[1..] == a[1..] + b;
      KeysOfConcat(a[1..], b);
    }
  }

  lemma {:induction false} ChainConcat<C(!new)>(fetch: Provider<C>, least: nat, t: nat, c: Option<C>,
                                                a: seq<Fetched<C>>, mid: Option<C>, b: seq<Fetched<C>>, last: Option<C>)
    requires Chain(fetch, least, t, c, a, mid) && (b != [] ==> a == [] || mid.Some?)
    requires Chain(fetch, least, t + |a|, mid, b, last)
    ensures Chain(fetch, least, t, c, a + b, last)
    decreases |a|
  {
    if a == [] {
      assert a + b == b;
    } else if b == [] {
      assert a + b == a;
    } else {
      assert (a + b)[1..] == a[1..] + b;
      if |a| > 1 { ChainConcat(fetch, least, t + 1, a[0].cursor, a[1..], mid, b, last); }
    }
  }

  /** Every call of a listing asks for a key, unless pages are empty. */
  function Least(count: nat): nat
  {
    if count > 0 then 1 else 0
  }

  /** Each call asks for exactly what is missing of a page, of which there were `have` keys before the log. */
  ghost predicate AsksForMissing<C(!new)>(fetch: Provider<C>, time: nat, cursor: Option<C>, log: seq<Fetched<C>>,
                                          have: nat, count: nat)
    decreases |log|
  {
    log != [] ==>
      && log[0] == fetch(time, cursor, if have < count then count - have else 0)
      && AsksForMissing(fetch, time + 1, log[0].cursor, log[1..], have + |log[0].keys|, count)
  }

  lemma {:induction false} CollectConserves<C(!new)>(fetch: Provider<C>, rank: Option<C> -> nat, t: nat, c: Option<C>,
                                                     data: seq<string>, count: nat)
    returns (log: seq<Fetched<C>>)
    requires Progresses(fetch, rank) && (|data| < count || count == 0)
    ensures var r := Collect(fetch, rank, t, c, data, count);
            && log != [] && r.time == t + |log| && Chain(fetch, Least(count), t, c, log, r.cursor)
            && r.data == data + KeysOf(log) && AsksForMissing(fetch, t, c, log, |data|, count)
            && (|r.data| >= count || r.cursor.None?)
    decreases Short(data, count), rank(c)
  {
    var r := fetch(t, c, Short(data, count));
    var more := data + r.keys;
    if |more| < count && r.cursor.Some? {
      var rest := CollectConserves(fetch, rank, t + 1, r.cursor, more, count);
      log := [r] + rest;
      assert log[1..] == rest;
    } else {
      log := [r];
      assert log[1..] == [];
    }
  }

  /** One account listing returns all that its provider calls fetched, with the cursor of the last of them. */
  lemma PendingListLosesNothing<C(!new)>(fetch: Provider<C>, rank: Option<C> -> nat, t: nat, c: Option<C>, count: nat)
    returns (log: seq<Fetched<C>>)
    requires Progresses(fetch, rank)
    ensures var r := Collect(fetch, rank, t, c, [], count);
            && r.data == KeysOf(log) && Chain(fetch, Least(count), t, c, log, r.cursor) && r.time == t + |log|
            && AsksForMissing(fetch, t, c, log, 0, count) && (|r.data| >= count || r.cursor.None?)
  {
    log := CollectConserves(fetch, rank, t, c, [], count);
  }

  /** Account listings one after another, each with the cursor of the one before, until there is none. */
  ghost function FollowAccounts<C(!new)>(fetch: Provider<C>, rank: Option<C> -> nat, t: nat, cursor: Option<C>,
                                         count: nat, calls: nat): Collected<C>
    requires Progresses(fetch, rank)
    decreases calls
  {
    if calls == 0 then Collected([], cursor, t)
    else
      var r := Collect(fetch, rank, t, cursor, [], count);
      if r.cursor.None? then r
      else
        var rest := FollowAccounts(fetch, rank, r.time, r.cursor, count, calls - 1);
        rest.(data := r.data + rest.data)
  }

  /** Following account listings loses nothing either: together they are what the provider returned, in order. */
  lemma {:induction false} AccountListingsLoseNothing<C(!new)>(fetch: Provider<C>, rank: Option<C> -> nat, t: nat,
                                                               cursor: Option<C>, count: nat, calls: nat)
    returns (log: seq<Fetched<C>>)
    requires Progresses(fetch, rank)
    ensures var r := FollowAccounts(fetch, rank, t, cursor, count, calls);
            r.data == KeysOf(log) && Chain(fetch, Least(count), t, cursor, log, r.cursor) && r.time == t + |log|
    decreases calls
  {
    if calls == 0 {
      log := [];
    } else {
      var r := Collect(fetch, rank, t, cursor, [], count);
      log := PendingListLosesNothing(fetch, rank, t, cursor, count);
      if r.cursor.Some? {
        var rest := FollowAccounts(fetch, rank, r.time, r.cursor, count, calls - 1);
        var tail := AccountListingsLoseNothing(fetch, rank, r.time, r.cursor, count, calls - 1);
        hide Chain, KeysOf, Collect, Progresses;
        KeysOfConcat(log, tail);
        ChainConcat(fetch, Least(count), t, cursor, log, r.cursor, tail, rest.cursor);
        log := log + tail;
      }
    }
  }

  function QueueOf<C>(state: Option<ListState<C>>): seq<string>
  {
    if state.Some? then state.value.queue else []
  }

  function CursorOf<C>(state: Option<ListState<C>>): Option<C>
  {
    if state.Some? then state.value.cursor else None
  }

  /** What was queued and what is fetched is what is returned and what stays queued. */
  predicate Conserves<C>(before: seq<string>, log: seq<Fetched<C>>, keys: seq<string>, after: seq<string>)
  {
    before + KeysOf(log) == keys + after
  }

  /** One page: what was queued and what is fetched is what is returned and what stays queued. */
  lemma ListConserves<C(!new)>(fetch: Provider<C>, rank: Option<C> -> nat, t: nat, state: Option<ListState<C>>,
                               count: nat)
    returns (log: seq<Fetched<C>>)
    requires Progresses(fetch, rank)
    ensures var r := List(fetch, rank, t, state, count);
            && Conserves(QueueOf(state), log, r.state.keys, r.state.queue)
            && Chain(fetch, Least(count), t, CursorOf(state), log, r.state.cursor) && r.time == t + |log|
            && AsksForMissing(fetch, t, CursorOf(state), log, 0, count)
            && (log != [] ==> QueueOf(state) == [] && (state.None? || state.value.cursor.Some?))
            && |r.state.keys| <= count
            && (|r.state.keys| == count || (r.state.queue == [] && (r.state.cursor.None? || QueueOf(state) != [])))
  {
    hide Collect, Progresses;
    if QueueOf(state) != [] || (state.Some? && state.value.cursor.None?) {
      log := [];
    } else {
      log := CollectConserves(fetch, rank, t, CursorOf(state), [], count);
    }
  }

  datatype Followed<C> = Followed(keys: seq<string>, state: Option<ListState<C>>, time: nat)

  /** The concatenation of `pages` pages, each asked for with the state of the page before. */
  ghost function Follow<C(!new)>(fetch: Provider<C>, rank: Option<C> -> nat, t: nat, state: Option<ListState<C>>,
                                 count: nat, pages: nat): Followed<C>
    requires Progresses(fetch, rank)
    decreases pages
  {
    if pages == 0 then Followed([], state, t)
    else
      var r := List(fetch, rank, t, state, count);
      var rest := Follow(fetch, rank, r.time, Some(r.state), count, pages - 1);
      rest.(keys := r.state.keys + rest.keys)
  }

  /** The calls of `log` lead from one state to the next, and conserve the keys; after the end there are none. */
  ghost predicate Leads<C(!new)>(fetch: Provider<C>, count: nat, t: nat, state: Option<ListState<C>>,
                                 log: seq<Fetched<C>>,
                                 keys: seq<string>, state': Option<ListState<C>>)
  {
    && Conserves(QueueOf(state), log, keys, QueueOf(state'))
    && Chain(fetch, Least(count), t, CursorOf(state), log, CursorOf(state'))
    && (state.Some? && state.value.cursor.None? ==> log == [])
  }

  lemma LeadsOn<C(!new)>(fetch: Provider<C>, count: nat, t: nat, state: Option<ListState<C>>, head: seq<Fetched<C>>,
                         page: seq<string>,
                         mid: ListState<C>, tail: seq<Fetched<C>>, rest: seq<string>, last: Option<ListState<C>>)
    requires Leads(fetch, count, t, state, head, page, Some(mid)) &&
              Leads(fetch, count, t + |head|, Some(mid), tail, rest, last)
    ensures Leads(fetch, count, t, state, head + tail, page + rest, last)
  {
    ConservesOn(QueueOf(state), head, page, mid.queue, tail, rest, QueueOf(last));
    ChainConcat(fetch, Least(count), t, CursorOf(state), head, mid.cursor, tail, CursorOf(last));
    hide Conserves;
  }

  lemma ListLeads<C(!new)>(fetch: Provider<C>, rank: Option<C> -> nat, t: nat, state: Option<ListState<C>>, count: nat)
    returns (log: seq<Fetched<C>>)
    requires Progresses(fetch, rank)
    ensures var r := List(fetch, rank, t, state, count);
            Leads(fetch, count, t, state, log, r.state.keys, Some(r.state)) && r.time == t + |log|
  {
    log := ListConserves(fetch, rank, t, state, count);
    hide List, Conserves, Chain;
  }

  /**
   Any provider, any number of pages: the pages and the last queue together are what was queued
   and what the provider calls returned, in order, nothing lost and nothing doubled.
  */
  lemma {:induction false} FollowConserves<C(!new)>(fetch: Provider<C>, rank: Option<C> -> nat, t: nat,
                                                    state: Option<ListState<C>>, count: nat, pages: nat)
    returns (log: seq<Fetched<C>>)
    requires Progresses(fetch, rank)
    ensures var r := Follow(fetch, rank, t, state, count, pages);
            Leads(fetch, count, t, state, log, r.keys, r.state) && r.time == t + |log|
    decreases pages
  {
    hide Follow, List, Leads, Progresses;
    if pages == 0 {
      NoPages(fetch, rank, t, state, count);
      log := [];
    } else {
      var r := List(fetch, rank, t, state, count);
      var rest := Follow(fetch, rank, r.time, Some(r.state), count, pages - 1);
      FollowUnfolds(fetch, rank, t, state, count, pages);
      var head := ListLeads(fetch, rank, t, state, count);
      var tail := FollowConserves(fetch, rank, r.time, Some(r.state), count, pages - 1);
      LeadsOn(fetch, count, t, state, head, r.state.keys, r.state, tail, rest.keys, rest.state);
      log := head + tail;
    }
  }

  lemma NoPages<C(!new)>(fetch: Provider<C>, rank: Option<C> -> nat, t: nat, state: Option<ListState<C>>, count: nat)
    requires Progresses(fetch, rank)
    ensures Follow(fetch, rank, t, state, count, 0) == Followed([], state, t)
    ensures Leads(fetch, count, t, state, [], [], state)
  {}

  lemma FollowUnfolds<C(!new)>(fetch: Provider<C>, rank: Option<C> -> nat, t: nat, state: Option<ListState<C>>,
                               count: nat, pages: nat)
    requires Progresses(fetch, rank) && pages > 0
    ensures var r := List(fetch, rank, t, state, count);
            var rest := Follow(fetch, rank, r.time, Some(r.state), count, pages - 1);
            Follow(fetch, rank, t, state, count, pages) == rest.(keys := r.state.keys + rest.keys)
  {}

  lemma ConservesOn<C>(queue: seq<string>, head: seq<Fetched<C>>, page: seq<string>, left: seq<string>,
                       tail: seq<Fetched<C>>, rest: seq<string>, last: seq<string>)
    requires Conserves(queue, head, page, left) && Conserves(left, tail, rest, last)
    ensures Conserves(queue, head + tail, page + rest, last)
  {
    KeysOfConcat(head, tail);
    hide KeysOf;
    assert queue + (KeysOf(head) + KeysOf(tail)) == (queue + KeysOf(head)) + KeysOf(tail);
    assert (page + left) + KeysOf(tail) == page + (left + KeysOf(tail));
    assert page + (rest + last) == (page + rest) + last;
  }
}
