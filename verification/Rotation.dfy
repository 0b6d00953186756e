/**
 The rotation over the connections of a tunnel as requests see it: each request reads the
 connection remembered for its tunnel and leaves another one behind, for the requests after it.
*/
module Rotation {
  import opened Wrappers
  import opened Ordering
  import opened ConnectionTable
  import opened RoundRobin

  /** What happens to the memory: a request for a tunnel, or tunnels that are dropped. */
  datatype Turn = Request(tunnels: Table, tunnel: string) | Drop(gone: set<string>)

  function MemoryAfter(memory: map<string, string>, turn: Turn): map<string, string>
  {
    match turn
    case Request(tb, x) => Serve(tb, memory, x).1
    case Drop(gone) => memory - gone
  }

  function RequestsFor(turns: seq<Turn>, x: string): nat
  {
    if turns == [] then 0
    else (if turns[0].Request? && turns[0].tunnel == x then 1 else 0) + RequestsFor(turns[1..], x)
  }

  /** How many of the requests for a tunnel are served by `c`, each reading what those before it left. */
  function TimesServed(memory: map<string, string>, turns: seq<Turn>, x: string, c: Connection): nat
    decreases |turns|
  {
    if turns == [] then 0
    else
      (if turns[0].Request? && turns[0].tunnel == x && Serve(turns[0].tunnels, memory, x).0 == Some(c) then 1 else 0)
      + TimesServed(MemoryAfter(memory, turns[0]), turns[1..], x, c)
  }

  /** The tunnel keeps these connections; all others may come and go. */
  predicate Steady(turns: seq<Turn>, x: string, cs: seq<Connection>)
  {
    forall k :: 0 <= k < |turns| ==>
      match turns[k]
      case Request(tb, y) => y == x ==> x in tb && tb[x].connections == cs
      case Drop(gone) => x !in gone
  }

  lemma {:induction false} ServedAsChosen(memory: map<string, string>, turns: seq<Turn>, x: string,
                                          cs: seq<Connection>, c: Connection)
    requires Steady(turns, x, cs) && Eligible(cs) != []
    ensures TimesServed(memory, turns, x, c) == TimesChosen(cs, Remembered(memory, x), RequestsFor(turns, x), c)
    decreases |turns|
  {
    if turns != [] {
      SteadyAfter(turns, x, cs);
      TurnServes(memory, turns[0], x, cs);
      ServedAsChosen(MemoryAfter(memory, turns[0]), turns[1..], x, cs, c);
      hide Steady, Sorted, Eligible, Select, MemoryAfter, Serve;
    }
  }

  lemma SteadyAfter(turns: seq<Turn>, x: string, cs: seq<Connection>)
    requires Steady(turns, x, cs) && turns != []
    ensures Steady(turns[..1], x, cs) && Steady(turns[1..], x, cs) && turns[..1] == [turns[0]]
  {}

  /** A request for the tunnel is a selection after the remembered one, and no other turn concerns the tunnel. */
  lemma TurnServes(memory: map<string, string>, turn: Turn, x: string, cs: seq<Connection>)
    requires Steady([turn], x, cs) && Eligible(cs) != []
    ensures var last, after := Remembered(memory, x), MemoryAfter(memory, turn);
            if turn.Request? && turn.tunnel == x
            then
              && Select(cs, last).Some? && Serve(turn.tunnels, memory, x).0 == Select(cs, last)
              && Remembered(after, x) == Some(Select(cs, last).value.id)
            else Remembered(after, x) == last
  {
    assert [turn][0] == turn;
    SortedEmpty(Eligible(cs));
    hide Sorted, Eligible;
  }

  /**
   Fairness of the rotation: while a tunnel keeps its connections, k requests for it are served by each
   of n candidates k/n times, rounded down or up, and n requests by each exactly once, whatever was
   remembered at first and whatever requests for other tunnels come in between.
  */
  lemma RequestsAreServedFairly(memory: map<string, string>, turns: seq<Turn>, x: string, cs: seq<Connection>,
                                c: Connection)
    requires Steady(turns, x, cs) && DistinctIds(Eligible(cs)) && c in Eligible(cs)
    ensures var n, k, times := |Eligible(cs)|, RequestsFor(turns, x), TimesServed(memory, turns, x, c);
            n * (times - 1) < k < n * (times + 1) && (k == n ==> times == 1)
  {
    ServedAsChosen(memory, turns, x, cs, c);
    RoundRobinIsFair(cs, Remembered(memory, x), RequestsFor(turns, x), c);
  }

  /**
   One request: after the candidate that is remembered its successor in the order of ids, after the last
   one the first, and the first also if none of them is remembered; and its own id is remembered.
  */
  lemma ServesSuccessor(tb: Table, memory: map<string, string>, x: string)
    requires x in tb && Eligible(tb[x].connections) != [] && DistinctIds(Eligible(tb[x].connections))
    ensures var s, (next, after) := Sorted(Eligible(tb[x].connections)), Serve(tb, memory, x);
            && |s| == |Eligible(tb[x].connections)| && multiset(s) == multiset(Eligible(tb[x].connections))
            && (forall j, k :: 0 <= j < k < |s| ==> Before(s[j].id, s[k].id))
            && next.Some? && after == memory[x := next.value.id]
            && (forall i :: 0 <= i < |s| && x in memory && memory[x] == s[i].id ==>
                  next.value == s[if i + 1 < |s| then i + 1 else 0])
            && ((x in memory ==> forall i :: 0 <= i < |s| ==> s[i].id != memory[x]) ==> next.value == s[0])
  {
    hide Sorted, Eligible, Select, Before;
    var cs := tb[x].connections;
    CandidatesInOrder(cs);
    SelectsAfter(cs, Remembered(memory, x));
  }

  lemma SelectsAfter(cs: seq<Connection>, last: Option<string>)
    requires Eligible(cs) != [] && DistinctIds(Eligible(cs))
    ensures var s, next := Sorted(Eligible(cs)), Select(cs, last);
            && |s| == |Eligible(cs)| && next.Some?
            && (forall i :: 0 <= i < |s| && last == Some(s[i].id) ==>
                  next.value == s[if i + 1 < |s| then i + 1 else 0])
            && ((forall i :: 0 <= i < |s| ==> Some(s[i].id) != last) ==> next.value == s[0])
  {
    hide Sorted, Eligible, Select, Before;
    var s := Sorted(Eligible(cs));
    CandidatesInOrder(cs);
    if i :| 0 <= i < |s| && last == Some(s[i].id) {
      SelectsInCyclicOrder(cs, i);
    } else {
      forall c | c in Eligible(cs) ensures Some(c.id) != last { assert c in multiset(s); }
      SelectsFirst(cs, last);
    }
  }

  /** A request leaves the next one for every other tunnel as it is. */
  lemma OthersAreUndisturbed(tb: Table, tb': Table, memory: map<string, string>, x: string, y: string)
    requires x != y
    ensures Serve(tb', Serve(tb, memory, x).1, y).0 == Serve(tb', memory, y).0
  {}
}
