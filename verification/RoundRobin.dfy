/**
 The choice of the next connection of a tunnel: the one after the last choice in the cyclic
 order of the ids, among the connected local ones, or the connected remote ones when there is
 no local one.
*/
module RoundRobin {
  import opened Wrappers
  import opened Ordering
  import opened ConnectionTable

  function UpLocal(cs: seq<Connection>): seq<Connection>
  {
    if cs == [] then []
    else UpLocal(cs[..|cs| - 1]) + if cs[|cs| - 1].connected && cs[|cs| - 1].local then [cs[|cs| - 1]] else []
  }

  function UpRemote(cs: seq<Connection>): seq<Connection>
  {
    if cs == [] then []
    else UpRemote(cs[..|cs| - 1]) + if cs[|cs| - 1].connected && !cs[|cs| - 1].local then [cs[|cs| - 1]] else []
  }

  /** The candidates for the next request. */
  function Eligible(cs: seq<Connection>): seq<Connection>
  {
    if UpLocal(cs) != [] then UpLocal(cs) else UpRemote(cs)
  }

  /** The stable sort by id. */
  function Sorted(cs: seq<Connection>): seq<Connection>
  {
    if cs == [] then [] else Insert(Sorted(cs[..|cs| - 1]), cs[|cs| - 1])
  }

  function Insert(sorted: seq<Connection>, c: Connection): seq<Connection>
  {
    if sorted == [] || !Before(c.id, sorted[|sorted| - 1].id) then sorted + [c]
    else Insert(sorted[..|sorted| - 1], c) + [sorted[|sorted| - 1]]
  }

  function Remembered(memory: map<string, string>, tunnel: string): (id: Option<string>)
    ensures tunnel in memory ==> id == Some(memory[tunnel])
    ensures tunnel !in memory ==> id == None
  {
    if tunnel in memory then Some(memory[tunnel]) else None
  }

  /** The position just after the first entry with the last id; the first position if there is none. */
  function NextIndex(cs: seq<Connection>, last: Option<string>): nat
    requires cs != []
  {
    IndexAfter(cs, last, 0) % |cs|
  }

  function IndexAfter(cs: seq<Connection>, last: Option<string>, i: nat): nat
    requires i <= |cs|
    decreases |cs| - i
  {
    if i == |cs| then i
    else if Some(cs[i].id) == last then i + 1
    else IndexAfter(cs, last, i + 1)
  }

  function Select(cs: seq<Connection>, last: Option<string>): Option<Connection>
  {
    var sorted := Sorted(Eligible(cs));
    if sorted == [] then None else Some(sorted[NextIndex(sorted, last)])
  }

  /** The connection for a request, and what is remembered after it. */
  function Serve(tb: Table, memory: map<string, string>, tunnel: string): (Option<Connection>, map<string, string>)
  {
    var next := if tunnel in tb then Select(tb[tunnel].connections, Remembered(memory, tunnel)) else None;
    (next, if next.Some? then memory[tunnel := next.value.id] else memory)
  }

  // ---------- sorting ----------

  predicate Ordered(cs: seq<Connection>)
  {
    forall j, k :: 0 <= j < k < |cs| ==> !Before(cs[k].id, cs[j].id)
  }

  lemma {:induction false} InsertAdds(sorted: seq<Connection>, c: Connection)
    ensures multiset(Insert(sorted, c)) == multiset(sorted) + multiset{c}
  {
    if sorted != [] && Before(c.id, sorted[|sorted| - 1].id) {
      var front, last := sorted[..|sorted| - 1], sorted[|sorted| - 1];
      assert sorted == front + [last];
      InsertAdds(front, c);
    }
  }

  lemma {:induction false} InsertKeepsOrder(sorted: seq<Connection>, c: Connection)
    requires Ordered(sorted)
    ensures Ordered(Insert(sorted, c))
  {
    if sorted != [] {
      var front, last := sorted[..|sorted| - 1], sorted[|sorted| - 1];
      if Before(c.id, last.id) {
        assert sorted == front + [last];
        InsertKeepsOrder(front, c);
        var r := Insert(front, c);
        forall k | 0 <= k < |r| ensures !Before(last.id, r[k].id) {
          InsertAdds(front, c);
          assert r[k] in multiset(front) + multiset{c} by { assert r[k] in multiset(r); }
          BeforeAsymmetric(c.id, last.id);
        }
      } else {
        BeforeIrreflexive(last.id);
        forall k | 0 <= k < |sorted| ensures !Before(c.id, sorted[k].id) {
          NotBeforeEarlier(sorted[k].id, last.id, c.id);
        }
      }
    }
  }

  lemma NotBeforeEarlier(a: string, b: string, c: string)
    requires !Before(b, a) && !Before(c, b)
    ensures !Before(c, a)
  {
    BeforeTotal(a, b);
    if Before(c, a) && Before(a, b) { BeforeTransitive(c, a, b); }
  }

  /** Sorting orders the candidates by id and neither drops nor invents any. */
  lemma {:induction false} SortedIsSort(cs: seq<Connection>)
    ensures multiset(Sorted(cs)) == multiset(cs) && Ordered(Sorted(cs)) && |Sorted(cs)| == |cs|
  {
    if cs != [] {
      var front, last := cs[..|cs| - 1], cs[|cs| - 1];
      assert cs == front + [last];
      SortedIsSort(front);
      InsertAdds(Sorted(front), last);
      InsertKeepsOrder(Sorted(front), last);
      assert |multiset(Sorted(cs))| == |Sorted(cs)| && |multiset(cs)| == |cs|;
    }
  }

  lemma SortedEmpty(cs: seq<Connection>)
    ensures Sorted(cs) == [] <==> cs == []
  {
    SortedIsSort(cs);
  }

  lemma {:induction false} UpEntries(cs: seq<Connection>)
    ensures forall c :: c in UpLocal(cs) <==> c in cs && c.connected && c.local
    ensures forall c :: c in UpRemote(cs) <==> c in cs && c.connected && !c.local
  {
    if cs != [] {
      UpEntries(cs[..|cs| - 1]);
      assert cs == cs[..|cs| - 1] + [cs[|cs| - 1]];
    }
  }

  /** The candidates are the connected local entries, or the connected remote ones if none is local. */
  lemma CandidatesExactly(cs: seq<Connection>)
    ensures forall c :: c in Eligible(cs) <==>
              c in cs && c.connected && (c.local || forall d :: d in cs && d.connected ==> !d.local)
  {
    UpEntries(cs);
    if UpLocal(cs) != [] { assert UpLocal(cs)[0] in UpLocal(cs); }
  }

  /** A candidate is selected unless no entry is connected. */
  lemma SelectsCandidate(cs: seq<Connection>, last: Option<string>)
    ensures match Select(cs, last)
            case Some(c) => c in Eligible(cs)
            case None => forall c :: c in cs ==> !c.connected
  {
    CandidatesExactly(cs);
    SortedIsSort(Eligible(cs));
    var s := Sorted(Eligible(cs));
    forall c ensures c in s <==> c in Eligible(cs) { assert c in multiset(s) <==> c in multiset(Eligible(cs)); }
    forall c | c in cs && c.connected ensures Eligible(cs) != [] {
      assert c in Eligible(cs) || exists d :: d in cs && d.connected && d.local && d in Eligible(cs);
    }
  }

  // ---------- rotation ----------

  predicate DistinctIds(cs: seq<Connection>)
  {
    forall j, k :: 0 <= j < k < |cs| ==> cs[j].id != cs[k].id
  }

  function Following(i: nat, n: nat): nat
  {
    if i + 1 == n then 0 else i + 1
  }

  lemma {:induction false} IndexAfterFinds(cs: seq<Connection>, i: nat, from: nat)
    requires DistinctIds(cs) && from <= i < |cs|
    ensures IndexAfter(cs, Some(cs[i].id), from) == i + 1
    decreases i - from
  {
    if from < i { IndexAfterFinds(cs, i, from + 1); }
  }

  lemma {:induction false} IndexAfterBounded(cs: seq<Connection>, last: Option<string>, from: nat)
    requires from <= |cs|
    ensures from <= IndexAfter(cs, last, from) <= |cs|
    decreases |cs| - from
  {
    if from < |cs| && Some(cs[from].id) != last { IndexAfterBounded(cs, last, from + 1); }
  }

  lemma {:induction false} IndexAfterNone(cs: seq<Connection>, last: Option<string>, from: nat)
    requires from <= |cs| && forall k :: from <= k < |cs| ==> Some(cs[k].id) != last
    ensures IndexAfter(cs, last, from) == |cs|
    decreases |cs| - from
  {
    if from < |cs| { IndexAfterNone(cs, last, from + 1); }
  }

  lemma NextIsFollowing(cs: seq<Connection>, i: nat)
    requires DistinctIds(cs) && i < |cs|
    ensures NextIndex(cs, Some(cs[i].id)) == Following(i, |cs|)
  {
    IndexAfterFinds(cs, i, 0);
  }

  /** How many of `k` successive choices fall on position `j`, the first one being `i` of `n`. */
  function Hits(i: nat, n: nat, j: nat, k: nat): nat
    decreases k
  {
    if k == 0 then 0
    else (if i == j then 1 else 0) + Hits(Following(i, n), n, j, k - 1)
  }

  function Distance(i: nat, n: nat, j: nat): nat
    requires i < n && j < n
  {
    if i <= j then j - i else j + n - i
  }

  lemma {:induction false} FirstHit(i: nat, n: nat, j: nat, k: nat)
    requires i < n && j < n
    ensures var d := Distance(i, n, j);
            Hits(i, n, j, k) == if k <= d then 0 else 1 + Hits(Following(j, n), n, j, k - d - 1)
    decreases k
  {
    if k > 0 && i != j { FirstHit(Following(i, n), n, j, k - 1); }
  }

  lemma {:induction false} HitsPerRound(n: nat, j: nat, k: nat)
    requires j < n
    ensures var h := Hits(Following(j, n), n, j, k);
            n * h <= k < n * (h + 1)
  {
    FirstHit(Following(j, n), n, j, k);
    assert Distance(Following(j, n), n, j) == n - 1;
    if k >= n {
      HitsPerRound(n, j, k - n);
      var h := Hits(Following(j, n), n, j, k - n);
      assert n * (h + 1) == n * h + n && n * (h + 2) == n * h + n + n;
    }
  }

  lemma HitsAreEven(i: nat, n: nat, j: nat, k: nat)
    requires i < n && j < n
    ensures n * (Hits(i, n, j, k) - 1) < k < n * (Hits(i, n, j, k) + 1)
    ensures k == n ==> Hits(i, n, j, k) == 1
  {
    hide Hits;
    var d := Distance(i, n, j);
    FirstHit(i, n, j, k);
    if k > d {
      HitsPerRound(n, j, k - d - 1);
      OneRoundMore(n, Hits(Following(j, n), n, j, k - d - 1), k, d);
    }
  }

  lemma OneRoundMore(n: nat, h: nat, k: nat, d: nat)
    requires d < n && d < k && n * h <= k - d - 1 < n * (h + 1)
    ensures k < n * (h + 2)
    ensures k == n ==> h == 0
  {
    assert n * (h + 2) == n * (h + 1) + n;
    if h > 0 { assert n * h == n + n * (h - 1); }
  }

  /** How many of `k` successive selections choose `c`, while the connections stay the same. */
  function TimesChosen(cs: seq<Connection>, last: Option<string>, k: nat, c: Connection): nat
    decreases k
  {
    if k == 0 then 0
    else
      match Select(cs, last)
      case None => 0
      case Some(next) => (if next == c then 1 else 0) + TimesChosen(cs, Some(next.id), k - 1, c)
  }

  lemma {:induction false} ChoicesRotate(cs: seq<Connection>, last: Option<string>, k: nat, j: nat)
    requires var s := Sorted(Eligible(cs)); DistinctIds(s) && j < |s|
    ensures var s := Sorted(Eligible(cs));
            TimesChosen(cs, last, k, s[j]) == Hits(NextIndex(s, last), |s|, j, k)
    decreases k
  {
    var s := Sorted(Eligible(cs));
    if k > 0 {
      var i := NextIndex(s, last);
      NextIsFollowing(s, i);
      ChoicesRotate(cs, Some(s[i].id), k - 1, j);
    }
  }

  /**
   Fairness: whatever was chosen last, n selections among n candidates choose each exactly
   once, and k selections choose each k/n times, rounded down or up.
  */
  lemma RoundRobinIsFair(cs: seq<Connection>, last: Option<string>, k: nat, c: Connection)
    requires DistinctIds(Eligible(cs)) && c in Eligible(cs)
    ensures var n := |Eligible(cs)|;
            && TimesChosen(cs, last, n, c) == 1
            && var times := TimesChosen(cs, last, k, c);
               n * (times - 1) < k < n * (times + 1)
  {
    hide TimesChosen, Hits, Sorted, Eligible;
    var s := Sorted(Eligible(cs));
    var j := SortedPosition(Eligible(cs), c);
    ChoicesRotate(cs, last, |s|, j);
    ChoicesRotate(cs, last, k, j);
    HitsAreEven(NextIndex(s, last), |s|, j, |s|);
    HitsAreEven(NextIndex(s, last), |s|, j, k);
  }

  lemma SortedPosition(cs: seq<Connection>, c: Connection) returns (j: nat)
    requires DistinctIds(cs) && c in cs
    ensures var s := Sorted(cs); |s| == |cs| && DistinctIds(s) && j < |s| && s[j] == c
  {
    SortedIsSort(cs);
    SortedDistinct(cs);
    assert c in multiset(Sorted(cs));
    j :| 0 <= j < |Sorted(cs)| && Sorted(cs)[j] == c;
  }

  /** The selection after `s[i]` is its successor in id order, and after the last one the first. */
  lemma SelectsInCyclicOrder(cs: seq<Connection>, i: nat)
    requires DistinctIds(Eligible(cs)) && i < |Eligible(cs)|
    ensures var s := Sorted(Eligible(cs));
            && |s| == |Eligible(cs)| && multiset(s) == multiset(Eligible(cs))
            && (forall j, k :: 0 <= j < k < |s| ==> Before(s[j].id, s[k].id))
            && Select(cs, Some(s[i].id)) == Some(s[Following(i, |s|)])
  {
    CandidatesInOrder(cs);
    NextIsFollowing(Sorted(Eligible(cs)), i);
  }

  /** If none of the candidates was selected last, the first one in id order is selected. */
  lemma SelectsFirst(cs: seq<Connection>, last: Option<string>)
    requires Eligible(cs) != [] && forall c :: c in Eligible(cs) ==> Some(c.id) != last
    ensures var s := Sorted(Eligible(cs)); |s| == |Eligible(cs)| && Select(cs, last) == Some(s[0])
  {
    var s := Sorted(Eligible(cs));
    SortedIsSort(Eligible(cs));
    forall k | 0 <= k < |s| ensures Some(s[k].id) != last { assert s[k] in multiset(s); }
    IndexAfterNone(s, last, 0);
  }

  lemma CandidatesInOrder(cs: seq<Connection>)
    requires DistinctIds(Eligible(cs))
    ensures var s := Sorted(Eligible(cs));
            && |s| == |Eligible(cs)| && multiset(s) == multiset(Eligible(cs)) && DistinctIds(s)
            && (forall j, k :: 0 <= j < k < |s| ==> Before(s[j].id, s[k].id))
  {
    var s := Sorted(Eligible(cs));
    SortedIsSort(Eligible(cs));
    SortedDistinct(Eligible(cs));
    forall j, k | 0 <= j < k < |s| ensures Before(s[j].id, s[k].id) {
      BeforeTotal(s[j].id, s[k].id);
    }
  }

  lemma SortedDistinct(cs: seq<Connection>)
    requires DistinctIds(cs)
    ensures DistinctIds(Sorted(cs))
  {
    var s := Sorted(cs);
    SortedIsSort(cs);
    forall j, k | 0 <= j < k < |s| ensures s[j].id != s[k].id {
      assert s[j] in multiset(s) && s[k] in multiset(s);
      if s[j].id == s[k].id {
        var p :| 0 <= p < |cs| && cs[p] == s[j];
        var q :| 0 <= q < |cs| && cs[q] == s[k];
        OccursTwice(s, j, k);
        OccursOnce(cs, s[j]);
      }
    }
  }

  lemma OccursTwice(s: seq<Connection>, j: nat, k: nat)
    requires j < k < |s| && s[j] == s[k]
    ensures multiset(s)[s[j]] >= 2
  {
    assert s == s[..k] + s[k..];
    assert s[j] in s[..k] && s[k] in s[k..];
  }

  lemma {:induction false} OccursOnce(cs: seq<Connection>, c: Connection)
    requires DistinctIds(cs)
    ensures multiset(cs)[c] <= 1
  {
    if cs != [] {
      var front, last := cs[..|cs| - 1], cs[|cs| - 1];
      assert cs == front + [last];
      OccursOnce(front, c);
      if c == last { assert c !in front; }
    }
  }
}
