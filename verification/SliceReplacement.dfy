/**
 Learning from a node replaces that node's slice of each announced tunnel and nothing else:
 it keeps all other entries in order, does nothing the second time, and commutes between two
 senders up to the order of the list.
*/
module SliceReplacement {
  import opened Wrappers
  import opened ConnectionTable

  // ---------- filters ----------

  lemma {:induction false} FiltersOverAppend(xs: seq<Connection>, ys: seq<Connection>, node: string)
    ensures Others(xs + ys, node) == Others(xs, node) + Others(ys, node)
    ensures Slice(xs + ys, node) == Slice(xs, node) + Slice(ys, node)
  {
    if ys == [] {
      assert xs + ys == xs;
    } else {
      var front := ys[..|ys| - 1];
      assert (xs + ys)[..|xs + ys| - 1] == xs + front;
      FiltersOverAppend(xs, front, node);
    }
  }

  lemma {:induction false} FiltersOfOneNode(cs: seq<Connection>, from: string, node: string)
    requires forall c :: c in cs ==> c.node == from
    ensures Others(cs, node) == if node == from then [] else cs
    ensures Slice(cs, node) == if node == from then cs else []
  {
    if cs != [] {
      assert cs == cs[..|cs| - 1] + [cs[|cs| - 1]];
      FiltersOfOneNode(cs[..|cs| - 1], from, node);
    }
  }

  lemma FiltersOverOneMore(xs: seq<Connection>, c: Connection, node: string)
    ensures Others(xs + [c], node) == if c.node != node then Others(xs, node) + [c] else Others(xs, node)
    ensures Slice(xs + [c], node) == if c.node == node then Slice(xs, node) + [c] else Slice(xs, node)
  {
    assert (xs + [c])[..|xs|] == xs;
    assert Others(xs, node) + [] == Others(xs, node);
    assert Slice(xs, node) + [] == Slice(xs, node);
  }

  lemma {:induction false} FiltersOfOthers(cs: seq<Connection>, from: string, node: string)
    ensures Slice(Others(cs, from), node) == if node == from then [] else Slice(cs, node)
    ensures Others(Others(cs, from), from) == Others(cs, from)
  {
    if cs != [] {
      var front, last := cs[..|cs| - 1], cs[|cs| - 1];
      assert cs == front + [last];
      FiltersOfOthers(front, from, node);
      FiltersOverOneMore(front, last, from);
      FiltersOverOneMore(front, last, node);
      FiltersOverOneMore(Others(front, from), last, node);
      FiltersOverOneMore(Others(front, from), last, from);
    }
  }

  lemma {:induction false} OthersCommute(cs: seq<Connection>, m: string, n: string)
    ensures Others(Others(cs, m), n) == Others(Others(cs, n), m)
  {
    if cs != [] {
      var front, last := cs[..|cs| - 1], cs[|cs| - 1];
      assert cs == front + [last];
      OthersCommute(front, m, n);
      FiltersOverOneMore(front, last, m);
      FiltersOverOneMore(front, last, n);
      FiltersOverOneMore(Others(front, m), last, n);
      FiltersOverOneMore(Others(front, n), last, m);
    }
  }

  lemma {:induction false} AliveOverAppend(xs: seq<Connection>, ys: seq<Connection>)
    ensures Alive(xs + ys) == Alive(xs) + Alive(ys)
  {
    if ys == [] {
      assert xs + ys == xs;
    } else {
      assert (xs + ys)[..|xs + ys| - 1] == xs + ys[..|ys| - 1];
      AliveOverAppend(xs, ys[..|ys| - 1]);
    }
  }

  // ---------- one announcement ----------

  /** Announcements are built from the sender's own entries, one item for each tunnel. */
  predicate Honest(from: string, announces: seq<TunnelAnnounce>)
  {
    && (forall a, c :: a in announces && c in a.connections ==> c.node == from)
    && (forall j, k :: 0 <= j < k < |announces| ==> announces[j].tunnel != announces[k].tunnel)
  }

  /** For a sender's own entries, learning one tunnel replaces its slice and keeps the rest in order. */
  lemma LearnTunnelReplaces(t: Tunnel, from: string, announced: seq<ConnectionAnnounce>, now: int)
    requires forall c :: c in announced ==> c.node == from
    ensures var u := LearnTunnel(t, from, announced, now);
            && Slice(u.connections, from) == LearntAll(announced, now)
            && Others(u.connections, from) == Others(t.connections, from)
            && forall node :: node != from ==> Slice(u.connections, node) == Slice(t.connections, node)
  {
    var news := LearntAll(announced, now);
    var rest := Others(t.connections, from);
    forall c | c in news ensures c.node == from {
      var k :| 0 <= k < |news| && news[k] == c;
    }
    forall node
      ensures Slice(rest + news, node) == if node == from then news else Slice(t.connections, node)
    {
      FiltersOverAppend(rest, news, node);
      FiltersOfOneNode(news, from, node);
      FiltersOfOthers(t.connections, from, node);
    }
    FiltersOverAppend(rest, news, from);
    FiltersOfOneNode(news, from, from);
    FiltersOfOthers(t.connections, from, from);
  }

  lemma LearnTunnelTwice(t: Tunnel, from: string, announced: seq<ConnectionAnnounce>, now: int)
    requires forall c :: c in announced ==> c.node == from
    ensures var u := LearnTunnel(t, from, announced, now);
            LearnTunnel(u, from, announced, now) == u
  {
    LearnTunnelReplaces(t, from, announced, now);
    AlivePositive(Others(t.connections, from) + LearntAll(announced, now));
  }

  /** What an announcement says about tunnel `x`. */
  function RecordOf(announces: seq<TunnelAnnounce>, x: string): Option<seq<ConnectionAnnounce>>
  {
    if announces == [] then None
    else if announces[|announces| - 1].tunnel == x then Some(announces[|announces| - 1].connections)
    else RecordOf(announces[..|announces| - 1], x)
  }

  function LearnRecord(t: Tunnel, from: string, record: Option<seq<ConnectionAnnounce>>, now: int): Tunnel
  {
    if record.Some? then LearnTunnel(t, from, record.value, now) else t
  }

  lemma {:induction false} RecordIsOwn(from: string, announces: seq<TunnelAnnounce>, x: string)
    requires Honest(from, announces)
    ensures RecordOf(announces, x).Some? ==> forall c :: c in RecordOf(announces, x).value ==> c.node == from
    ensures RecordOf(announces, x).None? <==> forall k :: 0 <= k < |announces| ==> announces[k].tunnel != x
    ensures forall k :: 0 <= k < |announces| && announces[k].tunnel == x ==>
              RecordOf(announces, x) == Some(announces[k].connections)
  {
    if announces != [] {
      var n := |announces| - 1;
      assert announces == announces[..n] + [announces[n]];
      RecordIsOwn(from, announces[..n], x);
      forall k | 0 <= k < n ensures announces[..n][k] == announces[k] {}
    }
  }

  /** What a whole announcement does to one tunnel. */
  lemma {:induction false} LearnEachAt(tb: Table, from: string, announces: seq<TunnelAnnounce>, now: int, x: string)
    requires Honest(from, announces)
    ensures var after := LearnEach(tb, from, announces, now);
            && (x in after <==> x in tb || RecordOf(announces, x).Some?)
            && Get(after, x) == LearnRecord(Get(tb, x), from, RecordOf(announces, x), now)
  {
    if announces != [] {
      var n := |announces| - 1;
      var front, last := announces[..n], announces[n];
      assert announces == front + [last];
      LearnEachAt(tb, from, front, now, x);
      RecordIsOwn(from, front, x);
      forall k | 0 <= k < n ensures front[k] == announces[k] {}
    }
  }

  /**
   Slice replacement: after learning, the sender's slice of an announced tunnel is what it
   announced, the slices of all other nodes and the remaining order are untouched, and so are
   the tunnels it did not mention.
  */
  lemma LearnReplacesSlice(tb: Table, self: string, from: string, announces: seq<TunnelAnnounce>, now: int, x: string)
    requires Honest(from, announces) && from != self
    ensures var before, after := Get(tb, x), Get(Learn(tb, self, from, announces, now), x);
            match RecordOf(announces, x)
            case None => after == before
            case Some(announced) =>
              && Slice(after.connections, from) == LearntAll(announced, now)
              && Others(after.connections, from) == Others(before.connections, from)
              && forall node :: node != from ==> Slice(after.connections, node) == Slice(before.connections, node)
  {
    LearnEachAt(tb, from, announces, now, x);
    RecordIsOwn(from, announces, x);
    match RecordOf(announces, x)
    case None =>
    case Some(announced) => LearnTunnelReplaces(Get(tb, x), from, announced, now);
  }

  /** Hearing the same announcement again at the same time changes nothing at all. */
  lemma LearnTwice(tb: Table, self: string, from: string, announces: seq<TunnelAnnounce>, now: int)
    requires Honest(from, announces)
    ensures var once := Learn(tb, self, from, announces, now);
            Learn(once, self, from, announces, now) == once
  {
    if from != self {
      var once := LearnEach(tb, from, announces, now);
      var twice := LearnEach(once, from, announces, now);
      forall x ensures x in twice <==> x in once
               ensures Get(twice, x) == Get(once, x)
      {
        LearnEachAt(tb, from, announces, now, x);
        LearnEachAt(once, from, announces, now, x);
        RecordIsOwn(from, announces, x);
        if RecordOf(announces, x).Some? {
          LearnTunnelTwice(Get(tb, x), from, RecordOf(announces, x).value, now);
        }
      }
      assert twice.Keys == once.Keys;
      forall x | x in once ensures twice[x] == once[x] {
        assert Get(twice, x) == Get(once, x);
      }
    }
  }

  // ---------- two senders ----------

  /** The same entries up to order, and the same counters. */
  predicate SameUpToOrder(t: Tunnel, u: Tunnel)
  {
    multiset(t.connections) == multiset(u.connections) && t.alive == u.alive && t.connected == u.connected
  }

  function BothOthers(t: Tunnel, a: string, b: string): seq<Connection>
  {
    Others(Others(t.connections, a), b)
  }

  lemma AfterTwoSenders(t: Tunnel, a: string, fromA: seq<ConnectionAnnounce>,
                        b: string, fromB: seq<ConnectionAnnounce>, now: int)
    requires a != b
    requires forall c :: c in fromA ==> c.node == a
    ensures LearnTunnel(LearnTunnel(t, a, fromA, now), b, fromB, now).connections ==
            BothOthers(t, a, b) + LearntAll(fromA, now) + LearntAll(fromB, now)
  {
    var ra := LearntAll(fromA, now);
    forall c | c in ra ensures c.node == a { var k :| 0 <= k < |ra| && ra[k] == c; }
    FiltersOverAppend(Others(t.connections, a), ra, b);
    FiltersOfOneNode(ra, a, b);
  }

  lemma LearnTunnelCommutes(t: Tunnel, a: string, fromA: seq<ConnectionAnnounce>,
                            b: string, fromB: seq<ConnectionAnnounce>, now: int)
    requires a != b
    requires forall c :: c in fromA ==> c.node == a
    requires forall c :: c in fromB ==> c.node == b
    ensures SameUpToOrder(LearnTunnel(LearnTunnel(t, a, fromA, now), b, fromB, now),
                          LearnTunnel(LearnTunnel(t, b, fromB, now), a, fromA, now))
  {
    var one := LearnTunnel(LearnTunnel(t, a, fromA, now), b, fromB, now);
    var two := LearnTunnel(LearnTunnel(t, b, fromB, now), a, fromA, now);
    AfterTwoSenders(t, a, fromA, b, fromB, now);
    AfterTwoSenders(t, b, fromB, a, fromA, now);
    OthersCommute(t.connections, a, b);
    assert one.alive == Alive(one.connections) && two.alive == Alive(two.connections);
    assert one.connected == (one.alive > 0) && two.connected == (two.alive > 0);
    SwapTail(BothOthers(t, a, b), LearntAll(fromA, now), LearntAll(fromB, now), one.connections, two.connections);
  }

  lemma SwapTail(rest: seq<Connection>, xs: seq<Connection>, ys: seq<Connection>,
                 one: seq<Connection>, two: seq<Connection>)
    requires one == rest + xs + ys && two == rest + ys + xs
    ensures multiset(one) == multiset(two) && Alive(one) == Alive(two)
  {
    hide Alive;
    AliveOverAppend(rest + xs, ys);
    AliveOverAppend(rest, xs);
    AliveOverAppend(rest + ys, xs);
    AliveOverAppend(rest, ys);
  }

  /**
   Announcements of two nodes commute: the same tunnels, each with the same entries up to
   order and the same counters.
  */
  lemma LearnCommutes(tb: Table, self: string, a: string, fromA: seq<TunnelAnnounce>,
                      b: string, fromB: seq<TunnelAnnounce>, now: int)
    requires a != b && Honest(a, fromA) && Honest(b, fromB)
    ensures var one := Learn(Learn(tb, self, a, fromA, now), self, b, fromB, now);
            var two := Learn(Learn(tb, self, b, fromB, now), self, a, fromA, now);
            one.Keys == two.Keys && forall x :: x in one ==> SameUpToOrder(one[x], two[x])
  {
    if a != self && b != self {
      var afterA, afterB := LearnEach(tb, a, fromA, now), LearnEach(tb, b, fromB, now);
      var one, two := LearnEach(afterA, b, fromB, now), LearnEach(afterB, a, fromA, now);
      forall x ensures x in one <==> x in two
               ensures SameUpToOrder(Get(one, x), Get(two, x))
      {
        LearnEachAt(tb, a, fromA, now, x);
        LearnEachAt(tb, b, fromB, now, x);
        LearnEachAt(afterA, b, fromB, now, x);
        LearnEachAt(afterB, a, fromA, now, x);
        RecordIsOwn(a, fromA, x);
        RecordIsOwn(b, fromB, x);
        var ra, rb := RecordOf(fromA, x), RecordOf(fromB, x);
        if ra.Some? && rb.Some? {
          LearnTunnelCommutes(Get(tb, x), a, ra.value, b, rb.value, now);
        }
      }
      assert one.Keys == two.Keys;
      forall x | x in one ensures SameUpToOrder(one[x], two[x]) {
        assert SameUpToOrder(Get(one, x), Get(two, x));
      }
    }
  }
}
