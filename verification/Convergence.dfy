/**
 Convergence of the gossiping nodes: a node's view of another node's connections is exactly
 the last record it processed from that node, until an entry of it expires. So once those
 records are the owners' newest, all nodes hold the same connected entries.
*/
module Convergence {
  import opened Wrappers
  import opened ConnectionTable
  import opened SliceReplacement
  import opened Gossip

  datatype Up = Up(id: string, peer: string)

  /** The connected entries of one node in a tunnel's list. */
  function UpOf(cs: seq<Connection>, node: string): seq<Up>
  {
    if cs == [] then []
    else
      var c := cs[|cs| - 1];
      if c.node == node && c.connected then UpOf(cs[..|cs| - 1], node) + [Up(c.id, c.peer)]
      else UpOf(cs[..|cs| - 1], node)
  }

  /** The connected entries of a record. */
  function UpIn(record: seq<ConnectionAnnounce>): seq<Up>
  {
    if record == [] then []
    else
      var e := record[|record| - 1];
      if e.connected then UpIn(record[..|record| - 1]) + [Up(e.id, e.peer)]
      else UpIn(record[..|record| - 1])
  }

  function Held(net: Net, v: View): seq<Up>
    requires v.at in net.tables
  {
    UpOf(Get(net.tables[v.at], v.tunnel).connections, v.owner)
  }

  function Seen(net: Net, v: View): seq<ConnectionAnnounce>
  {
    if v in net.seen then net.seen[v] else []
  }

  /** The newest record of `owner`: what it would announce now. */
  function Newest(net: Net, owner: string, tunnel: string): seq<ConnectionAnnounce>
    requires owner in net.tables
  {
    LocalRecord(Get(net.tables[owner], tunnel).connections)
  }

  predicate ViewInv(net: Net, v: View)
    requires v.at in net.tables
  {
    v.at != v.owner && v !in net.expired ==> Held(net, v) == UpIn(Seen(net, v))
  }

  lemma {:induction false} UpOfSlice(cs: seq<Connection>, node: string)
    ensures UpOf(Slice(cs, node), node) == UpOf(cs, node)
  {
    if cs != [] {
      var front, last := cs[..|cs| - 1], cs[|cs| - 1];
      UpOfSlice(front, node);
      if last.node == node {
        assert Slice(cs, node)[..|Slice(cs, node)| - 1] == Slice(front, node);
      } else {
        assert Slice(cs, node) == Slice(front, node);
      }
    }
  }

  lemma {:induction false} UpOfLearnt(record: seq<ConnectionAnnounce>, node: string, now: int)
    requires forall e :: e in record ==> e.node == node
    ensures UpOf(LearntAll(record, now), node) == UpIn(record)
  {
    if record != [] {
      var n := |record| - 1;
      assert record[n] in record;
      UpOfLearnt(record[..n], node, now);
      assert LearntAll(record, now)[..n] == LearntAll(record[..n], now);
    }
  }

  lemma {:induction false} UpOfLocalRecord(cs: seq<Connection>, node: string)
    requires forall c :: c in cs ==> (c.local <==> c.node == node)
    ensures UpIn(LocalRecord(cs)) == UpOf(cs, node)
  {
    if cs != [] {
      var front, last := cs[..|cs| - 1], cs[|cs| - 1];
      assert cs == front + [last];
      UpOfLocalRecord(front, node);
      if last.local {
        assert LocalRecord(cs)[..|LocalRecord(cs)| - 1] == LocalRecord(front);
      } else {
        assert LocalRecord(cs) == LocalRecord(front);
      }
    }
  }

  lemma {:induction false} UpOfDown(cs: seq<Connection>, node: string, id: string, now: int)
    requires forall c :: c in cs && c.local ==> c.node != node
    ensures UpOf(Down(cs, id, now), node) == UpOf(cs, node)
  {
    if cs != [] {
      var n := |cs| - 1;
      assert cs[n] in cs;
      UpOfDown(cs[..n], node, id, now);
      assert Down(cs, id, now)[..n] == Down(cs[..n], id, now);
    }
  }

  lemma {:induction false} UpOfRefreshed(cs: seq<Connection>, node: string, now: int)
    requires forall c :: c in cs && c.node == node ==> !Expires(c, now)
    ensures UpOf(RefreshConnections(cs, now), node) == UpOf(cs, node)
  {
    if cs != [] {
      var front, last := cs[..|cs| - 1], cs[|cs| - 1];
      assert last in cs;
      UpOfRefreshed(front, node, now);
      if Kept(Expired(last, now), now) {
        assert RefreshConnections(cs, now)[..|RefreshConnections(cs, now)| - 1] == RefreshConnections(front, now);
      } else {
        assert RefreshConnections(cs, now) == RefreshConnections(front, now);
      }
    }
  }

  // ---------- each event ----------

  /** At its own node a connection is local, and no other is. */
  lemma LocalMeansOwn(net: Net, n: string, x: string)
    requires Inv(net) && n in net.tables
    ensures forall c :: c in Get(net.tables[n], x).connections ==> (c.local <==> c.node == n)
  {
    assert TableInv(net, n, net.tables[n]);
    forall c | c in Get(net.tables[n], x).connections ensures c.local <==> c.node == n {
      assert EntryInv(net, n, x, c);
    }
  }

  lemma ConnectKeepsView(net: Net, e: Event, v: View)
    requires Enabled(net, e) && e.Connect? && v.at == e.node && v.at != v.owner
    ensures UpOf(Get(AtNode(net, e), v.tunnel).connections, v.owner) == Held(net, v)
  {
    var cs := Get(net.tables[e.node], v.tunnel).connections;
    var c := Connection(e.id, e.node, e.peer, true, true, Some(e.now), None, e.now);
    assert (cs + [c])[..|cs|] == cs;
  }

  lemma ExpireKeepsView(net: Net, e: Event, v: View)
    requires Enabled(net, e) && e.Expire? && v.at == e.node
    requires v !in ExpiringViews(e.node, net.tables[e.node], e.now)
    ensures UpOf(Get(AtNode(net, e), v.tunnel).connections, v.owner) == Held(net, v)
  {
    var tb := net.tables[e.node];
    var cs := Get(tb, v.tunnel).connections;
    assert forall c :: c in cs && Expires(c, e.now) ==>
        View(e.node, c.node, v.tunnel) in ExpiringViews(e.node, tb, e.now);
    UpOfRefreshed(cs, v.owner, e.now);
  }

  lemma LocalEventKeepsView(net: Net, e: Event, v: View)
    requires Inv(net) && Enabled(net, e) && !e.Deliver?
    requires v.at == e.node && v.at != v.owner
    requires e.Expire? ==> v !in ExpiringViews(e.node, net.tables[e.node], e.now)
    ensures UpOf(Get(AtNode(net, e), v.tunnel).connections, v.owner) == Held(net, v)
  {
    match e
    case Connect(_, _, _, _, _) => ConnectKeepsView(net, e, v);
    case GoDown(_, x, id, now) =>
      LocalMeansOwn(net, e.node, v.tunnel);
      UpOfDown(Get(net.tables[e.node], v.tunnel).connections, v.owner, id, now);
    case Expire(_, _) => ExpireKeepsView(net, e, v);
    case _ =>
  }

  lemma DeliverKeepsView(net: Net, e: Event, v: View)
    requires Inv(net) && Enabled(net, e) && e.Deliver?
    requires v.at == e.node && v.at != v.owner
    ensures var record := RecordOf(e.announcement.tunnels, v.tunnel);
            UpOf(Get(AtNode(net, e), v.tunnel).connections, v.owner) ==
            if e.announcement.from == v.owner && record.Some? then UpIn(record.value) else Held(net, v)
  {
    var a := e.announcement;
    assert SentInv(net, a);
    if a.from != e.node {
      var tb, tb' := net.tables[e.node], AtNode(net, e);
      var before, after := Get(tb, v.tunnel).connections, Get(tb', v.tunnel).connections;
      LearnReplacesSlice(tb, e.node, a.from, a.tunnels, e.now, v.tunnel);
      RecordIsOwn(a.from, a.tunnels, v.tunnel);
      UpOfSlice(after, v.owner);
      UpOfSlice(before, v.owner);
      var record := RecordOf(a.tunnels, v.tunnel);
      if record.Some? && a.from == v.owner {
        UpOfLearnt(record.value, v.owner, e.now);
      }
    }
  }

  lemma StepKeepsView(net: Net, e: Event, v: View)
    requires Inv(net) && Enabled(net, e) && v.at in net.tables && ViewInv(net, v)
    ensures ViewInv(Step(net, e), v)
  {
    if v.at == e.node && v.at != v.owner {
      if e.Deliver? {
        DeliverKeepsView(net, e, v);
        DeliverSees(net, e, v);
      } else {
        if !e.Expire? || v !in ExpiringViews(e.node, net.tables[e.node], e.now) {
          LocalEventKeepsView(net, e, v);
        }
      }
    }
  }

  /** A delivery replaces the last processed record, and clears the expiry, of the views it tells about. */
  lemma DeliverSees(net: Net, e: Event, v: View)
    requires Enabled(net, e) && e.Deliver? && v.at == e.node && v.at != v.owner
    ensures var a := e.announcement;
            var record := if a.from == v.owner then RecordOf(a.tunnels, v.tunnel) else None;
            var net' := Step(net, e);
            if record.Some? then Seen(net', v) == record.value && v !in net'.expired
            else Seen(net', v) == Seen(net, v) && (v in net'.expired <==> v in net.expired)
  {
    var told := Told(e.node, e.announcement);
    assert v in told <==> e.announcement.from == v.owner && RecordOf(e.announcement.tunnels, v.tunnel).Some?;
  }

  lemma {:induction false} ReachableView(nodes: set<string>, es: seq<Event>, net: Net, v: View)
    requires Reaches(nodes, es, net) && v.at in net.tables
    ensures ViewInv(net, v)
  {
    if es != [] {
      var before: Net :| Reaches(nodes, es[..|es| - 1], before) && Next(before, es[|es| - 1], net);
      hide Reaches, ViewInv, Step;
      assert v.at in before.tables by { StepIsFacts(before, es[|es| - 1]); }
      ReachableView(nodes, es[..|es| - 1], before, v);
      ReachableInv(nodes, es[..|es| - 1], before);
      StepKeepsView(before, es[|es| - 1], v);
    }
  }

  // ---------- convergence ----------

  /** Nothing of the view has expired, and its last record tells what the owner would tell now. */
  predicate UpToDate(net: Net, v: View)
    requires v.owner in net.tables
  {
    v !in net.expired && UpIn(Seen(net, v)) == UpIn(Newest(net, v.owner, v.tunnel))
  }

  predicate AllUpToDate(net: Net, x: string)
  {
    forall at, owner :: at in net.tables && owner in net.tables && at != owner ==>
      UpToDate(net, View(at, owner, x))
  }

  lemma OwnViewIsNewest(net: Net, owner: string, x: string)
    requires Inv(net) && owner in net.tables
    ensures UpIn(Newest(net, owner, x)) == UpOf(Get(net.tables[owner], x).connections, owner)
  {
    LocalMeansOwn(net, owner, x);
    UpOfLocalRecord(Get(net.tables[owner], x).connections, owner);
  }

  /**
   A view without expired entries agrees with the owner's own table exactly when the last
   record processed is as good as the owner's newest.
  */
  lemma ViewAgreesExactly(nodes: set<string>, es: seq<Event>, net: Net, v: View)
    requires Reaches(nodes, es, net) && v.at in net.tables && v.owner in net.tables
    requires v.at != v.owner && v !in net.expired
    ensures Held(net, v) == UpOf(Get(net.tables[v.owner], v.tunnel).connections, v.owner)
            <==> UpToDate(net, v)
  {
    ReachableInv(nodes, es, net);
    ReachableView(nodes, es, net, v);
    OwnViewIsNewest(net, v.owner, v.tunnel);
  }

  /** `n` holds a connected entry of tunnel `x` with this owner, id and peer. */
  predicate HoldsUp(net: Net, n: string, x: string, owner: string, up: Up)
    requires n in net.tables
  {
    exists c :: c in Get(net.tables[n], x).connections && c.node == owner && c.connected && Up(c.id, c.peer) == up
  }

  lemma {:induction false} InUpOf(cs: seq<Connection>, owner: string, up: Up)
    ensures up in UpOf(cs, owner) <==>
            exists c :: c in cs && c.node == owner && c.connected && Up(c.id, c.peer) == up
  {
    if cs != [] {
      var front, last := cs[..|cs| - 1], cs[|cs| - 1];
      assert cs == front + [last];
      InUpOf(front, owner, up);
      if up in UpOf(front, owner) {
        var c :| c in front && c.node == owner && c.connected && Up(c.id, c.peer) == up;
        assert c in cs;
      } else if up in UpOf(cs, owner) {
        assert last in cs;
      }
    }
  }

  /**
   Convergence: in any run, once every view of a tunnel is up to date, all nodes hold the same
   connected entries of it, whatever was lost, repeated or reordered before.
  */
  lemma Converged(nodes: set<string>, es: seq<Event>, net: Net, x: string, m: string, n: string, owner: string, up: Up)
    requires Reaches(nodes, es, net) && AllUpToDate(net, x)
    requires m in net.tables && n in net.tables && owner in net.tables
    ensures HoldsUp(net, m, x, owner, up) <==> HoldsUp(net, n, x, owner, up)
  {
    forall at | at in net.tables
      ensures UpOf(Get(net.tables[at], x).connections, owner) == UpOf(Get(net.tables[owner], x).connections, owner)
    {
      if at != owner {
        assert UpToDate(net, View(at, owner, x));
        ViewAgreesExactly(nodes, es, net, View(at, owner, x));
      }
    }
    InUpOf(Get(net.tables[m], x).connections, owner, up);
    InUpOf(Get(net.tables[n], x).connections, owner, up);
  }
}
