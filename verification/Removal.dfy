/**
 Which of its own connections a node holds as connected, in every run of the network: removals
 take theirs down one at a time, and anything may happen between two of their turns.
*/
module Removal {
  import opened Wrappers
  import opened ConnectionTable
  import opened SliceReplacement
  import opened Gossip
  import Expiry

  predicate UpAt(tb: Table, x: string, id: string)
  {
    exists c :: c in Get(tb, x).connections && c.local && c.id == id && c.connected
  }

  /** The connection was made at the node, and not taken down since. */
  predicate MadeAndKept(es: seq<Event>, n: string, x: string, id: string)
  {
    if es == [] then false
    else
      var last := es[|es| - 1];
      if last.Connect? && last.node == n && last.tunnel == x && last.id == id then true
      else if last.GoDown? && last.node == n && last.tunnel == x && last.id == id then false
      else MadeAndKept(es[..|es| - 1], n, x, id)
  }

  lemma DownTakesDown(tb: Table, y: string, down: string, now: int, x: string, id: string)
    ensures UpAt(MarkDown(tb, y, down, now), x, id) <==> UpAt(tb, x, id) && !(x == y && id == down)
  {
    if y in tb && x == y {
      var cs, cs' := tb[y].connections, Down(tb[y].connections, down, now);
      if UpAt(tb, x, id) && id != down {
        var c :| c in cs && c.local && c.id == id && c.connected;
        var k :| 0 <= k < |cs| && cs[k] == c;
        assert cs'[k] in cs';
      }
      forall c | c in cs' && c.local && c.id == id && c.connected ensures c in cs && id != down {
        var k :| 0 <= k < |cs'| && cs'[k] == c;
        assert cs[k] in cs;
      }
    }
  }

  lemma RefreshKeepsUp(tb: Table, now: int, x: string, id: string)
    ensures UpAt(Refresh(tb, now), x, id) <==> UpAt(tb, x, id)
  {
    if x in tb {
      var cs, kept := tb[x].connections, RefreshConnections(tb[x].connections, now);
      Expiry.InRefreshed(cs, now);
      hide RefreshConnections;
      forall c | c in cs && c.local && c.connected ensures c in kept && x in Refresh(tb, now) {
        assert Expired(c, now) == c;
      }
      forall d | d in kept && d.local && d.connected ensures d in cs {
        var c :| c in cs && Expired(c, now) == d;
      }
    }
  }

  lemma AddKeepsUp(tb: Table, y: string, added: Connection, now: int, x: string, id: string)
    requires added.local && added.connected
    ensures UpAt(AddConnection(tb, y, added, now), x, id) <==> UpAt(tb, x, id) || (x == y && added.id == id)
  {
    var cs, cs' := Get(tb, x).connections, Get(AddConnection(tb, y, added, now), x).connections;
    assert cs' == if x == y then cs + [added] else cs;
    if x == y {
      assert forall c :: c in cs + [added] <==> c in cs || c == added;
    }
  }

  lemma DeliverKeepsUp(net: Net, n: string, a: Announcement, now: int, x: string, id: string)
    requires Inv(net) && n in net.tables && a in net.sent
    ensures UpAt(Learn(net.tables[n], n, a.from, a.tunnels, now), x, id) <==> UpAt(net.tables[n], x, id)
  {
    if a.from != n {
      assert SentInv(net, a);
      DeliverKeepsTable(net, n, a, now);
      var tb, tb' := net.tables[n], Learn(net.tables[n], n, a.from, a.tunnels, now);
      LearnReplacesSlice(tb, n, a.from, a.tunnels, now, x);
      var cs, cs' := Get(tb, x).connections, Get(tb', x).connections;
      Expiry.InSlice(cs, n);
      Expiry.InSlice(cs', n);
      assert TableInv(net, n, tb);
      forall c | c in cs && c.local ensures c in cs' { assert EntryInv(net, n, x, c); }
      forall c | c in cs' && c.local ensures c in cs { assert EntryInv(net, n, x, c); }
    }
  }

  lemma StepKeepsUp(net: Net, e: Event, x: string, id: string)
    requires Inv(net) && Enabled(net, e)
    ensures UpAt(AtNode(net, e), x, id) <==>
              || (e.Connect? && e.tunnel == x && e.id == id)
              || (UpAt(net.tables[e.node], x, id) && !(e.GoDown? && e.tunnel == x && e.id == id))
  {
    var tb := net.tables[e.node];
    match e
    case Connect(n, y, added, peer, now) =>
      AddKeepsUp(tb, y, Connection(added, n, peer, true, true, Some(now), None, now), now, x, id);
    case GoDown(_, y, down, now) => DownTakesDown(tb, y, down, now, x, id);
    case FinishRemoval(_, _, _) =>
    case Expire(_, now) => RefreshKeepsUp(tb, now, x, id);
    case Announce(_, _) =>
    case Deliver(n, a, now) => DeliverKeepsUp(net, n, a, now, x, id);
  }

  /**
   In every run a node holds a connection of its own as connected exactly if it was made there and
   no turn of a removal took it down since, whatever came between the turns.
  */
  lemma {:induction false} OwnConnectionsExactly(nodes: set<string>, es: seq<Event>, net: Net, n: string, x: string,
                                                 id: string)
    requires Reaches(nodes, es, net) && n in net.tables
    ensures UpAt(net.tables[n], x, id) <==> MadeAndKept(es, n, x, id)
  {
    if es != [] {
      var last := es[|es| - 1];
      var before: Net :| Reaches(nodes, es[..|es| - 1], before) && Next(before, last, net);
      ReachableInv(nodes, es[..|es| - 1], before);
      hide Reaches, Inv, UpAt;
      OwnConnectionsExactly(nodes, es[..|es| - 1], before, n, x, id);
      if last.node == n { StepKeepsUp(before, last, x, id); }
    }
  }
}
