/**
 A network of nodes that announce their own connections to each other. Announcements that
 were once sent may be lost, repeated and reordered without bound: any of them can be
 delivered to any node at any later time.
*/
module Gossip {
  import opened Wrappers
  import opened ConnectionTable
  import opened SliceReplacement

  datatype Announcement = Announcement(from: string, tunnels: seq<TunnelAnnounce>)

  /** A connection as its owner accepted it. */
  datatype Origin = Origin(owner: string, tunnel: string, id: string, peer: string)

  /** What node `at` holds of `owner`'s connections of a tunnel. */
  datatype View = View(at: string, owner: string, tunnel: string)

  /**
   The tables of the nodes and every announcement sent so far, with three records of the past:
   the connections accepted by their owners, the last record processed for each view, and the
   views in which an entry has expired since.
  */
  datatype Net = Net(
    tables: map<string, Table>,
    sent: set<Announcement>,
    accepted: set<Origin>,
    seen: map<View, seq<ConnectionAnnounce>>,
    expired: set<View>)

  datatype Event =
    | Connect(node: string, tunnel: string, id: string, peer: string, now: int)
    | GoDown(node: string, tunnel: string, id: string, now: int)
    | FinishRemoval(node: string, tunnel: string, now: int)
    | Expire(node: string, now: int)
    | Announce(node: string, tunnels: seq<string>)
    | Deliver(node: string, announcement: Announcement, now: int)

  function Initial(nodes: set<string>): Net
  {
    Net(map n | n in nodes :: map[], {}, {}, map[], {})
  }

  predicate Enabled(net: Net, e: Event)
  {
    && e.node in net.tables
    && (e.Deliver? ==> e.announcement in net.sent)
    && (e.Announce? ==> Distinct(e.tunnels))
  }

  function AtNode(net: Net, e: Event): Table
    requires Enabled(net, e)
  {
    var tb := net.tables[e.node];
    match e
    case Connect(n, x, id, peer, now) =>
      AddConnection(tb, x, Connection(id, n, peer, true, true, Some(now), None, now), now)
    case GoDown(_, x, id, now) => MarkDown(tb, x, id, now)
    case FinishRemoval(_, x, now) => Settle(tb, x, now)
    case Expire(_, now) => Refresh(tb, now)
    case Announce(_, _) => tb
    case Deliver(n, a, now) => Learn(tb, n, a.from, a.tunnels, now)
  }

  function TunnelsOf(announces: seq<TunnelAnnounce>): set<string>
  {
    set t | t in announces :: t.tunnel
  }

  /** The records an announcement has for the views of node `n`. */
  function Told(n: string, a: Announcement): (told: map<View, seq<ConnectionAnnounce>>)
    ensures forall v :: v in told ==> v.at == n && v.owner == a.from && RecordOf(a.tunnels, v.tunnel) == Some(told[v])
    ensures forall x :: RecordOf(a.tunnels, x).Some? ==> View(n, a.from, x) in told
  {
    forall x | RecordOf(a.tunnels, x).Some? ensures x in TunnelsOf(a.tunnels) { RecordIsItem(a.tunnels, x); }
    map x | x in TunnelsOf(a.tunnels) && RecordOf(a.tunnels, x).Some? ::
      View(n, a.from, x) := RecordOf(a.tunnels, x).value
  }

  function ExpiringViews(n: string, tb: Table, now: int): set<View>
  {
    set x, c | x in tb && c in tb[x].connections && Expires(c, now) :: View(n, c.node, x)
  }

  function Step(net: Net, e: Event): Net
    requires Enabled(net, e)
  {
    var after := net.(tables := net.tables[e.node := AtNode(net, e)]);
    match e
    case Connect(n, x, id, peer, _) => after.(accepted := net.accepted + {Origin(n, x, id, peer)})
    case GoDown(_, _, _, _) => after
    case FinishRemoval(_, _, _) => after
    case Expire(n, now) => after.(expired := net.expired + ExpiringViews(n, net.tables[n], now))
    case Announce(n, tunnels) => after.(sent := net.sent + {Announcement(n, Announces(net.tables[n], tunnels))})
    case Deliver(n, a, _) =>
      if a.from == n then after
      else
        var told := Told(n, a);
        after.(seen := net.seen + told, expired := net.expired - told.Keys)
  }

  predicate Next(net: Net, e: Event, net': Net)
  {
    Enabled(net, e) && net' == Step(net, e)
  }

  /** `net` can be reached from empty tables by the events `es`. */
  ghost predicate Reaches(nodes: set<string>, es: seq<Event>, net: Net)
  {
    if es == [] then net == Initial(nodes)
    else
      exists before: Net {:trigger before.tables} ::
        Reaches(nodes, es[..|es| - 1], before) && Next(before, es[|es| - 1], net)
  }

  // ---------- no fabrication ----------

  function OriginOf(x: string, c: Connection): Origin
  {
    Origin(c.node, x, c.id, c.peer)
  }

  /** The announcement mentions this very connection, as connected if it is held as connected. */
  predicate Tells(a: Announcement, x: string, c: Connection)
  {
    a.from == c.node &&
    exists t, e :: t in a.tunnels && e in t.connections && t.tunnel == x
      && e.id == c.id && e.node == c.node && e.peer == c.peer && (c.connected ==> e.connected)
  }

  predicate EntryInv(net: Net, n: string, x: string, c: Connection)
  {
    && OriginOf(x, c) in net.accepted
    && (c.local <==> c.node == n)
    && (!c.local ==> exists a :: a in net.sent && Tells(a, x, c))
  }

  predicate TableInv(net: Net, n: string, tb: Table)
  {
    forall x, c :: x in tb && c in tb[x].connections ==> EntryInv(net, n, x, c)
  }

  predicate SentInv(net: Net, a: Announcement)
  {
    && Honest(a.from, a.tunnels)
    && forall t, e :: t in a.tunnels && e in t.connections ==> Origin(a.from, t.tunnel, e.id, e.peer) in net.accepted
  }

  predicate Inv(net: Net)
  {
    && (forall n :: n in net.tables ==> TableInv(net, n, net.tables[n]))
    && (forall a :: a in net.sent ==> SentInv(net, a))
  }

  /** `c` is `c'` some time later: at most it has gone down. */
  predicate Fades(c': Connection, c: Connection)
  {
    c.id == c'.id && c.node == c'.node && c.peer == c'.peer && c.local == c'.local && (c.connected ==> c'.connected)
  }

  predicate FadesTo(tb: Table, tb': Table)
  {
    forall x, c :: x in tb' && c in tb'[x].connections ==>
      x in tb && exists c' :: c' in tb[x].connections && Fades(c', c)
  }

  lemma FadingKeepsInv(net: Net, n: string, tb: Table, tb': Table)
    requires TableInv(net, n, tb) && FadesTo(tb, tb')
    ensures TableInv(net, n, tb')
  {
    forall x, c | x in tb' && c in tb'[x].connections ensures EntryInv(net, n, x, c) {
      var c' :| c' in tb[x].connections && Fades(c', c);
      assert EntryInv(net, n, x, c');
      if !c.local {
        var a :| a in net.sent && Tells(a, x, c');
        assert Tells(a, x, c);
      }
    }
  }

  lemma {:induction false} RefreshFades(cs: seq<Connection>, now: int, c: Connection)
    requires c in RefreshConnections(cs, now)
    ensures exists c' :: c' in cs && Fades(c', c)
  {
    var front, last := cs[..|cs| - 1], cs[|cs| - 1];
    if c in RefreshConnections(front, now) {
      RefreshFades(front, now, c);
      var c' :| c' in front && Fades(c', c);
      assert c' in cs;
    } else {
      assert c == Expired(last, now);
      assert last in cs && Fades(last, c);
    }
  }

  lemma LocalEventsFade(net: Net, e: Event)
    requires Enabled(net, e) && (e.GoDown? || e.FinishRemoval? || e.Expire? || e.Announce?)
    ensures FadesTo(net.tables[e.node], AtNode(net, e))
  {
    var tb, tb' := net.tables[e.node], AtNode(net, e);
    forall x, c | x in tb' && c in tb'[x].connections
      ensures x in tb && exists c' :: c' in tb[x].connections && Fades(c', c)
    {
      var cs := tb[x].connections;
      if e.GoDown? && x == e.tunnel {
        var k :| 0 <= k < |cs| && Down(cs, e.id, e.now)[k] == c;
        assert cs[k] in cs && Fades(cs[k], c);
      } else if e.Expire? {
        RefreshFades(cs, e.now, c);
      } else {
        assert Fades(c, c);
      }
    }
  }

  lemma {:induction false} InOthers(cs: seq<Connection>, node: string, c: Connection)
    requires c in Others(cs, node)
    ensures c in cs && c.node != node
  {
    var front := cs[..|cs| - 1];
    assert cs == front + [cs[|cs| - 1]];
    if c in Others(front, node) { InOthers(front, node, c); }
  }

  lemma {:induction false} RecordIsItem(announces: seq<TunnelAnnounce>, x: string)
    ensures RecordOf(announces, x).Some? ==> TunnelAnnounce(x, RecordOf(announces, x).value) in announces
  {
    if announces != [] { RecordIsItem(announces[..|announces| - 1], x); }
  }

  lemma DeliverKeepsTable(net: Net, n: string, a: Announcement, now: int)
    requires Inv(net) && n in net.tables && a in net.sent
    ensures TableInv(net, n, Learn(net.tables[n], n, a.from, a.tunnels, now))
  {
    var tb := net.tables[n];
    var tb' := Learn(tb, n, a.from, a.tunnels, now);
    assert SentInv(net, a);
    if a.from != n {
      forall x, c | x in tb' && c in tb'[x].connections ensures EntryInv(net, n, x, c) {
        LearnEachAt(tb, a.from, a.tunnels, now, x);
        var record := RecordOf(a.tunnels, x);
        if record.Some? && c !in Others(Get(tb, x).connections, a.from) {
          RecordIsItem(a.tunnels, x);
          var k :| 0 <= k < |record.value| && Learnt(record.value[k], now) == c;
          assert record.value[k] in record.value;
          assert Tells(a, x, c);
        } else {
          if record.Some? { InOthers(Get(tb, x).connections, a.from, c); }
          assert EntryInv(net, n, x, c);
        }
      }
    }
  }

  lemma {:induction false} LocalRecordIsOwn(net: Net, n: string, x: string, cs: seq<Connection>, e: ConnectionAnnounce)
    requires forall c :: c in cs ==> EntryInv(net, n, x, c)
    requires e in LocalRecord(cs)
    ensures e.node == n && Origin(n, x, e.id, e.peer) in net.accepted
  {
    var front, last := cs[..|cs| - 1], cs[|cs| - 1];
    assert cs == front + [last];
    if e in LocalRecord(front) {
      LocalRecordIsOwn(net, n, x, front, e);
    } else {
      assert last in cs && e == Announced(last);
    }
  }

  lemma AnnounceKeepsSent(net: Net, n: string, tunnels: seq<string>)
    requires Inv(net) && n in net.tables && Distinct(tunnels)
    ensures SentInv(net, Announcement(n, Announces(net.tables[n], tunnels)))
  {
    var tb := net.tables[n];
    var items := Announces(tb, tunnels);
    forall t, e | t in items && e in t.connections
      ensures e.node == n && Origin(n, t.tunnel, e.id, e.peer) in net.accepted
    {
      var cs := Get(tb, t.tunnel).connections;
      forall c | c in cs ensures EntryInv(net, n, t.tunnel, c) {}
      LocalRecordIsOwn(net, n, t.tunnel, cs, e);
    }
  }

  /** The invariant only needs more announcements and more accepted connections. */
  lemma InvGrows(net: Net, net': Net, n: string, tb: Table)
    requires net.sent <= net'.sent && net.accepted <= net'.accepted
    ensures TableInv(net, n, tb) ==> TableInv(net', n, tb)
  {
    if TableInv(net, n, tb) {
      forall x, c | x in tb && c in tb[x].connections ensures EntryInv(net', n, x, c) {
        assert EntryInv(net, n, x, c);
        if !c.local {
          var a :| a in net.sent && Tells(a, x, c);
          assert a in net'.sent;
        }
      }
    }
  }

  lemma ConnectKeepsTable(net: Net, e: Event)
    requires Inv(net) && Enabled(net, e) && e.Connect?
    ensures TableInv(Step(net, e), e.node, AtNode(net, e))
  {
    var tb, tb' := net.tables[e.node], AtNode(net, e);
    forall x, c | x in tb' && c in tb'[x].connections ensures EntryInv(Step(net, e), e.node, x, c) {
      if x in tb && c in tb[x].connections {
        assert EntryInv(net, e.node, x, c);
      }
    }
  }

  lemma StepKeepsInv(net: Net, e: Event)
    requires Inv(net) && Enabled(net, e)
    ensures Inv(Step(net, e))
  {
    var net' := Step(net, e);
    hide TableInv, SentInv, Step;
    assert StepFacts(net, e, net') by { StepIsFacts(net, e); }
    forall n | n in net'.tables ensures TableInv(net', n, net'.tables[n]) {
      if n != e.node {
        InvGrows(net, net', n, net.tables[n]);
      } else {
        if e.Connect? {
          ConnectKeepsTable(net, e);
        } else if e.Deliver? {
          DeliverKeepsTable(net, n, e.announcement, e.now);
        } else {
          LocalEventsFade(net, e);
          FadingKeepsInv(net, n, net.tables[n], net'.tables[n]);
        }
        InvGrows(net, net', n, net'.tables[n]);
      }
    }
    forall a | a in net'.sent ensures SentInv(net', a) {
      if a !in net.sent {
        AnnounceKeepsSent(net, e.node, e.tunnels);
      }
      SentGrows(net, net', a);
    }
  }

  lemma SentGrows(net: Net, net': Net, a: Announcement)
    requires net.accepted <= net'.accepted && SentInv(net, a)
    ensures SentInv(net', a)
  {}

  predicate StepFacts(net: Net, e: Event, net': Net)
    requires Enabled(net, e)
  {
    && net'.tables == net.tables[e.node := AtNode(net, e)]
    && net.sent <= net'.sent && net.accepted <= net'.accepted
    && forall a :: a in net'.sent && a !in net.sent ==>
         e.Announce? && a == Announcement(e.node, Announces(net.tables[e.node], e.tunnels))
  }

  lemma StepIsFacts(net: Net, e: Event)
    requires Enabled(net, e)
    ensures StepFacts(net, e, Step(net, e))
  {}

  lemma {:induction false} ReachableInv(nodes: set<string>, es: seq<Event>, net: Net)
    requires Reaches(nodes, es, net)
    ensures Inv(net)
  {
    if es != [] {
      var before: Net :| Reaches(nodes, es[..|es| - 1], before) && Next(before, es[|es| - 1], net);
      ReachableInv(nodes, es[..|es| - 1], before);
      StepKeepsInv(before, es[|es| - 1]);
    }
  }

  /** `owner` accepted this connection in the course of the run. */
  predicate AcceptedIn(es: seq<Event>, o: Origin)
  {
    exists k :: 0 <= k < |es| && es[k].Connect? && Origin(es[k].node, es[k].tunnel, es[k].id, es[k].peer) == o
  }

  lemma {:induction false} AcceptedMeansConnected(nodes: set<string>, es: seq<Event>, net: Net, o: Origin)
    requires Reaches(nodes, es, net) && o in net.accepted
    ensures AcceptedIn(es, o)
  {
    if es != [] {
      var before: Net :| Reaches(nodes, es[..|es| - 1], before) && Next(before, es[|es| - 1], net);
      hide Reaches;
      if o in before.accepted {
        AcceptedMeansConnected(nodes, es[..|es| - 1], before, o);
        var k :| 0 <= k < |es| - 1 && es[..|es| - 1][k].Connect? &&
          Origin(es[..|es| - 1][k].node, es[..|es| - 1][k].tunnel, es[..|es| - 1][k].id, es[..|es| - 1][k].peer) == o;
        assert es[k] == es[..|es| - 1][k];
      } else {
        var last := es[|es| - 1];
        assert last.Connect? && Origin(last.node, last.tunnel, last.id, last.peer) == o;
      }
    }
  }

  /**
   No fabrication: a remote connection that any node holds as connected was announced as
   connected by its owner under the same id and peer, and its owner did accept it.
  */
  lemma NoFabrication(nodes: set<string>, es: seq<Event>, net: Net, n: string, x: string, c: Connection)
    requires Reaches(nodes, es, net)
    requires n in net.tables && x in net.tables[n] && c in net.tables[n][x].connections
    ensures c.local <==> c.node == n
    ensures AcceptedIn(es, OriginOf(x, c))
    ensures !c.local && c.connected ==>
              exists a :: a in net.sent && a.from == c.node && Tells(a, x, c)
  {
    ReachableInv(nodes, es, net);
    assert TableInv(net, n, net.tables[n]);
    assert EntryInv(net, n, x, c);
    AcceptedMeansConnected(nodes, es, net, OriginOf(x, c));
    hide Reaches;
    if !c.local {
      var a :| a in net.sent && Tells(a, x, c);
      assert a.from == c.node;
    }
  }
}
