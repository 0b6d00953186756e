/**
 Convergence from one point of a run on: while no connection of a tunnel comes, goes or expires,
 it is enough that each node hears once from each other one that announces it, however the bus
 reorders and repeats.
*/
module QuietConvergence {
  import opened ConnectionTable
  import opened SliceReplacement
  import opened Gossip
  import opened Convergence

  /** The event leaves the connections of the tunnel at their owners, and expires no view of it. */
  predicate QuietEvent(net: Net, e: Event, x: string)
    requires Enabled(net, e)
  {
    match e
    case Connect(_, y, _, _, _) => y != x
    case GoDown(_, y, _, _) => y != x
    case Expire(n, now) => forall v :: v in ExpiringViews(n, net.tables[n], now) ==> v.tunnel != x
    case _ => true
  }

  predicate QuietNext(net: Net, e: Event, net': Net, x: string)
  {
    Next(net, e, net') && QuietEvent(net, e, x)
  }

  ghost predicate QuietRun(from: Net, es: seq<Event>, net: Net, x: string)
  {
    if es == [] then net == from
    else
      exists before: Net {:trigger before.tables} ::
        QuietRun(from, es[..|es| - 1], before, x) && QuietNext(before, es[|es| - 1], net, x)
  }

  /** The announcement was built from its sender's table in the course of the run. */
  ghost predicate BuiltSince(from: Net, es: seq<Event>, x: string, a: Announcement)
  {
    exists j, mid ::
      && 0 <= j < |es| && QuietRun(from, es[..j], mid, x)
      && es[j].Announce? && es[j].node == a.from && a.from in mid.tables
      && a == Announcement(a.from, Announces(mid.tables[a.from], es[j].tunnels))
  }

  predicate Hears(e: Event, v: View)
  {
    e.Deliver? && e.node == v.at && e.announcement.from == v.owner && RecordOf(e.announcement.tunnels, v.tunnel).Some?
  }

  /** The last record the view received in the run was built in the course of it. */
  ghost predicate HeardFresh(from: Net, es: seq<Event>, v: View)
  {
    es != [] &&
    var front, last := es[..|es| - 1], es[|es| - 1];
    if Hears(last, v) then BuiltSince(from, front, v.tunnel, last.announcement) else HeardFresh(from, front, v)
  }

  // ---------- owners ----------

  lemma QuietKeepsOwnEntries(net: Net, e: Event, owner: string, x: string)
    requires Inv(net) && Enabled(net, e) && QuietEvent(net, e, x) && owner == e.node
    ensures UpOf(Get(AtNode(net, e), x).connections, owner) == UpOf(Get(net.tables[owner], x).connections, owner)
  {
    match e
    case Expire(_, now) =>
      LocalMeansOwn(net, owner, x);
      UpOfRefreshed(Get(net.tables[owner], x).connections, owner, now);
    case Deliver(_, a, now) =>
      if a.from != owner {
        assert SentInv(net, a);
        LearnReplacesSlice(net.tables[owner], owner, a.from, a.tunnels, now, x);
        UpOfSlice(Get(net.tables[owner], x).connections, owner);
        UpOfSlice(Get(AtNode(net, e), x).connections, owner);
      }
    case _ =>
  }

  /** In a quiet run a node would tell the same connected entries at every moment. */
  lemma QuietKeepsNewest(net: Net, e: Event, owner: string, x: string)
    requires Inv(net) && Enabled(net, e) && QuietEvent(net, e, x) && owner in net.tables
    ensures owner in Step(net, e).tables && UpIn(Newest(Step(net, e), owner, x)) == UpIn(Newest(net, owner, x))
  {
    StepKeepsInv(net, e);
    OwnViewIsNewest(net, owner, x);
    OwnViewIsNewest(Step(net, e), owner, x);
    if e.node == owner { QuietKeepsOwnEntries(net, e, owner, x); }
    hide Inv, UpOf, UpIn, Newest, AtNode;
  }

  lemma StepKeepsNodes(net: Net, e: Event)
    requires Enabled(net, e)
    ensures Step(net, e).tables.Keys == net.tables.Keys
  {
    hide AtNode, Told, ExpiringViews;
  }

  lemma {:induction false} QuietRunKeeps(from: Net, es: seq<Event>, net: Net, x: string)
    requires Inv(from) && QuietRun(from, es, net, x)
    ensures Inv(net) && net.tables.Keys == from.tables.Keys
    ensures forall owner :: owner in net.tables ==> UpIn(Newest(net, owner, x)) == UpIn(Newest(from, owner, x))
  {
    if es != [] {
      var last := es[|es| - 1];
      var before: Net :| QuietRun(from, es[..|es| - 1], before, x) && QuietNext(before, last, net, x);
      StepKeepsNodes(before, last);
      hide QuietRun, Inv, Newest, UpIn, QuietEvent, Step;
      QuietRunKeeps(from, es[..|es| - 1], before, x);
      StepKeepsInv(before, last);
      forall owner | owner in net.tables ensures UpIn(Newest(net, owner, x)) == UpIn(Newest(from, owner, x)) {
        QuietKeepsNewest(before, last, owner, x);
      }
    }
  }

  // ---------- records ----------

  lemma RecordOfAnnounces(tb: Table, ids: seq<string>, x: string)
    requires RecordOf(Announces(tb, ids), x).Some?
    ensures RecordOf(Announces(tb, ids), x).value == LocalRecord(Get(tb, x).connections)
  {
    RecordIsItem(Announces(tb, ids), x);
    var k :| 0 <= k < |ids| && Announces(tb, ids)[k] == TunnelAnnounce(x, RecordOf(Announces(tb, ids), x).value);
  }

  /** A record built in the course of a quiet run is as good as any other built in it. */
  lemma FreshIsNewest(from: Net, es: seq<Event>, x: string, a: Announcement)
    requires Inv(from) && BuiltSince(from, es, x, a) && RecordOf(a.tunnels, x).Some?
    ensures a.from in from.tables && UpIn(RecordOf(a.tunnels, x).value) == UpIn(Newest(from, a.from, x))
  {
    var j, mid :| 0 <= j < |es| && QuietRun(from, es[..j], mid, x)
      && es[j].Announce? && es[j].node == a.from && a.from in mid.tables
      && a == Announcement(a.from, Announces(mid.tables[a.from], es[j].tunnels));
    QuietRunKeeps(from, es[..j], mid, x);
    RecordOfAnnounces(mid.tables[a.from], es[j].tunnels, x);
  }

  lemma OthersAreNotSeen(net: Net, e: Event, v: View)
    requires Enabled(net, e) && QuietEvent(net, e, v.tunnel) && v.at != v.owner && !Hears(e, v)
    ensures Seen(Step(net, e), v) == Seen(net, v) && (v in Step(net, e).expired ==> v in net.expired)
  {
    if e.Deliver? && v.at == e.node { DeliverSees(net, e, v); }
  }

  lemma {:induction false} HeardIsNewest(from: Net, es: seq<Event>, net: Net, v: View)
    requires Inv(from) && QuietRun(from, es, net, v.tunnel) && v.at != v.owner && HeardFresh(from, es, v)
    ensures v.owner in from.tables && v !in net.expired
    ensures UpIn(Seen(net, v)) == UpIn(Newest(from, v.owner, v.tunnel))
  {
    var front, last := es[..|es| - 1], es[|es| - 1];
    var before: Net :| QuietRun(from, front, before, v.tunnel) && QuietNext(before, last, net, v.tunnel);
    hide QuietRun, Inv, Newest, UpIn, QuietEvent;
    if Hears(last, v) {
      FreshIsNewest(from, front, v.tunnel, last.announcement);
      DeliverSees(before, last, v);
    } else {
      HeardIsNewest(from, front, before, v);
      OthersAreNotSeen(before, last, v);
    }
  }

  /** No record of the view arrives in the run. */
  predicate Unheard(es: seq<Event>, v: View)
  {
    forall k :: 0 <= k < |es| ==> !Hears(es[k], v)
  }

  /** A view that hears nothing stays as it is. */
  lemma {:induction false} UnheardStays(from: Net, es: seq<Event>, net: Net, v: View)
    requires Inv(from) && QuietRun(from, es, net, v.tunnel) && v.at != v.owner && Unheard(es, v)
    ensures Seen(net, v) == Seen(from, v) && (v in net.expired ==> v in from.expired)
  {
    if es != [] {
      var front, last := es[..|es| - 1], es[|es| - 1];
      var before: Net :| QuietRun(from, front, before, v.tunnel) && QuietNext(before, last, net, v.tunnel);
      assert !Hears(last, v) && Unheard(front, v);
      hide QuietRun, Inv, QuietEvent;
      UnheardStays(from, front, before, v);
      OthersAreNotSeen(before, last, v);
    }
  }

  /**
   The view heard a record that was built in the course of the run and no older one after it; or it
   heard nothing, and was up to date to begin with.
  */
  ghost predicate Informed(from: Net, es: seq<Event>, v: View)
  {
    HeardFresh(from, es, v) || (v.owner in from.tables && UpToDate(from, v) && Unheard(es, v))
  }

  lemma InformedIsNewest(from: Net, es: seq<Event>, net: Net, v: View)
    requires Inv(from) && QuietRun(from, es, net, v.tunnel) && v.at != v.owner && Informed(from, es, v)
    requires v.owner in net.tables
    ensures UpToDate(net, v)
  {
    QuietRunKeeps(from, es, net, v.tunnel);
    if HeardFresh(from, es, v) { HeardIsNewest(from, es, net, v); } else { UnheardStays(from, es, net, v); }
  }

  // ---------- owners without connections ----------

  predicate NeverConnects(es: seq<Event>, owner: string, x: string)
  {
    forall k :: 0 <= k < |es| ==> !(es[k].Connect? && es[k].node == owner && es[k].tunnel == x)
  }

  /** Nobody holds an entry of a node that never had a connection of the tunnel. */
  lemma NothingHeld(nodes: set<string>, es: seq<Event>, net: Net, n: string, owner: string, x: string)
    requires Reaches(nodes, es, net) && n in net.tables && NeverConnects(es, owner, x)
    ensures forall c :: c in Get(net.tables[n], x).connections ==> c.node != owner
  {
    ReachableInv(nodes, es, net);
    assert TableInv(net, n, net.tables[n]);
    forall c | c in Get(net.tables[n], x).connections ensures c.node != owner {
      assert EntryInv(net, n, x, c);
      AcceptedMeansConnected(nodes, es, net, OriginOf(x, c));
    }
  }

  lemma {:induction false} NothingExpires(nodes: set<string>, es: seq<Event>, net: Net, v: View)
    requires Reaches(nodes, es, net) && NeverConnects(es, v.owner, v.tunnel)
    ensures v !in net.expired
  {
    if es != [] {
      var front, last := es[..|es| - 1], es[|es| - 1];
      var before: Net :| Reaches(nodes, front, before) && Next(before, last, net);
      assert NeverConnects(front, v.owner, v.tunnel);
      NothingExpires(nodes, front, before, v);
      NothingHeld(nodes, front, before, last.node, v.owner, v.tunnel);
      hide Reaches;
    }
  }

  lemma NoneUp(cs: seq<Connection>, node: string)
    requires forall c :: c in cs ==> c.node != node
    ensures UpOf(cs, node) == []
  {
    if UpOf(cs, node) != [] { InUpOf(cs, node, UpOf(cs, node)[0]); }
  }

  /** Views of a node that never had a connection of the tunnel are up to date in every run. */
  lemma NeverConnectedIsUpToDate(nodes: set<string>, es: seq<Event>, net: Net, v: View)
    requires Reaches(nodes, es, net) && NeverConnects(es, v.owner, v.tunnel)
    requires v.at in net.tables && v.owner in net.tables && v.at != v.owner
    ensures UpToDate(net, v)
  {
    NothingExpires(nodes, es, net, v);
    NothingHeld(nodes, es, net, v.at, v.owner, v.tunnel);
    NothingHeld(nodes, es, net, v.owner, v.owner, v.tunnel);
    NoneUp(Get(net.tables[v.at], v.tunnel).connections, v.owner);
    NoneUp(Get(net.tables[v.owner], v.tunnel).connections, v.owner);
    ViewAgreesExactly(nodes, es, net, v);
  }

  // ---------- the theorem ----------

  /**
   Convergence: after any run, let no connection of a tunnel come, go or expire any more. Once each
   view of the tunnel is informed, but for those of nodes that never had a connection of it, all
   nodes hold the same connected entries of the tunnel, those their owners hold.
  */
  lemma QuietConverges(nodes: set<string>, es0: seq<Event>, from: Net, es: seq<Event>, net: Net, x: string,
                       n: string, owner: string, up: Up)
    requires Reaches(nodes, es0, from) && QuietRun(from, es, net, x)
    requires forall at, o :: at in net.tables && o in net.tables && at != o ==>
               Informed(from, es, View(at, o, x)) || NeverConnects(es0, o, x)
    requires n in net.tables && owner in net.tables
    ensures AllUpToDate(net, x)
    ensures HoldsUp(net, n, x, owner, up) <==> HoldsUp(net, owner, x, owner, up)
  {
    ReachableInv(nodes, es0, from);
    RunOn(nodes, es0, from, es, net, x);
    forall at, o | at in net.tables && o in net.tables && at != o ensures UpToDate(net, View(at, o, x)) {
      if NeverConnects(es0, o, x) {
        StillNeverConnects(es0, from, es, net, o, x);
        NeverConnectedIsUpToDate(nodes, es0 + es, net, View(at, o, x));
      } else {
        InformedIsNewest(from, es, net, View(at, o, x));
      }
    }
    Converged(nodes, es0 + es, net, x, n, owner, owner, up);
  }

  lemma ConnectsElsewhere(net: Net, e: Event, net': Net, x: string)
    requires QuietNext(net, e, net', x)
    ensures !(e.Connect? && e.tunnel == x)
  {
    match e
    case Connect(_, y, _, _, _) => assert QuietEvent(net, e, x);
    case _ =>
  }

  lemma {:induction false} StillNeverConnects(es0: seq<Event>, from: Net, es: seq<Event>, net: Net, owner: string,
                                              x: string)
    requires QuietRun(from, es, net, x) && NeverConnects(es0, owner, x)
    ensures NeverConnects(es0 + es, owner, x)
  {
    if es == [] {
      assert es0 + es == es0;
    } else {
      var front, last := es[..|es| - 1], es[|es| - 1];
      var before: Net :| QuietRun(from, front, before, x) && QuietNext(before, last, net, x);
      StillNeverConnects(es0, from, front, before, owner, x);
      var earlier, whole := es0 + front, es0 + es;
      assert whole == earlier + [last];
      assert forall k :: 0 <= k < |earlier| ==> whole[k] == earlier[k];
      ConnectsElsewhere(before, last, net, x);
    }
  }

  lemma {:induction false} RunOn(nodes: set<string>, es0: seq<Event>, from: Net, es: seq<Event>, net: Net, x: string)
    requires Reaches(nodes, es0, from) && QuietRun(from, es, net, x)
    ensures Reaches(nodes, es0 + es, net)
  {
    hide Step, QuietEvent;
    var whole := es0 + es;
    if es == [] {
      assert whole == es0;
    } else {
      var front, last := es[..|es| - 1], es[|es| - 1];
      var before: Net :| QuietRun(from, front, before, x) && QuietNext(before, last, net, x);
      RunOn(nodes, es0, from, front, before, x);
      assert whole[..|whole| - 1] == es0 + front && whole[|whole| - 1] == last && Next(before, last, net);
    }
  }
}
