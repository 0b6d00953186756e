/**
 Views after an entry of them has expired: they still hold nothing that the owner did not tell
 last, and they hold less than that until they hear from the owner again.
*/
module ExpiredViews {
  import opened ConnectionTable
  import opened Gossip
  import opened Convergence

  /** What the view holds was told last, and something of it is missing once an entry has expired. */
  predicate HeldInv(net: Net, v: View)
    requires v.at in net.tables
  {
    v.at != v.owner ==>
      && multiset(Held(net, v)) <= multiset(UpIn(Seen(net, v)))
      && |Held(net, v)| <= |UpIn(Seen(net, v))| - if v in net.expired then 1 else 0
  }

  lemma UpOfOneMore(cs: seq<Connection>, c: Connection, node: string)
    ensures UpOf(cs + [c], node) == UpOf(cs, node) + if c.node == node && c.connected then [Up(c.id, c.peer)] else []
  {
    assert (cs + [c])[..|cs + [c]| - 1] == cs;
  }

  /** A refresh takes connected entries away, at least one if one expires. */
  lemma {:induction false} UpOfRefreshedFewer(cs: seq<Connection>, node: string, now: int)
    ensures var before, after := UpOf(cs, node), UpOf(RefreshConnections(cs, now), node);
            && multiset(after) <= multiset(before) && |after| <= |before|
            && ((exists c :: c in cs && c.node == node && Expires(c, now)) ==> |after| < |before|)
  {
    if cs != [] {
      var front, last := cs[..|cs| - 1], cs[|cs| - 1];
      assert cs == front + [last];
      UpOfRefreshedFewer(front, node, now);
      if Kept(Expired(last, now), now) {
        UpOfOneMore(RefreshConnections(front, now), Expired(last, now), node);
      } else {
        assert RefreshConnections(cs, now) == RefreshConnections(front, now);
      }
      hide RefreshConnections, Kept;
    }
  }

  lemma ExpiryShortensView(net: Net, e: Event, v: View)
    requires Enabled(net, e) && e.Expire? && v.at == e.node
    ensures var after := UpOf(Get(AtNode(net, e), v.tunnel).connections, v.owner);
            && multiset(after) <= multiset(Held(net, v)) && |after| <= |Held(net, v)|
            && (v in ExpiringViews(e.node, net.tables[e.node], e.now) ==> |after| < |Held(net, v)|)
  {
    UpOfRefreshedFewer(Get(net.tables[e.node], v.tunnel).connections, v.owner, e.now);
  }

  lemma HeldAfter(net: Net, e: Event, v: View)
    requires Enabled(net, e) && v.at in net.tables
    ensures v.at in Step(net, e).tables
    ensures Held(Step(net, e), v) ==
            if v.at == e.node then UpOf(Get(AtNode(net, e), v.tunnel).connections, v.owner) else Held(net, v)
  {
    hide UpOf, AtNode, ExpiringViews, Told;
  }

  /** Only a delivery at its node lets a view process a record, and only a refresh there lets it expire. */
  lemma SeenAfter(net: Net, e: Event, v: View)
    requires Enabled(net, e) && !(e.Deliver? && e.node == v.at)
    ensures Seen(Step(net, e), v) == Seen(net, v)
    ensures v in Step(net, e).expired <==>
              v in net.expired || (e.Expire? && v in ExpiringViews(e.node, net.tables[e.node], e.now))
  {
    hide AtNode;
  }

  lemma DeliveryKeepsHeld(net: Net, e: Event, v: View)
    requires Inv(net) && Enabled(net, e) && e.Deliver? && v.at == e.node && v.at != v.owner && HeldInv(net, v)
    ensures v.at in Step(net, e).tables && HeldInv(Step(net, e), v)
  {
    DeliverKeepsView(net, e, v);
    DeliverSees(net, e, v);
    HeldAfter(net, e, v);
    hide UpOf, UpIn, Inv, Step, AtNode;
  }

  lemma StepKeepsHeld(net: Net, e: Event, v: View)
    requires Inv(net) && Enabled(net, e) && v.at in net.tables && HeldInv(net, v)
    ensures v.at in Step(net, e).tables && HeldInv(Step(net, e), v)
  {
    hide UpOf, UpIn, Inv, Step, AtNode, ExpiringViews, Seen;
    HeldAfter(net, e, v);
    if v.at != v.owner {
      if v.at == e.node && e.Deliver? {
        DeliveryKeepsHeld(net, e, v);
      } else {
        SeenAfter(net, e, v);
        if v.at == e.node {
          if e.Expire? { ExpiryShortensView(net, e, v); } else { LocalEventKeepsView(net, e, v); }
        } else if e.Expire? {
          NoneExpiresElsewhere(net, e, v);
        }
      }
    }
  }

  lemma NoneExpiresElsewhere(net: Net, e: Event, v: View)
    requires Enabled(net, e) && e.Expire? && e.node != v.at
    ensures v !in ExpiringViews(e.node, net.tables[e.node], e.now)
  {}

  lemma {:induction false} ReachableHeld(nodes: set<string>, es: seq<Event>, net: Net, v: View)
    requires Reaches(nodes, es, net) && v.at in net.tables
    ensures HeldInv(net, v)
  {
    if es != [] {
      var before: Net :| Reaches(nodes, es[..|es| - 1], before) && Next(before, es[|es| - 1], net);
      hide Reaches, HeldInv, Step;
      assert v.at in before.tables by { StepIsFacts(before, es[|es| - 1]); }
      ReachableHeld(nodes, es[..|es| - 1], before, v);
      ReachableInv(nodes, es[..|es| - 1], before);
      StepKeepsHeld(before, es[|es| - 1], v);
    }
  }

  /**
   In every run a view holds only connected entries of the last record it processed, and fewer than
   all of them exactly if an entry of it has expired since.
  */
  lemma HeldWasTold(nodes: set<string>, es: seq<Event>, net: Net, v: View)
    requires Reaches(nodes, es, net) && v.at in net.tables && v.at != v.owner
    ensures multiset(Held(net, v)) <= multiset(UpIn(Seen(net, v)))
    ensures v in net.expired <==> |Held(net, v)| < |UpIn(Seen(net, v))|
  {
    ReachableHeld(nodes, es, net, v);
    ReachableView(nodes, es, net, v);
  }

  /** A view whose last record is as good as the owner's newest agrees with it, unless an entry has expired. */
  lemma CurrentViewAgreesExactly(nodes: set<string>, es: seq<Event>, net: Net, v: View)
    requires Reaches(nodes, es, net) && v.at in net.tables && v.owner in net.tables && v.at != v.owner
    requires UpIn(Seen(net, v)) == UpIn(Newest(net, v.owner, v.tunnel))
    ensures Held(net, v) == UpOf(Get(net.tables[v.owner], v.tunnel).connections, v.owner) <==> v !in net.expired
  {
    HeldWasTold(nodes, es, net, v);
    ReachableInv(nodes, es, net);
    ReachableView(nodes, es, net, v);
    OwnViewIsNewest(net, v.owner, v.tunnel);
  }

  /** Once the owner has told that it has no connection left, the view agrees whatever expired before. */
  lemma NothingToldIsHeld(nodes: set<string>, es: seq<Event>, net: Net, v: View)
    requires Reaches(nodes, es, net) && v.at in net.tables && v.owner in net.tables && v.at != v.owner
    requires UpIn(Seen(net, v)) == []
    ensures v !in net.expired && Held(net, v) == []
    ensures UpToDate(net, v) <==> UpOf(Get(net.tables[v.owner], v.tunnel).connections, v.owner) == []
  {
    HeldWasTold(nodes, es, net, v);
    ReachableInv(nodes, es, net);
    ReachableView(nodes, es, net, v);
    OwnViewIsNewest(net, v.owner, v.tunnel);
  }
}
