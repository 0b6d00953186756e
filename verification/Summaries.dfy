/**
 The counters of every tunnel at every node in every run of the network, with announcements and
 refreshes arriving between the turns of any number of removals.
*/
module Summaries {
  import opened Wrappers
  import opened ConnectionTable
  import opened Gossip

  /** The event recomputes the counters of tunnel `x` at node `n`. */
  predicate SettlesAt(e: Event, n: string, x: string)
  {
    && e.node == n
    && match e
       case Connect(_, y, _, _, _) => y == x
       case FinishRemoval(_, y, _) => y == x
       case Expire(_, _) => true
       case Deliver(_, a, _) => a.from != n && Mentions(a.tunnels, x)
       case _ => false
  }

  predicate GoesDownAt(e: Event, n: string, x: string)
  {
    e.GoDown? && e.node == n && e.tunnel == x
  }

  /** A connection of the tunnel was taken down after its counters were last computed. */
  predicate HalfRemoved(es: seq<Event>, n: string, x: string)
  {
    if es == [] then false
    else
      var last := es[|es| - 1];
      GoesDownAt(last, n, x) || (!SettlesAt(last, n, x) && HalfRemoved(es[..|es| - 1], n, x))
  }

  lemma NewTunnelIsCounted()
    ensures Counted(NEW_TUNNEL) && Summarised(NEW_TUNNEL)
  {}

  lemma DownKeepsCounts(tb: Table, y: string, id: string, now: int, x: string)
    requires Counted(Get(tb, x))
    ensures Counted(Get(MarkDown(tb, y, id, now), x))
    ensures x != y ==> Get(MarkDown(tb, y, id, now), x) == Get(tb, x)
  {
    if y in tb && y == x { MarkDownOvercounts(tb, y, id, now); }
  }

  lemma RefreshSettles(tb: Table, now: int, x: string)
    ensures Counted(Get(Refresh(tb, now), x)) && Summarised(Get(Refresh(tb, now), x))
  {
    NewTunnelIsCounted();
    if x in tb { SettledIsCounted(tb[x].(connections := RefreshConnections(tb[x].connections, now)), now); }
  }

  lemma AddSettles(tb: Table, y: string, c: Connection, now: int, x: string)
    ensures var t := Get(AddConnection(tb, y, c, now), x);
            if x == y then Counted(t) && Summarised(t) else t == Get(tb, x)
  {
    SettledIsCounted(Get(tb, y).(connections := Get(tb, y).connections + [c]), now);
  }

  lemma SettleSettles(tb: Table, y: string, now: int, x: string)
    ensures var t := Get(Settle(tb, y, now), x);
            if x == y then Counted(t) && Summarised(t) else t == Get(tb, x)
  {
    NewTunnelIsCounted();
    if y in tb { SettledIsCounted(tb[y], now); }
  }

  lemma StepKeepsCounts(net: Net, e: Event, n: string, x: string)
    requires Enabled(net, e) && n in net.tables && Counted(Get(net.tables[n], x))
    ensures var t, t' := Get(net.tables[n], x), Get(Step(net, e).tables[n], x);
            && Counted(t')
            && (SettlesAt(e, n, x) || (Summarised(t) && !GoesDownAt(e, n, x)) ==> Summarised(t'))
  {
    hide Counted, Summarised, AddConnection, MarkDown, Settle, Refresh, Mentions, LearnEach;
    if e.node == n {
      var tb := net.tables[n];
      match e
      case Connect(_, y, id, peer, now) =>
        AddSettles(tb, y, Connection(id, n, peer, true, true, Some(now), None, now), now, x);
      case GoDown(_, y, id, now) => DownKeepsCounts(tb, y, id, now, x);
      case FinishRemoval(_, y, now) => SettleSettles(tb, y, now, x);
      case Expire(_, now) => RefreshSettles(tb, now, x);
      case Announce(_, _) =>
      case Deliver(_, a, now) => LearnEachSettles(tb, a.from, a.tunnels, now);
    }
  }

  /**
   In every run, for every node and tunnel: the stored count is at least the number of connected
   entries, the connected flag says that it is positive, and both are exact unless a connection of
   that tunnel was taken down since they were last computed.
  */
  lemma {:induction false} CountersInEveryRun(nodes: set<string>, es: seq<Event>, net: Net, n: string, x: string)
    requires Reaches(nodes, es, net) && n in net.tables
    ensures Counted(Get(net.tables[n], x))
    ensures !HalfRemoved(es, n, x) ==> Summarised(Get(net.tables[n], x))
  {
    if es != [] {
      var last := es[|es| - 1];
      var before: Net :| Reaches(nodes, es[..|es| - 1], before) && Next(before, last, net);
      hide Reaches;
      CountersInEveryRun(nodes, es[..|es| - 1], before, n, x);
      StepKeepsCounts(before, last, n, x);
    }
  }
}
