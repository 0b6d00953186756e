/**
 The connection manager of one node: its table and handlers, updated in place by loops, each
 tied to the specification functions of ConnectionTable.
*/
module ConnectionManager {
  import opened Wrappers
  import opened ConnectionTable
  import opened RoundRobin

  const BATCH_SIZE := 50

  class Manager {
    const self: string
    var tunnels: Table
    var lastConnection: map<string, string>

    constructor (self: string)
      ensures this.self == self && tunnels == map[] && lastConnection == map[]
    {
      this.self := self;
      tunnels := map[];
      lastConnection := map[];
    }

    /** Recomputes the counters of one tunnel; says whether they changed. */
    method UpdateTunnelState(tunnel: string, now: int) returns (changed: bool)
      modifies `tunnels
      ensures tunnels == Settle(old(tunnels), tunnel, now)
      ensures changed <==>
                tunnel in old(tunnels) &&
                (old(tunnels)[tunnel].connected != tunnels[tunnel].connected
                 || old(tunnels)[tunnel].alive != tunnels[tunnel].alive)
    {
      if tunnel !in tunnels {
        return false;
      }
      var state := tunnels[tunnel];
      var alive := Alive(state.connections);
      var connected := alive > 0;
      if connected && !state.connected {
        state := state.(connectedAt := OrNow(Earliest(state.connections), now));
      } else if !connected && state.connected {
        state := state.(disconnectedAt := OrNow(Latest(state.connections), now));
      }
      changed := connected != state.connected || alive != state.alive;
      state := state.(connected := connected, alive := alive);
      if connected {
        state := state.(aliveAt := Some(now));
      }
      tunnels := tunnels[tunnel := state];
    }

    method AddTunnelConnection(tunnel: string, connection: Connection, now: int)
      modifies `tunnels
      ensures tunnels == AddConnection(old(tunnels), tunnel, connection, now)
      ensures tunnel in tunnels && Summarised(tunnels[tunnel])
      ensures tunnels[tunnel].connections == Get(old(tunnels), tunnel).connections + [connection]
      ensures forall x :: x != tunnel ==> Get(tunnels, x) == Get(old(tunnels), x)
    {
      hide UpdateState, Summarised;
      AddedIsSummarised(tunnels, tunnel, connection, now);
      var state := if tunnel in tunnels then tunnels[tunnel] else NEW_TUNNEL;
      tunnels := tunnels[tunnel := state.(connections := state.connections + [connection])];
      var _ := UpdateTunnelState(tunnel, now);
    }

    /** One turn of the removal loop, after the transport is gone. */
    method MarkDisconnected(tunnel: string, id: string, now: int)
      modifies `tunnels
      ensures tunnels == MarkDown(old(tunnels), tunnel, id, now)
    {
      if tunnel !in tunnels {
        return;
      }
      var cs := tunnels[tunnel].connections;
      for k := 0 to |cs|
        invariant |cs| == |tunnels[tunnel].connections|
        invariant forall j :: 0 <= j < k ==> cs[j] == DownIf(tunnels[tunnel].connections[j], id, now)
        invariant forall j :: k <= j < |cs| ==> cs[j] == tunnels[tunnel].connections[j]
        invariant tunnels == old(tunnels)
      {
        if cs[k].local && cs[k].id == id {
          cs := cs[k := cs[k].(connected := false, disconnectedAt := Some(now))];
        }
      }
      assert cs == Down(tunnels[tunnel].connections, id, now);
      tunnels := tunnels[tunnel := tunnels[tunnel].(connections := cs)];
    }

    /**
     Removes one connection of a tunnel, or all of them; `clock` is the time at each turn of
     the loop. Remote connections and those of other ids stay as they are.
    */
    method RemoveTunnelConnection(tunnel: string, id: Option<string>, clock: nat -> int) returns (changed: bool)
      modifies `tunnels
      ensures forall x :: x != tunnel ==>
                (x in tunnels <==> x in old(tunnels)) && (x in tunnels ==> tunnels[x] == old(tunnels)[x])
      ensures tunnel in tunnels <==> tunnel in old(tunnels)
      ensures tunnel in tunnels ==>
                && Summarised(tunnels[tunnel])
                && RemovedFrom(old(tunnels)[tunnel].connections, tunnels[tunnel].connections, id, clock)
                && (changed <==> old(tunnels)[tunnel].connected != tunnels[tunnel].connected
                                 || old(tunnels)[tunnel].alive != tunnels[tunnel].alive)
    {
      if tunnel !in tunnels {
        return false;
      }
      hide PartlyRemoved, RemovedFrom, Down, UpdateState, Summarised, MarkDown, Settle;
      ghost var before, cs := tunnels, tunnels[tunnel].connections;
      var snapshot := tunnels[tunnel].connections;
      NothingRemoved(snapshot, id, clock);
      for k := 0 to |snapshot|
        invariant tunnels == WithConnections(before, tunnel, cs)
        invariant PartlyRemoved(snapshot, cs, id, clock, k)
      {
        OneMoreRemoved(snapshot, cs, id, clock, k);
        MarkedDown(before, tunnel, cs, snapshot[k].id, clock(k));
        if (id.None? || snapshot[k].id == id.value) && snapshot[k].local {
          MarkDisconnected(tunnel, snapshot[k].id, clock(k));
          cs := Down(cs, snapshot[k].id, clock(k));
        }
      }
      AllRemoved(snapshot, cs, id, clock);
      SettledAfter(before, tunnel, cs, clock(|snapshot|));
      changed := UpdateTunnelState(tunnel, clock(|snapshot|));
    }

    method LearnRemoteTunnels(from: string, announces: seq<TunnelAnnounce>, now: int)
      modifies `tunnels
      ensures tunnels == Learn(old(tunnels), self, from, announces, now)
    {
      if from == self {
        return;
      }
      for k := 0 to |announces|
        invariant tunnels == LearnEach(old(tunnels), from, announces[..k], now)
      {
        hide Others, LearntAll, UpdateState, LearnTunnel, LearnEach, Settle;
        var a := announces[k];
        LearnOneMore(old(tunnels), from, announces, k, now);
        var state := if a.tunnel in tunnels then tunnels[a.tunnel] else NEW_TUNNEL;
        LearnThenSettle(tunnels, from, a, now);
        var kept := Others(state.connections, from);
        tunnels := tunnels[a.tunnel := state.(connections := kept + LearntAll(a.connections, now))];
        var _ := UpdateTunnelState(a.tunnel, now);
      }
      assert announces[..|announces|] == announces;
    }

    method RefreshTunnelConnections(tunnel: string, now: int)
      requires tunnel in tunnels
      modifies `tunnels
      ensures tunnels == old(tunnels)[tunnel := RefreshTunnel(old(tunnels)[tunnel], now)]
    {
      var marked := tunnels[tunnel].connections;
      var kept: seq<Connection> := [];
      for k := 0 to |marked|
        invariant kept == RefreshConnections(marked[..k], now)
      {
        var con := marked[k];
        if !con.local && con.connected && now - con.aliveAt > ALIVE_THRESHOLD {
          con := con.(connected := false, disconnectedAt := Some(now));
        }
        if con.connected {
          kept := kept + [con];
        } else if con.disconnectedAt.Some? && con.disconnectedAt.value != 0 &&
            now - con.disconnectedAt.value < REMOVE_THRESHOLD {
          kept := kept + [con];
        }
        assert marked[..k + 1][..k] == marked[..k];
      }
      assert marked[..|marked|] == marked;
      tunnels := tunnels[tunnel := tunnels[tunnel].(connections := kept)];
      var _ := UpdateTunnelState(tunnel, now);
    }

    method RefreshOne(tunnel: string, now: int)
      requires tunnel in tunnels
      modifies `tunnels, `lastConnection
      ensures tunnels == RefreshedAt(old(tunnels), tunnel, now)
      ensures lastConnection ==
              if tunnel in tunnels then old(lastConnection) else old(lastConnection) - {tunnel}
    {
      RefreshTunnelConnections(tunnel, now);
      var state := tunnels[tunnel];
      if !state.connected && |state.connections| == 0 &&
         (!Stamped(state.disconnectedAt) || now - state.disconnectedAt.value > TUNNEL_REMOVE_THRESHOLD) {
        tunnels := tunnels - {tunnel};
        lastConnection := lastConnection - {tunnel};
      }
    }

    method RefreshConnectionState(now: int)
      modifies `tunnels, `lastConnection
      ensures tunnels == Refresh(old(tunnels), now)
      ensures lastConnection == old(lastConnection) - (old(tunnels).Keys - tunnels.Keys)
    {
      ghost var before := tunnels;
      var todo := tunnels.Keys;
      assert tunnels == RefreshedOutside(before, todo, now);
      while todo != {}
        invariant todo <= before.Keys
        invariant tunnels == RefreshedOutside(before, todo, now)
        invariant lastConnection == old(lastConnection) - (before.Keys - tunnels.Keys)
      {
        var tunnel :| tunnel in todo;
        RefreshedOneMore(before, todo, tunnel, now);
        ghost var last, keys := lastConnection, tunnels.Keys;
        RefreshOne(tunnel, now);
        todo := todo - {tunnel};
        assert before.Keys - tunnels.Keys == (before.Keys - keys) + (if tunnel in tunnels then {} else {tunnel});
      }
      assert RefreshedOutside(before, {}, now) == Refresh(before, now);
    }

    /** The tunnels announced by default: those with a local connection. */
    method LocalTunnels() returns (ids: seq<string>)
      ensures Distinct(ids)
      ensures forall x :: x in ids <==> x in tunnels && exists c :: c in tunnels[x].connections && c.local
    {
      ids := [];
      var todo := tunnels.Keys;
      while todo != {}
        invariant todo <= tunnels.Keys && Distinct(ids)
        invariant forall x :: x in ids <==>
          x in tunnels && x !in todo && exists c :: c in tunnels[x].connections && c.local
      {
        var x :| x in todo;
        todo := todo - {x};
        if exists c :: c in tunnels[x].connections && c.local {
          ids := ids + [x];
        }
      }
    }

    /**
     The announcements of the given tunnels, in batches of at most BATCH_SIZE. Every batch is built in
     a turn of its own, from the table as it is by then: `later(k)` for batch number k. It ends early
     at a turn at which the manager does not run any more.
    */
    method AnnounceLocalTunnels(ids: seq<string>, later: nat -> Table, running: nat -> bool)
      returns (chunks: seq<seq<string>>, batches: seq<seq<TunnelAnnounce>>)
      ensures Flat(chunks) <= ids && |batches| == |chunks|
      ensures Flat(chunks) != ids ==> !running(|chunks|)
      ensures forall k :: 0 <= k < |chunks| ==> running(k) && 0 < |chunks[k]| <= 50
      ensures forall k :: 0 <= k < |chunks| - 1 ==> |chunks[k]| == 50
      ensures forall k :: 0 <= k < |chunks| ==> batches[k] == Announces(later(k), chunks[k])
    {
      chunks, batches := [], [];
      var rest := ids;
      assert Flat(chunks) + rest == ids;
      hide Flat, Announces;
      while rest != []
        invariant Flat(chunks) + rest == ids && |batches| == |chunks|
        invariant forall k :: 0 <= k < |chunks| ==> running(k) && 0 < |chunks[k]| <= BATCH_SIZE
        invariant forall k :: 0 <= k < |chunks| && (k < |chunks| - 1 || rest != []) ==> |chunks[k]| == BATCH_SIZE
        invariant forall k :: 0 <= k < |chunks| ==> batches[k] == Announces(later(k), chunks[k])
        decreases |rest|
      {
        if !running(|chunks|) {
          return;
        }
        var n := if |rest| < BATCH_SIZE then |rest| else BATCH_SIZE;
        var chunk := rest[..n];
        FlatOneMore(chunks, chunk);
        assert Flat(chunks) + rest == (Flat(chunks) + chunk) + rest[n..];
        rest := rest[n..];
        batches := batches + [Announces(later(|batches|), chunk)];
        chunks := chunks + [chunk];
      }
      assert Flat(chunks) + [] == Flat(chunks);
    }

    /** The connection that serves the next request of a tunnel. */
    method GetNextConnection(tunnel: string) returns (next: Option<Connection>)
      modifies `lastConnection
      ensures (next, lastConnection) == Serve(tunnels, old(lastConnection), tunnel)
      ensures next.Some? ==>
                && tunnel in tunnels && next.value in tunnels[tunnel].connections && next.value.connected
                && lastConnection == old(lastConnection)[tunnel := next.value.id]
      ensures next.None? ==>
                && lastConnection == old(lastConnection)
                && (tunnel in tunnels ==> forall c :: c in tunnels[tunnel].connections ==> !c.connected)
    {
      if tunnel !in tunnels {
        return None;
      }
      hide Sorted, UpLocal, UpRemote, Ordered;
      var last := Remembered(lastConnection, tunnel);
      SortedEmpty(UpLocal(tunnels[tunnel].connections));
      SelectsCandidate(tunnels[tunnel].connections, last);
      CandidatesExactly(tunnels[tunnel].connections);
      var eligible := Sorted(UpLocal(tunnels[tunnel].connections));
      if |eligible| == 0 {
        eligible := Sorted(UpRemote(tunnels[tunnel].connections));
      }
      if |eligible| == 0 {
        return None;
      }
      var i := 0;
      while i < |eligible|
        invariant 0 <= i <= |eligible|
        invariant IndexAfter(eligible, last, 0) == IndexAfter(eligible, last, i)
      {
        if Some(eligible[i].id) == last {
          i := i + 1;
          break;
        }
        i := i + 1;
      }
      assert i == IndexAfter(eligible, last, 0);
      i := i % |eligible|;
      lastConnection := lastConnection[tunnel := eligible[i].id];
      next := Some(eligible[i]);
    }
  }

  lemma AddedIsSummarised(tb: Table, x: string, c: Connection, now: int)
    ensures var t := AddConnection(tb, x, c, now)[x];
            Summarised(t) && t.connections == Get(tb, x).connections + [c]
  {
    UpdateStateRecords(Get(tb, x).(connections := Get(tb, x).connections + [c]), now);
    hide UpdateState, Summarised;
  }

  /** The table after refreshing one tunnel. */
  function RefreshedAt(tb: Table, x: string, now: int): Table
    requires x in tb
  {
    var t := RefreshTunnel(tb[x], now);
    if Forgotten(t, now) then tb - {x} else tb[x := t]
  }

  /** The table after refreshing every tunnel outside `todo`. */
  function RefreshedOutside(tb: Table, todo: set<string>, now: int): Table
  {
    map x | x in tb && (x in todo || !Forgotten(RefreshTunnel(tb[x], now), now)) ::
      if x in todo then tb[x] else RefreshTunnel(tb[x], now)
  }

  lemma RefreshedOneMore(tb: Table, todo: set<string>, x: string, now: int)
    requires x in todo && todo <= tb.Keys
    ensures x in RefreshedOutside(tb, todo, now)
    ensures RefreshedAt(RefreshedOutside(tb, todo, now), x, now) == RefreshedOutside(tb, todo - {x}, now)
  {
    hide RefreshTunnel, Forgotten;
    var before, after := RefreshedOutside(tb, todo, now), RefreshedOutside(tb, todo - {x}, now);
    assert before[x] == tb[x];
    assert RefreshedAt(before, x, now).Keys == after.Keys;
  }

  lemma LearnOneMore(tb: Table, from: string, announces: seq<TunnelAnnounce>, k: nat, now: int)
    requires k < |announces|
    ensures var before, a := LearnEach(tb, from, announces[..k], now), announces[k];
            LearnEach(tb, from, announces[..k + 1], now) ==
            before[a.tunnel := LearnTunnel(Get(before, a.tunnel), from, a.connections, now)]
  {
    assert announces[..k + 1][..k] == announces[..k];
  }

  lemma LearnThenSettle(tb: Table, from: string, a: TunnelAnnounce, now: int)
    ensures var t := Get(tb, a.tunnel);
            Settle(tb[a.tunnel := t.(connections := Others(t.connections, from) + LearntAll(a.connections, now))],
                a.tunnel, now)
            == tb[a.tunnel := LearnTunnel(t, from, a.connections, now)]
  {}

  function Flat<T>(chunks: seq<seq<T>>): seq<T>
  {
    if chunks == [] then [] else Flat(chunks[..|chunks| - 1]) + chunks[|chunks| - 1]
  }

  lemma FlatOneMore<T>(chunks: seq<seq<T>>, chunk: seq<T>)
    ensures Flat(chunks + [chunk]) == Flat(chunks) + chunk
  {
    assert (chunks + [chunk])[..|chunks|] == chunks;
  }

  /** A connection the removal is about. */
  predicate Targeted(c: Connection, id: Option<string>)
  {
    c.local && (id.None? || c.id == id.value)
  }

  /** The targeted connections are down since the last turn about their id, all others as before, in the same order. */
  predicate RemovedFrom(before: seq<Connection>, after: seq<Connection>, id: Option<string>, clock: nat -> int)
  {
    && |after| == |before|
    && forall k :: 0 <= k < |before| ==>
         if Targeted(before[k], id)
         then exists t :: k <= t < |before| && DownSince(before, id, clock, k, t, after[k])
         else after[k] == before[k]
  }

  /** Turn `t` is the last one about the id of the k-th connection, which is as it left it. */
  predicate DownSince(before: seq<Connection>, id: Option<string>, clock: nat -> int, k: nat, t: nat, after: Connection)
    requires k < |before| && t < |before|
  {
    && Targeted(before[t], id) && before[t].id == before[k].id
    && (forall u :: t < u < |before| && Targeted(before[u], id) ==> before[u].id != before[k].id)
    && after == before[k].(connected := false, disconnectedAt := Some(clock(t)))
  }

  function WithConnections(tb: Table, x: string, cs: seq<Connection>): Table
    requires x in tb
  {
    tb[x := tb[x].(connections := cs)]
  }

  lemma MarkedDown(tb: Table, x: string, cs: seq<Connection>, id: string, now: int)
    requires x in tb
    ensures MarkDown(WithConnections(tb, x, cs), x, id, now) == WithConnections(tb, x, Down(cs, id, now))
  {
    hide Down;
  }

  lemma SettledAfter(tb: Table, x: string, cs: seq<Connection>, now: int)
    requires x in tb
    ensures var after := Settle(WithConnections(tb, x, cs), x, now);
            && after.Keys == tb.Keys && after[x].connections == cs && Summarised(after[x])
            && (forall y :: y in tb && y != x ==> after[y] == tb[y])
    ensures var with := WithConnections(tb, x, cs);
            with[x].connected == tb[x].connected && with[x].alive == tb[x].alive
  {
    UpdateStateRecords(WithConnections(tb, x, cs)[x], now);
    hide Summarised, UpdateState;
  }

  /** The last of the first `n` turns that is about a connection with this id. */
  function LastTurn(before: seq<Connection>, id: Option<string>, connection: string, n: nat): (t: Option<nat>)
    requires n <= |before|
    ensures t.Some? ==> t.value < n && Targeted(before[t.value], id) && before[t.value].id == connection
    ensures forall u :: (if t.Some? then t.value + 1 else 0) <= u < n && Targeted(before[u], id) ==>
              before[u].id != connection
  {
    if n == 0 then None
    else if Targeted(before[n - 1], id) && before[n - 1].id == connection then Some(n - 1)
    else LastTurn(before, id, connection, n - 1)
  }

  /** As RemovedFrom after `n` turns: connections of the ids still to come are as before. */
  predicate PartlyRemoved(before: seq<Connection>, after: seq<Connection>, id: Option<string>, clock: nat -> int,
                          n: nat)
    requires n <= |before|
  {
    && |after| == |before|
    && forall k :: 0 <= k < |before| ==>
         var turn := LastTurn(before, id, before[k].id, n);
         after[k] == if before[k].local && turn.Some?
                     then before[k].(connected := false, disconnectedAt := Some(clock(turn.value))) else before[k]
  }

  lemma NothingRemoved(before: seq<Connection>, id: Option<string>, clock: nat -> int)
    ensures PartlyRemoved(before, before, id, clock, 0)
  {}

  lemma OneMoreRemoved(before: seq<Connection>, cs: seq<Connection>, id: Option<string>, clock: nat -> int, n: nat)
    requires n < |before| && PartlyRemoved(before, cs, id, clock, n)
    ensures PartlyRemoved(before, if Targeted(before[n], id) then Down(cs, before[n].id, clock(n)) else cs, id, clock,
                          n + 1)
  {}

  lemma AllRemoved(before: seq<Connection>, after: seq<Connection>, id: Option<string>, clock: nat -> int)
    requires PartlyRemoved(before, after, id, clock, |before|)
    ensures RemovedFrom(before, after, id, clock)
  {
    forall k | 0 <= k < |before|
      ensures if Targeted(before[k], id)
              then exists t :: k <= t < |before| && DownSince(before, id, clock, k, t, after[k])
              else after[k] == before[k]
    {
      var turn := LastTurn(before, id, before[k].id, |before|);
      if Targeted(before[k], id) {
        assert turn.Some? && k <= turn.value;
        assert DownSince(before, id, clock, k, turn.value, after[k]);
      }
    }
  }
}
