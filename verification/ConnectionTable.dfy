/**
 The tunnel-connection table of one node, as a value: what each handler of the connection
 manager does to it, and what the handlers keep. Times are in milliseconds.
*/
module ConnectionTable {
  import opened Wrappers

  const ALIVE_THRESHOLD := 15000
  const REMOVE_THRESHOLD := 60000
  const TUNNEL_REMOVE_THRESHOLD := 60000 * 5

  datatype Connection = Connection(
    id: string,
    node: string,
    peer: string,
    local: bool,
    connected: bool,
    connectedAt: Option<int>,
    disconnectedAt: Option<int>,
    aliveAt: int)

  datatype Tunnel = Tunnel(
    connected: bool,
    connectedAt: Option<int>,
    disconnectedAt: Option<int>,
    aliveAt: Option<int>,
    alive: nat,
    connections: seq<Connection>)

  type Table = map<string, Tunnel>

  const NEW_TUNNEL := Tunnel(false, None, None, None, 0, [])

  datatype ConnectionAnnounce = ConnectionAnnounce(
    id: string,
    node: string,
    peer: string,
    connected: bool,
    connectedAt: Option<int>,
    disconnectedAt: Option<int>)

  datatype TunnelAnnounce = TunnelAnnounce(tunnel: string, connections: seq<ConnectionAnnounce>)

  function Get(tb: Table, tunnel: string): Tunnel
  {
    if tunnel in tb then tb[tunnel] else NEW_TUNNEL
  }

  // ---------- the summary of a tunnel ----------

  /** A timestamp the program regards as present: neither undefined nor zero. */
  predicate Stamped(time: Option<int>)
    ensures Stamped(time) <==> time != None && time != Some(0)
  {
    time.Some? && time.value != 0
  }

  function Alive(cs: seq<Connection>): nat
  {
    if cs == [] then 0
    else Alive(cs[..|cs| - 1]) + if cs[|cs| - 1].connected then 1 else 0
  }

  function Earliest(cs: seq<Connection>): Option<int>
  {
    if cs == [] then None
    else
      var e, c := Earliest(cs[..|cs| - 1]), cs[|cs| - 1];
      if c.connected && Stamped(c.connectedAt) && (e.None? || c.connectedAt.value < e.value)
      then c.connectedAt else e
  }

  function Latest(cs: seq<Connection>): Option<int>
  {
    if cs == [] then None
    else
      var l, c := Latest(cs[..|cs| - 1]), cs[|cs| - 1];
      if !c.connected && Stamped(c.disconnectedAt) && (l.None? || c.disconnectedAt.value > l.value)
      then c.disconnectedAt else l
  }

  function OrNow(time: Option<int>, now: int): Option<int>
  {
    if time.Some? then time else Some(now)
  }

  function UpdateState(t: Tunnel, now: int): Tunnel
  {
    var alive := Alive(t.connections);
    var connected := alive > 0;
    Tunnel(
      connected,
      if connected && !t.connected then OrNow(Earliest(t.connections), now) else t.connectedAt,
      if !connected && t.connected then OrNow(Latest(t.connections), now) else t.disconnectedAt,
      if connected then Some(now) else t.aliveAt,
      alive,
      t.connections)
  }

  /** The stored counters describe the stored connections. */
  predicate Summarised(t: Tunnel)
  {
    t.alive == Alive(t.connections) && (t.connected <==> exists c :: c in t.connections && c.connected)
  }

  lemma {:induction false} AlivePositive(cs: seq<Connection>)
    ensures Alive(cs) > 0 <==> exists c :: c in cs && c.connected
  {
    if cs != [] {
      var front := cs[..|cs| - 1];
      AlivePositive(front);
      assert cs == front + [cs[|cs| - 1]];
      if Alive(front) > 0 {
        var c :| c in front && c.connected;
        assert c in cs;
      }
    }
  }

  /** The positions of the connected entries. */
  function UpPositions(cs: seq<Connection>): set<nat>
  {
    set k: nat | k < |cs| && cs[k].connected
  }

  /** The count is that of the connected entries. */
  lemma {:induction false} AliveCounts(cs: seq<Connection>)
    ensures Alive(cs) == |UpPositions(cs)|
  {
    if cs != [] {
      var n := |cs| - 1;
      AliveCounts(cs[..n]);
      assert UpPositions(cs) == UpPositions(cs[..n]) + if cs[n].connected then {n} else {};
    }
  }

  predicate IsEarliest(cs: seq<Connection>, time: int)
  {
    && (exists c :: c in cs && c.connected && Stamped(c.connectedAt) && c.connectedAt.value == time)
    && (forall c :: c in cs && c.connected && Stamped(c.connectedAt) ==> time <= c.connectedAt.value)
  }

  predicate IsLatest(cs: seq<Connection>, time: int)
  {
    && (exists c :: c in cs && !c.connected && Stamped(c.disconnectedAt) && c.disconnectedAt.value == time)
    && (forall c :: c in cs && !c.connected && Stamped(c.disconnectedAt) ==> c.disconnectedAt.value <= time)
  }

  lemma {:induction false} EarliestIsLeast(cs: seq<Connection>)
    ensures match Earliest(cs)
            case Some(time) => IsEarliest(cs, time)
            case None => forall c :: c in cs && c.connected ==> !Stamped(c.connectedAt)
  {
    if cs != [] {
      var front, last := cs[..|cs| - 1], cs[|cs| - 1];
      EarliestIsLeast(front);
      assert cs == front + [last];
      if Earliest(cs).Some? && Earliest(cs) == Earliest(front) {
        var c :| c in front && c.connected && Stamped(c.connectedAt) && c.connectedAt.value == Earliest(cs).value;
        assert c in cs;
      }
    }
  }

  lemma {:induction false} LatestIsGreatest(cs: seq<Connection>)
    ensures match Latest(cs)
            case Some(time) => IsLatest(cs, time)
            case None => forall c :: c in cs && !c.connected ==> !Stamped(c.disconnectedAt)
  {
    if cs != [] {
      var front, last := cs[..|cs| - 1], cs[|cs| - 1];
      LatestIsGreatest(front);
      assert cs == front + [last];
      if Latest(cs).Some? && Latest(cs) == Latest(front) {
        var c :| c in front && !c.connected && Stamped(c.disconnectedAt) && c.disconnectedAt.value == Latest(cs).value;
        assert c in cs;
      }
    }
  }

  predicate RisesAt(cs: seq<Connection>, time: Option<int>, now: int)
  {
    && time.Some?
    && (IsEarliest(cs, time.value) ||
        (time.value == now && forall c :: c in cs && c.connected ==> !Stamped(c.connectedAt)))
  }

  predicate FallsAt(cs: seq<Connection>, time: Option<int>, now: int)
  {
    && time.Some?
    && (IsLatest(cs, time.value) ||
        (time.value == now && forall c :: c in cs && !c.connected ==> !Stamped(c.disconnectedAt)))
  }

  /**
   What a state update records: counters that describe the connections, the least connection
   time on coming up, the greatest disconnection time on going down, and otherwise no change.
  */
  lemma UpdateStateRecords(t: Tunnel, now: int)
    ensures var u := UpdateState(t, now);
            && Summarised(u) && u.alive == |UpPositions(t.connections)| && u.connections == t.connections
            && u.aliveAt == (if u.connected then Some(now) else t.aliveAt)
            && (u.connected && !t.connected ==> RisesAt(t.connections, u.connectedAt, now))
            && (!u.connected && t.connected ==> FallsAt(t.connections, u.disconnectedAt, now))
            && ((t.connected || !u.connected) ==> u.connectedAt == t.connectedAt)
            && ((u.connected || !t.connected) ==> u.disconnectedAt == t.disconnectedAt)
  {
    AlivePositive(t.connections);
    AliveCounts(t.connections);
    EarliestIsLeast(t.connections);
    LatestIsGreatest(t.connections);
  }

  // ---------- local changes ----------

  function AddConnection(tb: Table, tunnel: string, c: Connection, now: int): Table
  {
    var t := Get(tb, tunnel);
    tb[tunnel := UpdateState(t.(connections := t.connections + [c]), now)]
  }

  /** One turn of the removal loop: a local connection goes down, the counters are not touched yet. */
  function MarkDown(tb: Table, tunnel: string, id: string, now: int): Table
  {
    if tunnel in tb
    then tb[tunnel := tb[tunnel].(connections := Down(tb[tunnel].connections, id, now))]
    else tb
  }

  function DownIf(c: Connection, id: string, now: int): Connection
  {
    if c.local && c.id == id then c.(connected := false, disconnectedAt := Some(now)) else c
  }

  function Down(cs: seq<Connection>, id: string, now: int): (r: seq<Connection>)
    ensures |r| == |cs|
    ensures forall k :: 0 <= k < |cs| ==> r[k] == DownIf(cs[k], id, now)
  {
    seq(|cs|, k requires 0 <= k < |cs| => DownIf(cs[k], id, now))
  }

  function Settle(tb: Table, tunnel: string, now: int): Table
  {
    if tunnel in tb then tb[tunnel := UpdateState(tb[tunnel], now)] else tb
  }

  function Announced(c: Connection): ConnectionAnnounce
  {
    ConnectionAnnounce(c.id, c.node, c.peer, c.connected, c.connectedAt, c.disconnectedAt)
  }

  /** What a node tells about its own connections of a tunnel. */
  function LocalRecord(cs: seq<Connection>): seq<ConnectionAnnounce>
  {
    if cs == [] then []
    else
      LocalRecord(cs[..|cs| - 1]) + if cs[|cs| - 1].local then [Announced(cs[|cs| - 1])] else []
  }

  function Announces(tb: Table, ids: seq<string>): (r: seq<TunnelAnnounce>)
    ensures |r| == |ids|
    ensures forall k :: 0 <= k < |ids| ==> r[k] == TunnelAnnounce(ids[k], LocalRecord(Get(tb, ids[k]).connections))
  {
    seq(|ids|, k requires 0 <= k < |ids| => TunnelAnnounce(ids[k], LocalRecord(Get(tb, ids[k]).connections)))
  }

  predicate Distinct(ids: seq<string>)
  {
    forall j, k :: 0 <= j < k < |ids| ==> ids[j] != ids[k]
  }

  // ---------- learning from another node ----------

  function Others(cs: seq<Connection>, node: string): seq<Connection>
  {
    if cs == [] then []
    else Others(cs[..|cs| - 1], node) + if cs[|cs| - 1].node != node then [cs[|cs| - 1]] else []
  }

  function Slice(cs: seq<Connection>, node: string): seq<Connection>
  {
    if cs == [] then []
    else Slice(cs[..|cs| - 1], node) + if cs[|cs| - 1].node == node then [cs[|cs| - 1]] else []
  }

  function Learnt(a: ConnectionAnnounce, now: int): Connection
  {
    Connection(a.id, a.node, a.peer, false, a.connected, a.connectedAt, a.disconnectedAt, now)
  }

  function LearntAll(announced: seq<ConnectionAnnounce>, now: int): (r: seq<Connection>)
    ensures |r| == |announced|
    ensures forall k :: 0 <= k < |announced| ==> r[k] == Learnt(announced[k], now)
  {
    seq(|announced|, k requires 0 <= k < |announced| => Learnt(announced[k], now))
  }

  function LearnTunnel(t: Tunnel, from: string, announced: seq<ConnectionAnnounce>, now: int): Tunnel
  {
    UpdateState(t.(connections := Others(t.connections, from) + LearntAll(announced, now)), now)
  }

  function LearnEach(tb: Table, from: string, announces: seq<TunnelAnnounce>, now: int): Table
  {
    if announces == [] then tb
    else
      var before := LearnEach(tb, from, announces[..|announces| - 1], now);
      var a := announces[|announces| - 1];
      before[a.tunnel := LearnTunnel(Get(before, a.tunnel), from, a.connections, now)]
  }

  /** A node ignores what it hears from itself. */
  function Learn(tb: Table, self: string, from: string, announces: seq<TunnelAnnounce>, now: int): Table
  {
    if from == self then tb else LearnEach(tb, from, announces, now)
  }

  // ---------- expiry ----------

  predicate Expires(c: Connection, now: int)
  {
    !c.local && c.connected && now - c.aliveAt > ALIVE_THRESHOLD
  }

  function Expired(c: Connection, now: int): Connection
  {
    if Expires(c, now) then c.(connected := false, disconnectedAt := Some(now)) else c
  }

  predicate Kept(c: Connection, now: int)
  {
    c.connected || (Stamped(c.disconnectedAt) && now - c.disconnectedAt.value < REMOVE_THRESHOLD)
  }

  function RefreshConnections(cs: seq<Connection>, now: int): seq<Connection>
  {
    if cs == [] then []
    else
      var c := Expired(cs[|cs| - 1], now);
      RefreshConnections(cs[..|cs| - 1], now) + if Kept(c, now) then [c] else []
  }

  function RefreshTunnel(t: Tunnel, now: int): Tunnel
  {
    UpdateState(t.(connections := RefreshConnections(t.connections, now)), now)
  }

  predicate Forgotten(t: Tunnel, now: int)
  {
    && !t.connected && |t.connections| == 0
    && (!Stamped(t.disconnectedAt) || now - t.disconnectedAt.value > TUNNEL_REMOVE_THRESHOLD)
  }

  function Refresh(tb: Table, now: int): Table
  {
    map x | x in tb && !Forgotten(RefreshTunnel(tb[x], now), now) :: RefreshTunnel(tb[x], now)
  }

  /**
   Every handler leaves the tunnels it settles summarised, whatever was left half done before it:
   the one it adds to or ends a removal of, the announced ones, and at a refresh all of them.
  */
  lemma HandlersSettle(tb: Table, from: string, announces: seq<TunnelAnnounce>, tunnel: string, c: Connection, now: int)
    ensures Counted(AddConnection(tb, tunnel, c, now)[tunnel]) && Summarised(AddConnection(tb, tunnel, c, now)[tunnel])
    ensures tunnel in tb ==> Counted(Settle(tb, tunnel, now)[tunnel]) && Summarised(Settle(tb, tunnel, now)[tunnel])
    ensures forall x :: x in Refresh(tb, now) ==> Counted(Refresh(tb, now)[x]) && Summarised(Refresh(tb, now)[x])
    ensures var learnt := LearnEach(tb, from, announces, now);
            forall x :: if Mentions(announces, x) then x in learnt && Counted(learnt[x]) && Summarised(learnt[x])
                        else Get(learnt, x) == Get(tb, x)
  {
    var t := Get(tb, tunnel);
    SettledIsCounted(t.(connections := t.connections + [c]), now);
    SettledIsCounted(t, now);
    forall x | x in Refresh(tb, now) ensures Counted(Refresh(tb, now)[x]) && Summarised(Refresh(tb, now)[x]) {
      SettledIsCounted(tb[x].(connections := RefreshConnections(tb[x].connections, now)), now);
    }
    LearnEachSettles(tb, from, announces, now);
  }

  /** The stored count is not too low, and the flag agrees with it. */
  predicate Counted(t: Tunnel)
  {
    Alive(t.connections) <= t.alive && (t.connected <==> t.alive > 0)
  }

  lemma SettledIsCounted(t: Tunnel, now: int)
    ensures Counted(UpdateState(t, now)) && Summarised(UpdateState(t, now))
  {
    AlivePositive(t.connections);
  }

  predicate Mentions(announces: seq<TunnelAnnounce>, x: string)
  {
    exists k :: 0 <= k < |announces| && announces[k].tunnel == x
  }

  lemma MentionsOneMore(announces: seq<TunnelAnnounce>, n: nat)
    requires n + 1 == |announces|
    ensures forall x :: Mentions(announces, x) <==> x == announces[n].tunnel || Mentions(announces[..n], x)
  {
    assert announces == announces[..n] + [announces[n]];
  }

  lemma LearnLast(tb: Table, from: string, announces: seq<TunnelAnnounce>, now: int)
    requires announces != []
    ensures var before, a := LearnEach(tb, from, announces[..|announces| - 1], now), announces[|announces| - 1];
            LearnEach(tb, from, announces, now) ==
            before[a.tunnel := LearnTunnel(Get(before, a.tunnel), from, a.connections, now)]
  {}

  lemma {:induction false} LearnEachSettles(tb: Table, from: string, announces: seq<TunnelAnnounce>, now: int)
    ensures var learnt := LearnEach(tb, from, announces, now);
            forall x :: if Mentions(announces, x) then x in learnt && Counted(learnt[x]) && Summarised(learnt[x])
                        else Get(learnt, x) == Get(tb, x)
  {
    if announces != [] {
      var n := |announces| - 1;
      var before, a := LearnEach(tb, from, announces[..n], now), announces[n];
      LearnEachSettles(tb, from, announces[..n], now);
      var t := Get(before, a.tunnel);
      SettledIsCounted(t.(connections := Others(t.connections, from) + LearntAll(a.connections, now)), now);
      MentionsOneMore(announces, n);
      hide Mentions, Counted, Summarised, LearnEach;
      assert LearnEach(tb, from, announces, now) == before[a.tunnel := LearnTunnel(t, from, a.connections, now)] by {
        LearnLast(tb, from, announces, now);
      }
    }
  }

  /** While a removal is half done the stored count can only be too high. */
  lemma MarkDownOvercounts(tb: Table, tunnel: string, id: string, now: int)
    requires tunnel in tb && Alive(tb[tunnel].connections) <= tb[tunnel].alive
    ensures Alive(MarkDown(tb, tunnel, id, now)[tunnel].connections) <= MarkDown(tb, tunnel, id, now)[tunnel].alive
  {
    DownLowersAlive(tb[tunnel].connections, id, now);
  }

  lemma {:induction false} DownLowersAlive(cs: seq<Connection>, id: string, now: int)
    ensures Alive(Down(cs, id, now)) <= Alive(cs)
  {
    if cs != [] {
      DownLowersAlive(cs[..|cs| - 1], id, now);
      assert Down(cs, id, now)[..|cs| - 1] == Down(cs[..|cs| - 1], id, now);
    }
  }
}
