/**
 Timed behaviour of one node's table: how long a remote connection lives after its owner went
 silent, and that one whose owner keeps announcing it is never taken down.
*/
module Expiry {
  import opened Wrappers
  import opened ConnectionTable
  import opened SliceReplacement

  const REFRESH_INTERVAL := 10000

  datatype Action =
    | Learns(from: string, announces: seq<TunnelAnnounce>)
    | Adds(tunnel: string, connection: Connection)
    | MarksDown(tunnel: string, id: string)
    | Settles(tunnel: string)
    | Refreshes

  datatype Event = Event(at: int, action: Action)

  datatype State = State(table: Table, now: int, lastRefresh: int)

  /** Time moves forward, and refreshes are at most REFRESH_INTERVAL apart. */
  predicate Admissible(self: string, s: State, e: Event)
  {
    && s.now <= e.at <= s.lastRefresh + REFRESH_INTERVAL
    && match e.action
       case Learns(from, announces) => Honest(from, announces)
       case Adds(_, c) => c.local && c.node == self
       case _ => true
  }

  function Apply(self: string, tb: Table, e: Event): Table
  {
    match e.action
    case Learns(from, announces) => Learn(tb, self, from, announces, e.at)
    case Adds(x, c) => AddConnection(tb, x, c, e.at)
    case MarksDown(x, id) => MarkDown(tb, x, id, e.at)
    case Settles(x) => Settle(tb, x, e.at)
    case Refreshes => Refresh(tb, e.at)
  }

  function Step(self: string, s: State, e: Event): State
  {
    State(Apply(self, s.table, e), e.at, if e.action.Refreshes? then e.at else s.lastRefresh)
  }

  function Run(self: string, s: State, es: seq<Event>): State
  {
    if es == [] then s else Step(self, Run(self, s, es[..|es| - 1]), es[|es| - 1])
  }

  predicate Runs(self: string, s: State, es: seq<Event>)
  {
    es == [] ||
    (Runs(self, s, es[..|es| - 1]) && Admissible(self, Run(self, s, es[..|es| - 1]), es[|es| - 1]))
  }

  /** The record an event brings from node `n` about tunnel `x`. */
  function Brings(e: Event, n: string, x: string): Option<seq<ConnectionAnnounce>>
  {
    if e.action.Learns? && e.action.from == n then RecordOf(e.action.announces, x) else None
  }

  /** The entries of node `n` with this id in tunnel `x`. */
  function Entries(tb: Table, n: string, x: string, id: string): set<Connection>
  {
    set c | c in Get(tb, x).connections && c.node == n && c.id == id
  }

  // ---------- what one event does to those entries ----------

  lemma {:induction false} InSlice(cs: seq<Connection>, n: string)
    ensures forall c :: c in Slice(cs, n) <==> c in cs && c.node == n
  {
    if cs != [] {
      assert cs == cs[..|cs| - 1] + [cs[|cs| - 1]];
      InSlice(cs[..|cs| - 1], n);
    }
  }

  lemma {:induction false} InRefreshed(cs: seq<Connection>, now: int)
    ensures forall c :: c in cs && Kept(Expired(c, now), now) ==> Expired(c, now) in RefreshConnections(cs, now)
    ensures forall d :: d in RefreshConnections(cs, now) ==> Kept(d, now) && exists c :: c in cs && Expired(c, now) == d
  {
    if cs != [] {
      var front, last := cs[..|cs| - 1], cs[|cs| - 1];
      assert cs == front + [last];
      InRefreshed(front, now);
      forall d | d in RefreshConnections(cs, now) ensures Kept(d, now) && exists c :: c in cs && Expired(c, now) == d {
        if d in RefreshConnections(front, now) {
          var c :| c in front && Expired(c, now) == d;
          assert c in cs;
        } else {
          assert last in cs;
        }
      }
    }
  }

  /** Taking a connection down leaves remote entries alone. */
  lemma DownKeepsRemote(tb: Table, y: string, down: string, now: int, n: string, x: string, id: string)
    requires y in tb && forall c :: c in Entries(tb, n, x, id) ==> !c.local
    ensures Entries(MarkDown(tb, y, down, now), n, x, id) == Entries(tb, n, x, id)
  {
    if x == y {
      var cs, cs' := tb[x].connections, MarkDown(tb, y, down, now)[x].connections;
      forall c | c in Entries(tb, n, x, id) ensures c in cs' {
        var k :| 0 <= k < |cs| && cs[k] == c;
        assert cs'[k] == c;
      }
      forall c | c in cs' && c.node == n && c.id == id ensures c in cs {
        var k :| 0 <= k < |cs| && cs'[k] == c;
        assert cs[k] in Entries(tb, n, x, id);
      }
    }
  }

  /** Entries of a silent remote node only change at a refresh. */
  lemma SilentEventKeeps(self: string, s: State, e: Event, n: string, x: string, id: string)
    requires Admissible(self, s, e) && n != self && Brings(e, n, x).None? && !e.action.Refreshes?
    requires forall c :: c in Entries(s.table, n, x, id) ==> !c.local
    ensures Entries(Step(self, s, e).table, n, x, id) == Entries(s.table, n, x, id)
  {
    var tb, tb' := s.table, Step(self, s, e).table;
    var cs, cs' := Get(tb, x).connections, Get(tb', x).connections;
    match e.action
    case Learns(from, announces) =>
      if from != self {
        LearnReplacesSlice(tb, self, from, announces, e.at, x);
        InSlice(cs, n);
        InSlice(cs', n);
      }
    case Adds(y, c) =>
    case MarksDown(y, down) =>
      if y in tb { DownKeepsRemote(tb, y, down, e.at, n, x, id); }
    case Settles(y) =>
  }

  /** After learning, the entries of the sender are those of its record. */
  lemma LearnedEntries(self: string, s: State, e: Event, n: string, x: string, id: string)
    requires Admissible(self, s, e) && n != self && Brings(e, n, x).Some?
    ensures forall c :: c in Entries(Step(self, s, e).table, n, x, id) <==>
              c.id == id && c in LearntAll(Brings(e, n, x).value, e.at)
  {
    var record := Brings(e, n, x).value;
    LearnReplacesSlice(s.table, self, n, e.action.announces, e.at, x);
    RecordIsOwn(n, e.action.announces, x);
    InSlice(Get(Step(self, s, e).table, x).connections, n);
    forall c | c in LearntAll(record, e.at) ensures c.node == n {
      var k :| 0 <= k < |record| && LearntAll(record, e.at)[k] == c;
      assert record[k] in record;
    }
  }

  // ---------- a silent owner ----------

  predicate Silent(es: seq<Event>, n: string, x: string)
  {
    forall e :: e in es ==> Brings(e, n, x).None?
  }

  /** Every entry of the record with this id is announced as connected. */
  predicate AllUp(record: seq<ConnectionAnnounce>, id: string)
  {
    forall e :: e in record && e.id == id ==> e.connected
  }

  /** An entry last announced as connected at `t`: still up, or taken down by a refresh in time. */
  predicate Ageing(c: Connection, t: int, lastRefresh: int)
  {
    && !c.local && c.aliveAt == t
    && (c.connected ==> lastRefresh <= t + ALIVE_THRESHOLD)
    && (!c.connected ==> c.disconnectedAt.Some?
                         && t + ALIVE_THRESHOLD < c.disconnectedAt.value <= t + ALIVE_THRESHOLD + REFRESH_INTERVAL
                         && lastRefresh < c.disconnectedAt.value + REMOVE_THRESHOLD)
  }

  predicate AllAgeing(s: State, n: string, x: string, id: string, t: int)
  {
    forall c :: c in Entries(s.table, n, x, id) ==> Ageing(c, t, s.lastRefresh)
  }

  lemma RefreshAges(self: string, s: State, e: Event, n: string, x: string, id: string, t: int)
    requires Admissible(self, s, e) && e.action.Refreshes? && AllAgeing(s, n, x, id, t)
    ensures AllAgeing(Step(self, s, e), n, x, id, t)
  {
    var s' := Step(self, s, e);
    forall d | d in Entries(s'.table, n, x, id) ensures Ageing(d, t, s'.lastRefresh) {
      InRefreshed(s.table[x].connections, e.at);
      var c :| c in s.table[x].connections && Expired(c, e.at) == d;
      assert c in Entries(s.table, n, x, id);
    }
  }

  lemma {:induction false} SilentAges(self: string, s: State, es: seq<Event>, n: string, x: string, id: string, t: int)
    requires Runs(self, s, es) && Silent(es, n, x) && n != self && AllAgeing(s, n, x, id, t)
    ensures AllAgeing(Run(self, s, es), n, x, id, t)
  {
    if es != [] {
      var front, last := es[..|es| - 1], es[|es| - 1];
      SilentAges(self, s, front, n, x, id, t);
      var before := Run(self, s, front);
      assert last in es;
      if last.action.Refreshes? {
        RefreshAges(self, before, last, n, x, id, t);
      } else {
        SilentEventKeeps(self, before, last, n, x, id);
      }
    }
  }

  lemma {:induction false} ClockBounded(self: string, s: State, es: seq<Event>)
    requires Runs(self, s, es) && s.lastRefresh <= s.now <= s.lastRefresh + REFRESH_INTERVAL
    ensures var r := Run(self, s, es); s.now <= r.now && r.lastRefresh <= r.now <= r.lastRefresh + REFRESH_INTERVAL
  {
    if es != [] { ClockBounded(self, s, es[..|es| - 1]); }
  }

  /**
   Timed expiry: a remote connection announced as connected at time t, whose owner then says no
   more about the tunnel, is no longer held as connected after t + 25000 and is gone after
   t + 95000, whatever else happens.
  */
  lemma SilentExpires(self: string, s: State, e: Event, es: seq<Event>, n: string, x: string, id: string)
    requires n != self && s.lastRefresh <= s.now && Admissible(self, s, e)
    requires Brings(e, n, x).Some? && AllUp(Brings(e, n, x).value, id)
    requires Runs(self, Step(self, s, e), es) && Silent(es, n, x)
    ensures var end := Run(self, Step(self, s, e), es);
            forall c :: c in Entries(end.table, n, x, id) ==>
              end.now <= e.at + 95000 && (c.connected ==> end.now <= e.at + 25000)
  {
    var learnt := Step(self, s, e);
    var record := Brings(e, n, x).value;
    LearnedEntries(self, s, e, n, x, id);
    forall c | c in Entries(learnt.table, n, x, id) ensures Ageing(c, e.at, learnt.lastRefresh) {
      var k :| 0 <= k < |record| && LearntAll(record, e.at)[k] == c;
      assert record[k] in record;
    }
    SilentAges(self, learnt, es, n, x, id, e.at);
    ClockBounded(self, learnt, es);
    var end := Run(self, learnt, es);
    forall c | c in Entries(end.table, n, x, id)
      ensures end.now <= e.at + 95000 && (c.connected ==> end.now <= e.at + 25000)
    {
      assert Ageing(c, e.at, end.lastRefresh);
    }
  }

  // ---------- an owner that keeps announcing ----------

  /** The time of the last record from `n` about `x` among the events, or `t` if there is none. */
  function LastHeard(es: seq<Event>, n: string, x: string, t: int): int
  {
    if es == [] then t
    else if Brings(es[|es| - 1], n, x).Some? then es[|es| - 1].at
    else LastHeard(es[..|es| - 1], n, x, t)
  }

  /** Every record from `n` about `x` announces the id as connected, and nothing happens later than
      ALIVE_THRESHOLD after the last one. */
  predicate KeepsAnnouncing(es: seq<Event>, n: string, x: string, id: string, t: int)
  {
    es == [] ||
    var front, last := es[..|es| - 1], es[|es| - 1];
    && KeepsAnnouncing(front, n, x, id, t)
    && last.at <= LastHeard(front, n, x, t) + ALIVE_THRESHOLD
    && (Brings(last, n, x).Some? ==> AnnouncesUp(Brings(last, n, x).value, id))
  }

  predicate AnnouncesUp(record: seq<ConnectionAnnounce>, id: string)
  {
    AllUp(record, id) && exists e :: e in record && e.id == id
  }

  /** The id is held, and every entry with it is up since `t`. */
  predicate HeldUp(tb: Table, n: string, x: string, id: string, t: int)
  {
    && Entries(tb, n, x, id) != {}
    && forall c :: c in Entries(tb, n, x, id) ==> !c.local && c.connected && c.aliveAt == t
  }

  lemma LearnHoldsUp(self: string, s: State, e: Event, n: string, x: string, id: string)
    requires Admissible(self, s, e) && n != self && Brings(e, n, x).Some? && AnnouncesUp(Brings(e, n, x).value, id)
    ensures HeldUp(Step(self, s, e).table, n, x, id, e.at)
  {
    var record := Brings(e, n, x).value;
    LearnedEntries(self, s, e, n, x, id);
    forall c | c in Entries(Step(self, s, e).table, n, x, id) ensures !c.local && c.connected && c.aliveAt == e.at {
      var k :| 0 <= k < |record| && LearntAll(record, e.at)[k] == c;
      assert record[k] in record;
    }
    var a :| a in record && a.id == id;
    var k :| 0 <= k < |record| && record[k] == a;
    assert LearntAll(record, e.at)[k] in Entries(Step(self, s, e).table, n, x, id);
  }

  lemma RefreshHoldsUp(self: string, s: State, e: Event, n: string, x: string, id: string, t: int)
    requires e.action.Refreshes? && e.at <= t + ALIVE_THRESHOLD && HeldUp(s.table, n, x, id, t)
    ensures HeldUp(Step(self, s, e).table, n, x, id, t)
  {
    var tb' := Step(self, s, e).table;
    var c :| c in Entries(s.table, n, x, id);
    InRefreshed(s.table[x].connections, e.at);
    assert Expired(c, e.at) == c && Kept(c, e.at);
    assert c in RefreshTunnel(s.table[x], e.at).connections;
    assert x in tb' && c in Entries(tb', n, x, id);
    forall d | d in Entries(tb', n, x, id) ensures !d.local && d.connected && d.aliveAt == t {
      var b :| b in s.table[x].connections && Expired(b, e.at) == d;
      assert b in Entries(s.table, n, x, id);
    }
  }

  /** A remote connection re-announced as connected within every 15000 ms is never taken down. */
  lemma {:induction false} AnnouncedStaysUp(self: string, s: State, es: seq<Event>, n: string, x: string, id: string,
                                            t: int)
    requires Runs(self, s, es) && n != self && HeldUp(s.table, n, x, id, t)
    requires KeepsAnnouncing(es, n, x, id, t)
    ensures HeldUp(Run(self, s, es).table, n, x, id, LastHeard(es, n, x, t))
  {
    if es != [] {
      var front, last := es[..|es| - 1], es[|es| - 1];
      AnnouncedStaysUp(self, s, front, n, x, id, t);
      var before := Run(self, s, front);
      if Brings(last, n, x).Some? {
        LearnHoldsUp(self, before, last, n, x, id);
      } else if last.action.Refreshes? {
        RefreshHoldsUp(self, before, last, n, x, id, LastHeard(front, n, x, t));
      } else {
        SilentEventKeeps(self, before, last, n, x, id);
      }
    }
  }

  /** A refresh never touches a connected local entry. */
  lemma RefreshSparesLocal(tb: Table, x: string, c: Connection, now: int)
    requires x in tb && c in tb[x].connections && c.local && c.connected
    ensures x in Refresh(tb, now) && c in Refresh(tb, now)[x].connections
  {
    InRefreshed(tb[x].connections, now);
    assert Expired(c, now) == c && Kept(c, now);
    assert c in RefreshTunnel(tb[x], now).connections;
  }

  /**
   The fate of an entry at a refresh: a disconnected one stays iff it went down less than 60000 ms
   ago, a silent remote one is taken down iff it is older than 15000 ms, all others stay as they are.
  */
  lemma RefreshFate(tb: Table, x: string, c: Connection, now: int)
    requires x in tb && c in tb[x].connections && now > 0
    ensures var after := Get(Refresh(tb, now), x).connections;
            if !c.connected then c in after <==> Stamped(c.disconnectedAt) && now - c.disconnectedAt.value < 60000
            else if c.local || now - c.aliveAt <= 15000 then c in after
            else c !in after && c.(connected := false, disconnectedAt := Some(now)) in after
  {
    InRefreshed(tb[x].connections, now);
    var kept := RefreshTunnel(tb[x], now).connections;
    assert kept == RefreshConnections(tb[x].connections, now);
    assert kept != [] ==> x in Refresh(tb, now);
    assert Kept(Expired(c, now), now) ==> Expired(c, now) in kept;
  }

  /** A tunnel is dropped iff no entry is left, it was down before, and it has been so for more than five minutes. */
  lemma DroppedExactly(tb: Table, x: string, now: int)
    requires x in tb && now > 0
    ensures x !in Refresh(tb, now) <==>
              && (forall c :: c in tb[x].connections ==> !Kept(Expired(c, now), now))
              && !tb[x].connected
              && (Stamped(tb[x].disconnectedAt) ==> now - tb[x].disconnectedAt.value > 300000)
  {
    InRefreshed(tb[x].connections, now);
    var kept := RefreshConnections(tb[x].connections, now);
    UpdateStateRecords(tb[x].(connections := kept), now);
    if kept != [] {
      assert kept[0] in kept;
    } else {
      assert Alive([]) == 0 && Latest([]) == None;
    }
  }
}
