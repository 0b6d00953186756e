/**
 What the order of two senders' announcements leaves in the three times of a tunnel. Entries and
 counters do not depend on it; the times do, since they record when the tunnel went up or down.
*/
module SenderOrder {
  import opened Wrappers
  import opened ConnectionTable
  import opened SliceReplacement

  predicate Up(cs: seq<Connection>)
  {
    Alive(cs) > 0
  }

  /** The time recorded when a tunnel with these entries comes up, or goes down. */
  function FirstUp(cs: seq<Connection>, now: int): Option<int>
  {
    OrNow(Earliest(cs), now)
  }

  function LastDown(cs: seq<Connection>, now: int): Option<int>
  {
    OrNow(Latest(cs), now)
  }

  /** The entries after one of the two announcements, and after both. */
  function AfterOne(t: Tunnel, from: string, announced: seq<ConnectionAnnounce>, now: int): seq<Connection>
  {
    Others(t.connections, from) + LearntAll(announced, now)
  }

  function AfterBoth(t: Tunnel, a: string, fromA: seq<ConnectionAnnounce>, b: string, fromB: seq<ConnectionAnnounce>,
                     now: int): seq<Connection>
  {
    BothOthers(t, a, b) + LearntAll(fromA, now) + LearntAll(fromB, now)
  }

  // ---------- the conditions ----------

  /** `one` and `two` are the entries after either announcement, `both` after both. */
  predicate ConnectedAtAgrees(t: Tunnel, one: seq<Connection>, two: seq<Connection>, both: seq<Connection>, now: int)
  {
    if Up(one) && Up(two) then t.connected || FirstUp(one, now) == FirstUp(two, now)
    else if Up(one) || Up(two) then
      var up := if Up(one) then one else two;
      if Up(both) then (if t.connected then t.connectedAt else FirstUp(up, now)) == FirstUp(both, now)
      else t.connected || FirstUp(up, now) == t.connectedAt
    else true
  }

  predicate DisconnectedAtAgrees(t: Tunnel, one: seq<Connection>, two: seq<Connection>, both: seq<Connection>, now: int)
  {
    if Up(one) && Up(two) then true
    else if Up(one) || Up(two) then
      var down := if Up(one) then two else one;
      if Up(both) then !t.connected || LastDown(down, now) == t.disconnectedAt
      else (if t.connected then LastDown(down, now) else t.disconnectedAt) == LastDown(both, now)
    else !t.connected || LastDown(one, now) == LastDown(two, now)
  }

  predicate AliveAtAgrees(t: Tunnel, one: seq<Connection>, two: seq<Connection>, both: seq<Connection>, now: int)
  {
    Up(both) || (Up(one) <==> Up(two)) || t.aliveAt == Some(now)
  }

  // ---------- the times ----------

  /** The earliest and the latest time do not depend on the order of two groups of entries. */
  lemma TimesIgnoreOrder(rest: seq<Connection>, xs: seq<Connection>, ys: seq<Connection>)
    ensures Earliest(rest + xs + ys) == Earliest(rest + ys + xs)
    ensures Latest(rest + xs + ys) == Latest(rest + ys + xs)
  {
    var one, two := rest + xs + ys, rest + ys + xs;
    assert forall c :: c in one <==> c in two;
    EarliestIsLeast(one);
    EarliestIsLeast(two);
    LatestIsGreatest(one);
    LatestIsGreatest(two);
    hide Earliest, Latest;
  }

  lemma UpAfterBoth(t: Tunnel, a: string, fromA: seq<ConnectionAnnounce>, b: string, fromB: seq<ConnectionAnnounce>,
                    now: int)
    requires a != b
    ensures Up(AfterBoth(t, a, fromA, b, fromB, now)) ==>
              Up(AfterOne(t, a, fromA, now)) || Up(AfterOne(t, b, fromB, now))
  {
    var rest, la, lb := BothOthers(t, a, b), LearntAll(fromA, now), LearntAll(fromB, now);
    AliveOverAppend(rest + la, lb);
    AliveOverAppend(rest, la);
    AliveOverAppend(Others(t.connections, a), la);
    AliveOverAppend(Others(t.connections, b), lb);
    OthersLowersAlive(Others(t.connections, a), b);
    hide Alive;
  }

  lemma AliveOneMore(cs: seq<Connection>, c: Connection)
    ensures Alive(cs + [c]) == Alive(cs) + if c.connected then 1 else 0
  {
    assert (cs + [c])[..|cs + [c]| - 1] == cs;
  }

  lemma {:induction false} OthersLowersAlive(cs: seq<Connection>, node: string)
    ensures Alive(Others(cs, node)) <= Alive(cs)
  {
    if cs != [] {
      var front, last := cs[..|cs| - 1], cs[|cs| - 1];
      OthersLowersAlive(front, node);
      FiltersOverOneMore(front, last, node);
      AliveOneMore(front, last);
      AliveOneMore(Others(front, node), last);
      assert cs == front + [last];
      hide Alive, Others;
    }
  }

  /** The times after learning from two senders, from the entries on the way. */
  lemma TimesAfterTwo(t: Tunnel, a: string, fromA: seq<ConnectionAnnounce>, b: string, fromB: seq<ConnectionAnnounce>,
                      now: int)
    requires a != b
    requires forall c :: c in fromA ==> c.node == a
    ensures var u := LearnTunnel(LearnTunnel(t, a, fromA, now), b, fromB, now);
            var one, both := AfterOne(t, a, fromA, now), AfterBoth(t, a, fromA, b, fromB, now);
            && u.connections == both
            && u.connectedAt == (if Up(both) && !Up(one) then FirstUp(both, now)
                                 else if Up(one) && !t.connected then FirstUp(one, now) else t.connectedAt)
            && u.disconnectedAt == (if !Up(both) && Up(one) then LastDown(both, now)
                                    else if !Up(one) && t.connected then LastDown(one, now) else t.disconnectedAt)
            && u.aliveAt == if Up(one) || Up(both) then Some(now) else t.aliveAt
  {
    AfterTwoSenders(t, a, fromA, b, fromB, now);
    hide Others, LearntAll, Alive, Earliest, Latest;
  }

  /** For two senders at one time, each of the three times is the same in both orders exactly under its condition. */
  lemma TimesAgreeExactly(t: Tunnel, a: string, fromA: seq<ConnectionAnnounce>, b: string,
                          fromB: seq<ConnectionAnnounce>, now: int)
    requires a != b
    requires forall c :: c in fromA ==> c.node == a
    requires forall c :: c in fromB ==> c.node == b
    ensures var u := LearnTunnel(LearnTunnel(t, a, fromA, now), b, fromB, now);
            var v := LearnTunnel(LearnTunnel(t, b, fromB, now), a, fromA, now);
            var one, two := AfterOne(t, a, fromA, now), AfterOne(t, b, fromB, now);
            var both := AfterBoth(t, a, fromA, b, fromB, now);
            && (u.connectedAt == v.connectedAt <==> ConnectedAtAgrees(t, one, two, both, now))
            && (u.disconnectedAt == v.disconnectedAt <==> DisconnectedAtAgrees(t, one, two, both, now))
            && (u.aliveAt == v.aliveAt <==> AliveAtAgrees(t, one, two, both, now))
  {
    TimesAfterTwo(t, a, fromA, b, fromB, now);
    TimesAfterTwo(t, b, fromB, a, fromA, now);
    UpAfterBoth(t, a, fromA, b, fromB, now);
    OthersCommute(t.connections, a, b);
    var rest, la, lb := BothOthers(t, a, b), LearntAll(fromA, now), LearntAll(fromB, now);
    TimesIgnoreOrder(rest, la, lb);
    SwapTail(rest, la, lb, rest + la + lb, rest + lb + la);
    hide Others, LearntAll, Alive, Earliest, Latest, LearnTunnel;
  }

  // ---------- whole tables ----------

  /** The same up to the order of the entries. */
  predicate EqualUpToOrder(t: Tunnel, u: Tunnel)
  {
    SameUpToOrder(t, u) && t.connectedAt == u.connectedAt && t.disconnectedAt == u.disconnectedAt &&
        t.aliveAt == u.aliveAt
  }

  /** The order of the two records does not show in any time of the tunnel. */
  predicate OrderHidden(t: Tunnel, a: string, fromA: Option<seq<ConnectionAnnounce>>, b: string,
                        fromB: Option<seq<ConnectionAnnounce>>, now: int)
  {
    fromA.Some? && fromB.Some? ==>
      var one, two := AfterOne(t, a, fromA.value, now), AfterOne(t, b, fromB.value, now);
      var both := AfterBoth(t, a, fromA.value, b, fromB.value, now);
      ConnectedAtAgrees(t, one, two, both, now) && DisconnectedAtAgrees(t, one, two, both, now) &&
          AliveAtAgrees(t, one, two, both, now)
  }

  /**
   Two senders' announcements give the same table in both orders, up to the order of the entries,
   exactly if the order is hidden in every tunnel that both of them announce.
  */
  lemma OrderShowsExactly(tb: Table, self: string, a: string, fromA: seq<TunnelAnnounce>, b: string,
                          fromB: seq<TunnelAnnounce>, now: int, x: string)
    requires a != b && a != self && b != self && Honest(a, fromA) && Honest(b, fromB)
    ensures var one := Learn(Learn(tb, self, a, fromA, now), self, b, fromB, now);
            var two := Learn(Learn(tb, self, b, fromB, now), self, a, fromA, now);
            && (x in one <==> x in two)
            && (EqualUpToOrder(Get(one, x), Get(two, x)) <==>
                 OrderHidden(Get(tb, x), a, RecordOf(fromA, x), b, RecordOf(fromB, x), now))
  {
    var afterA, afterB := LearnEach(tb, a, fromA, now), LearnEach(tb, b, fromB, now);
    LearnEachAt(tb, a, fromA, now, x);
    LearnEachAt(tb, b, fromB, now, x);
    LearnEachAt(afterA, b, fromB, now, x);
    LearnEachAt(afterB, a, fromA, now, x);
    RecordIsOwn(a, fromA, x);
    RecordIsOwn(b, fromB, x);
    var ra, rb := RecordOf(fromA, x), RecordOf(fromB, x);
    if ra.Some? && rb.Some? {
      LearnTunnelCommutes(Get(tb, x), a, ra.value, b, rb.value, now);
      TimesAgreeExactly(Get(tb, x), a, ra.value, b, rb.value, now);
    }
    hide LearnTunnel, LearnEach, ConnectedAtAgrees, DisconnectedAtAgrees, AliveAtAgrees;
  }

  // ---------- the order does show ----------

  function UpEntry(node: string, at: int): ConnectionAnnounce
  {
    ConnectionAnnounce(node, node, "", true, Some(at), None)
  }

  function DownEntry(node: string, at: int): ConnectionAnnounce
  {
    ConnectionAnnounce(node, node, "", false, None, Some(at))
  }

  lemma OneEntry(c: Connection)
    ensures Alive([c]) == if c.connected then 1 else 0
    ensures Earliest([c]) == if c.connected && Stamped(c.connectedAt) then c.connectedAt else None
    ensures Latest([c]) == if !c.connected && Stamped(c.disconnectedAt) then c.disconnectedAt else None
    ensures forall node :: Others([c], node) == if c.node == node then [] else [c]
  {
    var cs := [c];
    var none := cs[..|cs| - 1];
    assert none == [] && cs[|cs| - 1] == c;
    assert Alive(none) == 0 && Earliest(none) == None && Latest(none) == None;
    assert Alive(cs) == Alive(none) + if c.connected then 1 else 0;
  }

  lemma Alone(a: ConnectionAnnounce, now: int)
    ensures LearntAll([a], now) == [Learnt(a, now)] && Others([], a.node) == []
  {}

  /** Two nodes bring a tunnel up: its time of connection is that of whoever is heard first. */
  lemma ConnectedAtDependsOnOrder(now: int)
    ensures var a, b := [UpEntry("a", 5)], [UpEntry("b", 3)];
            LearnTunnel(LearnTunnel(NEW_TUNNEL, "a", a, now), "b", b, now).connectedAt !=
            LearnTunnel(LearnTunnel(NEW_TUNNEL, "b", b, now), "a", a, now).connectedAt
  {
    var a, b := UpEntry("a", 5), UpEntry("b", 3);
    Alone(a, now);
    Alone(b, now);
    OneEntry(Learnt(a, now));
    OneEntry(Learnt(b, now));
    hide Others, LearntAll, Alive, Earliest, Latest;
    assert AfterOne(NEW_TUNNEL, "a", [a], now) == [Learnt(a, now)];
    assert AfterOne(NEW_TUNNEL, "b", [b], now) == [Learnt(b, now)];
    TimesAgreeExactly(NEW_TUNNEL, "a", [a], "b", [b], now);
  }

  /**
   A tunnel that is up through one node only, which reports it down while another one reports it up
   or down: whether the tunnel was down in between, and when it was last alive, depends on the order.
  */
  lemma OtherTimesDependOnOrder(now: int, bUp: bool)
    requires now > 2
    ensures var t := LearnTunnel(NEW_TUNNEL, "a", [UpEntry("a", 1)], 1);
            var a, b := [DownEntry("a", 2)], [if bUp then UpEntry("b", 2) else DownEntry("b", 2)];
            var u := LearnTunnel(LearnTunnel(t, "a", a, now), "b", b, now);
            var v := LearnTunnel(LearnTunnel(t, "b", b, now), "a", a, now);
            if bUp then u.disconnectedAt != v.disconnectedAt else u.aliveAt != v.aliveAt
  {
    var e, a, b := UpEntry("a", 1), DownEntry("a", 2), if bUp then UpEntry("b", 2) else DownEntry("b", 2);
    var t := LearnTunnel(NEW_TUNNEL, "a", [e], 1);
    Alone(e, 1);
    Alone(a, now);
    Alone(b, now);
    OneEntry(Learnt(e, 1));
    OneEntry(Learnt(a, now));
    OneEntry(Learnt(b, now));
    AliveOverAppend([Learnt(e, 1)], [Learnt(b, now)]);
    AliveOverAppend([Learnt(a, now)], [Learnt(b, now)]);
    hide Others, LearntAll, Alive, Earliest, Latest;
    assert Others(NEW_TUNNEL.connections, "a") + LearntAll([e], 1) == [Learnt(e, 1)];
    assert t.connections == [Learnt(e, 1)] && t.connected && t.aliveAt == Some(1) && t.disconnectedAt == None;
    assert AfterOne(t, "a", [a], now) == [Learnt(a, now)];
    assert AfterOne(t, "b", [b], now) == [Learnt(e, 1)] + [Learnt(b, now)];
    assert BothOthers(t, "a", "b") == [];
    assert AfterBoth(t, "a", [a], "b", [b], now) == [Learnt(a, now)] + [Learnt(b, now)];
    TimesAgreeExactly(t, "a", [a], "b", [b], now);
  }
}
