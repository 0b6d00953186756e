/**
 Where the entries of the tables come from, in every run of the network: each entry that is no
 longer what its owner made it differs by what a removal, an announcement or an expiry did to it.
*/
module Provenance {
  import opened Wrappers
  import opened ConnectionTable
  import opened SliceReplacement
  import opened Gossip
  import Expiry
  import Convergence

  /** A node learns of a connection what its owner holds, times and all, but for being local and alive now. */
  lemma LearntAsAnnounced(c: Connection, now: int)
    ensures Learnt(Announced(c), now) == c.(local := false, aliveAt := now)
  {}

  /** The record of a node is the list of its own entries, all of them in their order. */
  lemma {:induction false} RecordIsSlice(cs: seq<Connection>, n: string, now: int)
    requires forall c :: c in cs ==> (c.local <==> c.node == n)
    ensures var learnt, own := LearntAll(LocalRecord(cs), now), Slice(cs, n);
            |learnt| == |own| && forall k :: 0 <= k < |own| ==> learnt[k] == own[k].(local := false, aliveAt := now)
  {
    if cs != [] {
      var front, last := cs[..|cs| - 1], cs[|cs| - 1];
      assert cs == front + [last];
      RecordIsSlice(front, n, now);
      LearntAsAnnounced(last, now);
      assert last in cs;
    }
  }

  lemma {:induction false} RecordOfAnnounced(announces: seq<TunnelAnnounce>, k: nat)
    requires k < |announces|
    ensures RecordOf(announces, announces[k].tunnel).Some?
  {
    if k < |announces| - 1 && announces[|announces| - 1].tunnel != announces[k].tunnel {
      RecordOfAnnounced(announces[..|announces| - 1], k);
    }
  }

  // ---------- entries of the node's own ----------

  predicate DownAt(e: Event, n: string, x: string, id: string)
  {
    e.GoDown? && e.node == n && e.tunnel == x && e.id == id
  }

  /** What an event leaves of a connection of the node's own. */
  function LeftBy(e: Event, n: string, x: string, c: Connection): Connection
  {
    if DownAt(e, n, x, c.id) then c.(connected := false, disconnectedAt := Some(e.now)) else c
  }

  /** The connection made by the k-th event, as all removals since then have left it. */
  function OwnEntry(es: seq<Event>, k: nat): Connection
    requires k < |es| && es[k].Connect?
  {
    var front, last, made := es[..|es| - 1], es[|es| - 1], es[k];
    if k == |es| - 1 then Connection(made.id, made.node, made.peer, true, true, Some(made.now), None, made.now)
    else if DownAt(last, made.node, made.tunnel, made.id)
    then OwnEntry(front, k).(connected := false, disconnectedAt := Some(last.now))
    else OwnEntry(front, k)
  }

  /** The entry is a connection of the run that was made at the node, as the removals since have left it. */
  predicate IsOwn(es: seq<Event>, n: string, x: string, c: Connection)
  {
    exists k :: 0 <= k < |es| && es[k].Connect? && es[k].node == n && es[k].tunnel == x && c == OwnEntry(es, k)
  }

  // ---------- entries of other nodes ----------

  /** The announcement was built by the k-th event, from the table its sender had then. */
  ghost predicate BuiltAt(nodes: set<string>, es: seq<Event>, k: nat, mid: Net, a: Announcement)
  {
    && k < |es| && Reaches(nodes, es[..k], mid) && es[k].Announce? && es[k].node == a.from && a.from in mid.tables
    && a == Announcement(a.from, Announces(mid.tables[a.from], es[k].tunnels))
  }

  /** What an owner held when it built an announcement, which reached the node later. */
  datatype Told = Told(built: nat, mid: Net, heard: nat, held: Connection)

  /** An entry of the owner's own, announced by one event and delivered by a later one. */
  ghost predicate WasTold(nodes: set<string>, es: seq<Event>, n: string, x: string, t: Told)
  {
    var o := t.held;
    && t.built < t.heard < |es| && es[t.heard].Deliver? && es[t.heard].node == n
    && es[t.heard].announcement.from == o.node && BuiltAt(nodes, es, t.built, t.mid, es[t.heard].announcement)
    && x in es[t.built].tunnels && o in Get(t.mid.tables[o.node], x).connections && o.local
  }

  /** The entry is what was told, marked as alive when it was heard; or it has expired by the m-th event. */
  predicate HeldSince(es: seq<Event>, n: string, t: Told, c: Connection)
    requires t.heard < |es| && es[t.heard].Deliver?
  {
    var learnt := t.held.(local := false, aliveAt := es[t.heard].now);
    || c == learnt
    || exists m :: t.heard < m < |es| && ExpiredBy(es[m], n, learnt, c)
  }

  /** The event marks a connected entry of a node as down that was not heard of for longer than the threshold. */
  predicate ExpiredBy(e: Event, n: string, before: Connection, after: Connection)
  {
    && e.Expire? && e.node == n && !before.local && before.connected && e.now - before.aliveAt > ALIVE_THRESHOLD
    && after == before.(connected := false, disconnectedAt := Some(e.now))
  }

  ghost predicate IsTold(nodes: set<string>, es: seq<Event>, n: string, x: string, c: Connection)
  {
    exists t :: WasTold(nodes, es, n, x, t) && HeldSince(es, n, t, c)
  }

  ghost predicate Traced(nodes: set<string>, es: seq<Event>, n: string, x: string, c: Connection)
  {
    if c.local then IsOwn(es, n, x, c) else IsTold(nodes, es, n, x, c)
  }

  // ---------- announcements ----------

  lemma {:induction false} SentWasBuilt(nodes: set<string>, es: seq<Event>, net: Net, a: Announcement)
    returns (k: nat, mid: Net)
    requires Reaches(nodes, es, net) && a in net.sent
    ensures BuiltAt(nodes, es, k, mid, a)
  {
    var n := |es| - 1;
    var before: Net :| Reaches(nodes, es[..n], before) && Next(before, es[n], net);
    hide Reaches, AtNode;
    if a in before.sent {
      k, mid := SentWasBuilt(nodes, es[..n], before, a);
      assert es[..n][..k] == es[..k];
    } else {
      StepIsFacts(before, es[n]);
      k, mid := n, before;
    }
  }

  lemma {:induction false} RecordItemIsOwn(cs: seq<Connection>, item: ConnectionAnnounce) returns (o: Connection)
    requires item in LocalRecord(cs)
    ensures o in cs && o.local && item == Announced(o)
  {
    var front, last := cs[..|cs| - 1], cs[|cs| - 1];
    assert cs == front + [last];
    if item in LocalRecord(front) { o := RecordItemIsOwn(front, item); } else { o := last; }
  }

  lemma RecordWasHeld(tb: Table, ids: seq<string>, x: string)
    requires RecordOf(Announces(tb, ids), x).Some?
    ensures x in ids && RecordOf(Announces(tb, ids), x).value == LocalRecord(Get(tb, x).connections)
  {
    RecordIsItem(Announces(tb, ids), x);
    var k :| 0 <= k < |ids| && Announces(tb, ids)[k] == TunnelAnnounce(x, RecordOf(Announces(tb, ids), x).value);
  }

  /**
   In every run: a delivery leaves a node with a copy of all entries the sender had of its own when it
   built the announcement, of each tunnel it built it for, in their order, times and all.
  */
  lemma DeliveryCopiesOwner(nodes: set<string>, es: seq<Event>, net: Net, e: Event, k: nat, mid: Net, x: string)
    requires Reaches(nodes, es, net) && Enabled(net, e) && e.Deliver? && e.announcement.from != e.node
    requires BuiltAt(nodes, es, k, mid, e.announcement) && x in es[k].tunnels
    ensures var o := e.announcement.from;
            var copy := Slice(Get(AtNode(net, e), x).connections, o);
            var own := Slice(Get(mid.tables[o], x).connections, o);
            |copy| == |own| && forall j :: 0 <= j < |own| ==> copy[j] == own[j].(local := false, aliveAt := e.now)
  {
    var a := e.announcement;
    ReachableInv(nodes, es, net);
    ReachableInv(nodes, es[..k], mid);
    hide Reaches;
    assert SentInv(net, a);
    var j :| 0 <= j < |es[k].tunnels| && es[k].tunnels[j] == x;
    RecordOfAnnounced(a.tunnels, j);
    RecordWasHeld(mid.tables[a.from], es[k].tunnels, x);
    LearnReplacesSlice(net.tables[e.node], e.node, a.from, a.tunnels, e.now, x);
    Convergence.LocalMeansOwn(mid, a.from, x);
    RecordIsSlice(Get(mid.tables[a.from], x).connections, a.from, e.now);
  }

  // ---------- one event ----------

  function EntriesAt(net: Net, n: string, x: string): seq<Connection>
    requires n in net.tables
  {
    Get(net.tables[n], x).connections
  }

  /** What an event makes of the entries of a node: it keeps them, makes or learns one, or marks one as down. */
  predicate ComesFrom(net: Net, e: Event, n: string, x: string, c: Connection)
    requires n in net.tables
  {
    var cs := EntriesAt(net, n, x);
    || (c in cs && !(c.local && DownAt(e, n, x, c.id)))
    || (e.Connect? && e.node == n && e.tunnel == x
          && c == Connection(e.id, n, e.peer, true, true, Some(e.now), None, e.now))
    || (DownAt(e, n, x, c.id)
          && exists b :: b in cs && b.local && b.id == c.id && c == LeftBy(e, n, x, b))
    || (exists b :: b in cs && ExpiredBy(e, n, b, c))
    || (e.Deliver? && e.node == n && RecordOf(e.announcement.tunnels, x).Some?
          && exists item :: item in RecordOf(e.announcement.tunnels, x).value && c == Learnt(item, e.now))
  }

  lemma ExpiryComesFrom(net: Net, e: Event, n: string, x: string, c: Connection)
    requires Enabled(net, e) && e.Expire? && e.node == n && c in Get(AtNode(net, e), x).connections
    ensures ComesFrom(net, e, n, x, c)
  {
    var cs := EntriesAt(net, n, x);
    Expiry.InRefreshed(cs, e.now);
    var b :| b in cs && Expired(b, e.now) == c;
  }

  lemma DeliveryComesFrom(net: Net, e: Event, n: string, x: string, c: Connection)
    requires Inv(net) && Enabled(net, e) && e.Deliver? && e.node == n && c in Get(AtNode(net, e), x).connections
    ensures ComesFrom(net, e, n, x, c)
  {
    var a, cs := e.announcement, EntriesAt(net, n, x);
    assert SentInv(net, a);
    if a.from != n {
      LearnEachAt(net.tables[n], a.from, a.tunnels, e.now, x);
      var record := RecordOf(a.tunnels, x);
      if record.Some? {
        if c in Others(cs, a.from) {
          InOthers(cs, a.from, c);
        } else {
          var k :| 0 <= k < |record.value| && LearntAll(record.value, e.now)[k] == c;
          assert record.value[k] in record.value;
        }
      }
    }
  }

  lemma RemovalComesFrom(net: Net, e: Event, n: string, x: string, c: Connection)
    requires Enabled(net, e) && e.GoDown? && e.node == n && c in Get(AtNode(net, e), x).connections
    ensures ComesFrom(net, e, n, x, c)
  {
    var cs := EntriesAt(net, n, x);
    if x == e.tunnel && x in net.tables[n] {
      var k :| 0 <= k < |cs| && DownIf(cs[k], e.id, e.now) == c;
      assert cs[k] in cs;
    }
  }

  lemma EntryComesFrom(net: Net, e: Event, n: string, x: string, c: Connection)
    requires Inv(net) && Enabled(net, e) && n in net.tables
    requires c in EntriesAt(Step(net, e), n, x)
    ensures ComesFrom(net, e, n, x, c)
  {
    StepIsFacts(net, e);
    hide Step;
    if e.node == n {
      match e
      case Expire(_, _) => ExpiryComesFrom(net, e, n, x, c);
      case Deliver(_, _, _) => DeliveryComesFrom(net, e, n, x, c);
      case GoDown(_, _, _, _) => RemovalComesFrom(net, e, n, x, c);
      case _ =>
    }
  }

  // ---------- every run ----------

  lemma OwnGrows(es: seq<Event>, e: Event, k: nat)
    requires k < |es| && es[k].Connect?
    ensures (es + [e])[k] == es[k]
    ensures OwnEntry(es + [e], k) ==
            if DownAt(e, es[k].node, es[k].tunnel, es[k].id)
            then OwnEntry(es, k).(connected := false, disconnectedAt := Some(e.now))
            else OwnEntry(es, k)
  {
    assert (es + [e])[..|es + [e]| - 1] == es;
  }

  lemma {:induction false} OwnEntryIs(es: seq<Event>, k: nat)
    requires k < |es| && es[k].Connect?
    ensures OwnEntry(es, k).local && OwnEntry(es, k).id == es[k].id && OwnEntry(es, k).node == es[k].node
  {
    if k < |es| - 1 { OwnEntryIs(es[..|es| - 1], k); }
  }

  lemma OwnComesFrom(es: seq<Event>, before: Net, e: Event, n: string, x: string, c: Connection)
    requires n in before.tables && ComesFrom(before, e, n, x, c) && c.local
    requires forall b :: b in EntriesAt(before, n, x) && b.local ==> IsOwn(es, n, x, b)
    ensures IsOwn(es + [e], n, x, c)
  {
    hide OwnEntry;
    var cs := EntriesAt(before, n, x);
    if b :| b in cs && b.local && b.id == c.id && c == LeftBy(e, n, x, b) {
      assert IsOwn(es, n, x, b);
      var k :| 0 <= k < |es| && es[k].Connect? && es[k].node == n && es[k].tunnel == x && b == OwnEntry(es, k);
      OwnEntryIs(es, k);
      OwnGrows(es, e, k);
    } else {
      MadeIsOwn(es, e);
      assert (es + [e])[|es|] == e;
    }
  }

  lemma MadeIsOwn(es: seq<Event>, e: Event)
    ensures e.Connect? ==>
              OwnEntry(es + [e], |es|) == Connection(e.id, e.node, e.peer, true, true, Some(e.now), None, e.now)
  {}

  lemma ToldGrows(nodes: set<string>, es: seq<Event>, e: Event, n: string, x: string, t: Told, c: Connection)
    requires WasTold(nodes, es, n, x, t) && HeldSince(es, n, t, c)
    ensures WasTold(nodes, es + [e], n, x, t) && HeldSince(es + [e], n, t, c)
  {
    var longer := es + [e];
    assert longer[..t.built] == es[..t.built] && longer[t.built] == es[t.built] && longer[t.heard] == es[t.heard];
    assert forall m :: 0 <= m < |es| ==> longer[m] == es[m];
    hide Reaches, Announces, Get;
  }

  lemma ExpiredSince(nodes: set<string>, es: seq<Event>, e: Event, n: string, x: string, b: Connection, c: Connection)
    requires IsTold(nodes, es, n, x, b) && ExpiredBy(e, n, b, c)
    ensures IsTold(nodes, es + [e], n, x, c)
  {
    var t :| WasTold(nodes, es, n, x, t) && HeldSince(es, n, t, b);
    ToldGrows(nodes, es, e, n, x, t, b);
    hide WasTold;
    assert (es + [e])[|es|] == e;
    assert HeldSince(es + [e], n, t, c);
  }

  lemma HeardIsTold(nodes: set<string>, es: seq<Event>, before: Net, e: Event, n: string, x: string, c: Connection)
    requires Reaches(nodes, es, before) && Enabled(before, e) && e.Deliver? && e.node == n
    requires RecordOf(e.announcement.tunnels, x).Some?
    requires exists item :: item in RecordOf(e.announcement.tunnels, x).value && c == Learnt(item, e.now)
    ensures IsTold(nodes, es + [e], n, x, c)
  {
    var a := e.announcement;
    var item :| item in RecordOf(a.tunnels, x).value && c == Learnt(item, e.now);
    var k, mid := SentWasBuilt(nodes, es, before, a);
    ReachableInv(nodes, es[..k], mid);
    hide Reaches;
    RecordWasHeld(mid.tables[a.from], es[k].tunnels, x);
    var o := RecordItemIsOwn(EntriesAt(mid, a.from, x), item);
    LearntAsAnnounced(o, e.now);
    assert TableInv(mid, a.from, mid.tables[a.from]) && EntryInv(mid, a.from, x, o);
    var longer, t := es + [e], Told(k, mid, |es|, o);
    assert longer[..k] == es[..k] && longer[k] == es[k] && longer[|es|] == e;
    hide Inv, TableInv, EntryInv, Announces;
    assert WasTold(nodes, longer, n, x, t) && HeldSince(longer, n, t, c);
  }

  lemma StepTraces(nodes: set<string>, es: seq<Event>, before: Net, e: Event, n: string, x: string, c: Connection)
    requires Reaches(nodes, es, before) && Inv(before) && Enabled(before, e) && n in before.tables
    requires c in EntriesAt(Step(before, e), n, x)
    requires forall b :: b in EntriesAt(before, n, x) ==> Traced(nodes, es, n, x, b)
    ensures Traced(nodes, es + [e], n, x, c)
  {
    EntryComesFrom(before, e, n, x, c);
    hide Reaches, Step, IsOwn, IsTold, Inv, EntriesAt;
    var cs := EntriesAt(before, n, x);
    if c.local {
      OwnComesFrom(es, before, e, n, x, c);
    } else if c in cs {
      StillTold(nodes, es, e, n, x, c);
    } else if b :| b in cs && ExpiredBy(e, n, b, c) {
      ExpiredSince(nodes, es, e, n, x, b, c);
    } else {
      HeardIsTold(nodes, es, before, e, n, x, c);
    }
  }

  lemma StillTold(nodes: set<string>, es: seq<Event>, e: Event, n: string, x: string, c: Connection)
    requires IsTold(nodes, es, n, x, c)
    ensures IsTold(nodes, es + [e], n, x, c)
  {
    var t :| WasTold(nodes, es, n, x, t) && HeldSince(es, n, t, c);
    ToldGrows(nodes, es, e, n, x, t, c);
  }

  lemma {:induction false} ReachableTraced(nodes: set<string>, es: seq<Event>, net: Net, n: string, x: string)
    requires Reaches(nodes, es, net) && n in net.tables
    ensures forall c :: c in EntriesAt(net, n, x) ==> Traced(nodes, es, n, x, c)
  {
    if es != [] {
      var front, last := es[..|es| - 1], es[|es| - 1];
      var before: Net :| Reaches(nodes, front, before) && Next(before, last, net);
      StepIsFacts(before, last);
      ReachableInv(nodes, front, before);
      hide Reaches, Step, Inv, Traced, AtNode, EntriesAt;
      ReachableTraced(nodes, front, before, n, x);
      assert es == front + [last];
      forall c | c in EntriesAt(net, n, x) ensures Traced(nodes, es, n, x, c) {
        StepTraces(nodes, front, before, last, n, x, c);
      }
    }
  }

  /**
   In every run a remote entry is what its owner held, times and all, when it built an announcement
   that was delivered later, alive since that delivery; but for having expired, no earlier than the
   threshold after it, and being dated by that.
  */
  lemma RemoteEntriesWereHeld(nodes: set<string>, es: seq<Event>, net: Net, n: string, x: string, c: Connection)
    returns (t: Told)
    requires Reaches(nodes, es, net) && n in net.tables && c in Get(net.tables[n], x).connections && !c.local
    ensures WasTold(nodes, es, n, x, t) && HeldSince(es, n, t, c)
  {
    ReachableTraced(nodes, es, net, n, x);
    assert c in EntriesAt(net, n, x);
    hide Reaches;
    t :| WasTold(nodes, es, n, x, t) && HeldSince(es, n, t, c);
  }

  /**
   In every run an entry of a node's own is a connection made there, with the time it was made at, and
   the time of the last removal of it since then if there was one.
  */
  lemma OwnEntriesWereMade(nodes: set<string>, es: seq<Event>, net: Net, n: string, x: string, c: Connection)
    returns (k: nat)
    requires Reaches(nodes, es, net) && n in net.tables && c in Get(net.tables[n], x).connections && c.local
    ensures k < |es| && es[k].Connect? && es[k].node == n && es[k].tunnel == x && c == OwnEntry(es, k)
  {
    ReachableTraced(nodes, es, net, n, x);
    assert c in EntriesAt(net, n, x);
    hide Reaches, OwnEntry;
    k :| 0 <= k < |es| && es[k].Connect? && es[k].node == n && es[k].tunnel == x && c == OwnEntry(es, k);
  }
}
