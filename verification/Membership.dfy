/**
 Peer membership of the cluster manager: learning a peer arms a stale timer and a removal
 timer, each learning re-arms both. This module is the specification; the class in
 ClusterManager.dfy updates the same state in place.
*/
module Membership {
  import opened Wrappers
  import opened SlidingWindow

  datatype NodeInfo = NodeInfo(id: string, host: string, ip: string, lastTs: int)

  datatype Node = Node(
    info: NodeInfo,
    stale: bool,
    window: Window,
    staleTimer: Option<nat>,
    removalTimer: Option<nat>)

  datatype Kind = MarkStale | Forget

  /** A timer that has neither fired nor been cleared. */
  datatype Timer = Timer(kind: Kind, peer: string, start: int, delay: nat)
  {
    function Due(): int { start + delay }
  }

  datatype Config = Config(self: NodeInfo, staleTimeout: nat, removalTimeout: nat)

  datatype Cluster = Cluster(nodes: map<string, Node>, pending: map<nat, Timer>, nextTimer: nat)

  /** What a received message says about its sender. */
  datatype Message = Message(heartbeat: bool, info: NodeInfo, number: int)

  function Initial(cfg: Config): Cluster
  {
    Cluster(map[cfg.self.id := Node(cfg.self, false, FRESH, None, None)], map[], 0)
  }

  function Cleared(pending: map<nat, Timer>, timer: Option<nat>): map<nat, Timer>
  {
    if timer.Some? then pending - {timer.value} else pending
  }

  /** Learning a peer; the node itself is never learnt. */
  function Learn(cfg: Config, c: Cluster, info: NodeInfo, now: int): Cluster
  {
    if info.id == cfg.self.id then c
    else
      var node := if info.id in c.nodes then c.nodes[info.id] else Node(info, false, FRESH, None, None);
      var t := c.nextTimer;
      var rearmed := Cleared(c.pending, node.staleTimer)[t := Timer(MarkStale, info.id, now, cfg.staleTimeout)];
      Cluster(c.nodes[info.id := Node(info, false, node.window, Some(t), Some(t + 1))],
              Cleared(rearmed, node.removalTimer)[t + 1 := Timer(Forget, info.id, now, cfg.removalTimeout)],
              t + 2)
  }

  predicate Learns(cfg: Config, c: Cluster, m: Message)
  {
    m.heartbeat || m.info.id !in c.nodes
  }

  function AfterLearning(cfg: Config, c: Cluster, m: Message, now: int): Cluster
  {
    if Learns(cfg, c, m) then Learn(cfg, c, m.info, now) else c
  }

  /** One message: learn the sender when called for, then pass its window. */
  function ReceiveMessage(cfg: Config, c: Cluster, m: Message, now: int): (Cluster, Verdict)
    requires cfg.self.id in c.nodes
  {
    var d := AfterLearning(cfg, c, m, now);
    var node := d.nodes[m.info.id];
    var (w, verdict) := Receive(node.window, m.number);
    (d.(nodes := d.nodes[m.info.id := node.(window := w)]), verdict)
  }

  /** A timer goes off: it is no longer pending, and its callback runs. */
  function Fire(c: Cluster, timer: nat): Cluster
    requires timer in c.pending
  {
    var t := c.pending[timer];
    var rest := c.pending - {timer};
    match t.kind
    case MarkStale =>
      Cluster(if t.peer in c.nodes then c.nodes[t.peer := c.nodes[t.peer].(stale := true)] else c.nodes,
              rest, c.nextTimer)
    case Forget =>
      Cluster(c.nodes - {t.peer}, rest, c.nextTimer)
  }

  function GetNode(c: Cluster, id: string): Option<NodeInfo>
  {
    if id in c.nodes && !c.nodes[id].stale then Some(c.nodes[id].info) else None
  }

  function GetLearntPeers(c: Cluster): set<string>
  {
    set id | id in c.nodes && !c.nodes[id].stale :: c.nodes[id].info.ip
  }

  // ---------- runs ----------

  datatype Event = Receives(message: Message) | Fires(timer: nat) | Waits(time: nat)

  /**
   The cluster and the clock, with three records of the past: when each peer was last learnt or
   last sent a heartbeat, what it said about itself then, and the numbers that arrived from it since
   it was learnt.
  */
  datatype World = World(
    cluster: Cluster,
    now: int,
    heard: map<string, int>,
    said: map<string, NodeInfo>,
    arrived: map<string, seq<int>>)

  function Start(cfg: Config): World
  {
    World(Initial(cfg), 0, map[], map[], map[cfg.self.id := []])
  }

  function ArrivedFrom(w: World, id: string): seq<int>
  {
    if id in w.cluster.nodes && id in w.arrived then w.arrived[id] else []
  }

  /**
   Timers are punctual: the clock does not pass a pending one, and timers of one duration go
   off in the order they were set.
  */
  predicate Enabled(w: World, e: Event)
  {
    match e
    case Receives(_) => true
    case Waits(time) => forall t :: t in w.cluster.pending ==> w.now + time <= w.cluster.pending[t].Due()
    case Fires(t) =>
      && t in w.cluster.pending && w.cluster.pending[t].Due() <= w.now
      && forall u :: u in w.cluster.pending && w.cluster.pending[u].delay == w.cluster.pending[t].delay ==> t <= u
  }

  function Step(cfg: Config, w: World, e: Event): World
    requires Enabled(w, e) && cfg.self.id in w.cluster.nodes
  {
    match e
    case Waits(time) => w.(now := w.now + time)
    case Fires(t) => w.(cluster := Fire(w.cluster, t))
    case Receives(m) =>
      var learnt := m.info.id != cfg.self.id && (m.heartbeat || m.info.id !in w.cluster.nodes);
      World(ReceiveMessage(cfg, w.cluster, m, w.now).0, w.now,
            if learnt then w.heard[m.info.id := w.now] else w.heard,
            if learnt then w.said[m.info.id := m.info] else w.said,
            w.arrived[m.info.id := ArrivedFrom(w, m.info.id) + [m.number]])
  }

  /** `w` can be reached from start-up by the events `es`. */
  ghost predicate Reaches(cfg: Config, es: seq<Event>, w: World)
  {
    if es == [] then
      w == Start(cfg)
    else
      exists v: World ::
        && Reaches(cfg, es[..|es| - 1], v)
        && Enabled(v, es[|es| - 1]) && cfg.self.id in v.cluster.nodes
        && w == Step(cfg, v, es[|es| - 1])
  }

  // ---------- the invariant ----------

  /** A known peer has its removal timer pending, and its stale timer exactly while not stale. */
  predicate PeerInv(cfg: Config, w: World, id: string)
    requires id in w.cluster.nodes
  {
    var c := w.cluster;
    var n := c.nodes[id];
    && id in w.heard && w.heard[id] <= w.now
    && n.removalTimer.Some? && n.staleTimer.Some? && n.staleTimer.value < n.removalTimer.value
    && n.removalTimer.value in c.pending
    && c.pending[n.removalTimer.value] == Timer(Forget, id, w.heard[id], cfg.removalTimeout)
    && (!n.stale ==> n.staleTimer.value in c.pending
                     && c.pending[n.staleTimer.value] == Timer(MarkStale, id, w.heard[id], cfg.staleTimeout))
    && (n.stale ==> n.staleTimer.value !in c.pending && w.heard[id] + cfg.staleTimeout <= w.now)
  }

  /** Every pending timer is the current one of a known peer, and not overdue. */
  predicate TimerInv(cfg: Config, w: World, t: nat)
    requires t in w.cluster.pending
  {
    var c := w.cluster;
    var timer := c.pending[t];
    && t < c.nextTimer && w.now <= timer.Due()
    && timer.peer in c.nodes && timer.peer != cfg.self.id
    && Some(t) == if timer.kind == Forget then c.nodes[timer.peer].removalTimer
                  else c.nodes[timer.peer].staleTimer
  }

  predicate Inv(cfg: Config, w: World)
  {
    var c := w.cluster;
    && cfg.self.id in c.nodes && !c.nodes[cfg.self.id].stale
    && (forall id :: id in c.nodes && id != cfg.self.id ==> PeerInv(cfg, w, id))
    && (forall t :: t in c.pending ==> TimerInv(cfg, w, t))
    && (forall id :: id in w.heard && id !in c.nodes ==> w.heard[id] + cfg.removalTimeout <= w.now)
  }

  lemma LearnArmsPeer(cfg: Config, w: World, info: NodeInfo)
    requires Inv(cfg, w) && info.id != cfg.self.id
    ensures PeerInv(cfg, Learnt(cfg, w, info), info.id)
  {
    if info.id in w.cluster.nodes {
      assert PeerInv(cfg, w, info.id);
      assert TimerInv(cfg, w, w.cluster.nodes[info.id].removalTimer.value);
    }
  }

  lemma PeersHold(cfg: Config, w: World)
    requires Inv(cfg, w)
    ensures forall id :: id in w.cluster.nodes && id != cfg.self.id ==> PeerInv(cfg, w, id)
    ensures forall t :: t in w.cluster.pending ==> TimerInv(cfg, w, t)
  {
    hide PeerInv, TimerInv;
  }

  lemma LearnKeepsPeer(cfg: Config, w: World, info: NodeInfo, id: string)
    requires Inv(cfg, w) && info.id != cfg.self.id && id != cfg.self.id
    requires id != info.id && id in w.cluster.nodes
    ensures PeerInv(cfg, Learnt(cfg, w, info), id)
  {
    hide Inv;
    assert PeerInv(cfg, w, id) && (info.id in w.cluster.nodes ==> PeerInv(cfg, w, info.id)) by { PeersHold(cfg, w); }
    assert forall t :: t in w.cluster.pending ==> TimerInv(cfg, w, t) by { PeersHold(cfg, w); }
    assert TimerInv(cfg, w, w.cluster.nodes[id].removalTimer.value);
    if !w.cluster.nodes[id].stale { assert TimerInv(cfg, w, w.cluster.nodes[id].staleTimer.value); }
  }

  lemma LearnKeepsTimer(cfg: Config, w: World, info: NodeInfo, t: nat)
    requires Inv(cfg, w) && info.id != cfg.self.id
    requires t in Learnt(cfg, w, info).cluster.pending
    ensures TimerInv(cfg, Learnt(cfg, w, info), t)
  {
    if t < w.cluster.nextTimer {
      assert TimerInv(cfg, w, t);
    }
    if info.id in w.cluster.nodes {
      assert PeerInv(cfg, w, info.id);
    }
  }

  function Learnt(cfg: Config, w: World, info: NodeInfo): World
  {
    w.(cluster := Learn(cfg, w.cluster, info, w.now), heard := w.heard[info.id := w.now])
  }

  lemma LearnKeepsInv(cfg: Config, w: World, info: NodeInfo)
    requires Inv(cfg, w) && info.id != cfg.self.id
    ensures Inv(cfg, Learnt(cfg, w, info))
  {
    var v := Learnt(cfg, w, info);
    assert v.cluster.nodes.Keys == w.cluster.nodes.Keys + {info.id};
    assert v.cluster.nodes[cfg.self.id] == w.cluster.nodes[cfg.self.id];
    hide Learnt, PeerInv, TimerInv;
    forall id | id in v.cluster.nodes && id != cfg.self.id ensures PeerInv(cfg, v, id) {
      if id == info.id { LearnArmsPeer(cfg, w, info); } else { LearnKeepsPeer(cfg, w, info, id); }
    }
    forall t | t in v.cluster.pending ensures TimerInv(cfg, v, t) {
      LearnKeepsTimer(cfg, w, info, t);
    }
  }

  /** Only the window of a message's sender changes after the learning. */
  lemma WindowKeepsInv(cfg: Config, w: World, id: string, window: Window)
    requires Inv(cfg, w) && id in w.cluster.nodes
    ensures Inv(cfg, w.(cluster := w.cluster.(nodes := w.cluster.nodes[id := w.cluster.nodes[id].(window := window)])))
  {
    var v := w.(cluster := w.cluster.(nodes := w.cluster.nodes[id := w.cluster.nodes[id].(window := window)]));
    forall p | p in v.cluster.nodes && p != cfg.self.id ensures PeerInv(cfg, v, p) {
      assert PeerInv(cfg, w, p);
    }
    forall t | t in v.cluster.pending ensures TimerInv(cfg, v, t) {
      assert TimerInv(cfg, w, t);
    }
  }

  lemma FireKeepsInv(cfg: Config, w: World, t: nat)
    requires Inv(cfg, w) && Enabled(w, Fires(t)) && cfg.staleTimeout <= cfg.removalTimeout
    ensures Inv(cfg, w.(cluster := Fire(w.cluster, t)))
  {
    var c := w.cluster;
    var v := w.(cluster := Fire(c, t));
    var timer := c.pending[t];
    assert TimerInv(cfg, w, t);
    assert PeerInv(cfg, w, timer.peer);
    // a stale timer still pending would be due before, or at the same time but set earlier
    assert timer.kind == Forget ==> c.nodes[timer.peer].stale;
    forall p | p in v.cluster.nodes && p != cfg.self.id ensures PeerInv(cfg, v, p) {
      assert PeerInv(cfg, w, p);
    }
    forall u | u in v.cluster.pending ensures TimerInv(cfg, v, u) {
      assert TimerInv(cfg, w, u);
    }
  }

  lemma ReceiveKeepsInv(cfg: Config, w: World, m: Message)
    requires Inv(cfg, w)
    ensures Inv(cfg, Step(cfg, w, Receives(m)))
  {
    var v := Step(cfg, w, Receives(m));
    var learns := Learns(cfg, w.cluster, m) && m.info.id != cfg.self.id;
    var learnt := if learns then Learnt(cfg, w, m.info) else w;
    assert learnt.cluster == AfterLearning(cfg, w.cluster, m, w.now);
    var node := learnt.cluster.nodes[m.info.id];
    var window := Receive(node.window, m.number).0;
    hide Receive, PeerInv, TimerInv, Learn;
    if learns {
      LearnKeepsInv(cfg, w, m.info);
    }
    WindowKeepsInv(cfg, learnt, m.info.id, window);
    InvIgnoresRecords(cfg, v, learnt.said, learnt.arrived);
  }

  lemma InvIgnoresRecords(cfg: Config, w: World, said: map<string, NodeInfo>, arrived: map<string, seq<int>>)
    ensures Inv(cfg, w) <==> Inv(cfg, w.(said := said, arrived := arrived))
  {
    var v := w.(said := said, arrived := arrived);
    forall id | id in w.cluster.nodes ensures PeerInv(cfg, w, id) <==> PeerInv(cfg, v, id) {}
    forall t | t in w.cluster.pending ensures TimerInv(cfg, w, t) <==> TimerInv(cfg, v, t) {}
  }

  lemma StepKeepsInv(cfg: Config, w: World, e: Event)
    requires Inv(cfg, w) && Enabled(w, e) && cfg.staleTimeout <= cfg.removalTimeout
    ensures Inv(cfg, Step(cfg, w, e))
  {
    match e
    case Waits(time) =>
      var v := Step(cfg, w, e);
      forall p | p in v.cluster.nodes && p != cfg.self.id ensures PeerInv(cfg, v, p) {
        assert PeerInv(cfg, w, p);
      }
      forall u | u in v.cluster.pending ensures TimerInv(cfg, v, u) {
        assert TimerInv(cfg, w, u);
      }
    case Fires(t) =>
      FireKeepsInv(cfg, w, t);
    case Receives(m) =>
      ReceiveKeepsInv(cfg, w, m);
  }

  lemma {:induction false} ReachableInv(cfg: Config, es: seq<Event>, w: World)
    requires cfg.staleTimeout <= cfg.removalTimeout && Reaches(cfg, es, w)
    ensures Inv(cfg, w)
  {
    if es != [] {
      var v: World :|
        && Reaches(cfg, es[..|es| - 1], v)
        && Enabled(v, es[|es| - 1]) && cfg.self.id in v.cluster.nodes
        && w == Step(cfg, v, es[|es| - 1]);
      ReachableInv(cfg, es[..|es| - 1], v);
      StepKeepsInv(cfg, v, es[|es| - 1]);
    }
  }

  predicate WindowFollows(w: World, id: string)
  {
    id in w.cluster.nodes ==> id in w.arrived && w.cluster.nodes[id].window == Run(w.arrived[id]).window
  }

  lemma ArrivalKeepsWindow(cfg: Config, w: World, m: Message, id: string)
    requires WindowFollows(w, id) && cfg.self.id in w.cluster.nodes
    ensures WindowFollows(Step(cfg, w, Receives(m)), id)
  {
    hide Receive;
    var before := ArrivedFrom(w, m.info.id);
    assert (before + [m.number])[..|before|] == before;
    assert Run(before + [m.number]) == SlidingWindow.Step(Run(before), m.number);
    assert Run([]).window == FRESH;
  }

  lemma StepKeepsWindow(cfg: Config, w: World, e: Event, id: string)
    requires WindowFollows(w, id) && Enabled(w, e) && cfg.self.id in w.cluster.nodes
    ensures WindowFollows(Step(cfg, w, e), id)
  {
    match e
    case Receives(m) => ArrivalKeepsWindow(cfg, w, m, id);
    case _ =>
  }

  /** Every peer's window is the one SlidingWindow computes from what arrived since it was learnt. */
  lemma {:induction false} WindowsFollowArrivals(cfg: Config, es: seq<Event>, w: World, id: string)
    requires Reaches(cfg, es, w)
    ensures WindowFollows(w, id)
  {
    if es != [] {
      var v: World :|
        && Reaches(cfg, es[..|es| - 1], v)
        && Enabled(v, es[|es| - 1]) && cfg.self.id in v.cluster.nodes
        && w == Step(cfg, v, es[|es| - 1]);
      hide Reaches, Step, WindowFollows;
      WindowsFollowArrivals(cfg, es[..|es| - 1], v, id);
      StepKeepsWindow(cfg, v, es[|es| - 1], id);
    }
  }

  /** Every peer is known by what it said when it was learnt last; the node knows itself as configured. */
  predicate InfoInv(cfg: Config, w: World)
  {
    && cfg.self.id in w.cluster.nodes && w.cluster.nodes[cfg.self.id].info == cfg.self
    && (forall t :: t in w.cluster.pending ==> w.cluster.pending[t].peer != cfg.self.id)
    && (forall id :: id in w.cluster.nodes && id != cfg.self.id ==>
          id in w.said && w.cluster.nodes[id].info == w.said[id])
  }

  lemma StepKeepsInfo(cfg: Config, w: World, e: Event)
    requires InfoInv(cfg, w) && Enabled(w, e)
    ensures InfoInv(cfg, Step(cfg, w, e))
  {
    hide Receive, Run;
  }

  lemma {:induction false} ReachableInfo(cfg: Config, es: seq<Event>, w: World)
    requires Reaches(cfg, es, w)
    ensures InfoInv(cfg, w)
  {
    if es != [] {
      var v: World :|
        && Reaches(cfg, es[..|es| - 1], v)
        && Enabled(v, es[|es| - 1]) && cfg.self.id in v.cluster.nodes
        && w == Step(cfg, v, es[|es| - 1]);
      hide Reaches, Step, InfoInv;
      ReachableInfo(cfg, es[..|es| - 1], v);
      StepKeepsInfo(cfg, v, es[|es| - 1]);
    }
  }

  /** What a node said about itself in the last message it was learnt from. */
  function Said(cfg: Config, w: World, id: string): Option<NodeInfo>
  {
    if id == cfg.self.id then Some(cfg.self) else if id in w.said then Some(w.said[id]) else None
  }

  /**
   In every run, whatever the timeouts: a lookup that answers for a peer gives what that peer said in
   the last message it was learnt from, and one for the node itself gives its own configuration.
  */
  lemma LookupsTellWhatWasSaid(cfg: Config, es: seq<Event>, w: World, id: string)
    requires Reaches(cfg, es, w) && GetNode(w.cluster, id).Some?
    ensures GetNode(w.cluster, id) == Said(cfg, w, id)
  {
    ReachableInfo(cfg, es, w);
  }

  /** The learnt addresses are those in these messages, and the node's own. */
  lemma LearntPeersAreSaid(cfg: Config, es: seq<Event>, w: World, ip: string)
    requires Reaches(cfg, es, w)
    ensures ip in GetLearntPeers(w.cluster) <==>
              exists id :: GetNode(w.cluster, id).Some? && Said(cfg, w, id).Some? && Said(cfg, w, id).value.ip == ip
  {
    LearntPeersAreVisible(w.cluster, ip);
    ReachableInfo(cfg, es, w);
    hide Reaches, GetLearntPeers;
  }

  // ---------- what the rest of the server sees ----------

  /**
   The visible peers are the node itself and those heard recently: nobody longer ago than
   the stale timeout, and everybody more recently than that.
  */
  ghost predicate ShowsRecentPeers(cfg: Config, w: World)
  {
    && GetNode(w.cluster, cfg.self.id).Some?
    && (forall id :: id != cfg.self.id && GetNode(w.cluster, id).Some? ==>
          id in w.heard && w.now - w.heard[id] <= cfg.staleTimeout)
    && (forall id :: id in w.heard && w.now - w.heard[id] < cfg.staleTimeout ==>
          GetNode(w.cluster, id).Some?)
  }

  /** The addresses of the learnt peers are those of the visible nodes. */
  lemma LearntPeersAreVisible(c: Cluster, ip: string)
    ensures ip in GetLearntPeers(c) <==> exists id :: GetNode(c, id).Some? && GetNode(c, id).value.ip == ip
  {
    if ip in GetLearntPeers(c) {
      var id :| id in c.nodes && !c.nodes[id].stale && c.nodes[id].info.ip == ip;
      assert GetNode(c, id).Some?;
    }
  }

  lemma InvShowsRecentPeers(cfg: Config, w: World)
    requires Inv(cfg, w) && cfg.staleTimeout <= cfg.removalTimeout
    ensures ShowsRecentPeers(cfg, w)
  {
    forall id | id in w.cluster.nodes && id != cfg.self.id
      ensures GetNode(w.cluster, id).Some? ==> w.now - w.heard[id] <= cfg.staleTimeout
      ensures w.now - w.heard[id] < cfg.staleTimeout ==> GetNode(w.cluster, id).Some?
    {
      assert PeerInv(cfg, w, id);
    }
  }

  function PendingFor(c: Cluster, id: string, kind: Kind): set<nat>
  {
    set t | t in c.pending && c.pending[t].peer == id && c.pending[t].kind == kind
  }

  /** In every run a known peer has one removal timer, and a stale timer until it is stale. */
  lemma TimersPerPeer(cfg: Config, es: seq<Event>, w: World, id: string)
    requires cfg.staleTimeout <= cfg.removalTimeout && Reaches(cfg, es, w)
    ensures |PendingFor(w.cluster, id, Forget)| ==
            if id in w.cluster.nodes && id != cfg.self.id then 1 else 0
    ensures |PendingFor(w.cluster, id, MarkStale)| ==
            if id in w.cluster.nodes && id != cfg.self.id && !w.cluster.nodes[id].stale then 1 else 0
  {
    ReachableInv(cfg, es, w);
    hide Reaches;
    forall t | t in w.cluster.pending ensures TimerInv(cfg, w, t) {}
    if id in w.cluster.nodes && id != cfg.self.id {
      assert PeerInv(cfg, w, id);
      var n := w.cluster.nodes[id];
      assert PendingFor(w.cluster, id, Forget) == {n.removalTimer.value};
      assert PendingFor(w.cluster, id, MarkStale) == if n.stale then {} else {n.staleTimer.value};
    } else {
      assert PendingFor(w.cluster, id, Forget) == {};
      assert PendingFor(w.cluster, id, MarkStale) == {};
    }
  }

  /**
   The peers shown are the recent ones in every run exactly when a peer turns stale no later
   than it is forgotten.
  */
  lemma RecentPeersExactly(cfg: Config)
    ensures (forall es, w :: Reaches(cfg, es, w) ==> ShowsRecentPeers(cfg, w))
            <==> cfg.staleTimeout <= cfg.removalTimeout
  {
    hide Reaches, ShowsRecentPeers;
    if cfg.staleTimeout <= cfg.removalTimeout {
      forall es, w | Reaches(cfg, es, w) ensures ShowsRecentPeers(cfg, w) {
        ReachableInv(cfg, es, w);
        InvShowsRecentPeers(cfg, w);
      }
    } else {
      var es, w := ForgottenEarly(cfg);
      assert Reaches(cfg, es, w) && !ShowsRecentPeers(cfg, w);
    }
  }

  lemma OneMoreEvent(cfg: Config, es: seq<Event>, v: World, e: Event)
    requires Reaches(cfg, es, v) && Enabled(v, e) && cfg.self.id in v.cluster.nodes
    ensures Reaches(cfg, es + [e], Step(cfg, v, e))
  {
    assert (es + [e])[..|es|] == es;
  }

  lemma StartsAtRest(cfg: Config)
    ensures Reaches(cfg, [], Start(cfg))
  {}

  /** With the timeouts the other way round a peer is forgotten while it still counts as recent. */
  lemma ForgottenEarly(cfg: Config) returns (es: seq<Event>, w: World)
    requires cfg.staleTimeout > cfg.removalTimeout
    ensures Reaches(cfg, es, w) && !ShowsRecentPeers(cfg, w)
  {
    hide Receive, Run, Reaches;
    var peer := cfg.self.id + "'";
    var hello := Receives(Message(true, NodeInfo(peer, "", "", 0), 0));
    w := Start(cfg);
    es := [];
    assert Reaches(cfg, [], w) by { StartsAtRest(cfg); }
    OneMoreEvent(cfg, es, w, hello);
    es, w := es + [hello], Step(cfg, w, hello);
    OneMoreEvent(cfg, es, w, Waits(cfg.removalTimeout));
    es, w := es + [Waits(cfg.removalTimeout)], Step(cfg, w, Waits(cfg.removalTimeout));
    OneMoreEvent(cfg, es, w, Fires(1));
    es, w := es + [Fires(1)], Step(cfg, w, Fires(1));
  }
}
