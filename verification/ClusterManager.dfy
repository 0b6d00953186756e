/**
 The cluster manager of one node: the peers it knows, their timers and receive windows, and
 the numbering of what it publishes. Each method changes the fields in place and is tied to
 the specification functions of Membership and SlidingWindow.
*/
module ClusterManager {
  import opened Wrappers
  import opened Bits
  import opened SlidingWindow
  import opened Membership
  import opened BusDelivery

  class Manager {
    const config: Config
    var nodes: map<string, Node>
    var timers: map<nat, Timer>
    var nextTimer: nat
    var nextNumber: nat
    var bus: seq<Envelope>        // what was handed to the bus

    /** The node knows itself, and has numbered its messages in the order of their publishing. */
    predicate Valid()
      reads this
    {
      config.self.id in nodes && Numbered(bus) && nextNumber == |bus|
    }

    function State(): Cluster
      reads this
    {
      Cluster(nodes, timers, nextTimer)
    }

    constructor (config: Config)
      ensures Valid() && this.config == config
      ensures State() == Initial(config) && bus == []
    {
      this.config := config;
      nodes := map[config.self.id := Node(config.self, false, FRESH, None, None)];
      timers := map[];
      nextTimer := 0;
      nextNumber := 0;
      bus := [];
    }

    method ClearTimeout(timer: Option<nat>)
      modifies `timers
      ensures timers == Cleared(old(timers), timer)
    {
      if timer.Some? {
        timers := timers - {timer.value};
      }
    }

    method SetTimeout(timer: Timer) returns (id: nat)
      modifies `timers, `nextTimer
      ensures id == old(nextTimer) && nextTimer == id + 1
      ensures timers == old(timers)[id := timer]
    {
      id := nextTimer;
      timers := timers[id := timer];
      nextTimer := nextTimer + 1;
    }

    method LearnNode(info: NodeInfo, now: int)
      requires Valid()
      modifies `nodes, `timers, `nextTimer
      ensures Valid() && info.id in nodes
      ensures State() == Learn(config, old(State()), info, now)
    {
      if info.id == config.self.id {
        return;
      }
      var node := Node(info, false, FRESH, None, None);
      if info.id in nodes {
        node := nodes[info.id].(info := info, stale := false);
      }
      ClearTimeout(node.staleTimer);
      var stale := SetTimeout(Timer(MarkStale, info.id, now, config.staleTimeout));
      ClearTimeout(node.removalTimer);
      var removal := SetTimeout(Timer(Forget, info.id, now, config.removalTimeout));
      nodes := nodes[info.id := node.(staleTimer := Some(stale), removalTimer := Some(removal))];
    }

    method FireTimer(id: nat)
      requires Valid() && id in timers
      modifies `nodes, `timers
      ensures State() == Fire(old(State()), id)
    {
      var timer := timers[id];
      timers := timers - {id};
      match timer.kind
      case MarkStale =>
        if timer.peer in nodes {
          nodes := nodes[timer.peer := nodes[timer.peer].(stale := true)];
        }
      case Forget =>
        nodes := nodes - {timer.peer};
    }

    /** Handles one authentic message; `delivered` says whether the listeners are called. */
    method ReceiveBus(m: Message, now: int) returns (verdict: Verdict)
      requires Valid()
      modifies `nodes, `timers, `nextTimer
      ensures Valid()
      ensures (State(), verdict) == ReceiveMessage(config, old(State()), m, now)
    {
      hide And, Or, ShiftLeft, Learn;
      if m.heartbeat || m.info.id !in nodes {
        LearnNode(m.info, now);
      }
      var top, bits := nodes[m.info.id].window.top, nodes[m.info.id].window.bits;
      if top - WINDOW_SIZE > m.number || m.number < 0 {
        assert nodes[m.info.id := nodes[m.info.id]] == nodes;
        return OutOfWindow;
      }
      if m.number > top {
        var diff := m.number - top;
        top := m.number;
        bits := And(ShiftLeft(bits, diff), LOW_MASK);
      }
      var lag := top - m.number;
      verdict := if And(bits, ShiftLeft(1, lag)) != 0 then AlreadyReceived else Delivered;
      if verdict == Delivered {
        bits := Or(bits, ShiftLeft(1, lag));
      }
      nodes := nodes[m.info.id := nodes[m.info.id].(window := Window(top, bits))];
    }

    /** The k-th message published has number k, so PublishedArriveOnce applies to all of them. */
    method Publish(event: string, message: string)
      requires Valid()
      modifies `nextNumber, `bus
      ensures Valid() && |bus| == |old(bus)| + 1 && old(bus) == bus[..|old(bus)|]
      ensures bus[|old(bus)|].event == event && bus[|old(bus)|].message == message
    {
      var payload := Envelope(event, message, nextNumber);
      nextNumber := nextNumber + 1;
      bus := bus + [payload];
    }
  }
}
