/**
 The anti-replay window of the cluster bus.

 Every peer has a window: the highest sequence number seen, and a 32-bit integer whose
 bit `i` remembers the number `top - i`. The bit operations are the program's; the lemmas
 refine them to the log of numbers handed to the listeners.
*/
module SlidingWindow {
  import opened Bits

  const WINDOW_SIZE := 16

  // ---------- one message ----------

  datatype Window = Window(top: nat, bits: nat)

  /** A peer that was just learnt. */
  const FRESH := Window(0, 0)

  datatype Verdict = Delivered | OutOfWindow | AlreadyReceived

  /** The window after making `number` its top, before the number itself is recorded. */
  function Advance(w: Window, number: nat): Window
    requires number > w.top
  {
    Window(number, And(ShiftLeft(w.bits, number - w.top), LOW_MASK))
  }

  /** The value of `(1 << WINDOW_SIZE) - 1`. */
  const LOW_MASK: nat := 0xFFFF

  function Raised(w: Window, number: nat): Window
  {
    if number > w.top then Advance(w, number) else w
  }

  predicate InRange(w: Window, number: int)
  {
    0 <= number <= w.top <= number + WINDOW_SIZE
  }

  predicate Remembers(w: Window, number: nat)
    requires InRange(w, number)
  {
    And(w.bits, ShiftLeft(1, w.top - number)) != 0
  }

  function Mark(w: Window, number: nat): Window
    requires InRange(w, number)
  {
    w.(bits := Or(w.bits, ShiftLeft(1, w.top - number)))
  }

  /** The receive path for one message; the second component says what became of it. */
  function Receive(w: Window, number: int): (Window, Verdict)
  {
    if w.top - WINDOW_SIZE > number || number < 0 then
      (w, OutOfWindow)
    else
      var v := Raised(w, number);
      if Remembers(v, number) then (v, AlreadyReceived)
      else (Mark(v, number), Delivered)
  }

  lemma LowMaskIsPower()
    ensures LOW_MASK == Doubled(1, WINDOW_SIZE) - 1
  {
    assert Doubled(1, 4) == 16;
    assert Doubled(1, 8) == 256;
    assert Doubled(1, 12) == 4096;
  }

  lemma AdvanceBit(w: Window, number: nat, i: nat)
    requires number > w.top && i <= WINDOW_SIZE
    ensures Bit(Advance(w, number).bits, i) <==>
              var d := (number - w.top) % 32;
              d <= i < WINDOW_SIZE && Bit(w.bits, i - d)
  {
    LowMaskIsPower();
    hide And, ShiftLeft, Doubled, Bit;
    AndBit(ShiftLeft(w.bits, number - w.top), LOW_MASK, i);
    LowMaskBit(WINDOW_SIZE, i);
    ShiftLeftBit(w.bits, number - w.top, i);
  }

  lemma MarkedBit(w: Window, number: nat, i: nat)
    requires InRange(w, number) && i <= WINDOW_SIZE
    ensures Bit(Mark(w, number).bits, i) <==> i == w.top - number || Bit(w.bits, i)
  {
    hide Or, ShiftLeft, Bit;
    OrBit(w.bits, ShiftLeft(1, w.top - number), i);
    MaskBit(w.top - number, i);
  }

  lemma RemembersBit(w: Window, number: nat)
    requires InRange(w, number)
    ensures Remembers(w, number) <==> Bit(w.bits, w.top - number)
  {
    hide And, ShiftLeft, Bit;
    TestReadsBit(w.bits, w.top - number);
  }

  // ---------- runs ----------

  /** One delivery: the number, and the top of the window at that moment. */
  datatype Delivery = Delivery(number: nat, top: nat)
  {
    function Lag(): int { top - number }
  }

  /** A window with the log of everything it let through since the peer was learnt. */
  datatype Peer = Peer(window: Window, log: seq<Delivery>)

  predicate InLog(log: seq<Delivery>, number: int)
  {
    exists k :: 0 <= k < |log| && log[k].number == number
  }

  predicate InLogAt(log: seq<Delivery>, number: int, top: int)
  {
    exists k :: 0 <= k < |log| && log[k].number == number && log[k].top == top
  }

  function Step(p: Peer, number: int): Peer
  {
    var (w, verdict) := Receive(p.window, number);
    Peer(w, if verdict == Delivered then p.log + [Delivery(number, w.top)] else p.log)
  }

  /** The state after any sequence of arrivals: lost, repeated and reordered at will. */
  function Run(arrivals: seq<int>): Peer
  {
    if arrivals == [] then Peer(FRESH, [])
    else Step(Run(arrivals[..|arrivals| - 1]), arrivals[|arrivals| - 1])
  }

  /**
   The forward jumps the window survives: shorter than the integer is wide, or shifting
   everything out although the count wraps, or the first message of a peer.
  */
  predicate JumpFits(p: Peer, number: int)
  {
    var jump := number - p.window.top;
    jump < 32 || jump % 32 >= WINDOW_SIZE || p.log == []
  }

  predicate JumpsFit(arrivals: seq<int>)
  {
    forall k :: 0 <= k < |arrivals| ==> JumpFits(Run(arrivals[..k]), arrivals[k])
  }

  // ---------- the refinement ----------

  /**
   The bits say exactly what was delivered: bits 0 to 15 whether that number ever was, and
   bit 16 whether the number just below the window was delivered since the last advance.
  */
  predicate BitTells(p: Peer, i: nat)
    requires i <= WINDOW_SIZE
  {
    Bit(p.window.bits, i) <==>
    if i < WINDOW_SIZE then InLog(p.log, p.window.top - i)
    else InLogAt(p.log, p.window.top - i, p.window.top)
  }

  predicate Refines(p: Peer)
  {
    forall i: nat :: i <= WINDOW_SIZE ==> BitTells(p, i)
  }

  /** No number is delivered twice, except first within the window and then at lag 16. */
  predicate RepeatsOnlyAtTheEdge(log: seq<Delivery>)
  {
    forall j, k :: 0 <= j < k < |log| && log[j].number == log[k].number ==>
      log[j].Lag() < WINDOW_SIZE && log[k].Lag() == WINDOW_SIZE
  }

  predicate LogOrdered(log: seq<Delivery>, top: nat)
  {
    && (if log == [] then top == 0 else InLog(log, top))
    && forall k :: 0 <= k < |log| ==>
         log[k].number <= log[k].top <= top && log[k].Lag() <= WINDOW_SIZE
  }

  predicate Valid(p: Peer)
  {
    Refines(p) && LogOrdered(p.log, p.window.top) && RepeatsOnlyAtTheEdge(p.log)
  }

  /** Moving the top forward by a jump that fits keeps what each bit tells. */
  lemma AdvanceTells(p: Peer, number: nat, i: nat)
    requires Refines(p) && LogOrdered(p.log, p.window.top) && number > p.window.top
    requires JumpFits(p, number) && i <= WINDOW_SIZE
    ensures BitTells(Peer(Advance(p.window, number), p.log), i)
  {
    hide Bit, Advance;
    AdvanceBit(p.window, number, i);
    AdvanceTop(p.window, number);
    var d := (number - p.window.top) % 32;
    if d <= i < WINDOW_SIZE {
      assert BitTells(p, i - d);
    }
  }

  lemma AdvanceTop(w: Window, number: nat)
    requires number > w.top
    ensures Advance(w, number).top == number
  {}

  /** A jump that does not fit makes the old top reappear as a number that never arrived. */
  lemma AdvanceMisleads(p: Peer, number: nat)
    requires Refines(p) && LogOrdered(p.log, p.window.top) && number > p.window.top
    requires !JumpFits(p, number)
    ensures var d := (number - p.window.top) % 32;
            d < WINDOW_SIZE && !BitTells(Peer(Advance(p.window, number), p.log), d)
  {
    hide Bit, Advance;
    var d := (number - p.window.top) % 32;
    AdvanceBit(p.window, number, d);
    AdvanceTop(p.window, number);
    assert BitTells(p, 0);
  }

  lemma LogGrows(log: seq<Delivery>, d: Delivery, n: int, t: int)
    ensures InLog(log + [d], n) <==> n == d.number || InLog(log, n)
    ensures InLogAt(log + [d], n, t) <==> (n == d.number && t == d.top) || InLogAt(log, n, t)
  {
    var grown := log + [d];
    assert grown[|log|] == d;
    if InLog(log, n) {
      var k :| 0 <= k < |log| && log[k].number == n;
      assert grown[k].number == n;
    }
    if InLogAt(log, n, t) {
      var k :| 0 <= k < |log| && log[k].number == n && log[k].top == t;
      assert grown[k].number == n && grown[k].top == t;
    }
  }

  function Record(p: Peer, number: nat): Peer
    requires InRange(p.window, number)
  {
    Peer(Mark(p.window, number), p.log + [Delivery(number, p.window.top)])
  }

  /** Recording a number keeps what each bit tells. */
  lemma RecordTells(p: Peer, number: nat, i: nat)
    requires InRange(p.window, number)
    requires i <= WINDOW_SIZE && BitTells(p, i)
    ensures BitTells(Record(p, number), i)
  {
    hide Bit, Or, ShiftLeft;
    MarkedBit(p.window, number, i);
    LogGrows(p.log, Delivery(number, p.window.top), p.window.top - i, p.window.top);
  }

  /** What the receiver should let through, in terms of what it has delivered before. */
  predicate Wanted(log: seq<Delivery>, top: nat, number: int)
  {
    if number < 0 || top - number > WINDOW_SIZE then false
    else if top - number == WINDOW_SIZE then !InLogAt(log, number, top)
    else !InLog(log, number)
  }

  /** With a jump that fits, the bits let through exactly the wanted numbers. */
  lemma StepDelivers(p: Peer, number: int)
    requires Refines(p) && LogOrdered(p.log, p.window.top) && JumpFits(p, number)
    ensures Receive(p.window, number).1 == Delivered <==> Wanted(p.log, p.window.top, number)
    ensures Step(p, number) ==
            if Wanted(p.log, p.window.top, number)
            then Record(Peer(Raised(p.window, number), p.log), number)
            else p
  {
    hide Bit, Advance, Or, ShiftLeft, Remembers;
    if number > p.window.top {
      AdvanceTells(p, number, 0);
      AdvanceTop(p.window, number);
      RemembersBit(Advance(p.window, number), number);
      assert !InLog(p.log, number);
    } else if p.window.top - WINDOW_SIZE <= number && number >= 0 {
      RemembersBit(p.window, number);
      assert BitTells(p, p.window.top - number);
    }
  }

  lemma StepRefines(p: Peer, number: int)
    requires Refines(p) && LogOrdered(p.log, p.window.top) && JumpFits(p, number)
    ensures Refines(Step(p, number))
  {
    hide Step, BitTells, Advance;
    StepDelivers(p, number);
    if Wanted(p.log, p.window.top, number) {
      var q := Peer(Raised(p.window, number), p.log);
      if number > p.window.top { AdvanceTop(p.window, number); }
      forall i: nat | i <= WINDOW_SIZE ensures BitTells(Step(p, number), i) {
        if number > p.window.top {
          AdvanceTells(p, number, i);
        }
        RecordTells(q, number, i);
      }
    }
  }

  lemma RecordOrdered(log: seq<Delivery>, top: nat, number: nat)
    requires LogOrdered(log, top) && RepeatsOnlyAtTheEdge(log) && Wanted(log, top, number)
    ensures var top' := if number > top then number else top;
            var log' := log + [Delivery(number, top')];
            LogOrdered(log', top') && RepeatsOnlyAtTheEdge(log')
  {
    var top' := if number > top then number else top;
    var d := Delivery(number, top');
    LogGrows(log, d, top', top');
    forall k | 0 <= k < |log| && log[k].number == number
      ensures log[k].Lag() < WINDOW_SIZE && d.Lag() == WINDOW_SIZE
    {
      assert InLog(log, number);
      assert !InLogAt(log, number, top);
    }
  }

  /** The refinement holds in every run whose jumps fit. */
  lemma {:induction false} RunValid(arrivals: seq<int>)
    requires JumpsFit(arrivals)
    ensures Valid(Run(arrivals))
  {
    hide Bit, BitTells, Refines, Advance, LogOrdered, RepeatsOnlyAtTheEdge;
    if arrivals == [] {
      FreshValid();
    } else {
      var before := arrivals[..|arrivals| - 1];
      PrefixFits(arrivals, |arrivals| - 1);
      RunValid(before);
      StepValid(Run(before), arrivals[|arrivals| - 1]);
    }
  }

  lemma FreshValid()
    ensures Valid(Peer(FRESH, []))
  {
    forall i: nat | i <= WINDOW_SIZE ensures BitTells(Peer(FRESH, []), i) { ZeroBit(i); }
  }

  lemma StepValid(p: Peer, number: int)
    requires Valid(p) && JumpFits(p, number)
    ensures Valid(Step(p, number))
  {
    hide BitTells, Refines, Advance, LogOrdered, RepeatsOnlyAtTheEdge, Step;
    StepRefines(p, number);
    StepDelivers(p, number);
    if Wanted(p.log, p.window.top, number) {
      RecordOrdered(p.log, p.window.top, number);
      if number > p.window.top { AdvanceTop(p.window, number); }
    }
  }

  lemma PrefixFits(arrivals: seq<int>, n: nat)
    requires JumpsFit(arrivals) && n <= |arrivals|
    ensures JumpsFit(arrivals[..n])
  {
    forall k | 0 <= k < n ensures JumpFits(Run(arrivals[..n][..k]), arrivals[..n][k]) {
      assert arrivals[..n][..k] == arrivals[..k];
    }
  }

  // ---------- what a reordering, duplicating network can obtain ----------

  lemma StepMisleads(p: Peer, number: int)
    requires Refines(p) && LogOrdered(p.log, p.window.top) && !JumpFits(p, number)
    ensures !Refines(Step(p, number))
  {
    hide Bit, Advance, Or, ShiftLeft, Remembers;
    AdvanceMisleads(p, number);
    AdvanceTop(p.window, number);
    var d := (number - p.window.top) % 32;
    var w := Advance(p.window, number);
    MarkedBit(w, number, d);
    LogGrows(p.log, Delivery(number, number), number - d, number);
    RemembersBit(w, number);
    assert !BitTells(Step(p, number), d);
  }

  /** For every run so far, the window survives the next number exactly when its jump fits. */
  lemma JumpIsExact(arrivals: seq<int>, number: int)
    requires JumpsFit(arrivals)
    ensures JumpFits(Run(arrivals), number) <==> Refines(Step(Run(arrivals), number))
  {
    RunValid(arrivals);
    if JumpFits(Run(arrivals), number) {
      StepRefines(Run(arrivals), number);
    } else {
      StepMisleads(Run(arrivals), number);
    }
  }

  lemma OutOfWindowExactly(w: Window, number: int)
    ensures Receive(w, number).1 == OutOfWindow <==> number < 0 || w.top - number > 16
  {
    hide And, Or, ShiftLeft;
  }

  lemma VerdictGoverns(p: Peer, number: int)
    ensures |Step(p, number).log| == |p.log| + if Receive(p.window, number).1 == Delivered then 1 else 0
  {}

  /**
   In every run whose jumps fit, a number is handed on exactly when it is wanted: a new one
   always up to lag 16, and a message that is turned down changes nothing.
  */
  lemma VerdictIsExact(arrivals: seq<int>, number: int)
    requires JumpsFit(arrivals) && JumpFits(Run(arrivals), number)
    ensures var p := Run(arrivals);
            && (Receive(p.window, number).1 == Delivered <==> Wanted(p.log, p.window.top, number))
            && (Receive(p.window, number).1 != Delivered ==> Step(p, number) == p)
            && (Receive(p.window, number).1 == OutOfWindow <==> number < 0 || p.window.top - number > 16)
            && (0 <= number && p.window.top - number <= WINDOW_SIZE && !InLog(p.log, number)
                ==> Receive(p.window, number).1 == Delivered)
  {
    hide Refines, LogOrdered, RepeatsOnlyAtTheEdge, Receive;
    RunValid(arrivals);
    StepDelivers(Run(arrivals), number);
    VerdictGoverns(Run(arrivals), number);
    OutOfWindowExactly(Run(arrivals).window, number);
    if InLogAt(Run(arrivals).log, number, Run(arrivals).window.top) {
      assert InLog(Run(arrivals).log, number);
    }
  }

  /** How often `number` was delivered at a lag below `bound`. */
  function Times(log: seq<Delivery>, number: int, bound: int): nat
  {
    if log == [] then 0
    else
      var d := log[|log| - 1];
      Times(log[..|log| - 1], number, bound) + if d.number == number && d.Lag() < bound then 1 else 0
  }

  lemma {:induction false} TimesPositive(log: seq<Delivery>, number: int, bound: int)
    ensures Times(log, number, bound) > 0 <==>
            exists k :: 0 <= k < |log| && log[k].number == number && log[k].Lag() < bound
  {
    if log != [] {
      var front := log[..|log| - 1];
      TimesPositive(front, number, bound);
      if Times(front, number, bound) > 0 {
        var k :| 0 <= k < |front| && front[k].number == number && front[k].Lag() < bound;
        assert log[k].number == number && log[k].Lag() < bound;
      }
    }
  }

  lemma {:induction false} TimesBounded(log: seq<Delivery>, number: int)
    requires RepeatsOnlyAtTheEdge(log)
    ensures Times(log, number, WINDOW_SIZE) <= 1
    ensures Times(log, number, WINDOW_SIZE + 1) <= 2
  {
    if log != [] {
      var front, d := log[..|log| - 1], log[|log| - 1];
      TimesBounded(front, number);
      if d.number == number {
        TimesPositive(front, number, WINDOW_SIZE);
        TimesSplit(front, number);
      }
    }
  }

  /** Before another delivery of the same number there are none at the edge. */
  lemma {:induction false} TimesSplit(log: seq<Delivery>, number: int)
    requires forall k :: 0 <= k < |log| && log[k].number == number ==> log[k].Lag() < WINDOW_SIZE
    ensures Times(log, number, WINDOW_SIZE + 1) == Times(log, number, WINDOW_SIZE)
  {
    if log != [] {
      TimesSplit(log[..|log| - 1], number);
    }
  }

  /** Every copy of `number` arrives while the window still remembers it. */
  predicate ArrivesInWindow(arrivals: seq<int>, number: int)
  {
    forall k :: 0 <= k < |arrivals| && arrivals[k] == number ==>
      Run(arrivals[..k]).window.top - number < WINDOW_SIZE
  }

  /** One step, counted for one number that is not below the window. */
  lemma StepTimes(p: Peer, last: int, number: nat)
    requires Valid(p) && JumpFits(p, last)
    requires last == number ==> p.window.top - number < WINDOW_SIZE
    requires Times(p.log, number, WINDOW_SIZE + 1) <= 1
    requires InLog(p.log, number) <==> Times(p.log, number, WINDOW_SIZE + 1) == 1
    ensures var log := Step(p, last).log;
            && (InLog(log, number) <==> last == number || InLog(p.log, number))
            && Times(log, number, WINDOW_SIZE + 1) == if InLog(log, number) then 1 else 0
  {
    hide Refines, LogOrdered, RepeatsOnlyAtTheEdge, Step, Advance;
    StepDelivers(p, last);
    if Wanted(p.log, p.window.top, last) {
      if last > p.window.top { AdvanceTop(p.window, last); }
      var d := Delivery(last, Raised(p.window, last).top);
      LogGrows(p.log, d, number, d.top);
      assert (p.log + [d])[..|p.log|] == p.log;
    }
  }

  /** A message is delivered exactly once if some copy arrives, and none below the window. */
  lemma {:induction false} DeliveredExactlyOnce(arrivals: seq<int>, number: nat)
    requires JumpsFit(arrivals) && ArrivesInWindow(arrivals, number)
    ensures Times(Run(arrivals).log, number, WINDOW_SIZE + 1) == if number in arrivals then 1 else 0
    ensures InLog(Run(arrivals).log, number) <==> number in arrivals
  {
    if arrivals != [] {
      hide Valid, Step;
      var before, last := arrivals[..|arrivals| - 1], arrivals[|arrivals| - 1];
      assert arrivals == before + [last];
      PrefixFits(arrivals, |before|);
      forall k | 0 <= k < |before| && before[k] == number
        ensures Run(before[..k]).window.top - number < WINDOW_SIZE
      {
        assert before[..k] == arrivals[..k];
      }
      DeliveredExactlyOnce(before, number);
      RunValid(before);
      StepTimes(Run(before), last, number);
    }
  }

  // ---------- the two departures, on concrete runs ----------

  lemma OneMore(arrivals: seq<int>, number: int)
    requires JumpsFit(arrivals) && JumpFits(Run(arrivals), number)
    ensures JumpsFit(arrivals + [number])
    ensures Run(arrivals + [number]) == Step(Run(arrivals), number)
    ensures Step(Run(arrivals), number) ==
            var p := Run(arrivals);
            if Wanted(p.log, p.window.top, number)
            then Record(Peer(Raised(p.window, number), p.log), number) else p
  {
    hide Step, Refines, LogOrdered, RepeatsOnlyAtTheEdge, Raised, Record;
    var longer := arrivals + [number];
    assert longer[..|arrivals|] == arrivals;
    forall k | 0 <= k < |longer| ensures JumpFits(Run(longer[..k]), longer[k]) {
      if k < |arrivals| { assert longer[..k] == arrivals[..k]; }
    }
    RunValid(arrivals);
    StepDelivers(Run(arrivals), number);
  }

  lemma NothingArrived()
    ensures Run([]) == Peer(FRESH, []) && JumpsFit([])
  {}

  lemma FirstMessage(number: nat)
    ensures JumpsFit([number])
    ensures Run([number]).log == [Delivery(number, number)] && Run([number]).window.top == number
  {
    hide Run, JumpsFit, Step;
    NothingArrived();
    OneMore([], number);
    assert [] + [number] == [number];
  }

  /** A jump of 32 wraps the shift count: the number is refused unseen, yet the top moves to it. */
  lemma JumpOf32LosesAMessage(first: nat)
    ensures var p := Run([first]);
            && !JumpFits(p, first + 32) && !InLog(p.log, first + 32)
            && Receive(p.window, first + 32).1 == AlreadyReceived
            && Receive(p.window, first + 32).0.top == first + 32
  {
    FirstMessage(first);
    RunValid([first]);
    hide Bit, Advance, Remembers, Step;
    var w := Run([first]).window;
    assert InLog(Run([first]).log, first) by { assert Run([first]).log[0].number == first; }
    assert BitTells(Run([first]), 0);
    AdvanceBit(w, first + 32, 0);
    AdvanceTop(w, first + 32);
    RemembersBit(Advance(w, first + 32), first + 32);
  }

  /** The age test admits lag 16, which bits 0 to 15 do not cover: the number is delivered twice. */
  lemma EdgeDeliversTwice(first: nat)
    ensures JumpsFit([first, first + 16, first])
    ensures Run([first, first + 16, first]).log ==
            [Delivery(first, first), Delivery(first + 16, first + 16), Delivery(first, first + 16)]
  {
    FirstMessage(first);
    hide Or, ShiftLeft, And, Step;
    OneMore([first], first + 16);
    assert [first] + [first + 16] == [first, first + 16];
    OneMore([first, first + 16], first);
    assert [first, first + 16] + [first] == [first, first + 16, first];
  }
}
