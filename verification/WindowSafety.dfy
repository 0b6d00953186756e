/**
 What the window guarantees over all arrivals, whatever the jumps. A jump whose shift wraps can
 leave bits of numbers that never arrived, which refuse new numbers; it never clears the bit of a
 number that did, so nothing is delivered more often than without it.
*/
module WindowSafety {
  import opened Bits
  import opened SlidingWindow

  // ---------- the invariant ----------

  /** A delivered number has its bit, and bit 16 is exact. */
  predicate BitCovers(p: Peer, i: nat)
    requires i <= WINDOW_SIZE
  {
    if i < WINDOW_SIZE then InLog(p.log, p.window.top - i) ==> Bit(p.window.bits, i)
    else Bit(p.window.bits, i) <==> InLogAt(p.log, p.window.top - i, p.window.top)
  }

  predicate Covers(p: Peer)
  {
    forall i: nat :: i <= WINDOW_SIZE ==> BitCovers(p, i)
  }

  predicate LagsBounded(log: seq<Delivery>, top: nat)
  {
    forall k :: 0 <= k < |log| ==> log[k].number <= log[k].top <= top && log[k].Lag() <= WINDOW_SIZE
  }

  predicate Safe(p: Peer)
  {
    Covers(p) && LagsBounded(p.log, p.window.top) && RepeatsOnlyAtTheEdge(p.log)
  }

  lemma InLogBelow(p: Peer, number: int)
    requires LagsBounded(p.log, p.window.top) && InLog(p.log, number)
    ensures number <= p.window.top
  {}

  lemma NotLoggedAbove(p: Peer, number: int, top: int)
    requires LagsBounded(p.log, p.window.top) && top > p.window.top
    ensures !InLogAt(p.log, number, top)
  {}

  /** Moving the top forward by any jump keeps the bits of delivered numbers. */
  lemma AdvanceCovers(p: Peer, number: nat, i: nat)
    requires Covers(p) && LagsBounded(p.log, p.window.top) && number > p.window.top && i <= WINDOW_SIZE
    ensures BitCovers(Peer(Advance(p.window, number), p.log), i)
  {
    AdvanceBit(p.window, number, i);
    AdvanceTop(p.window, number);
    NotLoggedAbove(p, number - i, number);
    var d := number - p.window.top;
    if i < WINDOW_SIZE && InLog(p.log, number - i) {
      InLogBelow(p, number - i);
      SmallJump(d);
      assert BitCovers(p, i - d);
    }
    hide Bit, Advance, LagsBounded, InLog, InLogAt;
  }

  lemma SmallJump(d: nat)
    requires d < 32
    ensures d % 32 == d
  {}

  lemma RecordCovers(p: Peer, number: nat, i: nat)
    requires InRange(p.window, number)
    requires i <= WINDOW_SIZE && BitCovers(p, i)
    ensures BitCovers(Record(p, number), i)
  {
    hide Bit, Or, ShiftLeft;
    MarkedBit(p.window, number, i);
    LogGrows(p.log, Delivery(number, p.window.top), p.window.top - i, p.window.top);
  }

  /** The peer once its top is moved up to the number. */
  function Lifted(p: Peer, number: nat): Peer
  {
    Peer(Raised(p.window, number), p.log)
  }

  lemma LiftedIsSafe(p: Peer, number: nat)
    requires Safe(p)
    ensures Safe(Lifted(p, number))
    ensures Lifted(p, number).window.top == if number > p.window.top then number else p.window.top
  {
    hide BitCovers, Advance;
    if number > p.window.top {
      AdvanceTop(p.window, number);
      forall i: nat | i <= WINDOW_SIZE ensures BitCovers(Lifted(p, number), i) { AdvanceCovers(p, number, i); }
    }
  }

  /** A step delivers nothing but wanted numbers, and any of those that is 16 behind the top. */
  lemma StepIs(p: Peer, number: int)
    requires Safe(p)
    ensures if number < 0 || p.window.top - number > WINDOW_SIZE then Step(p, number) == p
            else
              var q := Lifted(p, number);
              && InRange(q.window, number)
              && (Step(p, number) == q || (Step(p, number) == Record(q, number) && Wanted(q.log, q.window.top, number)))
              && (q.window.top - number == WINDOW_SIZE && Wanted(q.log, q.window.top, number) ==>
                    Step(p, number) == Record(q, number))
  {
    if number >= 0 && p.window.top - number <= WINDOW_SIZE {
      hide Advance, Bit, Remembers;
      LiftedIsSafe(p, number);
      var q := Lifted(p, number);
      RemembersBit(q.window, number);
      assert BitCovers(q, q.window.top - number);
    }
  }

  lemma RecordIsSafe(p: Peer, number: nat)
    requires Safe(p) && InRange(p.window, number) && Wanted(p.log, p.window.top, number)
    ensures Safe(Record(p, number))
  {
    var d := Delivery(number, p.window.top);
    hide BitCovers, Or, ShiftLeft;
    forall i: nat | i <= WINDOW_SIZE ensures BitCovers(Record(p, number), i) { RecordCovers(p, number, i); }
    forall k | 0 <= k < |p.log| && p.log[k].number == number
      ensures p.log[k].Lag() < WINDOW_SIZE && d.Lag() == WINDOW_SIZE
    {
      assert InLog(p.log, number);
      assert !InLogAt(p.log, number, p.window.top);
    }
  }

  lemma StepKeepsSafe(p: Peer, number: int)
    requires Safe(p)
    ensures Safe(Step(p, number))
  {
    hide Step, Covers, RepeatsOnlyAtTheEdge, LagsBounded;
    StepIs(p, number);
    if number >= 0 && p.window.top - number <= WINDOW_SIZE {
      LiftedIsSafe(p, number);
      var q := Lifted(p, number);
      if Wanted(q.log, q.window.top, number) { RecordIsSafe(q, number); }
    }
  }

  lemma FreshIsSafe()
    ensures Safe(Peer(FRESH, []))
  {
    forall i: nat | i <= WINDOW_SIZE ensures BitCovers(Peer(FRESH, []), i) { ZeroBit(i); }
  }

  /** In every run the bits cover what was delivered, and nothing is repeated except at the edge. */
  lemma {:induction false} RunIsSafe(arrivals: seq<int>)
    ensures Safe(Run(arrivals))
  {
    if arrivals == [] {
      FreshIsSafe();
    } else {
      hide Safe, Step;
      RunIsSafe(arrivals[..|arrivals| - 1]);
      StepKeepsSafe(Run(arrivals[..|arrivals| - 1]), arrivals[|arrivals| - 1]);
    }
  }

  // ---------- how often a number is delivered ----------

  /** Over all arrivals: at most once at lags 0 to 15, at most twice in all, never beyond lag 16. */
  lemma DeliveredAtMostTwice(arrivals: seq<int>, number: int)
    ensures Times(Run(arrivals).log, number, WINDOW_SIZE) <= 1
    ensures Times(Run(arrivals).log, number, WINDOW_SIZE + 1) <= 2
    ensures forall k :: 0 <= k < |Run(arrivals).log| ==> Run(arrivals).log[k].Lag() <= WINDOW_SIZE
  {
    RunIsSafe(arrivals);
    TimesBounded(Run(arrivals).log, number);
  }

  /** A copy at the edge of the window: the number is 16 behind, delivered, but not since the top moved here. */
  predicate CopyAtEdge(p: Peer, number: int)
  {
    p.window.top - number == WINDOW_SIZE && InLog(p.log, number) && !InLogAt(p.log, number, p.window.top)
  }

  predicate NoCopyAtEdge(arrivals: seq<int>, number: int)
  {
    forall k :: 0 <= k < |arrivals| && arrivals[k] == number ==> !CopyAtEdge(Run(arrivals[..k]), number)
  }

  function AllTimes(p: Peer, number: int): nat
  {
    Times(p.log, number, WINDOW_SIZE + 1)
  }

  /** One arrival delivers a number again exactly if it is a copy at the edge. */
  lemma StepRepeats(p: Peer, last: int, number: nat)
    requires Safe(p)
    ensures AllTimes(p, number) > 0 <==> InLog(p.log, number)
    ensures AllTimes(Step(p, last), number) <= AllTimes(p, number) + 1
    ensures AllTimes(p, number) > 0 ==>
              AllTimes(Step(p, last), number) ==
              AllTimes(p, number) + if last == number && CopyAtEdge(p, number) then 1 else 0
  {
    TimesPositive(p.log, number, WINDOW_SIZE + 1);
    StepIs(p, last);
    hide Covers, RepeatsOnlyAtTheEdge, Step;
    if last >= 0 && p.window.top - last <= WINDOW_SIZE {
      LiftedIsSafe(p, last);
      var q := Lifted(p, last);
      RecordCounts(q, last, number);
      if last == number && InLog(p.log, number) { InLogBelow(p, number); }
    }
  }

  lemma RecordCounts(p: Peer, last: nat, number: nat)
    requires InRange(p.window, last)
    ensures AllTimes(Record(p, last), number) == AllTimes(p, number) + if last == number then 1 else 0
  {
    assert Record(p, last).log[..|p.log|] == p.log;
  }

  /** Over all arrivals, a number is delivered at most once exactly if no copy of it arrives at the edge. */
  lemma {:induction false} OnceExactly(arrivals: seq<int>, number: nat)
    ensures Times(Run(arrivals).log, number, WINDOW_SIZE + 1) <= 1 <==> NoCopyAtEdge(arrivals, number)
  {
    if arrivals != [] {
      var n := |arrivals| - 1;
      OnceExactly(arrivals[..n], number);
      RunIsSafe(arrivals[..n]);
      StepRepeats(Run(arrivals[..n]), arrivals[n], number);
      EdgeOneMore(arrivals, number);
      EdgeIsRepeat(Run(arrivals[..n]), number);
      hide Safe, Step, CopyAtEdge, NoCopyAtEdge, Times, InLog;
    }
  }

  lemma EdgeOneMore(arrivals: seq<int>, number: nat)
    requires arrivals != []
    ensures var n := |arrivals| - 1;
            NoCopyAtEdge(arrivals, number) <==>
            NoCopyAtEdge(arrivals[..n], number)
            && (arrivals[n] == number ==> !CopyAtEdge(Run(arrivals[..n]), number))
  {
    var n := |arrivals| - 1;
    hide CopyAtEdge, Run;
    assert forall k :: 0 <= k < n ==> arrivals[..n][..k] == arrivals[..k];
  }

  lemma EdgeIsRepeat(p: Peer, number: int)
    ensures CopyAtEdge(p, number) ==> InLog(p.log, number)
  {}
}
