/**
 What becomes of the messages of one node at another one. The sender numbers them from zero on;
 the bus may lose, repeat and reorder them.
*/
module BusDelivery {
  import opened Bits
  import opened SlidingWindow

  // ---------- from the order of arrival alone ----------

  function Highest(arrivals: seq<int>): nat
  {
    if arrivals == [] then 0
    else
      var before, last := Highest(arrivals[..|arrivals| - 1]), arrivals[|arrivals| - 1];
      if last > before then last else before
  }

  /** The top of the window is the highest number that arrived. */
  lemma {:induction false} TopIsHighest(arrivals: seq<int>)
    ensures Run(arrivals).window.top == Highest(arrivals)
  {
    if arrivals != [] {
      var before, last := arrivals[..|arrivals| - 1], arrivals[|arrivals| - 1];
      TopIsHighest(before);
      StepTop(Run(before), last);
    }
  }

  lemma StepTop(p: Peer, number: int)
    ensures Step(p, number).window.top == if number > p.window.top then number else p.window.top
  {
    hide And, Or, ShiftLeft;
  }

  lemma {:induction false} HighestArrived(arrivals: seq<int>)
    ensures Highest(arrivals) == 0 || Highest(arrivals) in arrivals
    ensures forall x :: x in arrivals ==> x <= Highest(arrivals)
  {
    if arrivals != [] {
      var before, last := arrivals[..|arrivals| - 1], arrivals[|arrivals| - 1];
      HighestArrived(before);
      assert arrivals == before + [last];
    }
  }

  /** No message is overtaken by one sent 16 or more after it. */
  predicate MildlyReordered(arrivals: seq<nat>)
  {
    forall j, k :: 0 <= j < k < |arrivals| ==> arrivals[j] < arrivals[k] + WINDOW_SIZE
  }

  /** From the first arrival on, of any 32 messages in a row one arrives before a later one does. */
  predicate MildlyLost(arrivals: seq<nat>)
  {
    forall k :: 0 < k < |arrivals| ==> arrivals[k] < Highest(arrivals[..k]) + 32
  }

  /** Such arrivals suit the window. */
  lemma MildArrivalsFit(arrivals: seq<nat>, number: nat)
    requires MildlyReordered(arrivals) && MildlyLost(arrivals)
    ensures JumpsFit(arrivals) && ArrivesInWindow(arrivals, number)
  {
    forall k | 0 <= k < |arrivals|
      ensures JumpFits(Run(arrivals[..k]), arrivals[k]) && Run(arrivals[..k]).window.top - arrivals[k] < WINDOW_SIZE
    {
      TopIsHighest(arrivals[..k]);
      HighestArrived(arrivals[..k]);
      var top := Highest(arrivals[..k]);
      if top in arrivals[..k] {
        var j :| 0 <= j < k && arrivals[j] == top;
      }
      if k == 0 { assert arrivals[..k] == []; }
    }
  }

  /** A message as the sender hands it to the bus. */
  datatype Envelope = Envelope(event: string, message: string, number: nat)

  predicate Numbered(bus: seq<Envelope>)
  {
    forall k :: 0 <= k < |bus| ==> bus[k].number == k
  }

  /** The numbers that arrive, if `copies` says which published message comes when. */
  function NumbersOf(bus: seq<Envelope>, copies: seq<nat>): (numbers: seq<nat>)
    requires forall i :: 0 <= i < |copies| ==> copies[i] < |bus|
    ensures |numbers| == |copies| && forall i :: 0 <= i < |copies| ==> numbers[i] == bus[copies[i]].number
  {
    seq(|copies|, i requires 0 <= i < |copies| => bus[copies[i]].number)
  }

  /**
   Consecutive numbering and the window make up for a bus that repeats, reorders and loses
   messages: if none is overtaken by one published 16 or more after it, and no 32 in a row are
   lost, then of every published message that arrives at all the listeners see exactly one copy.
  */
  lemma PublishedArriveOnce(bus: seq<Envelope>, copies: seq<nat>, k: nat)
    requires Numbered(bus) && k < |bus|
    requires forall i :: 0 <= i < |copies| ==> copies[i] < |bus|
    requires MildlyReordered(NumbersOf(bus, copies)) && MildlyLost(NumbersOf(bus, copies))
    ensures Times(Run(NumbersOf(bus, copies)).log, bus[k].number, WINDOW_SIZE + 1) == if k in copies then 1 else 0
  {
    var numbers := NumbersOf(bus, copies);
    assert numbers == copies;
    MildArrivalsFit(numbers, k);
    DeliveredExactlyOnce(numbers, k);
  }
}
