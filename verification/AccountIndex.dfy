/**
 Each account keeps the list of its tunnels, next to the store of tunnels. Creating a tunnel
 stores it and then lists it; deleting one takes it out of both in either order. All of these
 run interleaved. This module says when list and store agree in terms of the order of the steps.
*/
module AccountIndex {
  import opened Wrappers
  import opened AccountIds

  // ---------- the list of one account ----------

  /** What assigning does: it looks for the account's own identifier before it adds the tunnel's. */
  function Assigned(tunnels: seq<string>, account: string, id: string): seq<string>
  {
    if account in tunnels then tunnels else tunnels + [id]
  }

  function IndexOf(tunnels: seq<string>, id: string): (pos: int)
    ensures -1 <= pos < |tunnels|
    ensures pos >= 0 ==> tunnels[pos] == id && id !in tunnels[..pos]
    ensures pos < 0 <==> id !in tunnels
  {
    if tunnels == [] then -1
    else if tunnels[0] == id then 0
    else
      var pos := IndexOf(tunnels[1..], id);
      if pos < 0 then -1 else pos + 1
  }

  function Unassigned(tunnels: seq<string>, id: string): seq<string>
  {
    var pos := IndexOf(tunnels, id);
    if pos >= 0 then tunnels[..pos] + tunnels[pos + 1..] else tunnels
  }

  /** One occurrence goes, and the rest stays. */
  lemma UnassignTakesOne(tunnels: seq<string>, id: string)
    ensures multiset(Unassigned(tunnels, id)) == multiset(tunnels) - multiset{id}
  {
    var pos := IndexOf(tunnels, id);
    hide IndexOf;
    if pos >= 0 {
      assert tunnels == tunnels[..pos] + [id] + tunnels[pos + 1..];
    }
  }

  /** The first occurrence is taken out, and the rest keeps its order. */
  predicate TakenOut(before: seq<string>, after: seq<string>, id: string)
  {
    exists k :: 0 <= k < |before| && before[k] == id && id !in before[..k] && after == before[..k] + before[k + 1..]
  }

  lemma UnassignTakesFirst(tunnels: seq<string>, id: string)
    ensures if id in tunnels then TakenOut(tunnels, Unassigned(tunnels, id), id) else Unassigned(tunnels, id) == tunnels
  {
    hide IndexOf;
  }

  function Occurrences(tunnels: seq<string>, t: string): int
  {
    multiset(tunnels)[t]
  }

  /** Assigning a tunnel that is listed already lists it twice. */
  lemma AssignedTwice(account: string, t: string)
    requires account != t
    ensures Assigned(Assigned([], account, t), account, t) == [t, t]
  {}

  /**
   Assigning leaves a tunnel listed exactly once, exactly if neither it nor the account's own
   identifier was listed, or that identifier was and the tunnel was listed once already.
  */
  lemma AssignedExactly(tunnels: seq<string>, account: string, t: string)
    ensures Occurrences(Assigned(tunnels, account, t), t) == 1 <==>
              if account in tunnels then Occurrences(tunnels, t) == 1 else t !in tunnels
  {
    assert t in tunnels <==> t in multiset(tunnels);
  }

  class Account {
    const id: AccountId
    var tunnels: seq<string>

    constructor (id: AccountId)
      ensures this.id == id && tunnels == []
    {
      this.id := id;
      tunnels := [];
    }

    method Assign(tunnelId: string)
      modifies this
      ensures tunnels == Assigned(old(tunnels), id, tunnelId)
      ensures tunnels == if id in old(tunnels) then old(tunnels) else old(tunnels) + [tunnelId]
    {
      if id !in tunnels {
        tunnels := tunnels + [tunnelId];
      }
    }

    method Unassign(tunnelId: string)
      modifies this
      ensures tunnels == Unassigned(old(tunnels), tunnelId)
      ensures multiset(tunnels) == multiset(old(tunnels)) - multiset{tunnelId}
      ensures tunnelId !in old(tunnels) ==> tunnels == old(tunnels)
      ensures tunnelId in old(tunnels) ==> TakenOut(old(tunnels), tunnels, tunnelId)
    {
      UnassignTakesOne(tunnels, tunnelId);
      UnassignTakesFirst(tunnels, tunnelId);
      var pos := IndexOf(tunnels, tunnelId);
      if pos >= 0 {
        tunnels := tunnels[..pos] + tunnels[pos + 1..];
      }
    }
  }

  // ---------- interleaved creations and deletions ----------

  /** An operation on a tunnel between two of its steps. */
  datatype Task =
    | Assigning(id: string, account: AccountId)      // stored, not listed yet
    | RollingBack(id: string, account: AccountId)    // stored, but could not be listed
    | Deleting(id: string, account: AccountId, removed: bool, unassigned: bool)
    | Finished

  /** A step of an operation on a tunnel; the order of these is what agreement depends on. */
  datatype Mark =
    | Storing(id: string, account: AccountId)
    | Listing(id: string, account: AccountId)
    | Skipping(id: string, account: AccountId)       // the account's own identifier was listed
    | Unlisting(id: string, account: AccountId)
    | Removing(id: string)

  datatype State = State(
    accounts: map<AccountId, seq<string>>,
    tunnels: map<string, AccountId>,
    tasks: seq<Task>,
    dropped: set<AccountId>,
    marks: seq<Mark>)

  const START := State(map[], map[], [], {}, [])

  datatype Event =
    | Open(account: AccountId)
    | Drop(account: AccountId)
    | StartCreate(id: string, account: AccountId)
    | Assign(task: nat)
    | RollBack(task: nat)
    | StartDelete(id: string, requester: string)
    | Remove(task: nat)
    | Unassign(task: nat)

  predicate Enabled(st: State, e: Event)
  {
    match e
    case Open(a) => a !in st.accounts
    case Drop(a) => a in st.accounts
    case StartCreate(_, _) => true
    case StartDelete(_, _) => true
    case Assign(i) => i < |st.tasks| && st.tasks[i].Assigning?
    case RollBack(i) => i < |st.tasks| && st.tasks[i].RollingBack?
    case Remove(i) => i < |st.tasks| && st.tasks[i].Deleting? && !st.tasks[i].removed
    case Unassign(i) => i < |st.tasks| && st.tasks[i].Deleting? && !st.tasks[i].unassigned
  }

  function WithTask(st: State, i: nat, task: Task): State
    requires i < |st.tasks|
  {
    st.(tasks := st.tasks[i := task])
  }

  function Marked(st: State, m: Mark): State
  {
    st.(marks := st.marks + [m])
  }

  /** The entry is dropped whoever it belongs to. */
  function RemoveStored(st: State, id: string): State
  {
    Marked(st.(tunnels := st.tunnels - {id}), Removing(id))
  }

  function AssignStep(st: State, i: nat): State
    requires Enabled(st, Assign(i))
  {
    var task := st.tasks[i];
    if task.account !in st.accounts then WithTask(st, i, RollingBack(task.id, task.account))
    else
      var tunnels := st.accounts[task.account];
      var done := WithTask(st, i, Finished).(accounts :=
        st.accounts[task.account := Assigned(tunnels, task.account, task.id)]);
      Marked(done, if task.account in tunnels then Skipping(task.id, task.account) else Listing(task.id, task.account))
  }

  function UnassignStep(st: State, i: nat): State
    requires Enabled(st, Unassign(i))
  {
    var task := st.tasks[i];
    var done := Marked(WithTask(st, i, task.(unassigned := true)), Unlisting(task.id, task.account));
    if task.account !in st.accounts then done
    else done.(accounts := st.accounts[task.account := Unassigned(st.accounts[task.account], task.id)])
  }

  function Step(st: State, e: Event): State
    requires Enabled(st, e)
  {
    match e
    case Open(a) => st.(accounts := st.accounts[a := []])
    case Drop(a) => st.(accounts := st.accounts - {a}, dropped := st.dropped + {a})
    case StartCreate(id, a) =>
      if id in st.tunnels then st
      else Marked(st.(tunnels := st.tunnels[id := a], tasks := st.tasks + [Assigning(id, a)]), Storing(id, a))
    case StartDelete(id, requester) =>
      if Permitted(st, id, requester)
      then st.(tasks := st.tasks + [Deleting(id, st.tunnels[id], false, false)])
      else st
    case Assign(i) => AssignStep(st, i)
    case RollBack(i) => WithTask(RemoveStored(st, st.tasks[i].id), i, Finished)
    case Remove(i) => WithTask(RemoveStored(st, st.tasks[i].id), i, st.tasks[i].(removed := true))
    case Unassign(i) => UnassignStep(st, i)
  }

  predicate Active(task: Task, id: string)
  {
    !task.Finished? && task.id == id && !(task.Deleting? && task.removed && task.unassigned)
  }

  /** No operation on `id` is under way. */
  predicate Idle(st: State, id: string)
  {
    forall i :: 0 <= i < |st.tasks| ==> !Active(st.tasks[i], id)
  }

  /** A creation of `id` is under way. */
  predicate Creating(st: State, id: string)
  {
    exists i :: 0 <= i < |st.tasks| && Active(st.tasks[i], id) && !st.tasks[i].Deleting?
  }

  /** A creation of `id` is under way that has not listed it yet. */
  predicate BeingListed(st: State, id: string)
  {
    exists i :: 0 <= i < |st.tasks| && st.tasks[i].Assigning? && st.tasks[i].id == id
  }

  /** Only the account a tunnel is stored for may delete it. */
  predicate Permitted(st: State, id: string, requester: string)
  {
    id in st.tunnels && st.tunnels[id] == requester
  }

  /** An operation is under way that will still remove the tunnel from the store. */
  predicate Doomed(st: State, id: string)
  {
    exists i :: 0 <= i < |st.tasks| && Removes(st.tasks[i], id)
  }

  predicate Removes(task: Task, id: string)
  {
    !task.Finished? && task.id == id && (task.RollingBack? || (task.Deleting? && !task.removed))
  }

  predicate Unassigns(task: Task, a: AccountId, id: string)
  {
    task.Deleting? && task.id == id && task.account == a && !task.unassigned
  }

  /** How many deletions have still to take the tunnel off the list of the account. */
  function Unassigning(tasks: seq<Task>, a: AccountId, id: string): nat
  {
    if tasks == [] then 0
    else Unassigning(tasks[..|tasks| - 1], a, id) + if Unassigns(tasks[|tasks| - 1], a, id) then 1 else 0
  }

  /** Nothing under way will remove the new tunnel, and all that will unlist it is for listings there are already. */
  predicate CreationSafe(st: State, id: string, a: AccountId)
  {
    !Doomed(st, id) && Unassigning(st.tasks, a, id) <= Listed(st, a, id)
  }

  /**
   What the callers keep to: nothing at all; to create a tunnel, named otherwise than its account,
   only while nothing is under way on it; or to create it only while what is under way on it does
   no harm, and not to delete it before it is listed. Requests that are refused do not matter.
  */
  datatype Rule = Any | CreationsAlone | Guarded

  predicate Follows(rule: Rule, st: State, e: Event)
  {
    match e
    case StartCreate(id, a) =>
      rule == Any || id in st.tunnels
      || (id != a && if rule == CreationsAlone then Idle(st, id) else CreationSafe(st, id, a))
    case StartDelete(id, requester) =>
      rule != Guarded || !Permitted(st, id, requester) || !BeingListed(st, id)
    case _ => true
  }

  predicate Next(rule: Rule, st: State, e: Event, st': State)
  {
    Enabled(st, e) && Follows(rule, st, e) && st' == Step(st, e)
  }

  ghost predicate Run(rule: Rule, from: State, es: seq<Event>, st: State)
  {
    if es == [] then st == from
    else
      exists before: State {:trigger before.tasks} ::
        Run(rule, from, es[..|es| - 1], before) && Next(rule, before, es[|es| - 1], st)
  }

  lemma Extend(from: State, es: seq<Event>, st: State, e: Event)
    requires Run(Any, from, es, st) && Enabled(st, e)
    ensures Run(Any, from, es + [e], Step(st, e))
  {
    assert (es + [e])[..|es + [e]| - 1] == es;
  }

  lemma Advance(from: State, es: seq<Event>, st: State, e: Event) returns (es': seq<Event>, st': State)
    requires Run(Any, from, es, st) && Enabled(st, e)
    ensures es' == es + [e] && st' == Step(st, e) && Run(Any, from, es', st')
  {
    Extend(from, es, st, e);
    es', st' := es + [e], Step(st, e);
  }

  /** Only the start of an operation makes a task active. */
  lemma StepActivatesNothing(st: State, e: Event, i: nat)
    requires Enabled(st, e) && i < |st.tasks|
    ensures |Step(st, e).tasks| >= |st.tasks|
    ensures forall t :: Active(Step(st, e).tasks[i], t) ==> Active(st.tasks[i], t)
  {}

  // ---------- list and store in terms of the order of the steps ----------

  function Listed(st: State, a: AccountId, t: string): int
  {
    if a in st.accounts then Occurrences(st.accounts[a], t) else 0
  }

  function Stored(st: State, a: AccountId, t: string): int
  {
    if t in st.tunnels && st.tunnels[t] == a then 1 else 0
  }

  /** How many listings of the tunnel no later unlisting answers. */
  function Unanswered(marks: seq<Mark>, a: AccountId, t: string): nat
  {
    if marks == [] then 0
    else
      var before, last := Unanswered(marks[..|marks| - 1], a, t), marks[|marks| - 1];
      if last == Listing(t, a) then before + 1
      else if last == Unlisting(t, a) && before > 0 then before - 1
      else before
  }

  /** Who stored the tunnel last, if it was not removed since. */
  function KeptFor(marks: seq<Mark>, t: string): Option<AccountId>
  {
    if marks == [] then None
    else
      var last := marks[|marks| - 1];
      if last.Storing? && last.id == t then Some(last.account)
      else if last == Removing(t) then None
      else KeptFor(marks[..|marks| - 1], t)
  }

  predicate OrderTells(st: State, a: AccountId, t: string)
  {
    && KeptFor(st.marks, t) == (if t in st.tunnels then Some(st.tunnels[t]) else None)
    && (a !in st.dropped ==> Listed(st, a, t) == Unanswered(st.marks, a, t))
  }

  lemma AssignedOccurrences(tunnels: seq<string>, account: string, id: string, t: string)
    ensures Occurrences(Assigned(tunnels, account, id), t) ==
            Occurrences(tunnels, t) + if account !in tunnels && id == t then 1 else 0
  {}

  lemma UnassignedOccurrences(tunnels: seq<string>, id: string, t: string)
    ensures Occurrences(Unassigned(tunnels, id), t) ==
            if id == t && Occurrences(tunnels, t) > 0 then Occurrences(tunnels, t) - 1 else Occurrences(tunnels, t)
  {
    UnassignTakesOne(tunnels, id);
  }

  lemma AssigningLists(st: State, i: nat, a: AccountId, t: string)
    requires Enabled(st, Assign(i)) && st.tasks[i].account in st.accounts
    ensures var task := st.tasks[i];
            var adds := task.account !in st.accounts[task.account];
            && Listed(AssignStep(st, i), a, t) ==
               Listed(st, a, t) + (if adds && task.id == t && task.account == a then 1 else 0)
            && AssignStep(st, i).marks ==
               st.marks + [if adds then Listing(task.id, task.account) else Skipping(task.id, task.account)]
  {
    var task := st.tasks[i];
    AssignedOccurrences(st.accounts[task.account], task.account, task.id, t);
    hide Assigned, Occurrences;
  }

  lemma AssignKeepsOrder(st: State, i: nat, a: AccountId, t: string)
    requires Enabled(st, Assign(i)) && OrderTells(st, a, t)
    ensures OrderTells(AssignStep(st, i), a, t)
  {
    var after := AssignStep(st, i);
    if st.tasks[i].account in st.accounts {
      AssigningLists(st, i, a, t);
      assert after.marks[..|after.marks| - 1] == st.marks;
      hide Listed, Assigned;
    }
  }

  lemma UnassigningUnlists(st: State, i: nat, a: AccountId, t: string)
    requires Enabled(st, Unassign(i))
    ensures var task, before := st.tasks[i], Listed(st, a, t);
            Listed(UnassignStep(st, i), a, t) ==
                if task.id == t && task.account == a && before > 0 then before - 1 else before
  {
    var task := st.tasks[i];
    if task.account in st.accounts { UnassignedOccurrences(st.accounts[task.account], task.id, t); }
    hide Unassigned, Occurrences;
  }

  lemma UnassignKeepsOrder(st: State, i: nat, a: AccountId, t: string)
    requires Enabled(st, Unassign(i)) && OrderTells(st, a, t)
    ensures OrderTells(UnassignStep(st, i), a, t)
  {
    var after := UnassignStep(st, i);
    assert after.marks[..|after.marks| - 1] == st.marks;
    UnassigningUnlists(st, i, a, t);
    hide Listed, Unassigned;
  }

  lemma NothingOccurs(t: string)
    ensures Occurrences([], t) == 0
  {}

  lemma StepKeepsOrder(st: State, e: Event, a: AccountId, t: string)
    requires Enabled(st, e) && OrderTells(st, a, t)
    ensures OrderTells(Step(st, e), a, t)
  {
    var after := Step(st, e);
    hide AssignStep, UnassignStep, Occurrences;
    match e
    case Open(_) => assert Occurrences([], t) == 0 by { NothingOccurs(t); }
    case Drop(_) =>
    case StartDelete(_, _) =>
    case Assign(i) => AssignKeepsOrder(st, i, a, t);
    case Unassign(i) => UnassignKeepsOrder(st, i, a, t);
    case _ => if |after.marks| > |st.marks| { assert after.marks[..|after.marks| - 1] == st.marks; }
  }

  lemma {:induction false} OrderAlwaysTells(rule: Rule, es: seq<Event>, st: State, a: AccountId, t: string)
    requires Run(rule, START, es, st)
    ensures OrderTells(st, a, t)
  {
    if es != [] {
      var before: State :| Run(rule, START, es[..|es| - 1], before) && Next(rule, before, es[|es| - 1], st);
      hide Run, Step, OrderTells;
      OrderAlwaysTells(rule, es[..|es| - 1], before, a, t);
      StepKeepsOrder(before, es[|es| - 1], a, t);
    }
  }

  /**
   In every run, whatever overlaps, and at every moment of it: list and store of an account that was
   never dropped agree on a tunnel, exactly if the listings no later unlisting answers are one for a
   tunnel the account stored last and nobody removed since, and none for any other.
  */
  lemma IndexAgreesExactly(es: seq<Event>, st: State, a: AccountId, t: string)
    requires Run(Any, START, es, st) && a !in st.dropped
    ensures Listed(st, a, t) == Stored(st, a, t) <==>
            Unanswered(st.marks, a, t) == if KeptFor(st.marks, t) == Some(a) then 1 else 0
  {
    OrderAlwaysTells(Any, es, st, a, t);
  }

  /** By how much the listings of the tunnel outnumber its unlistings. */
  function Excess(marks: seq<Mark>, a: AccountId, t: string): int
  {
    if marks == [] then 0
    else
      var before, last := Excess(marks[..|marks| - 1], a, t), marks[|marks| - 1];
      if last == Listing(t, a) then before + 1 else if last == Unlisting(t, a) then before - 1 else before
  }

  lemma ExcessOneMore(marks: seq<Mark>, k: nat, a: AccountId, t: string)
    requires k < |marks|
    ensures var last := marks[|marks| - 1];
            Excess(marks[k..], a, t) == Excess(marks[..|marks| - 1][k..], a, t)
              + if last == Listing(t, a) then 1 else if last == Unlisting(t, a) then -1 else 0
  {
    assert marks[k..][..|marks[k..]| - 1] == marks[..|marks| - 1][k..];
  }

  lemma {:induction false} ExcessBounded(marks: seq<Mark>, k: nat, a: AccountId, t: string)
    requires k <= |marks|
    ensures Excess(marks[k..], a, t) <= Unanswered(marks, a, t)
  {
    if k < |marks| {
      ExcessOneMore(marks, k, a, t);
      ExcessBounded(marks[..|marks| - 1], k, a, t);
    }
  }

  lemma {:induction false} ExcessAttained(marks: seq<Mark>, a: AccountId, t: string) returns (k: nat)
    ensures k <= |marks| && Excess(marks[k..], a, t) == Unanswered(marks, a, t)
  {
    if marks == [] {
      k := 0;
    } else {
      var n := |marks| - 1;
      k := ExcessAttained(marks[..n], a, t);
      ExcessOneMore(marks, k, a, t);
      if marks[n] == Unlisting(t, a) && Unanswered(marks[..n], a, t) == 0 { k := n + 1; }
    }
  }

  /** All listings are answered exactly if from every point on there are at least as many unlistings. */
  lemma AllAnsweredExactly(marks: seq<Mark>, a: AccountId, t: string)
    ensures Unanswered(marks, a, t) == 0 <==> forall k :: 0 <= k <= |marks| ==> Excess(marks[k..], a, t) <= 0
  {
    var best := ExcessAttained(marks, a, t);
    forall k | 0 <= k <= |marks| ensures Excess(marks[k..], a, t) <= Unanswered(marks, a, t) {
      ExcessBounded(marks, k, a, t);
    }
    hide Excess, Unanswered;
  }

  /** A creation and a deletion of one tunnel that have both just begun. */
  lemma DeletionInsideCreation(a: AccountId, t: string) returns (es: seq<Event>, st: State)
    ensures Run(Any, START, es, st)
    ensures st == State(map[a := []], map[t := a], [Assigning(t, a), Deleting(t, a, false, false)], {}, [Storing(t, a)])
  {
    es, st := [], START;
    es, st := Advance(START, es, st, Open(a));
    hide Run;
    es, st := Advance(START, es, st, StartCreate(t, a));
    es, st := Advance(START, es, st, StartDelete(t, a));
  }

  /** A deletion that runs inside a creation leaves a listing of a tunnel that is not stored. */
  lemma OverlapLeavesListing(a: AccountId, t: string) returns (es: seq<Event>, st: State)
    requires t != a
    ensures Run(Any, START, es, st) && Idle(st, t)
    ensures a in st.accounts && st.accounts[a] == [t] && t !in st.tunnels
    ensures st.marks == [Storing(t, a), Removing(t), Unlisting(t, a), Listing(t, a)]
  {
    es, st := DeletionInsideCreation(a, t);
    hide Run;
    es, st := Advance(START, es, st, Remove(1));
    es, st := Advance(START, es, st, Unassign(1));
    es, st := Advance(START, es, st, Assign(0));
  }
}
