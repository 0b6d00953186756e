/**
 What callers have to mind. A deletion must not start while the creation of its tunnel has still to
 list it. A creation must not start while something under way will still remove the tunnel, or while
 more deletions will take it off the account's list than it is listed there; and no tunnel may have
 the identifier of its account. Then list and store agree whenever nothing is under way on the tunnel.
*/
module AccountGuard {
  import opened AccountIds
  import opened AccountIndex
  import opened AccountRest

  // ---------- counting unassignments ----------

  lemma OneMoreTask(tasks: seq<Task>, task: Task, a: AccountId, t: string)
    ensures Unassigning(tasks + [task], a, t) == Unassigning(tasks, a, t) + if Unassigns(task, a, t) then 1 else 0
  {
    assert (tasks + [task])[..|tasks + [task]| - 1] == tasks;
  }

  lemma {:induction false} OneTaskChanged(tasks: seq<Task>, i: nat, task: Task, a: AccountId, t: string)
    requires i < |tasks|
    ensures Unassigning(tasks[i := task], a, t) ==
            Unassigning(tasks, a, t) - (if Unassigns(tasks[i], a, t) then 1 else 0)
            + if Unassigns(task, a, t) then 1 else 0
  {
    var n := |tasks| - 1;
    if i < n {
      OneTaskChanged(tasks[..n], i, task, a, t);
      assert tasks[i := task][..n] == tasks[..n][i := task];
    } else {
      assert tasks[i := task][..n] == tasks[..n];
    }
  }

  lemma {:induction false} NoneUnassigns(tasks: seq<Task>, a: AccountId, t: string)
    requires forall i :: 0 <= i < |tasks| ==> !Unassigns(tasks[i], a, t)
    ensures Unassigning(tasks, a, t) == 0
  {
    if tasks != [] { NoneUnassigns(tasks[..|tasks| - 1], a, t); }
  }

  /** How a step changes the number of unassignments to come. */
  lemma UnassigningAfter(st: State, e: Event, b: AccountId, t: string)
    requires Enabled(st, e)
    ensures Unassigning(Step(st, e).tasks, b, t) ==
            Unassigning(st.tasks, b, t)
            + (if e.StartDelete? && e.id == t && Permitted(st, t, e.requester) && e.requester == b then 1 else 0)
            - (if e.Unassign? && st.tasks[e.task].id == t && st.tasks[e.task].account == b then 1 else 0)
  {
    var after := Step(st, e);
    hide Assigned, Unassigned;
    match e
    case Open(_) =>
    case Drop(_) =>
    case StartCreate(id, a) =>
      if id !in st.tunnels { OneMoreTask(st.tasks, Assigning(id, a), b, t); }
    case StartDelete(id, requester) =>
      if Permitted(st, id, requester) { OneMoreTask(st.tasks, Deleting(id, st.tunnels[id], false, false), b, t); }
    case _ =>
      assert after.tasks == st.tasks[e.task := after.tasks[e.task]];
      OneTaskChanged(st.tasks, e.task, after.tasks[e.task], b, t);
  }

  // ---------- the invariant ----------

  /** Next to a creation that has still to list the tunnel there are only deletions that have removed it before. */
  predicate CreationAlone(st: State, t: string)
  {
    forall i :: 0 <= i < |st.tasks| && st.tasks[i].Assigning? && st.tasks[i].id == t ==>
      && t in st.tunnels && st.tunnels[t] == st.tasks[i].account
      && forall j :: 0 <= j < |st.tasks| && j != i && Active(st.tasks[j], t) ==>
           st.tasks[j].Deleting? && st.tasks[j].removed
  }

  predicate Owned(st: State, b: AccountId, t: string)
  {
    t in st.tunnels && st.tunnels[t] == b
  }

  /**
   Every listing will be taken off by a deletion under way, but for one of a tunnel that stays; as
   long as that is not listed yet, every deletion under way has a listing to take off.
  */
  predicate Balanced(st: State, b: AccountId, t: string)
  {
    var listed, unassigning := Listed(st, b, t), Unassigning(st.tasks, b, t);
    if Owned(st, b, t) && !Doomed(st, t) then listed == unassigning + if BeingListed(st, t) then 0 else 1
    else listed <= unassigning
  }

  ghost predicate GuardInv(st: State, t: string)
  {
    CreationAlone(st, t) && forall b: AccountId :: b !in st.dropped ==> Balanced(st, b, t)
  }

  lemma StepKeepsGuard(st: State, e: Event, t: string)
    requires Enabled(st, e) && Follows(Guarded, st, e) && NamesApart(st) && GuardInv(st, t)
    ensures GuardInv(Step(st, e), t)
  {
    if Elsewhere(st, e, t) { GuardElsewhere(st, e, t); } else { GuardHere(st, e, t); }
  }

  lemma GuardElsewhere(st: State, e: Event, t: string)
    requires Enabled(st, e) && Elsewhere(st, e, t) && GuardInv(st, t)
    ensures GuardInv(Step(st, e), t)
  {
    var after := Step(st, e);
    SameTasks(st, e, t);
    OtherStore(st, e, t);
    OtherListing(st, e, t);
    forall b: AccountId ensures Unassigning(after.tasks, b, t) == Unassigning(st.tasks, b, t) {
      UnassigningAfter(st, e, b, t);
    }
    hide Step, Listed, Unassigning, Elsewhere, Enabled;
    SameCreations(st, after, t);
  }

  predicate SameActive(st: State, after: State, t: string)
  {
    && |after.tasks| >= |st.tasks|
    && (forall i :: 0 <= i < |after.tasks| && Active(after.tasks[i], t) ==>
          i < |st.tasks| && after.tasks[i] == st.tasks[i])
    && (forall i :: 0 <= i < |st.tasks| && Active(st.tasks[i], t) ==> after.tasks[i] == st.tasks[i])
  }

  lemma SameCreations(st: State, after: State, t: string)
    requires SameActive(st, after, t) && CreationAlone(st, t)
    requires t in st.tunnels ==> t in after.tunnels && after.tunnels[t] == st.tunnels[t]
    ensures (Doomed(after, t) <==> Doomed(st, t)) && (BeingListed(after, t) <==> BeingListed(st, t))
    ensures CreationAlone(after, t)
  {
    forall i | 0 <= i < |after.tasks| && !Active(after.tasks[i], t)
      ensures !Removes(after.tasks[i], t) && !(after.tasks[i].Assigning? && after.tasks[i].id == t)
    {}
    forall i | 0 <= i < |st.tasks| && !Active(st.tasks[i], t)
      ensures !Removes(st.tasks[i], t) && !(st.tasks[i].Assigning? && st.tasks[i].id == t)
    {}
    hide Active, Removes;
  }

  lemma GuardHere(st: State, e: Event, t: string)
    requires Enabled(st, e) && !Elsewhere(st, e, t) && Follows(Guarded, st, e) && NamesApart(st) && GuardInv(st, t)
    ensures GuardInv(Step(st, e), t)
  {
    match e
    case StartCreate(_, a) => GuardAtCreation(st, a, t);
    case StartDelete(_, a) => GuardAtDeletion(st, a, t);
    case Assign(i) => GuardAtListing(st, i, t);
    case Unassign(i) => GuardAtUnlisting(st, i, t);
    case _ => GuardAtRemoval(st, e, t);
  }

  lemma GuardAtCreation(st: State, a: AccountId, t: string)
    requires t !in st.tunnels && CreationSafe(st, t, a) && GuardInv(st, t)
    ensures GuardInv(Step(st, StartCreate(t, a)), t)
  {
    var e, n := StartCreate(t, a), |st.tasks|;
    var after := Step(st, e);
    assert after.tasks == st.tasks + [Assigning(t, a)];
    forall b: AccountId ensures Unassigning(after.tasks, b, t) == Unassigning(st.tasks, b, t) {
      UnassigningAfter(st, e, b, t);
    }
    hide Unassigning, Occurrences;
    assert after.tasks[n] == Assigning(t, a) && BeingListed(after, t);
    assert !Doomed(after, t);
    forall j | 0 <= j < n && Active(st.tasks[j], t) ensures st.tasks[j].Deleting? && st.tasks[j].removed {
      assert !Removes(st.tasks[j], t);
    }
    forall b: AccountId | b !in st.dropped ensures Balanced(after, b, t) { assert Balanced(st, b, t); }
  }

  lemma GuardAtDeletion(st: State, a: AccountId, t: string)
    requires Permitted(st, t, a) && !BeingListed(st, t) && GuardInv(st, t)
    ensures GuardInv(Step(st, StartDelete(t, a)), t)
  {
    var e, n := StartDelete(t, a), |st.tasks|;
    var after := Step(st, e);
    assert after.tasks == st.tasks + [Deleting(t, a, false, false)];
    assert Removes(after.tasks[n], t) && Doomed(after, t);
    assert !BeingListed(after, t);
    forall b: AccountId | b !in st.dropped ensures Balanced(after, b, t) {
      UnassigningAfter(st, e, b, t);
      hide Unassigning, Occurrences;
      assert Balanced(st, b, t);
    }
  }

  lemma GuardAtListing(st: State, i: nat, t: string)
    requires Enabled(st, Assign(i)) && st.tasks[i].id == t && NamesApart(st) && GuardInv(st, t)
    ensures GuardInv(AssignStep(st, i), t)
  {
    var after, task := AssignStep(st, i), st.tasks[i];
    assert Active(task, t) && BeingListed(st, t);
    forall j | 0 <= j < |st.tasks| && j != i && Active(st.tasks[j], t)
      ensures st.tasks[j].Deleting? && st.tasks[j].removed
    {}
    hide Assigned, Unassigning, Listed;
    assert after.tasks == st.tasks[i := after.tasks[i]];
    assert !Doomed(st, t) && !BeingListed(after, t);
    assert Doomed(after, t) <==> task.account !in st.accounts by {
      if task.account !in st.accounts { assert Removes(after.tasks[i], t); }
    }
    forall b: AccountId | b !in st.dropped ensures Balanced(after, b, t) {
      assert Balanced(st, b, t);
      UnassigningAfter(st, Assign(i), b, t);
      if task.account in st.accounts { AssigningLists(st, i, b, t); } else { ListedDepends(st, after, b, t); }
    }
  }

  lemma ListedDepends(st: State, after: State, b: AccountId, t: string)
    requires after.accounts == st.accounts
    ensures Listed(after, b, t) == Listed(st, b, t)
  {}

  lemma GuardAtUnlisting(st: State, i: nat, t: string)
    requires Enabled(st, Unassign(i)) && st.tasks[i].id == t && GuardInv(st, t)
    ensures GuardInv(UnassignStep(st, i), t)
  {
    var after, task := UnassignStep(st, i), st.tasks[i];
    assert after.tasks == st.tasks[i := task.(unassigned := true)];
    assert BeingListed(after, t) <==> BeingListed(st, t) by {
      if j :| 0 <= j < |st.tasks| && st.tasks[j].Assigning? && st.tasks[j].id == t { assert after.tasks[j].Assigning?; }
    }
    assert Doomed(after, t) <==> Doomed(st, t) by {
      if j :| 0 <= j < |st.tasks| && Removes(st.tasks[j], t) { assert Removes(after.tasks[j], t); }
    }
    forall j | 0 <= j < |st.tasks| && Active(after.tasks[j], t)
      ensures Active(st.tasks[j], t) && (after.tasks[j] == st.tasks[j] || j == i)
    {}
    hide Unassigned, Unassigning, Listed;
    forall b: AccountId | b !in st.dropped ensures Balanced(after, b, t) {
      assert Balanced(st, b, t);
      UnassigningAfter(st, Unassign(i), b, t);
      UnassigningUnlists(st, i, b, t);
    }
  }

  lemma GuardAtRemoval(st: State, e: Event, t: string)
    requires Enabled(st, e) && (e.Remove? || e.RollBack?) && st.tasks[e.task].id == t && GuardInv(st, t)
    ensures GuardInv(Step(st, e), t)
  {
    var after, task := Step(st, e), st.tasks[e.task];
    assert after.tasks == st.tasks[e.task := after.tasks[e.task]];
    assert Removes(task, t) && Active(task, t) && Doomed(st, t);
    assert !BeingListed(after, t);
    forall b: AccountId | b !in st.dropped ensures Balanced(after, b, t) {
      assert Balanced(st, b, t);
      UnassigningAfter(st, e, b, t);
      ListedDepends(st, after, b, t);
      hide Unassigning, Listed;
    }
  }

  lemma {:induction false} ReachableGuard(es: seq<Event>, st: State, t: string)
    requires Run(Guarded, START, es, st)
    ensures NamesApart(st) && GuardInv(st, t)
  {
    if es != [] {
      var n := |es| - 1;
      var before: State :| Run(Guarded, START, es[..n], before) && Next(Guarded, before, es[n], st);
      hide Run, GuardInv, NamesApart, Step;
      ReachableGuard(es[..n], before, t);
      StepKeepsNames(before, es[n], Guarded);
      StepKeepsGuard(before, es[n], t);
    }
  }

  /**
   In every run in which creations and deletions start as guarded, whatever overlaps: a tunnel
   nothing is under way on is listed once by the account that owns it, and by no other.
  */
  lemma IndexAgrees(es: seq<Event>, st: State, a: AccountId, t: string)
    requires Run(Guarded, START, es, st) && a in st.accounts && a !in st.dropped && Idle(st, t)
    ensures multiset(st.accounts[a])[t] == if t in st.tunnels && st.tunnels[t] == a then 1 else 0
  {
    RestsAgreed(es, st, t);
    assert multiset(st.accounts[a])[t] == Listed(st, a, t);
  }

  lemma RestsAgreed(es: seq<Event>, st: State, t: string)
    requires Run(Guarded, START, es, st) && Idle(st, t)
    ensures AgreesOn(st, t)
  {
    ReachableGuard(es, st, t);
    forall b: AccountId | b !in st.dropped ensures Listed(st, b, t) == Stored(st, b, t) {
      NothingUnderWay(st, b, t);
      assert Balanced(st, b, t);
    }
  }

  lemma NothingUnderWay(st: State, b: AccountId, t: string)
    requires Idle(st, t)
    ensures !Doomed(st, t) && !BeingListed(st, t) && Unassigning(st.tasks, b, t) == 0
  {
    forall i | 0 <= i < |st.tasks|
      ensures !Removes(st.tasks[i], t) && !Unassigns(st.tasks[i], b, t)
        && !(st.tasks[i].Assigning? && st.tasks[i].id == t)
    {
      assert !Active(st.tasks[i], t);
    }
    NoneUnassigns(st.tasks, b, t);
  }

  /** A tunnel nothing is under way on can always be created. */
  lemma RestIsSafe(st: State, t: string, a: AccountId)
    requires Idle(st, t)
    ensures CreationSafe(st, t, a)
  {
    NothingUnderWay(st, a, t);
  }

  /** Once all operations are finished, the list of an account is the set of its tunnels, without duplicates. */
  lemma ListIsOwnedSet(es: seq<Event>, st: State, a: AccountId)
    requires Run(Guarded, START, es, st) && a in st.accounts && a !in st.dropped
    requires forall t :: Idle(st, t)
    ensures forall j, k :: 0 <= j < k < |st.accounts[a]| ==> st.accounts[a][j] != st.accounts[a][k]
    ensures forall t :: t in st.accounts[a] <==> t in st.tunnels && st.tunnels[t] == a
  {
    var listed := st.accounts[a];
    forall t ensures multiset(listed)[t] == if t in st.tunnels && st.tunnels[t] == a then 1 else 0 {
      IndexAgrees(es, st, a, t);
    }
    hide Run, Idle;
    forall t ensures t in listed <==> t in st.tunnels && st.tunnels[t] == a {
      assert t in listed <==> t in multiset(listed);
    }
    forall j, k | 0 <= j < k < |listed| ensures listed[j] != listed[k] { TwiceCountsTwo(listed, j, k); }
  }

  lemma TwiceCountsTwo(xs: seq<string>, j: nat, k: nat)
    requires j < k < |xs|
    ensures xs[j] == xs[k] ==> multiset(xs)[xs[j]] >= 2
  {
    assert xs == xs[..k] + xs[k..];
    assert xs[j] in xs[..k] && xs[k] in xs[k..];
  }
}
