/**
 What callers have to mind is no more than they must: whatever the guards of AccountGuard forbid can
 lead to a rest at which list and store disagree, though everything after it starts as guarded.
*/
module GuardExactness {
  import opened AccountIds
  import opened AccountIndex
  import opened AccountRest
  import opened AccountGuard

  // ---------- runs on ----------

  lemma {:induction false} RunsOn(from: State, es: seq<Event>, mid: State, more: seq<Event>, end: State)
    requires Run(Guarded, from, es, mid) && Run(Guarded, mid, more, end)
    ensures Run(Guarded, from, es + more, end)
  {
    var whole := es + more;
    if more == [] {
      assert whole == es;
    } else {
      var n := |more| - 1;
      var before: State :|
        Run(Guarded, mid, more[..n], before) && Next(Guarded, before, more[n], end);
      RunsOn(from, es, mid, more[..n], before);
      assert whole[..|whole| - 1] == es + more[..n] && whole[|whole| - 1] == more[n];
      assert Run(Guarded, from, whole[..|whole| - 1], before)
        && Next(Guarded, before, whole[|whole| - 1], end);
    }
  }

  lemma OneStep(from: State, e: Event)
    requires Enabled(from, e) && Follows(Guarded, from, e)
    ensures Run(Guarded, from, [e], Step(from, e))
  {
    var es := [e];
    assert es[..|es| - 1] == [] && es[|es| - 1] == e;
    assert Run(Guarded, from, [], from);
    assert Next(Guarded, from, e, Step(from, e));
  }

  lemma OneMoreStep(from: State, es: seq<Event>, st: State, e: Event)
    returns (es': seq<Event>, st': State)
    requires Run(Guarded, from, es, st) && Enabled(st, e) && Follows(Guarded, st, e)
    ensures es' == es + [e] && st' == Step(st, e) && Run(Guarded, from, es', st')
  {
    es', st' := es + [e], Step(st, e);
    OneStep(st, e);
    RunsOn(from, es, st, [e], st');
  }

  lemma NotListingItself(tunnels: seq<string>, t: string, a: string)
    requires a !in tunnels
    ensures a !in Unassigned(tunnels, t)
  {
    UnassignTakesOne(tunnels, t);
    assert a !in multiset(tunnels);
    assert a in Unassigned(tunnels, t) ==> a in multiset(Unassigned(tunnels, t));
  }

  /**
   From one state to another some operations on the tunnel other than the n-th have gone on, and no
   others. What was covered by unassignments to come is so still.
  */
  ghost predicate WentOn(st: State, end: State, t: string, n: nat)
  {
    && |end.tasks| == |st.tasks| && (n < |st.tasks| ==> end.tasks[n] == st.tasks[n])
    && end.dropped == st.dropped && end.accounts.Keys == st.accounts.Keys
    && (forall j :: 0 <= j < |st.tasks| && Active(end.tasks[j], t) ==>
          Active(st.tasks[j], t) && (end.tasks[j].Assigning? ==> st.tasks[j].Assigning?))
    && (forall j :: 0 <= j < |st.tasks| && Removes(end.tasks[j], t) ==> Removes(st.tasks[j], t))
    && (forall j :: 0 <= j < |st.tasks| && Removes(st.tasks[j], t) && !Removes(end.tasks[j], t) ==> t !in end.tunnels)
    && (t !in st.tunnels ==> t !in end.tunnels)
    && (!Doomed(st, t) ==> end.tunnels == st.tunnels)
    && (forall b: AccountId :: b in st.accounts && b !in st.accounts[b] ==> b !in end.accounts[b])
    && (forall b: AccountId :: Covered(st, b, t) ==> Covered(end, b, t))
  }

  predicate Covered(st: State, b: AccountId, t: string)
  {
    Listed(st, b, t) <= Unassigning(st.tasks, b, t)
  }

  lemma GoesOn(st: State, e: Event, t: string, n: nat)
    requires Enabled(st, e) && (e.RollBack? || e.Remove? || e.Unassign?) && st.tasks[e.task].id == t && e.task != n
    ensures WentOn(st, Step(st, e), t, n)
  {
    var end := Step(st, e);
    assert end.tasks == st.tasks[e.task := end.tasks[e.task]];
    forall b: AccountId | Covered(st, b, t) ensures Covered(end, b, t) {
      UnassigningAfter(st, e, b, t);
      if e.Unassign? { UnassigningUnlists(st, e.task, b, t); } else { ListedDepends(st, end, b, t); }
      hide Unassigning, Listed, Step;
    }
    if e.Unassign? {
      var task := st.tasks[e.task];
      if task.account in st.accounts && task.account !in st.accounts[task.account] {
        NotListingItself(st.accounts[task.account], t, task.account);
      }
    } else {
      assert Removes(st.tasks[e.task], t);
    }
    hide Unassigned, Unassigning, Listed;
  }

  lemma WentFurther(st: State, mid: State, end: State, t: string, n: nat)
    requires WentOn(st, mid, t, n) && WentOn(mid, end, t, n)
    ensures WentOn(st, end, t, n)
  {
    hide Covered;
    assert !Doomed(st, t) ==> !Doomed(mid, t);
  }

  /** One more step of an operation that has no listing to do. */
  lemma GoOn(st: State, more: seq<Event>, mid: State, e: Event, t: string, n: nat)
    returns (more': seq<Event>, end: State)
    requires Run(Guarded, st, more, mid) && WentOn(st, mid, t, n)
    requires Enabled(mid, e) && (e.RollBack? || e.Remove? || e.Unassign?) && mid.tasks[e.task].id == t && e.task != n
    ensures Run(Guarded, st, more', end) && WentOn(st, end, t, n)
    ensures end.tasks == mid.tasks[e.task := var task := mid.tasks[e.task];
                                             if e.RollBack? then Finished
                                             else if e.Remove? then task.(removed := true)
                                             else task.(unassigned := true)]
  {
    GoesOn(mid, e, t, n);
    WentFurther(st, mid, Step(mid, e), t, n);
    more', end := OneMoreStep(st, more, mid, e);
    hide WentOn, Run;
  }

  /** One operation that has no listing to do runs to its end. */
  lemma Finish(st: State, k: nat, t: string, n: nat) returns (more: seq<Event>, end: State)
    requires k < |st.tasks| && k != n && Active(st.tasks[k], t) && !st.tasks[k].Assigning?
    ensures Run(Guarded, st, more, end) && WentOn(st, end, t, n) && !Active(end.tasks[k], t)
    ensures forall j :: 0 <= j < |st.tasks| && j != k ==> end.tasks[j] == st.tasks[j]
  {
    more, end := [], st;
    StaysOn(st, t, n);
    assert |end.tasks| == |st.tasks|;
    hide WentOn, Run, Step;
    if st.tasks[k].RollingBack? {
      more, end := GoOn(st, more, end, RollBack(k), t, n);
    } else {
      if !st.tasks[k].removed { more, end := GoOn(st, more, end, Remove(k), t, n); }
      if !st.tasks[k].unassigned { more, end := GoOn(st, more, end, Unassign(k), t, n); }
    }
  }

  lemma StaysOn(st: State, t: string, n: nat)
    ensures WentOn(st, st, t, n) && Run(Guarded, st, [], st)
  {}

  /** All operations on the tunnel but the n-th run to their ends. */
  lemma Drain(st: State, t: string, n: nat, k: nat) returns (more: seq<Event>, end: State)
    requires k <= |st.tasks|
    requires forall j :: 0 <= j < |st.tasks| && j != n && Active(st.tasks[j], t) ==> j >= k && !st.tasks[j].Assigning?
    ensures Run(Guarded, st, more, end) && WentOn(st, end, t, n)
    ensures forall j :: 0 <= j < |st.tasks| && j != n ==> !Active(end.tasks[j], t)
    decreases |st.tasks| - k
  {
    if k == |st.tasks| {
      more, end := [], st;
      StaysOn(st, t, n);
    } else if k == n || !Active(st.tasks[k], t) {
      more, end := Drain(st, t, n, k + 1);
    } else {
      hide Run;
      var first, mid := Finish(st, k, t, n);
      assert |mid.tasks| == |st.tasks|;
      var rest;
      rest, end := Drain(mid, t, n, k + 1);
      more := first + rest;
      RunsOn(st, first, mid, rest, end);
      WentFurther(st, mid, end, t, n);
    }
  }

  /** The account is opened if it is not yet. */
  lemma Opened(st: State, a: AccountId) returns (more: seq<Event>, end: State)
    requires a !in st.dropped && (a in st.accounts ==> a !in st.accounts[a])
    ensures Run(Guarded, st, more, end)
    ensures end.tasks == st.tasks && end.tunnels == st.tunnels && end.dropped == st.dropped
    ensures a in end.accounts && a !in end.accounts[a]
    ensures forall t :: Listed(end, a, t) == Listed(st, a, t)
  {
    if a in st.accounts {
      more, end := [], st;
    } else {
      more, end := [Open(a)], Step(st, Open(a));
      OneStep(st, Open(a));
      forall t ensures Listed(end, a, t) == 0 { NothingOccurs(t); }
    }
  }

  // ---------- creations beside deletions that started in time ----------

  lemma AccountOpened(es0: seq<Event>, st0: State, a: AccountId) returns (es: seq<Event>, st: State)
    requires Run(Any, START, es0, st0) && a !in st0.accounts
    ensures es == es0 + [Open(a)] && Run(Any, START, es, st)
    ensures st.tunnels == st0.tunnels && st.accounts == st0.accounts[a := []] && st.tasks == st0.tasks
  {
    hide Run;
    es, st := Advance(START, es0, st0, Open(a));
  }

  lemma CreatedAndListed(es0: seq<Event>, st0: State, a: AccountId, t: string) returns (es: seq<Event>, st: State)
    requires Run(Any, START, es0, st0) && t !in st0.tunnels && a in st0.accounts && st0.accounts[a] == []
    ensures es == es0 + [StartCreate(t, a), Assign(|st0.tasks|)] && Run(Any, START, es, st)
    ensures st.tunnels == st0.tunnels[t := a] && st.accounts == st0.accounts[a := [t]]
    ensures st.tasks == st0.tasks + [Finished]
  {
    hide Run;
    es, st := Advance(START, es0, st0, StartCreate(t, a));
    es, st := Advance(START, es, st, Assign(|st0.tasks|));
    assert es == es0 + [StartCreate(t, a), Assign(|st0.tasks|)];
    assert st.accounts[a] == [t];
  }

  lemma DeletionStarted(es0: seq<Event>, st0: State, a: AccountId, t: string) returns (es: seq<Event>, st: State)
    requires Run(Any, START, es0, st0) && Permitted(st0, t, a)
    ensures es == es0 + [StartDelete(t, a)] && Run(Any, START, es, st)
    ensures st.tunnels == st0.tunnels && st.accounts == st0.accounts
    ensures st.tasks == st0.tasks + [Deleting(t, a, false, false)]
  {
    hide Run;
    es, st := Advance(START, es0, st0, StartDelete(t, a));
  }

  lemma DeletionRemoved(es0: seq<Event>, st0: State, i: nat) returns (es: seq<Event>, st: State)
    requires Run(Any, START, es0, st0) && Enabled(st0, Remove(i))
    ensures es == es0 + [Remove(i)] && Run(Any, START, es, st)
    ensures st.tunnels == st0.tunnels - {st0.tasks[i].id} && st.accounts == st0.accounts
    ensures st.tasks == st0.tasks[i := st0.tasks[i].(removed := true)]
  {
    hide Run;
    es, st := Advance(START, es0, st0, Remove(i));
  }

  lemma DeletionUnlisted(es0: seq<Event>, st0: State, i: nat, rest: seq<string>) returns (es: seq<Event>, st: State)
    requires Run(Any, START, es0, st0) && Enabled(st0, Unassign(i))
    requires var task := st0.tasks[i];
             task.account in st0.accounts && Unassigned(st0.accounts[task.account], task.id) == rest
    ensures es == es0 + [Unassign(i)] && Run(Any, START, es, st)
    ensures st.tunnels == st0.tunnels && st.accounts == st0.accounts[st0.tasks[i].account := rest]
    ensures st.tasks == st0.tasks[i := st0.tasks[i].(unassigned := true)]
  {
    hide Run, Unassigned;
    es, st := Advance(START, es0, st0, Unassign(i));
  }

  lemma UnassignsOnly(t: string)
    ensures Unassigned([t], t) == [] && Unassigned([], t) == []
  {
    assert IndexOf([t], t) == 0;
  }

  /** A tunnel is created and listed, two deletions of it start, and the first of them runs to its end. */
  lemma OneOfTwoDeletions(a: AccountId, t: string) returns (es: seq<Event>, st: State)
    requires t != a
    ensures es == [Open(a), StartCreate(t, a), Assign(0), StartDelete(t, a), StartDelete(t, a), Remove(1), Unassign(1)]
    ensures Run(Any, START, es, st) && st.accounts == map[a := []] && st.tunnels == map[]
    ensures st.tasks == [Finished, Deleting(t, a, true, true), Deleting(t, a, false, false)]
  {
    hide Run, Step, Unassigned;
    UnassignsOnly(t);
    assert Run(Any, START, [], START) by { RunsFromStart(); }
    es, st := AccountOpened([], START, a);
    es, st := CreatedAndListed(es, st, a, t);
    assert st.accounts == map[a := [t]] && st.tunnels == map[t := a] && st.tasks == [Finished];
    es, st := DeletionStarted(es, st, a, t);
    es, st := DeletionStarted(es, st, a, t);
    assert st.tasks == [Finished, Deleting(t, a, false, false), Deleting(t, a, false, false)];
    es, st := DeletionRemoved(es, st, 1);
    es, st := DeletionUnlisted(es, st, 1, []);
  }

  lemma RunsFromStart()
    ensures Run(Any, START, [], START)
  {}

  /**
   Both deletions start once the tunnel is listed, and the second one removes it before it is created
   again; but it unlists the new tunnel instead of the old one.
  */
  lemma LateUnlistingHitsNewTunnel(a: AccountId, t: string) returns (es: seq<Event>, st: State)
    requires t != a
    ensures es == [Open(a), StartCreate(t, a), Assign(0), StartDelete(t, a), StartDelete(t, a), Remove(1), Unassign(1)]
                  + [Remove(2), StartCreate(t, a), Assign(3), Unassign(2)]
    ensures Run(Any, START, es, st) && Idle(st, t)
    ensures st.tunnels == map[t := a] && st.accounts == map[a := []]
  {
    hide Run, Step, Unassigned;
    UnassignsOnly(t);
    var es0, st0 := OneOfTwoDeletions(a, t);
    es, st := DeletionRemoved(es0, st0, 2);
    es, st := CreatedAndListed(es, st, a, t);
    es, st := DeletionUnlisted(es, st, 2, []);
    assert es == es0 + [Remove(2), StartCreate(t, a), Assign(3), Unassign(2)];
  }

  /** The second deletion removes the tunnel only after another account created and listed it. */
  lemma LateRemovalHitsOtherAccount(a: AccountId, b: AccountId, t: string) returns (es: seq<Event>, st: State)
    requires t != a && t != b && a != b
    ensures es == [Open(a), StartCreate(t, a), Assign(0), StartDelete(t, a), StartDelete(t, a), Remove(1), Unassign(1)]
                  + [Open(b), StartCreate(t, b), Assign(3), Remove(2), Unassign(2)]
    ensures Run(Any, START, es, st) && Idle(st, t)
    ensures st.tunnels == map[] && st.accounts == map[a := [], b := [t]]
  {
    hide Run, Step, Unassigned;
    UnassignsOnly(t);
    var es0, st0 := OneOfTwoDeletions(a, t);
    es, st := AccountOpened(es0, st0, b);
    es, st := CreatedAndListed(es, st, b, t);
    es, st := DeletionRemoved(es, st, 2);
    es, st := DeletionUnlisted(es, st, 2, []);
    assert es == es0 + [Open(b), StartCreate(t, b), Assign(3), Remove(2), Unassign(2)];
  }

  // ---------- the guard ----------

  /** Though operations only start as they should from here on, list and store may come to disagree at rest. */
  ghost predicate MayDisagree(from: State, t: string)
  {
    exists more, end :: Run(Guarded, from, more, end) && Idle(end, t) && !AgreesOn(end, t)
  }

  /** A creation that will list the tunnel, of which something under way will remove it. */
  predicate DoomedCreation(st: State, i: nat, t: string, a: AccountId)
  {
    && i < |st.tasks| && st.tasks[i] == Assigning(t, a) && Doomed(st, t)
    && (forall j :: 0 <= j < |st.tasks| && j != i && Active(st.tasks[j], t) ==> !st.tasks[j].Assigning?)
    && a !in st.dropped && (a in st.accounts ==> a !in st.accounts[a])
  }

  /** Whatever removes the tunnel runs to its end before the creation lists it. */
  lemma DoomedCreationLeavesListing(st: State, i: nat, t: string, a: AccountId) returns (more: seq<Event>, end: State)
    requires DoomedCreation(st, i, t, a)
    ensures Run(Guarded, st, more, end)
    ensures Idle(end, t) && t !in end.tunnels && a in end.accounts && t in end.accounts[a] && a !in end.dropped
  {
    var d :| 0 <= d < |st.tasks| && Removes(st.tasks[d], t);
    var opening, s0 := Opened(st, a);
    var draining, s1 := Drain(s0, t, i, 0);
    RunsOn(st, opening, s0, draining, s1);
    more, end := OneMoreStep(st, opening + draining, s1, Assign(i));
    hide Run, Covered;
    assert Active(s0.tasks[d], t) && !Active(s1.tasks[d], t);
  }

  /** A deletion that starts too early, and runs to its end before the creation lists the tunnel. */
  lemma EarlyDeletionLeavesListing(st: State, i: nat, t: string, a: AccountId) returns (more: seq<Event>, end: State)
    requires i < |st.tasks| && st.tasks[i] == Assigning(t, a)
    requires forall j :: 0 <= j < |st.tasks| && j != i && Active(st.tasks[j], t) ==> !st.tasks[j].Assigning?
    requires Permitted(st, t, a) && a !in st.dropped && (a in st.accounts ==> a !in st.accounts[a])
    ensures Run(Guarded, Step(st, StartDelete(t, a)), more, end)
    ensures Idle(end, t) && t !in end.tunnels && a in end.accounts && t in end.accounts[a] && a !in end.dropped
  {
    var started := Step(st, StartDelete(t, a));
    assert started.tasks == st.tasks + [Deleting(t, a, false, false)];
    assert Removes(started.tasks[|st.tasks|], t);
    more, end := DoomedCreationLeavesListing(started, i, t, a);
  }

  /** The creation lists the tunnel, and then the deletions of its former life unlist it. */
  lemma LateUnassigningUnlists(st: State, i: nat, t: string, a: AccountId) returns (more: seq<Event>, end: State)
    requires i < |st.tasks| && st.tasks[i] == Assigning(t, a) && Permitted(st, t, a)
    requires forall j :: 0 <= j < |st.tasks| && j != i && Active(st.tasks[j], t) ==> !st.tasks[j].Assigning?
    requires a !in st.dropped && (a in st.accounts ==> a !in st.accounts[a])
    requires !Doomed(st, t) && Unassigning(st.tasks, a, t) > Listed(st, a, t)
    ensures Run(Guarded, st, more, end)
    ensures Idle(end, t) && Permitted(end, t, a) && a in end.accounts && t !in end.accounts[a] && a !in end.dropped
  {
    var opening, s0 := Opened(st, a);
    var listing, s1 := OneMoreStep(st, opening, s0, Assign(i));
    AssigningLists(s0, i, a, t);
    UnassigningAfter(s0, Assign(i), a, t);
    hide Run, Unassigning, Listed, Assigned;
    assert Covered(s1, a, t);
    assert s1.tasks == s0.tasks[i := Finished];
    assert !Doomed(s1, t);
    var draining;
    draining, end := Drain(s1, t, i, 0);
    more := listing + draining;
    RunsOn(st, listing, s1, draining, end);
    NothingUnderWay(end, a, t);
    assert Listed(end, a, t) == 0;
    NotListed(end, a, t);
  }

  lemma NotListed(st: State, a: AccountId, t: string)
    requires a in st.accounts && Listed(st, a, t) == 0
    ensures t !in st.accounts[a]
  {
    assert t !in multiset(st.accounts[a]);
  }

  lemma ListedOnly(end: State, a: AccountId, t: string)
    requires a in end.accounts && a !in end.dropped && (t in end.accounts[a] <==> !Owned(end, a, t))
    ensures !AgreesOn(end, t)
  {
    assert t in multiset(end.accounts[a]) <==> t in end.accounts[a];
    assert Listed(end, a, t) > 0 <==> Stored(end, a, t) == 0;
  }

  lemma GuardedStart(es: seq<Event>, st: State, e: Event, t: string)
    requires Run(Guarded, START, es, st) && Enabled(st, e) && Follows(Guarded, st, e)
    ensures !MayDisagree(Step(st, e), t)
  {
    var es', started := OneMoreStep(START, es, st, e);
    forall more, end | Run(Guarded, started, more, end) && Idle(end, t) ensures AgreesOn(end, t) {
      RunsOn(START, es', started, more, end);
      RestsAgreed(es' + more, end, t);
    }
  }

  /**
   The guard of deletions is exact: after any run that respects both guards, starting a permitted
   deletion lets list and store come to disagree on the tunnel if and only if its creation has still
   to list it.
  */
  lemma DeletionGuardExactly(es: seq<Event>, st: State, t: string, a: AccountId)
    requires Run(Guarded, START, es, st) && Permitted(st, t, a) && a !in st.dropped
    ensures MayDisagree(Step(st, StartDelete(t, a)), t) <==> BeingListed(st, t)
  {
    if BeingListed(st, t) {
      ReachableGuard(es, st, t);
      var i :| 0 <= i < |st.tasks| && st.tasks[i].Assigning? && st.tasks[i].id == t;
      var more, end := EarlyDeletionLeavesListing(st, i, t, a);
      hide Run, Step;
      ListedOnly(end, a, t);
    } else {
      GuardedStart(es, st, StartDelete(t, a), t);
    }
  }

  /**
   The guard of creations is exact: after any such run, starting the creation of a tunnel that is not
   stored lets list and store come to disagree on it if and only if a roll-back of it or a deletion
   that has not removed it is under way, or more deletions have still to take it off the account's
   list than it is listed there.
  */
  lemma CreationGuardExactly(es: seq<Event>, st: State, t: string, a: AccountId)
    requires Run(Guarded, START, es, st) && t !in st.tunnels && t != a && a !in st.dropped
    ensures MayDisagree(Step(st, StartCreate(t, a)), t) <==>
            Doomed(st, t) || Unassigning(st.tasks, a, t) > Listed(st, a, t)
  {
    if CreationSafe(st, t, a) { GuardedStart(es, st, StartCreate(t, a), t); } else { GuardIsNeeded(es, st, t, a); }
  }

  lemma GuardIsNeeded(es: seq<Event>, st: State, t: string, a: AccountId)
    requires Run(Guarded, START, es, st) && t !in st.tunnels && t != a && a !in st.dropped
    requires !CreationSafe(st, t, a)
    ensures MayDisagree(Step(st, StartCreate(t, a)), t)
  {
    ReachableGuard(es, st, t);
    var started, n := Step(st, StartCreate(t, a)), |st.tasks|;
    UnassigningAfter(st, StartCreate(t, a), a, t);
    assert started.tasks == st.tasks + [Assigning(t, a)];
    assert forall j :: 0 <= j < n && Active(st.tasks[j], t) ==> !st.tasks[j].Assigning?;
    hide Run, Step, Unassigning, Listed;
    var more, end;
    if d :| 0 <= d < n && Removes(st.tasks[d], t) {
      assert Removes(started.tasks[d], t);
      more, end := DoomedCreationLeavesListing(started, n, t, a);
    } else {
      ListedDepends(st, started, a, t);
      more, end := LateUnassigningUnlists(started, n, t, a);
    }
    ListedOnly(end, a, t);
  }

  // ---------- tunnels named after their account ----------

  lemma {:induction false} LongerThanAll(ss: set<string>) returns (n: nat)
    ensures forall s :: s in ss ==> |s| < n
  {
    if ss == {} {
      n := 0;
    } else {
      var s :| s in ss;
      var m := LongerThanAll(ss - {s});
      n := if m > |s| then m else |s| + 1;
    }
  }

  lemma UnusedName(st: State, a: AccountId) returns (x: string)
    ensures x != a && x !in st.tunnels
    ensures forall i :: 0 <= i < |st.tasks| && !st.tasks[i].Finished? ==> st.tasks[i].id != x
  {
    var used := st.tunnels.Keys + {a} + set i | 0 <= i < |st.tasks| && !st.tasks[i].Finished? :: st.tasks[i].id;
    var n := LongerThanAll(used);
    x := seq(n, _ => 'x');
    assert x !in used;
  }

  /** Once an account lists its own identifier, a new tunnel of it is stored, but not listed. */
  lemma NothingMoreIsListed(st: State, a: AccountId, x: string) returns (more: seq<Event>, end: State)
    requires a in st.accounts && a in st.accounts[a] && a !in st.dropped
    requires x != a && x !in st.tunnels && Idle(st, x) && Listed(st, a, x) == 0
    ensures Run(Guarded, st, more, end) && Idle(end, x) && !AgreesOn(end, x)
  {
    var n, s1 := |st.tasks|, Step(st, StartCreate(x, a));
    RestIsSafe(st, x, a);
    OneStep(st, StartCreate(x, a));
    assert s1.tasks == st.tasks + [Assigning(x, a)];
    ListedDepends(st, s1, a, x);
    ListingSkipped(s1, n, a, x);
    hide Run, Listed, Step, Assigned;
    more, end := OneMoreStep(st, [StartCreate(x, a)], s1, Assign(n));
    assert Listed(end, a, x) == 0 && Stored(end, a, x) == 1;
  }

  lemma ListingSkipped(st: State, i: nat, a: AccountId, x: string)
    requires i < |st.tasks| && st.tasks[i] == Assigning(x, a) && a in st.accounts && a in st.accounts[a]
    requires forall j :: 0 <= j < |st.tasks| && j != i ==> !Active(st.tasks[j], x)
    ensures var end := Step(st, Assign(i));
            Listed(end, a, x) == Listed(st, a, x) && end.tunnels == st.tunnels && end.dropped == st.dropped
            && Idle(end, x)
  {
    AssigningLists(st, i, a, x);
    hide Listed;
    assert Step(st, Assign(i)).tasks == st.tasks[i := Finished];
  }

  /** A tunnel named after its account keeps those after it off the list. */
  lemma OwnNameBlocksListings(es: seq<Event>, st: State, a: AccountId) returns (x: string)
    requires Run(Guarded, START, es, st) && a !in st.tunnels && a !in st.dropped
    ensures MayDisagree(Step(st, StartCreate(a, a)), x)
  {
    x := UnusedName(st, a);
    ReachableGuard(es, st, a);
    ReachableGuard(es, st, x);
    assert Idle(st, x);
    NothingUnderWay(st, a, x);
    assert Balanced(st, a, x);
    var n, started := |st.tasks|, Step(st, StartCreate(a, a));
    assert started.tasks == st.tasks + [Assigning(a, a)];
    var opening, s0 := Opened(started, a);
    AssigningLists(s0, n, a, x);
    ListedDepends(st, started, a, x);
    var listing, s1 := OneMoreStep(started, opening, s0, Assign(n));
    assert s1.tasks == s0.tasks[n := Finished];
    hide Run, Listed, Unassigning;
    var more, end := NothingMoreIsListed(s1, a, x);
    RunsOn(started, listing, s1, more, end);
  }

  /** Starting the operation is up to the account, which was never dropped. */
  predicate ByOpenAccount(st: State, e: Event)
  {
    match e
    case StartCreate(_, a) => a !in st.dropped
    case StartDelete(id, _) => id in st.tunnels ==> st.tunnels[id] !in st.dropped
    case _ => true
  }

  /**
   Both guards together are the weakest rule: after any run that respects them they forbid an event
   exactly if list and store may come to disagree on some tunnel after it.
  */
  lemma GuardIsWeakest(es: seq<Event>, st: State, e: Event)
    requires Run(Guarded, START, es, st) && Enabled(st, e) && ByOpenAccount(st, e)
    ensures Follows(Guarded, st, e) <==> forall x :: !MayDisagree(Step(st, e), x)
  {
    hide Run, MayDisagree, Step;
    if Follows(Guarded, st, e) {
      forall x ensures !MayDisagree(Step(st, e), x) { GuardedStart(es, st, e, x); }
    } else {
      match e
      case StartCreate(t, a) =>
        if t == a { var x := OwnNameBlocksListings(es, st, a); } else { CreationGuardExactly(es, st, t, a); }
      case StartDelete(t, _) => DeletionGuardExactly(es, st, t, st.tunnels[t]);
      case _ =>
    }
  }
}
