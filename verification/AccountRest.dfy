/**
 Agreement of list and store whenever nothing is under way on a tunnel, for callers that create
 it only then. Between two creations a tunnel has one life: stored, listed, removed, unlisted.
*/
module AccountRest {
  import opened AccountIds
  import opened AccountIndex

  /** The steps since the tunnel was stored last; an unlisting counts once the tunnel was listed. */
  datatype Life = Unborn | Life(owner: AccountId, listed: bool, removed: bool, unlisted: bool)

  function LifeAfter(life: Life, m: Mark, t: string): Life
  {
    if m.id != t then life
    else
      match m
      case Storing(_, a) => Life(a, false, false, false)
      case Listing(_, _) => if life.Life? then life.(listed := true, unlisted := false) else life
      case Skipping(_, _) => if life.Life? then life.(listed := true, unlisted := false) else life
      case Unlisting(_, _) => if life.Life? && life.listed then life.(unlisted := true) else life
      case Removing(_) => if life.Life? then life.(removed := true) else life
  }

  function LifeOf(marks: seq<Mark>, t: string): Life
  {
    if marks == [] then Unborn else LifeAfter(LifeOf(marks[..|marks| - 1], t), marks[|marks| - 1], t)
  }

  /** If the tunnel was listed and removed, some deletion unlisted it after it was listed. */
  predicate InOrder(life: Life)
  {
    life.Life? && life.listed && life.removed ==> life.unlisted
  }

  /** All lives of the tunnel but the present one went in order. */
  predicate PastInOrder(marks: seq<Mark>, t: string)
  {
    marks != [] ==>
      var front, last := marks[..|marks| - 1], marks[|marks| - 1];
      PastInOrder(front, t) && (last.Storing? && last.id == t ==> InOrder(LifeOf(front, t)))
  }

  // ---------- the invariant ----------

  /** No account that was never dropped lists its own identifier, and no creation is named after its account. */
  predicate NamesApart(st: State)
  {
    && (forall a :: a in st.accounts && a !in st.dropped ==> a !in st.accounts[a])
    && (forall i :: 0 <= i < |st.tasks| && st.tasks[i].Assigning? ==> st.tasks[i].id != st.tasks[i].account)
  }

  lemma StepKeepsNames(st: State, e: Event, rule: Rule)
    requires NamesApart(st) && Enabled(st, e) && Follows(rule, st, e) && rule != Any
    ensures NamesApart(Step(st, e))
  {
    if e.Unassign? {
      var task := st.tasks[e.task];
      if task.account in st.accounts {
        var tunnels := st.accounts[task.account];
        UnassignTakesOne(tunnels, task.id);
        assert forall x :: x in Unassigned(tunnels, task.id) ==> x in multiset(Unassigned(tunnels, task.id));
      }
    }
  }

  /** What a task on the tunnel tells about its life. */
  predicate TaskFits(life: Life, task: Task)
    requires !task.Finished?
  {
    && life.Life? && task.account == life.owner
    && (!task.Deleting? ==> !life.listed)
    && (task.Deleting? && task.removed ==> life.removed)
  }

  predicate TasksFit(st: State, t: string)
  {
    && (forall i :: 0 <= i < |st.tasks| && Active(st.tasks[i], t) ==> TaskFits(LifeOf(st.marks, t), st.tasks[i]))
    && (forall i, j :: 0 <= i < j < |st.tasks| && Active(st.tasks[i], t) && Active(st.tasks[j], t) ==>
          st.tasks[i].Deleting? || st.tasks[j].Deleting?)
  }

  predicate Removable(task: Task, t: string)
  {
    Active(task, t) && task.Deleting? && !task.removed
  }

  /** A tunnel that is neither listed nor removed is being created; one unlisted but not removed is being deleted. */
  predicate Pending(st: State, t: string)
  {
    var life := LifeOf(st.marks, t);
    life.Life? ==>
      && (!life.listed && !life.removed ==> Creating(st, t))
      && (life.unlisted && !life.removed ==> exists i :: 0 <= i < |st.tasks| && Removable(st.tasks[i], t))
  }

  /** Store and list are what the life says. */
  ghost predicate LifeTells(st: State, t: string)
  {
    var life := LifeOf(st.marks, t);
    && (t in st.tunnels <==> life.Life? && !life.removed)
    && (t in st.tunnels ==> st.tunnels[t] == life.owner)
    && forall b: AccountId :: b !in st.dropped ==>
         Listed(st, b, t) == if life.Life? && b == life.owner && life.listed && !life.unlisted then 1 else 0
  }

  ghost predicate LifeInv(st: State, t: string)
  {
    TasksFit(st, t) && Pending(st, t) && LifeTells(st, t)
  }

  lemma MarkedLife(marks: seq<Mark>, m: Mark, t: string)
    ensures LifeOf(marks + [m], t) == LifeAfter(LifeOf(marks, t), m, t)
    ensures PastInOrder(marks + [m], t) <==>
              PastInOrder(marks, t) && (m.Storing? && m.id == t ==> InOrder(LifeOf(marks, t)))
  {
    assert (marks + [m])[..|marks + [m]| - 1] == marks;
  }

  /** The event neither starts nor takes a step of an operation on the tunnel. */
  predicate Elsewhere(st: State, e: Event, t: string)
    requires Enabled(st, e)
  {
    match e
    case StartCreate(id, _) => id != t || id in st.tunnels
    case StartDelete(id, requester) => id != t || id !in st.tunnels || st.tunnels[id] != requester
    case Open(_) => true
    case Drop(_) => true
    case Assign(i) => st.tasks[i].id != t
    case RollBack(i) => st.tasks[i].id != t
    case Remove(i) => st.tasks[i].id != t
    case Unassign(i) => st.tasks[i].id != t
  }

  /** Steps on other tunnels do not touch the life of this one. */
  lemma OtherLife(st: State, e: Event, t: string)
    requires Enabled(st, e) && Elsewhere(st, e, t)
    ensures LifeOf(Step(st, e).marks, t) == LifeOf(st.marks, t)
    ensures PastInOrder(Step(st, e).marks, t) <==> PastInOrder(st.marks, t)
  {
    var after := Step(st, e);
    if |after.marks| > |st.marks| {
      MarkedLife(st.marks, after.marks[|st.marks|], t);
      hide LifeOf, PastInOrder;
    }
  }

  lemma OtherStore(st: State, e: Event, t: string)
    requires Enabled(st, e) && Elsewhere(st, e, t)
    ensures t in Step(st, e).tunnels <==> t in st.tunnels
    ensures t in st.tunnels ==> Step(st, e).tunnels[t] == st.tunnels[t]
  {}

  lemma OtherListing(st: State, e: Event, t: string)
    requires Enabled(st, e) && Elsewhere(st, e, t)
    ensures forall b: AccountId :: b !in Step(st, e).dropped ==>
              b !in st.dropped && Listed(Step(st, e), b, t) == Listed(st, b, t)
  {
    hide Assigned, Unassigned, Occurrences;
    assert Occurrences([], t) == 0 by { NothingOccurs(t); }
    match e
    case Assign(i) =>
      if st.tasks[i].account in st.accounts {
        AssignedOccurrences(st.accounts[st.tasks[i].account], st.tasks[i].account, st.tasks[i].id, t);
      }
    case Unassign(i) =>
      if st.tasks[i].account in st.accounts {
        UnassignedOccurrences(st.accounts[st.tasks[i].account], st.tasks[i].id, t);
      }
    case _ =>
  }

  /** Tasks on the tunnel that a step does not concern are still what they were. */
  lemma SameTasks(st: State, e: Event, t: string)
    requires Enabled(st, e) && Elsewhere(st, e, t)
    ensures var us := Step(st, e).tasks;
            && |us| >= |st.tasks|
            && (forall i :: 0 <= i < |us| && Active(us[i], t) ==> i < |st.tasks| && us[i] == st.tasks[i])
            && (forall i :: 0 <= i < |st.tasks| && Active(st.tasks[i], t) ==> us[i] == st.tasks[i])
  {}

  lemma OtherTasks(st: State, e: Event, t: string)
    requires Enabled(st, e) && Elsewhere(st, e, t) && LifeInv(st, t) &&
              LifeOf(Step(st, e).marks, t) == LifeOf(st.marks, t)
    ensures TasksFit(Step(st, e), t) && Pending(Step(st, e), t)
  {
    SameTasks(st, e, t);
    hide LifeOf, Step;
  }

  lemma CreateStartsLife(st: State, id: string, a: AccountId)
    requires LifeInv(st, id) && Idle(st, id) && id !in st.tunnels && InOrder(LifeOf(st.marks, id))
    ensures LifeInv(Step(st, StartCreate(id, a)), id)
  {
    var after := Step(st, StartCreate(id, a));
    MarkedLife(st.marks, Storing(id, a), id);
    hide LifeOf, Occurrences;
    assert after.tasks[|st.tasks|] == Assigning(id, a);
  }

  lemma DeleteJoinsLife(st: State, id: string, requester: string)
    requires LifeInv(st, id) && id in st.tunnels && st.tunnels[id] == requester
    ensures LifeInv(Step(st, StartDelete(id, requester)), id)
  {
    var after := Step(st, StartDelete(id, requester));
    hide LifeOf, Occurrences;
    assert forall i :: 0 <= i < |st.tasks| ==> after.tasks[i] == st.tasks[i];
    assert after.tasks[|st.tasks|] == Deleting(id, st.tunnels[id], false, false);
    assert LifeTells(after, id);
  }

  lemma AssignTellsLife(st: State, i: nat, t: string)
    requires Enabled(st, Assign(i)) && LifeInv(st, t) && NamesApart(st) && st.tasks[i].id == t
    ensures LifeTells(AssignStep(st, i), t)
    ensures LifeOf(AssignStep(st, i).marks, t) ==
            var life := LifeOf(st.marks, t);
            if st.tasks[i].account in st.accounts && life.Life? then life.(listed := true, unlisted := false) else life
  {
    var after, task := AssignStep(st, i), st.tasks[i];
    assert Active(task, t) && TaskFits(LifeOf(st.marks, t), task);
    if task.account in st.accounts {
      MarkedLife(st.marks, after.marks[|st.marks|], t);
      AssignedOccurrences(st.accounts[task.account], task.account, t, t);
    }
    hide LifeOf, Occurrences, Assigned, TasksFit, Pending;
  }

  lemma AssignKeepsLife(st: State, i: nat, t: string)
    requires Enabled(st, Assign(i)) && LifeInv(st, t) && NamesApart(st) && st.tasks[i].id == t
    ensures LifeInv(AssignStep(st, i), t)
  {
    var after, task := AssignStep(st, i), st.tasks[i];
    AssignTellsLife(st, i, t);
    assert Active(task, t) && TaskFits(LifeOf(st.marks, t), task);
    hide LifeOf, LifeTells, Assigned;
    assert forall j :: 0 <= j < |st.tasks| && j != i ==> after.tasks[j] == st.tasks[j];
    assert task.account !in st.accounts ==> Active(after.tasks[i], t) && !after.tasks[i].Deleting?;
    forall j | 0 <= j < |st.tasks| && Removable(st.tasks[j], t) ensures Removable(after.tasks[j], t) {}
    assert Pending(after, t);
    forall j | 0 <= j < |st.tasks| && j != i && Active(after.tasks[j], t) ensures st.tasks[j].Deleting? {
      assert Active(st.tasks[j], t);
    }
  }

  lemma UnassignTellsLife(st: State, i: nat, t: string)
    requires Enabled(st, Unassign(i)) && LifeInv(st, t) && st.tasks[i].id == t
    ensures LifeTells(UnassignStep(st, i), t)
    ensures LifeOf(UnassignStep(st, i).marks, t) ==
            var life := LifeOf(st.marks, t);
            if life.Life? && life.listed then life.(unlisted := true) else life
  {
    var task := st.tasks[i];
    assert Active(task, t) && TaskFits(LifeOf(st.marks, t), task);
    MarkedLife(st.marks, Unlisting(t, task.account), t);
    forall b: AccountId ensures var before := Listed(st, b, t);
      Listed(UnassignStep(st, i), b, t) == if task.account == b && before > 0 then before - 1 else before
    {
      UnassigningUnlists(st, i, b, t);
    }
    hide LifeOf, Listed, Unassigned, TasksFit, Pending;
  }

  lemma UnassignKeepsLife(st: State, i: nat, t: string)
    requires Enabled(st, Unassign(i)) && LifeInv(st, t) && st.tasks[i].id == t
    ensures LifeInv(UnassignStep(st, i), t)
  {
    var after, task := UnassignStep(st, i), st.tasks[i];
    UnassignTellsLife(st, i, t);
    assert Active(task, t) && TaskFits(LifeOf(st.marks, t), task);
    hide LifeOf, LifeTells, Unassigned;
    assert forall j :: 0 <= j < |st.tasks| && j != i ==> after.tasks[j] == st.tasks[j];
    assert !task.removed ==> Removable(after.tasks[i], t);
  }

  lemma RemoveKeepsLife(st: State, e: Event, t: string)
    requires Enabled(st, e) && (e.Remove? || e.RollBack?) && LifeInv(st, t) && st.tasks[e.task].id == t
    ensures LifeInv(Step(st, e), t)
  {
    var after, task := Step(st, e), st.tasks[e.task];
    assert Active(task, t) && TaskFits(LifeOf(st.marks, t), task);
    MarkedLife(st.marks, Removing(t), t);
    hide LifeOf, Occurrences;
    assert forall j :: 0 <= j < |st.tasks| && j != e.task ==> after.tasks[j] == st.tasks[j];
    assert LifeTells(after, t);
  }

  lemma StepKeepsLife(st: State, e: Event, t: string)
    requires Enabled(st, e) && Follows(CreationsAlone, st, e)
    requires NamesApart(st) && LifeInv(st, t) && PastInOrder(Step(st, e).marks, t)
    ensures LifeInv(Step(st, e), t)
  {
    if Elsewhere(st, e, t) {
      Untouched(st, e, t);
    } else {
      hide LifeInv, AssignStep, UnassignStep;
      match e
      case StartCreate(id, a) =>
        MarkedLife(st.marks, Storing(id, a), t);
        CreateStartsLife(st, id, a);
      case StartDelete(id, requester) => DeleteJoinsLife(st, id, requester);
      case Assign(i) => AssignKeepsLife(st, i, t);
      case Unassign(i) => UnassignKeepsLife(st, i, t);
      case _ => RemoveKeepsLife(st, e, t);
    }
  }

  lemma Untouched(st: State, e: Event, t: string)
    requires Enabled(st, e) && Elsewhere(st, e, t) && LifeInv(st, t)
    ensures LifeInv(Step(st, e), t)
  {
    OtherLife(st, e, t);
    OtherStore(st, e, t);
    OtherListing(st, e, t);
    OtherTasks(st, e, t);
    hide Step, LifeOf, Listed, TasksFit, Pending;
  }

  lemma {:induction false} ReachableLife(es: seq<Event>, st: State, t: string)
    requires Run(CreationsAlone, START, es, st) && PastInOrder(st.marks, t)
    ensures NamesApart(st) && LifeInv(st, t)
  {
    if es == [] {
      assert LifeOf([], t) == Unborn;
    } else {
      var n := |es| - 1;
      var before: State :| Run(CreationsAlone, START, es[..n], before) && Next(CreationsAlone, before, es[n], st);
      PastStays(before, es[n], t);
      hide Run, LifeInv, NamesApart, Step, PastInOrder;
      ReachableLife(es[..n], before, t);
      StepKeepsNames(before, es[n], CreationsAlone);
      StepKeepsLife(before, es[n], t);
    }
  }

  lemma PastStays(st: State, e: Event, t: string)
    requires Enabled(st, e)
    ensures PastInOrder(Step(st, e).marks, t) ==> PastInOrder(st.marks, t)
  {
    var after := Step(st, e);
    if |after.marks| > |st.marks| { MarkedLife(st.marks, after.marks[|st.marks|], t); }
  }

  /** Every account that was never dropped lists the tunnel as often as it is stored for it. */
  ghost predicate AgreesOn(st: State, t: string)
  {
    forall b: AccountId :: b !in st.dropped ==> Listed(st, b, t) == Stored(st, b, t)
  }

  /**
   For callers that create a tunnel only while nothing is under way on it, deletions starting at
   any time and overlapping each other and the creation: whenever nothing is under way on the
   tunnel, and it agreed at all such moments between its former lives, list and store agree on it
   exactly if its present life went in order. OverlapLeavesListing shows a life that did not.
  */
  lemma RestAgreesExactly(es: seq<Event>, st: State, t: string)
    requires Run(CreationsAlone, START, es, st) && Idle(st, t) && PastInOrder(st.marks, t)
    requires var life := LifeOf(st.marks, t); life.Life? ==> life.owner !in st.dropped
    ensures AgreesOn(st, t) <==> InOrder(LifeOf(st.marks, t))
  {
    ReachableLife(es, st, t);
    hide Run, LifeOf, Listed;
    var life := LifeOf(st.marks, t);
    assert !Creating(st, t);
    if life.Life? && !InOrder(life) { assert Listed(st, life.owner, t) == 1 && Stored(st, life.owner, t) == 0; }
  }

  /**
   The step at which a life can go wrong: an unassignment finds nothing to take off the list exactly
   if the creation of the tunnel has not listed it yet, or another deletion has unlisted it since.
  */
  lemma UnassignIsLostExactly(es: seq<Event>, st: State, i: nat)
    requires Run(CreationsAlone, START, es, st) && Enabled(st, Unassign(i)) && PastInOrder(st.marks, st.tasks[i].id)
    requires st.tasks[i].account !in st.dropped
    ensures var a, t := st.tasks[i].account, st.tasks[i].id;
            Listed(Step(st, Unassign(i)), a, t) == Listed(st, a, t) <==>
            LifeOf(st.marks, t).Life? && (!LifeOf(st.marks, t).listed || LifeOf(st.marks, t).unlisted)
    ensures Creating(st, st.tasks[i].id) ==> Listed(Step(st, Unassign(i)), st.tasks[i].account, st.tasks[i].id) == 0
  {
    var task := st.tasks[i];
    ReachableLife(es, st, task.id);
    assert Active(task, task.id) && TaskFits(LifeOf(st.marks, task.id), task);
    UnassigningUnlists(st, i, task.account, task.id);
    hide Run, LifeOf, Listed, UnassignStep;
  }

  // ---------- every rest of a run ----------

  /** No account the tunnel was ever stored for was dropped. */
  predicate OwnersKept(st: State, t: string)
  {
    forall m :: m in st.marks && m.Storing? && m.id == t ==> m.account !in st.dropped
  }

  lemma {:induction false} OwnerStored(marks: seq<Mark>, t: string)
    ensures LifeOf(marks, t).Life? ==> Storing(t, LifeOf(marks, t).owner) in marks
  {
    if marks != [] {
      var front, last := marks[..|marks| - 1], marks[|marks| - 1];
      assert marks == front + [last];
      OwnerStored(front, t);
    }
  }

  /** List and store agree on the tunnel at every moment of the run at which nothing is under way on it. */
  ghost predicate RestsAgree(es: seq<Event>, t: string)
  {
    forall k, st :: 0 <= k <= |es| && Run(CreationsAlone, START, es[..k], st) && Idle(st, t) ==> AgreesOn(st, t)
  }

  /** All lives of the tunnel went in order, the present one as far as it is over. */
  predicate LivesInOrder(st: State, t: string)
  {
    PastInOrder(st.marks, t) && (Idle(st, t) ==> InOrder(LifeOf(st.marks, t)))
  }

  lemma {:induction false} RunsAreDetermined(rule: Rule, es: seq<Event>, a: State, b: State)
    requires Run(rule, START, es, a) && Run(rule, START, es, b)
    ensures a == b
  {
    if es != [] {
      var n := |es| - 1;
      var x: State :| Run(rule, START, es[..n], x) && Next(rule, x, es[n], a);
      var y: State :| Run(rule, START, es[..n], y) && Next(rule, y, es[n], b);
      RunsAreDetermined(rule, es[..n], x, y);
    }
  }

  lemma LivesElsewhere(st: State, e: Event, t: string)
    requires Enabled(st, e) && Elsewhere(st, e, t)
    ensures LifeOf(Step(st, e).marks, t) == LifeOf(st.marks, t) && (Idle(Step(st, e), t) <==> Idle(st, t))
    ensures PastInOrder(Step(st, e).marks, t) <==> PastInOrder(st.marks, t)
  {
    OtherLife(st, e, t);
    SameTasks(st, e, t);
    hide LifeOf, PastInOrder, Step;
  }

  /** A step of an operation on the tunnel is no rest before, unless it starts one. */
  lemma LivesHere(st: State, e: Event, t: string)
    requires Enabled(st, e) && !Elsewhere(st, e, t) && Follows(CreationsAlone, st, e) && LifeInv(st, t)
    ensures PastInOrder(Step(st, e).marks, t) <==>
              PastInOrder(st.marks, t) && (e.StartCreate? ==> InOrder(LifeOf(st.marks, t)))
    ensures !e.StartCreate? && Idle(st, t) ==> e.StartDelete? && InOrder(LifeOf(st.marks, t))
  {
    var after := Step(st, e);
    if |after.marks| > |st.marks| { MarkedLife(st.marks, after.marks[|st.marks|], t); }
    if !e.StartCreate? && !e.StartDelete? { assert Active(st.tasks[e.task], t); }
    hide LifeOf, PastInOrder, Pending, TasksFit;
  }

  /** The lives up to now were in order if they were so a step ago, and the step completes none out of order. */
  lemma LivesStepByStep(st: State, e: Event, t: string)
    requires Enabled(st, e) && Follows(CreationsAlone, st, e) && LifeInv(st, t)
    ensures LivesInOrder(Step(st, e), t) <==>
              LivesInOrder(st, t) && (Idle(Step(st, e), t) ==> InOrder(LifeOf(Step(st, e).marks, t)))
  {
    hide Step, LifeOf, PastInOrder, LifeInv, InOrder, Idle;
    if Elsewhere(st, e, t) { LivesElsewhere(st, e, t); } else { LivesHere(st, e, t); }
  }

  lemma RestsOneMore(es: seq<Event>, st: State, t: string)
    requires es != [] && Run(CreationsAlone, START, es, st)
    ensures RestsAgree(es, t) <==> RestsAgree(es[..|es| - 1], t) && (Idle(st, t) ==> AgreesOn(st, t))
  {
    var front := es[..|es| - 1];
    hide AgreesOn, Idle;
    assert forall k :: 0 <= k <= |front| ==> front[..k] == es[..k];
    assert es[..|es|] == es;
    forall k, mid | 0 <= k <= |es| && Run(CreationsAlone, START, es[..k], mid) ensures k < |es| || mid == st {
      if k == |es| { RunsAreDetermined(CreationsAlone, es, mid, st); }
    }
  }

  /**
   For callers that create a tunnel only while nothing is under way on it, deletions starting at any
   time: list and store agree on the tunnel whenever nothing is under way on it, exactly if all of
   its lives went in order, that is if none was removed after it was listed without a deletion
   unlisting it after that.
  */
  lemma {:induction false} EveryRestAgreesExactly(es: seq<Event>, st: State, t: string)
    requires Run(CreationsAlone, START, es, st) && OwnersKept(st, t)
    ensures RestsAgree(es, t) <==> LivesInOrder(st, t)
  {
    if es == [] {
      assert forall k, mid :: 0 <= k <= |es| && Run(CreationsAlone, START, es[..k], mid) ==> mid == START;
    } else {
      var n := |es| - 1;
      var before: State :| Run(CreationsAlone, START, es[..n], before) && Next(CreationsAlone, before, es[n], st);
      RestsOneMore(es, st, t);
      OwnersStay(before, es[n], t);
      EveryRestAgreesExactly(es[..n], before, t);
      PastStays(before, es[n], t);
      hide RestsAgree, Run, Step, LifeOf, OwnersKept, AgreesOn, Idle, PastInOrder, InOrder;
      if PastInOrder(before.marks, t) {
        ReachableLife(es[..n], before, t);
        LivesStepByStep(before, es[n], t);
        if Idle(st, t) && PastInOrder(st.marks, t) { RestAgreesHere(es, st, t); }
      }
    }
  }

  lemma RestAgreesHere(es: seq<Event>, st: State, t: string)
    requires Run(CreationsAlone, START, es, st) && Idle(st, t) && PastInOrder(st.marks, t) && OwnersKept(st, t)
    ensures AgreesOn(st, t) <==> InOrder(LifeOf(st.marks, t))
  {
    OwnerStored(st.marks, t);
    RestAgreesExactly(es, st, t);
  }

  lemma OwnersStay(st: State, e: Event, t: string)
    requires Enabled(st, e) && OwnersKept(Step(st, e), t)
    ensures OwnersKept(st, t)
  {
    var after := Step(st, e);
    assert forall m :: m in st.marks ==> m in after.marks;
  }
}
