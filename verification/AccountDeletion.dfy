/**
 Deleting an account: a deletion is requested for each tunnel it lists, all at once, and then
 the account itself is dropped. The requests carry the identifier as the caller wrote it.
*/
module AccountDeletion {
  import opened Wrappers
  import opened AccountIds
  import opened AccountIndex

  /** The requests of one account deletion. */
  function FanOut(tunnels: seq<string>, accountId: string): seq<Event>
  {
    seq(|tunnels|, k requires 0 <= k < |tunnels| => StartDelete(tunnels[k], accountId))
  }

  predicate CreatesNot(es: seq<Event>, t: string)
  {
    forall k :: 0 <= k < |es| ==> !(es[k].StartCreate? && es[k].id == t)
  }

  /** Every request to delete `t` comes from `requester`. */
  predicate RequestsOnlyBy(es: seq<Event>, t: string, requester: string)
  {
    forall k :: 0 <= k < |es| ==> es[k].StartDelete? && es[k].id == t ==> es[k].requester == requester
  }

  /** The tunnel is gone, or an operation under way will still remove it. */
  predicate Doomed(st: State, t: string)
  {
    t !in st.tunnels
    || exists i :: 0 <= i < |st.tasks| && st.tasks[i].Deleting? && st.tasks[i].id == t && !st.tasks[i].removed
  }

  predicate KeepsOwner(st: State, t: string, a: AccountId)
  {
    t in st.tunnels ==> st.tunnels[t] == a
  }

  lemma StepKeepsDoom(st: State, e: Event, t: string, a: AccountId)
    requires Enabled(st, e) && !(e.StartCreate? && e.id == t) && KeepsOwner(st, t, a)
    ensures KeepsOwner(Step(st, e), t, a)
    ensures Doomed(st, t) || e == StartDelete(t, a) ==> Doomed(Step(st, e), t)
  {
    var after := Step(st, e);
    if e == StartDelete(t, a) && t in st.tunnels {
      assert after.tasks[|st.tasks|] == Deleting(t, a, false, false);
    } else if Doomed(st, t) && t in st.tunnels {
      var i :| 0 <= i < |st.tasks| && st.tasks[i].Deleting? && st.tasks[i].id == t && !st.tasks[i].removed;
      assert after.tasks[i] == st.tasks[i] || e == Remove(i) || e == Unassign(i);
    }
  }

  lemma {:induction false} RequestDooms(from: State, es: seq<Event>, st: State, t: string, a: AccountId)
    requires Run(Any, from, es, st) && CreatesNot(es, t) && KeepsOwner(from, t, a)
    ensures KeepsOwner(st, t, a) && (StartDelete(t, a) in es ==> Doomed(st, t))
  {
    if es != [] {
      var n := |es| - 1;
      var before: State :| Run(Any, from, es[..n], before) && Next(Any, before, es[n], st);
      RequestDooms(from, es[..n], before, t, a);
      assert es == es[..n] + [es[n]];
      hide Run, Doomed, Step;
      StepKeepsDoom(before, es[n], t, a);
    }
  }

  lemma StepWithoutRequest(st: State, e: Event, t: string, a: AccountId)
    requires Enabled(st, e) && !(e.StartCreate? && e.id == t) && e != StartDelete(t, a)
    requires t in st.tunnels && st.tunnels[t] == a && Idle(st, t)
    ensures var after := Step(st, e); t in after.tunnels && after.tunnels[t] == a && Idle(after, t)
  {
    var after := Step(st, e);
    forall i | 0 <= i < |after.tasks| ensures !Active(after.tasks[i], t) {
      if i < |st.tasks| { StepActivatesNothing(st, e, i); }
    }
    if e.Remove? || e.RollBack? { assert !Active(st.tasks[e.task], t); }
  }

  lemma {:induction false} DeniedStays(from: State, es: seq<Event>, st: State, t: string, a: AccountId)
    requires Run(Any, from, es, st) && CreatesNot(es, t) && StartDelete(t, a) !in es
    requires t in from.tunnels && from.tunnels[t] == a && Idle(from, t)
    ensures t in st.tunnels && st.tunnels[t] == a && Idle(st, t)
  {
    if es != [] {
      var n := |es| - 1;
      var before: State :| Run(Any, from, es[..n], before) && Next(Any, before, es[n], st);
      DeniedStays(from, es[..n], before, t, a);
      hide Run, Step;
      StepWithoutRequest(before, es[n], t, a);
    }
  }

  /**
   Once the deletion of an account has finished its requests, interleaved with each other and
   with anything else, a tunnel it listed is gone exactly if the identifier was passed in normal
   form: the lookup of the account normalises it, the permission to delete a tunnel does not.
  */
  lemma DeletionRemovesExactly(from: State, es: seq<Event>, st: State, accountId: string, a: AccountId, t: string)
    requires NormalizeId(accountId) == Some(a) && a in from.accounts
    requires t in from.accounts[a] && t in from.tunnels && from.tunnels[t] == a && Idle(from, t)
    requires Run(Any, from, es, st) && CreatesNot(es, t) && Idle(st, t)
    requires forall e :: e in FanOut(from.accounts[a], accountId) ==> e in es
    requires RequestsOnlyBy(es, t, accountId)
    ensures t !in st.tunnels <==> accountId == a
  {
    if accountId == a {
      var k :| 0 <= k < |from.accounts[a]| && from.accounts[a][k] == t;
      assert FanOut(from.accounts[a], accountId)[k] == StartDelete(t, a);
      RequestDooms(from, es, st, t, a);
    } else {
      DeniedStays(from, es, st, t, a);
    }
  }

  lemma {:induction false} DeniedRequestsDoNothing(from: State, tunnels: seq<string>, accountId: string)
    requires forall t :: t in tunnels && t in from.tunnels ==> from.tunnels[t] != accountId
    ensures Run(Any, from, FanOut(tunnels, accountId), from)
  {
    if tunnels != [] {
      var n := |tunnels| - 1;
      assert forall t :: t in tunnels[..n] ==> t in tunnels;
      DeniedRequestsDoNothing(from, tunnels[..n], accountId);
      assert tunnels[n] in tunnels;
      Extend(from, FanOut(tunnels[..n], accountId), from, StartDelete(tunnels[n], accountId));
      assert FanOut(tunnels[..n], accountId) + [StartDelete(tunnels[n], accountId)] == FanOut(tunnels, accountId);
    }
  }

  /** Deleting an account by its printed identifier drops the account and keeps all of its tunnels. */
  lemma PrintedIdKeepsTunnels(from: State, a: AccountId) returns (es: seq<Event>, st: State)
    requires a in from.accounts && forall t :: t in from.accounts[a] ==> t in from.tunnels && from.tunnels[t] == a
    ensures NormalizeId(FormatId(a)) == Some(a)
    ensures es == FanOut(from.accounts[a], FormatId(a)) + [Drop(a)] && Run(Any, from, es, st)
    ensures a !in st.accounts && st.tunnels == from.tunnels
  {
    FormatRoundTrip(a);
    DeniedRequestsDoNothing(from, from.accounts[a], FormatId(a));
    Extend(from, FanOut(from.accounts[a], FormatId(a)), from, Drop(a));
    es := FanOut(from.accounts[a], FormatId(a)) + [Drop(a)];
    st := Step(from, Drop(a));
  }
}
