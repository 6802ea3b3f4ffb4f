// When a settled grant stays settled although operations interleave: exactly when no write
// that an earlier read decided on can still bring it back
// (packages/grants/src/grants.ts, packages/grants/src/stores.ts).
module GrantSettling {
  import opened Wrappers
  import opened CliPermissions
  import opened CliWidening
  import opened GrantStore
  import opened GrantListing
  import opened GrantOperations
  import opened GrantRuns
  import opened GrantInterleaving

  // The task holds no write that would take the grant out of a terminal status: its updates
  // of the grant are terminal or will be refused, and it is not extending the grant.
  predicate Harmless(s: Store, t: Task, id: string) {
    match t
    case UpdateCall(i, status, extra, next) =>
      (i == id ==> Terminal(status) || s.UpdateStatus(i, status, extra).Err?) && Harmless(s, next, id)
    case RevokeRead(_, next) => Harmless(s, next, id)
    case ExtendFind(pending, _, _, _) => pending.id != id
    case _ => true
  }

  predicate TerminalIn(s: Store, id: string) {
    id in s.grants && Terminal(s.grants[id].status)
  }

  // The grant is settled, and nothing in flight can unsettle it.
  ghost predicate Settled(y: System, id: string) {
    TerminalIn(y.store, id) && forall k :: 0 <= k < |y.tasks| ==> Harmless(y.store, y.tasks[k], id)
  }

  // ---------------------------------------------------------------- harmless tasks stay harmless

  // A refused update is refused ever after: what it conflicts with never changes.
  lemma RefusedStaysRefused(s: Store, u: Store, id: string, status: Status, extra: Extra)
    requires StoreOk(s) && StoreOk(u) && UpdateFits(s, id, status, extra) && Binds(s, u)
    ensures s.UpdateStatus(id, status, extra).Err? <==> u.UpdateStatus(id, status, extra).Err?
  {
    assert SameBinding(s.grants[id], u.grants[id]);
    StoredReference(s, id);
    StoredReference(u, id);
  }

  lemma {:induction false} HarmlessLater(s: Store, u: Store, t: Task, id: string)
    requires StoreOk(s) && StoreOk(u) && Binds(s, u) && TaskOk(s, t) && Harmless(s, t, id)
    ensures Harmless(u, t, id)
  {
    hide StoreOk, Binds, UpdateFits, Store.UpdateStatus;
    match t
    case UpdateCall(i, status, extra, next) =>
      RefusedStaysRefused(s, u, i, status, extra);
      HarmlessLater(s, u, next, id);
    case RevokeRead(_, next) => HarmlessLater(s, u, next, id);
    case _ =>
  }

  lemma {:induction false} RevokeAllIsHarmless(s: Store, olds: seq<Grant>, approval: Task, id: string)
    requires Harmless(s, approval, id)
    ensures Harmless(s, RevokeAll(olds, approval), id)
    decreases |olds|
  {
    if |olds| > 0 { RevokeAllIsHarmless(s, olds[1..], approval, id); }
  }

  lemma ExtendOnIsHarmless(s: Store, pending: Grant, olds: seq<Grant>, ids: seq<string>, x: Extension, id: string)
    requires pending.id != id
    ensures Harmless(s, ExtendOn(pending, olds, ids, x), id)
  {
    RevokeAllIsHarmless(s, olds, ApproveRead(pending.id, x.who, x.now, Overrides(x.grantType, x.duration, None, [])),
                        id);
    hide RevokeAll, ExtendedRequest;
  }

  // What a read decides on leaves a settled grant alone: if it read that grant, it stops.
  lemma ReadIsHarmless(s: Store, g: Grant, t: Task, id: string)
    requires g.id == id ==> Terminal(g.status)
    requires Harmless(s, t, id)
    ensures Harmless(s, AfterRead(g, t), id)
  {
    hide ApprovalOf, IsGrantExpired, SingleUse, Referenced, ExtendOn, WidenOn;
    if g.id == id {
      SettledReadStops(g, t);
    } else if t.ExtendRead? {
      ExtendOnIsHarmless(s, g, [], t.ids, t.extension, id);
    } else if t.WidenRead? {
      WidenOnIsHarmless(s, g, t, id);
    }
  }

  lemma WidenOnIsHarmless(s: Store, g: Grant, t: Task, id: string)
    requires g.id != id && t.WidenRead?
    ensures Harmless(s, WidenOn(g, t.who, t.now, t.widened, t.grantType, t.duration), id)
  {
    hide SingleUse, Referenced, NormalizedWidenings, CliDetails, DetailsOf, StoredPermissions;
  }

  lemma SettledReadStops(g: Grant, t: Task)
    requires Terminal(g.status)
    ensures AfterRead(g, t).Finished?
  {
    hide ExtendOn, SingleUse, Referenced, NormalizedWidenings, CliDetails, DetailsOf;
  }

  // What a call does to a settled grant: it stays settled, and nothing of it is claimed or
  // approved.
  ghost predicate LeavesSettled(o: Outcome, id: string) {
    TerminalIn(o.store, id)
    && o.effects[Claim(id)] == 0 && o.effects[Approval(id)] == 0 && o.effects[WithdrawalOfApproved(id)] == 0
  }

  lemma UpdateLeavesSettled(s: Store, t: Task, id: string)
    requires t.UpdateCall? && TerminalIn(s, id) && Harmless(s, t, id) && Keyed(s)
    ensures LeavesSettled(Perform(s, t), id)
  {
    hide SameReferenced, Referenced;
  }

  lemma ClaimLeavesSettled(s: Store, t: Task, id: string)
    requires t.UseClaim? && TerminalIn(s, id)
    ensures LeavesSettled(Perform(s, t), id)
  {
  }

  lemma WithdrawalLeavesSettled(s: Store, t: Task, id: string)
    requires t.WithdrawCall? && TerminalIn(s, id)
    ensures LeavesSettled(Perform(s, t), id)
  {
    hide KeyOf;
  }

  lemma ConsumptionLeavesSettled(s: Store, t: Task, id: string)
    requires t.ConsumeCall? && TerminalIn(s, id)
    ensures LeavesSettled(Perform(s, t), id)
  {
  }

  lemma CreationLeavesSettled(s: Store, g: Grant, id: string)
    requires TerminalIn(s, id) && g.id !in s.grants
    ensures LeavesSettled(Perform(s, CreateCall(g)), id)
  {
    hide ExactCommand, FirstOf, KeyOf, SameReferenced;
  }

  predicate ReadsOneGrant(t: Task) {
    || t.ApproveRead? || t.DenyRead? || t.RevokeRead? || t.IntrospectRead? || t.UseRead? || t.UseReread?
    || t.ExtendRead? || t.WidenRead?
  }

  lemma ReadIsRead(s: Store, t: Task)
    requires ReadsOneGrant(t)
    ensures Perform(s, t) == Read(s, if t.id in s.grants then AfterRead(s.grants[t.id], t) else Finished)
  {
    hide AfterRead;
  }

  lemma ExtendFindReads(s: Store, t: Task)
    requires t.ExtendFind?
    ensures Perform(s, t).store == s && Perform(s, t).effects == multiset{}
    ensures Perform(s, t).next.Finished?
            || (|t.ids| > 0 && t.ids[0] in s.grants
                && Perform(s, t).next == ExtendOn(t.pending, t.olds + [s.grants[t.ids[0]]], t.ids[1..], t.extension))
  {
    hide ExtendOn, Extendable;
  }

  lemma WithdrawFindReads(s: Store, t: Task)
    requires t.WithdrawFind? || t.Finished?
    ensures Perform(s, t).store == s && Perform(s, t).effects == multiset{}
    ensures Perform(s, t).next.Finished? || Perform(s, t).next.WithdrawCall?
  {
    hide FindByKey;
  }

  lemma UpdateGoesOn(s: Store, t: Task)
    requires t.UpdateCall?
    ensures Perform(s, t).next == t.next || Perform(s, t).next.Finished?
  {
    hide Store.UpdateStatus;
  }

  lemma CallFinishes(s: Store, t: Task)
    requires t.UseClaim? || t.WithdrawCall? || t.ConsumeCall? || t.CreateCall?
    ensures Perform(s, t).next.Finished?
  {
    hide Store.ClaimOnce, Store.Withdraw, Store.MarkConsumed, CreateStep;
  }

  // A harmless call leaves the grant settled, and leads to a harmless task.
  lemma PerformIsHarmless(s: Store, t: Task, id: string)
    requires StoreOk(s) && TaskOk(s, t) && (t.CreateCall? ==> t.g.id !in s.grants)
    requires TerminalIn(s, id) && Harmless(s, t, id)
    ensures LeavesSettled(Perform(s, t), id) && Harmless(Perform(s, t).store, Perform(s, t).next, id)
  {
    hide *;
    PerformKeeps(s, t);
    IsKeyed(s);
    var o := Perform(s, t);
    if o.next.Finished? { FinishedIsHarmless(o.store, o.next, id); }
    if t.UpdateCall? {
      UpdateLeavesSettled(s, t, id);
      UpdateGoesOn(s, t);
      UpdateParts(s, t, id);
      if o.next == t.next { HarmlessLater(s, o.store, t.next, id); }
    } else if t.CreateCall? {
      CreationLeavesSettled(s, t.g, id);
      CallFinishes(s, t);
    } else if t.UseClaim? || t.WithdrawCall? || t.ConsumeCall? {
      SpendingIsHarmless(s, t, id);
    } else if t.WithdrawFind? || t.Finished? || t.ExtendFind? {
      FindIsHarmless(s, t, id);
    } else {
      OtherwiseReads(t);
      OneReadIsHarmless(s, t, id);
    }
  }

  lemma OtherwiseReads(t: Task)
    requires !t.UpdateCall? && !t.CreateCall? && !t.UseClaim? && !t.WithdrawCall? && !t.ConsumeCall?
    requires !t.WithdrawFind? && !t.Finished? && !t.ExtendFind?
    ensures ReadsOneGrant(t)
  {
  }

  lemma IsKeyed(s: Store)
    requires StoreOk(s)
    ensures Keyed(s)
  {
  }

  lemma SpendingIsHarmless(s: Store, t: Task, id: string)
    requires TerminalIn(s, id) && Keyed(s)
    requires t.UseClaim? || t.WithdrawCall? || t.ConsumeCall?
    ensures LeavesSettled(Perform(s, t), id) && Perform(s, t).next.Finished?
  {
    CallFinishes(s, t);
    hide Perform, LeavesSettled;
    if t.UseClaim? {
      ClaimLeavesSettled(s, t, id);
    } else if t.WithdrawCall? {
      WithdrawalLeavesSettled(s, t, id);
    } else {
      ConsumptionLeavesSettled(s, t, id);
    }
  }

  lemma FindIsHarmless(s: Store, t: Task, id: string)
    requires TerminalIn(s, id) && Harmless(s, t, id)
    requires t.WithdrawFind? || t.Finished? || t.ExtendFind?
    ensures LeavesSettled(Perform(s, t), id) && Harmless(Perform(s, t).store, Perform(s, t).next, id)
  {
    if t.ExtendFind? { ExtendFindReads(s, t); } else { WithdrawFindReads(s, t); }
    hide Perform, ExtendOn;
    if t.ExtendFind? && !Perform(s, t).next.Finished? {
      ExtendOnIsHarmless(s, t.pending, t.olds + [s.grants[t.ids[0]]], t.ids[1..], t.extension, id);
    }
  }

  lemma OneReadIsHarmless(s: Store, t: Task, id: string)
    requires TerminalIn(s, id) && Keyed(s) && Harmless(s, t, id) && ReadsOneGrant(t)
    ensures LeavesSettled(Perform(s, t), id) && Harmless(Perform(s, t).store, Perform(s, t).next, id)
  {
    ReadIsRead(s, t);
    hide Perform, AfterRead;
    if t.id in s.grants { ReadIsHarmless(s, s.grants[t.id], t, id); }
  }

  lemma UpdateParts(s: Store, t: Task, id: string)
    requires t.UpdateCall? && TaskOk(s, t) && Harmless(s, t, id)
    ensures TaskOk(s, t.next) && Harmless(s, t.next, id)
  {
    hide UpdateFits, Store.UpdateStatus;
  }

  lemma FinishedIsHarmless(s: Store, t: Task, id: string)
    requires t.Finished?
    ensures Harmless(s, t, id)
  {
  }

  lemma InitialIsHarmless(s: Store, t: Task, id: string)
    requires Initial(t)
    ensures Harmless(s, t, id)
  {
  }

  lemma NextStaysSettled(y: System, e: Event, id: string)
    requires SystemOk(y) && Possible(y, e) && Settled(y, id)
    ensures var z := Next(y, e);
            && Settled(z, id)
            && z.history[Claim(id)] == y.history[Claim(id)]
            && z.history[Approval(id)] == y.history[Approval(id)]
            && z.history[WithdrawalOfApproved(id)] == y.history[WithdrawalOfApproved(id)]
  {
    NextKeeps(y, e);
    var z := Next(y, e);
    match e
    case Begin(task) =>
      InitialIsHarmless(y.store, task, id);
      hide Harmless;
    case Advance(k) =>
      PerformIsHarmless(y.store, y.tasks[k], id);
      hide StoreOk, Binds, Perform, Harmless, TaskOk, Accounts;
      forall j | 0 <= j < |z.tasks| ensures Harmless(z.store, z.tasks[j], id) {
        if j != k { HarmlessLater(y.store, z.store, y.tasks[j], id); }
      }
  }

  // Once a grant is settled and nothing in flight can unsettle it, it is settled after every
  // schedule, whatever operations begin: it is never claimed or approved again.
  lemma {:induction false} SettledForGood(y: System, events: seq<Event>, id: string)
    requires SystemOk(y) && Schedule(y, events) && Settled(y, id)
    ensures var z := After(y, events);
            && Settled(z, id)
            && z.history[Claim(id)] == y.history[Claim(id)]
            && z.history[Approval(id)] == y.history[Approval(id)]
            && z.history[WithdrawalOfApproved(id)] == y.history[WithdrawalOfApproved(id)]
    decreases |events|
  {
    hide SystemOk, Settled, Possible, Next;
    if |events| > 0 {
      NextStaysSettled(y, events[0], id);
      NextKeeps(y, events[0]);
      SettledForGood(Next(y, events[0]), events[1..], id);
    }
  }

  // ---------------------------------------------------------------- writes that revive

  // A write in flight that would take the grant out of a terminal status and be accepted.
  predicate Revives(s: Store, t: Task, id: string) {
    t.UpdateCall? && t.id == id && !Terminal(t.status) && s.UpdateStatus(id, t.status, t.extra).Ok?
  }

  // Such a write can happen next, whoever decided on it and when.
  lemma StaleWriteRevives(y: System, k: nat, id: string)
    requires k < |y.tasks| && Revives(y.store, y.tasks[k], id)
    ensures Schedule(y, [Advance(k)])
    ensures var z := After(y, [Advance(k)]); id in z.store.grants && z.store.grants[id].status == y.tasks[k].status
  {
    OneEvent(y, Advance(k));
    RevivingWrite(y.store, y.tasks[k], id);
    hide After, Schedule, Perform, Revives, Terminal, Store.UpdateStatus;
  }

  lemma OneEvent(y: System, e: Event)
    requires Possible(y, e)
    ensures Schedule(y, [e]) && After(y, [e]) == Next(y, e)
  {
    hide Next, Possible;
    assert [e][1..] == [];
    assert After(Next(y, e), []) == Next(y, e);
  }

  lemma RevivingWrite(s: Store, t: Task, id: string)
    requires Revives(s, t, id)
    ensures var u := Perform(s, t).store; id in u.grants && u.grants[id].status == t.status
  {
    hide SameReferenced, Referenced;
  }

  // The tasks that are left after a write only read.
  predicate ReadsNext(t: Task) {
    t.Finished? || t.UseReread? || t.ApproveRead? || (t.RevokeRead? && ReadsNext(t.next))
  }

  predicate Plain(t: Task) {
    t.UpdateCall? || t.RevokeRead? ==> ReadsNext(t.next)
  }

  ghost predicate AllPlain(y: System) {
    forall k :: 0 <= k < |y.tasks| ==> Plain(y.tasks[k])
  }

  lemma {:induction false} ReadsNextIsHarmless(s: Store, t: Task, id: string)
    requires ReadsNext(t)
    ensures Harmless(s, t, id)
  {
    if t.RevokeRead? { ReadsNextIsHarmless(s, t.next, id); }
  }

  lemma {:induction false} RevokeAllReads(olds: seq<Grant>, approval: Task)
    requires approval.ApproveRead?
    ensures ReadsNext(RevokeAll(olds, approval))
    decreases |olds|
  {
    if |olds| > 0 { RevokeAllReads(olds[1..], approval); }
  }

  lemma PlainAfterRead(g: Grant, t: Task)
    requires Plain(t)
    ensures Plain(AfterRead(g, t))
  {
    hide ApprovalOf, IsGrantExpired, SingleUse, Referenced, ExtendedRequest, NormalizedWidenings, CliDetails,
         DetailsOf, StoredPermissions;
    if t.ExtendRead? {
      RevokeAllReads([], ApproveRead(g.id, t.extension.who, t.extension.now,
                                     Overrides(t.extension.grantType, t.extension.duration, None, [])));
    }
  }

  lemma PlainAfterCall(s: Store, t: Task)
    requires Plain(t)
    ensures Plain(Perform(s, t).next)
  {
    hide AfterRead, ExtendedRequest, Store.UpdateStatus, Store.ClaimOnce, Store.Withdraw, Store.MarkConsumed,
         FindByKey, CreateStep, Extendable;
    match t
    case ExtendFind(pending, olds, ids, x) =>
      if |ids| > 0 && ids[0] in s.grants {
        RevokeAllReads(olds + [s.grants[ids[0]]],
                       ApproveRead(pending.id, x.who, x.now, Overrides(x.grantType, x.duration, None, [])));
      }
    case UpdateCall(_, _, _, next) => assert ReadsNext(next) ==> Plain(next);
    case CreateCall(_) =>
    case UseClaim(_, _) =>
    case WithdrawFind(_, _, _) =>
    case WithdrawCall(_, _, _) =>
    case ConsumeCall(_, _) =>
    case Finished =>
    case _ => if t.id in s.grants { PlainAfterRead(s.grants[t.id], t); }
  }

  // In every reachable system all tasks are of this form.
  lemma {:induction false} TasksArePlain(y: System, events: seq<Event>)
    requires AllPlain(y) && Schedule(y, events)
    ensures AllPlain(After(y, events))
    decreases |events|
  {
    hide Perform, Plain;
    if |events| > 0 {
      var z := Next(y, events[0]);
      match events[0] {
        case Begin(task) => assert Plain(task) by { InitialIsPlain(task); }
        case Advance(k) => PlainAfterCall(y.store, y.tasks[k]);
      }
      TasksArePlain(z, events[1..]);
    }
  }

  lemma InitialIsPlain(t: Task)
    requires Initial(t)
    ensures Plain(t)
  {
  }

  lemma ReachableFacts(y: System)
    requires Reachable(y)
    ensures SystemOk(y) && AllPlain(y)
  {
    hide SystemOk, Schedule, After;
    StartIsOk();
    var events :| Schedule(START, events) && After(START, events) == y;
    InterleavingKeeps(START, events);
    TasksArePlain(START, events);
  }

  ghost predicate CanRevive(y: System, id: string) {
    exists events :: Schedule(y, events) && !TerminalIn(After(y, events).store, id)
  }

  // While no extension of the grant is still reading the grants it would revoke, a settled
  // grant can be revived exactly when a write in flight would revive it.
  lemma RevivedExactlyByWrites(y: System, id: string)
    requires Reachable(y) && TerminalIn(y.store, id)
    requires forall k :: 0 <= k < |y.tasks| && y.tasks[k].ExtendFind? ==> y.tasks[k].pending.id != id
    ensures CanRevive(y, id) <==> exists k :: 0 <= k < |y.tasks| && Revives(y.store, y.tasks[k], id)
  {
    ReachableFacts(y);
    hide Reachable, SystemOk, After, Schedule, Store.UpdateStatus, Terminal;
    if k :| 0 <= k < |y.tasks| && Revives(y.store, y.tasks[k], id) {
      StaleWriteRevives(y, k, id);
      assert Terminal(y.tasks[k].status) == false;
    } else {
      forall k | 0 <= k < |y.tasks| ensures Harmless(y.store, y.tasks[k], id) {
        var t := y.tasks[k];
        assert Plain(t) && !Revives(y.store, t, id);
        if t.UpdateCall? || t.RevokeRead? { ReadsNextIsHarmless(y.store, t.next, id); }
      }
      forall events | Schedule(y, events)
        ensures TerminalIn(After(y, events).store, id)
      {
        SettledForGood(y, events, id);
      }
    }
  }

  // ---------------------------------------------------------------- extensions and widenings

  // The write of an extension or a widening, which puts a plain grant back to pending, is
  // always accepted.
  lemma PendingWriteRevives(s: Store, t: Task, id: string)
    requires StoreOk(s) && id in s.grants && s.grants[id].request.reference.None?
    requires t.UpdateCall? && t.id == id && t.status.Pending?
    ensures Revives(s, t, id)
  {
    StoredReference(s, id);
    hide StoreOk, Referenced, SameReferenced;
  }

  // An extension that still reads the grants it will revoke, all of them fit to be
  // extended, can go on to put its own grant back to pending.
  lemma {:induction false} ExtensionRevives(y: System, k: nat, id: string)
    requires StoreOk(y.store) && id in y.store.grants && y.store.grants[id].request.reference.None?
    requires k < |y.tasks| && y.tasks[k].ExtendFind? && y.tasks[k].pending.id == id && |y.tasks[k].ids| > 0
    requires forall j :: 0 <= j < |y.tasks[k].ids| ==>
               && y.tasks[k].ids[j] in y.store.grants && y.store.grants[y.tasks[k].ids[j]].status.Approved?
               && Extendable(y.store.grants[y.tasks[k].ids[j]], y.tasks[k].pending)
    ensures exists events :: Schedule(y, events) && id in After(y, events).store.grants
                             && After(y, events).store.grants[id].status.Pending?
    decreases |y.tasks[k].ids|
  {
    hide StoreOk, Extendable, ExtendedRequest, RevokeAll, Store.UpdateStatus;
    var t := y.tasks[k];
    var z := Next(y, Advance(k));
    assert z.store == y.store
           && z.tasks[k] == ExtendOn(t.pending, t.olds + [y.store.grants[t.ids[0]]], t.ids[1..], t.extension);
    if |t.ids| == 1 {
      PendingWriteRevives(z.store, z.tasks[k], id);
      StaleWriteRevives(z, k, id);
      ThenSchedule(y, Advance(k), [Advance(k)]);
    } else {
      ExtensionRevives(z, k, id);
      var events :| Schedule(z, events) && id in After(z, events).store.grants
      && After(z, events).store.grants[id].status.Pending?;
      ThenSchedule(y, Advance(k), events);
    }
  }

  lemma ThenSchedule(y: System, e: Event, events: seq<Event>)
    requires Possible(y, e) && Schedule(Next(y, e), events)
    ensures Schedule(y, [e] + events) && After(y, [e] + events) == After(Next(y, e), events)
  {
    assert ([e] + events)[1..] == events;
  }

  // ---------------------------------------------------------------- a concrete extension

  function PlainRequestOf(details: Option<seq<Detail>>, permissions: Option<seq<string>>,
                          grantType: Option<GrantType>): Request {
    Request("agent", "host", "apes", grantType, permissions, details, None, None, None, None, None, None, None, None,
            None, None, None, None, None, None)
  }

  const NEW_GRANT: Grant := NewGrant("p", PlainRequestOf(None, None, Some(Always)), 0)
  const EXTENSION := Extension("o", 1, MergeMode, Some(Always), None)
  const REWRITE := NO_EXTRA.(request := Some(PlainRequestOf(Some([]), Some([]), Some(Always))))
  const APPROVAL := Extra(Some("o"), Some(1), None, Some(PlainRequestOf(Some([]), Some([]), Some(Always))))
  const DENIAL := NO_EXTRA.(decidedBy := Some("o"), decidedAt := Some(1))

  function ExtensionApproval(): Task {
    ApproveRead("p", "o", 1, Overrides(Some(Always), None, None, []))
  }

  function Holding(g: Grant): Store {
    Store(map["p" := g], ["p"], map[])
  }

  lemma NewGrantIsCreated()
    ensures Initial(CreateCall(NEW_GRANT))
    ensures Perform(EMPTY_STORE, CreateCall(NEW_GRANT)) == Outcome(Holding(NEW_GRANT), Finished, multiset{})
  {
  }

  // An extension and a denial that both read the grant while it was pending.
  lemma ExtensionReads()
    ensures Initial(ExtendRead("p", [], EXTENSION)) && Initial(DenyRead("p", "o", 1))
    ensures Perform(Holding(NEW_GRANT), ExtendRead("p", [], EXTENSION))
            == Outcome(Holding(NEW_GRANT), UpdateCall("p", Pending, REWRITE, ExtensionApproval()), multiset{})
    ensures Perform(Holding(NEW_GRANT), DenyRead("p", "o", 1))
            == Outcome(Holding(NEW_GRANT), UpdateCall("p", Denied, DENIAL, Finished), multiset{})
  {
    assert OldDetails([]) == [] && CliDetails([]) == [] && Merged([]) == [] && Permissions([]) == [];
    var none: seq<Detail> := [];
    assert Flatten([none]) == [] by { assert [none][1..] == []; }
    assert Candidates(MergeMode, none, []) == [] by { assert [none] + OldDetails([]) == [none]; }
    assert !SingleUse(NEW_GRANT.request);
    assert ExtendedRequest(MergeMode, NEW_GRANT.request, []) == REWRITE.request.value;
  }

  lemma PlainUpdate(g: Grant, status: Status, extra: Extra, next: Task)
    requires g.request.reference.None? && g.id == "p"
    ensures Perform(Holding(g), UpdateCall("p", status, extra, next))
            == Outcome(Holding(Updated(g, status, extra)), next, if status.Approved? then multiset{Approval("p")}
                       else multiset{})
  {
  }

  lemma ApprovalOfExtended(g: Grant)
    requires g.id == "p" && g.status.Pending? && g.request == PlainRequestOf(Some([]), Some([]), Some(Always))
    ensures Perform(Holding(g), ExtensionApproval())
            == Outcome(Holding(g), UpdateCall("p", Approved, APPROVAL, Finished), multiset{})
  {
    assert !SingleUse(g.request);
  }

  // A grant that was denied and has nothing to extend is approved after all.
  ghost predicate DeniedAndThenApproved(y: System, z: System) {
    && Reachable(y) && "p" in y.store.grants && y.store.grants["p"].status.Denied?
    && (exists events :: Schedule(y, events) && After(y, events) == z)
    && "p" in z.store.grants && z.store.grants["p"].status.Approved?
  }

  lemma Continues(y: System, k: nat)
    requires k < |y.tasks| && !y.tasks[k].CreateCall?
    ensures Possible(y, Advance(k))
    ensures var o := Perform(y.store, y.tasks[k]);
            Next(y, Advance(k)) == System(o.store, y.tasks[k := o.next], y.history + o.effects)
  {
    hide Perform;
  }

  predicate IsPlain(g: Grant) {
    g.id == "p" && g.request.reference.None?
  }

  // The extension is about to write when the denial has been answered.
  lemma DeniedMeanwhile() returns (y: System)
    ensures Reachable(y)
    ensures y.store == Holding(Updated(NEW_GRANT, Denied, DENIAL)) && IsPlain(Updated(NEW_GRANT, Denied, DENIAL))
    ensures y.tasks == [Finished, UpdateCall("p", Pending, REWRITE, ExtensionApproval()), Finished]
  {
    ReachStart();
    NewGrantIsCreated();
    hide Reachable, Perform, Initial, Updated;
    y := Launch(START, CreateCall(NEW_GRANT));
    assert y.store == Holding(NEW_GRANT);
    ExtensionReads();
    hide ExtensionApproval;
    y := Launch(y, ExtendRead("p", [], EXTENSION));
    y := Launch(y, DenyRead("p", "o", 1));
    PlainUpdate(NEW_GRANT, Denied, DENIAL, Finished);
    y := Proceed(y, 2);
    UpdatedIsPlain(NEW_GRANT, Denied, DENIAL);
  }

  lemma UpdatedIsPlain(g: Grant, status: Status, extra: Extra)
    requires IsPlain(g) && (extra.request.Some? ==> extra.request.value.reference.None?)
    ensures IsPlain(Updated(g, status, extra)) && Updated(g, status, extra).status == status
    ensures extra.request.Some? ==> Updated(g, status, extra).request == extra.request.value
  {
  }

  // The other route: an extension that read `pending` before the denial was written puts
  // the grant back to pending and approves it.
  lemma StaleExtensionRevives()
    ensures exists y, z :: DeniedAndThenApproved(y, z)
  {
    var y := DeniedMeanwhile();
    var denied := Updated(NEW_GRANT, Denied, DENIAL);
    var pending := Updated(denied, Pending, REWRITE);
    var approved := Updated(pending, Approved, APPROVAL);
    hide Reachable, Perform, Updated, ExtensionApproval, Next, Possible, After, Schedule;
    UpdatedIsPlain(NEW_GRANT, Denied, DENIAL);
    PlainUpdate(denied, Pending, REWRITE, ExtensionApproval());
    Continues(y, 1);
    var y1 := Next(y, Advance(1));
    UpdatedIsPlain(denied, Pending, REWRITE);
    ApprovalOfExtended(pending);
    ExtensionApprovalReads();
    Continues(y1, 1);
    var y2 := Next(y1, Advance(1));
    PlainUpdate(pending, Approved, APPROVAL, Finished);
    Continues(y2, 1);
    var z := Next(y2, Advance(1));
    UpdatedIsPlain(pending, Approved, APPROVAL);
    OneEvent(y2, Advance(1));
    ThenSchedule(y1, Advance(1), [Advance(1)]);
    ThenSchedule(y, Advance(1), [Advance(1)] + [Advance(1)]);
    assert DeniedAndThenApproved(y, z);
  }

  lemma ExtensionApprovalReads()
    ensures ExtensionApproval().ApproveRead?
  {
  }
}
