// Grant operations that run at the same time: every call of the store is one atomic step,
// and any other operation may act between two calls
// (packages/grants/src/grants.ts, packages/grants/src/stores.ts, packages/grants/src/grant-withdraw.ts).
module GrantInterleaving {
  import opened Wrappers
  import opened CliPermissions
  import opened CliWidening
  import opened GrantStore
  import opened GrantListing
  import opened GrantOperations
  import opened GrantRuns

  datatype Extension = Extension(who: string, now: int, mode: ExtendMode, grantType: Option<GrantType>,
                                 duration: Option<int>)

  // An operation, before its next call of the store, with what it has read so far.
  datatype Task =
    | CreateCall(g: Grant)
    | ApproveRead(id: string, who: string, now: int, overrides: Overrides)
    | DenyRead(id: string, who: string, now: int)
    | RevokeRead(id: string, next: Task)
    | IntrospectRead(id: string, now: int)
    | UseRead(id: string, now: int, usedAt: int)
    | UseReread(id: string, usedAt: int)
    | UseClaim(id: string, usedAt: int)
    | ExtendRead(id: string, ids: seq<string>, extension: Extension)
    | ExtendFind(pending: Grant, olds: seq<Grant>, ids: seq<string>, extension: Extension)
    | WidenRead(id: string, who: string, now: int, widened: seq<Detail>, grantType: Option<GrantType>,
                duration: Option<int>)
    | UpdateCall(id: string, status: Status, extra: Extra, next: Task)
    | WithdrawFind(key: string, reason: Option<string>, now: int)
    | WithdrawCall(id: string, reason: Option<string>, now: int)
    | ConsumeCall(id: string, jti: string)
    | Finished

  // What the history remembers of a step.
  datatype Effect =
    | Approval(id: string)
    | Claim(id: string)
    | WithdrawalOfApproved(id: string)
    | Consumption(id: string)

  datatype Outcome = Outcome(store: Store, next: Task, effects: multiset<Effect>)

  // How an operation may begin.
  predicate Initial(t: Task) {
    match t
    case CreateCall(g) => g.status.Pending? && g.decidedAt.None? && g.expiresAt.None?
    case RevokeRead(_, next) => next.Finished?
    case WithdrawFind(key, _, _) => key != ""
    case _ =>
      t.ApproveRead? || t.DenyRead? || t.IntrospectRead? || t.UseRead? || t.ExtendRead? || t.WidenRead?
      || t.ConsumeCall?
  }

  // ---------------------------------------------------------------- one store call

  function Read(s: Store, t: Task): Outcome {
    Outcome(s, t, multiset{})
  }

  function CreateStep(s: Store, g: Grant): Store {
    if g.request.reference.Some? then CreateBrokered(s, g) else s.Put(g)
  }

  function UseDecision(g: Grant, usedAt: int): Task {
    if g.status.Approved? && g.request.grantType == Some(Once) then UseClaim(g.id, usedAt) else Finished
  }

  function RevokeAll(olds: seq<Grant>, approval: Task): Task {
    if |olds| == 0 then approval else RevokeRead(olds[0].id, RevokeAll(olds[1..], approval))
  }

  // Once every old grant is read, an extension writes the new details, revokes and approves.
  ghost function ExtendOn(pending: Grant, olds: seq<Grant>, ids: seq<string>, x: Extension): Task {
    if |ids| > 0 then ExtendFind(pending, olds, ids, x)
    else
      UpdateCall(pending.id, Pending, NO_EXTRA.(request := Some(ExtendedRequest(x.mode, pending.request, olds))),
                 RevokeAll(olds, ApproveRead(pending.id, x.who, x.now, Overrides(x.grantType, x.duration, None, []))))
  }

  function WidenOn(g: Grant, who: string, now: int, widened: seq<Detail>, grantType: Option<GrantType>,
                   duration: Option<int>): Task {
    var originals := CliDetails(DetailsOf(g.request));
    if !g.status.Pending? || Referenced(g.request) || SingleUse(g.request) || |originals| == 0
       || |widened| != |originals| then Finished
    else
      match NormalizedWidenings(originals, widened)
      case Err(_) => Finished
      case Ok(details) =>
        UpdateCall(g.id, Pending, NO_EXTRA.(request := Some(WidenedRequest(g.request, details))),
                   ApproveRead(g.id, who, now, Overrides(grantType, duration, None, [])))
  }

  // A task that reads one grant: what it does next.
  ghost function AfterRead(g: Grant, t: Task): Task {
    match t
    case ApproveRead(_, who, now, o) =>
      (match ApprovalOf(g, who, now, o)
       case Ok(extra) => UpdateCall(g.id, Approved, extra, Finished)
       case Err(_) => Finished)
    case DenyRead(_, who, now) =>
      if !g.status.Pending? then Finished
      else UpdateCall(g.id, Denied, NO_EXTRA.(decidedBy := Some(who), decidedAt := Some(now)), Finished)
    case RevokeRead(_, next) =>
      if g.status.Pending? || g.status.Approved? then UpdateCall(g.id, Revoked, NO_EXTRA, next) else Finished
    case IntrospectRead(_, now) =>
      if IsGrantExpired(g, now) then UpdateCall(g.id, Expired, NO_EXTRA, Finished) else Finished
    case UseRead(_, now, usedAt) =>
      if IsGrantExpired(g, now) then UpdateCall(g.id, Expired, NO_EXTRA, UseReread(g.id, usedAt))
        else UseDecision(g, usedAt)
    case UseReread(_, usedAt) => UseDecision(g, usedAt)
    case ExtendRead(_, ids, x) =>
      if !g.status.Pending? || Referenced(g.request) || SingleUse(g.request) then Finished else ExtendOn(g, [], ids, x)
    case WidenRead(_, who, now, widened, grantType, duration) => WidenOn(g, who, now, widened, grantType, duration)
    case _ => Finished
  }

  ghost function Perform(s: Store, t: Task): Outcome {
    match t
    case CreateCall(g) => Outcome(CreateStep(s, g), Finished, multiset{})
    case ExtendFind(pending, olds, ids, x) =>
      if |ids| == 0 || ids[0] !in s.grants then Read(s, Finished)
      else
        var g := s.grants[ids[0]];
        Read(s, if g.status.Approved? && Extendable(g, pending) then ExtendOn(pending, olds + [g], ids[1..], x)
             else Finished)
    case UpdateCall(id, status, extra, next) =>
      (match s.UpdateStatus(id, status, extra)
       case Ok(u) => Outcome(u, next, if status.Approved? then multiset{Approval(id)} else multiset{})
       case Err(_) => Read(s, Finished))
    case UseClaim(id, usedAt) =>
      var (u, claimed) := s.ClaimOnce(id, usedAt);
      Outcome(u, Finished, if claimed then multiset{Claim(id)} else multiset{})
    case WithdrawFind(key, reason, now) =>
      var g := FindByKey(s, key);
      Read(s, if g.Some? && (g.value.status.Pending? || g.value.status.Approved?)
           then WithdrawCall(g.value.id, reason, now) else Finished)
    case WithdrawCall(id, reason, now) =>
      var (u, previous) := s.Withdraw(id, now, reason);
      Outcome(u, Finished, if previous == Some(Approved) then multiset{WithdrawalOfApproved(id)} else multiset{})
    case ConsumeCall(id, jti) =>
      var (u, first) := s.MarkConsumed(id, jti);
      Outcome(u, Finished, if first then multiset{Consumption(id)} else multiset{})
    case Finished => Read(s, Finished)
    case _ => Read(s, if t.id in s.grants then AfterRead(s.grants[t.id], t) else Finished)
  }

  // ---------------------------------------------------------------- the system

  datatype System = System(store: Store, tasks: seq<Task>, history: multiset<Effect>)

  datatype Event = Begin(task: Task) | Advance(k: nat)

  const START := System(EMPTY_STORE, [], multiset{})

  // New ids are random UUIDs: no grant has the id when it is inserted.
  predicate Possible(y: System, e: Event) {
    match e
    case Begin(task) => Initial(task)
    case Advance(k) => k < |y.tasks| && (y.tasks[k].CreateCall? ==> y.tasks[k].g.id !in y.store.grants)
  }

  ghost function Next(y: System, e: Event): System
    requires Possible(y, e)
  {
    match e
    case Begin(task) => y.(tasks := y.tasks + [task])
    case Advance(k) =>
      var o := Perform(y.store, y.tasks[k]);
      System(o.store, y.tasks[k := o.next], y.history + o.effects)
  }

  ghost predicate Schedule(y: System, events: seq<Event>)
    decreases |events|
  {
    |events| > 0 ==> Possible(y, events[0]) && Schedule(Next(y, events[0]), events[1..])
  }

  ghost function After(y: System, events: seq<Event>): System
    requires Schedule(y, events)
    decreases |events|
  {
    if |events| == 0 then y else After(Next(y, events[0]), events[1..])
  }

  // ---------------------------------------------------------------- what holds at every moment

  // A grant that is approved now, whoever raced with whom.
  predicate ApprovedShape(g: Grant) {
    g.status.Approved? ==>
      && g.request.grantType.Some? && g.decidedAt.Some?
      && (SingleUse(g.request) ==> g.request.grantType == Some(Once))
      && (g.request.grantType == Some(Timed) ==>
            g.request.duration.Some? && g.request.duration.value != 0
            && g.expiresAt == Some(g.decidedAt.value + g.request.duration.value))
  }

  ghost predicate StoreOk(s: Store) {
    Keyed(s) && forall id :: id in s.grants ==> StoredOk(s.grants[id])
  }

  predicate StoredOk(g: Grant) {
    (g.request.reference.Some? ==> ExactCommand(g.request)) && ApprovedShape(g)
  }

  // An update that was decided on earlier still fits the grant: it names the same requester
  // and reference, and an approval carries everything an approved grant needs.
  predicate UpdateFits(s: Store, id: string, status: Status, extra: Extra) {
    && id in s.grants
    && (extra.request.Some? ==> extra.request.value.requester == s.grants[id].request.requester
                                && extra.request.value.reference == s.grants[id].request.reference)
    && (status.Approved? ==> extra.request.Some? && extra.decidedAt.Some?
                             && ApprovedShape(Updated(s.grants[id], Approved, extra))
                             && (extra.request.value.grantType == Some(Timed) ==> extra.expiresAt.Some?))
  }

  predicate PendingFits(s: Store, g: Grant) {
    && g.id in s.grants && g.request.requester == s.grants[g.id].request.requester
    && g.request.reference.None? && s.grants[g.id].request.reference.None?
  }

  predicate TaskOk(s: Store, t: Task) {
    match t
    case CreateCall(g) => g.status.Pending? && g.decidedAt.None? && g.expiresAt.None?
    case RevokeRead(_, next) => TaskOk(s, next)
    case UpdateCall(id, status, extra, next) => UpdateFits(s, id, status, extra) && TaskOk(s, next)
    case ExtendFind(pending, _, _, _) => PendingFits(s, pending)
    case WithdrawFind(key, _, _) => key != ""
    case _ => true
  }

  ghost predicate Binds(s: Store, t: Store) {
    forall id :: id in s.grants ==> id in t.grants && SameBinding(s.grants[id], t.grants[id])
  }

  lemma SelfBinds(s: Store)
    ensures Binds(s, s)
  {
  }

  // An approval decided on one state of a grant fits every later state of it.
  lemma UpdateFitsLater(s: Store, u: Store, id: string, status: Status, extra: Extra)
    requires UpdateFits(s, id, status, extra) && Binds(s, u)
    ensures UpdateFits(u, id, status, extra)
  {
    assert SameBinding(s.grants[id], u.grants[id]);
    hide SingleUse;
  }

  lemma {:induction false} TaskOkLater(s: Store, u: Store, t: Task)
    requires TaskOk(s, t) && Binds(s, u)
    ensures TaskOk(u, t)
  {
    match t
    case RevokeRead(_, next) => TaskOkLater(s, u, next);
    case UpdateCall(id, status, extra, next) =>
      UpdateFitsLater(s, u, id, status, extra);
      TaskOkLater(s, u, next);
    case ExtendFind(pending, _, _, _) => assert SameBinding(s.grants[pending.id], u.grants[pending.id]);
    case _ =>
  }

  // ---------------------------------------------------------------- steps keep the invariant

  lemma UpdateStep(s: Store, id: string, status: Status, extra: Extra)
    requires StoreOk(s) && UpdateFits(s, id, status, extra) && s.UpdateStatus(id, status, extra).Ok?
    ensures var u := s.UpdateStatus(id, status, extra).value; StoreOk(u) && Binds(s, u)
  {
    var g, h := s.grants[id], Updated(s.grants[id], status, extra);
    StoredReference(s, id);
    UpdatedBinding(g, status, extra);
    UpdatedIsOk(g, status, extra);
    ReplaceKeepsKeyed(s, id, h);
    SelfBinds(s);
    hide Keyed, StoredOk, SameBinding, UpdateFits, SameReferenced;
  }

  lemma StoredReference(s: Store, id: string)
    requires StoreOk(s) && id in s.grants
    ensures Referenced(s.grants[id].request) <==> s.grants[id].request.reference.Some?
  {
    assert StoredOk(s.grants[id]);
  }

  lemma UpdatedIsOk(g: Grant, status: Status, extra: Extra)
    requires StoredOk(g) && SameBinding(g, Updated(g, status, extra))
    requires status.Approved? ==> extra.request.Some? && ApprovedShape(Updated(g, Approved, extra))
    ensures StoredOk(Updated(g, status, extra))
  {
    hide SingleUse;
  }

  lemma WithdrawStep(s: Store, id: string, reason: Option<string>, now: int)
    requires StoreOk(s)
    ensures StoreOk(s.Withdraw(id, now, reason).0) && Binds(s, s.Withdraw(id, now, reason).0)
  {
    SelfBinds(s);
    if id in s.grants && Withdrawable(s.grants[id]) {
      var h := WithdrawnAs(s.grants[id], now, reason);
      assert StoredOk(s.grants[id]);
      assert SameBinding(s.grants[id], h) && StoredOk(h);
      ReplaceKeepsKeyed(s, id, h);
      hide Keyed, StoredOk, SameBinding;
    }
  }

  lemma ClaimStep(s: Store, id: string, usedAt: int)
    requires StoreOk(s)
    ensures StoreOk(s.ClaimOnce(id, usedAt).0) && Binds(s, s.ClaimOnce(id, usedAt).0)
  {
    SelfBinds(s);
    if id in s.grants && s.grants[id].status.Approved? {
      var h := s.grants[id].(status := Used, usedAt := Some(usedAt));
      assert StoredOk(s.grants[id]);
      assert SameBinding(s.grants[id], h) && StoredOk(h);
      ReplaceKeepsKeyed(s, id, h);
      hide Keyed, StoredOk, SameBinding;
    }
  }

  lemma CreationStep(s: Store, g: Grant)
    requires StoreOk(s) && g.id !in s.grants && g.status.Pending?
    ensures StoreOk(CreateStep(s, g)) && Binds(s, CreateStep(s, g))
  {
    hide Keyed, StoredOk, SameBinding, KeyOf, FirstOf, ExactCommand;
    forall id | id in s.grants ensures SameBinding(s.grants[id], s.grants[id]) { BindingReflexive(s.grants[id]); }
    if CreateStep(s, g) == s.Put(g) {
      PutKeepsKeyed(s, g);
      if g.request.reference.None? || ExactCommand(g.request) { NewIsOk(g); }
    }
  }

  lemma NewIsOk(g: Grant)
    requires g.status.Pending? && (g.request.reference.Some? ==> ExactCommand(g.request))
    ensures StoredOk(g)
  {
  }

  // What a read leads to fits the store it was made in.
  lemma ReadStep(s: Store, t: Task)
    requires StoreOk(s) && TaskOk(s, t)
    requires || t.ApproveRead? || t.DenyRead? || t.RevokeRead? || t.IntrospectRead?
             || t.UseRead? || t.UseReread? || t.ExtendRead? || t.WidenRead?
    requires t.id in s.grants
    ensures TaskOk(s, AfterRead(s.grants[t.id], t))
  {
    var g := s.grants[t.id];
    StoredReference(s, t.id);
    assert g.id == t.id;
    hide StoreOk, TaskOk, AfterRead, Referenced;
    if t.ApproveRead? {
      ApproveReadFits(s, g, t);
    } else if t.ExtendRead? {
      ExtendReadFits(s, g, t);
    } else if t.WidenRead? {
      WidenOnFits(s, g, t.who, t.now, t.widened, t.grantType, t.duration);
      assert AfterRead(g, t) == WidenOn(g, t.who, t.now, t.widened, t.grantType, t.duration) by {
        AfterWidenRead(g, t);
      }
    } else {
      PlainReadFits(s, g, t);
    }
  }

  lemma AfterWidenRead(g: Grant, t: Task)
    requires t.WidenRead?
    ensures AfterRead(g, t) == WidenOn(g, t.who, t.now, t.widened, t.grantType, t.duration)
  {
    hide WidenOn;
  }

  lemma ApproveReadFits(s: Store, g: Grant, t: Task)
    requires t.ApproveRead? && g.id in s.grants && s.grants[g.id] == g
    ensures TaskOk(s, AfterRead(g, t))
  {
    ApprovalFits(s, g, t.who, t.now, t.overrides);
    hide ApprovalOf, UpdateFits;
  }

  lemma ExtendReadFits(s: Store, g: Grant, t: Task)
    requires t.ExtendRead? && g.id in s.grants && s.grants[g.id] == g
             && (Referenced(g.request) <==> g.request.reference.Some?)
    ensures TaskOk(s, AfterRead(g, t))
  {
    if g.request.reference.None? { ExtendOnFits(s, g, [], t.ids, t.extension); }
    hide ExtendOn, SingleUse;
  }

  lemma PlainReadFits(s: Store, g: Grant, t: Task)
    requires g.id in s.grants && s.grants[g.id] == g && TaskOk(s, t)
    requires t.DenyRead? || t.RevokeRead? || t.IntrospectRead? || t.UseRead? || t.UseReread?
    ensures TaskOk(s, AfterRead(g, t))
  {
    hide IsGrantExpired, ApprovalOf, ExtendOn, WidenOn, SingleUse, ApprovedShape;
  }

  lemma WidenOnFits(s: Store, g: Grant, who: string, now: int, widened: seq<Detail>, grantType: Option<GrantType>,
                    duration: Option<int>)
    requires g.id in s.grants && s.grants[g.id] == g && (Referenced(g.request) <==> g.request.reference.Some?)
    ensures TaskOk(s, WidenOn(g, who, now, widened, grantType, duration))
  {
    hide NormalizedWidenings, CliDetails, DetailsOf, SingleUse, StoredPermissions, Referenced;
  }

  lemma ApprovalFits(s: Store, g: Grant, who: string, now: int, o: Overrides)
    requires g.id in s.grants && s.grants[g.id] == g
    ensures ApprovalOf(g, who, now, o).Ok? ==> UpdateFits(s, g.id, Approved, ApprovalOf(g, who, now, o).value)
  {
    var approval := ApprovalOf(g, who, now, o);
    if approval.Ok? {
      var h := Updated(g, Approved, approval.value);
      SingleUseOfDetails(h.request, g.request);
      hide SingleUse;
    }
  }

  lemma ExtendOnFits(s: Store, pending: Grant, olds: seq<Grant>, ids: seq<string>, x: Extension)
    requires PendingFits(s, pending)
    ensures TaskOk(s, ExtendOn(pending, olds, ids, x))
  {
    hide Merged, Candidates, Permissions, CliDetails, DetailsOf;
    RevokeAllFits(s, olds, ApproveRead(pending.id, x.who, x.now, Overrides(x.grantType, x.duration, None, [])));
    hide RevokeAll;
  }

  lemma {:induction false} RevokeAllFits(s: Store, olds: seq<Grant>, approval: Task)
    requires TaskOk(s, approval)
    ensures TaskOk(s, RevokeAll(olds, approval))
    decreases |olds|
  {
    if |olds| > 0 { RevokeAllFits(s, olds[1..], approval); }
  }

  // Every store call keeps the store well-formed and bound, and leads to a fitting task.
  lemma PerformKeeps(s: Store, t: Task)
    requires StoreOk(s) && TaskOk(s, t) && (t.CreateCall? ==> t.g.id !in s.grants)
    ensures var o := Perform(s, t); StoreOk(o.store) && Binds(s, o.store) && TaskOk(o.store, o.next)
  {
    SelfBinds(s);
    hide StoreOk, Binds, SameBinding, UpdateFits, PendingFits, FindByKey, CreateStep, AfterRead;
    hide Store.UpdateStatus, Store.Withdraw, Store.ClaimOnce;
    match t
    case CreateCall(g) => CreationStep(s, g);
    case ExtendFind(pending, olds, ids, x) =>
      if |ids| > 0 && ids[0] in s.grants { ExtendOnFits(s, pending, olds + [s.grants[ids[0]]], ids[1..], x); }
    case UpdateCall(id, status, extra, next) =>
      if s.UpdateStatus(id, status, extra).Ok? {
        UpdateStep(s, id, status, extra);
        TaskOkLater(s, s.UpdateStatus(id, status, extra).value, next);
      }
    case UseClaim(id, usedAt) => ClaimStep(s, id, usedAt);
    case WithdrawFind(key, reason, now) =>
    case WithdrawCall(id, reason, now) => WithdrawStep(s, id, reason, now);
    case ConsumeCall(id, jti) => ConsumeStep(s, id, jti);
    case Finished =>
    case _ => if t.id in s.grants { ReadStep(s, t); }
  }

  lemma ConsumeStep(s: Store, id: string, jti: string)
    requires StoreOk(s)
    ensures StoreOk(s.MarkConsumed(id, jti).0) && Binds(s, s.MarkConsumed(id, jti).0)
  {
  }

  // ---------------------------------------------------------------- accounting

  function Now(s: Store, id: string): nat {
    if id in s.grants && s.grants[id].status.Approved? then 1 else 0
  }

  function Consumed(s: Store, id: string): nat {
    if id in s.consumed then 1 else 0
  }

  // Spending and withdrawing use up the approval that is in the store; only an approval
  // write puts one there.
  lemma PerformAccounts(s: Store, t: Task, id: string)
    requires t.CreateCall? ==> t.g.id !in s.grants && t.g.status.Pending?
    ensures var o := Perform(s, t);
            && o.effects[Claim(id)] + o.effects[WithdrawalOfApproved(id)] + Now(o.store, id)
               <= o.effects[Approval(id)] + Now(s, id)
            && o.effects[Consumption(id)] + Consumed(s, id) == Consumed(o.store, id)
  {
    hide AfterRead, FindByKey, FirstOf, ExactCommand, SameReferenced, KeyOf;
  }

  ghost predicate Accounts(y: System, id: string) {
    && y.history[Claim(id)] + y.history[WithdrawalOfApproved(id)] + Now(y.store, id) <= y.history[Approval(id)]
    && y.history[Consumption(id)] == Consumed(y.store, id)
  }

  ghost predicate SystemOk(y: System) {
    && StoreOk(y.store)
    && (forall k :: 0 <= k < |y.tasks| ==> TaskOk(y.store, y.tasks[k]))
    && forall id :: Accounts(y, id)
  }

  lemma NextKeeps(y: System, e: Event)
    requires SystemOk(y) && Possible(y, e)
    ensures SystemOk(Next(y, e)) && Binds(y.store, Next(y, e).store)
  {
    hide StoreOk, Binds, Perform;
    match e
    case Begin(task) =>
      SelfBinds(y.store);
      InitialIsOk(y.store, task);
      hide TaskOk, Accounts;
      assert forall id :: Accounts(y, id) == Accounts(Next(y, e), id) by { AccountsOfSame(y, Next(y, e)); }
    case Advance(k) =>
      var t, z := y.tasks[k], Next(y, e);
      assert TaskOk(y.store, t);
      PerformKeeps(y.store, t);
      forall j | 0 <= j < |z.tasks| ensures TaskOk(z.store, z.tasks[j]) {
        if j != k { TaskOkLater(y.store, z.store, y.tasks[j]); }
      }
      forall id ensures Accounts(z, id) {
        assert Accounts(y, id);
        PerformAccounts(y.store, t, id);
      }
  }

  lemma AccountsOfSame(y: System, z: System)
    requires y.store == z.store && y.history == z.history
    ensures forall id :: Accounts(y, id) == Accounts(z, id)
  {
  }

  lemma InitialIsOk(s: Store, t: Task)
    requires Initial(t)
    ensures TaskOk(s, t)
  {
  }

  lemma StartIsOk()
    ensures SystemOk(START)
  {
  }

  // At every moment of every interleaving the invariant holds, and what a grant is bound to
  // has not changed since it was created.
  lemma {:induction false} InterleavingKeeps(y: System, events: seq<Event>)
    requires SystemOk(y) && Schedule(y, events)
    ensures SystemOk(After(y, events)) && Binds(y.store, After(y, events).store)
    decreases |events|
  {
    hide SystemOk, SameBinding;
    if |events| == 0 {
      forall id | id in y.store.grants
        ensures SameBinding(y.store.grants[id], y.store.grants[id])
      {
        BindingReflexive(y.store.grants[id]);
      }
    } else {
      NextKeeps(y, events[0]);
      var z := Next(y, events[0]);
      InterleavingKeeps(z, events[1..]);
      var w := After(y, events);
      forall id | id in y.store.grants
        ensures id in w.store.grants && SameBinding(y.store.grants[id], w.store.grants[id])
      {
        BindingTransitive(y.store.grants[id], z.store.grants[id], w.store.grants[id]);
      }
    }
  }

  // Per grant: successful claims, withdrawals out of `approved` and the approval that is
  // still there never exceed the approval writes, so a grant approved once is spent at most
  // once; its redemption is recorded at most once.
  lemma SpentAtMostOncePerApproval(events: seq<Event>, id: string)
    requires Schedule(START, events)
    ensures var y := After(START, events);
            && y.history[Claim(id)] + y.history[WithdrawalOfApproved(id)] + Now(y.store, id) <= y.history[Approval(id)]
            && y.history[Consumption(id)] <= 1
  {
    StartIsOk();
    InterleavingKeeps(START, events);
    assert Accounts(After(START, events), id);
  }

  // However operations interleave: a reference key names at most one grant, an approved
  // grant is well-shaped, and submitting a known reference again returns the grant that was
  // created for it, or a conflict if it asks for another authority.
  lemma ReferencesStayBound(y: System, events: seq<Event>, id: string, again: Grant)
    requires SystemOk(y) && Schedule(y, events) && id in y.store.grants
    requires ExactCommand(again.request) && HasKey(y.store.grants[id], GrantKey(again))
    ensures var s := After(y, events).store;
            && id in s.grants && ApprovedShape(s.grants[id]) && ExactCommand(s.grants[id].request)
            && s.CreateReferenced(again)
               == if AuthorityOf(y.store.grants[id].request) == AuthorityOf(again.request)
                  then Ok(Creation(s, s.grants[id], false)) else Err(ReferenceConflict)
  {
    KeyDecidesReference(y.store.grants[id], again);
    hide Keyed, FirstOf, KeyOf, ExactCommand, After, Schedule, TaskOk, Accounts;
    InterleavingKeeps(y, events);
    var s := After(y, events).store;
    SameKey(y.store.grants[id], s.grants[id]);
    FirstOfUnique(s, id, GrantKey(again));
    ExactIsReferenced(again.request);
    assert StoredOk(s.grants[id]);
  }

  // ---------------------------------------------------------------- two races

  ghost predicate Reachable(y: System) {
    exists events :: Schedule(START, events) && After(START, events) == y
  }

  lemma {:induction false} AfterAppend(y: System, events: seq<Event>, e: Event)
    requires Schedule(y, events) && Possible(After(y, events), e)
    ensures Schedule(y, events + [e]) && After(y, events + [e]) == Next(After(y, events), e)
    decreases |events|
  {
    hide Next, Possible;
    if |events| == 0 {
      assert events + [e] == [e] && [e][1..] == [];
    } else {
      assert (events + [e])[1..] == events[1..] + [e];
      AfterAppend(Next(y, events[0]), events[1..], e);
    }
  }

  lemma ReachNext(y: System, e: Event)
    requires Reachable(y) && Possible(y, e)
    ensures Reachable(Next(y, e))
  {
    hide Next, Possible, Schedule, After;
    var events :| Schedule(START, events) && After(START, events) == y;
    AfterAppend(START, events, e);
  }

  lemma ReachStart()
    ensures Reachable(START)
  {
    assert Schedule(START, []) && After(START, []) == START;
  }

  // Start a task and let it make its first call.
  lemma Launch(y: System, t: Task) returns (z: System)
    requires Reachable(y) && Initial(t) && (t.CreateCall? ==> t.g.id !in y.store.grants)
    ensures Reachable(z)
    ensures var o := Perform(y.store, t);
            z == System(o.store, y.tasks + [o.next], y.history + o.effects)
  {
    hide Reachable, Perform, Initial;
    ReachNext(y, Begin(t)) by { assert Possible(y, Begin(t)); }
    var x := Next(y, Begin(t));
    assert x.tasks[|y.tasks|] == t;
    ReachNext(x, Advance(|y.tasks|));
    z := Next(x, Advance(|y.tasks|));
    assert (y.tasks + [t])[|y.tasks| := Perform(y.store, t).next] == y.tasks + [Perform(y.store, t).next];
  }

  // Let a task that does not create make its next call.
  lemma Proceed(y: System, k: nat) returns (z: System)
    requires Reachable(y) && k < |y.tasks| && !y.tasks[k].CreateCall?
    ensures Reachable(z)
    ensures var o := Perform(y.store, y.tasks[k]);
            z == System(o.store, y.tasks[k := o.next], y.history + o.effects)
  {
    hide Reachable, Perform;
    ReachNext(y, Advance(k));
    z := Next(y, Advance(k));
  }

  function OnceRequest(): Request {
    Request("agent", "host", "apes", Some(Once), None, None, Some(["ls"]), None,
            None, None, None, None, None, None, None, Some("r"), None, None, None, None)
  }

  const ONCE_GRANT: Grant := NewGrant("g", OnceRequest(), 0)

  function ApprovalBy(who: string): Extra {
    Extra(Some(who), Some(1), None, Some(OnceRequest()))
  }

  lemma OnceGrantIsCreated()
    ensures CreateStep(EMPTY_STORE, ONCE_GRANT) == Store(map["g" := ONCE_GRANT], ["g"], map[])
  {
    assert ExactCommand(OnceRequest());
  }

  lemma ApprovalReads(s: Store, who: string)
    requires "g" in s.grants && s.grants["g"] == ONCE_GRANT
    ensures Perform(s, ApproveRead("g", who, 1, NO_OVERRIDES))
            == Read(s, UpdateCall("g", Approved, ApprovalBy(who), Finished))
  {
    var o := NO_OVERRIDES;
    assert !SingleUse(OnceRequest());
    assert EffectiveType(OnceRequest(), o) == Once;
  }

  // Two approvals that both read the grant while it was pending.
  lemma TwoApprovalsPending() returns (y: System)
    ensures Reachable(y) && y.history == multiset{}
    ensures y.store == With(ONCE_GRANT)
    ensures y.tasks == [Finished, UpdateCall("g", Approved, ApprovalBy("a"), Finished),
                        UpdateCall("g", Approved, ApprovalBy("b"), Finished)]
  {
    hide Reachable;
    ReachStart();
    OnceGrantIsCreated();
    y := Launch(START, CreateCall(ONCE_GRANT));
    assert y.store == With(ONCE_GRANT);
    ApprovalReads(y.store, "a");
    ApprovalReads(y.store, "b");
    hide Perform;
    y := Launch(y, ApproveRead("g", "a", 1, NO_OVERRIDES));
    y := Launch(y, ApproveRead("g", "b", 1, NO_OVERRIDES));
  }

  // The store with the one grant, in a given state.
  function With(g: Grant): Store {
    Store(map["g" := g], ["g"], map[])
  }

  predicate IsOnce(g: Grant) {
    g.id == "g" && g.request == OnceRequest() && g.brokered.None?
  }

  lemma ApprovalWrites(g: Grant, who: string)
    requires IsOnce(g)
    ensures var h := Updated(g, Approved, ApprovalBy(who));
            && IsOnce(h) && h.status.Approved?
            && Perform(With(g), UpdateCall("g", Approved, ApprovalBy(who), Finished))
               == Outcome(With(h), Finished, multiset{Approval("g")})
  {
    hide KeyOf;
  }

  lemma UseSpends(g: Grant, at: int)
    requires IsOnce(g) && g.status.Approved?
    ensures Initial(UseRead("g", at, at))
    ensures Perform(With(g), UseRead("g", at, at)) == Outcome(With(g), UseClaim("g", at), multiset{})
    ensures Perform(With(g), UseClaim("g", at))
            == Outcome(With(g.(status := Used, usedAt := Some(at))), Finished, multiset{Claim("g")})
    ensures IsOnce(g.(status := Used, usedAt := Some(at)))
  {
  }

  lemma OnceStore(g: Grant)
    ensures "g" in With(g).grants && With(g).grants["g"] == g
    ensures IsOnce(ONCE_GRANT)
  {
  }

  // Approving is not conditional on `pending`: a second approval that was decided before the
  // first one was written lets a once grant be spent twice.
  lemma RacingApprovalsSpendTwice()
    ensures exists y :: Reachable(y) && y.history[Claim("g")] == 2 && "g" in y.store.grants
                        && IsOnce(y.store.grants["g"])
  {
    hide *;
    var y := TwoApprovalsPending();
    var first := Updated(ONCE_GRANT, Approved, ApprovalBy("a"));
    OnceStore(ONCE_GRANT);
    ApprovalWrites(ONCE_GRANT, "a");
    y := Proceed(y, 1);
    UseSpends(first, 2);
    y := Launch(y, UseRead("g", 2, 2));
    y := Proceed(y, 3);
    var used := first.(status := Used, usedAt := Some(2));
    ApprovalWrites(used, "b");
    y := Proceed(y, 2);
    var second := Updated(used, Approved, ApprovalBy("b"));
    UseSpends(second, 3);
    y := Launch(y, UseRead("g", 3, 3));
    y := Proceed(y, 4);
    OnceStore(second.(status := Used, usedAt := Some(3)));
  }

  // A withdrawal that was answered does not stay: a stale approval revives the grant.
  lemma StaleApprovalRevives()
    ensures exists y :: Reachable(y) && y.history[WithdrawalOfApproved("g")] == 1
                        && "g" in y.store.grants && y.store.grants["g"].status.Approved?
  {
    hide Reachable, Perform, Updated, ApprovalBy, FindByKey, KeyOf;
    assert ONCE_GRANT.request.reference.Some?;
    hide OnceRequest;
    var y := TwoApprovalsPending();
    var first := Updated(ONCE_GRANT, Approved, ApprovalBy("a"));
    ApprovalWrites(ONCE_GRANT, "a");
    y := Proceed(y, 1);
    FindsTheGrant(first, GrantKey(ONCE_GRANT));
    WithdrawSettles(first);
    y := Launch(y, WithdrawFind(GrantKey(ONCE_GRANT), None, 2));
    y := Proceed(y, 3);
    var withdrawn := WithdrawnAs(first, 2, None);
    ApprovalWrites(withdrawn, "b");
    y := Proceed(y, 2);
  }

  lemma FindsTheGrant(g: Grant, key: string)
    requires IsOnce(g) && g.status.Approved? && key == GrantKey(ONCE_GRANT)
    ensures key != ""
    ensures Perform(With(g), WithdrawFind(key, None, 2)) == Outcome(With(g), WithdrawCall("g", None, 2), multiset{})
  {
    KeyIsFound(With(g), key);
    hide FindByKey, KeyOf;
  }

  lemma WithdrawSettles(g: Grant)
    requires IsOnce(g) && g.status.Approved?
    ensures Perform(With(g), WithdrawCall("g", None, 2))
            == Outcome(With(WithdrawnAs(g, 2, None)), Finished, multiset{WithdrawalOfApproved("g")})
    ensures IsOnce(WithdrawnAs(g, 2, None))
  {
  }

  lemma KeyIsFound(s: Store, key: string)
    requires s.order == ["g"] && s.grants.Keys == {"g"} && s.grants["g"].id == "g"
    requires key == GrantKey(ONCE_GRANT) && HasKey(s.grants["g"], key)
    ensures key != "" && FindByKey(s, key) == Some(s.grants["g"])
  {
    assert key[0] == '[';
    assert Coherent(s);
    FindByKeyFacts(s, key);
    hide FindByKey, HasKey;
    assert "g" in s.grants;
  }
}
