// Every interleaved operation, run without interruption, is the operation that runs as one
// program (packages/grants/src/grants.ts, packages/grants/src/grant-withdraw.ts).
module GrantAlone {
  import opened Wrappers
  import opened CliPermissions
  import opened GrantStore
  import opened GrantOperations
  import opened GrantRuns
  import opened GrantInterleaving

  // The first call of the store of each operation. A delegation is a creation and an approval.
  function TaskOf(op: Op): Task
    requires !op.DoDelegate?
  {
    match op
    case DoCreate(id, request, at) => CreateCall(NewGrant(id, request, at))
    case DoCreateBrokered(id, request, b, at) =>
      // without a reference the insertion throws
      if request.reference.None? then GrantInterleaving.Finished
      else CreateCall(NewGrant(id, request, at).(brokered := Some(b)))
    case DoApprove(id, who, now, overrides) => ApproveRead(id, who, now, overrides)
    case DoDeny(id, who, now) => DenyRead(id, who, now)
    case DoRevoke(id) => RevokeRead(id, GrantInterleaving.Finished)
    case DoIntrospect(id, now) => IntrospectRead(id, now)
    case DoUse(id, now, usedAt) => UseRead(id, now, usedAt)
    case DoExtend(id, who, now, mode, ids, grantType, duration) =>
      ExtendRead(id, ids, Extension(who, now, mode, grantType, duration))
    case DoApproveWidened(id, who, now, widened, grantType, duration) =>
      WidenRead(id, who, now, widened, grantType, duration)
    case DoWithdraw(key, reason, now) => WithdrawFind(key, reason, now)
    case DoMarkConsumed(id, jti) => ConsumeCall(id, jti)
  }

  ghost predicate Named(s: Store) {
    forall id :: id in s.grants ==> s.grants[id].id == id
  }

  // ---------------------------------------------------------------- runs without interruption

  // The store after n calls, and what is left to do.
  ghost function Alone(s: Store, t: Task, n: nat): (Store, Task)
    decreases n
  {
    if n == 0 then (s, t) else Alone(Perform(s, t).store, Perform(s, t).next, n - 1)
  }

  // Nothing is left to do after some calls, and this is the store.
  ghost predicate Ends(s: Store, t: Task, u: Store) {
    exists n: nat :: Alone(s, t, n) == (u, GrantInterleaving.Finished)
  }

  lemma OverNow(s: Store)
    ensures Ends(s, GrantInterleaving.Finished, s)
  {
    assert Alone(s, GrantInterleaving.Finished, 0) == (s, GrantInterleaving.Finished);
  }

  lemma OneCall(s: Store, t: Task, u: Store)
    requires Ends(Perform(s, t).store, Perform(s, t).next, u)
    ensures Ends(s, t, u)
  {
    hide Perform;
    var n: nat :| Alone(Perform(s, t).store, Perform(s, t).next, n) == (u, GrantInterleaving.Finished);
    assert Alone(s, t, n + 1) == (u, GrantInterleaving.Finished);
  }

  // A call after which nothing is left to do.
  lemma LastCall(s: Store, t: Task)
    requires Perform(s, t).next == GrantInterleaving.Finished
    ensures Ends(s, t, Perform(s, t).store)
  {
    hide Perform, Ends;
    OverNow(Perform(s, t).store);
    OneCall(s, t, Perform(s, t).store);
  }

  // ---------------------------------------------------------------- a read and a write

  lemma MissingEnds(s: Store, t: Task)
    requires t.ApproveRead? || t.DenyRead? || t.RevokeRead? || t.IntrospectRead? || t.UseRead? || t.ExtendRead?
             || t.WidenRead?
    requires t.id !in s.grants
    ensures Ends(s, t, s)
  {
    hide AfterRead, Ends;
    LastCall(s, t);
  }

  // A task that reads a grant goes on as it decides.
  lemma ReadThen(s: Store, t: Task, u: Store)
    requires t.ApproveRead? || t.DenyRead? || t.RevokeRead? || t.IntrospectRead? || t.UseRead? || t.UseReread?
             || t.ExtendRead? || t.WidenRead?
    requires t.id in s.grants && Ends(s, AfterRead(s.grants[t.id], t), u)
    ensures Ends(s, t, u)
  {
    hide AfterRead, Ends;
    assert Perform(s, t) == Read(s, AfterRead(s.grants[t.id], t));
    OneCall(s, t, u);
  }

  lemma WriteThen(s: Store, id: string, status: Status, extra: Extra, next: Task, u: Store)
    requires match s.UpdateStatus(id, status, extra)
             case Ok(t) => Ends(t, next, u)
             case Err(_) => u == s
    ensures Ends(s, UpdateCall(id, status, extra, next), u)
  {
    hide Ends, Store.UpdateStatus;
    var t := UpdateCall(id, status, extra, next);
    if s.UpdateStatus(id, status, extra).Ok? { OneCall(s, t, u); } else { LastCall(s, t); }
  }

  // A decision that is written last.
  lemma DecideEnds(s: Store, id: string, status: Status, extra: Extra)
    ensures Ends(s, UpdateCall(id, status, extra, GrantInterleaving.Finished), Decide(s, id, status, extra).0)
  {
    hide Ends, Store.UpdateStatus;
    if s.UpdateStatus(id, status, extra).Ok? { OverNow(s.UpdateStatus(id, status, extra).value); }
    WriteThen(s, id, status, extra, GrantInterleaving.Finished, Decide(s, id, status, extra).0);
  }

  // ---------------------------------------------------------------- single operations

  lemma ApprovalAlone(s: Store, id: string, who: string, now: int, o: Overrides)
    requires Named(s)
    ensures Ends(s, ApproveRead(id, who, now, o), Approve(s, id, who, now, o).0)
  {
    hide Ends, ApprovalOf, Decide;
    var t := ApproveRead(id, who, now, o);
    if id !in s.grants {
      MissingEnds(s, t);
    } else {
      match ApprovalOf(s.grants[id], who, now, o)
      case Ok(extra) =>
        DecideEnds(s, id, Approved, extra);
        ReadThen(s, t, Decide(s, id, Approved, extra).0);
      case Err(_) =>
        OverNow(s);
        ReadThen(s, t, s);
    }
  }

  lemma DenialAlone(s: Store, id: string, who: string, now: int)
    requires Named(s)
    ensures Ends(s, DenyRead(id, who, now), Deny(s, id, who, now).0)
  {
    hide Ends, Decide;
    var t := DenyRead(id, who, now);
    if id !in s.grants {
      MissingEnds(s, t);
    } else {
      OverNow(s);
      DecideEnds(s, id, Denied, NO_EXTRA.(decidedBy := Some(who), decidedAt := Some(now)));
      ReadThen(s, t, Deny(s, id, who, now).0);
    }
  }

  lemma IntrospectionAlone(s: Store, id: string, now: int)
    requires Named(s)
    ensures Ends(s, IntrospectRead(id, now), Introspect(s, id, now).0)
  {
    hide Ends, Decide, IsGrantExpired;
    var t := IntrospectRead(id, now);
    if id !in s.grants {
      MissingEnds(s, t);
    } else {
      OverNow(s);
      DecideEnds(s, id, Expired, NO_EXTRA);
      ReadThen(s, t, Introspect(s, id, now).0);
    }
  }

  // ---------------------------------------------------------------- use

  // What a use does with the grant it has read.
  lemma UseDecided(s: Store, id: string, usedAt: int)
    requires Named(s) && id in s.grants
    ensures var g := s.grants[id];
            Ends(s, UseDecision(g, usedAt),
                 if g.status.Approved? && g.request.grantType == Some(Once) then s.ClaimOnce(id, usedAt).0 else s)
  {
    hide Ends;
    OverNow(s);
    LastCall(s, UseClaim(id, usedAt));
  }

  lemma ExpiredStays(s: Store, id: string)
    requires Named(s) && id in s.grants
    ensures s.UpdateStatus(id, Expired, NO_EXTRA).Ok?
    ensures var t := s.UpdateStatus(id, Expired, NO_EXTRA).value;
            Named(t) && id in t.grants && t.grants[id] == s.grants[id].(status := Expired)
  {
  }

  lemma UseAlone(s: Store, id: string, now: int, usedAt: int)
    requires Named(s)
    ensures Ends(s, UseRead(id, now, usedAt), Use(s, id, now, usedAt).0)
  {
    var t := UseRead(id, now, usedAt);
    hide Ends, IsGrantExpired, Store.UpdateStatus, Store.ClaimOnce, UseDecision;
    if id !in s.grants {
      MissingEnds(s, t);
    } else if IsGrantExpired(s.grants[id], now) {
      ExpiredStays(s, id);
      var expired := s.UpdateStatus(id, Expired, NO_EXTRA).value;
      UseDecided(expired, id, usedAt);
      ReadThen(expired, UseReread(id, usedAt), expired);
      WriteThen(s, id, Expired, NO_EXTRA, UseReread(id, usedAt), expired);
      ReadThen(s, t, expired);
    } else {
      UseDecided(s, id, usedAt);
      ReadThen(s, t, Use(s, id, now, usedAt).0);
    }
  }

  // ---------------------------------------------------------------- withdrawal

  lemma WithdrawalAlone(s: Store, key: string, reason: Option<string>, now: int)
    ensures Ends(s, WithdrawFind(key, reason, now), Withdraw(s, key, reason, now).0)
  {
    hide Ends, FindByKey, Store.Withdraw;
    var t, g := WithdrawFind(key, reason, now), FindByKey(s, key);
    if g.Some? && (g.value.status.Pending? || g.value.status.Approved?) {
      LastCall(s, WithdrawCall(g.value.id, reason, now));
      OneCall(s, t, s.Withdraw(g.value.id, now, reason).0);
    } else {
      LastCall(s, t);
    }
  }

  // ---------------------------------------------------------------- revocations in a row

  lemma RevokedOnce(s: Store, id: string)
    requires Named(s)
    ensures Named(Revoke(s, id).0)
    ensures Revoke(s, id).1.Ok? ==>
              id in s.grants && s.UpdateStatus(id, Revoked, NO_EXTRA) == Ok(Revoke(s, id).0)
              && (s.grants[id].status.Pending? || s.grants[id].status.Approved?)
    ensures Revoke(s, id).1.Err? ==>
              Revoke(s, id).0 == s
              && (id in s.grants ==> !s.grants[id].status.Pending? && !s.grants[id].status.Approved?)
  {
  }

  // One revocation, and what comes after it if it succeeds.
  lemma RevokeThen(s: Store, id: string, next: Task, u: Store)
    requires Named(s)
    requires if Revoke(s, id).1.Ok? then Ends(Revoke(s, id).0, next, u) else u == s
    ensures Ends(s, RevokeRead(id, next), u)
  {
    RevokedOnce(s, id);
    hide Ends, Revoke, Store.UpdateStatus;
    var t := RevokeRead(id, next);
    if id !in s.grants {
      MissingEnds(s, t);
    } else if Revoke(s, id).1.Ok? {
      WriteThen(s, id, Revoked, NO_EXTRA, next, u);
      ReadThen(s, t, u);
    } else {
      OverNow(s);
      ReadThen(s, t, s);
    }
  }

  lemma {:induction false} RevokeAllThen(s: Store, olds: seq<Grant>, approval: Task, u: Store)
    requires Named(s)
    requires match RevokeEach(s, olds)
             case (t, Some(_)) => u == t
             case (t, None) => Ends(t, approval, u)
    ensures Ends(s, RevokeAll(olds, approval), u)
    decreases |olds|
  {
    hide Ends, Revoke;
    if |olds| > 0 {
      var id := olds[0].id;
      RevokedOnce(s, id);
      if Revoke(s, id).1.Ok? { RevokeAllThen(Revoke(s, id).0, olds[1..], approval, u); }
      RevokeThen(s, id, RevokeAll(olds[1..], approval), u);
    }
  }

  lemma {:induction false} RevokedStayNamed(s: Store, olds: seq<Grant>)
    requires Named(s)
    ensures Named(RevokeEach(s, olds).0)
    decreases |olds|
  {
    hide Revoke, Named;
    if |olds| > 0 {
      RevokedOnce(s, olds[0].id);
      RevokedStayNamed(Revoke(s, olds[0].id).0, olds[1..]);
    }
  }

  // ---------------------------------------------------------------- extension and widening

  // The writes that an extension has decided on.
  lemma WritesAlone(s: Store, id: string, who: string, now: int, request: Request, olds: seq<Grant>,
                    grantType: Option<GrantType>, duration: Option<int>)
    requires Named(s)
    ensures Ends(s,
                 UpdateCall(id, Pending, NO_EXTRA.(request := Some(request)),
                            RevokeAll(olds, ApproveRead(id, who, now, Overrides(grantType, duration, None, [])))),
                 ApplyExtension(s, id, who, now, request, olds, grantType, duration).0)
  {
    var extra, o := NO_EXTRA.(request := Some(request)), Overrides(grantType, duration, None, []);
    var approval := ApproveRead(id, who, now, o);
    UpdateKeepsNames(s, id, Pending, extra);
    hide Ends, Store.UpdateStatus, RevokeEach, Approve, RevokeAll, Named;
    var u := ApplyExtension(s, id, who, now, request, olds, grantType, duration).0;
    if s.UpdateStatus(id, Pending, extra).Ok? {
      var t := s.UpdateStatus(id, Pending, extra).value;
      RevokedStayNamed(t, olds);
      ApprovalAlone(RevokeEach(t, olds).0, id, who, now, o);
      RevokeAllThen(t, olds, approval, u);
    }
    WriteThen(s, id, Pending, extra, RevokeAll(olds, approval), u);
  }

  lemma UpdateKeepsNames(s: Store, id: string, status: Status, extra: Extra)
    requires Named(s)
    ensures s.UpdateStatus(id, status, extra).Ok? ==> Named(s.UpdateStatus(id, status, extra).value)
  {
  }

  // The reads of an extension: it goes on to write if all grants fit, and stops otherwise.
  lemma {:induction false} FindThen(s: Store, pending: Grant, olds: seq<Grant>, ids: seq<string>, x: Extension,
                                    u: Store)
    requires match OldGrants(s, pending, ids)
             case Err(_) => u == s
             case Ok(more) => Ends(s, ExtendOn(pending, olds + more, [], x), u)
    ensures Ends(s, ExtendOn(pending, olds, ids, x), u)
    decreases |ids|
  {
    hide Ends, Extendable;
    if |ids| == 0 {
      assert olds + [] == olds;
      assert ids == [];
    } else {
      var t := ExtendFind(pending, olds, ids, x);
      assert ExtendOn(pending, olds, ids, x) == t;
      hide ExtendOn;
      if ids[0] in s.grants && s.grants[ids[0]].status.Approved? && Extendable(s.grants[ids[0]], pending) {
        var g := s.grants[ids[0]];
        var rest := OldGrants(s, pending, ids[1..]);
        if rest.Ok? { assert olds + ([g] + rest.value) == (olds + [g]) + rest.value; }
        FindThen(s, pending, olds + [g], ids[1..], x, u);
        OneCall(s, t, u);
      } else {
        LastCall(s, t);
      }
    }
  }

  lemma ExtensionAlone(s: Store, id: string, who: string, now: int, mode: ExtendMode, ids: seq<string>,
                       grantType: Option<GrantType>, duration: Option<int>)
    requires Named(s)
    ensures Ends(s, ExtendRead(id, ids, Extension(who, now, mode, grantType, duration)),
                 Extend(s, id, who, now, mode, ids, grantType, duration).0)
  {
    var x := Extension(who, now, mode, grantType, duration);
    var t := ExtendRead(id, ids, x);
    hide Ends, SingleUse, OldGrants, ApplyExtension, ExtendedRequest;
    if id !in s.grants {
      MissingEnds(s, t);
    } else {
      var g := s.grants[id];
      var u := Extend(s, id, who, now, mode, ids, grantType, duration).0;
      if g.status.Pending? && !Referenced(g.request) && !SingleUse(g.request) {
        if OldGrants(s, g, ids).Ok? {
          var olds := OldGrants(s, g, ids).value;
          WritesAlone(s, id, who, now, ExtendedRequest(mode, g.request, olds), olds, grantType, duration);
          assert [] + olds == olds;
        }
        FindThen(s, g, [], ids, x, u);
      } else {
        OverNow(s);
      }
      ReadThen(s, t, u);
    }
  }

  lemma WideningAlone(s: Store, id: string, who: string, now: int, widened: seq<Detail>, grantType: Option<GrantType>,
                      duration: Option<int>)
    requires Named(s)
    ensures Ends(s, WidenRead(id, who, now, widened, grantType, duration),
                 ApproveWidened(s, id, who, now, widened, grantType, duration).0)
  {
    var t := WidenRead(id, who, now, widened, grantType, duration);
    hide Ends, SingleUse, NormalizedWidenings, CliDetails, ApplyExtension, StoredPermissions;
    if id !in s.grants {
      MissingEnds(s, t);
    } else {
      var g, originals := s.grants[id], CliDetails(DetailsOf(s.grants[id].request));
      if |originals| == |widened| && NormalizedWidenings(originals, widened).Ok? {
        var request := WidenedRequest(g.request, NormalizedWidenings(originals, widened).value);
        WritesAlone(s, id, who, now, request, [], grantType, duration);
      }
      OverNow(s);
      ReadThen(s, t, ApproveWidened(s, id, who, now, widened, grantType, duration).0);
    }
  }

  // ---------------------------------------------------------------- all operations

  // Run without interruption, every task leaves the store that its operation leaves.
  lemma AloneIsOperation(s: Store, op: Op)
    requires Named(s) && !op.DoDelegate?
    ensures Ends(s, TaskOf(op), Apply(s, op))
  {
    match op
    case DoApprove(id, who, now, o) => ApprovalAlone(s, id, who, now, o);
    case DoDeny(id, who, now) => DenialAlone(s, id, who, now);
    case DoRevoke(id) => RevocationAlone(s, id);
    case DoIntrospect(id, now) => IntrospectionAlone(s, id, now);
    case DoUse(id, now, usedAt) => UseAlone(s, id, now, usedAt);
    case DoExtend(id, who, now, mode, ids, grantType, duration) =>
      ExtensionAlone(s, id, who, now, mode, ids, grantType, duration);
    case DoApproveWidened(id, who, now, widened, grantType, duration) =>
      WideningAlone(s, id, who, now, widened, grantType, duration);
    case DoWithdraw(key, reason, now) => WithdrawalAlone(s, key, reason, now);
    case _ => OneCallOperation(s, op);
  }

  lemma RevocationAlone(s: Store, id: string)
    requires Named(s)
    ensures Ends(s, RevokeRead(id, GrantInterleaving.Finished), Revoke(s, id).0)
  {
    RevokedOnce(s, id);
    hide Ends, Revoke;
    OverNow(Revoke(s, id).0);
    RevokeThen(s, id, GrantInterleaving.Finished, Revoke(s, id).0);
  }

  lemma OneCallOperation(s: Store, op: Op)
    requires op.DoCreate? || op.DoCreateBrokered? || op.DoMarkConsumed?
    ensures Ends(s, TaskOf(op), Apply(s, op))
  {
    hide Ends, Store.CreateReferenced;
    match op
    case DoCreate(id, request, at) =>
      assert Perform(s, CreateCall(NewGrant(id, request, at))).store == Create(s, id, request, at).0;
      LastCall(s, TaskOf(op));
    case DoCreateBrokered(id, request, b, at) =>
      var g := NewGrant(id, request, at).(brokered := Some(b));
      if request.reference.None? {
        UnreferencedFails(s, g);
        OverNow(s);
      } else {
        assert Perform(s, CreateCall(g)).store == CreateBrokered(s, g);
        LastCall(s, TaskOf(op));
      }
    case DoMarkConsumed(id, jti) =>
      assert Perform(s, ConsumeCall(id, jti)).store == s.MarkConsumed(id, jti).0;
      LastCall(s, TaskOf(op));
  }

  lemma UnreferencedFails(s: Store, g: Grant)
    requires g.request.reference.None?
    ensures CreateBrokered(s, g) == s
  {
  }

  // A delegation is the creation of a grant for the delegate and then its approval by the
  // delegator.
  lemma DelegationAlone(s: Store, id: string, request: Request, at: nat, approvedAt: int)
    requires Named(s) && request.reference.None?
    ensures var g := NewGrant(id, request, at).(category := Some(Delegation));
            && Ends(s, CreateCall(g), s.Put(g))
            && Ends(s.Put(g), ApproveRead(id, request.requester, approvedAt, NO_OVERRIDES),
                    Delegate(s, id, request, at, approvedAt).0)
  {
    var g := NewGrant(id, request, at).(category := Some(Delegation));
    assert Named(s.Put(g)) && s.Save(g) == Ok(s.Put(g));
    assert Perform(s, CreateCall(g)).store == s.Put(g);
    hide Ends, Approve, Perform, Store.Save;
    LastCall(s, CreateCall(g));
    ApprovalAlone(s.Put(g), id, request.requester, approvedAt, NO_OVERRIDES);
  }
}
