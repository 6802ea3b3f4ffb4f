// Runs of uninterrupted grant operations: how statuses move, what an approved grant looks
// like, and what a reference stays bound to
// (packages/grants/src/grants.ts, packages/grants/src/stores.ts, packages/grants/src/grant-withdraw.ts).
module GrantRuns {
  import opened Wrappers
  import opened CliPermissions
  import opened CliWidening
  import opened GrantStore
  import opened GrantListing
  import opened GrantOperations
  import GrantReference

  datatype Op =
    | DoCreate(id: string, request: Request, at: nat)
    | DoCreateBrokered(id: string, request: Request, brokered: GrantReference.Brokered, at: nat)
    | DoDelegate(id: string, request: Request, at: nat, approvedAt: int)
    | DoApprove(id: string, who: string, now: int, overrides: Overrides)
    | DoDeny(id: string, who: string, now: int)
    | DoRevoke(id: string)
    | DoIntrospect(id: string, now: int)
    | DoUse(id: string, now: int, usedAt: int)
    | DoExtend(id: string, who: string, now: int, mode: ExtendMode, ids: seq<string>,
               grantType: Option<GrantType>, duration: Option<int>)
    | DoApproveWidened(id: string, who: string, now: int, widened: seq<Detail>,
                       grantType: Option<GrantType>, duration: Option<int>)
    | DoWithdraw(key: string, reason: Option<string>, now: int)
    | DoMarkConsumed(id: string, jti: string)

  // The insertion that the identity provider makes for a brokered requester.
  function CreateBrokered(s: Store, g: Grant): Store {
    match s.CreateReferenced(g) case Ok(c) => c.store case Err(_) => s
  }

  ghost function Apply(s: Store, op: Op): Store {
    match op
    case DoCreate(id, request, at) => Create(s, id, request, at).0
    case DoCreateBrokered(id, request, b, at) => CreateBrokered(s, NewGrant(id, request, at).(brokered := Some(b)))
    case DoDelegate(id, request, at, approvedAt) => Delegate(s, id, request, at, approvedAt).0
    case DoApprove(id, who, now, overrides) => Approve(s, id, who, now, overrides).0
    case DoDeny(id, who, now) => Deny(s, id, who, now).0
    case DoRevoke(id) => Revoke(s, id).0
    case DoIntrospect(id, now) => Introspect(s, id, now).0
    case DoUse(id, now, usedAt) => Use(s, id, now, usedAt).0
    case DoExtend(id, who, now, mode, ids, grantType, duration) =>
      Extend(s, id, who, now, mode, ids, grantType, duration).0
    case DoApproveWidened(id, who, now, widened, grantType, duration) =>
      ApproveWidened(s, id, who, now, widened, grantType, duration).0
    case DoWithdraw(key, reason, now) => Withdraw(s, key, reason, now).0
    case DoMarkConsumed(id, jti) => s.MarkConsumed(id, jti).0
  }

  // New ids are random UUIDs, so they are new to the store; a withdrawal names a key.
  predicate Allowed(s: Store, op: Op) {
    && (op.DoCreate? || op.DoCreateBrokered? || op.DoDelegate? ==> op.id !in s.grants)
    && (op.DoWithdraw? ==> op.key != "")
  }

  ghost function Run(s: Store, ops: seq<Op>): Store
    decreases |ops|
  {
    if |ops| == 0 then s else Run(Apply(s, ops[0]), ops[1..])
  }

  ghost predicate AllowedRun(s: Store, ops: seq<Op>)
    decreases |ops|
  {
    |ops| > 0 ==> Allowed(s, ops[0]) && AllowedRun(Apply(s, ops[0]), ops[1..])
  }

  // ---------------------------------------------------------------- what holds of a grant

  // How one operation may change a status.
  predicate Step(a: Status, b: Status) {
    || a == b
    || (a.Pending? && b in {Approved, Denied, Revoked, Withdrawn})
    || (a.Approved? && b in {Used, Revoked, Expired, Withdrawn})
  }

  predicate Terminal(a: Status) {
    a in {Denied, Revoked, Expired, Used, Withdrawn}
  }

  // An undecided grant carries no decision; a grant that was approved has an explicit type,
  // expires exactly when it is timed, and then a duration after its decision; an exact
  // single-use approval is `once`.
  predicate Shaped(g: Grant) {
    && (g.status.Pending? ==> g.decidedAt.None? && g.expiresAt.None?)
    && (g.status in {Approved, Used, Expired} ==>
          && g.request.grantType.Some? && g.decidedAt.Some?
          && (SingleUse(g.request) ==> g.request.grantType == Some(Once))
          && g.expiresAt == if g.request.grantType == Some(Timed) && g.request.duration.Some?
                            then Some(g.decidedAt.value + g.request.duration.value) else None)
    && (g.status in {Approved, Used, Expired} && g.request.grantType == Some(Timed) ==>
          g.request.duration.Some? && g.request.duration.value != 0)
    && (g.status.Used? ==> g.request.grantType == Some(Once))
    && (g.status.Expired? ==> g.request.grantType == Some(Timed))
  }

  predicate GrantOk(g: Grant) {
    (g.request.reference.Some? ==> ExactCommand(g.request)) && Shaped(g)
  }

  // One reference key names at most one grant.
  ghost predicate UniqueKeys(s: Store) {
    forall i, j :: i in s.grants && j in s.grants && i != j
                   && s.grants[i].request.reference.Some? && s.grants[j].request.reference.Some? ==>
                   GrantKey(s.grants[i]) != GrantKey(s.grants[j])
  }

  function GrantKey(g: Grant): string
    requires g.request.reference.Some?
  {
    KeyOf(g.request, g.brokered)
  }

  ghost predicate Keyed(s: Store) {
    Coherent(s) && UniqueKeys(s)
  }

  ghost predicate Inv(s: Store) {
    Keyed(s) && forall id :: id in s.grants ==> GrantOk(s.grants[id])
  }

  // What no operation changes of a grant: its identity, its reference, and what it is bound to.
  predicate SameBinding(g: Grant, h: Grant) {
    && h.id == g.id && h.createdAt == g.createdAt && h.category == g.category && h.brokered == g.brokered
    && h.request.reference == g.request.reference && h.request.requester == g.request.requester
    && (g.request.reference.Some? ==> AuthorityOf(h.request) == AuthorityOf(g.request))
  }

  predicate Moves(g: Grant, h: Grant) {
    SameBinding(g, h) && Step(g.status, h.status) && (Terminal(g.status) ==> h == g)
  }

  ghost predicate StoreMoves(s: Store, t: Store) {
    forall id :: id in s.grants ==> id in t.grants && Moves(s.grants[id], t.grants[id])
  }

  // ---------------------------------------------------------------- single updates

  lemma SameKey(g: Grant, h: Grant)
    requires SameBinding(g, h) && g.request.reference.Some?
    ensures GrantKey(g) == GrantKey(h)
  {
  }

  // Replacing one grant by one with the same binding.
  lemma ReplaceKeepsKeyed(s: Store, id: string, h: Grant)
    requires Keyed(s) && id in s.grants && SameBinding(s.grants[id], h)
    ensures Keyed(s.(grants := s.grants[id := h]))
  {
    hide KeyOf;
    var t := s.(grants := s.grants[id := h]);
    BindingFields(s.grants[id], h);
    if h.request.reference.Some? { SameKey(s.grants[id], h); }
    hide SameBinding;
    assert forall i :: i in t.grants && i != id ==> t.grants[i] == s.grants[i];
  }

  lemma ReplaceKeepsInv(s: Store, id: string, h: Grant)
    requires Inv(s) && id in s.grants && SameBinding(s.grants[id], h) && GrantOk(h)
    ensures Inv(s.(grants := s.grants[id := h]))
  {
    hide GrantOk, SameBinding, Keyed;
    ReplaceKeepsKeyed(s, id, h);
  }

  lemma BindingFields(g: Grant, h: Grant)
    requires SameBinding(g, h)
    ensures h.id == g.id && h.request.reference == g.request.reference
  {
  }

  // `updateStatus` on a referenced grant keeps its binding, or fails.
  lemma UpdatedBinding(g: Grant, status: Status, extra: Extra)
    requires extra.request.Some? ==> extra.request.value.requester == g.request.requester
                                     && extra.request.value.reference == g.request.reference
    requires extra.request.Some? && g.request.reference.Some?
             ==> AuthorityOf(extra.request.value) == AuthorityOf(g.request)
    ensures SameBinding(g, Updated(g, status, extra))
  {
  }

  lemma UpdateKeepsInv(s: Store, id: string, status: Status, extra: Extra)
    requires Inv(s) && id in s.grants
    requires SameBinding(s.grants[id], Updated(s.grants[id], status, extra))
    requires Step(s.grants[id].status, status) && !Terminal(s.grants[id].status)
    requires GrantOk(Updated(s.grants[id], status, extra))
    ensures Inv(Decide(s, id, status, extra).0) && StoreMoves(s, Decide(s, id, status, extra).0)
    ensures var t := Decide(s, id, status, extra).0;
            t == s || t == s.(grants := s.grants[id := Updated(s.grants[id], status, extra)])
  {
    ReplaceKeepsInv(s, id, Updated(s.grants[id], status, extra));
    SelfMoves(s);
    hide GrantOk, SameBinding, AuthorityOf, SameReferenced;
  }

  lemma SelfMoves(s: Store)
    ensures StoreMoves(s, s)
  {
  }

  // ---------------------------------------------------------------- decisions

  lemma ApprovalKeeps(g: Grant, approver: string, now: int, o: Overrides)
    requires GrantOk(g) && ApprovalOf(g, approver, now, o).Ok?
    ensures var h := Updated(g, Approved, ApprovalOf(g, approver, now, o).value);
            SameBinding(g, h) && GrantOk(h) && Step(g.status, Approved)
  {
    hide SingleUse;
    var extra := ApprovalOf(g, approver, now, o).value;
    var h := Updated(g, Approved, extra);
    assert DetailsOf(h.request) == DetailsOf(g.request);
    assert SingleUse(h.request) == SingleUse(g.request) by { SingleUseOfDetails(h.request, g.request); }
    if g.request.reference.Some? { assert h.request == g.request; }
  }

  lemma SingleUseOfDetails(a: Request, b: Request)
    requires a.details == b.details
    ensures SingleUse(a) == SingleUse(b)
  {
  }

  lemma ApproveKeepsInv(s: Store, id: string, approver: string, now: int, o: Overrides)
    requires Inv(s)
    ensures Inv(Approve(s, id, approver, now, o).0) && StoreMoves(s, Approve(s, id, approver, now, o).0)
    ensures var t := Approve(s, id, approver, now, o).0; Touches(s, t, id)
  {
    hide GrantOk, SameBinding;
    SelfMoves(s);
    if id in s.grants {
      var approval := ApprovalOf(s.grants[id], approver, now, o);
      if approval.Ok? {
        ApprovalKeeps(s.grants[id], approver, now, o);
        UpdateKeepsInv(s, id, Approved, approval.value);
      }
    }
  }

  // Nothing but the named grant changes.
  ghost predicate Touches(s: Store, t: Store, id: string) {
    && t.grants.Keys == s.grants.Keys && t.order == s.order && t.consumed == s.consumed
    && forall i :: i in s.grants && i != id ==> t.grants[i] == s.grants[i]
  }

  lemma DenyKeepsInv(s: Store, id: string, denier: string, now: int)
    requires Inv(s)
    ensures Inv(Deny(s, id, denier, now).0) && StoreMoves(s, Deny(s, id, denier, now).0)
  {
    SelfMoves(s);
    if id in s.grants && s.grants[id].status.Pending? {
      UpdateKeepsInv(s, id, Denied, NO_EXTRA.(decidedBy := Some(denier), decidedAt := Some(now)));
    }
  }

  lemma RevokeKeepsInv(s: Store, id: string)
    requires Inv(s)
    ensures Inv(Revoke(s, id).0) && StoreMoves(s, Revoke(s, id).0) && Touches(s, Revoke(s, id).0, id)
  {
    SelfMoves(s);
    if id in s.grants && !Terminal(s.grants[id].status) {
      UpdateKeepsInv(s, id, Revoked, NO_EXTRA);
    }
  }

  lemma IntrospectKeepsInv(s: Store, id: string, now: int)
    requires Inv(s)
    ensures Inv(Introspect(s, id, now).0) && StoreMoves(s, Introspect(s, id, now).0)
    ensures Introspect(s, id, now).0 != s
            ==> Introspect(s, id, now).1.Ok? && Introspect(s, id, now).1.value.status.Expired?
  {
    SelfMoves(s);
    if id in s.grants && IsGrantExpired(s.grants[id], now) {
      UpdateKeepsInv(s, id, Expired, NO_EXTRA);
    }
  }

  lemma UseKeepsInv(s: Store, id: string, now: int, usedAt: int)
    requires Inv(s)
    ensures Inv(Use(s, id, now, usedAt).0) && StoreMoves(s, Use(s, id, now, usedAt).0)
  {
    SelfMoves(s);
    IntrospectKeepsInv(s, id, now);
    var (t, r) := Introspect(s, id, now);
    if r.Ok? && r.value.status.Approved? && r.value.request.grantType == Some(Once) {
      assert t == s;
      ReplaceKeepsInv(s, id, s.grants[id].(status := Used, usedAt := Some(usedAt)));
    }
  }

  lemma MarkConsumedKeepsInv(s: Store, id: string, jti: string)
    requires Inv(s)
    ensures Inv(s.MarkConsumed(id, jti).0) && StoreMoves(s, s.MarkConsumed(id, jti).0)
  {
    SelfMoves(s);
  }

  // ---------------------------------------------------------------- creation

  lemma {:induction false} FirstOfFacts(grants: map<string, Grant>, order: seq<string>, key: string)
    ensures var f := FirstOf(grants, order, key);
            && (f.Some? ==> exists id :: id in order && id in grants && grants[id] == f.value && HasKey(f.value, key))
            && (f.None? ==> forall id :: id in order && id in grants ==> !HasKey(grants[id], key))
  {
    if |order| > 0 {
      FirstOfFacts(grants, order[1..], key);
      assert order == [order[0]] + order[1..];
    }
  }

  lemma PutKeepsKeyed(s: Store, g: Grant)
    requires Keyed(s) && g.id !in s.grants
    requires g.request.reference.Some? ==> FirstOf(s.grants, s.order, GrantKey(g)).None?
    ensures Keyed(s.Put(g))
  {
    hide KeyOf, FirstOf;
    if g.request.reference.Some? {
      FirstOfFacts(s.grants, s.order, GrantKey(g));
      assert forall id :: id in s.grants ==> !HasKey(s.grants[id], GrantKey(g));
    }
  }

  lemma PutKeepsInv(s: Store, g: Grant)
    requires Inv(s) && g.id !in s.grants && GrantOk(g)
    requires g.request.reference.Some? ==> FirstOf(s.grants, s.order, GrantKey(g)).None?
    ensures Inv(s.Put(g)) && StoreMoves(s, s.Put(g))
  {
    SelfMoves(s);
    PutKeepsKeyed(s, g);
    hide GrantOk, Keyed, KeyOf, FirstOf;
  }

  lemma CreateReferencedKeepsInv(s: Store, g: Grant)
    requires Inv(s) && g.id !in s.grants && Shaped(g)
    ensures Inv(CreateBrokered(s, g)) && StoreMoves(s, CreateBrokered(s, g))
  {
    SelfMoves(s);
    if s.CreateReferenced(g).Ok? && s.CreateReferenced(g).value.created { PutKeepsInv(s, g); }
  }

  lemma CreateKeepsInv(s: Store, id: string, request: Request, at: nat)
    requires Inv(s) && id !in s.grants
    ensures Inv(Create(s, id, request, at).0) && StoreMoves(s, Create(s, id, request, at).0)
  {
    var g := NewGrant(id, request, at);
    if request.reference.Some? { CreateReferencedKeepsInv(s, g); } else { PutKeepsInv(s, g); }
  }

  lemma DelegateKeepsInv(s: Store, id: string, request: Request, at: nat, approvedAt: int)
    requires Inv(s) && id !in s.grants
    ensures Inv(Delegate(s, id, request, at, approvedAt).0) && StoreMoves(s, Delegate(s, id, request, at, approvedAt).0)
  {
    SelfMoves(s);
    var g := NewGrant(id, request, at).(category := Some(Delegation));
    if request.reference.None? {
      PutKeepsInv(s, g);
      ApproveKeepsInv(s.Put(g), id, request.requester, approvedAt, NO_OVERRIDES);
    }
  }

  // ---------------------------------------------------------------- extension and widening

  // Revoking a list touches none of the others.
  lemma {:induction false} RevokeEachKeepsInv(s: Store, olds: seq<Grant>)
    requires Inv(s)
    ensures var t := RevokeEach(s, olds).0;
            && Inv(t) && t.grants.Keys == s.grants.Keys
            && forall id :: id in s.grants ==>
                 if exists i :: 0 <= i < |olds| && olds[i].id == id
                 then t.grants[id] == s.grants[id] || t.grants[id] == s.grants[id].(status := Revoked)
                 else t.grants[id] == s.grants[id]
    ensures StoreMoves(s, RevokeEach(s, olds).0)
    decreases |olds|
  {
    hide GrantOk, SameBinding, Inv, Moves;
    SelfMoves(s);
    if |olds| > 0 {
      RevokeKeepsInv(s, olds[0].id);
      var (t, r) := Revoke(s, olds[0].id);
      RevokeFacts(s, olds[0].id);
      if r.Ok? {
        RevokeEachKeepsInv(t, olds[1..]);
        var u := RevokeEach(t, olds[1..]).0;
        assert u == RevokeEach(s, olds).0;
        assert olds == [olds[0]] + olds[1..];
        forall id | id in s.grants
          ensures if exists i :: 0 <= i < |olds| && olds[i].id == id
                  then u.grants[id] == s.grants[id] || u.grants[id] == s.grants[id].(status := Revoked)
                  else u.grants[id] == s.grants[id]
          ensures Moves(s.grants[id], u.grants[id])
        {
          assert forall i :: 0 <= i < |olds| - 1 ==> olds[1..][i] == olds[i + 1];
          assert Moves(s.grants[id], t.grants[id]) && Moves(t.grants[id], u.grants[id]);
        }
      }
    }
  }

  lemma RevokeFacts(s: Store, id: string)
    ensures var t := Revoke(s, id).0;
            t == s || (id in s.grants && !Terminal(s.grants[id].status)
                       && t == s.(grants := s.grants[id := s.grants[id].(status := Revoked)]))
    ensures Revoke(s, id).1.Ok? ==> Revoke(s, id).0 != s
  {
  }

  lemma ApplyExtensionKeepsInv(s: Store, id: string, approver: string, now: int, request: Request, olds: seq<Grant>,
                               grantType: Option<GrantType>, duration: Option<int>)
    requires Inv(s) && id in s.grants && s.grants[id].status.Pending? && s.grants[id].request.reference.None?
    requires request.requester == s.grants[id].request.requester && request.reference.None?
    requires forall i :: 0 <= i < |olds| ==> olds[i].id != id
    ensures var t := ApplyExtension(s, id, approver, now, request, olds, grantType, duration).0;
            Inv(t) && StoreMoves(s, t)
  {
    hide GrantOk, SameBinding, Inv, RevokeEach, Approve;
    var extra := NO_EXTRA.(request := Some(request));
    PendingUpdate(s, id, request);
    var t := Decide(s, id, Pending, extra).0;
    RevokeEachKeepsInv(t, olds);
    var u := RevokeEach(t, olds).0;
    var o := Overrides(grantType, duration, None, []);
    ApproveKeepsInv(u, id, approver, now, o);
    var v := Approve(u, id, approver, now, o).0;
    assert u.grants[id] == t.grants[id];
    forall i | i in s.grants ensures Moves(s.grants[i], u.grants[i]) && Moves(s.grants[i], v.grants[i]) {
      if i == id {
        BindingTransitive(s.grants[i], t.grants[i], v.grants[i]);
      } else {
        assert t.grants[i] == s.grants[i] && v.grants[i] == u.grants[i];
      }
    }
  }

  lemma PendingUpdate(s: Store, id: string, request: Request)
    requires Inv(s) && id in s.grants && s.grants[id].status.Pending? && s.grants[id].request.reference.None?
    requires request.requester == s.grants[id].request.requester && request.reference.None?
    ensures var extra := NO_EXTRA.(request := Some(request));
            var t := Decide(s, id, Pending, extra).0;
            && Inv(t) && StoreMoves(s, t) && s.UpdateStatus(id, Pending, extra) == Ok(t)
            && t == s.(grants := s.grants[id := s.grants[id].(request := request)])
  {
    UpdateKeepsInv(s, id, Pending, NO_EXTRA.(request := Some(request)));
  }

  lemma BindingTransitive(g: Grant, h: Grant, k: Grant)
    requires SameBinding(g, h) && SameBinding(h, k)
    ensures SameBinding(g, k)
  {
  }

  lemma {:induction false} OldGrantsFacts(s: Store, pending: Grant, ids: seq<string>)
    requires Coherent(s) && OldGrants(s, pending, ids).Ok?
    ensures var olds := OldGrants(s, pending, ids).value;
            && |olds| == |ids|
            && forall i :: 0 <= i < |ids| ==>
                 && ids[i] in s.grants && olds[i] == s.grants[ids[i]] && olds[i].id == ids[i]
                 && olds[i].status.Approved? && Extendable(olds[i], pending)
  {
    if |ids| > 0 { OldGrantsFacts(s, pending, ids[1..]); }
  }

  lemma ExtendKeepsInv(s: Store, id: string, approver: string, now: int, mode: ExtendMode, ids: seq<string>,
                       grantType: Option<GrantType>, duration: Option<int>)
    requires Inv(s)
    ensures var t := Extend(s, id, approver, now, mode, ids, grantType, duration).0; Inv(t) && StoreMoves(s, t)
  {
    hide ApplyExtension, SingleUse, Extendable, GrantOk, OldGrants, Merged, Candidates, Permissions;
    SelfMoves(s);
    if id in s.grants && s.grants[id].status.Pending? && !Referenced(s.grants[id].request)
    && !SingleUse(s.grants[id].request)
       && OldGrants(s, s.grants[id], ids).Ok? {
      OldGrantsFacts(s, s.grants[id], ids);
      PlainIsUnreferenced(s.grants[id]);
      ApplyExtensionKeepsInv(s, id, approver, now,
                             ExtendedRequest(mode, s.grants[id].request, OldGrants(s, s.grants[id], ids).value),
                             OldGrants(s, s.grants[id], ids).value, grantType, duration);
    }
  }

  lemma PlainIsUnreferenced(g: Grant)
    requires GrantOk(g)
    ensures Referenced(g.request) <==> g.request.reference.Some?
  {
  }

  lemma ApproveWidenedKeepsInv(s: Store, id: string, approver: string, now: int, widened: seq<Detail>,
                               grantType: Option<GrantType>, duration: Option<int>)
    requires Inv(s)
    ensures var t := ApproveWidened(s, id, approver, now, widened, grantType, duration).0; Inv(t) && StoreMoves(s, t)
  {
    hide ApplyExtension, SingleUse, GrantOk, NormalizedWidenings, CliDetails, StoredPermissions;
    SelfMoves(s);
    if id in s.grants && s.grants[id].status.Pending? && !Referenced(s.grants[id].request)
    && !SingleUse(s.grants[id].request) {
      PlainIsUnreferenced(s.grants[id]);
      var request := s.grants[id].request;
      var originals := CliDetails(DetailsOf(request));
      if |widened| == |originals| && NormalizedWidenings(originals, widened).Ok? {
        var details := NormalizedWidenings(originals, widened).value;
        ApplyExtensionKeepsInv(s, id, approver, now, WidenedRequest(request, details), [], grantType, duration);
      }
    }
  }

  // ---------------------------------------------------------------- withdrawal

  // A reference key, if any grant has it, leads to that one grant.
  lemma FindByKeyFacts(s: Store, key: string)
    requires Coherent(s) && key != ""
    ensures var f := FindByKey(s, key);
            && (f.Some? ==> f.value.id in s.grants && s.grants[f.value.id] == f.value && HasKey(f.value, key))
            && (f.None? ==> forall id :: id in s.grants ==> !HasKey(s.grants[id], key))
  {
    var gs, p := Listed(s.grants, s.order), ANY_GRANT.(referenceKey := Some(key), limit := Some(1));
    ListedFacts(s);
    FirstListed(gs, p);
    hide SortNewest, Selected, Listed, KeyOf, Coherent;
    assert forall g :: Matches(p, g) <==> HasKey(g, key);
    hide Matches, HasKey;
    forall id | id in s.grants ensures FindByKey(s, key).None? ==> !HasKey(s.grants[id], key) {
      assert s.grants[id].id == id by { IdOf(s, id); }
      assert s.grants[id] in gs;
    }
  }

  lemma IdOf(s: Store, id: string)
    requires Coherent(s) && id in s.grants
    ensures s.grants[id].id == id
  {
  }

  // The first page of a listing is empty exactly when nothing matches.
  lemma FirstListed(gs: seq<Grant>, p: Params)
    requires DistinctIds(gs) && p.cursor.None?
    ensures var page := ListGrants(gs, p).value;
            && (|page.data| > 0 ==> page.data[0] in gs && Matches(p, page.data[0]))
            && (|page.data| == 0 ==> forall g :: g in gs ==> !Matches(p, g))
  {
    var sorted := SortNewest(Selected(gs, p, None));
    PageStart(sorted, Limit(p));
    SelectedFacts(gs, p, None);
    SortNewestFacts(Selected(gs, p, None));
    hide SortNewest, Selected, Matches, Limit, PageOf, Sorted, DistinctIds;
    assert |sorted| > 0 ==> sorted[0] in sorted;
  }

  lemma PageStart(sorted: seq<Grant>, limit: nat)
    requires limit > 0
    ensures var page := PageOf(sorted, limit);
            (|page.data| == 0 <==> |sorted| == 0) && (|sorted| > 0 ==> page.data[0] == sorted[0])
  {
  }

  function WithdrawnAs(g: Grant, now: int, reason: Option<string>): Grant {
    g.(status := Withdrawn, decidedAt := Some(now), withdrawReason := Or(reason, g.withdrawReason))
  }

  lemma WithdrawnIsOk(g: Grant, now: int, reason: Option<string>)
    requires GrantOk(g)
    ensures GrantOk(WithdrawnAs(g, now, reason)) && SameBinding(g, WithdrawnAs(g, now, reason))
    ensures Withdrawable(g) ==> Moves(g, WithdrawnAs(g, now, reason))
  {
  }

  lemma WithdrawKeepsInv(s: Store, key: string, reason: Option<string>, now: int)
    requires Inv(s) && key != ""
    ensures var t := Withdraw(s, key, reason, now).0; Inv(t) && StoreMoves(s, t)
  {
    SelfMoves(s);
    FindByKeyFacts(s, key);
    hide FindByKey, GrantOk, Moves, HasKey, SameBinding;
    var g := FindByKey(s, key);
    if g.Some? && Withdrawable(g.value) {
      var id := g.value.id;
      WithdrawnIsOk(g.value, now, reason);
      ReplaceKeepsInv(s, id, WithdrawnAs(g.value, now, reason));
      assert Withdraw(s, key, reason, now).0 == s.(grants := s.grants[id := WithdrawnAs(g.value, now, reason)]);
    }
  }

  // ---------------------------------------------------------------- runs

  // Every operation keeps the store's invariant, moves each grant along at most one arrow,
  // never changes a settled grant and never changes what a reference is bound to.
  lemma StepKeepsInv(s: Store, op: Op)
    requires Inv(s) && Allowed(s, op)
    ensures Inv(Apply(s, op)) && StoreMoves(s, Apply(s, op))
  {
    hide Inv, StoreMoves;
    hide Create, CreateBrokered, Delegate, Approve, Deny, Revoke, Introspect, Use, Extend, ApproveWidened, Withdraw;
    match op
    case DoCreate(id, request, at) => CreateKeepsInv(s, id, request, at);
    case DoCreateBrokered(id, request, b, at) =>
      CreateReferencedKeepsInv(s, NewGrant(id, request, at).(brokered := Some(b)));
    case DoDelegate(id, request, at, approvedAt) => DelegateKeepsInv(s, id, request, at, approvedAt);
    case DoApprove(id, who, now, overrides) => ApproveKeepsInv(s, id, who, now, overrides);
    case DoDeny(id, who, now) => DenyKeepsInv(s, id, who, now);
    case DoRevoke(id) => RevokeKeepsInv(s, id);
    case DoIntrospect(id, now) => IntrospectKeepsInv(s, id, now);
    case DoUse(id, now, usedAt) => UseKeepsInv(s, id, now, usedAt);
    case DoExtend(id, who, now, mode, ids, grantType, duration) =>
      ExtendKeepsInv(s, id, who, now, mode, ids, grantType, duration);
    case DoApproveWidened(id, who, now, widened, grantType, duration) =>
      ApproveWidenedKeepsInv(s, id, who, now, widened, grantType, duration);
    case DoWithdraw(key, reason, now) => WithdrawKeepsInv(s, key, reason, now);
    case DoMarkConsumed(id, jti) => MarkConsumedKeepsInv(s, id, jti);
  }

  // What a whole run may make of a grant.
  predicate Evolves(g: Grant, h: Grant) {
    && SameBinding(g, h) && (Terminal(g.status) ==> h == g)
    && (g.status.Approved? ==> h.status.Approved? || h.status in {Used, Revoked, Expired, Withdrawn})
  }

  // Over every run of uninterrupted operations from the empty store the invariant holds.
  lemma {:induction false} RunKeepsInv(s: Store, ops: seq<Op>)
    requires Inv(s) && AllowedRun(s, ops)
    ensures Inv(Run(s, ops))
    ensures forall id :: id in s.grants ==> id in Run(s, ops).grants && Evolves(s.grants[id], Run(s, ops).grants[id])
    decreases |ops|
  {
    hide Inv, Apply, SameBinding;
    forall g ensures SameBinding(g, g) { BindingReflexive(g); }
    if |ops| > 0 {
      StepKeepsInv(s, ops[0]);
      var t := Apply(s, ops[0]);
      RunKeepsInv(t, ops[1..]);
      forall id | id in s.grants ensures id in Run(s, ops).grants && Evolves(s.grants[id], Run(s, ops).grants[id]) {
        assert Moves(s.grants[id], t.grants[id]);
        BindingTransitive(s.grants[id], t.grants[id], Run(s, ops).grants[id]);
      }
    }
  }

  lemma BindingReflexive(g: Grant)
    ensures SameBinding(g, g)
  {
  }

  lemma EmptyStoreHolds()
    ensures Inv(EMPTY_STORE)
  {
  }

  // ---------------------------------------------------------------- references

  lemma FirstOfUnique(s: Store, id: string, key: string)
    requires Keyed(s) && id in s.grants && HasKey(s.grants[id], key)
    ensures FirstOf(s.grants, s.order, key) == Some(s.grants[id])
  {
    hide GrantOk, KeyOf, FirstOf;
    FirstOfFacts(s.grants, s.order, key);
    assert id in s.order;
    var f := FirstOf(s.grants, s.order, key);
    var other :| other in s.order && other in s.grants && s.grants[other] == f.value && HasKey(f.value, key);
    assert other == id;
  }

  // Equal keys come from the same requester and reference.
  lemma KeyDecidesReference(a: Grant, b: Grant)
    requires a.request.reference.Some? && b.request.reference.Some? && GrantKey(a) == GrantKey(b)
    ensures a.request.reference == b.request.reference
  {
    GrantReference.KeyIsFaithful(a.request.requester, a.request.reference.value, a.brokered,
                                 b.request.requester, b.request.reference.value, b.brokered);
  }

  // Whatever happened since a reference was first used, submitting it again creates
  // nothing: the answer is that same grant exactly when the new request asks for the same
  // authority, and a conflict otherwise.
  lemma RepeatedCreation(s: Store, ops: seq<Op>, id: string, again: Grant)
    requires Inv(s) && AllowedRun(s, ops) && id in s.grants
    requires ExactCommand(again.request) && HasKey(s.grants[id], GrantKey(again))
    ensures var t := Run(s, ops);
            && id in t.grants
            && t.CreateReferenced(again)
               == if AuthorityOf(s.grants[id].request) == AuthorityOf(again.request)
                  then Ok(Creation(t, t.grants[id], false)) else Err(ReferenceConflict)
  {
    KeyDecidesReference(s.grants[id], again);
    hide Keyed, GrantOk, Run, AllowedRun, FirstOf, KeyOf, ExactCommand;
    RunKeepsInv(s, ops);
    var t := Run(s, ops);
    assert Evolves(s.grants[id], t.grants[id]);
    SameKey(s.grants[id], t.grants[id]);
    FirstOfUnique(t, id, GrantKey(again));
    ExactIsReferenced(again.request);
  }

  lemma ExactIsReferenced(r: Request)
    requires ExactCommand(r)
    ensures Referenced(r)
  {
  }

  // An uninterrupted withdrawal of a known reference settles it, and repeating it reports
  // the same grant and the same outcome without changing anything.
  lemma WithdrawalSettles(s: Store, key: string, reason: Option<string>, now: int, reason': Option<string>, later: int)
    requires Inv(s) && key != "" && FindByKey(s, key).Some?
    ensures var (t, r) := Withdraw(s, key, reason, now);
            var g := FindByKey(s, key).value;
            && g.id in t.grants && Terminal(t.grants[g.id].status)
            && r == Ok(if Terminal(g.status) && !g.status.Withdrawn? then AlreadyDecided(g.id, g.status)
                       else WasWithdrawn(g.id, g.status))
            && Withdraw(t, key, reason', later)
               == (t, Ok(if Terminal(g.status) && !g.status.Withdrawn? then r.value else WasWithdrawn(g.id, Withdrawn)))
  {
    hide FindByKey, GrantOk, UniqueKeys, Coherent, SameBinding, KeyOf;
    var g := FindByKey(s, key).value;
    var (t, r) := Withdraw(s, key, reason, now);
    FindByKeyFacts(s, key);
    ReferencedIsOnce(s, g);
    WithdrawKeepsInv(s, key, reason, now);
    FindByKeyFacts(t, key);
    assert t.grants.Keys == s.grants.Keys && SameBinding(g, t.grants[g.id]);
    SameKey(g, t.grants[g.id]);
    KeyLeadsToOne(t, g.id, FindByKey(t, key), key);
  }

  lemma ReferencedIsOnce(s: Store, g: Grant)
    requires Inv(s) && g.id in s.grants && s.grants[g.id] == g && g.request.reference.Some?
    ensures g.request.grantType == Some(Once)
  {
  }

  lemma KeyLeadsToOne(t: Store, id: string, f: Option<Grant>, key: string)
    requires Inv(t) && id in t.grants && HasKey(t.grants[id], key)
    requires f.Some? ==> f.value.id in t.grants && t.grants[f.value.id] == f.value && HasKey(f.value, key)
    requires f.None? ==> forall i :: i in t.grants ==> !HasKey(t.grants[i], key)
    ensures f == Some(t.grants[id])
  {
  }
}
