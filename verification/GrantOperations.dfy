// The grant operations as uninterrupted programs of store steps
// (packages/grants/src/grants.ts, packages/grants/src/grant-withdraw.ts). Each operation is
// a function from the store it starts in to the store it leaves and its answer; the methods
// run the same steps on the store object.
module GrantOperations {
  import opened Wrappers
  import opened CliPermissions
  import opened CliWidening
  import opened GrantStore
  import opened GrantListing
  import GrantReference

  datatype ExtendMode = WidenMode | MergeMode

  datatype Overrides = Overrides(
    grantType: Option<GrantType>,
    duration: Option<int>,
    extendMode: Option<ExtendMode>,
    extendIds: seq<string>)

  const NO_OVERRIDES := Overrides(None, None, None, [])

  type Answer = Result<Grant, Error>

  // ---------------------------------------------------------------- creation

  function NewGrant(id: string, request: Request, now: nat): Grant {
    Grant(id, None, request, None, Pending, now, None, None, None, None, None)
  }

  // `createGrant`
  function Create(s: Store, id: string, request: Request, now: nat): (Store, Answer) {
    var g := NewGrant(id, request, now);
    if request.reference.Some? then
      match s.CreateReferenced(g)
      case Ok(c) => (c.store, Ok(c.grant))
      case Err(e) => (s, Err(e))
    else (s.Put(g), Ok(g))
  }

  method CreateGrant(store: InMemoryGrantStore, id: string, request: Request, now: nat) returns (r: Answer)
    modifies store
    ensures (store.Value(), r) == Create(old(store.Value()), id, request, now)
  {
    var g := NewGrant(id, request, now);
    if request.reference.Some? {
      if !ExactCommand(request) {
        return Err(InvalidReference);
      }
      var c := store.CreateReferenced(g);
      return if c.Err? then Err(c.error) else Ok(c.value.0);
    }
    var _ := store.Save(g);
    return Ok(g);
  }

  // ---------------------------------------------------------------- decisions

  function DetailsOf(r: Request): seq<Detail> {
    if r.details.None? then [] else r.details.value
  }

  // `cliDetails`
  function CliDetails(details: seq<Detail>): (cli: seq<Detail>)
    ensures forall d :: d in cli <==> d in details && d.kind == CLI_KIND
  {
    if |details| == 0 then []
    else
      var rest := CliDetails(details[1..]);
      assert details == [details[0]] + details[1..];
      if details[0].kind == CLI_KIND then [details[0]] + rest else rest
  }

  predicate SingleUse(r: Request) {
    exists d :: d in DetailsOf(r) && d.kind == CLI_KIND && d.constraints.Some? && d.constraints.value.singleUse
  }

  function EffectiveType(r: Request, o: Overrides): GrantType {
    if o.grantType.Some? then o.grantType.value else if r.grantType.Some? then r.grantType.value else Once
  }

  // What an approval writes, or why it is refused.
  function ApprovalOf(g: Grant, approver: string, now: int, o: Overrides): Result<Extra, Error> {
    var effective := EffectiveType(g.request, o);
    var duration := Or(o.duration, g.request.duration);
    if !g.status.Pending? then Err(NotPending)
    else if Referenced(g.request) && (effective != Once || duration.Some? || o.extendMode.Some? || |o.extendIds| > 0)
      then Err(BoundToReference)
    else if SingleUse(g.request) && effective != Once then Err(SingleUseOnly)
    else if effective.Timed? && (duration.None? || duration.value == 0) then Err(DurationRequired)
    else Ok(Extra(Some(approver), Some(now),
                  if effective.Timed? then Some(now + duration.value) else None,
                  Some(g.request.(grantType := Some(effective), duration := duration))))
  }

  // `updateStatus` and then `findById`
  function Decide(s: Store, id: string, status: Status, extra: Extra): (Store, Answer) {
    match s.UpdateStatus(id, status, extra)
    case Ok(t) => (t, Ok(t.grants[id]))
    case Err(e) => (s, Err(e))
  }

  // `approveGrant`
  function Approve(s: Store, id: string, approver: string, now: int, o: Overrides): (Store, Answer) {
    if id !in s.grants then (s, Err(NotFound))
    else
      match ApprovalOf(s.grants[id], approver, now, o)
      case Ok(extra) => Decide(s, id, Approved, extra)
      case Err(e) => (s, Err(e))
  }

  // `denyGrant`
  function Deny(s: Store, id: string, denier: string, now: int): (Store, Answer) {
    if id !in s.grants then (s, Err(NotFound))
    else if !s.grants[id].status.Pending? then (s, Err(NotPending))
    else Decide(s, id, Denied, NO_EXTRA.(decidedBy := Some(denier), decidedAt := Some(now)))
  }

  // `revokeGrant`
  function Revoke(s: Store, id: string): (Store, Answer) {
    if id !in s.grants then (s, Err(NotFound))
    else if !s.grants[id].status.Pending? && !s.grants[id].status.Approved? then (s, Err(NotRevocable))
    else Decide(s, id, Revoked, NO_EXTRA)
  }

  method DecideGrant(store: InMemoryGrantStore, id: string, status: Status, extra: Extra) returns (r: Answer)
    modifies store
    ensures (store.Value(), r) == Decide(old(store.Value()), id, status, extra)
  {
    var failure := store.UpdateStatus(id, status, extra);
    if failure.Some? {
      return Err(failure.value);
    }
    var updated := store.FindById(id);
    return Ok(updated.value);
  }

  method ApproveGrant(store: InMemoryGrantStore, id: string, approver: string, now: int, o: Overrides)
      returns (r: Answer)
    modifies store
    ensures (store.Value(), r) == Approve(old(store.Value()), id, approver, now, o)
  {
    hide ApprovalOf, Decide;
    var found := store.FindById(id);
    if found.None? {
      return Err(NotFound);
    }
    var extra := ApprovalOf(found.value, approver, now, o);
    if extra.Err? {
      return Err(extra.error);
    }
    r := DecideGrant(store, id, Approved, extra.value);
  }

  method DenyGrant(store: InMemoryGrantStore, id: string, denier: string, now: int) returns (r: Answer)
    modifies store
    ensures (store.Value(), r) == Deny(old(store.Value()), id, denier, now)
  {
    hide Decide;
    var found := store.FindById(id);
    if found.None? {
      return Err(NotFound);
    }
    if found.value.status != Pending {
      return Err(NotPending);
    }
    r := DecideGrant(store, id, Denied, NO_EXTRA.(decidedBy := Some(denier), decidedAt := Some(now)));
  }

  method RevokeGrant(store: InMemoryGrantStore, id: string) returns (r: Answer)
    modifies store
    ensures (store.Value(), r) == Revoke(old(store.Value()), id)
  {
    hide Decide;
    var found := store.FindById(id);
    if found.None? {
      return Err(NotFound);
    }
    if found.value.status != Pending && found.value.status != Approved {
      return Err(NotRevocable);
    }
    r := DecideGrant(store, id, Revoked, NO_EXTRA);
  }

  // ---------------------------------------------------------------- use

  // `isGrantExpired`
  predicate IsGrantExpired(g: Grant, now: int) {
    && g.status.Approved? && g.request.grantType == Some(Timed)
    && g.expiresAt.Some? && g.expiresAt.value != 0 && now >= g.expiresAt.value
  }

  // `introspectGrant`; a missing grant is null there and an error here
  function Introspect(s: Store, id: string, now: int): (Store, Answer) {
    if id !in s.grants then (s, Err(NotFound))
    else if IsGrantExpired(s.grants[id], now) then Decide(s, id, Expired, NO_EXTRA)
    else (s, Ok(s.grants[id]))
  }

  // `useGrant`, which reads the clock twice
  function Use(s: Store, id: string, now: int, usedAt: int): (Store, Answer) {
    match Introspect(s, id, now)
    case (t, Err(e)) => (t, Err(e))
    case (t, Ok(g)) =>
      if !g.status.Approved? then (t, Err(NotApproved))
      else if g.request.grantType != Some(Once) then (t, Ok(g))
      else
        var (u, claimed) := t.ClaimOnce(id, usedAt);
        if claimed then (u, Ok(u.grants[id])) else (u, Err(NotApproved))
  }

  method IntrospectGrant(store: InMemoryGrantStore, id: string, now: int) returns (r: Answer)
    modifies store
    ensures (store.Value(), r) == Introspect(old(store.Value()), id, now)
  {
    hide Decide, IsGrantExpired;
    var found := store.FindById(id);
    if found.None? {
      return Err(NotFound);
    }
    if IsGrantExpired(found.value, now) {
      r := DecideGrant(store, id, Expired, NO_EXTRA);
      return;
    }
    return Ok(found.value);
  }

  method UseGrant(store: InMemoryGrantStore, id: string, now: int, usedAt: int) returns (r: Answer)
    modifies store
    ensures (store.Value(), r) == Use(old(store.Value()), id, now, usedAt)
  {
    hide Introspect;
    r := IntrospectGrant(store, id, now);
    if r.Err? {
      return;
    }
    if r.value.status != Approved {
      return Err(NotApproved);
    }
    if r.value.request.grantType == Some(Once) {
      var claimed := store.ClaimOnce(id, usedAt);
      if !claimed {
        return Err(NotApproved);
      }
      var updated := store.FindById(id);
      return Ok(updated.value);
    }
  }

  // ---------------------------------------------------------------- delegation

  function DelegationRequest(delegator: string, delegate: string, audience: string, scopes: Option<seq<string>>,
                             grantType: GrantType, duration: Option<int>): Request {
    Request(delegator, audience, audience, Some(grantType), None, None, None, None, None, duration, None, None,
            Some(delegator), Some(delegate), scopes, None, None, None, None, None)
  }

  // `createDelegation` on the request it builds: saved pending, then approved by the delegator
  function Delegate(s: Store, id: string, request: Request, now: nat, approvedAt: int): (Store, Answer) {
    var g := NewGrant(id, request, now).(category := Some(Delegation));
    match s.Save(g)
    case Ok(t) => Approve(t, id, request.requester, approvedAt, NO_OVERRIDES)
    case Err(e) => (s, Err(e))
  }

  method CreateDelegation(store: InMemoryGrantStore, id: string, delegator: string, delegate: string, audience: string,
                          scopes: Option<seq<string>>, grantType: GrantType, duration: Option<int>, now: nat,
                          approvedAt: int)
      returns (r: Answer)
    modifies store
    ensures (store.Value(), r)
            == Delegate(old(store.Value()), id,
                        DelegationRequest(delegator, delegate, audience, scopes, grantType, duration), now, approvedAt)
  {
    hide Approve;
    var request := DelegationRequest(delegator, delegate, audience, scopes, grantType, duration);
    var _ := store.Save(NewGrant(id, request, now).(category := Some(Delegation)));
    r := ApproveGrant(store, id, delegator, approvedAt, NO_OVERRIDES);
  }

  // ---------------------------------------------------------------- extension

  function TierFacts(shape: Option<ShapeTier>): ShapeTier {
    if shape.None? then ShapeTier(None, None, None) else shape.value
  }

  // `sameShapeTier`
  predicate SameShapeTier(a: Option<ShapeTier>, b: Option<ShapeTier>) {
    var x, y := TierFacts(a), TierFacts(b);
    (Falsy(x.owner) && Falsy(x.domain) && Falsy(y.owner) && Falsy(y.domain)) || x == y
  }

  predicate Extendable(earlier: Grant, pending: Grant) {
    && earlier.request.targetHost == pending.request.targetHost
    && earlier.request.audience == pending.request.audience
    && SameShapeTier(earlier.request.shape, pending.request.shape)
  }

  // The grants to extend, or the first reason one of them cannot be.
  function OldGrants(s: Store, pending: Grant, ids: seq<string>): Result<seq<Grant>, Error> {
    if |ids| == 0 then Ok([])
    else if ids[0] !in s.grants then Err(NotFound)
    else if !s.grants[ids[0]].status.Approved? then Err(NotApproved)
    else if !Extendable(s.grants[ids[0]], pending) then Err(ExtensionMismatch)
    else
      var rest := OldGrants(s, pending, ids[1..]);
      if rest.Err? then rest else Ok([s.grants[ids[0]]] + rest.value)
  }

  function OldDetails(olds: seq<Grant>): seq<seq<Detail>> {
    if |olds| == 0 then [] else [CliDetails(DetailsOf(olds[0].request))] + OldDetails(olds[1..])
  }

  // The widenings of one old detail towards the pending details similar to it.
  function WidenedTowards(existing: Detail, incoming: seq<Detail>): seq<Detail> {
    if |incoming| == 0 then []
    else
      (if Similar(existing, incoming[0]) then [Widen(existing, incoming[0])] else [])
      + WidenedTowards(existing, incoming[1..])
  }

  function WidenedPairs(existing: seq<Detail>, incoming: seq<Detail>): seq<Detail> {
    if |existing| == 0 then [] else WidenedTowards(existing[0], incoming) + WidenedPairs(existing[1..], incoming)
  }

  // The details an extension merges, before duplicates are dropped.
  function Candidates(mode: ExtendMode, pending: seq<Detail>, olds: seq<Grant>): seq<Detail> {
    match mode
    case WidenMode => pending + WidenedPairs(Flatten(OldDetails(olds)), pending)
    case MergeMode => Flatten([pending] + OldDetails(olds))
  }

  function Permissions(details: seq<Detail>): seq<string> {
    if |details| == 0 then [] else [CanonicalOf(details[0])] + Permissions(details[1..])
  }

  ghost function ExtendedRequest(mode: ExtendMode, r: Request, olds: seq<Grant>): Request {
    WithDetails(mode, r, Merged(Candidates(mode, CliDetails(DetailsOf(r)), olds)))
  }

  function WithDetails(mode: ExtendMode, r: Request, details: seq<Detail>): Request {
    r.(details := Some(details), permissions := Some(Permissions(details)),
       command := if mode.WidenMode? then None else r.command,
       cmdHash := if mode.WidenMode? then None else r.cmdHash)
  }

  // Revoke every listed grant, stopping at the first that cannot be revoked.
  function RevokeEach(s: Store, olds: seq<Grant>): (Store, Option<Error>)
    decreases |olds|
  {
    if |olds| == 0 then (s, None)
    else
      match Revoke(s, olds[0].id)
      case (t, Err(e)) => (t, Some(e))
      case (t, Ok(_)) => RevokeEach(t, olds[1..])
  }

  // `approveGrantWithExtension`
  ghost function Extend(s: Store, id: string, approver: string, now: int, mode: ExtendMode, ids: seq<string>,
                        grantType: Option<GrantType>, duration: Option<int>): (Store, Answer) {
    if id !in s.grants then (s, Err(NotFound))
    else if !s.grants[id].status.Pending? then (s, Err(NotPending))
    else if Referenced(s.grants[id].request) || SingleUse(s.grants[id].request) then (s, Err(SingleUseOnly))
    else
      match OldGrants(s, s.grants[id], ids)
      case Err(e) => (s, Err(e))
      case Ok(olds) => ApplyExtension(s, id, approver, now, ExtendedRequest(mode, s.grants[id].request, olds), olds,
                                      grantType, duration)
  }

  // The writes of an extension: the new details, the revocations, the approval.
  function ApplyExtension(s: Store, id: string, approver: string, now: int, request: Request, olds: seq<Grant>,
                          grantType: Option<GrantType>, duration: Option<int>): (Store, Answer) {
    match s.UpdateStatus(id, Pending, NO_EXTRA.(request := Some(request)))
    case Err(e) => (s, Err(e))
    case Ok(t) =>
      match RevokeEach(t, olds)
      case (u, Some(e)) => (u, Err(e))
      case (u, None) => Approve(u, id, approver, now, Overrides(grantType, duration, None, []))
  }

  method FindOldGrants(store: InMemoryGrantStore, pending: Grant, ids: seq<string>)
      returns (r: Result<seq<Grant>, Error>)
    ensures r == OldGrants(store.Value(), pending, ids)
  {
    hide Extendable;
    ghost var s := store.Value();
    var olds: seq<Grant> := [];
    assert ids[0..] == ids;
    assert OldGrants(s, pending, ids).Ok?
           ==> olds + OldGrants(s, pending, ids).value == OldGrants(s, pending, ids).value;
    for n := 0 to |ids|
      invariant store.Value() == s
      invariant OldGrants(s, pending, ids) ==
                match OldGrants(s, pending, ids[n..]) { case Ok(rest) => Ok(olds + rest) case Err(e) => Err(e) }
    {
      var earlier := store.FindById(ids[n]);
      assert ids[n..][1..] == ids[n + 1..];
      if earlier.None? {
        return Err(NotFound);
      }
      if earlier.value.status != Approved {
        return Err(NotApproved);
      }
      if !Extendable(earlier.value, pending) {
        return Err(ExtensionMismatch);
      }
      ghost var rest := OldGrants(s, pending, ids[n + 1..]);
      assert rest.Ok? ==> olds + ([earlier.value] + rest.value) == olds + [earlier.value] + rest.value;
      olds := olds + [earlier.value];
    }
    assert OldGrants(s, pending, []) == Ok([]) && olds + [] == olds;
    return Ok(olds);
  }

  // The inner loop of a widening extension: one old detail against every pending one.
  method WidenOne(before: seq<Detail>, existing: Detail, incoming: seq<Detail>) returns (widened: seq<Detail>)
    ensures widened == before + WidenedTowards(existing, incoming)
  {
    hide SelectorString, Covers;
    widened := before;
    assert incoming[0..] == incoming;
    for m := 0 to |incoming|
      invariant before + WidenedTowards(existing, incoming) == widened + WidenedTowards(existing, incoming[m..])
    {
      assert incoming[m..][1..] == incoming[m + 1..];
      ghost var rest := WidenedTowards(existing, incoming[m + 1..]);
      if Similar(existing, incoming[m]) {
        var w := Widen(existing, incoming[m]);
        assert widened + ([w] + rest) == widened + [w] + rest;
        widened := widened + [w];
      } else {
        assert [] + rest == rest;
      }
    }
    assert widened + [] == widened;
  }

  method WidenAll(existing: seq<Detail>, incoming: seq<Detail>) returns (widened: seq<Detail>)
    ensures widened == incoming + WidenedPairs(existing, incoming)
  {
    hide WidenedTowards;
    widened := incoming;
    assert existing[0..] == existing;
    for n := 0 to |existing|
      invariant incoming + WidenedPairs(existing, incoming) == widened + WidenedPairs(existing[n..], incoming)
    {
      ghost var rest := WidenedPairs(existing[n + 1..], incoming);
      assert existing[n..][1..] == existing[n + 1..];
      assert widened + (WidenedTowards(existing[n], incoming) + rest)
             == widened + WidenedTowards(existing[n], incoming) + rest;
      widened := WidenOne(widened, existing[n], incoming);
    }
    assert widened + [] == widened;
  }

  method RevokeGrants(store: InMemoryGrantStore, olds: seq<Grant>) returns (failure: Option<Error>)
    modifies store
    ensures (store.Value(), failure) == RevokeEach(old(store.Value()), olds)
  {
    hide Revoke;
    assert olds[0..] == olds;
    for n := 0 to |olds|
      invariant RevokeEach(old(store.Value()), olds) == RevokeEach(store.Value(), olds[n..])
    {
      assert olds[n..][1..] == olds[n + 1..];
      var r := RevokeGrant(store, olds[n].id);
      if r.Err? {
        return Some(r.error);
      }
    }
    return None;
  }

  method ApproveGrantWithExtension(store: InMemoryGrantStore, id: string, approver: string, now: int, mode: ExtendMode,
                                   ids: seq<string>, grantType: Option<GrantType>, duration: Option<int>)
                                       returns (r: Answer)
    modifies store
    ensures (store.Value(), r) == Extend(old(store.Value()), id, approver, now, mode, ids, grantType, duration)
  {
    hide Store.UpdateStatus, OldGrants, RevokeEach, Approve, WidenedPairs, Merged, Flatten, SingleUse, CliDetails,
         Permissions;
    var found := store.FindById(id);
    if found.None? {
      return Err(NotFound);
    }
    var pending := found.value;
    if pending.status != Pending {
      return Err(NotPending);
    }
    if Referenced(pending.request) || SingleUse(pending.request) {
      return Err(SingleUseOnly);
    }
    var olds := FindOldGrants(store, pending, ids);
    if olds.Err? {
      return Err(olds.error);
    }
    var pendingDetails, details := CliDetails(DetailsOf(pending.request)), [];
    if mode == WidenMode {
      var widened := WidenAll(Flatten(OldDetails(olds.value)), pendingDetails);
      details := MergeCliAuthorizationDetails([widened]);
      FlattenOne(widened);
    } else {
      details := MergeCliAuthorizationDetails([pendingDetails] + OldDetails(olds.value));
    }
    assert details == Merged(Candidates(mode, pendingDetails, olds.value));
    var failure := store.UpdateStatus(id, Pending,
                                      NO_EXTRA.(request := Some(WithDetails(mode, pending.request, details))));
    if failure.Some? {
      return Err(failure.value);
    }
    failure := RevokeGrants(store, olds.value);
    if failure.Some? {
      return Err(failure.value);
    }
    r := ApproveGrant(store, id, approver, now, Overrides(grantType, duration, None, []));
  }

  lemma FlattenOne(details: seq<Detail>)
    ensures Flatten([details]) == details
  {
    assert [details][1..] == [] && details + [] == details;
  }

  // ---------------------------------------------------------------- approver-chosen widening

  // The checks of one widened detail against the original at its index.
  predicate ValidWidening(original: Detail, widened: Detail) {
    && widened.kind == CLI_KIND
    && widened.cliId == original.cliId
    && widened.action == original.action
    && widened.operationId == original.operationId
    && SameStructure(widened.chain, original.chain)
    && Covers(widened, original)
  }

  predicate SelectorRemoved(original: Detail, widened: Detail)
    requires |original.chain| == |widened.chain|
  {
    exists i :: 0 <= i < |original.chain| && original.chain[i].selector.Some? && widened.chain[i].selector.None?
  }

  function NormalizedWidening(original: Detail, widened: Detail): Detail
    requires |original.chain| == |widened.chain|
  {
    original.(chain := widened.chain,
              permission := CanonicalOf(widened),
              display := if widened.display != "" then widened.display else original.display,
              constraints := if SelectorRemoved(original, widened) then None else original.constraints)
  }

  function NormalizedWidenings(originals: seq<Detail>, widened: seq<Detail>): Result<seq<Detail>, Error>
    requires |originals| == |widened|
  {
    if |originals| == 0 then Ok([])
    else if !ValidWidening(originals[0], widened[0]) then Err(InvalidWidening)
    else
      var rest := NormalizedWidenings(originals[1..], widened[1..]);
      if rest.Err? then rest else Ok([NormalizedWidening(originals[0], widened[0])] + rest.value)
  }

  function StoredPermissions(details: seq<Detail>): seq<string> {
    if |details| == 0 then [] else [details[0].permission] + StoredPermissions(details[1..])
  }

  function WidenedRequest(r: Request, details: seq<Detail>): Request {
    r.(details := Some(details), permissions := Some(StoredPermissions(details)), command := None, cmdHash := None)
  }

  // `approveGrantWithWidening`
  function ApproveWidened(s: Store, id: string, approver: string, now: int, widened: seq<Detail>,
                          grantType: Option<GrantType>, duration: Option<int>): (Store, Answer) {
    if id !in s.grants then (s, Err(NotFound))
    else if !s.grants[id].status.Pending? then (s, Err(NotPending))
    else if Referenced(s.grants[id].request) || SingleUse(s.grants[id].request) then (s, Err(SingleUseOnly))
    else
      var request := s.grants[id].request;
      var originals := CliDetails(DetailsOf(request));
      if |originals| == 0 then (s, Err(NothingToWiden))
      else if |widened| != |originals| then (s, Err(InvalidWidening))
      else
        match NormalizedWidenings(originals, widened)
        case Err(e) => (s, Err(e))
        case Ok(details) =>
          ApplyExtension(s, id, approver, now, WidenedRequest(request, details), [], grantType, duration)
  }

  method ApproveGrantWithWidening(store: InMemoryGrantStore, id: string, approver: string, now: int,
                                  widened: seq<Detail>,
                                  grantType: Option<GrantType>, duration: Option<int>) returns (r: Answer)
    modifies store
    ensures (store.Value(), r) == ApproveWidened(old(store.Value()), id, approver, now, widened, grantType, duration)
  {
    hide Store.UpdateStatus, Approve, SingleUse, CliDetails, NormalizedWidenings, StoredPermissions;
    var found := store.FindById(id);
    if found.None? {
      return Err(NotFound);
    }
    var pending := found.value;
    if pending.status != Pending {
      return Err(NotPending);
    }
    if Referenced(pending.request) || SingleUse(pending.request) {
      return Err(SingleUseOnly);
    }
    var originals := CliDetails(DetailsOf(pending.request));
    if |originals| == 0 {
      return Err(NothingToWiden);
    }
    if |widened| != |originals| {
      return Err(InvalidWidening);
    }
    var details := NormalizedWidenings(originals, widened);
    if details.Err? {
      return Err(details.error);
    }
    var failure := store.UpdateStatus(id, Pending,
                                      NO_EXTRA.(request := Some(WidenedRequest(pending.request, details.value))));
    if failure.Some? {
      return Err(failure.value);
    }
    r := ApproveGrant(store, id, approver, now, Overrides(grantType, duration, None, []));
  }

  // ---------------------------------------------------------------- withdrawal

  datatype Withdrawal =
    | Unknown
    | WasWithdrawn(id: string, previous: Status)
    | AlreadyDecided(id: string, status: Status)

  const ANY_GRANT := Params(None, None, None, None, None, None, None, None, None, None)

  // The first grant of `listGrants({ referenceKey, limit: 1 })`.
  function FindByKey(s: Store, key: string): Option<Grant> {
    var page := ListGrants(Listed(s.grants, s.order), ANY_GRANT.(referenceKey := Some(key), limit := Some(1)));
    if page.None? || |page.value.data| == 0 then None else Some(page.value.data[0])
  }

  // How a withdrawal that changed nothing reports the state that won.
  function Report(g: Grant): Result<Withdrawal, Error> {
    if g.status.Withdrawn? then Ok(WasWithdrawn(g.id, Withdrawn))
    else if g.status in {Denied, Revoked, Expired, Used} then Ok(AlreadyDecided(g.id, g.status))
    else Err(NotSettled)
  }

  // `withdrawReferencedGrant`
  function Withdraw(s: Store, key: string, reason: Option<string>, now: int): (Store, Result<Withdrawal, Error>) {
    var g := FindByKey(s, key);
    if g.None? then (s, Ok(Unknown))
    else
      var (t, previous) := if g.value.status.Pending? || g.value.status.Approved?
        then s.Withdraw(g.value.id, now, reason) else (s, None);
      if previous.Some? then (t, Ok(WasWithdrawn(g.value.id, previous.value)))
      else (t, Report(FindByKey(t, key).value))
  }

  method FindReferenced(store: InMemoryGrantStore, key: string) returns (g: Option<Grant>)
    requires Coherent(store.Value())
    ensures g == FindByKey(store.Value(), key)
  {
    ListedFacts(store.Value());
    var page := ListGrantsInSteps(Listed(store.grants, store.order),
                                  ANY_GRANT.(referenceKey := Some(key), limit := Some(1)));
    return if page.None? || |page.value.data| == 0 then None else Some(page.value.data[0]);
  }

  method WithdrawReferencedGrant(store: InMemoryGrantStore, key: string, reason: Option<string>, now: int)
      returns (r: Result<Withdrawal, Error>)
    requires Coherent(store.Value())
    modifies store
    ensures (store.Value(), r) == Withdraw(old(store.Value()), key, reason, now)
  {
    hide FindByKey;
    var g := FindReferenced(store, key);
    if g.None? {
      return Ok(Unknown);
    }
    var previous: Option<Status> := None;
    if g.value.status == Pending || g.value.status == Approved {
      previous := store.Withdraw(g.value.id, now, reason);
    }
    if previous.Some? {
      return Ok(WasWithdrawn(g.value.id, previous.value));
    }
    g := FindReferenced(store, key);
    return Report(g.value);
  }
}
