// What each call of the store and each grant operation refuses, answers and writes, said of
// the fields of the grant (packages/grants/src/stores.ts, packages/grants/src/grants.ts).
module GrantOutcomes {
  import opened Wrappers
  import Text
  import opened CliPermissions
  import opened CliWidening
  import opened GrantStore
  import opened GrantListing
  import opened GrantOperations
  import opened GrantRuns
  import opened GrantExtension
  import GrantAnswers

  // The store in which one grant was replaced or added.
  ghost predicate OnlyChanges(s: Store, t: Store, id: string) {
    && t.consumed == s.consumed && id in t.grants
    && (forall other :: other != id ==> (other in t.grants <==> other in s.grants))
    && (forall other :: other != id && other in s.grants ==> t.grants[other] == s.grants[other])
    && t.order == if id in s.grants then s.order else s.order + [id]
  }

  // ---------------------------------------------------------------- the store

  // A reference can bind only a request that repeats exactly one command, once, for the
  // requester itself.
  ghost predicate BindsOneCommand(r: Request) {
    && r.reference.Some? && (exists c :: c in r.reference.value && !Text.IsSpace(c))
    && r.grantType == Some(Once) && r.duration.None?
    && r.command.Some? && r.command.value != [] && (forall arg :: arg in r.command.value ==> '\0' !in arg)
    && r.runAs in {None, Some("")} && r.delegator in {None, Some("")} && r.delegate in {None, Some("")}
    && r.scopes.None?
  }

  lemma {:induction false} TrimStartBlank(s: string)
    ensures Text.TrimStart(s) == "" <==> forall c :: c in s ==> Text.IsSpace(c)
    ensures Text.TrimStart(s) != "" ==> Text.TrimStart(s)[0] in s && !Text.IsSpace(Text.TrimStart(s)[0])
  {
    hide Text.IsSpace;
    if |s| > 0 {
      TrimStartBlank(s[1..]);
      assert s == [s[0]] + s[1..];
    }
  }

  lemma {:induction false} TrimEndKeeps(s: string)
    requires |s| > 0 && !Text.IsSpace(s[0])
    ensures |Text.TrimEnd(s)| > 0
  {
    hide Text.IsSpace;
    if |s| > 1 && Text.IsSpace(s[|s| - 1]) { TrimEndKeeps(s[..|s| - 1]); }
  }

  lemma TrimBlank(s: string)
    ensures Text.Trim(s) != "" <==> exists c :: c in s && !Text.IsSpace(c)
  {
    TrimStartBlank(s);
    hide Text.IsSpace;
    if Text.TrimStart(s) != "" { TrimEndKeeps(Text.TrimStart(s)); }
  }

  lemma ReferencesBindOneCommand(r: Request)
    ensures ExactCommand(r) <==> BindsOneCommand(r)
  {
    if r.reference.Some? { TrimBlank(r.reference.value); }
    hide Text.Trim, Text.IsSpace;
  }

  // Inserting a grant with a reference: exactly the requests that bind one command are
  // accepted; a known key answers the grant that has it, if it asks for the same.
  lemma CreateReferencedOutcome(s: Store, g: Grant)
    requires Keyed(s)
    ensures var r := s.CreateReferenced(g);
            && (!BindsOneCommand(g.request) ==> r == Err(InvalidReference))
            && (BindsOneCommand(g.request) && (forall id :: id in s.grants ==> !HasKey(s.grants[id], GrantKey(g))) ==>
                  r.Ok? && r.value.created && r.value.grant == g
                  && OnlyChanges(s, r.value.store, g.id) && r.value.store.grants[g.id] == g)
            && (BindsOneCommand(g.request) ==>
                  forall id :: id in s.grants && HasKey(s.grants[id], GrantKey(g)) ==>
                    r == if AuthorityOf(s.grants[id].request) == AuthorityOf(g.request)
                         then Ok(Creation(s, s.grants[id], false)) else Err(ReferenceConflict))
  {
    hide *;
    ReferencesBindOneCommand(g.request);
    if ExactCommand(g.request) {
      UnknownKeyOutcome(s, g);
      forall id | id in s.grants && HasKey(s.grants[id], GrantKey(g))
        ensures s.CreateReferenced(g) == if AuthorityOf(s.grants[id].request) == AuthorityOf(g.request)
                                         then Ok(Creation(s, s.grants[id], false)) else Err(ReferenceConflict)
      {
        KnownKeyOutcome(s, g, id);
      }
    } else {
      InexactOutcome(s, g);
    }
  }

  lemma InexactOutcome(s: Store, g: Grant)
    requires !ExactCommand(g.request)
    ensures s.CreateReferenced(g) == Err(InvalidReference)
  {
    hide ExactCommand;
  }

  lemma UnknownKeyOutcome(s: Store, g: Grant)
    requires ExactCommand(g.request)
    ensures g.request.reference.Some?
    ensures var r := s.CreateReferenced(g);
            (forall id :: id in s.grants ==> !HasKey(s.grants[id], GrantKey(g))) ==>
              && r.Ok? && r.value.created && r.value.grant == g
              && OnlyChanges(s, r.value.store, g.id) && r.value.store.grants[g.id] == g
  {
    ExactIsReferenced(g.request);
    FirstOfFacts(s.grants, s.order, GrantKey(g));
    hide ExactCommand, FirstOf, KeyOf, SameReferenced;
  }

  lemma KnownKeyOutcome(s: Store, g: Grant, id: string)
    requires Keyed(s) && ExactCommand(g.request) && id in s.grants && HasKey(s.grants[id], GrantKey(g))
    ensures s.CreateReferenced(g) == if AuthorityOf(s.grants[id].request) == AuthorityOf(g.request)
                                     then Ok(Creation(s, s.grants[id], false)) else Err(ReferenceConflict)
  {
    ExactIsReferenced(g.request);
    FirstOfUnique(s, id, GrantKey(g));
    KeyDecidesReference(s.grants[id], g);
    hide Keyed, ExactCommand, FirstOf, KeyOf, AuthorityOf;
  }

  // Saving refuses a request that has a reference and otherwise stores the grant as it is.
  lemma SaveOutcome(s: Store, g: Grant)
    ensures g.request.reference.Some? ==> s.Save(g) == Err(UseCreateReferenced)
    ensures g.request.reference.None? ==>
              s.Save(g).Ok? && OnlyChanges(s, s.Save(g).value, g.id) && s.Save(g).value.grants[g.id] == g
  {
  }

  // An update writes the status and the properties it is given, and keeps the others; it is
  // refused for unknown grants and where it would bind a reference to something else.
  lemma UpdateOutcome(s: Store, id: string, status: Status, extra: Extra)
    ensures var r := s.UpdateStatus(id, status, extra);
            && (id !in s.grants ==> r == Err(NotFound))
            && (id in s.grants ==>
                  var g := s.grants[id];
                  && (r.Err? <==> g.request.reference.Some? && g.request.reference.value != "" && extra.request.Some?
                                  && !SameReferenced(g, g.(request := extra.request.value)))
                  && (r.Err? ==> r == Err(ReferenceConflict))
                  && (r.Ok? ==>
                        var h := r.value.grants[id];
                        && OnlyChanges(s, r.value, id)
                        && h.status == status
                        && h.request == (if extra.request.None? then g.request else extra.request.value)
                        && h.decidedBy == (if extra.decidedBy.None? then g.decidedBy else extra.decidedBy)
                        && h.decidedAt == (if extra.decidedAt.None? then g.decidedAt else extra.decidedAt)
                        && h.expiresAt == (if extra.expiresAt.None? then g.expiresAt else extra.expiresAt)
                        && h.id == g.id && h.category == g.category && h.brokered == g.brokered
                        && h.createdAt == g.createdAt && h.usedAt == g.usedAt && h.withdrawReason == g.withdrawReason))
  {
    hide SameReferenced;
  }

  // Claiming succeeds exactly for approved grants, which become used then.
  lemma ClaimOutcome(s: Store, id: string, at: int)
    ensures var (t, claimed) := s.ClaimOnce(id, at);
            && (claimed <==> id in s.grants && s.grants[id].status == Approved)
            && (claimed ==> t == s.(grants := s.grants[id := s.grants[id].(status := Used, usedAt := Some(at))]))
            && (!claimed ==> t == s)
  {
  }

  // Withdrawing succeeds exactly for pending grants and approved `once` grants, and answers
  // the status it replaced; a reason that is given replaces the one before.
  lemma StoreWithdrawOutcome(s: Store, id: string, at: int, reason: Option<string>)
    ensures var (t, previous) := s.Withdraw(id, at, reason);
            && (previous.Some? <==>
                  && id in s.grants
                  && (s.grants[id].status == Pending
                      || (s.grants[id].status == Approved && s.grants[id].request.grantType == Some(Once))))
            && (previous.None? ==> t == s)
            && (previous.Some? ==>
                  var g := s.grants[id];
                  && previous == Some(g.status)
                  && t == s.(grants := s.grants[id := g.(status := Withdrawn, decidedAt := Some(at),
                                                        withdrawReason := if reason.None? then g.withdrawReason
                                                                          else reason)]))
  {
  }

  // A redemption is recorded exactly the first time, for a stored grant, with its token.
  lemma ConsumptionOutcome(s: Store, id: string, jti: string)
    ensures var (t, first) := s.MarkConsumed(id, jti);
            && (first <==> id in s.grants && id !in s.consumed)
            && t == if first then s.(consumed := s.consumed[id := jti]) else s
  {
  }

  // ---------------------------------------------------------------- creation

  // A request without a reference becomes a pending grant created now; one with a reference
  // is inserted as such a grant.
  lemma CreationOutcome(s: Store, id: string, request: Request, now: nat)
    ensures var g := Grant(id, None, request, None, Pending, now, None, None, None, None, None);
            var (t, r) := Create(s, id, request, now);
            if request.reference.None? then r == Ok(g) && OnlyChanges(s, t, id) && t.grants[id] == g
            else
              match s.CreateReferenced(g)
              case Ok(c) => t == c.store && r == Ok(c.grant)
              case Err(e) => t == s && r == Err(e)
  {
    hide Store.CreateReferenced;
  }

  // A delegation is a grant of the delegator to the delegate for the audience.
  lemma DelegationOutcome(s: Store, id: string, delegator: string, delegate: string, audience: string,
                          scopes: Option<seq<string>>, grantType: GrantType, duration: Option<int>, now: nat, at: int)
    ensures var request := DelegationRequest(delegator, delegate, audience, scopes, grantType, duration);
            var (t, r) := Delegate(s, id, request, now, at);
            && id in t.grants
            && var g := t.grants[id];
            && g.id == id && g.category == Some(Delegation) && g.createdAt == now && g.brokered.None?
            && g.request.requester == delegator && g.request.delegator == Some(delegator)
            && g.request.delegate == Some(delegate)
            && g.request.audience == audience && g.request.targetHost == audience
            && g.request.scopes == scopes && g.request.grantType == Some(grantType) && g.request.duration == duration
            && (if grantType == Timed && duration in {None, Some(0)} then
                  r == Err(DurationRequired) && g.status == Pending && g.decidedBy.None? && g.expiresAt.None?
                else
                  && r == Ok(g) && g.status == Approved && g.decidedBy == Some(delegator) && g.decidedAt == Some(at)
                  && g.expiresAt == if grantType == Timed then Some(at + duration.value) else None)
  {
    var request := DelegationRequest(delegator, delegate, audience, scopes, grantType, duration);
    assert !SingleUse(request);
    hide SingleUse;
  }

  // ---------------------------------------------------------------- approval

  // A detail that asks for one exact single-use approval.
  ghost predicate AsksSingleUse(r: Request) {
    r.details.Some? && exists d :: d in r.details.value && d.kind == "openape_cli"
                                   && d.constraints.Some? && d.constraints.value.singleUse
  }

  // The type of an approval is the approver's choice if there is one, else what was asked
  // for, else `once`; so is the duration, without a last resort. Unknown and decided grants,
  // referenced grants whose binding would change, single-use requests that would last, and
  // timed grants without a duration are refused in this order, and nothing changes.
  lemma ApprovalOutcome(s: Store, id: string, approver: string, now: int, o: Overrides)
    requires Inv(s)
    ensures var (t, r) := Approve(s, id, approver, now, o);
            if id !in s.grants then r == Err(NotFound) && t == s
            else
              var g := s.grants[id];
              var asked := if g.request.grantType.None? then Once else g.request.grantType.value;
              var kind := match o.grantType case Some(chosen) => chosen case None => asked;
              var duration := match o.duration case Some(chosen) => Some(chosen) case None => g.request.duration;
              if g.status != Pending then r == Err(NotPending) && t == s
              else if g.request.reference.Some? && g.request.reference.value != ""
                      && (kind != Once || duration != None || o.extendMode != None || o.extendIds != [])
                then r == Err(BoundToReference) && t == s
              else if AsksSingleUse(g.request) && kind != Once then r == Err(SingleUseOnly) && t == s
              else if kind == Timed && duration in {None, Some(0)} then r == Err(DurationRequired) && t == s
              else
                && OnlyChanges(s, t, id) && r == Ok(t.grants[id])
                && t.grants[id] == g.(status := Approved, decidedBy := Some(approver), decidedAt := Some(now),
                                      expiresAt := if kind == Timed then Some(now + duration.value) else None,
                                      request := g.request.(grantType := Some(kind), duration := duration))
  {
    if id in s.grants {
      var g := s.grants[id];
      RefusalCases(g, approver, now, o);
      GrantAnswers.ApprovalAnswers(s, id, approver, now, o);
      ApprovalWrites(s, id, approver, now, o);
      hide Approve, ApprovalOf, AsksSingleUse, EffectiveType, GrantAnswers.CanApprove, OnlyChanges, Inv;
    }
  }

  // Why the approval of a known grant is refused.
  lemma RefusalCases(g: Grant, approver: string, now: int, o: Overrides)
    ensures var asked := if g.request.grantType.None? then Once else g.request.grantType.value;
            var kind := match o.grantType case Some(chosen) => chosen case None => asked;
            var duration := match o.duration case Some(chosen) => Some(chosen) case None => g.request.duration;
            var r := ApprovalOf(g, approver, now, o);
            && kind == EffectiveType(g.request, o) && duration == Or(o.duration, g.request.duration)
            && (if g.status != Pending then r == Err(NotPending)
                else if g.request.reference.Some? && g.request.reference.value != ""
                        && (kind != Once || duration != None || o.extendMode != None || o.extendIds != [])
                  then r == Err(BoundToReference)
                else if AsksSingleUse(g.request) && kind != Once then r == Err(SingleUseOnly)
                else if kind == Timed && duration in {None, Some(0)} then r == Err(DurationRequired)
                else r.Ok?)
  {
    assert AsksSingleUse(g.request) <==> SingleUse(g.request);
    hide AsksSingleUse, SingleUse;
  }

  lemma ApprovalWrites(s: Store, id: string, approver: string, now: int, o: Overrides)
    requires Inv(s) && id in s.grants
    ensures var (t, r) := Approve(s, id, approver, now, o);
            && (ApprovalOf(s.grants[id], approver, now, o).Err? ==>
                  r == Err(ApprovalOf(s.grants[id], approver, now, o).error) && t == s)
            && (ApprovalOf(s.grants[id], approver, now, o).Ok? ==>
                  && r.Ok? && OnlyChanges(s, t, id)
                  && t.grants[id].(status := s.grants[id].status, decidedBy := s.grants[id].decidedBy,
                                   decidedAt := s.grants[id].decidedAt, expiresAt := s.grants[id].expiresAt,
                                   request := s.grants[id].request) == s.grants[id])
  {
    var g := s.grants[id];
    assert GrantOk(g);
    GrantAnswers.ApprovalOfAnswers(g, approver, now, o);
    hide ApprovalOf, EffectiveType, GrantAnswers.CanApprove, GrantOk;
  }

  // ---------------------------------------------------------------- decisions and use

  lemma DenialOutcome(s: Store, id: string, denier: string, now: int)
    ensures var (t, r) := Deny(s, id, denier, now);
            if id !in s.grants then r == Err(NotFound) && t == s
            else if s.grants[id].status != Pending then r == Err(NotPending) && t == s
            else
              && OnlyChanges(s, t, id) && r == Ok(t.grants[id])
              && t.grants[id] == s.grants[id].(status := Denied, decidedBy := Some(denier), decidedAt := Some(now))
  {
  }

  lemma RevocationOutcome(s: Store, id: string)
    ensures var (t, r) := Revoke(s, id);
            if id !in s.grants then r == Err(NotFound) && t == s
            else if s.grants[id].status !in {Pending, Approved} then r == Err(NotRevocable) && t == s
            else
              && OnlyChanges(s, t, id) && r == Ok(t.grants[id]) && t.grants[id] == s.grants[id].(status := Revoked)
  {
  }

  // Introspection answers every stored grant as it is, except an approved timed grant whose
  // expiry has come: that becomes expired first.
  lemma IntrospectionOutcome(s: Store, id: string, now: int)
    ensures var (t, r) := Introspect(s, id, now);
            if id !in s.grants then r == Err(NotFound) && t == s
            else
              var g := s.grants[id];
              if g.status == Approved && g.request.grantType == Some(Timed) && g.expiresAt.Some?
                 && g.expiresAt != Some(0) && g.expiresAt.value <= now
              then OnlyChanges(s, t, id) && r == Ok(t.grants[id]) && t.grants[id] == g.(status := Expired)
              else r == Ok(g) && t == s
  {
  }

  // Only what introspection answers as approved can be used; a `once` grant is spent.
  lemma UseOutcome(s: Store, id: string, now: int, usedAt: int)
    ensures var (seen, found) := Introspect(s, id, now);
            var (t, r) := Use(s, id, now, usedAt);
            if id !in s.grants then r == Err(NotFound) && t == s
            else if found.Ok? && found.value.status != Approved then r == Err(NotApproved) && t == seen
            else if s.grants[id].request.grantType == Some(Once) then
              && OnlyChanges(s, t, id) && r == Ok(t.grants[id])
              && t.grants[id] == s.grants[id].(status := Used, usedAt := Some(usedAt))
            else r == Ok(s.grants[id]) && t == s
  {
    IntrospectionOutcome(s, id, now);
  }

  // ---------------------------------------------------------------- extension

  // The facts of a request that bind a shape; no shape has none.
  function OwnerOf(r: Request): Option<string> {
    match r.shape case None => None case Some(tier) => tier.owner
  }

  function DomainOf(r: Request): Option<string> {
    match r.shape case None => None case Some(tier) => tier.domain
  }

  function DigestOf(r: Request): Option<string> {
    match r.shape case None => None case Some(tier) => tier.digest
  }

  predicate NoOwner(r: Request) {
    OwnerOf(r) in {None, Some("")} && DomainOf(r) in {None, Some("")}
  }

  // An old grant fits the pending one: same host and audience, and the same owner, domain and
  // digest of the shape unless neither has an owner or a domain.
  predicate Fitting(earlier: Request, pending: Request) {
    && earlier.targetHost == pending.targetHost && earlier.audience == pending.audience
    && ((NoOwner(earlier) && NoOwner(pending))
        || (OwnerOf(earlier) == OwnerOf(pending) && DomainOf(earlier) == DomainOf(pending)
            && DigestOf(earlier) == DigestOf(pending)))
  }

  lemma FittingIsExtendable(earlier: Grant, pending: Grant)
    ensures Extendable(earlier, pending) <==> Fitting(earlier.request, pending.request)
  {
    var x, y := TierFacts(earlier.request.shape), TierFacts(pending.request.shape);
    assert x.owner == OwnerOf(earlier.request) && x.domain == DomainOf(earlier.request);
    assert y.owner == OwnerOf(pending.request) && y.domain == DomainOf(pending.request);
    assert x.digest == DigestOf(earlier.request) && y.digest == DigestOf(pending.request);
    BlankTexts();
  }

  lemma BlankTexts()
    ensures forall o: Option<string> :: Falsy(o) <==> o in {None, Some("")}
  {
  }

  // The old grants are found exactly if every listed id names an approved grant that fits, and
  // then they are those grants in the order of the list.
  lemma {:induction false} OldGrantsOutcome(s: Store, pending: Grant, ids: seq<string>)
    ensures OldGrants(s, pending, ids).Ok? <==>
              forall i :: 0 <= i < |ids| ==>
                ids[i] in s.grants && s.grants[ids[i]].status == Approved
                && Fitting(s.grants[ids[i]].request, pending.request)
    ensures OldGrants(s, pending, ids).Ok? ==>
              && |OldGrants(s, pending, ids).value| == |ids|
              && forall i :: 0 <= i < |ids| ==>
                   ids[i] in s.grants && OldGrants(s, pending, ids).value[i] == s.grants[ids[i]]
    decreases |ids|
  {
    hide Extendable, Fitting;
    if |ids| > 0 {
      assert forall i :: 0 <= i < |ids| - 1 ==> ids[1..][i] == ids[i + 1];
      OldGrantsOutcome(s, pending, ids[1..]);
      if ids[0] in s.grants { FittingIsExtendable(s.grants[ids[0]], pending); }
    }
  }

  // An extension passes its checks exactly for a pending grant without a reference and
  // without single-use details, if all listed grants are approved and fit.
  lemma ExtensionChecks(s: Store, id: string, ids: seq<string>)
    ensures Checked(s, id, ids) <==>
              && id in s.grants && s.grants[id].status == Pending
              && s.grants[id].request.reference in {None, Some("")} && !AsksSingleUse(s.grants[id].request)
              && forall i :: 0 <= i < |ids| ==>
                   ids[i] in s.grants && s.grants[ids[i]].status == Approved
                   && Fitting(s.grants[ids[i]].request, s.grants[id].request)
  {
    if id in s.grants {
      OldGrantsOutcome(s, s.grants[id], ids);
      assert AsksSingleUse(s.grants[id].request) <==> SingleUse(s.grants[id].request);
    }
    hide OldGrants, AsksSingleUse, SingleUse, Fitting;
  }

  // An extension that fails its checks changes nothing and says why: first the pending grant,
  // then the first listed grant that is missing, not approved or does not fit.
  lemma FailedExtensionChecks(s: Store, id: string, approver: string, now: int, mode: ExtendMode, ids: seq<string>,
                              grantType: Option<GrantType>, duration: Option<int>)
    requires !Checked(s, id, ids)
    ensures var (t, r) := Extend(s, id, approver, now, mode, ids, grantType, duration);
            && t == s && r.Err?
            && (id !in s.grants ==> r.error == NotFound)
            && (id in s.grants && s.grants[id].status != Pending ==> r.error == NotPending)
            && (id in s.grants && s.grants[id].status == Pending
                && (s.grants[id].request.reference !in {None, Some("")} || AsksSingleUse(s.grants[id].request))
                ==> r.error == SingleUseOnly)
            && (id in s.grants && s.grants[id].status == Pending && s.grants[id].request.reference in {None, Some("")}
                && !AsksSingleUse(s.grants[id].request)
                ==> r.error == FirstMisfit(s, s.grants[id].request, ids))
  {
    if id in s.grants {
      FirstMisfitIsError(s, s.grants[id], ids);
      assert AsksSingleUse(s.grants[id].request) <==> SingleUse(s.grants[id].request);
    }
    hide OldGrants, AsksSingleUse, SingleUse, ExtendedRequest, ApplyExtension, FirstMisfit;
  }

  // What is wrong with the first listed grant that cannot be extended.
  function FirstMisfit(s: Store, pending: Request, ids: seq<string>): Error {
    if |ids| == 0 || ids[0] !in s.grants then NotFound
    else if s.grants[ids[0]].status != Approved then NotApproved
    else if Fitting(s.grants[ids[0]].request, pending) then FirstMisfit(s, pending, ids[1..])
    else ExtensionMismatch
  }

  lemma {:induction false} FirstMisfitIsError(s: Store, pending: Grant, ids: seq<string>)
    ensures OldGrants(s, pending, ids).Err? ==> OldGrants(s, pending, ids) == Err(FirstMisfit(s, pending.request, ids))
    decreases |ids|
  {
    hide Extendable, Fitting;
    if |ids| > 0 && ids[0] in s.grants {
      FittingIsExtendable(s.grants[ids[0]], pending);
      FirstMisfitIsError(s, pending, ids[1..]);
    }
  }

  lemma {:induction false} PermissionsAt(details: seq<Detail>)
    ensures |Permissions(details)| == |details|
    ensures forall i :: 0 <= i < |details| ==> Permissions(details)[i] == CanonicalOf(details[i])
  {
    if |details| > 0 { PermissionsAt(details[1..]); }
  }

  // The request of an extended grant: the permissions are those of its details, the command
  // stays in merge mode and goes in widen mode, and nothing else changes.
  lemma ExtendedRequestFields(mode: ExtendMode, r: Request, olds: seq<Grant>)
    ensures var q := ExtendedRequest(mode, r, olds);
            && q.details.Some? && q.permissions.Some? && |q.permissions.value| == |q.details.value|
            && (forall i :: 0 <= i < |q.details.value| ==>
                  q.permissions.value[i] == CanonicalOf(q.details.value[i])
                  && q.details.value[i].permission == CanonicalOf(q.details.value[i]))
            && (mode == MergeMode ==> q == r.(details := q.details, permissions := q.permissions))
            && (mode == WidenMode ==>
                  q == r.(details := q.details, permissions := q.permissions, command := None, cmdHash := None))
  {
    var all := Candidates(mode, CliDetails(DetailsOf(r)), olds);
    PermissionsAt(Merged(all));
    MergedCanonical(all);
    hide Candidates, Merged, Permissions, CanonicalOf;
  }

  lemma MergedCanonical(all: seq<Detail>)
    ensures forall i :: 0 <= i < |Merged(all)| ==> Merged(all)[i].permission == CanonicalOf(Merged(all)[i])
  {
    MergedFacts(all);
    hide Merged, Canonical;
    forall i | 0 <= i < |Merged(all)| ensures Merged(all)[i].permission == CanonicalOf(Merged(all)[i]) {
      assert Merged(all)[i] in Merged(all);
    }
  }

  // ---------------------------------------------------------------- widening

  // A detail may replace another if it is of the same tool, operation and action on the same
  // kinds of resources, and covers it.
  lemma ValidWideningFields(original: Detail, widened: Detail)
    ensures ValidWidening(original, widened) <==>
              && widened.kind == "openape_cli" && widened.cliId == original.cliId
              && widened.operationId == original.operationId && widened.action == original.action
              && |widened.chain| == |original.chain|
              && (forall i :: 0 <= i < |original.chain| ==> widened.chain[i].resource == original.chain[i].resource)
              && Covers(widened, original)
  {
    hide RefCovers;
  }

  // What the original keeps when it is replaced, and what the chosen detail brings.
  lemma NormalizedWideningFields(original: Detail, widened: Detail)
    requires |original.chain| == |widened.chain|
    ensures var d := NormalizedWidening(original, widened);
            && d.kind == original.kind && d.cliId == original.cliId && d.operationId == original.operationId
            && d.action == original.action && d.risk == original.risk && d.chain == widened.chain
            && d.permission == Canonical(widened.cliId, widened.chain, widened.action)
            && d.display == (if widened.display == "" then original.display else widened.display)
            && ((exists i :: 0 <= i < |original.chain| && original.chain[i].selector != None
                             && widened.chain[i].selector == None)
                ==> d.constraints == None)
            && ((forall i :: 0 <= i < |original.chain| && original.chain[i].selector != None ==>
                   widened.chain[i].selector != None)
                ==> d.constraints == original.constraints)
  {
    hide Canonical;
  }

  lemma {:induction false} StoredPermissionsAt(details: seq<Detail>)
    ensures |StoredPermissions(details)| == |details|
    ensures forall i :: 0 <= i < |details| ==> StoredPermissions(details)[i] == details[i].permission
  {
    if |details| > 0 { StoredPermissionsAt(details[1..]); }
  }

  // Applying a request keeps its command, whether or not the approval goes through.
  lemma AppliedCommand(s: Store, id: string, approver: string, now: int, request: Request,
                       grantType: Option<GrantType>, duration: Option<int>)
    requires id in s.grants && !Referenced(s.grants[id].request)
    ensures var t := ApplyExtension(s, id, approver, now, request, [], grantType, duration).0;
            id in t.grants && t.grants[id].request.command == request.command
            && t.grants[id].request.cmdHash == request.cmdHash
  {
    hide SingleUse, KeyOf, SameReferenced;
  }

  // The refusals of a widening before anything is written, in their order.
  lemma WideningRefusals(s: Store, id: string, approver: string, now: int, widened: seq<Detail>,
                         grantType: Option<GrantType>, duration: Option<int>)
    ensures var (t, r) := ApproveWidened(s, id, approver, now, widened, grantType, duration);
            if id !in s.grants then r == Err(NotFound) && t == s
            else
              var g, originals := s.grants[id], CliDetails(DetailsOf(s.grants[id].request));
              if g.status != Pending then r == Err(NotPending) && t == s
              else if g.request.reference !in {None, Some("")} || AsksSingleUse(g.request) then
                r == Err(SingleUseOnly) && t == s
              else if originals == [] then r == Err(NothingToWiden) && t == s
              else if |widened| != |originals|
                      || exists i :: 0 <= i < |originals| && !ValidWidening(originals[i], widened[i])
                then r == Err(InvalidWidening) && t == s
              else id in t.grants && t.grants[id].request.command == None && t.grants[id].request.cmdHash == None
  {
    if id in s.grants {
      var g, originals := s.grants[id], CliDetails(DetailsOf(s.grants[id].request));
      assert AsksSingleUse(g.request) <==> SingleUse(g.request);
      if |widened| == |originals| {
        NormalizedWideningsFacts(originals, widened);
        InvalidIsError(originals, widened);
      }
      BlankTexts();
      assert Referenced(g.request) <==> !Falsy(g.request.reference);
      hide AsksSingleUse, SingleUse, CliDetails, NormalizedWidenings, ValidWidening, StoredPermissions, Falsy,
           ApplyExtension;
      if |widened| == |originals| && !Referenced(g.request) {
        match NormalizedWidenings(originals, widened)
        case Err(_) =>
        case Ok(details) =>
          AppliedCommand(s, id, approver, now, WidenedRequest(g.request, details), grantType, duration);
      }
    }
  }

  lemma {:induction false} InvalidIsError(originals: seq<Detail>, widened: seq<Detail>)
    requires |originals| == |widened|
    ensures NormalizedWidenings(originals, widened).Err? ==>
              NormalizedWidenings(originals, widened).error == InvalidWidening
  {
    hide ValidWidening, NormalizedWidening;
    if |originals| > 0 { InvalidIsError(originals[1..], widened[1..]); }
  }

  // ---------------------------------------------------------------- withdrawal

  // A key that no grant has is unknown; a pending or approved grant is withdrawn; any other
  // is reported as it is.
  lemma WithdrawalOutcome(s: Store, key: string, reason: Option<string>, now: int)
    requires Inv(s) && key != ""
    ensures var (t, r) := Withdraw(s, key, reason, now);
            && ((forall id :: id in s.grants ==> !HasKey(s.grants[id], key)) ==> t == s && r == Ok(Unknown))
            && forall id :: id in s.grants && HasKey(s.grants[id], key) ==>
                 var g := s.grants[id];
                 match g.status
                 case Pending => r == Ok(WasWithdrawn(id, Pending)) && t == s.Withdraw(id, now, reason).0
                 case Approved => r == Ok(WasWithdrawn(id, Approved)) && t == s.Withdraw(id, now, reason).0
                 case Withdrawn => r == Ok(WasWithdrawn(id, Withdrawn)) && t == s
                 case Denied => r == Ok(AlreadyDecided(id, Denied)) && t == s
                 case Revoked => r == Ok(AlreadyDecided(id, Revoked)) && t == s
                 case Expired => r == Ok(AlreadyDecided(id, Expired)) && t == s
                 case Used => r == Ok(AlreadyDecided(id, Used)) && t == s
  {
    FindByKeyFacts(s, key);
    hide FindByKey, KeyOf, GrantOk;
    forall id | id in s.grants && HasKey(s.grants[id], key) ensures FindByKey(s, key) == Some(s.grants[id]) {
      KeyLeadsToOne(s, id, FindByKey(s, key), key);
    }
    if g: Grant :| FindByKey(s, key) == Some(g) { ReferencedIsOnce(s, g); }
  }
}
