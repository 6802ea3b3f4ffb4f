// When each grant operation succeeds, what it answers, and what a refusal leaves behind
// (packages/grants/src/grants.ts).
module GrantAnswers {
  import opened Wrappers
  import opened CliPermissions
  import opened GrantStore
  import opened GrantOperations
  import opened GrantRuns
  import opened GrantExtension

  // ---------------------------------------------------------------- creation

  // Only a referenced request can be refused, and a refusal changes nothing; the answer is
  // the stored grant, which is new and pending unless the reference was already bound.
  lemma CreationAnswers(s: Store, id: string, request: Request, now: nat)
    requires Inv(s) && id !in s.grants
    ensures var (t, r) := Create(s, id, request, now);
            && (r.Err? ==> t == s && request.reference.Some?)
            && (r.Ok? ==> r.value.id in t.grants && t.grants[r.value.id] == r.value)
            && (r.Ok? && r.value.id != id ==> t == s && AuthorityOf(r.value.request) == AuthorityOf(request))
            && (r.Ok? && r.value.id == id
                ==> r.value.status.Pending? && r.value.request == request && t.order == s.order + [id])
  {
    hide KeyOf, ExactCommand;
    if request.reference.Some? {
      FirstOfFacts(s.grants, s.order, KeyOf(request, None));
      hide FirstOf;
      assert forall i :: i in s.grants ==> s.grants[i].id == i;
    }
  }

  // A delegation fails exactly when it is timed without a duration, and then stays behind
  // as a pending grant.
  lemma DelegationAnswers(s: Store, id: string, request: Request, now: nat, approvedAt: int)
    requires Inv(s) && id !in s.grants && request.reference.None? && request.details.None?
    ensures var (t, r) := Delegate(s, id, request, now, approvedAt);
            && (r.Err? <==> request.grantType == Some(Timed) && (request.duration.None? || request.duration.value == 0))
            && id in t.grants && t.grants[id].status == (if r.Ok? then Approved else Pending)
            && (r.Ok? ==> r.value == t.grants[id] && r.value.decidedBy == Some(request.requester))
  {
    var g := NewGrant(id, request, now).(category := Some(Delegation));
    PutKeepsInv(s, g);
    ApprovalAnswers(s.Put(g), id, request.requester, approvedAt, NO_OVERRIDES);
    assert !SingleUse(request);
    hide Approve, Inv, SingleUse;
  }

  // ---------------------------------------------------------------- decisions

  // The pending grants that can be approved with these overrides.
  predicate CanApprove(g: Grant, o: Overrides) {
    && g.status.Pending?
    && (Referenced(g.request) ==>
          EffectiveType(g.request, o) == Once && Or(o.duration, g.request.duration).None? && o.extendMode.None?
          && o.extendIds == [])
    && Approvable(g.request, o)
  }

  lemma ApprovalOfAnswers(g: Grant, approver: string, now: int, o: Overrides)
    requires GrantOk(g)
    ensures var r, duration := ApprovalOf(g, approver, now, o), Or(o.duration, g.request.duration);
            && (r.Ok? <==> CanApprove(g, o))
            && (r.Ok? ==>
                  r.value == Extra(Some(approver), Some(now),
                                   if EffectiveType(g.request, o).Timed? then Some(now + duration.value) else None,
                                   Some(g.request.(grantType := Some(EffectiveType(g.request, o)),
                                                   duration := duration))))
            && (r.Ok? && g.request.reference.Some? ==> r.value.request == Some(g.request))
    ensures CanApprove(g, o) && EffectiveType(g.request, o).Timed? ==> Or(o.duration, g.request.duration).Some?
  {
    hide SingleUse;
  }

  // An approval succeeds exactly for such grants and writes the effective type and duration,
  // the decision and the expiry; a refusal changes nothing.
  lemma ApprovalAnswers(s: Store, id: string, approver: string, now: int, o: Overrides)
    requires Inv(s)
    ensures var (t, r) := Approve(s, id, approver, now, o);
            && (r.Ok? <==> id in s.grants && CanApprove(s.grants[id], o))
            && (r.Err? ==> t == s)
            && (r.Ok? ==>
                  var request := s.grants[id].request;
                  var duration := Or(o.duration, request.duration);
                  && Touches(s, t, id) && t.grants[id] == r.value && r.value.status.Approved?
                  && r.value.decidedBy == Some(approver) && r.value.decidedAt == Some(now)
                  && r.value.request == request.(grantType := Some(EffectiveType(request, o)), duration := duration)
                  && r.value.expiresAt == if EffectiveType(request, o).Timed? then Some(now + duration.value) else None)
  {
    if id in s.grants {
      var g := s.grants[id];
      assert GrantOk(g);
      ApprovalOfAnswers(g, approver, now, o);
      hide SingleUse, KeyOf, ApprovalOf, CanApprove, GrantOk;
    }
  }

  // Denying succeeds exactly for pending grants, revoking exactly for pending and approved
  // ones; neither touches anything else, and refusals change nothing.
  lemma DecisionAnswers(s: Store, id: string, denier: string, now: int)
    requires Inv(s)
    ensures var (t, r) := Deny(s, id, denier, now);
            && (r.Ok? <==> id in s.grants && s.grants[id].status.Pending?)
            && (r.Err? ==> t == s)
            && (r.Ok? ==> t == s.(grants := s.grants[id := r.value])
                          && r.value == s.grants[id].(status := Denied, decidedBy := Some(denier),
                                                      decidedAt := Some(now)))
    ensures var (t, r) := Revoke(s, id);
            && (r.Ok? <==> id in s.grants && !Terminal(s.grants[id].status))
            && (r.Err? ==> t == s)
            && (r.Ok? ==> t == s.(grants := s.grants[id := r.value]) && r.value == s.grants[id].(status := Revoked))
  {
  }

  // ---------------------------------------------------------------- use

  // A timed grant has expired once its duration after the decision has passed.
  predicate Outlived(g: Grant, now: int)
    requires g.decidedAt.Some? && g.request.duration.Some?
  {
    var end := g.decidedAt.value + g.request.duration.value;
    end != 0 && now >= end
  }

  // A use succeeds exactly for approved grants that have not outlived their duration; it
  // spends a once grant, leaves the others alone, and marks an outlived one expired.
  lemma UseAnswers(s: Store, id: string, now: int, usedAt: int)
    requires Inv(s)
    ensures var (t, r) := Use(s, id, now, usedAt);
            if id !in s.grants || !s.grants[id].status.Approved? then r.Err? && t == s
            else
              var g := s.grants[id];
              if g.request.grantType == Some(Timed) then
                && g.decidedAt.Some? && g.request.duration.Some?
                && (if Outlived(g, now) then r.Err? && t == s.(grants := s.grants[id := g.(status := Expired)])
                    else r == Ok(g) && t == s)
              else if g.request.grantType == Some(Once) then
                r == Ok(g.(status := Used, usedAt := Some(usedAt))) && t == s.(grants := s.grants[id := r.value])
              else r == Ok(g) && t == s
  {
    hide SingleUse, ExactCommand;
    if id in s.grants { assert GrantOk(s.grants[id]); }
  }

  // A once grant that was used can never be used again, whatever happens in between.
  lemma OnceIsSpentOnce(s: Store, id: string, now: int, usedAt: int, ops: seq<Op>, later: int, usedLater: int)
    requires Inv(s) && id in s.grants && s.grants[id].request.grantType == Some(Once)
    requires Use(s, id, now, usedAt).1.Ok? && AllowedRun(Use(s, id, now, usedAt).0, ops)
    ensures Use(Run(Use(s, id, now, usedAt).0, ops), id, later, usedLater).1.Err?
  {
    UseAnswers(s, id, now, usedAt);
    UseKeepsInv(s, id, now, usedAt);
    var t := Use(s, id, now, usedAt).0;
    hide Use, Inv, Run, AllowedRun;
    SettledStaysUnusable(t, id, ops, later, usedLater);
  }

  // A settled grant is never usable again over uninterrupted operations.
  lemma SettledStaysUnusable(s: Store, id: string, ops: seq<Op>, now: int, usedAt: int)
    requires Inv(s) && id in s.grants && Terminal(s.grants[id].status) && AllowedRun(s, ops)
    ensures Use(Run(s, ops), id, now, usedAt).1.Err?
  {
    hide Use, Inv, Run, AllowedRun, SameBinding;
    RunKeepsInv(s, ops);
    UseAnswers(Run(s, ops), id, now, usedAt);
  }

  // ---------------------------------------------------------------- failed widening

  // A widening whose details are fine but whose type cannot be approved fails, and leaves
  // the grant pending with the widened details in place of the requested ones.
  lemma FailedWideningKeepsDetails(s: Store, id: string, approver: string, now: int, widened: seq<Detail>,
                                   grantType: Option<GrantType>, duration: Option<int>)
    requires Inv(s) && id in s.grants && s.grants[id].status.Pending? && WideningChecked(s.grants[id].request, widened)
    requires ApproveWidened(s, id, approver, now, widened, grantType, duration).1.Err?
    ensures var t := ApproveWidened(s, id, approver, now, widened, grantType, duration).0;
            && id in t.grants && t.grants[id].status.Pending?
            && t.grants[id].request.details == Some(ChosenDetails(s.grants[id].request, widened))
  {
    WideningSteps(s, id, approver, now, widened, grantType, duration);
    hide ApproveWidened, Inv, SingleUse, NormalizedWidenings, CliDetails, StoredPermissions, WideningChecked,
         ChosenDetails;
  }

  // A widened detail keeps everything of the original but its selectors; its constraints are
  // dropped exactly when a selector was removed altogether.
  lemma WidenedDetailsKeepIdentity(r: Request, widened: seq<Detail>, i: nat)
    requires WideningChecked(r, widened) && i < |widened|
    ensures var original := CliDetails(DetailsOf(r))[i];
            var details := ChosenDetails(r, widened);
            && |details| == |widened|
            && details[i].kind == original.kind && details[i].cliId == original.cliId
            && details[i].action == original.action
            && details[i].operationId == original.operationId && details[i].risk == original.risk
            && details[i].chain == widened[i].chain && |original.chain| == |widened[i].chain|
            && details[i].constraints == if SelectorRemoved(original, widened[i]) then None else original.constraints
  {
    NormalizedWideningsFacts(CliDetails(DetailsOf(r)), widened);
    hide NormalizedWidenings, CanonicalOf, Covers, SelectorRemoved, SingleUse, CliDetails;
  }
}
