// Automatic approval by standing rules (packages/grants/src/standing-grants.ts).
module StandingGrants {
  import opened Wrappers
  import opened CliPermissions
  import opened GrantStore
  import opened GrantOperations
  import opened CoverageMeaning
  import Glob

  // The fields of a standing request that its evaluation reads.
  datatype Rule = Rule(
    delegate: string,
    audience: string,
    targetHost: Option<string>,
    cliId: Option<string>,
    template: seq<ResourceRef>,
    action: Option<string>,
    maxRisk: Option<Risk>,
    reason: Option<string>)

  // A stored grant; its request may not be a standing request at all.
  datatype Candidate = Candidate(id: string, requester: string, status: Status, rule: Option<Rule>,
                                 expiresAt: Option<int>)

  datatype Incoming = Incoming(requester: string, audience: string, targetHost: string, details: seq<Detail>)

  datatype Match = Match(standingGrantId: string, details: seq<Detail>)

  function RiskOrder(r: Risk): nat {
    match r
    case Low => 0
    case Medium => 1
    case High => 2
    case Critical => 3
  }

  predicate Truthy(s: Option<string>) {
    !Falsy(s)
  }

  // The expiry check of the evaluation.
  predicate Lapsed(expiresAt: Option<int>, now: int) {
    expiresAt.Some? && expiresAt.value != 0 && expiresAt.value < now
  }

  predicate Applicable(c: Candidate, incoming: Incoming, now: int) {
    && c.requester == incoming.requester
    && c.status.Approved?
    && c.rule.Some?
    && c.rule.value.delegate == incoming.requester
    && c.rule.value.audience == incoming.audience
    && (Truthy(c.rule.value.targetHost) ==> c.rule.value.targetHost.value in {"*", incoming.targetHost})
    && !Lapsed(c.expiresAt, now)
  }

  // `buildCoverageDetailFromStandingGrant`
  function CoverageDetail(rule: Rule, incoming: Detail): Detail {
    var cliId := if rule.cliId.Some? then rule.cliId.value else incoming.cliId;
    var action := if rule.action.Some? then rule.action.value else incoming.action;
    Detail(CLI_KIND, cliId, incoming.operationId, rule.template, action, Canonical(cliId, rule.template, action),
           if rule.reason.Some? then rule.reason.value else "standing:" + rule.delegate,
           if rule.maxRisk.Some? then rule.maxRisk.value else Critical, None)
  }

  // The nested `coversDetail`
  predicate RuleCovers(rule: Rule, d: Detail) {
    if Truthy(rule.cliId) && rule.cliId.value != d.cliId then false
    else if Truthy(rule.action) && rule.action.value != d.action then false
    else if rule.maxRisk.Some? && RiskOrder(d.risk) > RiskOrder(rule.maxRisk.value) then false
    else Covers(CoverageDetail(rule, d), d)
  }

  function ApplicableOf(candidates: seq<Candidate>, incoming: Incoming, now: int): (applicable: seq<Candidate>)
    ensures forall c :: c in applicable <==> c in candidates && Applicable(c, incoming, now)
  {
    if |candidates| == 0 then []
    else
      assert candidates == [candidates[0]] + candidates[1..];
      (if Applicable(candidates[0], incoming, now) then [candidates[0]] else [])
        + ApplicableOf(candidates[1..], incoming, now)
  }

  // The first applicable rule, oldest first, that covers a detail.
  function Coverer(applicable: seq<Candidate>, d: Detail): (c: Option<Candidate>)
    ensures c.Some? ==> c.value in applicable && c.value.rule.Some? && RuleCovers(c.value.rule.value, d)
    ensures c.None? ==> forall x :: x in applicable && x.rule.Some? ==> !RuleCovers(x.rule.value, d)
  {
    if |applicable| == 0 then None
    else
      assert applicable == [applicable[0]] + applicable[1..];
      if applicable[0].rule.Some? && RuleCovers(applicable[0].rule.value, d) then Some(applicable[0])
        else Coverer(applicable[1..], d)
  }

  // What is decided: all details are covered, and the rule that covers the first one is named.
  function Evaluation(candidates: seq<Candidate>, incoming: Incoming, now: int): Option<Match> {
    var cli := CliDetails(incoming.details);
    var applicable := ApplicableOf(candidates, incoming, now);
    if |cli| > 0 && forall d :: d in cli ==> Coverer(applicable, d).Some?
    then Some(Match(Coverer(applicable, cli[0]).value.id, cli)) else None
  }

  // The loop over the candidates.
  method CollectApplicable(candidates: seq<Candidate>, incoming: Incoming, now: int)
      returns (applicable: seq<Candidate>)
    ensures applicable == ApplicableOf(candidates, incoming, now)
  {
    hide Applicable;
    applicable := [];
    assert candidates[0..] == candidates;
    for n := 0 to |candidates|
      invariant applicable + ApplicableOf(candidates[n..], incoming, now) == ApplicableOf(candidates, incoming, now)
    {
      assert candidates[n..][1..] == candidates[n + 1..];
      ghost var rest := ApplicableOf(candidates[n + 1..], incoming, now);
      assert [] + rest == rest;
      if Applicable(candidates[n], incoming, now) {
        assert applicable + ([candidates[n]] + rest) == applicable + [candidates[n]] + rest;
        applicable := applicable + [candidates[n]];
      }
    }
    assert applicable + [] == applicable;
  }

  method EvaluateStandingGrants(candidates: seq<Candidate>, incoming: Incoming, now: int) returns (found: Option<Match>)
    ensures found == Evaluation(candidates, incoming, now)
  {
    hide RuleCovers, Applicable, ApplicableOf;
    var incomingCli := CliDetails(incoming.details);
    if |incomingCli| == 0 {
      return None;
    }
    var applicable := CollectApplicable(candidates, incoming, now);
    if |applicable| == 0 {
      assert incomingCli[0] in incomingCli && Coverer(applicable, incomingCli[0]).None?;
      return None;
    }
    var primaryId: Option<string> := None;
    for n := 0 to |incomingCli|
      invariant forall m :: 0 <= m < n ==> Coverer(applicable, incomingCli[m]).Some?
      invariant primaryId == if n == 0 then None else Some(Coverer(applicable, incomingCli[0]).value.id)
    {
      var coverer := Coverer(applicable, incomingCli[n]);
      if coverer.None? {
        assert incomingCli[n] in incomingCli;
        return None;
      }
      if primaryId.None? {
        primaryId := Some(coverer.value.id);
      }
    }
    return Some(Match(primaryId.value, incomingCli));
  }

  // ---------------------------------------------------------------- what a rule allows

  predicate AtMost(risk: Risk, cap: Risk) {
    match cap
    case Low => risk == Low
    case Medium => risk == Low || risk == Medium
    case High => risk != Critical
    case Critical => true
  }

  // A template allows references to its kind of resource that state a matching value for
  // every value it states.
  ghost predicate WithinTemplate(template: ResourceRef, asked: ResourceRef) {
    && asked.resource == template.resource
    && forall k :: Stated(template, k).Some? ==>
         Stated(asked, k).Some? && Glob.Matches(Stated(template, k).value, Stated(asked, k).value)
  }

  // An absent limit allows anything; a present one, even an empty text, allows only itself.
  ghost predicate WithinLimits(rule: Rule, d: Detail) {
    && d.kind == CLI_KIND
    && (rule.cliId.Some? ==> rule.cliId.value == d.cliId)
    && (rule.action.Some? ==> rule.action.value == d.action)
    && (rule.maxRisk.Some? ==> AtMost(d.risk, rule.maxRisk.value))
    && |rule.template| <= |d.chain|
    && forall i :: 0 <= i < |rule.template| ==> WithinTemplate(rule.template[i], d.chain[i])
  }

  lemma RuleCoversWithinLimits(rule: Rule, d: Detail)
    ensures RuleCovers(rule, d) <==> WithinLimits(rule, d)
  {
    hide RefCovers, WithinTemplate;
    forall i | 0 <= i < |rule.template| && i < |d.chain|
      ensures RefCovers(rule.template[i], d.chain[i]) <==> WithinTemplate(rule.template[i], d.chain[i])
    {
      TemplateCovers(rule.template[i], d.chain[i]);
    }
  }

  lemma TemplateCovers(template: ResourceRef, asked: ResourceRef)
    ensures RefCovers(template, asked) <==> WithinTemplate(template, asked)
  {
    RefCoversByKey(template, asked);
    hide RefCovers, Stated, Glob.Matches;
  }

  // An approved rule for this agent and audience, for the host if it names one, that has
  // not expired; an empty host or expiry time is none.
  ghost predicate AppliesTo(c: Candidate, incoming: Incoming, now: int) {
    && c.requester == incoming.requester
    && c.status == Approved
    && (exists rule: Rule :: c.rule == Some(rule)
          && rule.delegate == incoming.requester
          && rule.audience == incoming.audience
          && rule.targetHost in {None, Some(""), Some("*"), Some(incoming.targetHost)})
    && (c.expiresAt in {None, Some(0)} || now <= c.expiresAt.value)
  }

  lemma ApplicableMeans(c: Candidate, incoming: Incoming, now: int)
    ensures Applicable(c, incoming, now) <==> AppliesTo(c, incoming, now)
  {
    if AppliesTo(c, incoming, now) {
      var rule: Rule :| c.rule == Some(rule);
      assert c.rule.value == rule;
    }
    if Applicable(c, incoming, now) {
      assert c.rule == Some(c.rule.value);
    }
  }

  // The rule c approves the detail.
  ghost predicate Permits(c: Candidate, incoming: Incoming, now: int, d: Detail) {
    AppliesTo(c, incoming, now) && WithinLimits(c.rule.value, d)
  }

  ghost predicate SomeRuleAllows(candidates: seq<Candidate>, incoming: Incoming, now: int, d: Detail) {
    exists c :: c in candidates && Permits(c, incoming, now, d)
  }

  // The first rule that approves the detail, in the order of the candidates.
  ghost predicate FirstPermits(candidates: seq<Candidate>, c: Candidate, incoming: Incoming, now: int, d: Detail) {
    exists i: nat :: i < |candidates| && candidates[i] == c && Permits(c, incoming, now, d)
                     && forall j :: 0 <= j < i ==> !Permits(candidates[j], incoming, now, d)
  }

  lemma CovererOfFirst(candidates: seq<Candidate>, incoming: Incoming, now: int, d: Detail)
    requires |candidates| > 0
    ensures var first, rest := candidates[0], candidates[1..];
            Coverer(ApplicableOf(candidates, incoming, now), d)
            == if Permits(first, incoming, now, d) then Some(first) else Coverer(ApplicableOf(rest, incoming, now), d)
  {
    var first, applicable := candidates[0], ApplicableOf(candidates[1..], incoming, now);
    ApplicableMeans(first, incoming, now);
    hide Applicable, AppliesTo, RuleCovers, WithinLimits;
    if Applicable(first, incoming, now) {
      RuleCoversWithinLimits(first.rule.value, d);
      assert ApplicableOf(candidates, incoming, now) == [first] + applicable;
      hide ApplicableOf;
      assert ([first] + applicable)[0] == first && ([first] + applicable)[1..] == applicable;
    } else {
      assert ApplicableOf(candidates, incoming, now) == [] + applicable == applicable;
    }
  }

  lemma PermitsLater(candidates: seq<Candidate>, incoming: Incoming, now: int, d: Detail)
    requires |candidates| > 0 && !Permits(candidates[0], incoming, now, d)
    ensures SomeRuleAllows(candidates, incoming, now, d) <==> SomeRuleAllows(candidates[1..], incoming, now, d)
    ensures forall c :: FirstPermits(candidates[1..], c, incoming, now, d) ==>
                          FirstPermits(candidates, c, incoming, now, d)
  {
    hide Permits;
    var rest := candidates[1..];
    assert candidates == [candidates[0]] + rest;
    forall c | FirstPermits(rest, c, incoming, now, d) ensures FirstPermits(candidates, c, incoming, now, d) {
      var i: nat :| i < |rest| && rest[i] == c && forall j :: 0 <= j < i ==> !Permits(rest[j], incoming, now, d);
      assert forall j :: 0 < j <= i ==> candidates[j] == rest[j - 1];
      assert candidates[i + 1] == c;
    }
  }

  // The rule that is found is the first that approves the detail.
  lemma {:induction false} CovererIsFirst(candidates: seq<Candidate>, incoming: Incoming, now: int, d: Detail)
    ensures var c := Coverer(ApplicableOf(candidates, incoming, now), d);
            && (c.Some? <==> SomeRuleAllows(candidates, incoming, now, d))
            && (c.Some? ==> FirstPermits(candidates, c.value, incoming, now, d))
  {
    if |candidates| > 0 {
      hide Coverer, ApplicableOf, Permits;
      CovererOfFirst(candidates, incoming, now, d);
      if Permits(candidates[0], incoming, now, d) {
        assert candidates[0] in candidates;
      } else {
        hide SomeRuleAllows, FirstPermits;
        CovererIsFirst(candidates[1..], incoming, now, d);
        PermitsLater(candidates, incoming, now, d);
      }
    }
  }

  // A request is approved by standing rules exactly when it has a CLI detail and each of
  // them lies within the limits of some applicable, unexpired rule; the first of these rules
  // for the first detail is named.
  lemma MatchesWhenEveryDetailIsAllowed(candidates: seq<Candidate>, incoming: Incoming, now: int)
    ensures Evaluation(candidates, incoming, now).Some? <==>
            && CliDetails(incoming.details) != []
            && forall d :: d in incoming.details && d.kind == CLI_KIND ==> SomeRuleAllows(candidates, incoming, now, d)
    ensures Evaluation(candidates, incoming, now).Some? ==>
            var m := Evaluation(candidates, incoming, now).value;
            && m.details == CliDetails(incoming.details)
            && exists c :: FirstPermits(candidates, c, incoming, now, m.details[0]) && c.id == m.standingGrantId
  {
    var cli := CliDetails(incoming.details);
    hide ApplicableOf, Coverer, FirstPermits, SomeRuleAllows;
    forall d
      ensures Coverer(ApplicableOf(candidates, incoming, now), d).Some?
              <==> SomeRuleAllows(candidates, incoming, now, d)
    {
      CovererIsFirst(candidates, incoming, now, d);
    }
    if |cli| > 0 {
      assert cli[0] in cli;
      CovererIsFirst(candidates, incoming, now, cli[0]);
    }
  }

  // Adding rules never takes an approval away.
  lemma MoreRulesStillMatch(few: seq<Candidate>, many: seq<Candidate>, incoming: Incoming, now: int)
    requires forall c :: c in few ==> c in many
    requires Evaluation(few, incoming, now).Some?
    ensures Evaluation(many, incoming, now).Some?
  {
    MatchesWhenEveryDetailIsAllowed(few, incoming, now);
    MatchesWhenEveryDetailIsAllowed(many, incoming, now);
    hide Evaluation, Permits, CliDetails;
    forall d | d in incoming.details && d.kind == CLI_KIND ensures SomeRuleAllows(many, incoming, now, d) {
      assert SomeRuleAllows(few, incoming, now, d);
    }
  }

  lemma CoveredStaysWithinLimits(rule: Rule, d: Detail, narrower: Detail)
    requires WithinLimits(rule, d) && Covers(d, narrower) && AtMost(narrower.risk, d.risk)
    ensures WithinLimits(rule, narrower)
  {
    hide RefCovers, WithinTemplate;
    forall i | 0 <= i < |rule.template| ensures WithinTemplate(rule.template[i], narrower.chain[i]) {
      TemplateCovers(rule.template[i], d.chain[i]);
      TemplateCovers(rule.template[i], narrower.chain[i]);
      RefCoversTransitive(rule.template[i], d.chain[i], narrower.chain[i]);
    }
  }

  // An approval survives asking for less: every new detail is covered by an old one and is
  // no riskier.
  lemma NarrowerDetailsStillMatch(candidates: seq<Candidate>, incoming: Incoming, narrower: seq<Detail>, now: int)
    requires Evaluation(candidates, incoming, now).Some?
    requires |narrower| > 0
    requires forall n :: n in narrower ==>
               exists d :: d in incoming.details && Covers(d, n) && AtMost(n.risk, d.risk)
    ensures Evaluation(candidates, incoming.(details := narrower), now).Some?
  {
    var asked := incoming.(details := narrower);
    MatchesWhenEveryDetailIsAllowed(candidates, incoming, now);
    MatchesWhenEveryDetailIsAllowed(candidates, asked, now);
    assert narrower[0] in narrower && narrower[0] in CliDetails(narrower);
    assert forall c :: AppliesTo(c, asked, now) == AppliesTo(c, incoming, now);
    hide Evaluation, AppliesTo, WithinLimits, CliDetails, RefCovers, AtMost;
    forall n | n in narrower ensures SomeRuleAllows(candidates, asked, now, n) {
      var d :| d in incoming.details && Covers(d, n) && AtMost(n.risk, d.risk);
      assert SomeRuleAllows(candidates, incoming, now, d);
      var c :| c in candidates && Permits(c, incoming, now, d);
      CoveredStaysWithinLimits(c.rule.value, d, n);
      assert Permits(c, asked, now, n);
    }
  }

  // A timed grant counts as expired one second earlier where it is introspected than where
  // it is evaluated as a rule: the two disagree exactly in the second named by `expires_at`.
  lemma ExpiryChecksDisagreeAtTheBoundary(g: Grant, now: int)
    requires g.status.Approved? && g.request.grantType == Some(Timed) && g.expiresAt.Some? && g.expiresAt.value != 0
    ensures (IsGrantExpired(g, now) <==> Lapsed(g.expiresAt, now)) <==> now != g.expiresAt.value
  {
  }
}
