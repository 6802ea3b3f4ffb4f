// What an extended or widened approval covers, and when an extension succeeds
// (packages/grants/src/grants.ts:311-468).
module GrantExtension {
  import opened Wrappers
  import opened CliPermissions
  import opened CliWidening
  import opened GrantStore
  import opened GrantListing
  import opened GrantOperations
  import opened GrantRuns

  // ---------------------------------------------------------------- when an extension succeeds

  // The checks an extension makes before its first write.
  ghost predicate Checked(s: Store, id: string, ids: seq<string>) {
    && id in s.grants && s.grants[id].status.Pending?
    && !Referenced(s.grants[id].request) && !SingleUse(s.grants[id].request)
    && OldGrants(s, s.grants[id], ids).Ok?
  }

  // The checks of a plain approval that an unreferenced pending request can fail.
  predicate Approvable(r: Request, o: Overrides) {
    && (SingleUse(r) ==> EffectiveType(r, o) == Once)
    && (EffectiveType(r, o).Timed? ==> Or(o.duration, r.duration).Some? && Or(o.duration, r.duration).value != 0)
  }

  ghost predicate DistinctStrings(ids: seq<string>) {
    forall i, j :: 0 <= i < j < |ids| ==> ids[i] != ids[j]
  }

  // The ids that stand before the first repetition in a list.
  ghost function BeforeRepeat(ids: seq<string>): set<string> {
    set i | 0 <= i < |ids| && DistinctStrings(ids[..i + 1]) :: ids[i]
  }

  // The store in which the named grants are revoked and all others as they were.
  ghost function WithRevoked(s: Store, ids: set<string>): Store {
    s.(grants := map id | id in s.grants :: if id in ids then s.grants[id].(status := Revoked) else s.grants[id])
  }

  // The same set, found from the front: an id that was seen already ends the search.
  ghost function UpToRepeat(ids: seq<string>, seen: set<string>): set<string>
    decreases |ids|
  {
    if |ids| == 0 || ids[0] in seen then seen else UpToRepeat(ids[1..], seen + {ids[0]})
  }

  predicate New(ids: seq<string>, seen: set<string>) {
    forall j :: 0 <= j < |ids| ==> ids[j] !in seen
  }

  ghost predicate Reached(ids: seq<string>, seen: set<string>, i: nat)
    requires i < |ids|
  {
    DistinctStrings(ids[..i + 1]) && New(ids[..i + 1], seen)
  }

  lemma DistinctHead(ids: seq<string>, seen: set<string>)
    requires |ids| > 0
    ensures DistinctStrings(ids) && New(ids, seen)
            <==> ids[0] !in seen && DistinctStrings(ids[1..]) && New(ids[1..], seen + {ids[0]})
  {
    var rest := ids[1..];
    assert forall j :: 0 <= j < |rest| ==> rest[j] == ids[j + 1];
    if ids[0] !in seen && DistinctStrings(rest) && New(rest, seen + {ids[0]}) {
      forall i, j | 0 <= i < j < |ids| ensures ids[i] != ids[j] {
        assert ids[j] == rest[j - 1];
        if i > 0 { assert ids[i] == rest[i - 1]; }
      }
      forall j | 0 <= j < |ids| ensures ids[j] !in seen {
        if j > 0 { assert ids[j] == rest[j - 1]; }
      }
    }
  }

  lemma ReachedFromHead(ids: seq<string>, seen: set<string>, i: nat)
    requires i < |ids|
    ensures i == 0 ==> (Reached(ids, seen, i) <==> ids[0] !in seen)
    ensures i > 0 ==> (Reached(ids, seen, i) <==> ids[0] !in seen && Reached(ids[1..], seen + {ids[0]}, i - 1))
  {
    DistinctHead(ids[..i + 1], seen);
    assert ids[..i + 1][1..] == ids[1..][..i];
    hide DistinctStrings;
    if i == 0 { assert DistinctStrings([]) by { NoneRepeats(); } }
  }

  lemma NoneRepeats()
    ensures DistinctStrings([])
  {
  }

  lemma {:induction false} UpToRepeatMembers(ids: seq<string>, seen: set<string>, id: string)
    ensures id in UpToRepeat(ids, seen)
            <==> id in seen || exists i :: 0 <= i < |ids| && ids[i] == id && Reached(ids, seen, i)
    decreases |ids|
  {
    if |ids| > 0 {
      hide Reached;
      forall i | 0 <= i < |ids|
        ensures Reached(ids, seen, i) <==> ids[0] !in seen && (i > 0 ==> Reached(ids[1..], seen + {ids[0]}, i - 1))
      {
        ReachedFromHead(ids, seen, i);
      }
      if ids[0] !in seen {
        UpToRepeatMembers(ids[1..], seen + {ids[0]}, id);
        var rest := ids[1..];
        if i :| 0 <= i < |rest| && rest[i] == id && Reached(rest, seen + {ids[0]}, i) {
          assert ids[i + 1] == id && Reached(ids, seen, i + 1);
        }
        if i :| 0 <= i < |ids| && ids[i] == id && Reached(ids, seen, i) && i > 0 { assert rest[i - 1] == id; }
        if id == ids[0] { assert Reached(ids, seen, 0); }
      }
    }
  }

  lemma UpToRepeatIsBeforeRepeat(ids: seq<string>)
    ensures UpToRepeat(ids, {}) == BeforeRepeat(ids)
  {
    forall id ensures id in UpToRepeat(ids, {}) <==> id in BeforeRepeat(ids) {
      UpToRepeatMembers(ids, {}, id);
    }
  }

  predicate AreApproved(s: Store, olds: seq<Grant>, ids: seq<string>) {
    |olds| == |ids|
    && forall i :: 0 <= i < |ids| ==> ids[i] in s.grants && s.grants[ids[i]].status.Approved? && olds[i].id == ids[i]
  }

  lemma RevokeOne(s: Store, seen: set<string>, id: string)
    requires id in s.grants && s.grants[id].status.Approved?
    ensures var t := WithRevoked(s, seen);
            if id in seen then Revoke(t, id).1.Err? && Revoke(t, id).0 == t
            else Revoke(t, id).1.Ok? && Revoke(t, id).0 == WithRevoked(s, seen + {id})
  {
    var t := WithRevoked(s, seen);
    if id !in seen {
      assert t.grants[id] == s.grants[id];
      assert Revoke(t, id).0.grants == WithRevoked(s, seen + {id}).grants;
    }
  }

  lemma {:induction false} RevokeEachInTurn(s: Store, olds: seq<Grant>, ids: seq<string>, seen: set<string>)
    requires AreApproved(s, olds, ids)
    ensures RevokeEach(WithRevoked(s, seen), olds).0 == WithRevoked(s, UpToRepeat(ids, seen))
    ensures RevokeEach(WithRevoked(s, seen), olds).1.None? <==> DistinctStrings(ids) && New(ids, seen)
    decreases |olds|
  {
    if |olds| > 0 {
      RevokeOne(s, seen, ids[0]);
      DistinctHead(ids, seen);
      hide WithRevoked, Revoke, DistinctStrings;
      if ids[0] !in seen { RevokeEachInTurn(s, olds[1..], ids[1..], seen + {ids[0]}); }
    } else {
      NoneRepeats();
    }
  }

  // Approved grants are revoked one after the other up to the first repetition: all of them
  // exactly when none is listed twice.
  lemma RevokeEachSucceeds(s: Store, olds: seq<Grant>, ids: seq<string>)
    requires AreApproved(s, olds, ids)
    ensures RevokeEach(s, olds).0 == WithRevoked(s, BeforeRepeat(ids))
    ensures RevokeEach(s, olds).1.None? <==> DistinctStrings(ids)
    ensures DistinctStrings(ids) ==> forall i :: 0 <= i < |ids| ==> ids[i] in BeforeRepeat(ids)
    ensures |ids| > 0 ==> ids[0] in BeforeRepeat(ids)
  {
    assert WithRevoked(s, {}) == s by { assert WithRevoked(s, {}).grants == s.grants; }
    RevokeEachInTurn(s, olds, ids, {});
    UpToRepeatIsBeforeRepeat(ids);
    assert |ids| > 0 ==> DistinctStrings(ids[..0 + 1]);
    if DistinctStrings(ids) {
      forall i | 0 <= i < |ids| ensures ids[i] in BeforeRepeat(ids) { assert DistinctStrings(ids[..i + 1]); }
    }
  }

  // The pending grant with the request an extension gives it.
  ghost function Rewritten(s: Store, id: string, mode: ExtendMode, ids: seq<string>): Store
    requires Checked(s, id, ids)
  {
    var request := ExtendedRequest(mode, s.grants[id].request, OldGrants(s, s.grants[id], ids).value);
    s.(grants := s.grants[id := s.grants[id].(request := request)])
  }

  // The three writes of an extension that passed its checks.
  lemma ExtensionSteps(s: Store, id: string, approver: string, now: int, mode: ExtendMode, ids: seq<string>,
                       grantType: Option<GrantType>, duration: Option<int>)
    requires Inv(s) && Checked(s, id, ids)
    ensures var u := WithRevoked(Rewritten(s, id, mode, ids), BeforeRepeat(ids));
            var (t, r) := Extend(s, id, approver, now, mode, ids, grantType, duration);
            && (DistinctStrings(ids)
                ==> (t, r) == Approve(u, id, approver, now, Overrides(grantType, duration, None, [])))
            && (!DistinctStrings(ids) ==> t == u && r.Err?)
            && id !in BeforeRepeat(ids)
            && (|ids| > 0 ==> ids[0] in BeforeRepeat(ids))
            && (DistinctStrings(ids) ==> forall i :: 0 <= i < |ids| ==> ids[i] in BeforeRepeat(ids))
            && forall i :: 0 <= i < |ids| ==> ids[i] in s.grants && s.grants[ids[i]].status.Approved?
  {
    hide Inv, GrantOk, Extendable, SingleUse, Merged, Candidates, Permissions, Approve;
    OldGrantsFactsOf(s, s.grants[id], ids);
    var olds := OldGrants(s, s.grants[id], ids).value;
    var request := ExtendedRequest(mode, s.grants[id].request, olds);
    UnreferencedPending(s, id);
    PendingUpdate(s, id, request);
    hide OldGrants, RevokeEach, WithRevoked, DistinctStrings;
    RevokeEachSucceeds(Rewritten(s, id, mode, ids), olds, ids);
  }

  lemma OldGrantsFactsOf(s: Store, pending: Grant, ids: seq<string>)
    requires Inv(s) && OldGrants(s, pending, ids).Ok?
    ensures var olds := OldGrants(s, pending, ids).value;
            && |olds| == |ids|
            && forall i :: 0 <= i < |ids| ==>
                 ids[i] in s.grants && olds[i] == s.grants[ids[i]] && olds[i].id == ids[i] && olds[i].status.Approved?
  {
    OldGrantsFacts(s, pending, ids);
  }

  lemma UnreferencedPending(s: Store, id: string)
    requires Inv(s) && id in s.grants && !Referenced(s.grants[id].request)
    ensures s.grants[id].request.reference.None?
  {
    PlainIsUnreferenced(s.grants[id]);
  }

  // An extension that passed its checks succeeds exactly when no old grant is listed twice
  // and the extended request can be approved as asked. Whether it succeeds or not, the old
  // grants before the first repetition are revoked and all others are left as they were.
  lemma ExtensionSucceeds(s: Store, id: string, approver: string, now: int, mode: ExtendMode, ids: seq<string>,
                          grantType: Option<GrantType>, duration: Option<int>)
    requires Inv(s) && Checked(s, id, ids)
    ensures var request := ExtendedRequest(mode, s.grants[id].request, OldGrants(s, s.grants[id], ids).value);
            var o := Overrides(grantType, duration, None, []);
            var (t, r) := Extend(s, id, approver, now, mode, ids, grantType, duration);
            && (r.Ok? <==> DistinctStrings(ids) && Approvable(request, o))
            && t.grants.Keys == s.grants.Keys
            && (forall other :: other in s.grants && other != id ==>
                  t.grants[other]
                  == if other in BeforeRepeat(ids) then s.grants[other].(status := Revoked) else s.grants[other])
            && (DistinctStrings(ids)
                ==> forall i :: 0 <= i < |ids| ==> ids[i] in t.grants && t.grants[ids[i]].status.Revoked?)
            && (r.Ok? ==>
                  && r.value == t.grants[id] && r.value.status.Approved?
                  && r.value.request == request.(grantType := Some(EffectiveType(request, o)),
                                                 duration := Or(duration, request.duration)))
            && (r.Err? ==> t.grants[id] == s.grants[id].(request := request) && t.grants[id].status.Pending?)
  {
    UnreferencedPending(s, id);
    hide *;
    ExtensionSteps(s, id, approver, now, mode, ids, grantType, duration);
    RewrittenFacts(s, id, mode, ids);
    ApprovalOfPlain(WithRevoked(Rewritten(s, id, mode, ids), BeforeRepeat(ids)), id, approver, now, grantType,
                    duration);
  }

  lemma RewrittenFacts(s: Store, id: string, mode: ExtendMode, ids: seq<string>)
    requires Checked(s, id, ids) && s.grants[id].request.reference.None? && id !in BeforeRepeat(ids)
    ensures var request := ExtendedRequest(mode, s.grants[id].request, OldGrants(s, s.grants[id], ids).value);
            var u := WithRevoked(Rewritten(s, id, mode, ids), BeforeRepeat(ids));
            && u.grants.Keys == s.grants.Keys
            && u.grants[id] == s.grants[id].(request := request)
            && u.grants[id].status.Pending? && u.grants[id].request.reference.None?
            && forall other :: other in s.grants && other != id ==>
                 u.grants[other]
                 == if other in BeforeRepeat(ids) then s.grants[other].(status := Revoked) else s.grants[other]
  {
    hide OldGrants, SingleUse, Merged, BeforeRepeat, Candidates, Permissions;
  }

  // Approving a pending grant without a reference changes that grant only.
  lemma ApprovalOfPlain(u: Store, id: string, approver: string, now: int, grantType: Option<GrantType>,
                        duration: Option<int>)
    requires id in u.grants && u.grants[id].status.Pending? && u.grants[id].request.reference.None?
    ensures var request, o := u.grants[id].request, Overrides(grantType, duration, None, []);
            var (t, r) := Approve(u, id, approver, now, o);
            && (r.Ok? <==> Approvable(request, o))
            && (r.Err? ==> t == u)
            && t.grants.Keys == u.grants.Keys
            && (forall other :: other in u.grants && other != id ==> t.grants[other] == u.grants[other])
            && (r.Ok? ==>
                  && r.value == t.grants[id] && r.value.status.Approved?
                  && r.value.request == request.(grantType := Some(EffectiveType(request, o)),
                                                 duration := Or(duration, request.duration)))
  {
    hide SingleUse;
  }

  // A refused extension leaves the store alone exactly when its checks failed, or when it
  // extended nothing and the request already was the one it writes. Otherwise the pending
  // grant keeps the extended request and the old grants before the first repetition stay
  // revoked.
  lemma RefusedExtensionLeaves(s: Store, id: string, approver: string, now: int, mode: ExtendMode, ids: seq<string>,
                               grantType: Option<GrantType>, duration: Option<int>)
    requires Inv(s) && Extend(s, id, approver, now, mode, ids, grantType, duration).1.Err?
    ensures var t := Extend(s, id, approver, now, mode, ids, grantType, duration).0;
            && (t == s <==> Checked(s, id, ids)
                            ==> ids == [] && ExtendedRequest(mode, s.grants[id].request, []) == s.grants[id].request)
            && (Checked(s, id, ids) ==> t == WithRevoked(Rewritten(s, id, mode, ids), BeforeRepeat(ids)))
  {
    if Checked(s, id, ids) {
      ExtensionSteps(s, id, approver, now, mode, ids, grantType, duration);
      ApprovalRefusalChangesNothing(s, id, approver, now, mode, ids, grantType, duration);
      hide Inv, Extend, Approve, SingleUse, ExtendedRequest, DistinctStrings, BeforeRepeat;
      var u := WithRevoked(Rewritten(s, id, mode, ids), BeforeRepeat(ids));
      if |ids| > 0 {
        assert u.grants[ids[0]].status.Revoked?;
      } else {
        NothingToRevoke(Rewritten(s, id, mode, ids));
      }
    } else {
      hide Inv, ApplyExtension, ExtendedRequest, SingleUse, OldGrants;
    }
  }

  lemma NothingToRevoke(s: Store)
    ensures WithRevoked(s, BeforeRepeat([])) == s
  {
    assert WithRevoked(s, BeforeRepeat([])).grants == s.grants;
  }

  lemma ApprovalRefusalChangesNothing(s: Store, id: string, approver: string, now: int, mode: ExtendMode,
                                      ids: seq<string>,
                                      grantType: Option<GrantType>, duration: Option<int>)
    requires Inv(s) && Checked(s, id, ids)
    ensures var u := WithRevoked(Rewritten(s, id, mode, ids), BeforeRepeat(ids));
            var (t, r) := Approve(u, id, approver, now, Overrides(grantType, duration, None, []));
            r.Err? ==> t == u
  {
    hide ApprovalOf, Rewritten, WithRevoked, BeforeRepeat;
  }

  // ---------------------------------------------------------------- a failed extension

  function PlainRequest(grantType: Option<GrantType>): Request {
    Request("agent", "host", "apes", grantType, None, None, None, None, None, None, None, None, None, None, None,
            None, None, None, None, None)
  }

  // A pending grant and a standing permission of the same agent.
  const NEW_EXAMPLE := NewGrant("new", PlainRequest(None), 1)
  const OLD_EXAMPLE := NewGrant("old", PlainRequest(Some(Always)), 0).(status := Approved, decidedAt := Some(0))
  const EXAMPLE_STORE := Store(map["new" := NEW_EXAMPLE, "old" := OLD_EXAMPLE], ["old", "new"], map[])

  lemma ExampleIsOk()
    ensures Inv(EXAMPLE_STORE)
  {
    hide KeyOf;
    assert EXAMPLE_STORE.order[0] == "old" && EXAMPLE_STORE.order[1] == "new";
    assert !SingleUse(PlainRequest(None)) && !SingleUse(PlainRequest(Some(Always)));
  }

  lemma ExampleIsChecked()
    ensures Checked(EXAMPLE_STORE, "new", ["old"])
  {
    assert OldGrants(EXAMPLE_STORE, NEW_EXAMPLE, ["old"][1..]) == Ok([]);
    assert !SingleUse(PlainRequest(None));
  }

  // A timed extension without a duration fails, and has revoked the grant it extended.
  lemma FailedExtensionRevokes(mode: ExtendMode)
    ensures var (t, r) := Extend(EXAMPLE_STORE, "new", "owner", 2, mode, ["old"], Some(Timed), None);
            Inv(EXAMPLE_STORE) && r.Err? && "old" in t.grants && t.grants["old"].status.Revoked?
  {
    ExampleIsOk();
    ExampleIsChecked();
    ExtensionSucceeds(EXAMPLE_STORE, "new", "owner", 2, mode, ["old"], Some(Timed), None);
    assert NEW_EXAMPLE.request.duration.None?;
    hide Extend, Inv, OldGrants, SingleUse, Merged, Candidates, CliDetails, Permissions;
    assert ["old"][0] == "old";
  }

  // ---------------------------------------------------------------- what an extension covers

  lemma {:induction false} FlattenMembers(sets: seq<seq<Detail>>)
    ensures forall d :: d in Flatten(sets) <==> exists i :: 0 <= i < |sets| && d in sets[i]
  {
    if |sets| > 0 {
      FlattenMembers(sets[1..]);
      assert forall i :: 0 <= i < |sets| - 1 ==> sets[1..][i] == sets[i + 1];
      forall d ensures d in Flatten(sets) <==> exists i :: 0 <= i < |sets| && d in sets[i] {
        if i :| 0 <= i < |sets| && d in sets[i] && i > 0 { assert d in sets[1..][i - 1]; }
      }
    }
  }

  lemma {:induction false} OldDetailsAt(olds: seq<Grant>)
    ensures |OldDetails(olds)| == |olds|
    ensures forall i :: 0 <= i < |olds| ==> OldDetails(olds)[i] == CliDetails(DetailsOf(olds[i].request))
  {
    if |olds| > 0 { OldDetailsAt(olds[1..]); }
  }

  ghost predicate GrantCovers(g: Grant, r: Detail) {
    SomeCovers(CliDetails(DetailsOf(g.request)), r)
  }

  // A detail is a candidate of a merging extension exactly when it belongs to the pending
  // grant or to one of the grants it extends.
  lemma MergeCandidates(pending: seq<Detail>, olds: seq<Grant>)
    ensures forall d :: d in Candidates(MergeMode, pending, olds)
                        <==> d in pending || exists i :: 0 <= i < |olds| && d in CliDetails(DetailsOf(olds[i].request))
  {
    hide CliDetails, DetailsOf;
    OldDetailsAt(olds);
    var sets := [pending] + OldDetails(olds);
    FlattenMembers(sets);
    assert sets[0] == pending && forall i :: 0 <= i < |olds| ==> sets[i + 1] == OldDetails(olds)[i];
  }

  // Without colliding permissions, a grant extended in merge mode covers exactly what the
  // pending grant or one of the revoked grants covered; with collisions, never more.
  lemma MergedExtensionCovers(s: Store, id: string, approver: string, now: int, ids: seq<string>,
                              grantType: Option<GrantType>, duration: Option<int>, r: Detail)
    requires Inv(s) && Checked(s, id, ids)
    requires Extend(s, id, approver, now, MergeMode, ids, grantType, duration).1.Ok?
    ensures var g := Extend(s, id, approver, now, MergeMode, ids, grantType, duration).1.value;
            var olds := OldGrants(s, s.grants[id], ids).value;
            var covered := GrantCovers(s.grants[id], r) || exists i :: 0 <= i < |olds| && GrantCovers(olds[i], r);
            && (GrantCovers(g, r) ==> covered)
            && (Collisionless(Candidates(MergeMode, CliDetails(DetailsOf(s.grants[id].request)), olds)) ==>
                  (GrantCovers(g, r) <==> covered))
  {
    ExtensionSucceeds(s, id, approver, now, MergeMode, ids, grantType, duration);
    var g := Extend(s, id, approver, now, MergeMode, ids, grantType, duration).1.value;
    var olds := OldGrants(s, s.grants[id], ids).value;
    var pending := CliDetails(DetailsOf(s.grants[id].request));
    var all := Candidates(MergeMode, pending, olds);
    hide Extend, OldGrants, Inv, Covers;
    MergeCandidates(pending, olds);
    MergedAreCli(all);
    MergeKeepsCoverage(all, r);
    CandidatesCover(pending, olds, r);
  }

  lemma CandidatesCover(pending: seq<Detail>, olds: seq<Grant>, r: Detail)
    ensures SomeCovers(Candidates(MergeMode, pending, olds), r)
            <==> SomeCovers(pending, r) || exists i :: 0 <= i < |olds| && GrantCovers(olds[i], r)
  {
    hide Covers, CliDetails, Candidates;
    MergeCandidates(pending, olds);
    if SomeCovers(Candidates(MergeMode, pending, olds), r) {
      var d :| d in Candidates(MergeMode, pending, olds) && Covers(d, r);
      if d !in pending {
        var i :| 0 <= i < |olds| && d in CliDetails(DetailsOf(olds[i].request));
        assert GrantCovers(olds[i], r);
      }
    }
  }

  // Merged CLI details are all CLI details.
  lemma MergedAreCli(all: seq<Detail>)
    requires forall d :: d in all ==> d.kind == CLI_KIND
    ensures CliDetails(Merged(all)) == Merged(all)
  {
    MergedFacts(all);
    hide Merged;
    forall m | m in Merged(all) ensures m.kind == CLI_KIND {
      var d :| d in all && m == d.(permission := CanonicalOf(d));
    }
    AllCli(Merged(all));
  }

  lemma {:induction false} AllCli(details: seq<Detail>)
    requires forall d :: d in details ==> d.kind == CLI_KIND
    ensures CliDetails(details) == details
  {
    if |details| > 0 {
      AllCli(details[1..]);
      assert details == [details[0]] + details[1..];
    }
  }

  lemma {:induction false} WidenedTowardsMembers(existing: Detail, incoming: seq<Detail>)
    ensures forall d :: d in WidenedTowards(existing, incoming)
                        <==> exists n :: n in incoming && Similar(existing, n) && d == Widen(existing, n)
  {
    hide SelectorString, Covers;
    if |incoming| > 0 {
      WidenedTowardsMembers(existing, incoming[1..]);
      assert incoming == [incoming[0]] + incoming[1..];
    }
  }

  lemma {:induction false} WidenedPairsMembers(existing: seq<Detail>, incoming: seq<Detail>)
    ensures forall d :: d in WidenedPairs(existing, incoming)
                        <==> exists e, n :: e in existing && n in incoming && Similar(e, n) && d == Widen(e, n)
  {
    if |existing| > 0 {
      WidenedTowardsMembers(existing[0], incoming);
      WidenedPairsMembers(existing[1..], incoming);
      assert existing == [existing[0]] + existing[1..];
      hide SelectorString, Covers, WidenedTowards;
    }
  }

  lemma WidenedIsSeparable(existing: Detail, incoming: Detail)
    requires |existing.chain| == |incoming.chain| && Separable(existing)
    ensures Separable(Widen(existing, incoming)) && Widen(existing, incoming).kind == existing.kind
  {
  }

  // A grant extended in widen mode covers no more than the pending details and the widened
  // pairs of similar ones, and exactly that if no permissions collide: then everything the
  // pending grant covered, and everything covered by an old detail that is similar to a
  // pending one and keeps no overlong glob.
  lemma WidenedExtensionCovers(s: Store, id: string, approver: string, now: int, ids: seq<string>,
                               grantType: Option<GrantType>, duration: Option<int>, r: Detail)
    requires Inv(s) && Checked(s, id, ids)
    requires Extend(s, id, approver, now, WidenMode, ids, grantType, duration).1.Ok?
    ensures var g := Extend(s, id, approver, now, WidenMode, ids, grantType, duration).1.value;
            var olds := OldGrants(s, s.grants[id], ids).value;
            var all := Candidates(WidenMode, CliDetails(DetailsOf(s.grants[id].request)), olds);
            && (GrantCovers(g, r) ==> SomeCovers(all, r))
            && (Collisionless(all) ==>
                  && (GrantCovers(g, r) <==> SomeCovers(all, r))
                  && (GrantCovers(s.grants[id], r) ==> GrantCovers(g, r))
                  && (SimilarOldCovers(CliDetails(DetailsOf(s.grants[id].request)), olds, r) ==> GrantCovers(g, r)))
  {
    ExtendedDetails(s, id, approver, now, WidenMode, ids, grantType, duration);
    var olds := OldGrants(s, s.grants[id], ids).value;
    var pending := CliDetails(DetailsOf(s.grants[id].request));
    var all := Candidates(WidenMode, pending, olds);
    hide Extend, OldGrants, Inv, Covers, Candidates, CliDetails, Merged, Collisionless;
    WidenCandidates(pending, olds);
    MergedAreCli(all);
    MergeKeepsCoverage(all, r);
    WidenCandidatesCover(pending, olds, r);
  }

  // An old detail that is similar to a pending one and can be widened towards it covers this.
  ghost predicate SimilarOldCovers(pending: seq<Detail>, olds: seq<Grant>, r: Detail) {
    exists i, e, n ::
      && 0 <= i < |olds| && e in CliDetails(DetailsOf(olds[i].request)) && n in pending
      && Similar(e, n) && Separable(e) && Separable(n) && UnchangedBounded(e, n) && Covers(e, r)
  }

  lemma WidenCandidatesCover(pending: seq<Detail>, olds: seq<Grant>, r: Detail)
    requires forall d :: d in pending ==> d.kind == CLI_KIND
    ensures var all := Candidates(WidenMode, pending, olds);
            && (SomeCovers(pending, r) ==> SomeCovers(all, r))
            && (SimilarOldCovers(pending, olds, r) ==> SomeCovers(all, r))
  {
    WidenCandidates(pending, olds);
    OldDetailsMembers(olds);
    hide Covers, Similar, Separable, Widen, Candidates, Flatten, OldDetails, CliDetails, DetailsOf, UnchangedBounded;
    if SimilarOldCovers(pending, olds, r) {
      var i, e, n :|
        && 0 <= i < |olds| && e in CliDetails(DetailsOf(olds[i].request)) && n in pending
        && Similar(e, n) && Separable(e) && Separable(n) && UnchangedBounded(e, n) && Covers(e, r);
      WidenCoversBoth(e, n);
      CoversTransitive(Widen(e, n), e, r);
    }
  }

  // The details of a grant that was extended.
  lemma ExtendedDetails(s: Store, id: string, approver: string, now: int, mode: ExtendMode, ids: seq<string>,
                        grantType: Option<GrantType>, duration: Option<int>)
    requires Inv(s) && Checked(s, id, ids) && Extend(s, id, approver, now, mode, ids, grantType, duration).1.Ok?
    ensures var g := Extend(s, id, approver, now, mode, ids, grantType, duration).1.value;
            var olds := OldGrants(s, s.grants[id], ids).value;
            DetailsOf(g.request) == Merged(Candidates(mode, CliDetails(DetailsOf(s.grants[id].request)), olds))
    ensures forall d :: d in CliDetails(DetailsOf(s.grants[id].request)) ==> d.kind == CLI_KIND
  {
    ExtensionSucceeds(s, id, approver, now, mode, ids, grantType, duration);
    hide Extend, OldGrants, Inv, Candidates, Merged, CliDetails, Permissions, BeforeRepeat, DistinctStrings, SingleUse;
  }

  // With separable permissions nothing collides.
  lemma SeparableWidening(pending: seq<Detail>, olds: seq<Grant>)
    requires forall d :: d in pending ==> Separable(d) && d.kind == CLI_KIND
    requires forall d :: d in Flatten(OldDetails(olds)) ==> Separable(d)
    ensures Collisionless(Candidates(WidenMode, pending, olds))
  {
    var existing, all := Flatten(OldDetails(olds)), Candidates(WidenMode, pending, olds);
    WidenedPairsMembers(existing, pending);
    hide Separable, SelectorString, Covers, Flatten, WidenedPairs;
    forall d | d in all ensures Separable(d) {
      if d !in pending {
        var e, n :| e in existing && n in pending && Similar(e, n) && d == Widen(e, n);
        WidenedIsSeparable(e, n);
      }
    }
    SeparableIsCollisionless(all);
  }

  lemma OldDetailsMembers(olds: seq<Grant>)
    ensures forall d ::
              d in Flatten(OldDetails(olds)) <==>
                exists i :: 0 <= i < |olds| && d in CliDetails(DetailsOf(olds[i].request))
  {
    hide CliDetails, DetailsOf;
    OldDetailsAt(olds);
    FlattenMembers(OldDetails(olds));
  }

  lemma WidenCandidates(pending: seq<Detail>, olds: seq<Grant>)
    requires forall d :: d in pending ==> d.kind == CLI_KIND
    ensures var all := Candidates(WidenMode, pending, olds);
            && (forall d :: d in pending ==> d in all)
            && (forall e, n :: e in Flatten(OldDetails(olds)) && n in pending && Similar(e, n) ==> Widen(e, n) in all)
            && forall d :: d in all ==> d.kind == CLI_KIND
  {
    var existing := Flatten(OldDetails(olds));
    WidenedPairsMembers(existing, pending);
    hide SelectorString, Covers, Flatten, WidenedPairs;
    forall d | d in Candidates(WidenMode, pending, olds) ensures d.kind == CLI_KIND {
      if d !in pending {
        var e, n :| e in existing && n in pending && Similar(e, n) && d == Widen(e, n);
      }
    }
  }

  // ---------------------------------------------------------------- what a widened approval covers

  lemma ValidHasStructure(original: Detail, widened: Detail)
    ensures ValidWidening(original, widened) ==> |original.chain| == |widened.chain|
  {
  }

  lemma {:induction false} NormalizedWideningsFacts(originals: seq<Detail>, widened: seq<Detail>)
    requires |originals| == |widened|
    ensures NormalizedWidenings(originals, widened).Ok?
            <==> forall i :: 0 <= i < |originals| ==> ValidWidening(originals[i], widened[i])
    ensures NormalizedWidenings(originals, widened).Ok? ==>
              var details := NormalizedWidenings(originals, widened).value;
              |details| == |originals|
              && forall i :: 0 <= i < |originals| ==>
                   |originals[i].chain| == |widened[i].chain|
                   && details[i] == NormalizedWidening(originals[i], widened[i])
  {
    hide SelectorRemoved, CanonicalOf, Covers, NormalizedWidening;
    if |originals| > 0 {
      ValidHasStructure(originals[0], widened[0]);
      hide ValidWidening;
      NormalizedWideningsFacts(originals[1..], widened[1..]);
      assert forall i :: 0 <= i < |originals| - 1 ==>
              originals[1..][i] == originals[i + 1] && widened[1..][i] == widened[i + 1];
      assert (forall i :: 0 <= i < |originals| ==> ValidWidening(originals[i], widened[i])) <==>
             && ValidWidening(originals[0], widened[0])
             && forall i :: 0 <= i < |originals| - 1 ==> ValidWidening(originals[1..][i], widened[1..][i]);
    }
  }

  predicate WideningChecked(r: Request, widened: seq<Detail>) {
    var originals := CliDetails(DetailsOf(r));
    && !Referenced(r) && !SingleUse(r)
    && 0 < |originals| == |widened|
    && forall i :: 0 <= i < |originals| ==> ValidWidening(originals[i], widened[i])
  }

  // What an accepted widening approves.
  function ChosenDetails(r: Request, widened: seq<Detail>): seq<Detail>
    requires |CliDetails(DetailsOf(r))| == |widened|
  {
    var details := NormalizedWidenings(CliDetails(DetailsOf(r)), widened);
    if details.Ok? then details.value else []
  }

  lemma WideningSteps(s: Store, id: string, approver: string, now: int, widened: seq<Detail>,
                      grantType: Option<GrantType>, duration: Option<int>)
    requires Inv(s) && id in s.grants && s.grants[id].status.Pending?
    ensures var r := s.grants[id].request;
            if !WideningChecked(r, widened)
              then ApproveWidened(s, id, approver, now, widened, grantType, duration).1.Err?
            else
              var request := WidenedRequest(r, ChosenDetails(r, widened));
              && ApproveWidened(s, id, approver, now, widened, grantType, duration)
                 == Approve(s.(grants := s.grants[id := s.grants[id].(request := request)]), id, approver, now,
                            Overrides(grantType, duration, None, []))
              && request.reference.None?
  {
    var g := s.grants[id];
    var originals := CliDetails(DetailsOf(g.request));
    hide Inv, SingleUse, CliDetails, StoredPermissions, ValidWidening, Approve, DetailsOf;
    if !Referenced(g.request) && !SingleUse(g.request) && 0 < |originals| == |widened| {
      NormalizedWideningsFacts(originals, widened);
      hide NormalizedWidenings;
      UnreferencedPending(s, id);
      if WideningChecked(g.request, widened) {
        PendingUpdate(s, id, WidenedRequest(g.request, ChosenDetails(g.request, widened)));
      }
    }
  }

  // A widening is accepted exactly when there is something to widen, every chosen detail is
  // a widening of the original at its index, and the type can be approved.
  lemma WideningSucceeds(s: Store, id: string, approver: string, now: int, widened: seq<Detail>,
                         grantType: Option<GrantType>, duration: Option<int>)
    requires Inv(s) && id in s.grants && s.grants[id].status.Pending?
    ensures var r := s.grants[id].request;
            var o := Overrides(grantType, duration, None, []);
            var answer := ApproveWidened(s, id, approver, now, widened, grantType, duration).1;
            && (answer.Ok? <==>
                  && WideningChecked(r, widened)
                  && (EffectiveType(r, o).Timed?
                      ==> Or(duration, r.duration).Some? && Or(duration, r.duration).value != 0))
            && (answer.Ok? ==>
                  && answer.value.status.Approved?
                  && answer.value.request.details == Some(ChosenDetails(r, widened)))
  {
    WideningSteps(s, id, approver, now, widened, grantType, duration);
    var r := s.grants[id].request;
    hide ApproveWidened, Inv, SingleUse, NormalizedWidenings, CliDetails, DetailsOf, StoredPermissions, ValidWidening;
    if WideningChecked(r, widened) {
      WideningIsNotSingleUse(r, widened);
      hide WideningChecked, ChosenDetails;
    }
  }

  lemma WideningIsNotSingleUse(r: Request, widened: seq<Detail>)
    requires WideningChecked(r, widened)
    ensures !SingleUse(WidenedRequest(r, ChosenDetails(r, widened)))
  {
    var originals, details := CliDetails(DetailsOf(r)), ChosenDetails(r, widened);
    NormalizedWideningsFacts(originals, widened);
    hide SelectorRemoved, CanonicalOf, NormalizedWidenings, Covers;
    forall d | d in details ensures !(d.constraints.Some? && d.constraints.value.singleUse) {
      var i :| 0 <= i < |details| && details[i] == d;
      assert originals[i] in originals;
    }
  }

  // The approved details cover the original request, each carries the canonical permission
  // of what it covers, and everything the request covered stays covered.
  lemma WidenedApprovalCovers(s: Store, id: string, approver: string, now: int, widened: seq<Detail>,
                              grantType: Option<GrantType>, duration: Option<int>)
    requires Inv(s) && id in s.grants && s.grants[id].status.Pending?
    requires ApproveWidened(s, id, approver, now, widened, grantType, duration).1.Ok?
    ensures var g := ApproveWidened(s, id, approver, now, widened, grantType, duration).1.value;
            var originals := CliDetails(DetailsOf(s.grants[id].request));
            && DetailsCover(AllReadable(DetailsOf(g.request)), originals)
            && (forall d :: d in DetailsOf(g.request) ==> d.permission == CanonicalOf(d))
            && forall r :: GrantCovers(s.grants[id], r) ==> GrantCovers(g, r)
  {
    WideningSucceeds(s, id, approver, now, widened, grantType, duration);
    var g := ApproveWidened(s, id, approver, now, widened, grantType, duration).1.value;
    var originals := CliDetails(DetailsOf(s.grants[id].request));
    hide ApproveWidened, Inv;
    NormalizedWideningsFacts(originals, widened);
    var details := ChosenDetails(s.grants[id].request, widened);
    hide NormalizedWidenings, Covers, NormalizedWidening, SelectorRemoved, CanonicalOf, SingleUse, ValidWidening,
         ChosenDetails;
    forall i | 0 <= i < |originals|
      ensures Covers(details[i], originals[i]) && details[i].permission == CanonicalOf(details[i])
              && details[i].kind == CLI_KIND
    {
      assert originals[i] in originals;
      NormalizedCovers(originals[i], widened[i]);
    }
    AllCli(details);
    PairwiseCover(details, originals);
  }

  lemma PairwiseCover(details: seq<Detail>, originals: seq<Detail>)
    requires |details| == |originals| && forall i :: 0 <= i < |originals| ==> Covers(details[i], originals[i])
    ensures DetailsCover(AllReadable(details), originals)
    ensures forall r :: SomeCovers(originals, r) ==> SomeCovers(details, r)
  {
    hide Covers;
    forall d | d in originals ensures exists x :: x in AllReadable(details) && x.Readable? && Covers(x.detail, d) {
      var i :| 0 <= i < |originals| && originals[i] == d;
      assert AllReadable(details)[i] == Readable(details[i]);
    }
    forall r | SomeCovers(originals, r) ensures SomeCovers(details, r) {
      var d :| d in originals && Covers(d, r);
      var i :| 0 <= i < |originals| && originals[i] == d;
      CoversTransitive(details[i], d, r);
      assert details[i] in details;
    }
  }

  lemma NormalizedCovers(original: Detail, widened: Detail)
    requires original.kind == CLI_KIND && ValidWidening(original, widened)
    ensures var d := NormalizedWidening(original, widened);
            Covers(d, original) && d.permission == CanonicalOf(d) && d.kind == CLI_KIND
  {
    hide SelectorString;
  }
}
