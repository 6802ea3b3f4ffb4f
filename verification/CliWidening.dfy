// Widening of similar details and merging of lists of details
// (packages/grants/src/cli-permissions.ts:202-298).
module CliWidening {
  import opened Wrappers
  import opened Text
  import opened CliPermissions
  import Glob

  // ---------------------------------------------------------------- widening

  // `resourceChainsStructurallyMatch`
  predicate SameStructure(a: seq<ResourceRef>, b: seq<ResourceRef>) {
    |a| == |b| && forall i :: 0 <= i < |a| ==> a[i].resource == b[i].resource
  }

  predicate Differs(a: ResourceRef, b: ResourceRef) {
    SelectorString(a.selector) != SelectorString(b.selector)
  }

  // Which positions differ.
  function Differences(a: seq<ResourceRef>, b: seq<ResourceRef>): (flags: seq<bool>)
    requires |a| == |b|
    ensures |flags| == |a| && forall i :: 0 <= i < |a| ==> flags[i] == Differs(a[i], b[i])
  {
    seq(|a|, i requires 0 <= i < |a| => Differs(a[i], b[i]))
  }

  // The set positions among the first n, in order.
  function Positions(flags: seq<bool>, n: nat): seq<nat>
    requires n <= |flags|
  {
    if n == 0 then [] else Positions(flags, n - 1) + if flags[n - 1] then [n - 1] else []
  }

  lemma {:induction false} PositionsMembers(flags: seq<bool>, n: nat)
    requires n <= |flags|
    ensures forall i: nat :: i in Positions(flags, n) <==> i < n && flags[i]
  {
    if n > 0 { PositionsMembers(flags, n - 1); }
  }

  method FindDifferingSelectors(a: seq<ResourceRef>, b: seq<ResourceRef>) returns (indices: seq<nat>)
    requires |a| == |b|
    ensures indices == Positions(Differences(a, b), |a|)
    ensures forall i: nat :: i in indices <==> i < |a| && Differs(a[i], b[i])
  {
    hide SelectorString;
    indices := [];
    ghost var flags := Differences(a, b);
    for i := 0 to |a|
      invariant indices == Positions(flags, i)
    {
      if Differs(a[i], b[i]) {
        indices := indices + [i];
      }
    }
    PositionsMembers(flags, |a|);
  }

  function WidenedChain(existing: seq<ResourceRef>, incoming: seq<ResourceRef>): (chain: seq<ResourceRef>)
    requires |existing| == |incoming|
    ensures |chain| == |existing|
    ensures forall i :: 0 <= i < |chain| ==>
      chain[i] == if Differs(existing[i], incoming[i]) then ResourceRef(existing[i].resource, None) else existing[i]
  {
    seq(|existing|, i requires 0 <= i < |existing| =>
      if Differs(existing[i], incoming[i]) then ResourceRef(existing[i].resource, None) else existing[i])
  }

  // `widenCliAuthorizationDetail`
  function Widen(existing: Detail, incoming: Detail): Detail
    requires |existing.chain| == |incoming.chain|
  {
    var chain := WidenedChain(existing.chain, incoming.chain);
    existing.(chain := chain,
              permission := Canonical(existing.cliId, chain, existing.action),
              display := existing.display + " (widened)")
  }

  // `cliAuthorizationDetailIsSimilar`
  predicate Similar(existing: Detail, incoming: Detail) {
    && existing.kind == CLI_KIND && incoming.kind == CLI_KIND
    && existing.cliId == incoming.cliId && existing.action == incoming.action
    && SameStructure(existing.chain, incoming.chain)
    && !Covers(existing, incoming)
    && exists i :: 0 <= i < |existing.chain| && Differs(existing.chain[i], incoming.chain[i])
  }

  // The positions that widening leaves alone hold no overlong glob.
  predicate UnchangedBounded(existing: Detail, incoming: Detail)
    requires |existing.chain| == |incoming.chain|
  {
    forall i :: 0 <= i < |existing.chain| && !Differs(existing.chain[i], incoming.chain[i]) ==>
      BoundedRef(existing.chain[i])
  }

  lemma WidenedRefCovers(e: ResourceRef, n: ResourceRef, w: ResourceRef)
    requires SeparableRef(e) && SeparableRef(n) && e.resource == n.resource
    requires w == if Differs(e, n) then ResourceRef(e.resource, None) else e
    ensures RefCovers(w, e) && RefCovers(w, n) <==> Differs(e, n) || BoundedRef(e)
  {
    SelectorStringIsFaithful(e.selector, n.selector);
    RefCoversReflexive(e);
  }

  lemma WidenedParts(existing: Detail, incoming: Detail, w: Detail)
    requires Similar(existing, incoming) && w == Widen(existing, incoming)
    ensures Covers(w, existing) && Covers(w, incoming) <==>
            forall i :: 0 <= i < |existing.chain| ==>
              RefCovers(w.chain[i], existing.chain[i]) && RefCovers(w.chain[i], incoming.chain[i])
  {
  }

  // A widened detail covers both similar details it came from, exactly when no selector
  // value it keeps is an overlong glob.
  lemma WidenCoversBoth(existing: Detail, incoming: Detail)
    requires Similar(existing, incoming) && Separable(existing) && Separable(incoming)
    ensures var w := Widen(existing, incoming);
            Covers(w, existing) && Covers(w, incoming) <==> UnchangedBounded(existing, incoming)
  {
    var w := Widen(existing, incoming);
    WidenedParts(existing, incoming, w);
    forall i | 0 <= i < |existing.chain|
      ensures RefCovers(w.chain[i], existing.chain[i]) && RefCovers(w.chain[i], incoming.chain[i])
              <==> Differs(existing.chain[i], incoming.chain[i]) || BoundedRef(existing.chain[i])
    {
      WidenedRefCovers(existing.chain[i], incoming.chain[i], w.chain[i]);
    }
  }

  // ---------------------------------------------------------------- merging

  ghost predicate Occurs(key: string, details: seq<Detail>) {
    exists d :: d in details && CanonicalOf(d) == key
  }

  // What `mergeCliAuthorizationDetails` leaves of a flattened list: the first detail of
  // every canonical permission, carrying that permission.
  ghost function Merged(all: seq<Detail>): seq<Detail> {
    if |all| == 0 then []
    else
      var before, d := Merged(all[..|all| - 1]), all[|all| - 1];
      if Occurs(CanonicalOf(d), before) then before else before + [d.(permission := CanonicalOf(d))]
  }

  method MergeCliAuthorizationDetails(detailSets: seq<seq<Detail>>) returns (merged: seq<Detail>)
    ensures merged == Merged(Flatten(detailSets))
  {
    var all := Flatten(detailSets);
    var seen: set<string> := {};
    merged := [];
    for i := 0 to |all|
      invariant merged == Merged(all[..i])
      invariant forall key :: key in seen <==> Occurs(key, merged)
    {
      var key := CanonicalOf(all[i]);
      assert all[..i + 1][..i] == all[..i];
      if key !in seen {
        var kept := all[i].(permission := key);
        assert CanonicalOf(kept) == key;
        forall k ensures Occurs(k, merged + [kept]) <==> k == key || Occurs(k, merged) {
          assert kept in merged + [kept];
          if Occurs(k, merged) { var d :| d in merged && CanonicalOf(d) == k; assert d in merged + [kept]; }
        }
        seen := seen + {key};
        merged := merged + [kept];
      }
    }
    assert all[..|all|] == all;
  }

  function Flatten(sets: seq<seq<Detail>>): seq<Detail> {
    if |sets| == 0 then [] else sets[0] + Flatten(sets[1..])
  }

  lemma {:induction false} MergedFacts(all: seq<Detail>)
    ensures forall m :: m in Merged(all) ==>
              m.permission == CanonicalOf(m) && exists d :: d in all && m == d.(permission := CanonicalOf(d))
    ensures forall d :: d in all ==> Occurs(CanonicalOf(d), Merged(all))
    ensures forall i, j :: 0 <= i < j < |Merged(all)| ==> CanonicalOf(Merged(all)[i]) != CanonicalOf(Merged(all)[j])
  {
    hide Canonical;
    if |all| > 0 {
      var init, d := all[..|all| - 1], all[|all| - 1];
      MergedFacts(init);
      var before := Merged(init);
      assert all == init + [d];
      var kept := d.(permission := CanonicalOf(d));
      if !Occurs(CanonicalOf(d), before) {
        assert Merged(all) == before + [kept];
        assert forall i :: 0 <= i < |before| ==> before[i] in before;
      }
      forall x | x in all ensures Occurs(CanonicalOf(x), Merged(all)) {
        if x in init {
          var m :| m in before && CanonicalOf(m) == CanonicalOf(x);
          assert m in Merged(all);
        } else if !Occurs(CanonicalOf(d), before) {
          assert kept in Merged(all);
        }
      }
      forall m | m in Merged(all) ensures exists x :: x in all && m == x.(permission := CanonicalOf(x)) {
        if m in before {
          var x :| x in init && m == x.(permission := CanonicalOf(x));
          assert x in all;
        } else {
          assert d in all && m == kept;
        }
      }
    }
  }

  // No two details of the list share a canonical permission without the same authority.
  predicate Collisionless(all: seq<Detail>) {
    forall a, b :: a in all && b in all && CanonicalOf(a) == CanonicalOf(b) ==> SameNormalized(a, b)
  }

  lemma SeparableIsCollisionless(all: seq<Detail>)
    requires forall d :: d in all ==> Separable(d)
    ensures Collisionless(all)
  {
    forall a, b | a in all && b in all && CanonicalOf(a) == CanonicalOf(b) ensures SameNormalized(a, b) {
      CanonicalIsFaithful(a, b);
    }
  }

  lemma SameNormalizedThrough(m: Detail, a: Detail, b: Detail)
    requires SameNormalized(m, a) && SameNormalized(m, b)
    ensures SameNormalized(a, b)
  {
    forall i | 0 <= i < |a.chain| ensures SameRef(a.chain[i], b.chain[i]) {
      assert SameRef(m.chain[i], a.chain[i]) && SameRef(m.chain[i], b.chain[i]);
    }
  }

  ghost predicate Kept(d: Detail, merged: seq<Detail>) {
    exists m :: m in merged && SameNormalized(m, d)
  }

  lemma MergedDistinct(all: seq<Detail>, m: Detail, n: Detail)
    requires m in Merged(all) && n in Merged(all) && CanonicalOf(m) == CanonicalOf(n)
    ensures m == n
  {
    MergedFacts(all);
    var i :| 0 <= i < |Merged(all)| && Merged(all)[i] == m;
    var j :| 0 <= j < |Merged(all)| && Merged(all)[j] == n;
  }

  lemma CollisionLosesOne(all: seq<Detail>, a: Detail, b: Detail)
    requires a in all && b in all && CanonicalOf(a) == CanonicalOf(b)
    requires Kept(a, Merged(all)) && Kept(b, Merged(all))
    ensures SameNormalized(a, b)
  {
    var m :| m in Merged(all) && SameNormalized(m, a);
    var n :| n in Merged(all) && SameNormalized(n, b);
    SameNormalizedSameCanonical(m, a);
    SameNormalizedSameCanonical(n, b);
    MergedDistinct(all, m, n);
    SameNormalizedThrough(m, a, b);
  }

  lemma CollisionlessKeeps(all: seq<Detail>, d: Detail) returns (m: Detail)
    requires Collisionless(all) && d in all
    ensures m in Merged(all) && SameNormalized(m, d)
    ensures exists x :: x in all && m == x.(permission := CanonicalOf(x))
  {
    MergedFacts(all);
    m :| m in Merged(all) && CanonicalOf(m) == CanonicalOf(d);
    var x :| x in all && m == x.(permission := CanonicalOf(x));
    assert CanonicalOf(x) == CanonicalOf(m);
    assert SameNormalized(x, d);
  }

  // Merging keeps the authority of every detail exactly when no permission strings collide.
  lemma MergeKeepsEveryDetail(all: seq<Detail>)
    ensures (forall d :: d in all ==> Kept(d, Merged(all))) <==> Collisionless(all)
  {
    if forall d :: d in all ==> Kept(d, Merged(all)) {
      forall a, b | a in all && b in all && CanonicalOf(a) == CanonicalOf(b) ensures SameNormalized(a, b) {
        CollisionLosesOne(all, a, b);
      }
    }
    if Collisionless(all) {
      forall d | d in all ensures Kept(d, Merged(all)) { var _ := CollisionlessKeeps(all, d); }
    }
  }

  lemma SameNormalizedCoversSame(a: Detail, b: Detail, r: Detail)
    requires SameNormalized(a, b) && a.kind == b.kind
    ensures Covers(a, r) == Covers(b, r)
  {
    if |a.chain| <= |r.chain| {
      forall i | 0 <= i < |a.chain| ensures RefCovers(a.chain[i], r.chain[i]) == RefCovers(b.chain[i], r.chain[i]) {
        assert SameRef(a.chain[i], b.chain[i]);
      }
    }
  }

  ghost predicate SomeCovers(details: seq<Detail>, r: Detail) {
    exists d :: d in details && Covers(d, r)
  }

  // A merged list never covers more than its inputs, and without colliding permissions it
  // covers exactly what they cover.
  lemma MergeKeepsCoverage(all: seq<Detail>, r: Detail)
    requires forall d :: d in all ==> d.kind == CLI_KIND
    ensures SomeCovers(Merged(all), r) ==> SomeCovers(all, r)
    ensures Collisionless(all) ==> (SomeCovers(Merged(all), r) <==> SomeCovers(all, r))
  {
    if SomeCovers(Merged(all), r) {
      MergedFacts(all);
      var m :| m in Merged(all) && Covers(m, r);
      var d :| d in all && m == d.(permission := CanonicalOf(d));
      SameAuthorityCoversSame(d, m, r);
    }
    if Collisionless(all) && SomeCovers(all, r) {
      var d :| d in all && Covers(d, r);
      var m := CollisionlessKeeps(all, d);
      assert m.kind == CLI_KIND;
      SameNormalizedCoversSame(m, d, r);
    }
  }

  lemma SameAuthorityCoversSame(a: Detail, b: Detail, r: Detail)
    requires a.kind == b.kind && a.cliId == b.cliId && a.action == b.action && a.chain == b.chain
    ensures Covers(a, r) == Covers(b, r)
  {
  }

  // ---------------------------------------------------------------- a collision

  function Example(selector: Selector): Detail {
    Detail(CLI_KIND, "gh", "gh.repo", [ResourceRef("repo", Some(selector))], "read", "", "", Low, None)
  }

  lemma KeysOfTwo()
    ensures SortedKeys({"a", "b"}) == ["a", "b"] && SortedKeys({"a"}) == ["a"]
  {
    assert Ascending(["a", "b"]) by { assert Less("a", "b"); }
    SortedKeysFacts({"a", "b"});
    SortedKeysFacts({"a"});
    AscendingIsUnique(SortedKeys({"a", "b"}), ["a", "b"]);
    AscendingIsUnique(SortedKeys({"a"}), ["a"]);
  }

  lemma CommaTextsAgree()
    ensures SelectorString(Some(map["a" := "x,b=y"])) == SelectorString(Some(map["a" := "x", "b" := "y"]))
  {
    hide SortedKeys, Less;
    var s1, s2 := map["a" := "x,b=y"], map["a" := "x", "b" := "y"];
    KeysOfTwo();
    assert NonEmpty(s1) == s1 && NonEmpty(s2) == s2;
    assert |s1| > 0 by { assert "a" in s1.Keys; }
    assert |s2| > 0 by { assert "a" in s2.Keys; }
    assert s1.Keys == {"a"} && s2.Keys == {"a", "b"};
    assert EntryTexts(s2, ["a", "b"]) == ["a=x", "b=y"] by {
      assert "a" + "=" + "x" == "a=x" && "b" + "=" + "y" == "b=y";
    }
    assert EntryTexts(s1, ["a"]) == ["a=x,b=y"] by { assert "a" + "=" + "x,b=y" == "a=x,b=y"; }
    assert Join(["a=x", "b=y"], ",") == "a=x,b=y";
  }

  lemma MergedOfTwo(one: Detail, two: Detail)
    requires CanonicalOf(one) == CanonicalOf(two)
    ensures Merged([one, two]) == [one.(permission := CanonicalOf(one))]
  {
    var kept := one.(permission := CanonicalOf(one));
    assert [one][..0] == [];
    assert Merged([one]) == [kept];
    assert [one, two][..1] == [one];
    assert CanonicalOf(kept) == CanonicalOf(two) && kept in Merged([one]);
  }

  // A comma inside a selector value makes two different authorities share a permission;
  // the merged list then no longer covers the second of them.
  lemma CommaCollides()
    ensures var one, two := Example(map["a" := "x,b=y"]), Example(map["a" := "x", "b" := "y"]);
            && CanonicalOf(one) == CanonicalOf(two)
            && SomeCovers([one, two], two) && !SomeCovers(Merged([one, two]), two)
  {
    var one, two := Example(map["a" := "x,b=y"]), Example(map["a" := "x", "b" := "y"]);
    CommaTextsAgree();
    assert RefText(one.chain[0]) == RefText(two.chain[0]);
    assert RefTexts(one.chain) == [RefText(one.chain[0])] && RefTexts(two.chain) == [RefText(two.chain[0])];
    MergedOfTwo(one, two);
    CoversReflexive(two);
    assert two in [one, two];
    CommaRefsDiffer(one.chain[0], two.chain[0]);
  }

  lemma CommaRefsDiffer(a: ResourceRef, b: ResourceRef)
    requires a == ResourceRef("repo", Some(map["a" := "x,b=y"]))
    requires b == ResourceRef("repo", Some(map["a" := "x", "b" := "y"]))
    ensures !RefCovers(a, b)
  {
    var n := NonEmpty(a.selector.value);
    assert "a" in n && n["a"] == "x,b=y";
    assert |n| > 0 by { assert "a" in n.Keys; }
    assert !Glob.Matches("x,b=y", "x");
  }

  // ---------------------------------------------------------------- field by field

  // A reference without values has the selector string `*`.
  lemma UnstatedIsStar(selector: Option<Selector>)
    requires selector.Some? ==> forall k :: k in selector.value ==> selector.value[k] == ""
    ensures SelectorString(selector) == "*"
  {
    if selector.Some? {
      assert NonEmpty(selector.value).Keys == {};
    }
  }

  // Two details are similar exactly if they are for the same action of one tool on the same
  // kinds of resources, the old one does not cover the new one, and some selectors differ.
  lemma SimilarExactly(existing: Detail, incoming: Detail)
    ensures Similar(existing, incoming) <==>
              && existing.kind == "openape_cli" && incoming.kind == "openape_cli"
              && existing.cliId == incoming.cliId && existing.action == incoming.action
              && |existing.chain| == |incoming.chain|
              && (forall i :: 0 <= i < |existing.chain| ==> existing.chain[i].resource == incoming.chain[i].resource)
              && !Covers(existing, incoming)
              && exists i :: 0 <= i < |existing.chain|
                             && SelectorString(existing.chain[i].selector) != SelectorString(incoming.chain[i].selector)
  {
    hide Covers, SelectorString;
  }

  // Widening drops the selectors that differ, renews the permission and says so in the
  // display; everything else is that of the old detail.
  lemma WidenedFields(existing: Detail, incoming: Detail)
    requires |existing.chain| == |incoming.chain|
    ensures var w := Widen(existing, incoming);
            && w == existing.(chain := w.chain, permission := CanonicalOf(w),
                              display := existing.display + " (widened)")
            && |w.chain| == |existing.chain|
            && forall i :: 0 <= i < |w.chain| ==>
                 && w.chain[i].resource == existing.chain[i].resource
                 && w.chain[i].selector == if SelectorString(existing.chain[i].selector)
                                              == SelectorString(incoming.chain[i].selector)
                                           then existing.chain[i].selector else None
  {
    hide SelectorString, Canonical;
  }
}
