// Which texts of a plan are listed for translation, field by field
// (packages/ape-testruns/src/plan-translations.ts:4-28).
module PlanTexts {
  import opened Wrappers
  import opened Text
  import opened Json
  import opened PlanTranslations

  predicate NumberIn(part: string, i: nat, n: nat) {
    exists k: nat :: i <= k < n && part == Decimal(k)
  }

  // The part names an item of one of the plan's lists.
  predicate NamesRecord(plan: Value, group: string, part: string) {
    match At(plan, [group])
    case Some(VArray(records)) => NumberIn(part, 0, |records|)
    case _ => false
  }

  predicate NamesProblem(plan: Value, key: string) {
    At(plan, ["problem"]).Some? && At(plan, ["problem"]).value.VObject? && key in At(plan, ["problem"]).value.fields
  }

  // The fields of a plan that are translated, and those of its records.
  predicate TranslatedField(plan: Value, root: seq<string>) {
    match |root|
    case 1 =>
      root[0] in {"title", "goal", "summary", "context", "scope", "nonGoals", "verification", "handoff"}
    case 2 =>
      root == ["completion", "summary"] || (root[0] == "problem" && NamesProblem(plan, root[1]))
    case 3 =>
      && NamesRecord(plan, root[0], root[1])
      && (|| (root[0] == "milestones"
              && root[2] in {"title", "goal", "steps", "acceptance", "blocker", "proof", "rollback"})
          || (root[0] == "decisions" && root[2] in {"title", "description"})
          || (root[0] == "risks" && root[2] in {"title", "mitigation"})
          || (root[0] == "sections" && root[2] in {"title", "body"})
          || (root[0] == "changelog" && root[2] == "text"))
    case _ => false
  }

  // ---------------------------------------------------------------- the roots, field by field

  lemma InKeyRoots(prefix: seq<string>, keys: seq<string>, root: seq<string>)
    ensures root in KeyRoots(prefix, keys) <==>
              |root| == |prefix| + 1 && prefix <= root && root[|prefix|] in keys
  {
    if |root| == |prefix| + 1 && prefix <= root && root[|prefix|] in keys {
      var i :| 0 <= i < |keys| && keys[i] == root[|prefix|];
      assert root == prefix + [keys[i]] && KeyRoots(prefix, keys)[i] == root;
    }
  }

  lemma {:induction false} InRecordRoots(group: string, i: nat, n: nat, root: seq<string>)
    ensures root in RecordRoots(group, i, n) <==>
              && |root| == 3 && root[0] == group && root[2] in GroupKeys(group)
              && NumberIn(root[1], i, n)
    decreases n - i
  {
    hide GroupKeys, Decimal;
    if i < n {
      InRecordRoots(group, i + 1, n, root);
      InKeyRoots([group, Decimal(i)], GroupKeys(group), root);
      if |root| == 3 { assert [group, Decimal(i)] <= root <==> root[0] == group && root[1] == Decimal(i); }
    }
  }

  // The root is one of the records of a group.
  predicate InGroup(plan: Value, group: string, root: seq<string>) {
    |root| == 3 && root[0] == group && root[2] in GroupKeys(group) && NamesRecord(plan, group, root[1])
  }

  lemma CountsRecords(plan: Value, group: string, part: string)
    ensures NamesRecord(plan, group, part) <==> NumberIn(part, 0, RecordCount(plan, group))
  {
    assert [group][1..] == [] && At(plan, [group]) == Child(plan, group);
  }

  lemma {:induction false} InGroupRoots(plan: Value, groups: seq<string>, root: seq<string>)
    ensures root in GroupRoots(plan, groups) <==> exists i :: 0 <= i < |groups| && InGroup(plan, groups[i], root)
  {
    hide GroupKeys, Decimal, NamesRecord, RecordCount, RecordRoots;
    if |groups| > 0 {
      var group, rest := groups[0], groups[1..];
      InGroupRoots(plan, rest, root);
      InRecordRoots(group, 0, RecordCount(plan, group), root);
      if |root| == 3 { CountsRecords(plan, group, root[1]); }
      assert root in RecordRoots(group, 0, RecordCount(plan, group)) <==> InGroup(plan, group, root);
      hide InGroup;
      assert forall i :: 0 <= i < |rest| ==> rest[i] == groups[i + 1];
      if i :| 0 <= i < |groups| && InGroup(plan, groups[i], root) {
        if i > 0 { assert InGroup(plan, rest[i - 1], root); }
      }
    }
  }

  lemma InProblem(plan: Value, key: string)
    ensures key in ProblemKeys(plan) <==> NamesProblem(plan, key)
  {
    assert At(plan, ["problem"]) == Child(plan, "problem");
    if Child(plan, "problem").Some? && Child(plan, "problem").value.VObject? {
      SortedKeysFacts(Child(plan, "problem").value.fields.Keys);
    }
  }

  lemma InGroups(plan: Value, root: seq<string>)
    ensures (exists i :: 0 <= i < |GROUPS| && InGroup(plan, GROUPS[i], root)) <==>
              |root| == 3 && TranslatedField(plan, root)
  {
    hide NamesRecord, NamesProblem;
    assert |GROUPS| == 5;
    assert InGroup(plan, GROUPS[0], root) <==> InGroup(plan, "milestones", root);
    assert InGroup(plan, GROUPS[1], root) <==> InGroup(plan, "decisions", root);
    assert InGroup(plan, GROUPS[2], root) <==> InGroup(plan, "risks", root);
    assert InGroup(plan, GROUPS[3], root) <==> InGroup(plan, "sections", root);
    assert InGroup(plan, GROUPS[4], root) <==> InGroup(plan, "changelog", root);
  }

  // The roots are exactly these fields.
  lemma RootsAreFields(plan: Value, root: seq<string>)
    ensures root in Roots(plan) <==> TranslatedField(plan, root)
  {
    InKeyRoots([], TOP_KEYS, root);
    InKeyRoots(["problem"], ProblemKeys(plan), root);
    if |root| == 2 { InProblem(plan, root[1]); }
    InGroupRoots(plan, GROUPS, root);
    InGroups(plan, root);
    hide GroupRoots, InGroup, NamesRecord, NamesProblem, ProblemKeys;
    assert |root| == 2 ==> (["problem"] <= root <==> root[0] == "problem");
  }

  // ---------------------------------------------------------------- the entries

  lemma {:induction false} AddReachesThroughLists(plan: Value, v: Value, parts: seq<string>, e: Entry)
    requires At(plan, parts) == Some(v) && e in Add(v, parts)
    ensures ThroughLists(plan, parts, e.parts) && At(plan, e.parts) == Some(VStr(e.source))
    decreases v, 1, 0
  {
    if v.VArray? { ItemsReachThroughLists(plan, v, parts, 0, e); }
  }

  lemma {:induction false} ItemsReachThroughLists(plan: Value, v: Value, parts: seq<string>, i: nat, e: Entry)
    requires v.VArray? && i <= |v.items| && At(plan, parts) == Some(v) && e in AddItems(v, parts, i)
    ensures ThroughLists(plan, parts, e.parts) && At(plan, e.parts) == Some(VStr(e.source))
    decreases v, 0, |v.items| - i
  {
    var inner := parts + [Decimal(i)];
    IndexChild(v.items, i);
    AtAppend(plan, parts, Decimal(i));
    if e in Add(v.items[i], inner) {
      AddReachesThroughLists(plan, v.items[i], inner, e);
      hide Add, AddItems, Decimal;
      assert e.parts[..|parts|] == parts && e.parts[..|inner|] == inner;
    } else {
      ItemsReachThroughLists(plan, v, parts, i + 1, e);
    }
  }

  lemma {:induction false} EntryHasRoot(plan: Value, roots: seq<seq<string>>, e: Entry) returns (root: seq<string>)
    requires e in FromRoots(plan, roots)
    ensures root in roots && At(plan, root).Some? && e in Add(At(plan, root).value, root)
  {
    hide At, Add;
    root := roots[0];
    if !(At(plan, root).Some? && e in Add(At(plan, root).value, root)) {
      root := EntryHasRoot(plan, roots[1..], e);
    }
  }

  // A text is listed exactly when it is, or is in the lists of, one of these fields.
  lemma ListedExactly(plan: Value, e: Entry)
    ensures e in PlanTextEntries(plan) <==>
              && At(plan, e.parts) == Some(VStr(e.source))
              && exists root :: TranslatedField(plan, root) && ThroughLists(plan, root, e.parts)
  {
    hide Roots, Add, FromRoots, TranslatedField, At;
    if e in PlanTextEntries(plan) {
      var root := EntryHasRoot(plan, Roots(plan), e);
      RootsAreFields(plan, root);
      AddReachesThroughLists(plan, At(plan, root).value, root, e);
    }
    if root :| TranslatedField(plan, root) && ThroughLists(plan, root, e.parts) {
      RootsAreFields(plan, root);
      EveryTextIsListed(plan, root, e.parts);
    }
  }

  // ---------------------------------------------------------------- translations

  // The object has this text under the key.
  predicate HasText(v: Value, key: string, text: string) {
    v.VObject? && key in v.fields && v.fields[key] == VStr(text)
  }

  predicate IsTranslation(v: Value, t: Translation) {
    HasText(v, "path", t.path) && HasText(v, "source", t.source) && HasText(v, "text", t.text)
  }

  // The translations of a plan are its `translations.entries`, in order.
  lemma TranslationsAreEntries(plan: Value, translations: Value, entries: seq<Value>, trs: seq<Translation>)
    requires plan.VObject? && "translations" in plan.fields && plan.fields["translations"] == translations
    requires translations.VObject? && "entries" in translations.fields
             && translations.fields["entries"] == VArray(entries)
    requires |trs| == |entries| && forall i :: 0 <= i < |trs| ==> IsTranslation(entries[i], trs[i])
    ensures TranslationsOf(plan) == trs
  {
    var path := ["translations", "entries"];
    assert path[1..] == ["entries"] && path[1..][1..] == [];
    assert At(translations, ["entries"]) == Some(VArray(entries));
    assert At(plan, path) == Some(VArray(entries));
    forall i | 0 <= i < |trs|
      ensures TranslationsFrom(entries)[i] == trs[i]
    {
      assert IsTranslation(entries[i], trs[i]);
    }
  }

  // A plan has translations only if it is in English, has a summary that is not empty and
  // a problem overview.
  lemma BilingualMeans(plan: Value)
    requires plan.VObject?
    requires forall k :: k in {"language", "summary"} && k in plan.fields ==> plan.fields[k].VStr?
    ensures BilingualPlan(plan) <==>
              && ("language" in plan.fields ==> plan.fields["language"] in {VStr(""), VStr("en")})
              && "summary" in plan.fields && plan.fields["summary"] != VStr("")
              && "problem" in plan.fields && plan.fields["problem"].VObject?
  {
    assert "language" in plan.fields ==> plan.fields["language"].VStr?;
    assert "summary" in plan.fields ==> plan.fields["summary"].VStr?;
  }
}
