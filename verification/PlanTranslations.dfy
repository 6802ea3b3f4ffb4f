// Translating the texts of a plan in place (packages/ape-testruns/src/plan-translations.ts).
module PlanTranslations {
  import opened Wrappers
  import opened Text
  import opened Json

  datatype Entry = Entry(parts: seq<string>, source: string)

  datatype Translation = Translation(path: string, source: string, text: string)

  // ---------------------------------------------------------------- locations

  function Child(v: Value, part: string): Option<Value> {
    if v.VObject? && part in v.fields then Some(v.fields[part])
    else if v.VArray? && NamesItem(part) && NumberOf(part) < |v.items| then Some(v.items[NumberOf(part)])
    else None
  }

  // A numeral that names an array element.
  predicate NamesItem(part: string) {
    AllDigits(part) && Decimal(NumberOf(part)) == part
  }

  function At(v: Value, parts: seq<string>): Option<Value> {
    if |parts| == 0 then Some(v)
    else
      var c := Child(v, parts[0]);
      if c.None? then None else At(c.value, parts[1..])
  }

  function WithChild(v: Value, part: string, child: Value): Value
    requires Child(v, part).Some?
  {
    if v.VObject? then VObject(v.fields[part := child]) else VArray(v.items[NumberOf(part) := child])
  }

  // Writing a text at an existing location; writing anywhere else is an error here.
  function Set(v: Value, parts: seq<string>, text: string): Option<Value> {
    if |parts| == 0 then Some(VStr(text))
    else
      var c := Child(v, parts[0]);
      if c.None? then None
      else
        var child := Set(c.value, parts[1..], text);
        if child.None? then None else Some(WithChild(v, parts[0], child.value))
  }

  lemma IndexChild(items: seq<Value>, i: nat)
    requires i < |items|
    ensures NamesItem(Decimal(i)) && Child(VArray(items), Decimal(i)) == Some(items[i])
  {
    DecimalRoundTrip(i);
  }

  // ---------------------------------------------------------------- text entries

  function PathOf(parts: seq<string>): string {
    Join(parts, ".")
  }

  // The nested `add`: a text is an entry, a list is entered item by item.
  function Add(v: Value, parts: seq<string>): seq<Entry>
    decreases v, 1, 0
  {
    match v
    case VStr(s) => [Entry(parts, s)]
    case VArray(items) => AddItems(v, parts, 0)
    case _ => []
  }

  function AddItems(v: Value, parts: seq<string>, i: nat): seq<Entry>
    requires v.VArray? && i <= |v.items|
    decreases v, 0, |v.items| - i
  {
    if i == |v.items| then [] else Add(v.items[i], parts + [Decimal(i)]) + AddItems(v, parts, i + 1)
  }

  const TOP_KEYS: seq<string> := ["title", "goal", "summary", "context", "scope", "nonGoals", "verification", "handoff"]

  const GROUPS: seq<string> := ["milestones", "decisions", "risks", "sections", "changelog"]

  function GroupKeys(group: string): seq<string> {
    if group == "milestones" then ["title", "goal", "steps", "acceptance", "blocker", "proof", "rollback"]
    else if group == "decisions" then ["title", "description"]
    else if group == "risks" then ["title", "mitigation"]
    else if group == "sections" then ["title", "body"]
    else ["text"]
  }

  function KeyRoots(prefix: seq<string>, keys: seq<string>): (roots: seq<seq<string>>)
    ensures |roots| == |keys| && forall i :: 0 <= i < |keys| ==> roots[i] == prefix + [keys[i]]
  {
    seq(|keys|, i requires 0 <= i < |keys| => prefix + [keys[i]])
  }

  // The roots of the records from number i on.
  function RecordRoots(group: string, i: nat, n: nat): seq<seq<string>>
    decreases n - i
  {
    if i >= n then [] else KeyRoots([group, Decimal(i)], GroupKeys(group)) + RecordRoots(group, i + 1, n)
  }

  function RecordCount(plan: Value, group: string): nat {
    match Child(plan, group)
    case Some(VArray(records)) => |records|
    case _ => 0
  }

  function ProblemKeys(plan: Value): seq<string> {
    match Child(plan, "problem")
    case Some(VObject(fields)) => SortedKeys(fields.Keys)
    case _ => []
  }

  function GroupRoots(plan: Value, groups: seq<string>): seq<seq<string>> {
    if |groups| == 0 then []
      else RecordRoots(groups[0], 0, RecordCount(plan, groups[0])) + GroupRoots(plan, groups[1..])
  }

  // Where a plan may hold text, in the order in which the texts are listed.
  function Roots(plan: Value): seq<seq<string>> {
    KeyRoots([], TOP_KEYS) + KeyRoots(["problem"], ProblemKeys(plan)) + GroupRoots(plan, GROUPS)
      + [["completion", "summary"]]
  }

  function FromRoots(plan: Value, roots: seq<seq<string>>): seq<Entry> {
    if |roots| == 0 then []
    else (match At(plan, roots[0]) case Some(v) => Add(v, roots[0]) case None => []) + FromRoots(plan, roots[1..])
  }

  // `planTextEntries`
  function PlanTextEntries(plan: Value): seq<Entry> {
    FromRoots(plan, Roots(plan))
  }

  // ---- the code's loops

  lemma {:induction false} FromRootsAppend(plan: Value, a: seq<seq<string>>, b: seq<seq<string>>)
    ensures FromRoots(plan, a + b) == FromRoots(plan, a) + FromRoots(plan, b)
  {
    hide At, Add;
    if |a| == 0 {
      assert a + b == b;
    } else {
      assert (a + b)[1..] == a[1..] + b;
      FromRootsAppend(plan, a[1..], b);
    }
  }

  method AddText(v: Value, parts: seq<string>, before: seq<Entry>) returns (entries: seq<Entry>)
    ensures entries == before + Add(v, parts)
    decreases v
  {
    entries := before;
    match v
    case VStr(s) => entries := entries + [Entry(parts, s)];
    case VArray(items) =>
      for i := 0 to |items|
        invariant entries + AddItems(v, parts, i) == before + Add(v, parts)
      {
        ghost var rest := AddItems(v, parts, i + 1);
        assert entries + (Add(items[i], parts + [Decimal(i)]) + rest)
               == entries + Add(items[i], parts + [Decimal(i)]) + rest;
        entries := AddText(items[i], parts + [Decimal(i)], entries);
      }
      assert entries + [] == entries;
    case _ => assert before + [] == before;
  }

  // The texts of a record under some of its keys.
  method AddKeys(plan: Value, prefix: seq<string>, keys: seq<string>, before: seq<Entry>) returns (entries: seq<Entry>)
    ensures entries == before + FromRoots(plan, KeyRoots(prefix, keys))
  {
    hide At, Add;
    entries := before;
    ghost var roots := KeyRoots(prefix, keys);
    assert roots[0..] == roots;
    for n := 0 to |keys|
      invariant entries + FromRoots(plan, roots[n..]) == before + FromRoots(plan, roots)
    {
      var parts := prefix + [keys[n]];
      ghost var rest := FromRoots(plan, roots[n + 1..]);
      assert roots[n..][1..] == roots[n + 1..];
      var v := At(plan, parts);
      if v.Some? {
        assert entries + (Add(v.value, parts) + rest) == entries + Add(v.value, parts) + rest;
        entries := AddText(v.value, parts, entries);
      } else {
        assert [] + rest == rest;
      }
    }
    assert entries + [] == entries;
  }

  // The texts of all records of a group.
  method AddRecords(plan: Value, group: string, before: seq<Entry>) returns (entries: seq<Entry>)
    ensures entries == before + FromRoots(plan, RecordRoots(group, 0, RecordCount(plan, group)))
  {
    hide FromRoots, GroupKeys, Decimal;
    var count := RecordCount(plan, group);
    hide RecordCount;
    entries := before;
    for i := 0 to count
      invariant entries + FromRoots(plan, RecordRoots(group, i, count))
                == before + FromRoots(plan, RecordRoots(group, 0, count))
    {
      ghost var roots, rest := KeyRoots([group, Decimal(i)], GroupKeys(group)), RecordRoots(group, i + 1, count);
      FromRootsAppend(plan, roots, rest);
      assert entries + (FromRoots(plan, roots) + FromRoots(plan, rest))
             == entries + FromRoots(plan, roots) + FromRoots(plan, rest);
      entries := AddKeys(plan, [group, Decimal(i)], GroupKeys(group), entries);
    }
    NoEntries(plan);
    assert entries + [] == entries;
  }

  lemma NoEntries(plan: Value)
    ensures FromRoots(plan, []) == []
  {
  }

  // The texts of the records of all groups.
  method AddGroups(plan: Value, before: seq<Entry>) returns (entries: seq<Entry>)
    ensures entries == before + FromRoots(plan, GroupRoots(plan, GROUPS))
  {
    hide FromRoots, RecordRoots, RecordCount;
    entries := before;
    var groups := GROUPS;
    assert groups[0..] == groups;
    for n := 0 to |groups|
      invariant entries + FromRoots(plan, GroupRoots(plan, groups[n..]))
                == before + FromRoots(plan, GroupRoots(plan, groups))
    {
      assert groups[n..][1..] == groups[n + 1..];
      ghost var roots, rest := RecordRoots(groups[n], 0, RecordCount(plan, groups[n])),
        GroupRoots(plan, groups[n + 1..]);
      GroupAppended(plan, entries, roots, rest);
      entries := AddRecords(plan, groups[n], entries);
    }
    NoEntries(plan);
    assert entries + [] == entries;
  }

  lemma GroupAppended(plan: Value, entries: seq<Entry>, roots: seq<seq<string>>, rest: seq<seq<string>>)
    ensures entries + FromRoots(plan, roots + rest) == entries + FromRoots(plan, roots) + FromRoots(plan, rest)
  {
    FromRootsAppend(plan, roots, rest);
    hide FromRoots;
  }

  method ListPlanTexts(plan: Value) returns (entries: seq<Entry>)
    ensures entries == PlanTextEntries(plan)
  {
    hide FromRoots, GroupRoots, ProblemKeys, PlanTextEntries;
    entries := AddKeys(plan, [], TOP_KEYS, []);
    entries := AddKeys(plan, ["problem"], ProblemKeys(plan), entries);
    entries := AddGroups(plan, entries);
    entries := AddKeys(plan, ["completion"], ["summary"], entries);
    AllRoots(plan);
  }

  lemma AllRoots(plan: Value)
    ensures PlanTextEntries(plan) ==
            FromRoots(plan, KeyRoots([], TOP_KEYS)) + FromRoots(plan, KeyRoots(["problem"], ProblemKeys(plan)))
            + FromRoots(plan, GroupRoots(plan, GROUPS)) + FromRoots(plan, KeyRoots(["completion"], ["summary"]))
  {
    hide FromRoots, GroupRoots, ProblemKeys;
    var a, b := KeyRoots([], TOP_KEYS), KeyRoots(["problem"], ProblemKeys(plan));
    var c, d := GroupRoots(plan, GROUPS), KeyRoots(["completion"], ["summary"]);
    assert ["completion"] + ["summary"] == ["completion", "summary"];
    assert d == [["completion", "summary"]];
    assert PlanTextEntries(plan) == FromRoots(plan, a + b + c + d);
    FromRootsAppend(plan, a, b);
    FromRootsAppend(plan, a + b, c);
    FromRootsAppend(plan, a + b + c, d);
  }

  // ---------------------------------------------------------------- validation

  function TextField(v: Value, key: string): string {
    match Child(v, key) case Some(VStr(s)) => s case _ => ""
  }

  function TranslationsFrom(entries: seq<Value>): (trs: seq<Translation>)
    ensures |trs| == |entries|
  {
    seq(|entries|, i requires 0 <= i < |entries| =>
      Translation(TextField(entries[i], "path"), TextField(entries[i], "source"), TextField(entries[i], "text")))
  }

  // `plan.translations?.entries ?? []`
  function TranslationsOf(plan: Value): seq<Translation> {
    match At(plan, ["translations", "entries"]) case Some(VArray(entries)) => TranslationsFrom(entries) case _ => []
  }

  predicate Sourced(entries: seq<Entry>, t: Translation) {
    exists i :: 0 <= i < |entries| && PathOf(entries[i].parts) == t.path && entries[i].source == t.source
  }

  predicate Translates(trs: seq<Translation>, e: Entry) {
    exists j :: 0 <= j < |trs| && trs[j].path == PathOf(e.parts)
  }

  ghost predicate DistinctPaths(trs: seq<Translation>) {
    forall i, j :: 0 <= i < j < |trs| ==> trs[i].path != trs[j].path
  }

  // Every text is translated once, from its current source, and nothing else is.
  ghost predicate Complete(entries: seq<Entry>, trs: seq<Translation>) {
    && DistinctPaths(trs)
    && (forall j :: 0 <= j < |trs| ==> Sourced(entries, trs[j]))
    && forall i :: 0 <= i < |entries| ==> Translates(trs, entries[i])
  }

  // The language a bilingual plan may have, and the overview it needs.
  predicate BilingualPlan(plan: Value) {
    && TextField(plan, "language") in {"", "en"}
    && TextField(plan, "summary") != ""
    && (match Child(plan, "problem") case Some(VObject(_)) => true case _ => false)
  }

  // ---------------------------------------------------------------- translation

  // Write every translation at its path, one after the other.
  function SetAll(v: Value, trs: seq<Translation>): Option<Value>
    decreases |trs|
  {
    if |trs| == 0 then Some(v)
    else
      var w := Set(v, Split(trs[0].path, '.'), trs[0].text);
      if w.None? then None else SetAll(w.value, trs[1..])
  }

  function WithLanguage(v: Value): Value {
    if v.VObject? then VObject(v.fields["language" := VStr("de")]) else v
  }

  // `germanPlan`; None where it would throw
  function TranslatedPlan(plan: Value): Option<Value> {
    var localized := SetAll(plan, TranslationsOf(plan));
    if localized.None? then None else Some(WithLanguage(localized.value))
  }

  method GermanPlan(plan: Value) returns (r: Option<Value>)
    ensures r == TranslatedPlan(plan)
  {
    hide Set, TranslationsOf;
    var trs, localized := TranslationsOf(plan), plan;
    assert trs[0..] == trs;
    for n := 0 to |trs|
      invariant SetAll(plan, trs) == SetAll(localized, trs[n..])
    {
      assert trs[n..][1..] == trs[n + 1..];
      var next := Set(localized, Split(trs[n].path, '.'), trs[n].text);
      if next.None? {
        return None;
      }
      localized := next.value;
    }
    return Some(WithLanguage(localized));
  }

  // ---------------------------------------------------------------- what a write changes

  // What is to be seen at a location: a leaf, or the extent of a container.
  datatype Shape = Leaf(v: Value) | Items(n: nat) | Keys(keys: set<string>)

  function ShapeOf(v: Value): Shape {
    match v
    case VArray(items) => Items(|items|)
    case VObject(fields) => Keys(fields.Keys)
    case _ => Leaf(v)
  }

  function View(v: Value, parts: seq<string>): Option<Shape> {
    match At(v, parts) case Some(w) => Some(ShapeOf(w)) case None => None
  }

  // Some text is stored at the location.
  predicate HoldsText(v: Value, parts: seq<string>) {
    At(v, parts).Some? && At(v, parts).value.VStr?
  }

  lemma WithChildFacts(v: Value, part: string, child: Value, other: string)
    requires Child(v, part).Some?
    ensures var w := WithChild(v, part, child);
            && ShapeOf(w) == ShapeOf(v)
            && Child(w, other) == if other == part then Some(child) else Child(v, other)
  {
    if v.VArray? {
      assert NamesItem(part);
      if NamesItem(other) && NumberOf(other) == NumberOf(part) { assert other == part; }
    } else {
      assert v.fields[part := child].Keys == v.fields.Keys;
    }
  }

  // Writing over a text changes what is seen at that location and nowhere else.
  lemma {:induction false} SetChangesOnlyItsLocation(v: Value, parts: seq<string>, text: string, q: seq<string>)
    requires HoldsText(v, parts)
    ensures Set(v, parts, text).Some?
    ensures View(Set(v, parts, text).value, q) == if q == parts then Some(Leaf(VStr(text))) else View(v, q)
    decreases |parts|
  {
    hide ShapeOf;
    if |parts| == 0 {
      assert |q| > 0 ==> Child(v, q[0]).None? && Child(VStr(text), q[0]).None?;
      assert q == [] ==> View(VStr(text), q) == Some(Leaf(VStr(text))) by { LeafShape(text); }
    } else {
      var c := Child(v, parts[0]).value;
      var inner := if |q| > 0 then q[1..] else [];
      SetChangesOnlyItsLocation(c, parts[1..], text, inner);
      var child := Set(c, parts[1..], text).value;
      if |q| == 0 {
        WithChildFacts(v, parts[0], child, parts[0]);
      } else {
        WithChildFacts(v, parts[0], child, q[0]);
        assert q == [q[0]] + q[1..] && parts == [parts[0]] + parts[1..];
        hide WithChild, Child;
        assert At(WithChild(v, parts[0], child), q) == if q[0] == parts[0] then At(child, q[1..]) else At(v, q);
      }
    }
  }

  lemma LeafShape(text: string)
    ensures ShapeOf(VStr(text)) == Leaf(VStr(text))
  {
  }

  // The text that the last translation of a location gives.
  function Lookup(trs: seq<Translation>, q: seq<string>): Option<string> {
    if |trs| == 0 then None
    else
      var later := Lookup(trs[1..], q);
      if later.Some? then later else if Split(trs[0].path, '.') == q then Some(trs[0].text) else None
  }

  lemma SetKeepsText(v: Value, parts: seq<string>, text: string, q: seq<string>)
    requires HoldsText(v, parts) && HoldsText(v, q)
    ensures Set(v, parts, text).Some? && HoldsText(Set(v, parts, text).value, q)
  {
    SetChangesOnlyItsLocation(v, parts, text, q);
  }

  // Whatever the order of the translations, each location shows its translation, and every
  // other location what it showed before.
  lemma {:induction false} SetAllChangesOnlyTranslated(v: Value, trs: seq<Translation>, q: seq<string>)
    requires forall j :: 0 <= j < |trs| ==> HoldsText(v, Split(trs[j].path, '.'))
    ensures SetAll(v, trs).Some?
    ensures View(SetAll(v, trs).value, q)
            == match Lookup(trs, q) case Some(text) => Some(Leaf(VStr(text))) case None => View(v, q)
    decreases |trs|
  {
    hide Set, View, HoldsText, Split;
    if |trs| > 0 {
      var parts := Split(trs[0].path, '.');
      SetChangesOnlyItsLocation(v, parts, trs[0].text, q);
      var w := Set(v, parts, trs[0].text).value;
      forall j | 0 <= j < |trs| - 1 ensures HoldsText(w, Split(trs[1..][j].path, '.')) {
        SetKeepsText(v, parts, trs[0].text, Split(trs[j + 1].path, '.'));
      }
      SetAllChangesOnlyTranslated(w, trs[1..], q);
    }
  }

  // ---------------------------------------------------------------- entries are locations

  predicate Dotless(parts: seq<string>) {
    |parts| > 0 && forall p :: p in parts ==> '.' !in p
  }

  // The keys of the problem overview are plain names.
  predicate PlainProblem(plan: Value) {
    forall k :: k in ProblemKeys(plan) ==> '.' !in k
  }

  lemma NumeralsAreDotless(i: nat)
    ensures '.' !in Decimal(i)
  {
    assert !IsDigit('.');
  }

  lemma {:induction false} AtAppend(v: Value, parts: seq<string>, part: string)
    requires At(v, parts).Some?
    ensures At(v, parts + [part]) == Child(At(v, parts).value, part)
  {
    if |parts| == 0 {
      assert parts + [part] == [part] && [part][1..] == [];
    } else {
      assert (parts + [part])[1..] == parts[1..] + [part];
      AtAppend(Child(v, parts[0]).value, parts[1..], part);
    }
  }

  ghost predicate GoodEntry(plan: Value, root: seq<string>, e: Entry) {
    root <= e.parts && Dotless(e.parts) && At(plan, e.parts) == Some(VStr(e.source))
  }

  // The entry lies under one of the items from number i on.
  ghost predicate UnderItem(e: Entry, parts: seq<string>, i: nat, n: nat) {
    exists k: nat :: i <= k < n && parts + [Decimal(k)] <= e.parts
  }

  // Every entry under a location is a dot-free location of the plan, holding its source.
  lemma {:induction false} AddFacts(plan: Value, v: Value, parts: seq<string>)
    requires At(plan, parts) == Some(v) && Dotless(parts)
    ensures forall e :: e in Add(v, parts) ==> GoodEntry(plan, parts, e)
    decreases v, 1, 0
  {
    if v.VArray? { AddItemsFacts(plan, v, parts, 0); }
  }

  lemma {:induction false} AddItemsFacts(plan: Value, v: Value, parts: seq<string>, i: nat)
    requires v.VArray? && i <= |v.items| && At(plan, parts) == Some(v) && Dotless(parts)
    ensures forall e :: e in AddItems(v, parts, i) ==> GoodEntry(plan, parts, e)
    ensures forall e :: e in AddItems(v, parts, i) ==> UnderItem(e, parts, i, |v.items|)
    decreases v, 0, |v.items| - i
  {
    if i < |v.items| {
      var inner := parts + [Decimal(i)];
      NumeralsAreDotless(i);
      IndexChild(v.items, i);
      AtAppend(plan, parts, Decimal(i));
      AddFacts(plan, v.items[i], inner);
      AddItemsFacts(plan, v, parts, i + 1);
      forall e | e in AddItems(v, parts, i) ensures GoodEntry(plan, parts, e) && UnderItem(e, parts, i, |v.items|) {
        if e in Add(v.items[i], inner) {
          assert GoodEntry(plan, inner, e) && parts <= inner;
        } else {
          assert e in AddItems(v, parts, i + 1);
          var k: nat :| i + 1 <= k < |v.items| && parts + [Decimal(k)] <= e.parts;
        }
      }
    }
  }

  ghost predicate DistinctEntries(entries: seq<Entry>) {
    forall i, j :: 0 <= i < j < |entries| ==> entries[i].parts != entries[j].parts
  }

  lemma DistinctConcat(a: seq<Entry>, b: seq<Entry>)
    requires DistinctEntries(a) && DistinctEntries(b)
    requires forall x, y :: x in a && y in b ==> x.parts != y.parts
    ensures DistinctEntries(a + b)
  {
    forall i, j | 0 <= i < j < |a + b| ensures (a + b)[i].parts != (a + b)[j].parts {
      if i < |a| <= j { assert (a + b)[i] in a && (a + b)[j] in b; }
    }
  }

  lemma {:induction false} AddIsDistinct(plan: Value, v: Value, parts: seq<string>)
    requires At(plan, parts) == Some(v) && Dotless(parts)
    ensures DistinctEntries(Add(v, parts))
    decreases v, 1, 0
  {
    if v.VArray? { AddItemsDistinct(plan, v, parts, 0); }
  }

  lemma {:induction false} AddItemsDistinct(plan: Value, v: Value, parts: seq<string>, i: nat)
    requires v.VArray? && i <= |v.items| && At(plan, parts) == Some(v) && Dotless(parts)
    ensures DistinctEntries(AddItems(v, parts, i))
    decreases v, 0, |v.items| - i
  {
    if i < |v.items| {
      var inner := parts + [Decimal(i)];
      NumeralsAreDotless(i);
      IndexChild(v.items, i);
      AtAppend(plan, parts, Decimal(i));
      AddIsDistinct(plan, v.items[i], inner);
      AddItemsDistinct(plan, v, parts, i + 1);
      AddFacts(plan, v.items[i], inner);
      AddItemsFacts(plan, v, parts, i + 1);
      hide At, Dotless, GoodEntry, Add, Decimal;
      forall x, y | x in Add(v.items[i], inner) && y in AddItems(v, parts, i + 1) ensures x.parts != y.parts {
        assert GoodEntry(plan, inner, x);
        StartsWith(plan, inner, x);
        var k: nat :| i + 1 <= k < |v.items| && parts + [Decimal(k)] <= y.parts;
        if Decimal(i) == Decimal(k) { DecimalIsInjective(i, k); }
        assert inner[|parts|] != (parts + [Decimal(k)])[|parts|];
      }
      DistinctConcat(Add(v.items[i], inner), AddItems(v, parts, i + 1));
    }
  }

  lemma StartsWith(plan: Value, root: seq<string>, e: Entry)
    requires GoodEntry(plan, root, e)
    ensures root <= e.parts
  {
  }

  // The first part of a root says how long the root is, so no root starts another.
  function RootLength(first: string): nat {
    if first in TOP_KEYS then 1 else if first == "problem" || first == "completion" then 2 else 3
  }

  ghost predicate GoodRoots(roots: seq<seq<string>>) {
    && (forall i :: 0 <= i < |roots| ==> Dotless(roots[i]) && |roots[i]| == RootLength(roots[i][0]))
    && forall i, j :: 0 <= i < j < |roots| ==> roots[i] != roots[j]
  }

  lemma GoodRootsConcat(a: seq<seq<string>>, b: seq<seq<string>>)
    requires GoodRoots(a) && GoodRoots(b)
    requires forall x, y :: x in a && y in b ==> x != y
    ensures GoodRoots(a + b)
  {
    hide Dotless, RootLength;
    forall i, j | 0 <= i < j < |a + b| ensures (a + b)[i] != (a + b)[j] {
      if i < |a| <= j { assert (a + b)[i] in a && (a + b)[j] in b; }
    }
  }

  lemma RootsDoNotExtend(x: seq<string>, y: seq<string>, e: Entry, f: Entry)
    requires |x| > 0 && |y| > 0 && |x| == RootLength(x[0]) && |y| == RootLength(y[0]) && x != y
    requires x <= e.parts && y <= f.parts
    ensures e.parts != f.parts
  {
  }

  // Entries from good roots are locations holding their source, and distinct.
  lemma {:induction false} FromRootsFacts(plan: Value, roots: seq<seq<string>>)
    requires GoodRoots(roots)
    ensures DistinctEntries(FromRoots(plan, roots))
    ensures forall e :: e in FromRoots(plan, roots) ==> exists r :: r in roots && GoodEntry(plan, r, e)
    decreases |roots|
  {
    if |roots| > 0 {
      var root, rest := roots[0], roots[1..];
      assert forall i :: 0 <= i < |rest| ==> rest[i] == roots[i + 1];
      FromRootsFacts(plan, rest);
      var later := FromRoots(plan, rest);
      if At(plan, root).Some? {
        var first := Add(At(plan, root).value, root);
        AddFacts(plan, At(plan, root).value, root);
        AddIsDistinct(plan, At(plan, root).value, root);
        hide At, Add, GoodEntry, Dotless, RootLength;
        forall x, y | x in first && y in later ensures x.parts != y.parts {
          var r :| r in rest && GoodEntry(plan, r, y);
          var i :| 0 <= i < |rest| && rest[i] == r;
          assert roots[i + 1] == r;
          StartsWith(plan, root, x);
          StartsWith(plan, r, y);
          DotlessIsNonEmpty(root);
          DotlessIsNonEmpty(r);
          RootsDoNotExtend(root, r, x, y);
        }
        DistinctConcat(first, later);
        assert root in roots;
        assert FromRoots(plan, roots) == first + later;
      } else {
        assert FromRoots(plan, roots) == [] + later;
      }
    }
  }

  lemma DotlessIsNonEmpty(parts: seq<string>)
    requires Dotless(parts)
    ensures |parts| > 0
  {
  }

  lemma KeyRootsAreGood(prefix: seq<string>, keys: seq<string>)
    requires forall i, j :: 0 <= i < j < |keys| ==> keys[i] != keys[j]
    requires forall p :: p in prefix || p in keys ==> '.' !in p
    requires forall k :: k in keys ==> |prefix| + 1 == RootLength((prefix + [k])[0])
    ensures GoodRoots(KeyRoots(prefix, keys))
  {
    hide RootLength;
    var roots := KeyRoots(prefix, keys);
    forall i | 0 <= i < |roots|
      ensures Dotless(roots[i]) && |roots[i]| == RootLength(roots[i][0])
    {
      assert keys[i] in keys;
    }
    forall i, j | 0 <= i < j < |roots| ensures roots[i] != roots[j] {
      assert roots[i][|prefix|] == keys[i] && roots[j][|prefix|] == keys[j];
    }
  }

  lemma GroupKeysFacts(group: string)
    requires group in GROUPS
    ensures '.' !in group && RootLength(group) == 3
    ensures forall k :: k in GroupKeys(group) ==> '.' !in k
    ensures forall i, j :: 0 <= i < j < |GroupKeys(group)| ==> GroupKeys(group)[i] != GroupKeys(group)[j]
  {
  }

  // Roots of records of one group, from number i on.
  ghost predicate FromRecords(roots: seq<seq<string>>, group: string, i: nat, n: nat) {
    forall r :: r in roots ==> |r| == 3 && r[0] == group && exists k: nat :: i <= k < n && r[1] == Decimal(k)
  }

  lemma OneRecord(group: string, i: nat, n: nat)
    requires group in GROUPS && i < n
    ensures var roots := KeyRoots([group, Decimal(i)], GroupKeys(group));
            GoodRoots(roots) && FromRecords(roots, group, i, n) && forall r :: r in roots ==> r[1] == Decimal(i)
  {
    GroupKeysFacts(group);
    NumeralsAreDotless(i);
    var prefix, keys := [group, Decimal(i)], GroupKeys(group);
    hide GroupKeys, RootLength, Decimal, GoodRoots;
    assert forall k: string :: (prefix + [k])[0] == group && (prefix + [k])[1] == Decimal(i);
    KeyRootsAreGood(prefix, keys);
    forall r | r in KeyRoots(prefix, keys) ensures |r| == 3 && r[0] == group && r[1] == Decimal(i) {
      var n :| 0 <= n < |keys| && r == prefix + [keys[n]];
    }
  }

  lemma {:induction false} RecordRootsAreGood(group: string, i: nat, n: nat)
    requires group in GROUPS
    ensures GoodRoots(RecordRoots(group, i, n)) && FromRecords(RecordRoots(group, i, n), group, i, n)
    decreases n - i
  {
    hide GroupKeys, RootLength, Decimal, GoodRoots;
    if i < n {
      OneRecord(group, i, n);
      RecordRootsAreGood(group, i + 1, n);
      var a, b := KeyRoots([group, Decimal(i)], GroupKeys(group)), RecordRoots(group, i + 1, n);
      assert RecordRoots(group, i, n) == a + b;
      hide RecordRoots;
      forall x, y | x in a && y in b ensures x != y {
        var k: nat :| i + 1 <= k < n && y[1] == Decimal(k);
        if Decimal(k) == Decimal(i) { DecimalIsInjective(k, i); }
      }
      GoodRootsConcat(a, b);
    } else {
      NoRoots();
    }
  }

  lemma NoRoots()
    ensures GoodRoots([])
  {
  }

  lemma {:induction false} GroupRootsAreGood(plan: Value, groups: seq<string>)
    requires forall g :: g in groups ==> g in GROUPS
    requires forall i, j :: 0 <= i < j < |groups| ==> groups[i] != groups[j]
    ensures GoodRoots(GroupRoots(plan, groups))
    ensures forall r :: r in GroupRoots(plan, groups) ==> |r| == 3 && r[0] in groups
  {
    hide RootLength, RecordCount, RecordRoots, GoodRoots, Decimal;
    if |groups| > 0 {
      var n := RecordCount(plan, groups[0]);
      RecordRootsAreGood(groups[0], 0, n);
      assert forall i :: 0 <= i < |groups| - 1 ==> groups[1..][i] == groups[i + 1];
      GroupRootsAreGood(plan, groups[1..]);
      var a, b := RecordRoots(groups[0], 0, n), GroupRoots(plan, groups[1..]);
      assert GroupRoots(plan, groups) == a + b;
      hide GroupRoots;
      assert groups[0] !in groups[1..];
      GoodRootsConcat(a, b);
    } else {
      NoRoots();
    }
  }

  lemma ProblemKeysAreDistinct(plan: Value)
    ensures forall i, j :: 0 <= i < j < |ProblemKeys(plan)| ==> ProblemKeys(plan)[i] != ProblemKeys(plan)[j]
  {
    var keys := ProblemKeys(plan);
    if |keys| > 0 { SortedKeysFacts(Child(plan, "problem").value.fields.Keys); }
    forall i, j | 0 <= i < j < |keys| ensures keys[i] != keys[j] { LessIsStrict(keys[i], keys[j]); }
  }

  // Roots with a given number of parts, none of them at the language.
  ghost predicate PartRoots(roots: seq<seq<string>>, n: nat) {
    forall r :: r in roots ==> |r| == n > 0 && r[0] != "language"
  }

  lemma TopRootsAreGood()
    ensures GoodRoots(KeyRoots([], TOP_KEYS)) && PartRoots(KeyRoots([], TOP_KEYS), 1)
  {
    KeyRootsAreGood([], TOP_KEYS);
    hide GoodRoots;
    assert "language" !in TOP_KEYS;
  }

  lemma ProblemRootsAreGood(plan: Value)
    requires PlainProblem(plan)
    ensures var roots := KeyRoots(["problem"], ProblemKeys(plan));
            GoodRoots(roots) && PartRoots(roots, 2) && ["completion", "summary"] !in roots
  {
    ProblemKeysAreDistinct(plan);
    hide ProblemKeys, GoodRoots;
    KeyRootsAreGood(["problem"], ProblemKeys(plan));
    assert forall r :: r in KeyRoots(["problem"], ProblemKeys(plan)) ==> r[0] == "problem";
    assert ["completion", "summary"][0] == "completion";
  }

  lemma CompletionRootIsGood()
    ensures GoodRoots([["completion", "summary"]]) && PartRoots([["completion", "summary"]], 2)
  {
  }

  lemma GroupRootsHaveThreeParts(plan: Value)
    ensures GoodRoots(GroupRoots(plan, GROUPS)) && PartRoots(GroupRoots(plan, GROUPS), 3)
  {
    GroupRootsAreGood(plan, GROUPS);
    LanguageIsNoGroup();
    hide *;
    RootsOfGroups(GroupRoots(plan, GROUPS), GROUPS);
  }

  lemma LanguageIsNoGroup()
    ensures "language" !in GROUPS
  {
  }

  lemma RootsOfGroups(roots: seq<seq<string>>, groups: seq<string>)
    requires "language" !in groups && forall r :: r in roots ==> |r| == 3 && r[0] in groups
    ensures PartRoots(roots, 3)
  {
  }

  lemma RootsAreGood(plan: Value)
    requires PlainProblem(plan)
    ensures GoodRoots(Roots(plan))
    ensures forall r :: r in Roots(plan) ==> |r| > 0 && r[0] != "language"
  {
    var a, b := KeyRoots([], TOP_KEYS), KeyRoots(["problem"], ProblemKeys(plan));
    var c, d := GroupRoots(plan, GROUPS), [["completion", "summary"]];
    TopRootsAreGood();
    ProblemRootsAreGood(plan);
    GroupRootsHaveThreeParts(plan);
    CompletionRootIsGood();
    assert Roots(plan) == a + b + c + d;
    hide *;
    RootsOfFourKinds(a, b, c, d);
  }

  lemma RootsOfFourKinds(a: seq<seq<string>>, b: seq<seq<string>>, c: seq<seq<string>>, d: seq<seq<string>>)
    requires GoodRoots(a) && GoodRoots(b) && GoodRoots(c) && GoodRoots(d)
    requires PartRoots(a, 1) && PartRoots(b, 2) && PartRoots(c, 3) && PartRoots(d, 2) && forall r :: r in d ==> r !in b
    ensures GoodRoots(a + b + c + d)
    ensures forall r :: r in a + b + c + d ==> |r| > 0 && r[0] != "language"
  {
    hide GoodRoots;
    GoodRootsConcat(a, b);
    GoodRootsConcat(a + b, c);
    GoodRootsConcat(a + b + c, d);
  }

  // The paths of a plan are distinct and none starts another; each reads back to its parts
  // and leads to the text it lists.
  lemma PathsArePrefixFree(plan: Value)
    requires PlainProblem(plan)
    ensures var es := PlanTextEntries(plan);
            && DistinctEntries(es)
            && (forall i :: 0 <= i < |es| ==>
                  At(plan, es[i].parts) == Some(VStr(es[i].source)) && Split(PathOf(es[i].parts), '.') == es[i].parts)
            && (forall i, j :: 0 <= i < |es| && 0 <= j < |es| && i != j ==>
                  PathOf(es[i].parts) != PathOf(es[j].parts) && !(es[i].parts <= es[j].parts))
  {
    RootsAreGood(plan);
    FromRootsFacts(plan, Roots(plan));
    var es := PlanTextEntries(plan);
    hide PlanTextEntries, Roots, FromRoots, GoodRoots;
    forall i | 0 <= i < |es|
      ensures At(plan, es[i].parts) == Some(VStr(es[i].source)) && Split(PathOf(es[i].parts), '.') == es[i].parts
    {
      assert es[i] in es;
      var r :| r in Roots(plan) && GoodEntry(plan, r, es[i]);
      SplitOfJoin(es[i].parts, '.');
    }
    NoPathStartsAnother(plan, es);
  }

  lemma NoPathStartsAnother(plan: Value, es: seq<Entry>)
    requires DistinctEntries(es)
    requires forall i :: 0 <= i < |es| ==>
               At(plan, es[i].parts) == Some(VStr(es[i].source)) && Split(PathOf(es[i].parts), '.') == es[i].parts
    ensures forall i, j :: 0 <= i < |es| && 0 <= j < |es| && i != j ==>
              PathOf(es[i].parts) != PathOf(es[j].parts) && !(es[i].parts <= es[j].parts)
  {
    hide PathOf, At, Split;
    forall i, j | 0 <= i < |es| && 0 <= j < |es| && i != j
      ensures PathOf(es[i].parts) != PathOf(es[j].parts) && !(es[i].parts <= es[j].parts)
    {
      assert es[i].parts != es[j].parts;
      if es[i].parts <= es[j].parts { NothingBelowText(plan, es[i].parts, es[j].parts); }
    }
  }

  // Nothing is stored below a text.
  lemma {:induction false} NothingBelowText(v: Value, p: seq<string>, q: seq<string>)
    requires HoldsText(v, p) && p <= q && p != q
    ensures At(v, q).None?
  {
    if |p| > 0 {
      assert p[0] == q[0] && p[1..] <= q[1..];
      assert p == [p[0]] + p[1..] && q == [q[0]] + q[1..];
      NothingBelowText(Child(v, p[0]).value, p[1..], q[1..]);
    }
  }

  // ---------------------------------------------------------------- no text is missed

  lemma {:induction false} AddItemsHas(v: Value, parts: seq<string>, j: nat, i: nat, e: Entry)
    requires v.VArray? && j <= i < |v.items| && e in Add(v.items[i], parts + [Decimal(i)])
    ensures e in AddItems(v, parts, j)
    decreases i - j
  {
    hide Add, Decimal;
    if j < i { AddItemsHas(v, parts, j + 1, i, e); }
  }

  // The way from a location to a text leads only through lists.
  ghost predicate ThroughLists(plan: Value, parts: seq<string>, q: seq<string>) {
    && parts <= q && HoldsText(plan, q)
    && forall k :: |parts| <= k < |q| ==> At(plan, q[..k]).Some? && At(plan, q[..k]).value.VArray?
  }

  lemma {:induction false} AddIsComplete(plan: Value, v: Value, parts: seq<string>, q: seq<string>)
    requires At(plan, parts) == Some(v) && ThroughLists(plan, parts, q)
    ensures Entry(q, At(plan, q).value.s) in Add(v, parts)
    decreases |q| - |parts|
  {
    if |q| == |parts| {
      assert q == parts;
    } else {
      assert q[..|parts|] == parts && v.VArray?;
      var part := q[|parts|];
      assert q[..|parts| + 1] == parts + [part];
      PrefixExists(plan, q, |parts| + 1);
      AtAppend(plan, parts, part);
      var i := NumberOf(part);
      assert Decimal(i) == part;
      AddIsComplete(plan, v.items[i], parts + [part], q);
      AddItemsHas(v, parts, 0, i, Entry(q, At(plan, q).value.s));
    }
  }

  lemma {:induction false} PrefixExists(v: Value, q: seq<string>, k: nat)
    requires At(v, q).Some? && k <= |q|
    ensures At(v, q[..k]).Some?
  {
    if k > 0 {
      assert q[..k][1..] == q[1..][..k - 1] && q[..k][0] == q[0];
      PrefixExists(Child(v, q[0]).value, q[1..], k - 1);
    }
  }

  lemma {:induction false} FromRootsHas(plan: Value, roots: seq<seq<string>>, root: seq<string>, e: Entry)
    requires root in roots && At(plan, root).Some? && e in Add(At(plan, root).value, root)
    ensures e in FromRoots(plan, roots)
  {
    hide At, Add;
    if root != roots[0] {
      assert roots == [roots[0]] + roots[1..];
      FromRootsHas(plan, roots[1..], root, e);
    }
  }

  // Every text below a listed location, however deep in lists, is an entry.
  lemma EveryTextIsListed(plan: Value, root: seq<string>, q: seq<string>)
    requires root in Roots(plan) && ThroughLists(plan, root, q)
    ensures Entry(q, At(plan, q).value.s) in PlanTextEntries(plan)
  {
    hide Roots, Add;
    PrefixExists(plan, q, |root|);
    assert q[..|root|] == root;
    AddIsComplete(plan, At(plan, root).value, root, q);
    FromRootsHas(plan, Roots(plan), root, Entry(q, At(plan, q).value.s));
  }

  // ---------------------------------------------------------------- validation in steps

  predicate ListedAs(entries: seq<Entry>, path: string, source: string) {
    exists i :: 0 <= i < |entries| && PathOf(entries[i].parts) == path && entries[i].source == source
  }

  // The map from paths to sources.
  method SourcesOf(plan: Value) returns (sources: map<string, string>)
    requires PlainProblem(plan)
    ensures forall p :: p in sources ==> ListedAs(PlanTextEntries(plan), p, sources[p])
    ensures forall e :: e in PlanTextEntries(plan) ==>
             PathOf(e.parts) in sources && sources[PathOf(e.parts)] == e.source
  {
    PathsArePrefixFree(plan);
    hide PlanTextEntries, PathOf, At, PlainProblem;
    var entries := ListPlanTexts(plan);
    sources := map[];
    for n := 0 to |entries|
      invariant forall p :: p in sources ==> ListedAs(entries, p, sources[p])
      invariant forall i :: 0 <= i < n ==>
                 PathOf(entries[i].parts) in sources && sources[PathOf(entries[i].parts)] == entries[i].source
    {
      assert ListedAs(entries, PathOf(entries[n].parts), entries[n].source);
      sources := sources[PathOf(entries[n].parts) := entries[n].source];
    }
  }

  // `validatePlanTranslations`
  method ValidatePlanTranslations(plan: Value) returns (valid: bool)
    requires PlainProblem(plan)
    ensures valid <==> (Child(plan, "translations").Some?
                        ==> BilingualPlan(plan) && Complete(PlanTextEntries(plan), TranslationsOf(plan)))
  {
    hide PlanTextEntries, TranslationsOf, BilingualPlan, PlainProblem, PathOf, Child;
    if Child(plan, "translations").None? {
      return true;
    }
    if !BilingualPlan(plan) {
      return false;
    }
    ghost var entries := PlanTextEntries(plan);
    var trs := TranslationsOf(plan);
    var sources := SourcesOf(plan);
    var translated: set<string> := {};
    for n := 0 to |trs|
      invariant forall p :: p in translated <==> exists j :: 0 <= j < n && trs[j].path == p
      invariant DistinctPaths(trs[..n]) && forall j :: 0 <= j < n ==> Sourced(entries, trs[j])
    {
      var t := trs[n];
      if t.path in translated {
        ghost var j :| 0 <= j < n && trs[j].path == t.path;
        return false;
      }
      assert Sourced(entries, t) <==> ListedAs(entries, t.path, t.source);
      assert ListedAs(entries, t.path, t.source) <==> t.path in sources && sources[t.path] == t.source;
      if t.path !in sources || sources[t.path] != t.source {
        return false;
      }
      translated := translated + {t.path};
    }
    assert trs[..|trs|] == trs;
    valid := sources.Keys <= translated;
    AllSourcesTranslated(entries, trs, sources, translated);
  }

  // Every source path is translated exactly when every entry is.
  lemma AllSourcesTranslated(entries: seq<Entry>, trs: seq<Translation>, sources: map<string, string>,
                             translated: set<string>)
    requires forall p :: p in sources ==> ListedAs(entries, p, sources[p])
    requires forall e :: e in entries ==> PathOf(e.parts) in sources
    requires forall p :: p in translated <==> exists j :: 0 <= j < |trs| && trs[j].path == p
    ensures sources.Keys <= translated <==> forall i :: 0 <= i < |entries| ==> Translates(trs, entries[i])
  {
    hide PathOf;
    if sources.Keys <= translated {
      forall i | 0 <= i < |entries| ensures Translates(trs, entries[i]) { assert entries[i] in entries; }
    }
    if forall i :: 0 <= i < |entries| ==> Translates(trs, entries[i]) {
      forall p | p in sources ensures p in translated {
        var i :| 0 <= i < |entries| && PathOf(entries[i].parts) == p && entries[i].source == sources[p];
        assert Translates(trs, entries[i]);
      }
    }
  }

  // ---------------------------------------------------------------- entries after a translation

  // The same tree up to the texts in it.
  ghost predicate Alike(v: Value, w: Value) {
    match v
    case VStr(_) => w.VStr?
    case VArray(items) =>
      w.VArray? && |w.items| == |items| && forall i :: 0 <= i < |items| ==> Alike(items[i], w.items[i])
    case VObject(fields) =>
      w.VObject? && w.fields.Keys == fields.Keys && forall k :: k in fields ==> Alike(fields[k], w.fields[k])
    case _ => w == v
  }

  lemma {:induction false} AlikeReflexive(v: Value)
    ensures Alike(v, v)
  {
    match v
    case VArray(items) => forall i | 0 <= i < |items| ensures Alike(items[i], items[i]) { AlikeReflexive(items[i]); }
    case VObject(fields) => forall k | k in fields ensures Alike(fields[k], fields[k]) { AlikeReflexive(fields[k]); }
    case _ =>
  }

  lemma {:induction false} AlikeTransitive(u: Value, v: Value, w: Value)
    requires Alike(u, v) && Alike(v, w)
    ensures Alike(u, w)
  {
    match u
    case VArray(items) =>
      forall i | 0 <= i < |items|
        ensures Alike(items[i], w.items[i])
      {
        AlikeTransitive(items[i], v.items[i], w.items[i]);
      }
    case VObject(fields) =>
      forall k | k in fields
        ensures Alike(fields[k], w.fields[k])
      {
        AlikeTransitive(fields[k], v.fields[k], w.fields[k]);
      }
    case _ =>
  }

  lemma {:induction false} SetIsAlike(v: Value, parts: seq<string>, text: string)
    requires HoldsText(v, parts)
    ensures Set(v, parts, text).Some? && Alike(v, Set(v, parts, text).value)
    decreases |parts|
  {
    if |parts| > 0 {
      SetIsAlike(Child(v, parts[0]).value, parts[1..], text);
      match v
      case VArray(items) => forall i | 0 <= i < |items| ensures Alike(items[i], items[i]) { AlikeReflexive(items[i]); }
      case VObject(fields) => forall k | k in fields ensures Alike(fields[k], fields[k]) { AlikeReflexive(fields[k]); }
    }
  }

  lemma {:induction false} SetAllIsAlike(v: Value, trs: seq<Translation>)
    requires forall j :: 0 <= j < |trs| ==> HoldsText(v, Split(trs[j].path, '.'))
    ensures SetAll(v, trs).Some? && Alike(v, SetAll(v, trs).value)
    decreases |trs|
  {
    hide Set, HoldsText, Split, Alike;
    if |trs| == 0 {
      AlikeReflexive(v);
    } else {
      var parts := Split(trs[0].path, '.');
      SetIsAlike(v, parts, trs[0].text);
      var w := Set(v, parts, trs[0].text).value;
      forall j | 0 <= j < |trs| - 1 ensures HoldsText(w, Split(trs[1..][j].path, '.')) {
        SetKeepsText(v, parts, trs[0].text, Split(trs[j + 1].path, '.'));
      }
      SetAllIsAlike(w, trs[1..]);
      AlikeTransitive(v, w, SetAll(v, trs).value);
    }
  }

  ghost predicate SamePaths(a: seq<Entry>, b: seq<Entry>) {
    |a| == |b| && forall i :: 0 <= i < |a| ==> a[i].parts == b[i].parts
  }

  lemma {:induction false} AddAlike(v: Value, w: Value, parts: seq<string>)
    requires Alike(v, w)
    ensures SamePaths(Add(v, parts), Add(w, parts))
    decreases v, 1, 0
  {
    if v.VArray? { AddItemsAlike(v, w, parts, 0); }
  }

  lemma {:induction false} AddItemsAlike(v: Value, w: Value, parts: seq<string>, i: nat)
    requires Alike(v, w) && v.VArray? && w.VArray? && i <= |v.items|
    ensures |w.items| == |v.items| && SamePaths(AddItems(v, parts, i), AddItems(w, parts, i))
    decreases v, 0, |v.items| - i
  {
    if i < |v.items| {
      AddAlike(v.items[i], w.items[i], parts + [Decimal(i)]);
      AddItemsAlike(v, w, parts, i + 1);
    }
  }

  lemma {:induction false} AtAlike(v: Value, w: Value, parts: seq<string>)
    requires Alike(v, w)
    ensures At(v, parts).Some? <==> At(w, parts).Some?
    ensures At(v, parts).Some? ==> Alike(At(v, parts).value, At(w, parts).value)
    decreases |parts|
  {
    if |parts| > 0 && Child(v, parts[0]).Some? {
      AtAlike(Child(v, parts[0]).value, Child(w, parts[0]).value, parts[1..]);
    }
  }

  lemma {:induction false} FromRootsAlike(v: Value, w: Value, roots: seq<seq<string>>)
    requires Alike(v, w)
    ensures SamePaths(FromRoots(v, roots), FromRoots(w, roots))
  {
    hide Alike, At, Add;
    if |roots| > 0 {
      AtAlike(v, w, roots[0]);
      if At(v, roots[0]).Some? { AddAlike(At(v, roots[0]).value, At(w, roots[0]).value, roots[0]); }
      FromRootsAlike(v, w, roots[1..]);
    }
  }

  lemma ChildAlike(v: Value, w: Value, part: string)
    requires Alike(v, w)
    ensures Child(v, part).Some? <==> Child(w, part).Some?
    ensures Child(v, part).Some? ==> Alike(Child(v, part).value, Child(w, part).value)
  {
    hide NamesItem;
  }

  lemma SameCountAndKeys(v: Value, w: Value, group: string)
    requires Alike(v, w)
    ensures RecordCount(v, group) == RecordCount(w, group) && ProblemKeys(v) == ProblemKeys(w)
  {
    ChildAlike(v, w, group);
    ChildAlike(v, w, "problem");
    hide Child, SortedKeys;
  }

  lemma {:induction false} GroupRootsAlike(v: Value, w: Value, groups: seq<string>)
    requires Alike(v, w)
    ensures GroupRoots(v, groups) == GroupRoots(w, groups)
  {
    if |groups| > 0 {
      SameCountAndKeys(v, w, groups[0]);
      hide Alike, RecordCount, RecordRoots;
      GroupRootsAlike(v, w, groups[1..]);
    }
  }

  lemma RootsAlike(v: Value, w: Value)
    requires Alike(v, w)
    ensures Roots(v) == Roots(w) && (PlainProblem(v) <==> PlainProblem(w))
  {
    GroupRootsAlike(v, w, GROUPS);
    SameCountAndKeys(v, w, "");
    hide Alike, GroupRoots, ProblemKeys, KeyRoots;
  }

  // The texts of a plan do not depend on its language.
  lemma {:induction false} FromRootsIgnoreLanguage(v: Value, roots: seq<seq<string>>)
    requires forall i :: 0 <= i < |roots| ==> |roots[i]| > 0 && roots[i][0] != "language"
    ensures FromRoots(WithLanguage(v), roots) == FromRoots(v, roots)
  {
    hide Add;
    if |roots| > 0 {
      assert Child(WithLanguage(v), roots[0][0]) == Child(v, roots[0][0]);
      FromRootsIgnoreLanguage(v, roots[1..]);
    }
  }

  lemma {:induction false} GroupRootsIgnoreLanguage(v: Value, groups: seq<string>)
    requires forall g :: g in groups ==> g != "language"
    ensures GroupRoots(WithLanguage(v), groups) == GroupRoots(v, groups)
  {
    hide RecordRoots;
    if |groups| > 0 {
      assert groups[0] in groups && forall g :: g in groups[1..] ==> g in groups;
      assert Child(WithLanguage(v), groups[0]) == Child(v, groups[0]);
      GroupRootsIgnoreLanguage(v, groups[1..]);
    }
  }

  lemma RootsIgnoreLanguage(v: Value)
    ensures Roots(WithLanguage(v)) == Roots(v)
  {
    assert "language" !in GROUPS && "problem" != "language";
    GroupRootsIgnoreLanguage(v, GROUPS);
    assert Child(WithLanguage(v), "problem") == Child(v, "problem");
    hide GroupRoots, SortedKeys, KeyRoots;
  }

  lemma EntriesIgnoreLanguage(v: Value)
    requires PlainProblem(v)
    ensures PlanTextEntries(WithLanguage(v)) == PlanTextEntries(v)
  {
    hide Roots, FromRoots, GoodRoots, PlainProblem, WithLanguage;
    RootsIgnoreLanguage(v);
    RootsAreGood(v);
    var roots := Roots(v);
    assert PlanTextEntries(WithLanguage(v)) == FromRoots(WithLanguage(v), roots)
           && PlanTextEntries(v) == FromRoots(v, roots);
    hide *;
    assert forall i :: 0 <= i < |roots| ==> roots[i] in roots;
    FromRootsIgnoreLanguage(v, roots);
  }

  // ---------------------------------------------------------------- the lens laws

  lemma {:induction false} LookupMisses(trs: seq<Translation>, parts: seq<string>)
    requires forall n :: 0 <= n < |trs| ==>
              trs[n].path != PathOf(parts) && PathOf(Split(trs[n].path, '.')) == trs[n].path
    ensures Lookup(trs, parts).None?
  {
    if |trs| > 0 { LookupMisses(trs[1..], parts); }
  }

  // The locations that validated translations name.
  lemma TranslationsAreLocated(plan: Value)
    requires PlainProblem(plan) && Complete(PlanTextEntries(plan), TranslationsOf(plan))
    ensures forall j :: 0 <= j < |TranslationsOf(plan)| ==>
              var path := TranslationsOf(plan)[j].path;
              HoldsText(plan, Split(path, '.')) && PathOf(Split(path, '.')) == path
  {
    PathsArePrefixFree(plan);
    hide PlanTextEntries, TranslationsOf, At, Split, PathOf, PlainProblem;
    var trs, es := TranslationsOf(plan), PlanTextEntries(plan);
    forall j | 0 <= j < |trs|
      ensures HoldsText(plan, Split(trs[j].path, '.')) && PathOf(Split(trs[j].path, '.')) == trs[j].path
    {
      assert Sourced(es, trs[j]);
      var i :| 0 <= i < |es| && PathOf(es[i].parts) == trs[j].path && es[i].source == trs[j].source;
    }
  }

  // The paths of a plan after writing its translations.
  lemma TranslatedPaths(plan: Value)
    requires PlainProblem(plan) && Complete(PlanTextEntries(plan), TranslationsOf(plan))
    ensures SetAll(plan, TranslationsOf(plan)).Some?
    ensures var w := SetAll(plan, TranslationsOf(plan)).value;
            && PlainProblem(w) && SamePaths(PlanTextEntries(plan), PlanTextEntries(w))
            && TranslatedPlan(plan) == Some(WithLanguage(w)) && PlanTextEntries(WithLanguage(w)) == PlanTextEntries(w)
  {
    TranslationsAreLocated(plan);
    var trs := TranslationsOf(plan);
    hide PlainProblem, TranslationsOf, HoldsText, Split, Complete, SetAll, Alike, FromRoots, Roots, WithLanguage;
    SetAllIsAlike(plan, trs);
    var w := SetAll(plan, trs).value;
    RootsAlike(plan, w);
    FromRootsAlike(plan, w, Roots(plan));
    EntriesIgnoreLanguage(w);
  }

  // Putting the translations of a valid plan: the result lists the same paths in the same
  // order with exactly the translated texts.
  lemma TranslatedTexts(plan: Value)
    requires PlainProblem(plan) && Complete(PlanTextEntries(plan), TranslationsOf(plan))
    ensures TranslatedPlan(plan).Some?
    ensures var before, after := PlanTextEntries(plan), PlanTextEntries(TranslatedPlan(plan).value);
            && SamePaths(before, after)
            && forall i :: 0 <= i < |before| ==>
                TranslatedAs(TranslationsOf(plan), PathOf(before[i].parts), after[i].source)
  {
    TranslatedPaths(plan);
    TranslationsAreLocated(plan);
    PathsArePrefixFree(plan);
    var trs, es := TranslationsOf(plan), PlanTextEntries(plan);
    var w := SetAll(plan, trs).value;
    PathsArePrefixFree(w);
    var after := PlanTextEntries(w);
    hide PlanTextEntries, TranslationsOf, TranslatedPlan, WithLanguage, SetAll, PlainProblem, Sourced, Split, PathOf,
         HoldsText, At;
    forall i | 0 <= i < |es| ensures TranslatedAs(trs, PathOf(es[i].parts), after[i].source) {
      assert Translates(trs, es[i]);
      var j :| 0 <= j < |trs| && trs[j].path == PathOf(es[i].parts);
      TextAfter(plan, trs, w, es[i].parts, j);
      assert trs[j] in trs && es[i].parts == after[i].parts;
    }
  }

  ghost predicate TranslatedAs(trs: seq<Translation>, path: string, text: string) {
    exists t :: t in trs && t.path == path && t.text == text
  }

  lemma TextAfter(plan: Value, trs: seq<Translation>, w: Value, parts: seq<string>, j: nat)
    requires DistinctPaths(trs) && j < |trs| && trs[j].path == PathOf(parts)
    requires forall n :: 0 <= n < |trs| ==>
              HoldsText(plan, Split(trs[n].path, '.')) && PathOf(Split(trs[n].path, '.')) == trs[n].path
    requires SetAll(plan, trs) == Some(w) && Split(PathOf(parts), '.') == parts
    ensures At(w, parts) == Some(VStr(trs[j].text))
  {
    hide SetAll, HoldsText, Split, PathOf, Lookup, At;
    SetAllChangesOnlyTranslated(plan, trs, parts);
    LookupIs(trs, j, parts);
    assert View(w, parts) == Some(Leaf(VStr(trs[j].text)));
  }

  // The translation of a path is the one that is looked up at its location.
  lemma {:induction false} LookupIs(trs: seq<Translation>, j: nat, parts: seq<string>)
    requires DistinctPaths(trs) && j < |trs| && trs[j].path == PathOf(parts) && Split(PathOf(parts), '.') == parts
    requires forall n :: 0 <= n < |trs| ==> PathOf(Split(trs[n].path, '.')) == trs[n].path
    ensures Lookup(trs, parts) == Some(trs[j].text)
  {
    hide Split, PathOf;
    assert forall n :: 0 <= n < |trs| - 1 ==> trs[1..][n] == trs[n + 1];
    if j > 0 {
      LookupIs(trs[1..], j - 1, parts);
    } else {
      LookupMisses(trs[1..], parts);
    }
  }

  // Everything else stays: a location that no translation names shows what it showed
  // before, except for the language at the root.
  lemma OtherFieldsUnchanged(plan: Value, q: seq<string>)
    requires PlainProblem(plan) && Complete(PlanTextEntries(plan), TranslationsOf(plan))
    requires |q| > 0 && q[0] != "language" && forall t :: t in TranslationsOf(plan) ==> Split(t.path, '.') != q
    ensures TranslatedPlan(plan).Some? && View(TranslatedPlan(plan).value, q) == View(plan, q)
  {
    TranslationsAreLocated(plan);
    TranslatedPaths(plan);
    hide *;
    SetAllChangesOnlyTranslated(plan, TranslationsOf(plan), q);
    NotTranslated(TranslationsOf(plan), q);
    LanguageIsElsewhere(SetAll(plan, TranslationsOf(plan)).value, q);
  }

  lemma LanguageIsElsewhere(v: Value, q: seq<string>)
    requires |q| > 0 && q[0] != "language"
    ensures View(WithLanguage(v), q) == View(v, q)
  {
    assert Child(WithLanguage(v), q[0]) == Child(v, q[0]);
  }

  lemma {:induction false} NotTranslated(trs: seq<Translation>, q: seq<string>)
    requires forall t :: t in trs ==> Split(t.path, '.') != q
    ensures Lookup(trs, q).None?
  {
    if |trs| > 0 {
      assert trs == [trs[0]] + trs[1..];
      NotTranslated(trs[1..], q);
    }
  }

  // At the root only the language is new, and it is German.
  lemma LanguageIsGerman(plan: Value)
    requires plan.VObject? && PlainProblem(plan) && Complete(PlanTextEntries(plan), TranslationsOf(plan))
    ensures TranslatedPlan(plan).Some? && TranslatedPlan(plan).value.VObject?
    ensures var r := TranslatedPlan(plan).value.fields;
            r.Keys == plan.fields.Keys + {"language"} && r["language"] == VStr("de")
  {
    TranslationsAreLocated(plan);
    TranslatedPaths(plan);
    hide *;
    SetAllIsAlike(plan, TranslationsOf(plan));
    LanguageAdded(plan, SetAll(plan, TranslationsOf(plan)).value);
  }

  lemma LanguageAdded(v: Value, w: Value)
    requires v.VObject? && Alike(v, w)
    ensures WithLanguage(w).VObject?
    ensures var r := WithLanguage(w).fields; r.Keys == v.fields.Keys + {"language"} && r["language"] == VStr("de")
  {
  }
}
