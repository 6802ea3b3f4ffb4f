// The permission algebra of CLI authorization details: coverage, canonical permission
// strings, widening and merging (packages/grants/src/cli-permissions.ts).
module CliPermissions {
  import opened Wrappers
  import opened Text
  import Glob

  // An entry whose value is undefined is absent from the map.
  type Selector = map<string, string>

  datatype ResourceRef = ResourceRef(resource: string, selector: Option<Selector>)

  datatype Risk = Low | Medium | High | Critical

  datatype Constraints = Constraints(exactCommand: bool, singleUse: bool)

  datatype Detail = Detail(
    kind: string, // the field `type`
    cliId: string,
    operationId: string,
    chain: seq<ResourceRef>,
    action: string,
    permission: string,
    display: string,
    risk: Risk,
    constraints: Option<Constraints>)

  const CLI_KIND := "openape_cli"

  // ---------------------------------------------------------------- selectors

  function NonEmpty(selector: Selector): Selector {
    map k | k in selector && selector[k] != "" :: selector[k]
  }

  // `normalizeSelector`, up to the order of the entries
  function Normalize(selector: Option<Selector>): Option<Selector> {
    if selector.None? || |NonEmpty(selector.value)| == 0 then None else Some(NonEmpty(selector.value))
  }

  function EntryTexts(selector: Selector, keys: seq<string>): (texts: seq<string>)
    ensures |texts| == |keys|
  {
    if |keys| == 0 then []
    else [keys[0] + "=" + (if keys[0] in selector then selector[keys[0]] else "")] + EntryTexts(selector, keys[1..])
  }

  lemma {:induction false} EntryTextAt(selector: Selector, keys: seq<string>, i: nat)
    requires i < |keys| && keys[i] in selector
    ensures EntryTexts(selector, keys)[i] == keys[i] + "=" + selector[keys[i]]
  {
    if i > 0 { EntryTextAt(selector, keys[1..], i - 1); }
  }

  // `selectorString`
  function SelectorString(selector: Option<Selector>): string {
    var n := Normalize(selector);
    if n.None? then "*" else Join(EntryTexts(n.value, SortedKeys(n.value.Keys)), ",")
  }

  function RefText(ref: ResourceRef): string {
    ref.resource + "[" + SelectorString(ref.selector) + "]"
  }

  function RefTexts(chain: seq<ResourceRef>): seq<string> {
    if |chain| == 0 then [] else [RefText(chain[0])] + RefTexts(chain[1..])
  }

  // `canonicalizeCliPermission`
  function Canonical(cliId: string, chain: seq<ResourceRef>, action: string): string {
    cliId + "." + Join(RefTexts(chain), ".") + "#" + action
  }

  function CanonicalOf(d: Detail): string {
    Canonical(d.cliId, d.chain, d.action)
  }

  // ---------------------------------------------------------------- coverage

  // `resourceRefCovers`
  predicate RefCovers(granted: ResourceRef, required: ResourceRef) {
    && granted.resource == required.resource
    && var g, r := Normalize(granted.selector), Normalize(required.selector);
       || g.None?
       || (r.Some? && forall k :: k in g.value ==> k in r.value && Glob.Matches(g.value[k], r.value[k]))
  }

  // `cliAuthorizationDetailCovers`
  predicate Covers(granted: Detail, required: Detail) {
    && granted.kind == CLI_KIND && required.kind == CLI_KIND
    && granted.cliId == required.cliId
    && granted.action == required.action
    && |granted.chain| <= |required.chain|
    && forall i :: 0 <= i < |granted.chain| ==> RefCovers(granted.chain[i], required.chain[i])
  }

  // A stored detail that older clients may have written in a form coverage cannot read.
  datatype Stored = Readable(detail: Detail) | Unreadable

  // `cliAuthorizationDetailsCover`
  predicate DetailsCover(granted: seq<Stored>, required: seq<Detail>) {
    forall r :: r in required ==> exists g :: g in granted && g.Readable? && Covers(g.detail, r)
  }

  function AllReadable(details: seq<Detail>): (stored: seq<Stored>)
    ensures |stored| == |details| && forall i :: 0 <= i < |details| ==> stored[i] == Readable(details[i])
  {
    seq(|details|, i requires 0 <= i < |details| => Readable(details[i]))
  }

  lemma RefCoversTransitive(a: ResourceRef, b: ResourceRef, c: ResourceRef)
    requires RefCovers(a, b) && RefCovers(b, c)
    ensures RefCovers(a, c)
  {
    var x, y, z := Normalize(a.selector), Normalize(b.selector), Normalize(c.selector);
    if x.Some? {
      forall k | k in x.value ensures k in z.value && Glob.Matches(x.value[k], z.value[k]) {
        Glob.MatchesTransitive(x.value[k], y.value[k], z.value[k]);
      }
    }
  }

  // A covered detail can never cover more than its coverer.
  lemma CoversTransitive(a: Detail, b: Detail, c: Detail)
    requires Covers(a, b) && Covers(b, c)
    ensures Covers(a, c)
  {
    forall i | 0 <= i < |a.chain| ensures RefCovers(a.chain[i], c.chain[i]) {
      RefCoversTransitive(a.chain[i], b.chain[i], c.chain[i]);
    }
  }

  lemma DetailsCoverTransitive(a: seq<Stored>, b: seq<Detail>, c: seq<Detail>)
    requires DetailsCover(a, b) && DetailsCover(AllReadable(b), c)
    ensures DetailsCover(a, c)
  {
    forall r | r in c ensures exists g :: g in a && g.Readable? && Covers(g.detail, r) {
      var m :| m in AllReadable(b) && m.Readable? && Covers(m.detail, r);
      assert m.detail in b;
      var g :| g in a && g.Readable? && Covers(g.detail, m.detail);
      CoversTransitive(g.detail, m.detail, r);
    }
  }

  // No selector value is a glob beyond the length limit.
  predicate BoundedRef(ref: ResourceRef) {
    ref.selector.Some? ==> forall k :: k in ref.selector.value ==> Glob.Bounded(ref.selector.value[k])
  }

  predicate BoundedChain(chain: seq<ResourceRef>) {
    forall i :: 0 <= i < |chain| ==> BoundedRef(chain[i])
  }

  lemma RefCoversReflexive(ref: ResourceRef)
    ensures RefCovers(ref, ref) <==> BoundedRef(ref)
  {
    if ref.selector.Some? {
      var s, n := ref.selector.value, NonEmpty(ref.selector.value);
      forall k | k in s ensures Glob.Matches(s[k], s[k]) <==> Glob.Bounded(s[k]) {
        Glob.MatchesReflexive(s[k]);
      }
      assert forall k :: k in s && k !in n ==> Glob.Bounded(s[k]);
      if |n| == 0 { assert n.Keys == {}; }
    }
  }

  // Coverage is reflexive exactly where no selector value is an overlong glob.
  lemma CoversReflexive(d: Detail)
    ensures Covers(d, d) <==> d.kind == CLI_KIND && BoundedChain(d.chain)
  {
    forall i | 0 <= i < |d.chain| ensures RefCovers(d.chain[i], d.chain[i]) <==> BoundedRef(d.chain[i]) {
      RefCoversReflexive(d.chain[i]);
    }
  }

  // ---------------------------------------------------------------- canonical strings

  // The texts of a selector avoid the characters that separate entries and close brackets.
  predicate SeparableSelector(selector: Selector) {
    forall k :: k in selector ==>
      && '=' !in k && ',' !in k && ']' !in k
      && ',' !in selector[k] && ']' !in selector[k]
  }

  predicate SeparableRef(ref: ResourceRef) {
    && '[' !in ref.resource && '#' !in ref.resource
    && (ref.selector.Some? ==> SeparableSelector(ref.selector.value))
  }

  predicate SeparableChain(chain: seq<ResourceRef>) {
    forall i :: 0 <= i < |chain| ==> SeparableRef(chain[i])
  }

  predicate Separable(d: Detail) {
    '.' !in d.cliId && SeparableChain(d.chain)
  }

  predicate SameRef(a: ResourceRef, b: ResourceRef) {
    a.resource == b.resource && Normalize(a.selector) == Normalize(b.selector)
  }

  // The same authority, up to absent and empty selector values.
  predicate SameNormalized(a: Detail, b: Detail) {
    && a.cliId == b.cliId && a.action == b.action && SameChain(a.chain, b.chain)
  }

  predicate SameChain(a: seq<ResourceRef>, b: seq<ResourceRef>) {
    |a| == |b| && forall i :: 0 <= i < |a| ==> SameRef(a[i], b[i])
  }

  lemma EntryDeterminesPair(a: Selector, b: Selector, k: string, l: string)
    requires SeparableSelector(a) && SeparableSelector(b) && k in a && l in b
    requires k + "=" + a[k] == l + "=" + b[l]
    ensures k == l && a[k] == b[l]
  {
    FirstSeparator(k, l, '=', a[k], b[l]);
  }

  lemma EntriesDetermineKeys(a: Selector, b: Selector, ka: seq<string>, kb: seq<string>)
    requires SeparableSelector(a) && SeparableSelector(b)
    requires (forall k :: k in ka ==> k in a) && (forall k :: k in kb ==> k in b)
    requires EntryTexts(a, ka) == EntryTexts(b, kb)
    ensures ka == kb && forall k :: k in ka ==> a[k] == b[k]
  {
    var ta, tb := EntryTexts(a, ka), EntryTexts(b, kb);
    assert |ka| == |kb|;
    forall i | 0 <= i < |ka| ensures ka[i] == kb[i] && a[ka[i]] == b[ka[i]] {
      assert ka[i] in ka && kb[i] in kb;
      EntryTextAt(a, ka, i);
      EntryTextAt(b, kb, i);
      EntryDeterminesPair(a, b, ka[i], kb[i]);
    }
  }

  lemma EntriesDetermineSelector(a: Selector, b: Selector)
    requires SeparableSelector(a) && SeparableSelector(b)
    requires EntryTexts(a, SortedKeys(a.Keys)) == EntryTexts(b, SortedKeys(b.Keys))
    ensures a == b
  {
    SortedKeysFacts(a.Keys);
    SortedKeysFacts(b.Keys);
    EntriesDetermineKeys(a, b, SortedKeys(a.Keys), SortedKeys(b.Keys));
    assert a.Keys == b.Keys;
  }

  lemma EntryTextsAvoid(selector: Selector, keys: seq<string>, c: char)
    requires forall k :: k in keys ==> k in selector
    requires c != '=' && forall k :: k in selector ==> c !in k && c !in selector[k]
    ensures forall t :: t in EntryTexts(selector, keys) ==> c !in t
  {
    var texts := EntryTexts(selector, keys);
    forall t | t in texts ensures c !in t {
      var i :| 0 <= i < |texts| && texts[i] == t;
      assert keys[i] in keys;
      EntryTextAt(selector, keys, i);
    }
  }

  lemma SelectorStringAvoidsBracket(selector: Option<Selector>)
    requires selector.Some? ==> SeparableSelector(selector.value)
    ensures ']' !in SelectorString(selector)
  {
    var n := Normalize(selector);
    if n.Some? {
      var keys := SortedKeys(n.value.Keys);
      SortedKeysFacts(n.value.Keys);
      EntryTextsAvoid(n.value, keys, ']');
      JoinAvoids(EntryTexts(n.value, keys), ']', ',');
    }
  }

  lemma SelectorHasKey(selector: Option<Selector>)
    requires Normalize(selector).Some?
    ensures |SortedKeys(Normalize(selector).value.Keys)| > 0
  {
    var n := Normalize(selector).value;
    SortedKeysFacts(n.Keys);
    var k :| k in n.Keys;
    assert k in SortedKeys(n.Keys);
  }

  lemma SelectorHasEquals(selector: Option<Selector>)
    requires Normalize(selector).Some?
    ensures '=' in SelectorString(selector)
  {
    var n := Normalize(selector).value;
    var keys := SortedKeys(n.Keys);
    SortedKeysFacts(n.Keys);
    var k :| k in n.Keys;
    assert k in keys && keys[0] in keys;
    var texts := EntryTexts(n, keys);
    EntryTextAt(n, keys, 0);
    JoinHasSeparator(texts, ',');
    assert texts[0][|keys[0]|] == '=';
    assert texts[0] <= Join(texts, ",");
    assert Join(texts, ",")[|keys[0]|] == '=';
  }

  // Selector strings are equal exactly for equal normalized selectors.
  lemma SelectorStringIsFaithful(a: Option<Selector>, b: Option<Selector>)
    requires (a.Some? ==> SeparableSelector(a.value)) && (b.Some? ==> SeparableSelector(b.value))
    ensures SelectorString(a) == SelectorString(b) <==> Normalize(a) == Normalize(b)
  {
    if SelectorString(a) == SelectorString(b) {
      var x, y := Normalize(a), Normalize(b);
      if x.Some? { SelectorHasEquals(a); }
      if y.Some? { SelectorHasEquals(b); }
      if x.Some? && y.Some? {
        var kx, ky := SortedKeys(x.value.Keys), SortedKeys(y.value.Keys);
        var tx, ty := EntryTexts(x.value, kx), EntryTexts(y.value, ky);
        SortedKeysFacts(x.value.Keys);
        SortedKeysFacts(y.value.Keys);
        EntryTextsAvoid(x.value, kx, ',');
        EntryTextsAvoid(y.value, ky, ',');
        assert |tx| > 0 && |ty| > 0 by { SelectorHasKey(a); SelectorHasKey(b); }
        JoinIsInjective(tx, ty, ',');
        EntriesDetermineSelector(x.value, y.value);
      }
    }
  }

  // The chain text followed by '#' and the action, in the order a reader meets its parts.
  function Reading(chain: seq<ResourceRef>, action: string): string
    decreases chain, 1
  {
    if |chain| == 0 then "#" + action
    else chain[0].resource + ['['] + (SelectorString(chain[0].selector) + [']'] + ReadingRest(chain, action))
  }

  function ReadingRest(chain: seq<ResourceRef>, action: string): string
    requires |chain| > 0
    decreases chain, 0
  {
    if |chain| == 1 then "#" + action else "." + Reading(chain[1..], action)
  }

  lemma Regroup(r: string, s: string, j: string, x: string)
    ensures (r + "[" + s + "]") + "." + j + "#" + x == r + ['['] + (s + [']'] + ("." + (j + "#" + x)))
    ensures (r + "[" + s + "]") + "#" + x == r + ['['] + (s + [']'] + ("#" + x))
  {
  }

  lemma {:induction false} ChainTextIsReading(chain: seq<ResourceRef>, action: string)
    ensures Join(RefTexts(chain), ".") + "#" + action == Reading(chain, action)
  {
    if |chain| > 0 {
      var texts := RefTexts(chain);
      RefTextsLength(chain);
      assert texts[0] == RefText(chain[0]) && texts[1..] == RefTexts(chain[1..]);
      ChainTextIsReading(chain[1..], action);
      Regroup(chain[0].resource, SelectorString(chain[0].selector), Join(texts[1..], "."), action);
    }
  }

  lemma {:induction false} RefTextsLength(chain: seq<ResourceRef>)
    ensures |RefTexts(chain)| == |chain|
  {
    if |chain| > 0 { RefTextsLength(chain[1..]); }
  }

  // The first reference and everything after it are determined by the reading.
  lemma ReadingDeterminesHead(a: seq<ResourceRef>, b: seq<ResourceRef>, x: string, y: string)
    requires |a| > 0 && |b| > 0 && SeparableRef(a[0]) && SeparableRef(b[0])
    requires Reading(a, x) == Reading(b, y)
    ensures SameRef(a[0], b[0]) && ReadingRest(a, x) == ReadingRest(b, y)
  {
    var sa, sb := SelectorString(a[0].selector), SelectorString(b[0].selector);
    var ra, rb := ReadingRest(a, x), ReadingRest(b, y);
    FirstSeparator(a[0].resource, b[0].resource, '[', sa + [']'] + ra, sb + [']'] + rb);
    SelectorStringAvoidsBracket(a[0].selector);
    SelectorStringAvoidsBracket(b[0].selector);
    FirstSeparator(sa, sb, ']', ra, rb);
    SelectorStringIsFaithful(a[0].selector, b[0].selector);
  }

  lemma ReadingStart(chain: seq<ResourceRef>, action: string)
    requires |chain| > 0 ==> SeparableRef(chain[0])
    ensures |Reading(chain, action)| > 0 && (Reading(chain, action)[0] == '#' <==> |chain| == 0)
  {
    if |chain| > 0 && |chain[0].resource| > 0 {
      assert Reading(chain, action)[0] == chain[0].resource[0] && chain[0].resource[0] in chain[0].resource;
    }
  }

  lemma {:induction false} ReadingIsFaithful(a: seq<ResourceRef>, b: seq<ResourceRef>, x: string, y: string)
    requires SeparableChain(a) && SeparableChain(b)
    requires Reading(a, x) == Reading(b, y)
    ensures SameChain(a, b) && x == y
  {
    ReadingStart(a, x);
    ReadingStart(b, y);
    if |a| == 0 {
      assert Reading(a, x)[1..] == x && Reading(b, y)[1..] == y;
    } else {
      ReadingDeterminesHead(a, b, x, y);
      var ra, rb := ReadingRest(a, x), ReadingRest(b, y);
      assert ra[0] == rb[0];
      assert |a| == 1 ==> ra[0] == '#' && ra[1..] == x;
      assert |b| == 1 ==> rb[0] == '#' && rb[1..] == y;
      if |a| > 1 && |b| > 1 {
        assert ra[1..] == Reading(a[1..], x) && rb[1..] == Reading(b[1..], y);
        ReadingIsFaithful(a[1..], b[1..], x, y);
        assert forall i :: 1 <= i < |a| ==> a[i] == a[1..][i - 1] && b[i] == b[1..][i - 1];
      }
    }
  }

  lemma {:induction false} SameChainSameTexts(a: seq<ResourceRef>, b: seq<ResourceRef>)
    requires SameChain(a, b)
    ensures RefTexts(a) == RefTexts(b)
  {
    if |a| > 0 {
      assert SameRef(a[0], b[0]);
      assert forall i :: 0 <= i < |a| - 1 ==> a[1..][i] == a[i + 1] && b[1..][i] == b[i + 1];
      SameChainSameTexts(a[1..], b[1..]);
    }
  }

  // Equal normalized details always have equal canonical permissions.
  lemma SameNormalizedSameCanonical(a: Detail, b: Detail)
    requires SameNormalized(a, b)
    ensures CanonicalOf(a) == CanonicalOf(b)
  {
    SameChainSameTexts(a.chain, b.chain);
  }

  lemma CanonicalIsReading(d: Detail)
    ensures CanonicalOf(d) == d.cliId + ['.'] + Reading(d.chain, d.action)
  {
    ChainTextIsReading(d.chain, d.action);
    var j := Join(RefTexts(d.chain), ".");
    assert d.cliId + "." + j + "#" + d.action == d.cliId + ['.'] + (j + "#" + d.action);
  }

  // On separable details, canonical permissions are equal exactly for equal normalized details.
  lemma CanonicalIsFaithful(a: Detail, b: Detail)
    requires Separable(a) && Separable(b)
    ensures CanonicalOf(a) == CanonicalOf(b) <==> SameNormalized(a, b)
  {
    if SameNormalized(a, b) { SameNormalizedSameCanonical(a, b); }
    if CanonicalOf(a) == CanonicalOf(b) {
      CanonicalIsReading(a);
      CanonicalIsReading(b);
      FirstSeparator(a.cliId, b.cliId, '.', Reading(a.chain, a.action), Reading(b.chain, b.action));
      ReadingIsFaithful(a.chain, b.chain, a.action, b.action);
    }
  }
}
