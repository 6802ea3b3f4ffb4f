// The identity and the authority of a referenced grant as canonical texts
// (packages/grants/src/grant-reference.ts).
module GrantReference {
  import opened Wrappers
  import opened Text
  import opened Json

  predicate Defined(fields: map<string, Js>, key: string)
    ensures Defined(fields, key) ==> key in fields
  {
    key in fields && !fields[key].Undefined?
  }

  function DefinedKeys(fields: map<string, Js>): set<string> {
    set k | k in fields && Defined(fields, k)
  }

  // `canonical`: drop undefined properties and set the keys in code-unit order, at every depth.
  function Canonical(j: Js): Js {
    match j
    case Array(items) => Array(seq(|items|, i requires 0 <= i < |items| => Canonical(items[i])))
    case Object(_, fields) =>
      Object(SortedKeys(DefinedKeys(fields)), map k | k in fields && Defined(fields, k) :: Canonical(fields[k]))
    case _ => j
  }

  const PRESENTATION: set<string> := {"reference", "batch", "summary", "reason", "submitted_by"}

  // The properties of a request that say what it asks for.
  function Authority(request: Js): Js
    requires request.Object?
  {
    Object(Without(request.order), map k | k in request.fields && k !in PRESENTATION :: request.fields[k])
  }

  function Without(keys: seq<string>): seq<string> {
    if |keys| == 0 then []
    else (if keys[0] in PRESENTATION then [] else [keys[0]]) + Without(keys[1..])
  }

  // `grantReferenceBinding`
  function Binding(request: Js): string
    requires request.Object?
  {
    StringifyTo(Canonical(Authority(request)), "")
  }

  datatype Brokered = Brokered(
    connectionId: string,
    brokerIssuer: string,
    agentIssuer: string,
    owner: string,
    keyId: string,
    requesterName: Option<string>)

  // `grantReferenceKey`
  function Key(requester: string, reference: string, brokered: Option<Brokered>): string {
    StringifyTo(Array([Str(requester), Str(reference),
      match brokered
      case None => Null
      case Some(b) => Array([Str(b.connectionId), Str(b.brokerIssuer), Str(b.agentIssuer), Str(b.owner),
                             Str(b.keyId)])]), "")
  }

  // ---------------------------------------------------------------- canonical texts

  lemma {:induction false} CanonicalTextIsRendering(j: Js, tail: string)
    requires WellFormed(j) && !j.Undefined?
    ensures StringifyTo(Canonical(j), tail) == RenderTo(Meaning(j), tail)
    decreases j, 1, 0
  {
    match j
    case Array(items) => CanonicalItems(items, Canonical(j).items, Meaning(j).items, true, [']'] + tail);
    case Object(_, fields) =>
      var keys := Enumeration(SortedKeys(DefinedKeys(fields)));
      assert Meaning(j).fields.Keys == DefinedKeys(fields);
      CanonicalMembers(j, Canonical(j), Meaning(j), keys, true, ['}'] + tail);
    case _ =>
  }

  lemma {:induction false} CanonicalItems(items: seq<Js>, cs: seq<Js>, vs: seq<Value>, first: bool, tail: string)
    requires forall i :: 0 <= i < |items| ==> !items[i].Undefined? && WellFormed(items[i])
    requires |cs| == |items| && forall i :: 0 <= i < |items| ==> cs[i] == Canonical(items[i])
    requires |vs| == |items| && forall i :: 0 <= i < |items| ==> vs[i] == Meaning(items[i])
    ensures StringifyItems(cs, first, tail) == RenderItems(vs, first, tail)
    decreases items, 0, 0
  {
    if |items| > 0 {
      CanonicalItems(items[1..], cs[1..], vs[1..], false, tail);
      CanonicalTextIsRendering(items[0], RenderItems(vs[1..], false, tail));
    }
  }

  lemma {:induction false} CanonicalMembers(j: Js, c: Js, v: Value, keys: seq<string>, first: bool, tail: string)
    requires j.Object? && WellFormed(j) && c == Canonical(j) && v == Meaning(j)
    ensures c.Object? && v.VObject?
    ensures StringifyMembers(keys, c, first, tail) == RenderMembers(keys, v, first, tail)
    decreases j, 0, |keys|
  {
    if |keys| > 0 {
      var k := keys[0];
      if k in v.fields {
        CanonicalMembers(j, c, v, keys[1..], false, tail);
        CanonicalTextIsRendering(j.fields[k], RenderMembers(keys[1..], v, false, tail));
        assert c.fields[k] == Canonical(j.fields[k]) && !c.fields[k].Undefined?;
      } else {
        CanonicalMembers(j, c, v, keys[1..], first, tail);
      }
    }
  }

  lemma {:induction false} WithoutFacts(keys: seq<string>)
    requires Distinct(keys)
    ensures Distinct(Without(keys))
    ensures forall k :: k in Without(keys) <==> k in keys && k !in PRESENTATION
  {
    if |keys| > 0 {
      assert forall i, j :: 0 <= i < j < |keys| - 1 ==> keys[1..][i] == keys[i + 1] && keys[1..][j] == keys[j + 1];
      WithoutFacts(keys[1..]);
      assert keys == [keys[0]] + keys[1..];
      assert keys[0] !in keys[1..];
    }
  }

  lemma AuthorityIsWellFormed(request: Js)
    requires request.Object? && WellFormed(request)
    ensures WellFormed(Authority(request))
  {
    WithoutFacts(request.order);
  }

  // Two requests are bound to the same text exactly when they ask for the same authority,
  // whatever the order of their keys, their undefined properties and their presentation.
  lemma BindingIsFaithful(a: Js, b: Js)
    requires a.Object? && WellFormed(a) && b.Object? && WellFormed(b)
    ensures Binding(a) == Binding(b) <==> Meaning(Authority(a)) == Meaning(Authority(b))
  {
    AuthorityIsWellFormed(a);
    AuthorityIsWellFormed(b);
    CanonicalTextIsRendering(Authority(a), "");
    CanonicalTextIsRendering(Authority(b), "");
    RenderIsInjective(Meaning(Authority(a)), Meaning(Authority(b)));
  }

  // The same, property by property: every authority property is defined in both requests
  // with the same value, or in neither.
  lemma BindingComparesAuthority(a: Js, b: Js)
    requires a.Object? && WellFormed(a) && b.Object? && WellFormed(b)
    ensures Binding(a) == Binding(b) <==>
            forall k :: k !in PRESENTATION ==>
              (Defined(a.fields, k) <==> Defined(b.fields, k))
              && (Defined(a.fields, k) ==> Meaning(a.fields[k]) == Meaning(b.fields[k]))
  {
    BindingIsFaithful(a, b);
    AuthorityMeaning(a);
    AuthorityMeaning(b);
    hide Binding, Meaning, Authority, Defined;
    var x, y := Meaning(Authority(a)), Meaning(Authority(b));
    if forall k :: k !in PRESENTATION ==>
         (Defined(a.fields, k) <==> Defined(b.fields, k))
         && (Defined(a.fields, k) ==> Meaning(a.fields[k]) == Meaning(b.fields[k])) {
      assert x.fields.Keys == y.fields.Keys;
      assert x.fields == y.fields;
    }
    if x == y { SameAuthorityFields(a, b); }
  }

  lemma SameAuthorityFields(a: Js, b: Js)
    requires a.Object? && b.Object? && Meaning(Authority(a)) == Meaning(Authority(b))
    ensures forall k :: k !in PRESENTATION ==>
              (Defined(a.fields, k) <==> Defined(b.fields, k))
              && (Defined(a.fields, k) ==> Meaning(a.fields[k]) == Meaning(b.fields[k]))
  {
    AuthorityMeaning(a);
    AuthorityMeaning(b);
    hide Binding, Meaning, Authority, Defined;
    var x, y := Meaning(Authority(a)), Meaning(Authority(b));
    forall k | k !in PRESENTATION
      ensures (Defined(a.fields, k) <==> Defined(b.fields, k))
              && (Defined(a.fields, k) ==> Meaning(a.fields[k]) == Meaning(b.fields[k]))
    {
      assert k in x.fields <==> k in y.fields;
    }
  }

  lemma AuthorityMeaning(a: Js)
    requires a.Object?
    ensures var x := Meaning(Authority(a));
            && x.VObject?
            && (forall k :: k in x.fields <==> k !in PRESENTATION && Defined(a.fields, k))
            && forall k :: k in x.fields ==> x.fields[k] == Meaning(a.fields[k])
  {
  }

  // ---------------------------------------------------------------- keys

  // What a key identifies: the requester, its reference and the five broker fields.
  predicate SameIdentity(requester: string, reference: string, brokered: Option<Brokered>,
                         requester': string, reference': string, brokered': Option<Brokered>)
  {
    && requester == requester' && reference == reference'
    && (brokered.None? <==> brokered'.None?)
    && (brokered.Some? && brokered'.Some? ==>
          brokered.value.(requesterName := None) == brokered'.value.(requesterName := None))
  }

  function KeyValue(requester: string, reference: string, brokered: Option<Brokered>): Value {
    VArray([VStr(requester), VStr(reference),
      match brokered
      case None => VNull
      case Some(b) =>
        VArray([VStr(b.connectionId), VStr(b.brokerIssuer), VStr(b.agentIssuer), VStr(b.owner), VStr(b.keyId)])])
  }

  lemma {:induction false} PlainItems(items: seq<Js>, vs: seq<Value>, first: bool, tail: string)
    requires |items| == |vs|
    requires forall i, t :: 0 <= i < |items| ==> StringifyTo(items[i], t) == RenderTo(vs[i], t)
    ensures StringifyItems(items, first, tail) == RenderItems(vs, first, tail)
  {
    if |items| > 0 {
      assert forall i, t :: 0 <= i < |items[1..]| ==> StringifyTo(items[1..][i], t) == RenderTo(vs[1..][i], t);
      PlainItems(items[1..], vs[1..], false, tail);
    }
  }

  lemma BrokeredText(b: Brokered, t: string)
    ensures StringifyTo(Array([Str(b.connectionId), Str(b.brokerIssuer), Str(b.agentIssuer), Str(b.owner),
                               Str(b.keyId)]), t)
            == RenderTo(VArray([VStr(b.connectionId), VStr(b.brokerIssuer), VStr(b.agentIssuer), VStr(b.owner),
                                VStr(b.keyId)]), t)
  {
    PlainItems([Str(b.connectionId), Str(b.brokerIssuer), Str(b.agentIssuer), Str(b.owner), Str(b.keyId)],
               [VStr(b.connectionId), VStr(b.brokerIssuer), VStr(b.agentIssuer), VStr(b.owner), VStr(b.keyId)],
               true, [']'] + t);
  }

  lemma KeyIsRendering(requester: string, reference: string, brokered: Option<Brokered>)
    ensures Key(requester, reference, brokered) == Render(KeyValue(requester, reference, brokered))
  {
    var last := match brokered
      case None => Null
      case Some(b) => Array([Str(b.connectionId), Str(b.brokerIssuer), Str(b.agentIssuer), Str(b.owner), Str(b.keyId)]);
    var v := KeyValue(requester, reference, brokered);
    forall t ensures StringifyTo(last, t) == RenderTo(v.items[2], t) {
      if brokered.Some? { BrokeredText(brokered.value, t); }
    }
    PlainItems([Str(requester), Str(reference), last], v.items, true, [']'] + "");
  }

  // Keys are equal exactly for the same requester, reference and broker authority.
  lemma KeyIsFaithful(requester: string, reference: string, brokered: Option<Brokered>,
                      requester': string, reference': string, brokered': Option<Brokered>)
    ensures Key(requester, reference, brokered) == Key(requester', reference', brokered')
            <==> SameIdentity(requester, reference, brokered, requester', reference', brokered')
  {
    KeyIsRendering(requester, reference, brokered);
    KeyIsRendering(requester', reference', brokered');
    var v, w := KeyValue(requester, reference, brokered), KeyValue(requester', reference', brokered');
    RenderIsInjective(v, w);
    if v == w {
      assert v.items[0] == w.items[0] && v.items[1] == w.items[1] && v.items[2] == w.items[2];
      if brokered.Some? && brokered'.Some? {
        var p, q := v.items[2].items, w.items[2].items;
        assert p[0] == q[0] && p[1] == q[1] && p[2] == q[2] && p[3] == q[3] && p[4] == q[4];
      }
    }
  }
}
