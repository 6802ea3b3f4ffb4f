// Requests as the objects whose binding texts the store compares, and why comparing their
// authority fields decides the same (packages/grants/src/grant-reference.ts:35-48).
module GrantBinding {
  import opened Wrappers
  import opened Text
  import opened Json
  import opened CliPermissions
  import opened GrantStore
  import GrantReference

  // ---------------------------------------------------------------- the value of a request

  function TextsValue(texts: seq<string>): Value {
    VArray(seq(|texts|, i requires 0 <= i < |texts| => VStr(texts[i])))
  }

  function SelectorValue(selector: Selector): Value {
    VObject(map k | k in selector :: VStr(selector[k]))
  }

  function RefValue(ref: ResourceRef): Value {
    var fields := map["resource" := VStr(ref.resource)];
    VObject(if ref.selector.None? then fields else fields["selector" := SelectorValue(ref.selector.value)])
  }

  function RiskText(risk: Risk): string {
    match risk
    case Low => "low"
    case Medium => "medium"
    case High => "high"
    case Critical => "critical"
  }

  function ConstraintsValue(c: Constraints): Value {
    VObject(map["exact_command" := VBool(c.exactCommand), "single_use" := VBool(c.singleUse)])
  }

  function ChainValue(chain: seq<ResourceRef>): Value {
    VArray(seq(|chain|, i requires 0 <= i < |chain| => RefValue(chain[i])))
  }

  function DetailValue(d: Detail): Value {
    var fields := map["type" := VStr(d.kind), "cli_id" := VStr(d.cliId), "operation_id" := VStr(d.operationId),
                      "resource_chain" := ChainValue(d.chain),
                      "action" := VStr(d.action), "permission" := VStr(d.permission), "display" := VStr(d.display),
                      "risk" := VStr(RiskText(d.risk))];
    VObject(if d.constraints.None? then fields else fields["constraints" := ConstraintsValue(d.constraints.value)])
  }

  function DetailsValue(details: seq<Detail>): Value {
    VArray(seq(|details|, i requires 0 <= i < |details| => DetailValue(details[i])))
  }

  function TypeText(t: GrantType): string {
    match t
    case Once => "once"
    case Timed => "timed"
    case Always => "always"
  }

  function MaybeText(s: Option<string>): Option<Value> {
    if s.None? then None else Some(VStr(s.value))
  }

  function MaybeTexts(texts: Option<seq<string>>): Option<Value> {
    if texts.None? then None else Some(TextsValue(texts.value))
  }

  function MaybeNumber(n: Option<int>): Option<Value> {
    if n.None? then None else Some(VNumber(n.value))
  }

  function WithText(fields: map<string, Value>, key: string, s: Option<string>): map<string, Value> {
    if s.None? then fields else fields[key := VStr(s.value)]
  }

  // The facts of an execution context that bind a shape.
  function ShapeValue(t: ShapeTier): Value {
    VObject(WithText(WithText(WithText(map[], "adapter_owner", t.owner), "adapter_domain", t.domain), "adapter_digest",
                     t.digest))
  }

  const REQUEST_KEYS: set<string> := {
    "requester", "target_host", "audience", "grant_type", "permissions", "authorization_details", "command", "cmd_hash",
    "execution_context", "duration", "waits_until", "run_as", "delegator", "delegate", "scopes",
    "reference", "batch", "summary", "reason", "submitted_by"}

  // The property of a request with this name, if it is defined.
  function RequestField(r: Request, key: string): Option<Value> {
    match key
    case "requester" => Some(VStr(r.requester))
    case "target_host" => Some(VStr(r.targetHost))
    case "audience" => Some(VStr(r.audience))
    case "grant_type" => if r.grantType.None? then None else Some(VStr(TypeText(r.grantType.value)))
    case "permissions" => MaybeTexts(r.permissions)
    case "authorization_details" => if r.details.None? then None else Some(DetailsValue(r.details.value))
    case "command" => MaybeTexts(r.command)
    case "cmd_hash" => MaybeText(r.cmdHash)
    case "execution_context" => if r.shape.None? then None else Some(ShapeValue(r.shape.value))
    case "duration" => MaybeNumber(r.duration)
    case "waits_until" => MaybeNumber(r.waitsUntil)
    case "run_as" => MaybeText(r.runAs)
    case "delegator" => MaybeText(r.delegator)
    case "delegate" => MaybeText(r.delegate)
    case "scopes" => MaybeTexts(r.scopes)
    case "reference" => MaybeText(r.reference)
    case "batch" => MaybeText(r.batch)
    case "summary" => MaybeText(r.summary)
    case "reason" => MaybeText(r.reason)
    case "submitted_by" => MaybeText(r.submittedBy)
    case _ => None
  }

  function RequestValue(r: Request): Value {
    VObject(map k | k in REQUEST_KEYS && RequestField(r, k).Some? :: RequestField(r, k).value)
  }

  // The object is this request, whatever the order of its keys and its undefined properties.
  ghost predicate Denotes(j: Js, r: Request) {
    j.Object? && WellFormed(j) && Meaning(j) == RequestValue(r)
  }

  // ---------------------------------------------------------------- different parts, different values

  lemma TextsValueIsInjective(a: seq<string>, b: seq<string>)
    ensures TextsValue(a) == TextsValue(b) <==> a == b
  {
    if TextsValue(a) == TextsValue(b) {
      assert |a| == |TextsValue(a).items| == |b|;
      forall i | 0 <= i < |a| ensures a[i] == b[i] { assert TextsValue(a).items[i] == TextsValue(b).items[i]; }
    }
  }

  lemma SelectorValueIsInjective(a: Selector, b: Selector)
    ensures SelectorValue(a) == SelectorValue(b) <==> a == b
  {
    var x, y := SelectorValue(a), SelectorValue(b);
    if x == y {
      assert x.fields.Keys == a.Keys && y.fields.Keys == b.Keys;
      forall k | k in a ensures a[k] == b[k] { assert x.fields[k] == y.fields[k]; }
    }
  }

  lemma RefValueIsInjective(a: ResourceRef, b: ResourceRef)
    ensures RefValue(a) == RefValue(b) <==> a == b
  {
    var x, y := RefValue(a), RefValue(b);
    if x == y {
      assert x.fields["resource"] == y.fields["resource"];
      assert "selector" in x.fields <==> "selector" in y.fields;
      if a.selector.Some? {
        assert x.fields["selector"] == y.fields["selector"];
        SelectorValueIsInjective(a.selector.value, b.selector.value);
      }
    }
  }

  lemma ChainValueIsInjective(a: seq<ResourceRef>, b: seq<ResourceRef>)
    ensures ChainValue(a) == ChainValue(b) <==> a == b
  {
    hide RefValue;
    var x, y := ChainValue(a).items, ChainValue(b).items;
    if ChainValue(a) == ChainValue(b) {
      assert |a| == |x| == |b|;
      forall i | 0 <= i < |a| ensures a[i] == b[i] {
        assert x[i] == y[i];
        RefValueIsInjective(a[i], b[i]);
      }
    }
  }

  lemma ConstraintsValueIsInjective(a: Constraints, b: Constraints)
    ensures ConstraintsValue(a) == ConstraintsValue(b) <==> a == b
  {
    var p, q := ConstraintsValue(a), ConstraintsValue(b);
    if p == q {
      assert p.fields["exact_command"] == q.fields["exact_command"] && p.fields["single_use"] == q.fields["single_use"];
    }
  }

  // Every part of a detail can be read off its value.
  lemma DetailFields(d: Detail)
    ensures var v := DetailValue(d);
            && v.VObject?
            && TextAt(v.fields, "type") == Some(d.kind) && TextAt(v.fields, "cli_id") == Some(d.cliId)
            && TextAt(v.fields, "operation_id") == Some(d.operationId) && TextAt(v.fields, "action") == Some(d.action)
            && TextAt(v.fields, "permission") == Some(d.permission) && TextAt(v.fields, "display") == Some(d.display)
            && TextAt(v.fields, "risk") == Some(RiskText(d.risk))
            && ValueAt(v.fields, "resource_chain") == Some(ChainValue(d.chain))
            && ValueAt(v.fields, "constraints")
               == if d.constraints.None? then None else Some(ConstraintsValue(d.constraints.value))
  {
    hide ChainValue, ConstraintsValue;
  }

  lemma DetailValueIsInjective(a: Detail, b: Detail)
    ensures DetailValue(a) == DetailValue(b) <==> a == b
  {
    DetailFields(a);
    DetailFields(b);
    if a.constraints.Some? && b.constraints.Some? {
      ConstraintsValueIsInjective(a.constraints.value, b.constraints.value);
    }
    ChainValueIsInjective(a.chain, b.chain);
    hide DetailValue, TextAt, ValueAt, ConstraintsValue, ChainValue;
  }

  lemma DetailsValueIsInjective(a: seq<Detail>, b: seq<Detail>)
    ensures DetailsValue(a) == DetailsValue(b) <==> a == b
  {
    hide DetailValue;
    var x, y := DetailsValue(a).items, DetailsValue(b).items;
    if DetailsValue(a) == DetailsValue(b) {
      assert |a| == |x| == |b|;
      forall i | 0 <= i < |a| ensures a[i] == b[i] {
        assert x[i] == y[i];
        DetailValueIsInjective(a[i], b[i]);
      }
    }
  }

  lemma ShapeValueIsInjective(a: ShapeTier, b: ShapeTier)
    ensures ShapeValue(a) == ShapeValue(b) <==> a == b
  {
    ShapeFields(a);
    ShapeFields(b);
    hide ShapeValue;
  }

  lemma ShapeFields(t: ShapeTier)
    ensures var v := ShapeValue(t);
            && v.VObject?
            && t.owner == TextAt(v.fields, "adapter_owner")
            && t.domain == TextAt(v.fields, "adapter_domain")
            && t.digest == TextAt(v.fields, "adapter_digest")
  {
  }

  lemma MaybesAreInjective()
    ensures forall a, b :: MaybeText(a) == MaybeText(b) <==> a == b
    ensures forall a, b :: MaybeNumber(a) == MaybeNumber(b) <==> a == b
    ensures forall a, b :: MaybeTexts(a) == MaybeTexts(b) <==> a == b
  {
    hide TextsValue;
    forall a, b ensures MaybeTexts(a) == MaybeTexts(b) <==> a == b {
      if a.Some? && b.Some? { TextsValueIsInjective(a.value, b.value); }
    }
  }

  // ---------------------------------------------------------------- requests

  ghost predicate SameFields(a: Request, b: Request) {
    forall k :: k in REQUEST_KEYS && k !in GrantReference.PRESENTATION ==> RequestField(a, k) == RequestField(b, k)
  }

  lemma CompoundFields(a: Request, b: Request)
    ensures RequestField(a, "grant_type") == RequestField(b, "grant_type") <==> a.grantType == b.grantType
    ensures RequestField(a, "authorization_details") == RequestField(b, "authorization_details")
            <==> a.details == b.details
    ensures RequestField(a, "execution_context") == RequestField(b, "execution_context") <==> a.shape == b.shape
  {
    hide DetailsValue, ShapeValue;
    if a.details.Some? && b.details.Some? { DetailsValueIsInjective(a.details.value, b.details.value); }
    if a.shape.Some? && b.shape.Some? { ShapeValueIsInjective(a.shape.value, b.shape.value); }
  }

  lemma NamingFields(a: Request, b: Request)
    ensures RequestField(a, "requester") == RequestField(b, "requester") <==> a.requester == b.requester
    ensures RequestField(a, "target_host") == RequestField(b, "target_host") <==> a.targetHost == b.targetHost
    ensures RequestField(a, "audience") == RequestField(b, "audience") <==> a.audience == b.audience
    ensures RequestField(a, "cmd_hash") == RequestField(b, "cmd_hash") <==> a.cmdHash == b.cmdHash
  {
    MaybesAreInjective();
    hide MaybeText, MaybeTexts, MaybeNumber;
  }

  lemma DelegationFields(a: Request, b: Request)
    ensures RequestField(a, "run_as") == RequestField(b, "run_as") <==> a.runAs == b.runAs
    ensures RequestField(a, "delegator") == RequestField(b, "delegator") <==> a.delegator == b.delegator
    ensures RequestField(a, "delegate") == RequestField(b, "delegate") <==> a.delegate == b.delegate
    ensures RequestField(a, "scopes") == RequestField(b, "scopes") <==> a.scopes == b.scopes
  {
    MaybesAreInjective();
    hide MaybeText, MaybeTexts, MaybeNumber;
  }

  lemma LimitFields(a: Request, b: Request)
    ensures RequestField(a, "permissions") == RequestField(b, "permissions") <==> a.permissions == b.permissions
    ensures RequestField(a, "command") == RequestField(b, "command") <==> a.command == b.command
    ensures RequestField(a, "duration") == RequestField(b, "duration") <==> a.duration == b.duration
    ensures RequestField(a, "waits_until") == RequestField(b, "waits_until") <==> a.waitsUntil == b.waitsUntil
  {
    MaybesAreInjective();
    hide MaybeText, MaybeTexts, MaybeNumber;
  }

  predicate SameAuthority(a: Request, b: Request) {
    && a.requester == b.requester && a.targetHost == b.targetHost && a.audience == b.audience
    && a.grantType == b.grantType
    && a.permissions == b.permissions && a.details == b.details && a.command == b.command && a.cmdHash == b.cmdHash
    && a.shape == b.shape && a.duration == b.duration && a.waitsUntil == b.waitsUntil && a.runAs == b.runAs
    && a.delegator == b.delegator && a.delegate == b.delegate && a.scopes == b.scopes
  }

  lemma SameAuthorityIs(a: Request, b: Request)
    ensures SameAuthority(a, b) <==> AuthorityOf(a) == AuthorityOf(b)
  {
  }

  // Requests have the same authority exactly when they agree on every property that is not
  // presentation.
  lemma SameFieldsExactly(a: Request, b: Request)
    ensures SameFields(a, b) <==> AuthorityOf(a) == AuthorityOf(b)
  {
    hide RequestField, AuthorityOf;
    SameAuthorityIs(a, b);
    CompoundFields(a, b);
    NamingFields(a, b);
    DelegationFields(a, b);
    LimitFields(a, b);
    if SameFields(a, b) {
      forall k | k in REQUEST_KEYS && k !in GrantReference.PRESENTATION
        ensures RequestField(a, k) == RequestField(b, k)
      {
      }
      assert SameAuthority(a, b);
    }
  }

  lemma DenotedFields(j: Js, r: Request, k: string)
    requires Denotes(j, r)
    ensures k in REQUEST_KEYS ==>
              (GrantReference.Defined(j.fields, k) <==> RequestField(r, k).Some?)
              && (RequestField(r, k).Some? ==> Meaning(j.fields[k]) == RequestField(r, k).value)
    ensures k !in REQUEST_KEYS ==> !GrantReference.Defined(j.fields, k)
  {
    var v := Meaning(j);
    hide RequestField;
    assert k in v.fields <==> GrantReference.Defined(j.fields, k);
    assert k in RequestValue(r).fields <==> k in REQUEST_KEYS && RequestField(r, k).Some?;
  }

  // The binding texts of two requests, however their objects were built, are equal exactly
  // when the requests ask for the same authority.
  lemma BindingIsAuthority(j: Js, r: Request, j': Js, r': Request)
    requires Denotes(j, r) && Denotes(j', r')
    ensures GrantReference.Binding(j) == GrantReference.Binding(j') <==> AuthorityOf(r) == AuthorityOf(r')
  {
    GrantReference.BindingComparesAuthority(j, j');
    SameFieldsExactly(r, r');
    forall k ensures SameProperty(j, j', k) <==> (k in REQUEST_KEYS ==> RequestField(r, k) == RequestField(r', k)) {
      DenotedFields(j, r, k);
      DenotedFields(j', r', k);
      hide RequestField, Denotes;
    }
    hide RequestField, Denotes, AuthorityOf;
    assert SameFields(r, r') <==> forall k :: k !in GrantReference.PRESENTATION ==> SameProperty(j, j', k);
  }

  ghost predicate SameProperty(a: Js, b: Js, k: string)
    requires a.Object? && b.Object?
  {
    (GrantReference.Defined(a.fields, k) <==> GrantReference.Defined(b.fields, k))
    && (GrantReference.Defined(a.fields, k) ==> Meaning(a.fields[k]) == Meaning(b.fields[k]))
  }

  // What the store checks before it returns or updates a referenced grant, in the source's
  // own terms: the same reference, the same key and the same binding text.
  lemma SameReferencedIsByText(existing: Grant, incoming: Grant, j: Js, j': Js)
    requires Denotes(j, existing.request) && Denotes(j', incoming.request)
    ensures SameReferenced(existing, incoming) <==>
              && existing.request.reference == incoming.request.reference
              && existing.request.reference.Some?
              && KeyOf(existing.request, existing.brokered) == KeyOf(incoming.request, incoming.brokered)
              && GrantReference.Binding(j) == GrantReference.Binding(j')
  {
    BindingIsAuthority(j, existing.request, j', incoming.request);
  }

  // ---------------------------------------------------------------- every request is an object

  // The object whose keys were set in sorted order.
  function JsOf(v: Value): Js {
    match v
    case VNull => Null
    case VBool(b) => Bool(b)
    case VNumber(n) => Number(n)
    case VStr(s) => Str(s)
    case VArray(items) => Array(seq(|items|, i requires 0 <= i < |items| => JsOf(items[i])))
    case VObject(fields) => Object(SortedKeys(fields.Keys), map k | k in fields :: JsOf(fields[k]))
  }

  lemma SortedKeysAreDistinct(keys: set<string>)
    ensures Distinct(SortedKeys(keys)) && forall k :: k in SortedKeys(keys) <==> k in keys
  {
    SortedKeysFacts(keys);
    var s := SortedKeys(keys);
    forall i, j | 0 <= i < j < |s| ensures s[i] != s[j] { LessIsStrict(s[i], s[j]); }
  }

  lemma {:induction false} JsOfMeans(v: Value)
    ensures WellFormed(JsOf(v)) && !JsOf(v).Undefined? && Meaning(JsOf(v)) == v
  {
    match v
    case VArray(items) =>
      forall i | 0 <= i < |items|
        ensures WellFormed(JsOf(items[i])) && !JsOf(items[i]).Undefined? && Meaning(JsOf(items[i])) == items[i]
      {
        JsOfMeans(items[i]);
      }
      assert Meaning(JsOf(v)).items == items;
    case VObject(fields) =>
      SortedKeysAreDistinct(fields.Keys);
      hide SortedKeys;
      forall k | k in fields
        ensures WellFormed(JsOf(fields[k])) && !JsOf(fields[k]).Undefined? && Meaning(JsOf(fields[k])) == fields[k]
      {
        JsOfMeans(fields[k]);
      }
      assert Meaning(JsOf(v)).fields == fields;
    case _ =>
  }

  lemma EveryRequestIsDenoted(r: Request)
    ensures Denotes(JsOf(RequestValue(r)), r)
  {
    JsOfMeans(RequestValue(r));
    hide RequestField, Meaning, WellFormed;
  }

  // ---------------------------------------------------------------- nothing is lost

  lemma PresentationFields(a: Request, b: Request)
    ensures RequestField(a, "reference") == RequestField(b, "reference") <==> a.reference == b.reference
    ensures RequestField(a, "batch") == RequestField(b, "batch") <==> a.batch == b.batch
    ensures RequestField(a, "summary") == RequestField(b, "summary") <==> a.summary == b.summary
    ensures RequestField(a, "reason") == RequestField(b, "reason") <==> a.reason == b.reason
    ensures RequestField(a, "submitted_by") == RequestField(b, "submitted_by") <==> a.submittedBy == b.submittedBy
  {
    MaybesAreInjective();
    hide MaybeText, MaybeTexts, MaybeNumber;
  }

  lemma FieldIsRead(a: Request, k: string)
    requires k in REQUEST_KEYS
    ensures RequestField(a, k) == if k in RequestValue(a).fields then Some(RequestValue(a).fields[k]) else None
  {
    hide RequestField;
  }

  // Different requests have different values, so an object denotes one request only.
  lemma DenotedOnce(a: Request, b: Request)
    ensures RequestValue(a) == RequestValue(b) <==> a == b
  {
    if RequestValue(a) == RequestValue(b) {
      forall k | k in REQUEST_KEYS ensures RequestField(a, k) == RequestField(b, k) {
        FieldIsRead(a, k);
        FieldIsRead(b, k);
      }
      SameFieldsExactly(a, b);
      SameAuthorityIs(a, b);
      PresentationFields(a, b);
      hide RequestField, AuthorityOf, RequestValue;
      assert SameAuthority(a, b);
    }
  }
}
