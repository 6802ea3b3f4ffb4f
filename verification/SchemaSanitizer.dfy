// Rewriting a tool's JSON schema into the form the Responses backend accepts
// (packages/codex-proxy/src/schema-sanitizer.ts).
module SchemaSanitizer {
  import opened Wrappers
  import opened Json

  type Fields = map<string, Value>

  const TYPE_NULL := VStr("null")
  const TOP_LEVEL_COMBINATORS: set<string> := {"allOf", "anyOf", "oneOf", "enum", "not"}

  predicate IsNullSchema(node: Value) {
    node.VObject? && "type" in node.fields && node.fields["type"] == TYPE_NULL
  }

  function NonNullTypes(types: seq<Value>): seq<Value> {
    if |types| == 0 then []
    else (if types[0] == TYPE_NULL then [] else [types[0]]) + NonNullTypes(types[1..])
  }

  // `collapsibleNonNullType`; a type that is JSON null counts as not collapsible
  function CollapsibleType(types: seq<Value>): Option<Value> {
    var rest := NonNullTypes(types);
    if TYPE_NULL in types && |rest| == 1 && rest[0] != VNull then Some(rest[0]) else None
  }

  function NonNullBranches(branches: seq<Value>): seq<Value> {
    if |branches| == 0 then []
    else (if IsNullSchema(branches[0]) then [] else [branches[0]]) + NonNullBranches(branches[1..])
  }

  // `collapsibleNonNullBranch`
  function CollapsibleBranch(branches: seq<Value>): Option<Fields> {
    var rest := NonNullBranches(branches);
    if (exists b :: b in branches && IsNullSchema(b)) && |rest| == 1 && rest[0].VObject? then Some(rest[0].fields)
      else None
  }

  // t stands at position i, and every other type is "null".
  predicate AloneAt(types: seq<Value>, t: Value, i: nat) {
    && i < |types| && types[i] == t && t != VStr("null")
    && forall j :: 0 <= j < |types| && j != i ==> types[j] == VStr("null")
  }

  // A type list is collapsible exactly when one of its types is not "null" (nor JSON null)
  // and all the others, at least one, are.
  lemma CollapsibleTypeMeans(types: seq<Value>, t: Value)
    ensures CollapsibleType(types) == Some(t) <==> t != VNull && |types| > 1 && exists i: nat :: AloneAt(types, t, i)
  {
    OneNonNull(types, t);
    hide NonNullTypes;
    if i: nat :| AloneAt(types, t, i) {
      if |types| > 1 { assert types[if i == 0 then 1 else 0] == TYPE_NULL; }
      assert |types| == 1 ==> TYPE_NULL !in types;
    }
  }

  lemma {:induction false} OneNonNull(types: seq<Value>, t: Value)
    ensures NonNullTypes(types) == [t] <==> exists i: nat :: AloneAt(types, t, i)
    ensures NonNullTypes(types) == [] <==> forall j :: 0 <= j < |types| ==> types[j] == TYPE_NULL
  {
    if |types| > 0 {
      var rest := types[1..];
      OneNonNull(rest, t);
      assert forall j :: 0 <= j < |rest| ==> rest[j] == types[j + 1];
      var later := NonNullTypes(rest);
      if types[0] == TYPE_NULL {
        assert NonNullTypes(types) == later;
        forall i: nat ensures AloneAt(rest, t, i) <==> AloneAt(types, t, i + 1) { ShiftAlone(types, t, i); }
        if i: nat :| AloneAt(types, t, i) { assert AloneAt(rest, t, i - 1); }
      } else {
        assert NonNullTypes(types) == [types[0]] + later;
        assert ([types[0]] + later)[0] == types[0] && |[types[0]] + later| == 1 + |later|;
        assert [types[0]] + later == [t] <==> later == [] && types[0] == t;
        assert later == [] && types[0] == t ==> AloneAt(types, t, 0);
        if i: nat :| AloneAt(types, t, i) { assert i == 0 && later == []; }
      }
    }
  }

  lemma ShiftAlone(types: seq<Value>, t: Value, i: nat)
    requires |types| > 0 && types[0] == TYPE_NULL
    ensures AloneAt(types[1..], t, i) <==> AloneAt(types, t, i + 1)
  {
    assert forall j :: 0 <= j < |types| - 1 ==> types[1..][j] == types[j + 1];
    if AloneAt(types[1..], t, i) {
      forall j | 0 <= j < |types| && j != i + 1 ensures types[j] == TYPE_NULL {
        if j > 0 { assert types[1..][j - 1] == types[j]; }
      }
    }
  }

  // The schema `null`.
  predicate SaysNull(v: Value) {
    v.VObject? && "type" in v.fields && v.fields["type"] == VStr("null")
  }

  // The branch with these fields stands at position i, and every other branch is null.
  predicate AloneAmongNulls(branches: seq<Value>, fields: Fields, i: nat) {
    && i < |branches| && branches[i] == VObject(fields) && !SaysNull(branches[i])
    && forall j :: 0 <= j < |branches| && j != i ==> SaysNull(branches[j])
  }

  // A union is collapsible exactly when one of its branches is an object other than null
  // and all the others, at least one, are null.
  lemma CollapsibleBranchMeans(branches: seq<Value>, fields: Fields)
    ensures CollapsibleBranch(branches) == Some(fields)
            <==> |branches| > 1 && exists i: nat :: AloneAmongNulls(branches, fields, i)
  {
    OneNonNullBranch(branches, fields);
    assert forall b :: IsNullSchema(b) <==> SaysNull(b);
    hide NonNullBranches, SaysNull, IsNullSchema;
    if i: nat :| AloneAmongNulls(branches, fields, i) {
      if |branches| > 1 { assert SaysNull(branches[if i == 0 then 1 else 0]); }
      assert |branches| == 1 ==> forall b :: b in branches ==> b == branches[0];
    }
  }

  lemma {:induction false} OneNonNullBranch(branches: seq<Value>, fields: Fields)
    ensures NonNullBranches(branches) == [VObject(fields)] <==> exists i: nat :: AloneAmongNulls(branches, fields, i)
    ensures NonNullBranches(branches) == [] <==> forall j :: 0 <= j < |branches| ==> SaysNull(branches[j])
  {
    assert forall b :: IsNullSchema(b) <==> SaysNull(b);
    hide SaysNull, IsNullSchema;
    if |branches| > 0 {
      var first, rest := branches[0], branches[1..];
      OneNonNullBranch(rest, fields);
      assert forall j :: 0 <= j < |rest| ==> rest[j] == branches[j + 1];
      var later := NonNullBranches(rest);
      if SaysNull(first) {
        assert NonNullBranches(branches) == later;
        forall i: nat
          ensures AloneAmongNulls(rest, fields, i) <==> AloneAmongNulls(branches, fields, i + 1)
        {
          ShiftAmongNulls(branches, fields, i);
        }
        if i: nat :| AloneAmongNulls(branches, fields, i) { assert AloneAmongNulls(rest, fields, i - 1); }
      } else {
        assert NonNullBranches(branches) == [first] + later;
        assert ([first] + later)[0] == first && |[first] + later| == 1 + |later|;
        assert [first] + later == [VObject(fields)] <==> later == [] && first == VObject(fields);
        assert later == [] && first == VObject(fields) ==> AloneAmongNulls(branches, fields, 0);
        if i: nat :| AloneAmongNulls(branches, fields, i) { assert i == 0 && later == []; }
      }
    }
  }

  lemma ShiftAmongNulls(branches: seq<Value>, fields: Fields, i: nat)
    requires |branches| > 0 && SaysNull(branches[0])
    ensures AloneAmongNulls(branches[1..], fields, i) <==> AloneAmongNulls(branches, fields, i + 1)
  {
    hide SaysNull;
    assert forall j :: 0 <= j < |branches| - 1 ==> branches[1..][j] == branches[j + 1];
    if AloneAmongNulls(branches[1..], fields, i) {
      forall j | 0 <= j < |branches| && j != i + 1 ensures SaysNull(branches[j]) {
        if j > 0 { assert branches[1..][j - 1] == branches[j]; }
      }
    }
  }

  // What the node's `type` collapses to, if it is a nullable pair.
  function TypeOf(node: Fields): Option<Value> {
    if "type" in node && node["type"].VArray? then CollapsibleType(node["type"].items) else None
  }

  // The surviving branch of a nullable union.
  function BranchOf(node: Fields, key: string): Option<Fields> {
    if key in node && node[key].VArray? then CollapsibleBranch(node[key].items) else None
  }

  function CollapseType(node: Fields): Fields {
    var t := TypeOf(node);
    if t.None? then node else node["type" := t.value]["nullable" := VBool(true)]
  }

  // The union goes, the branch is merged up, and the node's own keys win.
  function MergeUp(node: Fields, key: string, branch: Fields): Fields {
    var without := map k | k in node && k != key :: node[k];
    var merged := map k | k in without.Keys + branch.Keys :: if k in without then without[k] else branch[k];
    merged["nullable" := VBool(true)]
  }

  function CollapseUnion(node: Fields, key: string): Fields {
    var branch := BranchOf(node, key);
    if branch.None? then node else MergeUp(node, key, branch.value)
  }

  function Collapse(node: Fields): Fields {
    CollapseUnion(CollapseUnion(CollapseType(node), "anyOf"), "oneOf")
  }

  // `sanitizeNode`
  function Sanitize(node: Value): Value {
    match node
    case VArray(items) => VArray(seq(|items|, i requires 0 <= i < |items| => Sanitize(items[i])))
    case VObject(fields) => VObject(Collapse(map k | k in fields :: Sanitize(fields[k])))
    case _ => node
  }

  function SanitizedFields(fields: Fields): Fields {
    map k | k in fields :: Sanitize(fields[k])
  }

  function StripTopLevel(node: Fields): Fields {
    map k | k in node && k !in TOP_LEVEL_COMBINATORS :: node[k]
  }

  // `sanitizeToolParameters`
  function SanitizeToolParameters(params: Fields): Fields {
    StripTopLevel(Collapse(SanitizedFields(params)))
  }

  // ---------------------------------------------------------------- the code's loops

  method CollapseUnionInPlace(node: Fields, key: string) returns (result: Fields)
    ensures result == CollapseUnion(node, key)
  {
    result := node;
    var branch := BranchOf(node, key);
    if branch.None? {
      return;
    }
    result := map k | k in node && k != key :: node[k];
    ghost var without := result;
    var rest := branch.value.Keys;
    while rest != {}
      invariant rest <= branch.value.Keys
      invariant result == map k | k in without.Keys + (branch.value.Keys - rest) ::
                            if k in without then without[k] else branch.value[k]
      decreases rest
    {
      var k :| k in rest;
      if k !in result {
        result := result[k := branch.value[k]];
      }
      rest := rest - {k};
    }
    result := result["nullable" := VBool(true)];
  }

  method CollapseObjectNode(fields: Fields) returns (result: Fields)
    ensures result == Collapse(SanitizedFields(fields))
    decreases VObject(fields), 0
  {
    hide TypeOf, BranchOf, CollapseUnion, Collapse;
    result := map[];
    var rest := fields.Keys;
    while rest != {}
      invariant rest <= fields.Keys
      invariant result == map k | k in fields && k !in rest :: Sanitize(fields[k])
      decreases rest
    {
      var k :| k in rest;
      var value := SanitizeNode(fields[k]);
      result := result[k := value];
      rest := rest - {k};
    }
    assert result == SanitizedFields(fields);
    var nonNullType := TypeOf(result);
    if nonNullType.Some? {
      result := result["type" := nonNullType.value]["nullable" := VBool(true)];
    }
    for i := 0 to 2
      invariant i == 0 ==> result == CollapseType(SanitizedFields(fields))
      invariant i == 1 ==> result == CollapseUnion(CollapseType(SanitizedFields(fields)), "anyOf")
      invariant i == 2 ==>
                  result == CollapseUnion(CollapseUnion(CollapseType(SanitizedFields(fields)), "anyOf"), "oneOf")
    {
      result := CollapseUnionInPlace(result, ["anyOf", "oneOf"][i]);
    }
    CollapseIs(SanitizedFields(fields));
  }

  lemma CollapseIs(node: Fields)
    ensures Collapse(node) == CollapseUnion(CollapseUnion(CollapseType(node), "anyOf"), "oneOf")
  {
  }

  method SanitizeNode(node: Value) returns (r: Value)
    ensures r == Sanitize(node)
    decreases node, 1
  {
    hide Collapse;
    match node
    case VArray(items) =>
      var sanitized: seq<Value> := [];
      for i := 0 to |items|
        invariant |sanitized| == i && forall j :: 0 <= j < i ==> sanitized[j] == Sanitize(items[j])
      {
        var item := SanitizeNode(items[i]);
        sanitized := sanitized + [item];
      }
      return VArray(sanitized);
    case VObject(fields) =>
      var result := CollapseObjectNode(fields);
      return VObject(result);
    case _ =>
      return node;
  }

  // ---------------------------------------------------------------- normal forms

  // Nothing left to collapse at this node.
  predicate Collapsed(node: Fields) {
    TypeOf(node).None? && BranchOf(node, "anyOf").None? && BranchOf(node, "oneOf").None?
  }

  // Nothing left to collapse at any depth.
  ghost predicate Normal(node: Value) {
    match node
    case VArray(items) => forall i :: 0 <= i < |items| ==> Normal(items[i])
    case VObject(fields) => Collapsed(fields) && forall k :: k in fields ==> Normal(fields[k])
    case _ => true
  }

  ghost predicate NormalFields(fields: Fields) {
    forall k :: k in fields ==> Normal(fields[k])
  }

  // No `type` at any depth lists an array as one of its types.
  ghost predicate FlatTypes(node: Value) {
    match node
    case VArray(items) => forall i :: 0 <= i < |items| ==> FlatTypes(items[i])
    case VObject(fields) => FlatType(fields) && forall k :: k in fields ==> FlatTypes(fields[k])
    case _ => true
  }

  predicate FlatType(fields: Fields) {
    "type" in fields && fields["type"].VArray? ==> forall t :: t in fields["type"].items ==> !t.VArray?
  }

  lemma {:induction false} NonNullTypesMembers(types: seq<Value>)
    ensures forall t :: t in NonNullTypes(types) ==> t in types
  {
    if |types| > 0 {
      NonNullTypesMembers(types[1..]);
      assert types == [types[0]] + types[1..];
    }
  }

  lemma {:induction false} NonNullBranchesMembers(branches: seq<Value>)
    ensures forall b :: b in NonNullBranches(branches) ==> b in branches
  {
    if |branches| > 0 {
      NonNullBranchesMembers(branches[1..]);
      assert branches == [branches[0]] + branches[1..];
    }
  }

  // A surviving branch is one of the branches, so it is normal if they all are.
  lemma BranchIsNormal(node: Fields, key: string)
    requires NormalFields(node) && BranchOf(node, key).Some?
    ensures Normal(VObject(BranchOf(node, key).value))
  {
    var branches := node[key].items;
    NonNullBranchesMembers(branches);
    var b := NonNullBranches(branches)[0];
    assert b in branches;
    assert Normal(node[key]);
    hide NonNullBranches, Collapsed;
    var i :| 0 <= i < |branches| && branches[i] == b;
    assert Normal(branches[i]);
  }

  // Collapsing a union of normal branches leaves nothing to collapse under that key, even
  // when the branch brings a union of its own, and nothing new elsewhere.
  lemma CollapseUnionFacts(node: Fields, key: string, other: string)
    requires {key, other} == {"anyOf", "oneOf"} && NormalFields(node)
    ensures var r := CollapseUnion(node, key);
            && NormalFields(r) && BranchOf(r, key).None?
            && (BranchOf(node, other).None? ==> BranchOf(r, other).None?)
            && (TypeOf(node).None? ==> TypeOf(r).None?)
            && ("type" in node ==> "type" in r && r["type"] == node["type"])
  {
    if BranchOf(node, key).Some? {
      var branch, r := BranchOf(node, key).value, CollapseUnion(node, key);
      BranchIsNormal(node, key);
      assert Collapsed(branch) && NormalFields(branch);
      hide CollapsibleBranch, CollapsibleType, Normal;
      assert key in {key, other} && other in {key, other};
      assert key in r ==> key in branch && r[key] == branch[key];
      assert other in node ==> other in r && r[other] == node[other];
      assert "type" in node ==> "type" in r && r["type"] == node["type"];
      forall k | k in r ensures Normal(r[k]) {
        assert (k in node && r[k] == node[k]) || (k in branch && r[k] == branch[k]) || r[k] == VBool(true);
        BooleanIsNormal(true);
      }
    }
  }

  lemma BooleanIsNormal(b: bool)
    ensures Normal(VBool(b))
  {
  }

  lemma CollapseTypeFacts(node: Fields)
    requires NormalFields(node)
    ensures NormalFields(CollapseType(node))
    ensures BranchOf(CollapseType(node), "anyOf") == BranchOf(node, "anyOf")
    ensures BranchOf(CollapseType(node), "oneOf") == BranchOf(node, "oneOf")
  {
    if TypeOf(node).Some? {
      var types := node["type"].items;
      NonNullTypesMembers(types);
      hide CollapsibleBranch;
      assert Normal(node["type"]);
      var t := NonNullTypes(types)[0];
      assert t in types;
      hide NonNullTypes;
      var i :| 0 <= i < |types| && types[i] == t;
      assert Normal(types[i]);
    }
  }

  // The type that a node's nullable pair names is itself a nullable pair.
  predicate NestedPair(node: Fields) {
    TypeOf(node).Some? && TypeOf(node).value.VArray? && CollapsibleType(TypeOf(node).value.items).Some?
  }

  // A node with normal children collapses to a normal node exactly when its `type` is not a
  // nullable pair of which the other type is again a nullable pair.
  lemma CollapseIsNormal(node: Fields)
    requires NormalFields(node)
    ensures NormalFields(Collapse(node))
    ensures Normal(VObject(Collapse(node))) <==> !NestedPair(node)
  {
    var a := CollapseType(node);
    assert TypeOf(a).Some? <==> NestedPair(node);
    CollapseTypeFacts(node);
    hide CollapseUnion, CollapseType, NestedPair, CollapsibleBranch, CollapsibleType;
    var b := CollapseUnion(a, "anyOf");
    CollapseUnionFacts(a, "anyOf", "oneOf");
    CollapseUnionFacts(b, "oneOf", "anyOf");
    var c := CollapseUnion(b, "oneOf");
    if TypeOf(a).Some? {
      assert "type" in c && c["type"] == a["type"];
      assert TypeOf(c) == TypeOf(a);
    }
    NormalIs(c);
    hide NormalFields, BranchOf, TypeOf;
  }

  lemma NormalIs(fields: Fields)
    ensures Normal(VObject(fields)) <==> Collapsed(fields) && NormalFields(fields)
  {
    hide Collapsed;
  }

  lemma {:induction false} SanitizeKeepsKind(node: Value)
    ensures Sanitize(node).VArray? <==> node.VArray?
    ensures Sanitize(node).VObject? <==> node.VObject?
  {
  }

  // Flat types are not nested pairs, before and after the children are sanitized.
  lemma FlatIsNotNested(fields: Fields)
    requires FlatType(fields)
    ensures !NestedPair(SanitizedFields(fields))
  {
    var f := SanitizedFields(fields);
    if TypeOf(f).Some? {
      var types := f["type"].items;
      NonNullTypesMembers(types);
      assert TypeOf(f).value in types;
      assert fields["type"].VArray?;
      hide NonNullTypes;
      forall t | t in types ensures !t.VArray? {
        var i :| 0 <= i < |types| && types[i] == t;
        assert t == Sanitize(fields["type"].items[i]);
        SanitizeKeepsKind(fields["type"].items[i]);
      }
    }
  }

  // Sanitizing reaches a normal form at every depth.
  lemma {:induction false} SanitizeIsNormal(node: Value)
    requires FlatTypes(node)
    ensures Normal(Sanitize(node))
    decreases node
  {
    hide Collapse, Collapsed;
    match node
    case VArray(items) =>
      forall i | 0 <= i < |items| ensures Normal(Sanitize(items[i])) { SanitizeIsNormal(items[i]); }
    case VObject(fields) =>
      forall k | k in fields ensures Normal(Sanitize(fields[k])) { SanitizeIsNormal(fields[k]); }
      FlatIsNotNested(fields);
      CollapseIsNormal(SanitizedFields(fields));
      assert Sanitize(node) == VObject(Collapse(SanitizedFields(fields)));
    case _ =>
  }

  // A normal form is left alone.
  lemma {:induction false} NormalIsFixed(node: Value)
    requires Normal(node)
    ensures Sanitize(node) == node
    decreases node
  {
    match node
    case VArray(items) =>
      forall i | 0 <= i < |items| ensures Sanitize(items[i]) == items[i] { NormalIsFixed(items[i]); }
      assert Sanitize(node).items == items;
    case VObject(fields) =>
      forall k | k in fields ensures Sanitize(fields[k]) == fields[k] { NormalIsFixed(fields[k]); }
      assert SanitizedFields(fields) == fields;
      CollapsedIsFixed(fields);
      hide Collapse;
      assert Sanitize(node) == VObject(Collapse(SanitizedFields(fields)));
    case _ =>
  }

  lemma CollapsedIsFixed(node: Fields)
    requires Collapsed(node)
    ensures Collapse(node) == node
  {
  }

  // ---------------------------------------------------------------- unions are always collapsed

  // No collapsible union at any depth.
  ghost predicate UnionFree(node: Value) {
    match node
    case VArray(items) => forall i :: 0 <= i < |items| ==> UnionFree(items[i])
    case VObject(fields) =>
      BranchOf(fields, "anyOf").None? && BranchOf(fields, "oneOf").None?
      && forall k :: k in fields ==> UnionFree(fields[k])
    case _ => true
  }

  ghost predicate UnionFreeFields(fields: Fields) {
    forall k :: k in fields ==> UnionFree(fields[k])
  }

  lemma BranchIsUnionFree(node: Fields, key: string)
    requires UnionFreeFields(node) && BranchOf(node, key).Some?
    ensures UnionFree(VObject(BranchOf(node, key).value))
  {
    var branches := node[key].items;
    NonNullBranchesMembers(branches);
    var b := NonNullBranches(branches)[0];
    assert b in branches;
    assert UnionFree(node[key]);
    hide NonNullBranches;
    var i :| 0 <= i < |branches| && branches[i] == b;
    assert UnionFree(branches[i]);
  }

  lemma CollapseUnionFrees(node: Fields, key: string, other: string)
    requires {key, other} == {"anyOf", "oneOf"} && UnionFreeFields(node)
    ensures var r := CollapseUnion(node, key);
            && UnionFreeFields(r) && BranchOf(r, key).None?
            && BranchOf(r, other) == BranchOf(node, other)
  {
    assert key in {key, other} && other in {key, other};
    if BranchOf(node, key).Some? {
      var branch, r := BranchOf(node, key).value, CollapseUnion(node, key);
      BranchIsUnionFree(node, key);
      assert BranchOf(branch, key).None? && BranchOf(branch, other).None?;
      assert UnionFreeFields(branch);
      hide CollapsibleBranch, UnionFree;
      assert key in r ==> key in branch && r[key] == branch[key];
      assert other in node ==> other in r && r[other] == node[other];
      assert other !in node ==> (other in r <==> other in branch) && (other in r ==> r[other] == branch[other]);
      forall k | k in r ensures UnionFree(r[k]) {
        assert (k in node && r[k] == node[k]) || (k in branch && r[k] == branch[k]) || r[k] == VBool(true);
        AtomIsUnionFree(VBool(true));
      }
    }
  }

  lemma AtomIsUnionFree(v: Value)
    requires !v.VArray? && !v.VObject?
    ensures UnionFree(v)
  {
  }

  lemma CollapseTypeFrees(node: Fields)
    requires UnionFreeFields(node)
    ensures UnionFreeFields(CollapseType(node))
    ensures BranchOf(CollapseType(node), "anyOf") == BranchOf(node, "anyOf")
    ensures BranchOf(CollapseType(node), "oneOf") == BranchOf(node, "oneOf")
  {
    if TypeOf(node).Some? {
      var types := node["type"].items;
      NonNullTypesMembers(types);
      hide CollapsibleBranch;
      assert UnionFree(node["type"]);
      var t := NonNullTypes(types)[0];
      assert t in types;
      hide NonNullTypes;
      var i :| 0 <= i < |types| && types[i] == t;
      assert UnionFree(types[i]);
    }
  }

  lemma CollapseFrees(node: Fields)
    requires UnionFreeFields(node)
    ensures UnionFree(VObject(Collapse(node)))
    ensures BranchOf(CollapseUnion(CollapseType(node), "anyOf"), "oneOf") == BranchOf(node, "oneOf")
  {
    var a := CollapseType(node);
    var b := CollapseUnion(a, "anyOf");
    CollapseTypeFrees(node);
    CollapseUnionFrees(a, "anyOf", "oneOf");
    CollapseUnionFrees(b, "oneOf", "anyOf");
    hide CollapseUnion, CollapseType, BranchOf;
  }

  // After sanitizing, whatever the schema, no nullable union is left at any depth.
  lemma {:induction false} SanitizeFreesUnions(node: Value)
    ensures UnionFree(Sanitize(node))
    decreases node
  {
    hide Collapse, BranchOf;
    match node
    case VArray(items) =>
      forall i | 0 <= i < |items| ensures UnionFree(Sanitize(items[i])) { SanitizeFreesUnions(items[i]); }
    case VObject(fields) =>
      forall k | k in fields ensures UnionFree(Sanitize(fields[k])) { SanitizeFreesUnions(fields[k]); }
      CollapseFrees(SanitizedFields(fields));
      assert Sanitize(node) == VObject(Collapse(SanitizedFields(fields)));
    case _ =>
  }

  // ---------------------------------------------------------------- what survives

  function SanitizedItems(items: seq<Value>): (r: seq<Value>)
    ensures |r| == |items| && forall i :: 0 <= i < |items| ==> r[i] == Sanitize(items[i])
  {
    seq(|items|, i requires 0 <= i < |items| => Sanitize(items[i]))
  }

  lemma SanitizedText(v: Value, s: string)
    ensures Sanitize(v) == VStr(s) <==> v == VStr(s)
    ensures Sanitize(v) == VNull <==> v == VNull
  {
  }

  // Collapsing neither makes nor breaks a `{type: "null"}` schema.
  lemma CollapseKeepsNullSchema(node: Fields)
    ensures IsNullSchema(VObject(Collapse(node))) <==> IsNullSchema(VObject(node))
  {
    var a := CollapseType(node);
    TypeIsNotNull(node);
    UnionKeepsNullSchema(a, "anyOf");
    UnionKeepsNullSchema(CollapseUnion(a, "anyOf"), "oneOf");
    hide CollapseUnion, TypeOf;
  }

  lemma TypeIsNotNull(node: Fields)
    ensures TypeOf(node).Some? ==> TypeOf(node).value != TYPE_NULL
    ensures IsNullSchema(VObject(CollapseType(node))) <==> IsNullSchema(VObject(node))
  {
    if TypeOf(node).Some? { NonNullTypesAreNot(node["type"].items); }
  }

  lemma {:induction false} NonNullTypesAreNot(types: seq<Value>)
    ensures TYPE_NULL !in NonNullTypes(types)
  {
    if |types| > 0 { NonNullTypesAreNot(types[1..]); }
  }

  lemma {:induction false} NonNullBranchesAreNot(branches: seq<Value>)
    ensures forall b :: b in NonNullBranches(branches) ==> !IsNullSchema(b)
  {
    if |branches| > 0 { NonNullBranchesAreNot(branches[1..]); }
  }

  lemma UnionKeepsNullSchema(node: Fields, key: string)
    requires key == "anyOf" || key == "oneOf"
    ensures IsNullSchema(VObject(CollapseUnion(node, key))) <==> IsNullSchema(VObject(node))
  {
    if BranchOf(node, key).Some? {
      var branches := node[key].items;
      NonNullBranchesAreNot(branches);
      assert !IsNullSchema(NonNullBranches(branches)[0]);
      hide NonNullBranches;
    }
  }

  lemma SanitizeKeepsNullSchema(node: Value)
    ensures IsNullSchema(Sanitize(node)) <==> IsNullSchema(node)
  {
    if node.VObject? {
      CollapseKeepsNullSchema(SanitizedFields(node.fields));
      assert Sanitize(node) == VObject(Collapse(SanitizedFields(node.fields)));
      if "type" in node.fields { SanitizedText(node.fields["type"], "null"); }
      hide Collapse, Sanitize;
    }
  }

  lemma {:induction false} NonNullTypesOfSanitized(types: seq<Value>)
    ensures NonNullTypes(SanitizedItems(types)) == SanitizedItems(NonNullTypes(types))
  {
    hide Sanitize;
    if |types| > 0 {
      NonNullTypesOfSanitized(types[1..]);
      SanitizedText(types[0], "null");
      assert SanitizedItems(types)[1..] == SanitizedItems(types[1..]);
    }
  }

  lemma {:induction false} NonNullBranchesOfSanitized(branches: seq<Value>)
    ensures NonNullBranches(SanitizedItems(branches)) == SanitizedItems(NonNullBranches(branches))
  {
    hide Sanitize, IsNullSchema;
    if |branches| > 0 {
      NonNullBranchesOfSanitized(branches[1..]);
      SanitizeKeepsNullSchema(branches[0]);
      assert SanitizedItems(branches)[1..] == SanitizedItems(branches[1..]);
    }
  }

  lemma SanitizedArray(items: seq<Value>)
    ensures Sanitize(VArray(items)) == VArray(SanitizedItems(items))
  {
    assert Sanitize(VArray(items)).items == SanitizedItems(items);
  }

  function SanitizedOption(v: Option<Value>): Option<Value> {
    if v.None? then None else Some(Sanitize(v.value))
  }

  // Whether and to what a node's type collapses is decided by the node as it was given.
  lemma TypeOfSanitized(fields: Fields)
    ensures TypeOf(SanitizedFields(fields)) == SanitizedOption(TypeOf(fields))
  {
    if "type" in fields {
      SanitizeKeepsKind(fields["type"]);
      if fields["type"].VArray? {
        var types := fields["type"].items;
        SanitizedArray(types);
        NonNullTypesOfSanitized(types);
        SomeTextSanitized(types, "null");
        hide NonNullTypes;
        if |NonNullTypes(types)| == 1 { SanitizedText(NonNullTypes(types)[0], "null"); }
        hide Sanitize;
      }
    }
  }

  lemma SomeTextSanitized(items: seq<Value>, s: string)
    ensures VStr(s) in SanitizedItems(items) <==> VStr(s) in items
  {
    hide Sanitize;
    forall i | 0 <= i < |items|
      ensures SanitizedItems(items)[i] == VStr(s) <==> items[i] == VStr(s)
    {
      SanitizedText(items[i], s);
    }
    if VStr(s) in items {
      var i :| 0 <= i < |items| && items[i] == VStr(s);
      assert SanitizedItems(items)[i] == VStr(s);
    }
  }

  lemma SomeNullSanitized(branches: seq<Value>)
    ensures (exists b :: b in SanitizedItems(branches) && IsNullSchema(b))
            <==> exists b :: b in branches && IsNullSchema(b)
  {
    hide Sanitize, IsNullSchema;
    forall i | 0 <= i < |branches| ensures IsNullSchema(SanitizedItems(branches)[i]) <==> IsNullSchema(branches[i]) {
      SanitizeKeepsNullSchema(branches[i]);
    }
    if b :| b in branches && IsNullSchema(b) {
      var i :| 0 <= i < |branches| && branches[i] == b;
      assert SanitizedItems(branches)[i] in SanitizedItems(branches);
    }
    if b :| b in SanitizedItems(branches) && IsNullSchema(b) {
      var i :| 0 <= i < |branches| && SanitizedItems(branches)[i] == b;
      assert branches[i] in branches;
    }
  }

  // So is whether a union collapses; its surviving branch is collapsed before it is merged.
  lemma BranchOfSanitized(fields: Fields, key: string)
    ensures BranchOf(SanitizedFields(fields), key)
            == if BranchOf(fields, key).None? then None
              else Some(Collapse(SanitizedFields(BranchOf(fields, key).value)))
  {
    if key in fields {
      SanitizeKeepsKind(fields[key]);
      if fields[key].VArray? {
        var branches := fields[key].items;
        SanitizedArray(branches);
        NonNullBranchesOfSanitized(branches);
        SomeNullSanitized(branches);
        hide NonNullBranches, IsNullSchema, Collapse;
        var rest := NonNullBranches(branches);
        if |rest| == 1 {
          SanitizeKeepsKind(rest[0]);
          assert rest[0].VObject? ==> Sanitize(rest[0]) == VObject(Collapse(SanitizedFields(rest[0].fields)));
        }
      }
    }
  }

  lemma BranchIsSmaller(fields: Fields, key: string)
    requires BranchOf(fields, key).Some?
    ensures VObject(BranchOf(fields, key).value) < VObject(fields)
  {
    var branches := fields[key].items;
    NonNullBranchesMembers(branches);
    var b := NonNullBranches(branches)[0];
    assert b in branches;
    hide NonNullBranches;
    var i :| 0 <= i < |branches| && branches[i] == b;
    assert branches[i] < fields[key];
    assert fields[key] < VObject(fields);
  }

  // Where the parts of a collapsed node come from: every key with the part of the given
  // schema that its value is made from.
  function Surviving(fields: Fields): Fields
    decreases VObject(fields)
  {
    var any, one := BranchOf(fields, "anyOf"), BranchOf(fields, "oneOf");
    var a := CollapseType(fields);
    var b := if any.None? then a else (BranchIsSmaller(fields, "anyOf"); MergeUp(a, "anyOf", Surviving(any.value)));
    if one.None? then b else (BranchIsSmaller(fields, "oneOf"); MergeUp(b, "oneOf", Surviving(one.value)))
  }

  lemma MergeSanitized(node: Fields, key: string, branch: Fields)
    ensures MergeUp(SanitizedFields(node), key, SanitizedFields(branch)) == SanitizedFields(MergeUp(node, key, branch))
  {
    assert Sanitize(VBool(true)) == VBool(true);
    hide Sanitize;
  }

  lemma CollapseTypeSanitized(fields: Fields)
    ensures CollapseType(SanitizedFields(fields)) == SanitizedFields(CollapseType(fields))
  {
    TypeOfSanitized(fields);
    assert Sanitize(VBool(true)) == VBool(true);
    hide TypeOf, Sanitize;
  }

  // Sanitizing a node is sanitizing what survives of it: collapsing the sanitized children
  // and sanitizing the collapsed children is the same.
  lemma {:induction false} SanitizeSurviving(fields: Fields)
    ensures Collapse(SanitizedFields(fields)) == SanitizedFields(Surviving(fields))
    decreases VObject(fields)
  {
    var s, any, one := SanitizedFields(fields), BranchOf(fields, "anyOf"), BranchOf(fields, "oneOf");
    SanitizedAreUnionFree(fields);
    CollapseFrees(s);
    CollapseTypeFrees(s);
    BranchOfSanitized(fields, "anyOf");
    BranchOfSanitized(fields, "oneOf");
    CollapseTypeSanitized(fields);
    hide BranchOf, MergeUp, CollapseType, SanitizedFields, UnionFree, UnionFreeFields;
    var a := CollapseType(fields);
    if any.Some? {
      BranchIsSmaller(fields, "anyOf");
      SanitizeSurviving(any.value);
      MergeSanitized(a, "anyOf", Surviving(any.value));
    }
    if one.Some? {
      BranchIsSmaller(fields, "oneOf");
      SanitizeSurviving(one.value);
      MergeSanitized(if any.None? then a else MergeUp(a, "anyOf", Surviving(any.value)), "oneOf", Surviving(one.value));
    }
  }

  lemma SanitizedAreUnionFree(fields: Fields)
    ensures UnionFreeFields(SanitizedFields(fields))
  {
    hide Sanitize, UnionFree;
    forall k | k in fields ensures UnionFree(Sanitize(fields[k])) { SanitizeFreesUnions(fields[k]); }
  }

  // ---------------------------------------------------------------- one pass is enough exactly when

  predicate Compound(v: Value) {
    v.VArray? || v.VObject?
  }

  // Every array or object that survives is a proper part of the node.
  lemma {:induction false} SurvivingIsSmaller(fields: Fields, k: string)
    requires k in Surviving(fields) && Compound(Surviving(fields)[k])
    ensures Surviving(fields)[k] < VObject(fields)
    decreases VObject(fields)
  {
    var any, one := BranchOf(fields, "anyOf"), BranchOf(fields, "oneOf");
    CollapseTypeIsSmaller(fields);
    if any.Some? {
      BranchIsSmaller(fields, "anyOf");
      if k in Surviving(any.value) && Compound(Surviving(any.value)[k]) { SurvivingIsSmaller(any.value, k); }
    }
    if one.Some? {
      BranchIsSmaller(fields, "oneOf");
      if k in Surviving(one.value) && Compound(Surviving(one.value)[k]) { SurvivingIsSmaller(one.value, k); }
    }
    hide BranchOf, CollapseType;
  }

  lemma CollapseTypeIsSmaller(fields: Fields)
    ensures forall k :: k in CollapseType(fields) && Compound(CollapseType(fields)[k]) ==>
             CollapseType(fields)[k] < VObject(fields)
  {
    if TypeOf(fields).Some? {
      var types := fields["type"].items;
      NonNullTypesMembers(types);
      var t := NonNullTypes(types)[0];
      assert t in types;
      hide NonNullTypes;
      var i :| 0 <= i < |types| && types[i] == t;
      assert types[i] < fields["type"] && fields["type"] < VObject(fields);
    }
  }

  // In what survives, no type is still a nullable pair once its own pair was collapsed.
  ghost predicate Clean(node: Value) {
    match node
    case VArray(items) => forall i :: 0 <= i < |items| ==> Clean(items[i])
    case VObject(fields) =>
      && TypeOf(Surviving(fields)).None?
      && forall k :: k in Surviving(fields) && Compound(Surviving(fields)[k]) ==>
           (SurvivingIsSmaller(fields, k); Clean(Surviving(fields)[k]))
    case _ => true
  }

  ghost predicate CleanFields(fields: Fields) {
    forall k :: k in fields && Compound(fields[k]) ==> Clean(fields[k])
  }

  // A sanitized schema is in normal form exactly when the schema was clean.
  lemma {:induction false} NormalExactly(node: Value)
    ensures Normal(Sanitize(node)) <==> Clean(node)
    decreases node
  {
    match node
    case VArray(items) =>
      hide Clean;
      SanitizedArray(items);
      forall i | 0 <= i < |items| ensures Normal(Sanitize(items[i])) <==> Clean(items[i]) { NormalExactly(items[i]); }
      assert Clean(node) <==> forall i :: 0 <= i < |items| ==> Clean(items[i]) by { CleanArray(items); }
    case VObject(fields) =>
      var s := Surviving(fields);
      SanitizeSurviving(fields);
      SanitizeFreesUnions(node);
      assert Sanitize(node) == VObject(SanitizedFields(s));
      forall k | k in s && Compound(s[k]) ensures Normal(Sanitize(s[k])) <==> Clean(s[k]) {
        SurvivingIsSmaller(fields, k);
        NormalExactly(s[k]);
      }
      hide Clean, Surviving, Sanitize;
      NormalFieldsExactly(s);
      CleanObject(fields);
    case _ =>
  }

  lemma CleanArray(items: seq<Value>)
    ensures Clean(VArray(items)) <==> forall i :: 0 <= i < |items| ==> Clean(items[i])
  {
  }

  lemma CleanObject(fields: Fields)
    ensures Clean(VObject(fields)) <==> TypeOf(Surviving(fields)).None? && CleanFields(Surviving(fields))
  {
    hide Surviving, TypeOf;
  }

  lemma NormalFieldsExactly(s: Fields)
    requires forall k :: k in s && Compound(s[k]) ==> (Normal(Sanitize(s[k])) <==> Clean(s[k]))
    requires BranchOf(SanitizedFields(s), "anyOf").None? && BranchOf(SanitizedFields(s), "oneOf").None?
    ensures Normal(VObject(SanitizedFields(s))) <==> TypeOf(s).None? && CleanFields(s)
  {
    TypeOfSanitized(s);
    SanitizedChildren(s);
    hide TypeOf, BranchOf, Clean, Sanitize, SanitizedFields, NormalFields, CleanFields, UnionFree;
    NormalIs(SanitizedFields(s));
  }

  lemma SanitizedChildren(s: Fields)
    requires forall k :: k in s && Compound(s[k]) ==> (Normal(Sanitize(s[k])) <==> Clean(s[k]))
    ensures NormalFields(SanitizedFields(s)) <==> CleanFields(s)
  {
    hide Sanitize, Normal, Clean;
    forall k | k in s ensures SanitizedFields(s)[k] == Sanitize(s[k]) && (Compound(s[k]) || Normal(Sanitize(s[k]))) {
      if !Compound(s[k]) { AtomIsNormal(s[k]); }
    }
    if CleanFields(s) {
      forall k | k in s ensures Normal(SanitizedFields(s)[k]) { assert Compound(s[k]) ==> Clean(s[k]); }
    }
    if NormalFields(SanitizedFields(s)) {
      forall k | k in s && Compound(s[k]) ensures Clean(s[k]) { assert Normal(SanitizedFields(s)[k]); }
    }
  }

  lemma AtomIsNormal(v: Value)
    requires !Compound(v)
    ensures Normal(Sanitize(v))
  {
  }

  // No element of an array becomes that array.
  lemma {:induction false} NoElementBecomes(v: Value, x: Value)
    requires v.VArray? && x in v.items
    ensures Sanitize(x) != v
    decreases v
  {
    if Sanitize(x) == v {
      SanitizeKeepsKind(x);
      SanitizedArray(x.items);
      var i :| 0 <= i < |v.items| && v.items[i] == x;
      assert x.items[i] in x.items && Sanitize(x.items[i]) == x;
      NoElementBecomes(x, x.items[i]);
    }
  }

  // What collapses is changed by collapsing.
  lemma CollapsedTypeChanges(fields: Fields)
    requires TypeOf(fields).Some?
    ensures Sanitize(TypeOf(fields).value) != fields["type"]
  {
    NonNullTypesMembers(fields["type"].items);
    NoElementBecomes(fields["type"], TypeOf(fields).value);
  }

  // Conversely, a schema that sanitizing leaves alone is in normal form.
  lemma {:induction false} FixedIsNormal(node: Value)
    requires Sanitize(node) == node
    ensures Normal(node)
    decreases node
  {
    match node
    case VArray(items) =>
      SanitizedArray(items);
      forall i | 0 <= i < |items| ensures Normal(items[i]) { FixedIsNormal(items[i]); }
    case VObject(fields) =>
      SanitizeFreesUnions(node);
      SanitizeSurviving(fields);
      assert fields == SanitizedFields(Surviving(fields));
      FixedFields(fields);
      forall k | k in fields ensures Normal(fields[k]) { FixedIsNormal(fields[k]); }
    case _ =>
  }

  lemma FixedFields(fields: Fields)
    requires BranchOf(fields, "anyOf").None? && BranchOf(fields, "oneOf").None?
    requires "type" in fields ==> "type" in Surviving(fields) && fields["type"] == Sanitize(Surviving(fields)["type"])
    ensures TypeOf(fields).None? && Surviving(fields) == fields
  {
    hide BranchOf;
    assert Surviving(fields) == CollapseType(fields);
    if TypeOf(fields).Some? { CollapsedTypeChanges(fields); }
  }

  // One pass is enough exactly for clean schemas.
  lemma SanitizeTwice(node: Value)
    ensures Sanitize(Sanitize(node)) == Sanitize(node) <==> Clean(node)
  {
    NormalExactly(node);
    var r := Sanitize(node);
    hide Sanitize, Clean, Normal;
    if Normal(r) { NormalIsFixed(r); }
    if Sanitize(r) == r { FixedIsNormal(r); }
  }

  // A schema whose types list only texts is clean.
  lemma FlatTypesAreClean(node: Value)
    requires FlatTypes(node)
    ensures Clean(node)
  {
    SanitizeIsNormal(node);
    NormalExactly(node);
  }

  // What survives of a tool's parameters, whose combinators are dropped, is clean.
  ghost predicate CleanParameters(params: Fields) {
    var s := StripTopLevel(Surviving(params));
    TypeOf(s).None? && CleanFields(s)
  }

  // The root keeps everything but the combinators.
  ghost predicate RootKeeps(whole: Fields, r: Fields) {
    && (forall k :: k in r <==> k in whole && k !in {"allOf", "anyOf", "oneOf", "enum", "not"})
    && (forall k :: k in r ==> r[k] == whole[k])
  }

  lemma StrippedRootKeeps(params: Fields)
    ensures RootKeeps(Collapse(SanitizedFields(params)), SanitizeToolParameters(params))
  {
    hide Collapse;
  }

  // For every schema: no combinator is left at the root and no nullable union anywhere. The
  // result is in normal form, and sanitizing it again changes nothing, exactly when the
  // parameters were clean.
  lemma SanitizedParameters(params: Fields)
    ensures var r := SanitizeToolParameters(params);
            && RootKeeps(Collapse(SanitizedFields(params)), r)
            && UnionFree(VObject(r))
            && (Normal(VObject(r)) <==> CleanParameters(params))
            && (SanitizeToolParameters(r) == r <==> CleanParameters(params))
  {
    var s := StripTopLevel(Surviving(params));
    var r := SanitizeToolParameters(params);
    SanitizeSurviving(params);
    StrippedRootKeeps(params);
    hide RootKeeps, Collapse;
    assert r == SanitizedFields(s);
    RootIsStripped(s);
    forall k | k in s && Compound(s[k]) ensures Normal(Sanitize(s[k])) <==> Clean(s[k]) { NormalExactly(s[k]); }
    SanitizedAreUnionFree(s);
    NormalFieldsExactly(s);
    hide Sanitize, Clean, Normal, Surviving, TypeOf, BranchOf;
    assert UnionFree(VObject(r)) && Stripped(r);
    if Normal(VObject(r)) { NormalParametersAreFixed(r); }
    if SanitizeToolParameters(r) == r { FixedParametersAreNormal(r); }
  }

  predicate Stripped(node: Fields) {
    forall k :: k in TOP_LEVEL_COMBINATORS ==> k !in node
  }

  lemma RootIsStripped(s: Fields)
    requires Stripped(s)
    ensures BranchOf(SanitizedFields(s), "anyOf").None? && BranchOf(SanitizedFields(s), "oneOf").None?
  {
    assert "anyOf" in TOP_LEVEL_COMBINATORS && "oneOf" in TOP_LEVEL_COMBINATORS;
  }

  lemma NormalParametersAreFixed(r: Fields)
    requires Normal(VObject(r)) && Stripped(r)
    ensures SanitizeToolParameters(r) == r
  {
    NormalIsFixed(VObject(r));
    assert Sanitize(VObject(r)) == VObject(Collapse(SanitizedFields(r)));
    hide Collapse, Sanitize, Normal;
    assert StripTopLevel(r) == r;
  }

  lemma FixedParametersAreNormal(r: Fields)
    requires Stripped(r) && SanitizeToolParameters(r) == r
    ensures Normal(VObject(r))
  {
    assert "anyOf" in TOP_LEVEL_COMBINATORS && "oneOf" in TOP_LEVEL_COMBINATORS && "type" !in TOP_LEVEL_COMBINATORS;
    SanitizeSurviving(r);
    var s := Surviving(r);
    assert r == StripTopLevel(SanitizedFields(s));
    FixedFields(r);
    hide Sanitize, Surviving, TypeOf;
    forall k | k in r ensures Normal(r[k]) { FixedIsNormal(r[k]); }
  }

  // ---------------------------------------------------------------- one node

  // What collapsing leaves alone and what it adds: the node's own keys other than the
  // collapsed ones keep their values, the surviving branch brings all its other keys, and
  // every new key comes from a surviving branch.
  lemma CollapseKeepsOwnKeys(node: Fields, k: string)
    requires k !in {"type", "anyOf", "oneOf", "nullable"}
    ensures k in node ==> k in Collapse(node) && Collapse(node)[k] == node[k]
    ensures k !in node && BranchOf(node, "anyOf").Some? && k in BranchOf(node, "anyOf").value ==>
              k in Collapse(node) && Collapse(node)[k] == BranchOf(node, "anyOf").value[k]
    ensures var merged := CollapseUnion(CollapseType(node), "anyOf");
            k !in merged && BranchOf(merged, "oneOf").Some? && k in BranchOf(merged, "oneOf").value ==>
              k in Collapse(node) && Collapse(node)[k] == BranchOf(merged, "oneOf").value[k]
    ensures k !in node && k in Collapse(node) ==>
              || (BranchOf(node, "anyOf").Some? && k in BranchOf(node, "anyOf").value
                  && Collapse(node)[k] == BranchOf(node, "anyOf").value[k])
              || var merged := CollapseUnion(CollapseType(node), "anyOf");
                 && BranchOf(merged, "oneOf").Some? && k in BranchOf(merged, "oneOf").value
                 && Collapse(node)[k] == BranchOf(merged, "oneOf").value[k]
  {
    hide CollapsibleBranch, CollapsibleType;
  }

  // A nullable union tells the backend so.
  lemma CollapsedUnionIsNullable(node: Fields)
    ensures TypeOf(node).Some? || BranchOf(node, "anyOf").Some? || BranchOf(node, "oneOf").Some? ==>
              "nullable" in Collapse(node) && Collapse(node)["nullable"] == VBool(true)
  {
    hide CollapsibleBranch, CollapsibleType;
    var a := CollapseType(node);
    var b := CollapseUnion(a, "anyOf");
    assert BranchOf(a, "oneOf") == BranchOf(node, "oneOf") && BranchOf(a, "anyOf") == BranchOf(node, "anyOf");
    assert "oneOf" in node ==> "oneOf" in b && b["oneOf"] == node["oneOf"];
    assert "nullable" in b && b["nullable"] == VBool(true) ==>
             "nullable" in CollapseUnion(b, "oneOf") && CollapseUnion(b, "oneOf")["nullable"] == VBool(true);
  }

  // A type list whose second type is again a nullable pair is not normalized in one pass:
  // sanitizing the result once more changes it.
  lemma NestedTypesNeedTwoPasses()
    ensures var pair := VArray([VStr("string"), TYPE_NULL]);
            var params: Fields := map["type" := VArray([pair, TYPE_NULL])];
            && SanitizeToolParameters(params) == map["type" := pair, "nullable" := VBool(true)]
            && SanitizeToolParameters(SanitizeToolParameters(params))
               == map["type" := VStr("string"), "nullable" := VBool(true)]
  {
    var pair := VArray([VStr("string"), TYPE_NULL]);
    var outer := VArray([pair, TYPE_NULL]);
    assert Sanitize(VStr("string")) == VStr("string") && Sanitize(TYPE_NULL) == TYPE_NULL;
    assert Sanitize(pair).items == pair.items;
    assert Sanitize(outer).items == outer.items;
    PairCollapses(pair);
    PairCollapses(VStr("string"));
    TypeOnly(map["type" := outer], pair);
    var first: Fields := map["type" := pair, "nullable" := VBool(true)];
    TypeOnly(first, VStr("string"));
    hide CollapsibleType, Collapse;
    assert SanitizedFields(map["type" := outer]) == map["type" := outer];
    assert SanitizedFields(first) == first;
  }

  lemma PairCollapses(t: Value)
    requires t != TYPE_NULL && t != VNull
    ensures CollapsibleType([t, TYPE_NULL]) == Some(t)
  {
    assert [TYPE_NULL][1..] == [] && [t, TYPE_NULL][1..] == [TYPE_NULL];
    assert NonNullTypes([TYPE_NULL]) == [];
    assert NonNullTypes([t, TYPE_NULL]) == [t];
  }

  // A schema that consists of a nullable pair.
  lemma TypeOnly(node: Fields, t: Value)
    requires "type" in node && node["type"] == VArray([t, TYPE_NULL]) && CollapsibleType([t, TYPE_NULL]) == Some(t)
    requires forall k :: k in node ==> k == "type" || k == "nullable"
    ensures StripTopLevel(Collapse(node)) == map["type" := t, "nullable" := VBool(true)]
  {
    hide CollapsibleType, CollapsibleBranch;
    assert "anyOf" !in node && "oneOf" !in node;
    assert Collapse(node) == node["type" := t]["nullable" := VBool(true)];
  }
}
