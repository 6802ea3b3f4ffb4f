// What a schema accepts, and that rewriting it keeps that
// (packages/codex-proxy/src/schema-sanitizer.ts).
module SchemaMeaning {
  import opened Wrappers
  import opened Json
  import opened SchemaSanitizer

  // How the named types and the keywords without sub-schemas are read.
  datatype Reading = Reading(kind: (string, Value) -> bool, other: (string, Value, Value) -> bool)

  // Keywords that demand nothing of a value.
  const ANNOTATIONS: set<string> := {"description", "title", "default", "examples", "$comment"}

  ghost predicate Sensible(m: Reading) {
    && (forall v :: m.kind("null", v) <==> v == VNull)
    && forall key, x, v :: key in ANNOTATIONS ==> m.other(key, x, v)
  }

  // The types that `type` names, one or a list.
  ghost predicate Allows(m: Reading, t: Value, v: Value) {
    match t
    case VStr(name) => m.kind(name, v)
    case VArray(items) => exists i :: 0 <= i < |items| && Allows(m, items[i], v)
    case _ => false
  }

  predicate Nullable(fields: Fields) {
    "nullable" in fields && fields["nullable"] == VBool(true)
  }

  // A nullable schema accepts null; apart from that a value must meet every keyword.
  ghost predicate Accepts(m: Reading, schema: Value, v: Value)
    decreases schema, 0
  {
    match schema
    case VBool(b) => b
    case VObject(fields) => (Nullable(fields) && v.VNull?) || forall k :: k in fields ==> Demands(m, k, fields[k], v)
    case _ => false
  }

  ghost predicate Demands(m: Reading, key: string, x: Value, v: Value)
    decreases x, 1
  {
    if key == "nullable" then true
    else if key == "type" then Allows(m, x, v)
    else if key == "anyOf" && x.VArray? then exists i :: 0 <= i < |x.items| && Accepts(m, x.items[i], v)
    else if key == "oneOf" && x.VArray? then
      exists i :: 0 <= i < |x.items| && Accepts(m, x.items[i], v)
                  && forall j :: 0 <= j < |x.items| && j != i ==> !Accepts(m, x.items[j], v)
    else if key == "allOf" && x.VArray? then forall i :: 0 <= i < |x.items| ==> Accepts(m, x.items[i], v)
    else if key == "not" then !Accepts(m, x, v)
    else if key == "items" then v.VArray? ==> forall i :: 0 <= i < |v.items| ==> Accepts(m, x, v.items[i])
    else if key == "properties" && x.VObject? then
      v.VObject? ==> forall p :: p in x.fields && p in v.fields ==> Accepts(m, x.fields[p], v.fields[p])
    else m.other(key, x, v)
  }

  ghost predicate Meets(m: Reading, fields: Fields, v: Value) {
    forall k :: k in fields ==> Demands(m, k, fields[k], v)
  }

  lemma AcceptsIsMeets(m: Reading, fields: Fields, v: Value)
    ensures Accepts(m, VObject(fields), v) <==> (Nullable(fields) && v.VNull?) || Meets(m, fields, v)
  {
    hide Demands;
  }

  // ---------------------------------------------------------------- collapsing a type

  lemma PairAllows(m: Reading, types: seq<Value>, t: Value, v: Value)
    requires Sensible(m) && CollapsibleType(types) == Some(t) && !v.VNull?
    ensures Allows(m, VArray(types), v) <==> Allows(m, t, v)
  {
    CollapsibleTypeMeans(types, t);
    var i: nat :| AloneAt(types, t, i);
    assert forall j :: 0 <= j < |types| && j != i ==> !Allows(m, types[j], v);
  }

  // Collapsing a nullable pair adds null to what the node accepts, and nothing else.
  lemma CollapsedTypeAccepts(m: Reading, node: Fields, v: Value)
    requires Sensible(m)
    ensures Accepts(m, VObject(CollapseType(node)), v)
            <==> Accepts(m, VObject(node), v) || (TypeOf(node).Some? && v.VNull?)
  {
    var r := CollapseType(node);
    AcceptsIsMeets(m, node, v);
    AcceptsIsMeets(m, r, v);
    if TypeOf(node).Some? && !v.VNull? {
      PairAllows(m, node["type"].items, TypeOf(node).value, v);
      forall k | k in r && k in node ensures Demands(m, k, r[k], v) <==> Demands(m, k, node[k], v) {}
      assert r.Keys == node.Keys + {"nullable"};
      assert Demands(m, "nullable", VBool(true), v);
      hide Demands, Accepts, TypeOf;
    }
  }

  // ---------------------------------------------------------------- collapsing a union

  ghost predicate OnlyAt(branches: seq<Value>, b: Value, i: nat) {
    i < |branches| && branches[i] == b && forall j :: 0 <= j < |branches| && j != i ==> IsNullSchema(branches[j])
  }

  lemma {:induction false} NoNonNullBranch(branches: seq<Value>)
    requires NonNullBranches(branches) == []
    ensures forall j :: 0 <= j < |branches| ==> IsNullSchema(branches[j])
  {
    if |branches| > 0 { NoNonNullBranch(branches[1..]); }
  }

  lemma {:induction false} OneNonNullBranch(branches: seq<Value>, b: Value) returns (i: nat)
    requires NonNullBranches(branches) == [b]
    ensures OnlyAt(branches, b, i)
  {
    var rest := branches[1..];
    assert forall j :: 0 <= j < |rest| ==> rest[j] == branches[j + 1];
    if IsNullSchema(branches[0]) {
      assert NonNullBranches(branches) == NonNullBranches(rest);
      var k := OneNonNullBranch(rest, b);
      i := k + 1;
      forall j | 0 <= j < |branches| && j != i ensures IsNullSchema(branches[j]) {
        if j > 0 { assert rest[j - 1] == branches[j]; }
      }
    } else {
      assert NonNullBranches(branches) == [branches[0]] + NonNullBranches(rest);
      assert ([branches[0]] + NonNullBranches(rest))[0] == branches[0] && |NonNullBranches(rest)| == 0;
      NoNonNullBranch(rest);
      i := 0;
    }
  }

  lemma NullSchemaAccepts(m: Reading, schema: Value, v: Value)
    requires Sensible(m) && IsNullSchema(schema) && !v.VNull?
    ensures !Accepts(m, schema, v)
  {
    AcceptsIsMeets(m, schema.fields, v);
    assert !Demands(m, "type", schema.fields["type"], v);
    hide Demands;
  }

  // On values other than null, a nullable union demands what its surviving branch does.
  lemma UnionDemands(m: Reading, node: Fields, key: string, v: Value)
    requires Sensible(m) && (key == "anyOf" || key == "oneOf") && BranchOf(node, key).Some? && !v.VNull?
    ensures Demands(m, key, node[key], v) <==> Accepts(m, VObject(BranchOf(node, key).value), v)
  {
    var branches, b := node[key].items, VObject(BranchOf(node, key).value);
    assert NonNullBranches(branches) == [b];
    var i := OneNonNullBranch(branches, b);
    hide NonNullBranches, BranchOf;
    forall j | 0 <= j < |branches| && j != i ensures !Accepts(m, branches[j], v) {
      NullSchemaAccepts(m, branches[j], v);
    }
    hide Accepts, IsNullSchema;
  }

  // Where the branch repeats a keyword of the node, it repeats its value, or the keyword
  // demands nothing.
  predicate Agrees(node: Fields, key: string, branch: Fields) {
    forall k :: k in branch && k in node && k != key ==> branch[k] == node[k] || k in ANNOTATIONS || k == "nullable"
  }

  lemma FreeKeywords(m: Reading, k: string, x: Value, v: Value)
    requires Sensible(m) && (k in ANNOTATIONS || k == "nullable")
    ensures Demands(m, k, x, v)
  {
  }

  // A merged node keeps the node's other keywords, and adds those of the branch that the
  // node does not have.
  lemma MergedMeets(m: Reading, node: Fields, key: string, branch: Fields, v: Value)
    requires Sensible(m) && key != "nullable"
    ensures Meets(m, MergeUp(node, key, branch), v) <==>
              && (forall k :: k in node && k != key ==> Demands(m, k, node[k], v))
              && (forall k :: k in branch && (k !in node || k == key) ==> Demands(m, k, branch[k], v))
  {
    var r := MergeUp(node, key, branch);
    hide Demands, Sensible;
    forall x ensures Demands(m, "nullable", x, v) { FreeKeywords(m, "nullable", x, v); }
    if Meets(m, r, v) {
      forall k | k in node && k != key ensures Demands(m, k, node[k], v) {
        assert k in r && (k == "nullable" || r[k] == node[k]);
      }
      forall k | k in branch && (k !in node || k == key) ensures Demands(m, k, branch[k], v) {
        assert k in r && (k == "nullable" || r[k] == branch[k]);
      }
    }
    if (forall k :: k in node && k != key ==> Demands(m, k, node[k], v))
       && (forall k :: k in branch && (k !in node || k == key) ==> Demands(m, k, branch[k], v)) {
      forall k | k in r ensures Demands(m, k, r[k], v) {
        assert k == "nullable" || (k in node && k != key && r[k] == node[k])
               || (k in branch && (k !in node || k == key) && r[k] == branch[k]);
      }
    }
  }

  lemma CollapsedUnionAcceptsNull(m: Reading, node: Fields, key: string)
    requires BranchOf(node, key).Some?
    ensures Accepts(m, VObject(CollapseUnion(node, key)), VNull)
  {
    AcceptsIsMeets(m, CollapseUnion(node, key), VNull);
    hide Accepts, BranchOf;
  }

  lemma NonNullMeets(m: Reading, fields: Fields, v: Value)
    requires !v.VNull?
    ensures Accepts(m, VObject(fields), v) <==> Meets(m, fields, v)
  {
    AcceptsIsMeets(m, fields, v);
  }

  lemma MergedAccepts(m: Reading, node: Fields, key: string, v: Value)
    requires Sensible(m) && (key == "anyOf" || key == "oneOf") && BranchOf(node, key).Some? && !v.VNull?
    ensures var branch := BranchOf(node, key).value;
            && (Accepts(m, VObject(node), v) ==> Accepts(m, VObject(MergeUp(node, key, branch)), v))
            && (Agrees(node, key, branch) ==>
                  (Accepts(m, VObject(node), v) <==> Accepts(m, VObject(MergeUp(node, key, branch)), v)))
  {
    var branch := BranchOf(node, key).value;
    UnionDemands(m, node, key, v);
    MergedMeets(m, node, key, branch, v);
    NonNullMeets(m, node, v);
    NonNullMeets(m, branch, v);
    NonNullMeets(m, MergeUp(node, key, branch), v);
    assert key in node;
    hide Accepts, BranchOf, MergeUp, Demands, Agrees;
    if Agrees(node, key, branch) && Meets(m, MergeUp(node, key, branch), v) {
      RepeatedDemands(m, node, key, branch, v);
    }
  }

  // Merging the surviving branch loses nothing that was accepted, adds null, and adds nothing
  // else if the branch and the node agree.
  lemma CollapsedUnionAccepts(m: Reading, node: Fields, key: string, v: Value)
    requires Sensible(m) && (key == "anyOf" || key == "oneOf")
    ensures Accepts(m, VObject(node), v) || (BranchOf(node, key).Some? && v.VNull?)
            ==> Accepts(m, VObject(CollapseUnion(node, key)), v)
    ensures (BranchOf(node, key).Some? ==> Agrees(node, key, BranchOf(node, key).value))
            ==> (Accepts(m, VObject(CollapseUnion(node, key)), v)
                 <==> Accepts(m, VObject(node), v) || (BranchOf(node, key).Some? && v.VNull?))
  {
    if BranchOf(node, key).Some? {
      if v.VNull? { CollapsedUnionAcceptsNull(m, node, key); } else { MergedAccepts(m, node, key, v); }
      hide Accepts, BranchOf, MergeUp, Agrees;
    }
  }

  lemma RepeatedDemands(m: Reading, node: Fields, key: string, branch: Fields, v: Value)
    requires Sensible(m) && Agrees(node, key, branch)
    requires forall k :: k in node && k != key ==> Demands(m, k, node[k], v)
    requires forall k :: k in branch && (k !in node || k == key) ==> Demands(m, k, branch[k], v)
    ensures Meets(m, branch, v)
  {
    hide Demands;
    forall k | k in branch ensures Demands(m, k, branch[k], v) {
      if k in ANNOTATIONS || k == "nullable" { FreeKeywords(m, k, branch[k], v); }
    }
  }

  // ---------------------------------------------------------------- collapsing a node

  // Where a surviving branch is merged into a node, the two agree.
  predicate NodeAgrees(node: Fields) {
    var a := CollapseType(node);
    var b := CollapseUnion(a, "anyOf");
    && (BranchOf(a, "anyOf").Some? ==> Agrees(a, "anyOf", BranchOf(a, "anyOf").value))
    && (BranchOf(b, "oneOf").Some? ==> Agrees(b, "oneOf", BranchOf(b, "oneOf").value))
  }

  // Something of the node collapses.
  predicate Collapses(node: Fields) {
    || TypeOf(node).Some? || BranchOf(CollapseType(node), "anyOf").Some?
    || BranchOf(CollapseUnion(CollapseType(node), "anyOf"), "oneOf").Some?
  }

  // Whatever a node accepts it accepts when it is collapsed, and null if anything was; no
  // other value is added where the branches that are merged agree with the node.
  lemma CollapsedAccepts(m: Reading, node: Fields, v: Value)
    requires Sensible(m)
    ensures Accepts(m, VObject(node), v) || (Collapses(node) && v.VNull?) ==> Accepts(m, VObject(Collapse(node)), v)
    ensures NodeAgrees(node) ==>
              (Accepts(m, VObject(Collapse(node)), v)
               <==> Accepts(m, VObject(node), v) || (Collapses(node) && v.VNull?))
  {
    var a := CollapseType(node);
    var b := CollapseUnion(a, "anyOf");
    CollapsedTypeAccepts(m, node, v);
    CollapsedUnionAccepts(m, a, "anyOf", v);
    CollapsedUnionAccepts(m, b, "oneOf", v);
    hide Accepts, TypeOf, BranchOf, CollapseType, CollapseUnion, Agrees;
  }

  // So a node whose branches agree keeps its meaning exactly when nothing collapses or it
  // accepts null.
  lemma CollapseKeepsMeaning(m: Reading, node: Fields)
    requires Sensible(m) && NodeAgrees(node)
    ensures (forall v :: Accepts(m, VObject(Collapse(node)), v) <==> Accepts(m, VObject(node), v))
            <==> !Collapses(node) || Accepts(m, VObject(node), VNull)
  {
    forall v
      ensures Accepts(m, VObject(Collapse(node)), v) <==> Accepts(m, VObject(node), v) || (Collapses(node) && v.VNull?)
    {
      CollapsedAccepts(m, node, v);
    }
    hide Accepts, Collapses, Collapse, NodeAgrees;
    assert Accepts(m, VObject(Collapse(node)), VNull) <==> Accepts(m, VObject(node), VNull) || Collapses(node);
  }

  // ---------------------------------------------------------------- sanitizing a schema

  // At every node the branches that are merged agree with it, and null is accepted if
  // something collapses; property names do not look like a nullable union, and neither does
  // anything in keywords that hold data.
  ghost predicate Plain(m: Reading, schema: Value)
    decreases schema, 0
  {
    schema.VObject? ==>
      && (forall k :: k in schema.fields ==> PlainKeyword(m, k, schema.fields[k]))
      && NodeAgrees(SanitizedFields(schema.fields))
      && (Collapses(SanitizedFields(schema.fields)) ==> Accepts(m, schema, VNull))
  }

  ghost predicate PlainKeyword(m: Reading, key: string, x: Value)
    decreases x, 1
  {
    if key == "nullable" || key == "type" then true
    else if (key == "anyOf" || key == "oneOf" || key == "allOf") && x.VArray? then
      forall i :: 0 <= i < |x.items| ==> Plain(m, x.items[i])
    else if key == "not" || key == "items" then Plain(m, x)
    else if key == "properties" && x.VObject? then
      !Collapses(SanitizedFields(x.fields)) && forall p :: p in x.fields ==> Plain(m, x.fields[p])
    else Sanitize(x) == x
  }

  lemma {:induction false} SanitizedAllows(m: Reading, t: Value, v: Value)
    ensures Allows(m, Sanitize(t), v) <==> Allows(m, t, v)
  {
    SanitizeKeepsKind(t);
    if t.VArray? {
      SanitizedArray(t.items);
      forall i | 0 <= i < |t.items| ensures Allows(m, Sanitize(t.items[i]), v) <==> Allows(m, t.items[i], v) {
        SanitizedAllows(m, t.items[i], v);
      }
      hide Sanitize;
    }
  }

  lemma NothingCollapses(node: Fields)
    requires !Collapses(node)
    ensures Collapse(node) == node
  {
    hide TypeOf, BranchOf;
  }

  lemma SanitizedNullable(fields: Fields)
    ensures Nullable(SanitizedFields(fields)) <==> Nullable(fields)
  {
    hide Collapse;
  }

  lemma AnyDemands(m: Reading, xs: seq<Value>, ys: seq<Value>, v: Value)
    requires |xs| == |ys| && forall i :: 0 <= i < |xs| ==> (Accepts(m, xs[i], v) <==> Accepts(m, ys[i], v))
    ensures Demands(m, "anyOf", VArray(xs), v) <==> Demands(m, "anyOf", VArray(ys), v)
  {
    hide Accepts;
  }

  lemma AllDemands(m: Reading, xs: seq<Value>, ys: seq<Value>, v: Value)
    requires |xs| == |ys| && forall i :: 0 <= i < |xs| ==> (Accepts(m, xs[i], v) <==> Accepts(m, ys[i], v))
    ensures Demands(m, "allOf", VArray(xs), v) <==> Demands(m, "allOf", VArray(ys), v)
  {
    hide Accepts;
  }

  ghost predicate AcceptedOnlyAt(m: Reading, xs: seq<Value>, v: Value, i: nat) {
    i < |xs| && Accepts(m, xs[i], v) && forall j :: 0 <= j < |xs| && j != i ==> !Accepts(m, xs[j], v)
  }

  lemma OneIs(m: Reading, xs: seq<Value>, v: Value)
    ensures Demands(m, "oneOf", VArray(xs), v) <==> exists i: nat :: AcceptedOnlyAt(m, xs, v, i)
  {
    hide Accepts;
    if Demands(m, "oneOf", VArray(xs), v) {
      var i :| 0 <= i < |xs| && Accepts(m, xs[i], v)
               && forall j :: 0 <= j < |xs| && j != i ==> !Accepts(m, xs[j], v);
      assert AcceptedOnlyAt(m, xs, v, i);
    }
    if i: nat :| AcceptedOnlyAt(m, xs, v, i) {
      assert Accepts(m, xs[i], v) && forall j :: 0 <= j < |xs| && j != i ==> !Accepts(m, xs[j], v);
    }
  }

  lemma OneDemands(m: Reading, xs: seq<Value>, ys: seq<Value>, v: Value)
    requires |xs| == |ys| && forall i :: 0 <= i < |xs| ==> (Accepts(m, xs[i], v) <==> Accepts(m, ys[i], v))
    ensures Demands(m, "oneOf", VArray(xs), v) <==> Demands(m, "oneOf", VArray(ys), v)
  {
    OneIs(m, xs, v);
    OneIs(m, ys, v);
    hide Accepts, Demands;
    assert forall i: nat :: AcceptedOnlyAt(m, xs, v, i) <==> AcceptedOnlyAt(m, ys, v, i);
  }

  lemma ListDemands(m: Reading, key: string, xs: seq<Value>, ys: seq<Value>, v: Value)
    requires key == "anyOf" || key == "oneOf" || key == "allOf"
    requires |xs| == |ys| && forall i :: 0 <= i < |xs| ==> (Accepts(m, xs[i], v) <==> Accepts(m, ys[i], v))
    ensures Demands(m, key, VArray(xs), v) <==> Demands(m, key, VArray(ys), v)
  {
    hide Accepts, Demands;
    if key == "anyOf" {
      AnyDemands(m, xs, ys, v);
    } else if key == "allOf" {
      AllDemands(m, xs, ys, v);
    } else {
      OneDemands(m, xs, ys, v);
    }
  }

  lemma ItemsDemands(m: Reading, x: Value, y: Value, v: Value)
    requires v.VArray? ==> forall i :: 0 <= i < |v.items| ==> (Accepts(m, x, v.items[i]) <==> Accepts(m, y, v.items[i]))
    ensures Demands(m, "items", x, v) <==> Demands(m, "items", y, v)
  {
    hide Accepts;
  }

  lemma NotDemands(m: Reading, x: Value, y: Value, v: Value)
    requires Accepts(m, x, v) <==> Accepts(m, y, v)
    ensures Demands(m, "not", x, v) <==> Demands(m, "not", y, v)
  {
    hide Accepts;
  }

  lemma TypeDemands(m: Reading, x: Value, y: Value, v: Value)
    requires Allows(m, x, v) <==> Allows(m, y, v)
    ensures Demands(m, "type", x, v) <==> Demands(m, "type", y, v)
  {
    hide Allows;
  }

  lemma PropertiesDemands(m: Reading, xs: Fields, ys: Fields, v: Value)
    requires xs.Keys == ys.Keys
    requires v.VObject? ==> forall p :: p in xs && p in v.fields ==>
                              (Accepts(m, xs[p], v.fields[p]) <==> Accepts(m, ys[p], v.fields[p]))
    ensures Demands(m, "properties", VObject(xs), v) <==> Demands(m, "properties", VObject(ys), v)
  {
    hide Accepts;
  }

  // The keywords of a plain schema demand the same when they are sanitized.
  lemma {:induction false} SanitizedDemands(m: Reading, key: string, x: Value, v: Value)
    requires Sensible(m) && PlainKeyword(m, key, x)
    ensures Demands(m, key, Sanitize(x), v) <==> Demands(m, key, x, v)
    decreases x, 1
  {
    SanitizeKeepsKind(x);
    hide Sanitize, Accepts, Demands, Plain, Allows;
    if key == "nullable" {
      FreeKeywords(m, key, x, v);
      FreeKeywords(m, key, Sanitize(x), v);
    } else if key == "type" {
      SanitizedAllows(m, x, v);
      TypeDemands(m, x, Sanitize(x), v);
    } else if (key == "anyOf" || key == "oneOf" || key == "allOf") && x.VArray? {
      SanitizedArray(x.items);
      forall i | 0 <= i < |x.items| ensures Accepts(m, Sanitize(x.items[i]), v) <==> Accepts(m, x.items[i], v) {
        SanitizeKeepsMeaning(m, x.items[i], v);
      }
      ListDemands(m, key, x.items, SanitizedItems(x.items), v);
    } else if key == "not" {
      SanitizeKeepsMeaning(m, x, v);
      NotDemands(m, x, Sanitize(x), v);
    } else if key == "items" {
      if v.VArray? {
        forall i | 0 <= i < |v.items| ensures Accepts(m, Sanitize(x), v.items[i]) <==> Accepts(m, x, v.items[i]) {
          SanitizeKeepsMeaning(m, x, v.items[i]);
        }
      }
      ItemsDemands(m, x, Sanitize(x), v);
    } else if key == "properties" && x.VObject? {
      SanitizedProperties(x.fields);
      if v.VObject? {
        forall p | p in x.fields && p in v.fields
          ensures Accepts(m, Sanitize(x.fields[p]), v.fields[p]) <==> Accepts(m, x.fields[p], v.fields[p])
        {
          SanitizeKeepsMeaning(m, x.fields[p], v.fields[p]);
        }
      }
      PropertiesDemands(m, x.fields, SanitizedFields(x.fields), v);
    }
  }

  lemma SanitizedProperties(fields: Fields)
    requires !Collapses(SanitizedFields(fields))
    ensures Sanitize(VObject(fields)) == VObject(SanitizedFields(fields))
  {
    NothingCollapses(SanitizedFields(fields));
    hide Collapses, Collapse;
    SanitizedObject(fields);
  }

  lemma SanitizedObject(fields: Fields)
    ensures Sanitize(VObject(fields)) == VObject(Collapse(SanitizedFields(fields)))
  {
    hide Collapse;
  }

  lemma SameDemandsMeet(m: Reading, fields: Fields, v: Value)
    requires forall k :: k in fields ==> (Demands(m, k, Sanitize(fields[k]), v) <==> Demands(m, k, fields[k], v))
    ensures Meets(m, SanitizedFields(fields), v) <==> Meets(m, fields, v)
  {
    hide Demands, Sanitize;
    forall k | k in fields
      ensures Demands(m, k, SanitizedFields(fields)[k], v) <==> Demands(m, k, fields[k], v)
    {
      assert SanitizedFields(fields)[k] == Sanitize(fields[k]);
    }
  }

  // A plain schema accepts the same values after it was sanitized.
  lemma {:induction false} SanitizeKeepsMeaning(m: Reading, schema: Value, v: Value)
    requires Sensible(m) && Plain(m, schema)
    ensures Accepts(m, Sanitize(schema), v) <==> Accepts(m, schema, v)
    decreases schema, 0
  {
    if schema.VObject? {
      var fields, s := schema.fields, SanitizedFields(schema.fields);
      SanitizedObject(fields);
      hide Sanitize, Demands, Collapse, Collapses, NodeAgrees, PlainKeyword, SanitizedFields, Meets, Accepts;
      forall k | k in fields ensures Demands(m, k, Sanitize(fields[k]), v) <==> Demands(m, k, fields[k], v) {
        SanitizedDemands(m, k, fields[k], v);
      }
      SameDemandsMeet(m, fields, v);
      SanitizedNullable(fields);
      AcceptsIsMeets(m, fields, v);
      AcceptsIsMeets(m, s, v);
      CollapsedAccepts(m, s, v);
    }
  }

  // A tool's plain parameters still accept what they accepted, and nothing else unless a
  // combinator was dropped from the root.
  lemma ParametersKeepMeaning(m: Reading, params: Fields, v: Value)
    requires Sensible(m) && Plain(m, VObject(params))
    ensures Accepts(m, VObject(params), v) ==> Accepts(m, VObject(SanitizeToolParameters(params)), v)
    ensures Collapse(SanitizedFields(params)) == SanitizeToolParameters(params) ==>
              (Accepts(m, VObject(params), v) <==> Accepts(m, VObject(SanitizeToolParameters(params)), v))
  {
    var c := Collapse(SanitizedFields(params));
    SanitizeKeepsMeaning(m, VObject(params), v);
    assert Sanitize(VObject(params)) == VObject(c);
    hide Sanitize, Collapse, Demands, Plain, StripTopLevel, Accepts, Sensible;
    StrippedAccepts(m, c, v);
  }

  lemma StrippedAccepts(m: Reading, node: Fields, v: Value)
    ensures Accepts(m, VObject(node), v) ==> Accepts(m, VObject(StripTopLevel(node)), v)
  {
    AcceptsIsMeets(m, node, v);
    AcceptsIsMeets(m, StripTopLevel(node), v);
    hide Demands, Accepts;
    assert "nullable" !in TOP_LEVEL_COMBINATORS;
  }

  // Agreement is needed: a constraint of the branch that the node states differently is lost.
  lemma OverriddenConstraintIsLost(m: Reading, mine: Value, theirs: Value, v: Value)
    requires Sensible(m) && !v.VNull? && m.kind("string", v)
    requires m.other("minLength", mine, v) && !m.other("minLength", theirs, v)
    ensures var branch := VObject(map["type" := VStr("string"), "minLength" := theirs]);
            var union := VArray([branch, VObject(map["type" := TYPE_NULL])]);
            var node: Fields := map["minLength" := mine, "anyOf" := union];
            Accepts(m, VObject(Collapse(node)), v) && !Accepts(m, VObject(node), v)
  {
    var branch: Fields := map["type" := VStr("string"), "minLength" := theirs];
    var none := VObject(map["type" := TYPE_NULL]);
    var branches := [VObject(branch), none];
    var node: Fields := map["minLength" := mine, "anyOf" := VArray(branches)];
    var r: Fields := map["minLength" := mine, "type" := VStr("string"), "nullable" := VBool(true)];
    UnionOfTwo(branch, none);
    CollapsedExample(node, branch, r);
    UnionDemands(m, node, "anyOf", v);
    MeetsExample(m, branch, theirs, v);
    MeetsExample(m, r, mine, v);
    hide Collapse, BranchOf, Demands, Accepts, Meets;
    NonNullMeets(m, branch, v);
    NonNullMeets(m, node, v);
    NonNullMeets(m, r, v);
    if Meets(m, node, v) { MeetsOne(m, node, "anyOf", v); }
  }

  lemma MeetsOne(m: Reading, fields: Fields, key: string, v: Value)
    requires key in fields && Meets(m, fields, v)
    ensures Demands(m, key, fields[key], v)
  {
    hide Demands;
  }

  // A text of this length.
  lemma MeetsExample(m: Reading, fields: Fields, length: Value, v: Value)
    requires m.kind("string", v) && {"minLength", "type"} <= fields.Keys <= {"minLength", "type", "nullable"}
    requires fields["minLength"] == length && fields["type"] == VStr("string")
    ensures Meets(m, fields, v) <==> m.other("minLength", length, v)
  {
    assert Demands(m, "minLength", length, v) <==> m.other("minLength", length, v);
    assert Demands(m, "type", VStr("string"), v);
    assert "nullable" in fields ==> Demands(m, "nullable", fields["nullable"], v);
    hide Demands;
    assert forall k :: k in fields ==> k in {"minLength", "type", "nullable"};
  }

  lemma CollapsedExample(node: Fields, branch: Fields, r: Fields)
    requires node.Keys == {"minLength", "anyOf"} && node["anyOf"].VArray?
    requires CollapsibleBranch(node["anyOf"].items) == Some(branch)
    requires branch.Keys == {"type", "minLength"}
    requires r == map["minLength" := node["minLength"], "type" := branch["type"], "nullable" := VBool(true)]
    ensures BranchOf(node, "anyOf") == Some(branch) && Collapse(node) == r
  {
    hide CollapsibleBranch;
    assert CollapseType(node) == node;
    assert MergeUp(node, "anyOf", branch) == r;
    assert CollapseUnion(r, "oneOf") == r;
  }

  lemma UnionOfTwo(branch: Fields, none: Value)
    requires IsNullSchema(none) && !IsNullSchema(VObject(branch))
    ensures CollapsibleBranch([VObject(branch), none]) == Some(branch)
  {
    var all := [VObject(branch), none];
    assert all[1..] == [none] && [none][1..] == [];
    assert NonNullBranches([none]) == [];
    assert NonNullBranches(all) == [VObject(branch)];
    assert none in all;
  }
}
