// What a resource reference and a detail allow, said of single concrete resources, and that
// coverage is inclusion (packages/grants/src/cli-permissions.ts:118-188).
module CoverageMeaning {
  import opened Wrappers
  import opened CliPermissions
  import Glob

  // One resource: its kind and the values that identify it.
  datatype Concrete = Concrete(resource: string, values: map<string, string>)

  // One invocation of a command line tool.
  datatype Invocation = Invocation(cliId: string, action: string, chain: seq<Concrete>)

  predicate IsConcrete(c: Concrete) {
    forall k :: k in c.values ==> c.values[k] != "" && '*' !in c.values[k]
  }

  predicate AllConcrete(chain: seq<Concrete>) {
    forall i :: 0 <= i < |chain| ==> IsConcrete(chain[i])
  }

  // A reference allows the resources of its kind that have a matching value for every value
  // it states; an empty value states nothing.
  predicate Allows(ref: ResourceRef, c: Concrete) {
    && c.resource == ref.resource
    && (ref.selector.Some? ==>
          forall k :: k in ref.selector.value && ref.selector.value[k] != "" ==>
            k in c.values && Glob.Matches(ref.selector.value[k], c.values[k]))
  }

  // A chain allows whatever lies below a resource it allows.
  predicate ChainAllows(chain: seq<ResourceRef>, cs: seq<Concrete>) {
    |chain| <= |cs| && forall i :: 0 <= i < |chain| ==> Allows(chain[i], cs[i])
  }

  // A detail allows the invocations of its tool and action on the resources of its chain.
  predicate DetailAllows(d: Detail, v: Invocation) {
    d.kind == CLI_KIND && d.cliId == v.cliId && d.action == v.action && ChainAllows(d.chain, v.chain)
  }

  // ---------------------------------------------------------------- selectors

  // The value a reference states for a key.
  function Stated(ref: ResourceRef, k: string): Option<string> {
    if ref.selector.Some? && k in ref.selector.value && ref.selector.value[k] != "" then Some(ref.selector.value[k])
    else None
  }

  lemma AllowsByKey(ref: ResourceRef, c: Concrete)
    ensures Allows(ref, c) <==>
              && c.resource == ref.resource
              && forall k :: Stated(ref, k).Some? ==> k in c.values && Glob.Matches(Stated(ref, k).value, c.values[k])
  {
    hide Glob.Matches;
    assert ref.selector.Some? ==> forall k :: k in ref.selector.value && ref.selector.value[k] != "" ==>
                                    Stated(ref, k) == Some(ref.selector.value[k]);
  }

  lemma NormalizedByKey(ref: ResourceRef)
    ensures Normalize(ref.selector).None? <==> forall k :: Stated(ref, k).None?
    ensures Normalize(ref.selector).Some? ==>
              var n := Normalize(ref.selector).value;
              forall k :: Stated(ref, k) == if k in n then Some(n[k]) else None
  {
    if ref.selector.Some? {
      var n := NonEmpty(ref.selector.value);
      assert forall k :: k in n <==> Stated(ref, k).Some?;
      if |n| == 0 {
        assert n.Keys == {};
      } else {
        assert n.Keys != {};
        var k :| k in n.Keys;
        assert Stated(ref, k).Some?;
      }
    }
  }

  // Coverage of references, value by value.
  lemma RefCoversByKey(a: ResourceRef, b: ResourceRef)
    ensures RefCovers(a, b) <==>
              && a.resource == b.resource
              && forall k :: Stated(a, k).Some? ==>
                   Stated(b, k).Some? && Glob.Matches(Stated(a, k).value, Stated(b, k).value)
  {
    NormalizedByKey(a);
    NormalizedByKey(b);
    hide Glob.Matches, Stated;
    var g, r := Normalize(a.selector), Normalize(b.selector);
    if g.Some? {
      assert forall k :: k in g.value <==> Stated(a, k).Some?;
      if r.None? {
        assert exists k :: Stated(a, k).Some?;
      }
    }
    hide Normalize;
  }

  // ---------------------------------------------------------------- covering implies allowing

  lemma CoveringRefAllows(a: ResourceRef, b: ResourceRef, c: Concrete)
    requires RefCovers(a, b) && Allows(b, c)
    ensures Allows(a, c)
  {
    RefCoversByKey(a, b);
    AllowsByKey(a, c);
    AllowsByKey(b, c);
    hide RefCovers, Allows, Stated, Glob.Matches;
    forall k | Stated(a, k).Some? ensures k in c.values && Glob.Matches(Stated(a, k).value, c.values[k]) {
      Glob.MatchesTransitive(Stated(a, k).value, Stated(b, k).value, c.values[k]);
    }
  }

  // ---------------------------------------------------------------- allowing implies covering

  // A concrete resource that a reference allows, with given values for the keys it states.
  function Instance(ref: ResourceRef): Concrete {
    Concrete(ref.resource,
             if ref.selector.None? then map[]
             else map k | k in ref.selector.value && ref.selector.value[k] != "" ::
                    Glob.Instantiate(ref.selector.value[k], 'a'))
  }

  lemma InstanceIsAllowed(ref: ResourceRef)
    requires BoundedRef(ref)
    ensures IsConcrete(Instance(ref)) && Allows(ref, Instance(ref))
    ensures forall k :: k in Instance(ref).values <==> Stated(ref, k).Some?
  {
    var c := Instance(ref);
    forall k | k in c.values
      ensures c.values[k] != "" && '*' !in c.values[k] && Glob.Matches(ref.selector.value[k], c.values[k])
    {
      Glob.InstanceOfItself(ref.selector.value[k], 'a');
    }
  }

  lemma ReplacedValue(ref: ResourceRef, c: Concrete, k: string, t: string)
    requires IsConcrete(c) && Allows(ref, c) && t != "" && '*' !in t
    requires Stated(ref, k).Some? ==> Glob.Matches(Stated(ref, k).value, t)
    ensures IsConcrete(c.(values := c.values[k := t])) && Allows(ref, c.(values := c.values[k := t]))
  {
    var d := c.(values := c.values[k := t]);
    AllowsByKey(ref, c);
    AllowsByKey(ref, d);
    hide Allows, Stated, Glob.Matches;
  }

  lemma UnmatchedValue(ref: ResourceRef, c: Concrete, k: string)
    requires Stated(ref, k).Some?
    requires k in c.values ==> !Glob.Matches(Stated(ref, k).value, c.values[k])
    ensures !Allows(ref, c)
  {
    AllowsByKey(ref, c);
    hide Allows, Stated, Glob.Matches;
  }

  // The key on whose values two references differ.
  lemma TellingKey(a: ResourceRef, b: ResourceRef) returns (k: string)
    requires BoundedRef(b) && !RefCovers(a, b) && a.resource == b.resource
    ensures Stated(a, k).Some?
    ensures Stated(b, k).Some? ==>
              !Glob.Matches(Stated(a, k).value, Stated(b, k).value) && Glob.Bounded(Stated(b, k).value)
              && Stated(b, k).value != ""
  {
    RefCoversByKey(a, b);
    hide RefCovers, Stated, Glob.Matches;
    k :| Stated(a, k).Some? && (Stated(b, k).None? || !Glob.Matches(Stated(a, k).value, Stated(b, k).value));
    StatedIsBounded(b, k);
  }

  // What tells a reference from one that it does not cover: a concrete resource that only
  // the other allows.
  lemma TellingConcrete(a: ResourceRef, b: ResourceRef) returns (c: Concrete)
    requires BoundedRef(b) && !RefCovers(a, b)
    ensures IsConcrete(c) && Allows(b, c) && !Allows(a, c)
  {
    InstanceIsAllowed(b);
    c := Instance(b);
    if a.resource == b.resource {
      hide *;
      var k := TellingKey(a, b);
      if Stated(b, k).Some? {
        var t := Glob.TellingInstance(Stated(a, k).value, Stated(b, k).value);
        ReplacedValue(b, c, k, t);
        c := c.(values := c.values[k := t]);
      }
      UnmatchedValue(a, c, k);
    } else {
      OtherKind(a, b, c);
    }
  }

  lemma OtherKind(a: ResourceRef, b: ResourceRef, c: Concrete)
    requires a.resource != b.resource && Allows(b, c)
    ensures !Allows(a, c)
  {
  }

  lemma StatedIsBounded(ref: ResourceRef, k: string)
    requires BoundedRef(ref)
    ensures Stated(ref, k).Some? ==> Stated(ref, k).value != "" && Glob.Bounded(Stated(ref, k).value)
  {
  }

  // Coverage of references is inclusion.
  lemma RefCoversIsInclusion(a: ResourceRef, b: ResourceRef)
    requires BoundedRef(b)
    ensures RefCovers(a, b) <==> forall c :: IsConcrete(c) && Allows(b, c) ==> Allows(a, c)
  {
    hide RefCovers, Allows;
    if RefCovers(a, b) {
      forall c | IsConcrete(c) && Allows(b, c) ensures Allows(a, c) { CoveringRefAllows(a, b, c); }
    } else {
      var c := TellingConcrete(a, b);
    }
  }

  // ---------------------------------------------------------------- chains and details

  function Instances(chain: seq<ResourceRef>): (cs: seq<Concrete>)
    ensures |cs| == |chain| && forall i :: 0 <= i < |chain| ==> cs[i] == Instance(chain[i])
  {
    seq(|chain|, i requires 0 <= i < |chain| => Instance(chain[i]))
  }

  lemma InstancesAreAllowed(chain: seq<ResourceRef>)
    requires BoundedChain(chain)
    ensures AllConcrete(Instances(chain)) && ChainAllows(chain, Instances(chain))
  {
    hide Allows, IsConcrete, Instance;
    forall i | 0 <= i < |chain| ensures IsConcrete(Instances(chain)[i]) && Allows(chain[i], Instances(chain)[i]) {
      InstanceIsAllowed(chain[i]);
    }
  }

  ghost predicate ChainCovers(a: seq<ResourceRef>, b: seq<ResourceRef>) {
    |a| <= |b| && forall i :: 0 <= i < |a| ==> RefCovers(a[i], b[i])
  }

  lemma TellingChain(a: seq<ResourceRef>, b: seq<ResourceRef>) returns (cs: seq<Concrete>)
    requires BoundedChain(b) && !ChainCovers(a, b)
    ensures AllConcrete(cs) && ChainAllows(b, cs) && !ChainAllows(a, cs)
  {
    InstancesAreAllowed(b);
    cs := Instances(b);
    hide Allows, IsConcrete, Instance, RefCovers;
    if |a| <= |b| {
      var i :| 0 <= i < |a| && !RefCovers(a[i], b[i]);
      var c := TellingConcrete(a[i], b[i]);
      cs := cs[i := c];
    }
  }

  // A detail covers another exactly when both are CLI details and every invocation that the
  // other allows it allows too; the details may state anything but overlong globs.
  lemma CoversIsInclusion(a: Detail, b: Detail)
    requires BoundedChain(b.chain)
    ensures Covers(a, b) <==>
              && a.kind == CLI_KIND && b.kind == CLI_KIND
              && forall v: Invocation :: AllConcrete(v.chain) && DetailAllows(b, v) ==> DetailAllows(a, v)
  {
    hide RefCovers, Allows, IsConcrete;
    if Covers(a, b) {
      forall v: Invocation | AllConcrete(v.chain) && DetailAllows(b, v) ensures DetailAllows(a, v) {
        CoveringDetailAllows(a, b, v);
      }
    } else if a.kind == CLI_KIND && b.kind == CLI_KIND {
      InstancesAreAllowed(b.chain);
      var v := Invocation(b.cliId, b.action, Instances(b.chain));
      if a.cliId == b.cliId && a.action == b.action {
        var cs := TellingChain(a.chain, b.chain);
        v := Invocation(b.cliId, b.action, cs);
      }
      assert AllConcrete(v.chain) && DetailAllows(b, v) && !DetailAllows(a, v);
    }
  }

  // A chain that states an overlong glob allows nothing at all.
  lemma OverlongAllowsNothing(chain: seq<ResourceRef>, cs: seq<Concrete>)
    requires !BoundedChain(chain)
    ensures !ChainAllows(chain, cs)
  {
    var i :| 0 <= i < |chain| && !BoundedRef(chain[i]);
    var k :| k in chain[i].selector.value && !Glob.Bounded(chain[i].selector.value[k]);
    if |chain| <= |cs| { assert !Allows(chain[i], cs[i]); }
  }

  // Whatever it states, a covered detail allows nothing that its coverer does not.
  lemma CoveringDetailAllows(a: Detail, b: Detail, v: Invocation)
    requires Covers(a, b) && DetailAllows(b, v)
    ensures DetailAllows(a, v)
  {
    hide RefCovers, Allows;
    forall i | 0 <= i < |a.chain| ensures Allows(a.chain[i], v.chain[i]) {
      CoveringRefAllows(a.chain[i], b.chain[i], v.chain[i]);
    }
  }

  // Stored details cover required ones only if every invocation that is required is allowed
  // by a stored detail that can be read.
  lemma DetailsCoverAllows(granted: seq<Stored>, required: seq<Detail>, r: Detail, v: Invocation)
    requires DetailsCover(granted, required) && r in required && DetailAllows(r, v)
    ensures exists g :: g in granted && g.Readable? && DetailAllows(g.detail, v)
  {
    hide Covers, DetailAllows;
    var g :| g in granted && g.Readable? && Covers(g.detail, r);
    CoveringDetailAllows(g.detail, r, v);
  }
}
