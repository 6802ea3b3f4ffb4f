// The widenings offered to an approver (packages/grants/src/widening-suggestions.ts).
module WideningSuggestions {
  import opened Wrappers
  import opened Text
  import opened CliPermissions
  import opened CliWidening
  import opened GrantStore
  import opened GrantOperations
  import GrantRuns
  import GrantExtension
  import Glob

  const PATH_LIKE_KEYS: set<string> := {"path", "glob", "file", "filename", "uri"}

  datatype Scope = Exact | SiblingType | Directory | Subtree | Wildcard

  datatype Variant = Variant(pattern: string, scope: Scope)

  // What the path-like reference of a detail may become.
  datatype Offer = Offer(scope: Scope, ref: ResourceRef)

  datatype Suggestion = Suggestion(scope: Scope, detail: Detail)

  // ---------------------------------------------------------------- paths

  function NonEmptyTexts(texts: seq<string>): (r: seq<string>)
    ensures forall t :: t in r ==> t in texts && t != ""
  {
    if |texts| == 0 then [] else (if texts[0] != "" then [texts[0]] else []) + NonEmptyTexts(texts[1..])
  }

  function Segments(path: string): seq<string> {
    NonEmptyTexts(Split(path, '/'))
  }

  function Root(path: string): string {
    if |path| > 0 && path[0] == '/' then "/" else ""
  }

  // The path of the first n segments.
  function Ancestor(path: string, n: nat): string
    requires n <= |Segments(path)|
  {
    Root(path) + Join(Segments(path)[..n], "/")
  }

  function Parent(path: string): string
    requires |Segments(path)| > 0
  {
    Ancestor(path, |Segments(path)| - 1)
  }

  // The position after the last occurrence of a character, or 0.
  function AfterLast(s: string, c: char): (n: nat)
    ensures n <= |s| && (n > 0 ==> s[n - 1] == c) && c !in s[n..]
  {
    if |s| == 0 then 0 else if s[|s| - 1] == c then |s|
    else
      var n := AfterLast(s[..|s| - 1], c);
      assert s[n..] == s[..|s| - 1][n..] + [s[|s| - 1]];
      n
  }

  // From the last dot of the file name on, unless the name starts with that dot.
  function Extension(path: string): string
    requires |Segments(path)| > 0
  {
    var fileName := Segments(path)[|Segments(path)| - 1];
    var n := AfterLast(fileName, '.');
    if n > 1 then fileName[n - 1..] else ""
  }

  // Everything under the first n segments, then under fewer and fewer of them.
  function Subtrees(path: string, n: nat): (variants: seq<Variant>)
    requires n <= |Segments(path)|
    ensures |variants| == n && forall k :: 0 <= k < n ==> variants[k] == Variant(Ancestor(path, n - k) + "/**", Subtree)
  {
    if n == 0 then [] else [Variant(Ancestor(path, n) + "/**", Subtree)] + Subtrees(path, n - 1)
  }

  function SiblingVariants(path: string): seq<Variant>
    requires |Segments(path)| > 0
  {
    if Extension(path) != "" then [Variant(Parent(path) + "/*" + Extension(path), SiblingType)] else []
  }

  // `derivePathVariants`
  function PathVariants(path: string): seq<Variant> {
    if |Segments(path)| < 2 then []
    else SiblingVariants(path) + [Variant(Parent(path) + "/*", Directory)] + Subtrees(path, |Segments(path)| - 1)
  }

  method DerivePathVariants(path: string) returns (variants: seq<Variant>)
    ensures variants == PathVariants(path)
  {
    hide Split, NonEmptyTexts, Join, Root, AfterLast, Extension;
    var segments, prefix := Segments(path), Root(path);
    if |segments| == 0 {
      return [];
    }
    variants := [];
    var extension := Extension(path);
    var parentSegments := segments[..|segments| - 1];
    var parentPath := prefix + Join(parentSegments, "/");
    if extension != "" && |parentSegments| > 0 {
      variants := variants + [Variant(parentPath + "/*" + extension, SiblingType)];
    }
    if |parentSegments| > 0 {
      variants := variants + [Variant(parentPath + "/*", Directory)];
    }
    if |parentSegments| > 0 {
      variants := variants + [Variant(parentPath + "/**", Subtree)];
    }
    ghost var first, n := variants, |parentSegments|;
    var i := |parentSegments| - 1;
    while i > 0
      invariant -1 <= i < n || (n == 0 && i == -1)
      invariant n > 0 ==> first + Subtrees(path, n)[1..] == variants + Subtrees(path, if i > 0 then i else 0)
      invariant n == 0 ==> variants == []
    {
      assert parentSegments[..i] == segments[..i];
      var ancestor := prefix + Join(parentSegments[..i], "/");
      assert Subtrees(path, i) == [Variant(ancestor + "/**", Subtree)] + Subtrees(path, i - 1);
      assert variants + Subtrees(path, i) == variants + [Variant(ancestor + "/**", Subtree)] + Subtrees(path, i - 1);
      variants := variants + [Variant(ancestor + "/**", Subtree)];
      i := i - 1;
    }
    assert variants + [] == variants && Subtrees(path, 0) == [];
    if n > 0 {
      var siblings, directory := SiblingVariants(path), [Variant(parentPath + "/*", Directory)];
      var subtree := [Variant(parentPath + "/**", Subtree)];
      assert Subtrees(path, n) == subtree + Subtrees(path, n)[1..];
      assert first == siblings + directory + subtree;
      assert siblings + directory + subtree + Subtrees(path, n)[1..]
             == siblings + directory + (subtree + Subtrees(path, n)[1..]);
    }
  }

  // ---------------------------------------------------------------- patterns widen

  lemma {:induction false} GlobConcat(p: string, s: string, q: string, t: string)
    requires Glob.GlobMatches(p, s) && Glob.GlobMatches(q, t)
    ensures Glob.GlobMatches(p + q, s + t)
    decreases |p| + |s|
  {
    if |p| == 0 {
      assert p + q == q && s + t == t;
    } else {
      assert (p + q)[1..] == p[1..] + q;
      if |s| > 0 { assert (s + t)[1..] == s[1..] + t; }
      if p[0] == '*' {
        if Glob.GlobMatches(p[1..], s) { GlobConcat(p[1..], s, q, t); } else { GlobConcat(p, s[1..], q, t); }
      } else {
        GlobConcat(p[1..], s[1..], q, t);
      }
    }
  }

  lemma {:induction false} StarMatches(s: string)
    requires Glob.SingleLine(s)
    ensures Glob.GlobMatches("*", s) && Glob.GlobMatches("**", s)
  {
    Glob.StarIsSingleLine(s);
    assert "**"[1..] == "*";
  }

  // A common head, a slash, and then anything.
  lemma UnderMatches(head: string, stars: string, rest: string)
    requires Glob.GlobMatches(stars, rest)
    ensures Glob.GlobMatches(head + "/" + stars, head + "/" + rest)
  {
    Glob.GlobReflexive(head + "/");
    GlobConcat(head + "/", head + "/", stars, rest);
  }

  lemma {:induction false} JoinLast(parts: seq<string>, separator: string)
    requires |parts| > 1
    ensures Join(parts, separator) == Join(parts[..|parts| - 1], separator) + separator + parts[|parts| - 1]
  {
    if |parts| == 2 {
      assert parts[1..] == [parts[1]] && parts[..1] == [parts[0]];
    } else {
      JoinLast(parts[1..], separator);
      assert parts[1..][..|parts| - 2] == parts[..|parts| - 1][1..];
    }
  }

  lemma AncestorNext(path: string, n: nat)
    requires 0 < n < |Segments(path)|
    ensures Ancestor(path, n + 1) == Ancestor(path, n) + "/" + Segments(path)[n]
  {
    var segments := Segments(path)[..n + 1];
    JoinLast(segments, "/");
    assert segments[..n] == Segments(path)[..n];
  }

  lemma {:induction false} SplitCharacters(text: string, c: char)
    ensures forall part, d :: part in Split(text, c) && d in part ==> d in text
  {
    if |text| > 0 {
      SplitCharacters(text[1..], c);
      var rest := Split(text[1..], c);
      assert forall d :: d in text[1..] ==> d in text;
      forall part, d | part in Split(text, c) && d in part ensures d in text {
        if text[0] == c {
          assert part == "" || part in rest;
        } else {
          assert part == [text[0]] + rest[0] || part in rest[1..];
          assert rest[0] in rest;
        }
      }
    }
  }

  lemma SegmentsAreSingleLine(path: string)
    requires Glob.SingleLine(path)
    ensures forall s :: s in Segments(path) ==> Glob.SingleLine(s)
  {
    SplitCharacters(path, '/');
  }

  // The first pattern a path is widened to.
  function FirstPattern(path: string): string
    requires |Segments(path)| > 0
  {
    Parent(path) + "/" + ("*" + Extension(path))
  }

  // The path continues its parent path with a slash, and ends in its extension.
  predicate Rooted(path: string) {
    |Segments(path)| > 1 ==>
      && Parent(path) + "/" <= path
      && |Parent(path)| + 1 + |Extension(path)| <= |path|
      && path[|path| - |Extension(path)|..] == Extension(path)
  }

  lemma FirstPatternMatches(path: string)
    requires Glob.SingleLine(path) && |Segments(path)| > 1 && Rooted(path)
    ensures Glob.GlobMatches(FirstPattern(path), path)
  {
    var head, e := Parent(path), Extension(path);
    var middle := path[|head| + 1..|path| - |e|];
    assert path == head + "/" + (middle + e);
    StarMatches(middle);
    Glob.GlobReflexive(e);
    GlobConcat("*", middle, e, e);
    UnderMatches(head, "*" + e, middle + e);
  }

  // Without stars in the path, only a rooted path matches its first pattern.
  lemma FirstPatternNeedsRoot(path: string)
    requires '*' !in path && |Segments(path)| > 1
    requires Glob.GlobMatches(FirstPattern(path), path)
    ensures Rooted(path)
  {
    var head, e := Parent(path) + "/", Extension(path);
    SegmentsHaveNoStars(path);
    assert FirstPattern(path) == head + ("*" + e);
    LiteralHead(head, "*" + e, path);
    LiteralTail(e, path[|head|..]);
  }

  lemma SegmentsHaveNoStars(path: string)
    requires '*' !in path && |Segments(path)| > 0
    ensures '*' !in Parent(path) && '*' !in Extension(path)
  {
    SplitCharacters(path, '/');
    var segments := Segments(path);
    assert forall s :: s in segments ==> '*' !in s;
    JoinAvoids(segments[..|segments| - 1], '*', '/');
    assert segments[|segments| - 1] in segments;
  }

  lemma {:induction false} LiteralHead(head: string, q: string, text: string)
    requires '*' !in head && Glob.GlobMatches(head + q, text)
    ensures head <= text && Glob.GlobMatches(q, text[|head|..])
  {
    if |head| == 0 {
      assert head + q == q;
    } else {
      assert head[0] in head;
      assert (head + q)[1..] == head[1..] + q;
      LiteralHead(head[1..], q, text[1..]);
    }
  }

  lemma {:induction false} LiteralTail(e: string, text: string)
    requires '*' !in e && Glob.GlobMatches("*" + e, text)
    ensures |e| <= |text| && text[|text| - |e|..] == e
  {
    assert ("*" + e)[1..] == e;
    if Glob.GlobMatches(e, text) {
      Glob.LiteralMatchesItself(e, text);
    } else {
      LiteralTail(e, text[1..]);
    }
  }

  // A later variant matches the pattern of every earlier one.
  ghost predicate Increasing(patterns: seq<string>) {
    forall i, j :: 0 <= i <= j < |patterns| ==> Glob.GlobMatches(patterns[j], patterns[i])
  }

  lemma {:induction false} AdjacentMatches(patterns: seq<string>, i: nat, j: nat)
    requires i <= j < |patterns|
    requires forall k :: 0 <= k < |patterns| - 1 ==> Glob.GlobMatches(patterns[k + 1], patterns[k])
    ensures Glob.GlobMatches(patterns[j], patterns[i])
    decreases j - i
  {
    hide Glob.GlobMatches;
    if i == j {
      Glob.GlobReflexive(patterns[i]);
    } else {
      AdjacentMatches(patterns, i, j - 1);
      assert Glob.GlobMatches(patterns[j - 1 + 1], patterns[j - 1]);
      Glob.GlobTransitive(patterns[j], patterns[j - 1], patterns[i]);
    }
  }

  function PatternsOf(variants: seq<Variant>): (patterns: seq<string>)
    ensures |patterns| == |variants| && forall i :: 0 <= i < |patterns| ==> patterns[i] == variants[i].pattern
  {
    seq(|variants|, i requires 0 <= i < |variants| => variants[i].pattern)
  }

  lemma SubtreeWidens(path: string, n: nat)
    requires Glob.SingleLine(path) && 0 < n < |Segments(path)|
    ensures Glob.GlobMatches(Ancestor(path, n) + "/**", Ancestor(path, n + 1) + "/**")
  {
    SegmentsAreSingleLine(path);
    AncestorNext(path, n);
    var rest := Segments(path)[n] + "/**";
    assert Ancestor(path, n + 1) + "/**" == Ancestor(path, n) + "/" + rest;
    assert Segments(path)[n] in Segments(path);
    StarMatches(rest);
    UnderMatches(Ancestor(path, n), "**", rest);
    assert Ancestor(path, n) + "/**" == Ancestor(path, n) + "/" + "**";
  }

  lemma DirectoryWidens(path: string)
    requires Glob.SingleLine(path) && |Segments(path)| > 1
    ensures Glob.GlobMatches(Parent(path) + "/*", FirstPattern(path))
    ensures Glob.GlobMatches(Parent(path) + "/**", Parent(path) + "/*")
  {
    SegmentsAreSingleLine(path);
    assert Segments(path)[|Segments(path)| - 1] in Segments(path);
    var head := Parent(path);
    StarMatches("*" + Extension(path));
    StarMatches("*");
    UnderMatches(head, "*", "*" + Extension(path));
    UnderMatches(head, "**", "*");
    assert head + "/*" == head + "/" + "*" && head + "/**" == head + "/" + "**";
  }

  // Each variant of a path matches all earlier ones.
  lemma VariantsIncrease(path: string)
    requires Glob.SingleLine(path)
    ensures Increasing(PatternsOf(PathVariants(path)))
  {
    var variants := PathVariants(path);
    var patterns := PatternsOf(variants);
    hide Glob.GlobMatches, Segments, Extension, AfterLast, Ancestor;
    if |Segments(path)| > 1 {
      var before, n := |SiblingVariants(path)|, |Segments(path)| - 1;
      DirectoryWidens(path);
      assert Parent(path) == Ancestor(path, n) by { ParentIsAncestor(path); }
      assert FirstPattern(path) == Parent(path) + "/*" + Extension(path);
      forall k | 0 <= k < |patterns| - 1 ensures Glob.GlobMatches(patterns[k + 1], patterns[k]) {
        if k > before {
          var m := k - before - 1;
          assert patterns[k] == Ancestor(path, n - m) + "/**" && patterns[k + 1] == Ancestor(path, n - m - 1) + "/**";
          SubtreeWidens(path, n - m - 1);
        }
      }
      forall i, j | 0 <= i <= j < |patterns|
        ensures Glob.GlobMatches(patterns[j], patterns[i])
      {
        AdjacentMatches(patterns, i, j);
      }
    }
  }

  lemma ParentIsAncestor(path: string)
    requires |Segments(path)| > 0
    ensures Parent(path) == Ancestor(path, |Segments(path)| - 1)
  {
  }

  // A path without stars matches all its variants exactly when it is rooted.
  lemma VariantsMatchPath(path: string)
    requires Glob.SingleLine(path)
    ensures Rooted(path) ==> forall v :: v in PathVariants(path) ==> Glob.GlobMatches(v.pattern, path)
    ensures '*' !in path
            ==> (Rooted(path) <==> forall v :: v in PathVariants(path) ==> Glob.GlobMatches(v.pattern, path))
  {
    var variants := PathVariants(path);
    VariantsIncrease(path);
    hide Glob.GlobMatches, Segments, Extension, AfterLast, Ancestor, Rooted;
    if |Segments(path)| > 1 {
      FirstVariant(path);
      assert variants[0] in variants;
      if Rooted(path) {
        FirstPatternMatches(path);
        forall v | v in variants ensures Glob.GlobMatches(v.pattern, path) {
          var j :| 0 <= j < |variants| && variants[j] == v;
          assert Glob.GlobMatches(PatternsOf(variants)[j], PatternsOf(variants)[0]);
          Glob.GlobTransitive(v.pattern, FirstPattern(path), path);
        }
      } else if '*' !in path && Glob.GlobMatches(variants[0].pattern, path) {
        FirstPatternNeedsRoot(path);
      }
    } else {
      ShortIsRooted(path);
    }
  }

  lemma ShortIsRooted(path: string)
    requires |Segments(path)| < 2
    ensures Rooted(path)
  {
  }

  lemma FirstVariant(path: string)
    requires |Segments(path)| > 1
    ensures |PathVariants(path)| > 0 && PathVariants(path)[0].pattern == FirstPattern(path)
  {
    hide Segments, AfterLast, Ancestor;
    assert Parent(path) + "/*" + Extension(path) == FirstPattern(path);
    assert Extension(path) == "" ==> FirstPattern(path) == Parent(path) + "/*";
  }

  // A path written without empty segments or a trailing slash is rooted.
  lemma CleanIsRooted(path: string)
    requires path == Root(path) + Join(Segments(path), "/")
    ensures Rooted(path)
  {
    var n := |Segments(path)|;
    if n > 1 {
      AncestorNext(path, n - 1);
      assert Segments(path)[..n] == Segments(path);
      assert path == Parent(path) + "/" + Segments(path)[n - 1];
      ExtensionIsSuffix(path);
    }
  }

  lemma ExtensionIsSuffix(path: string)
    requires |Segments(path)| > 0
    ensures var fileName := Segments(path)[|Segments(path)| - 1];
            |Extension(path)| <= |fileName| && fileName[|fileName| - |Extension(path)|..] == Extension(path)
  {
  }

  // ---------------------------------------------------------------- suggestions

  predicate PathLike(ref: ResourceRef) {
    ref.selector.Some? && exists k :: k in ref.selector.value && k in PATH_LIKE_KEYS
  }

  // The first path-like reference, or the length of the chain.
  function Target(chain: seq<ResourceRef>): (i: nat)
    ensures i <= |chain| && (i < |chain| ==> PathLike(chain[i])) && forall j :: 0 <= j < i ==> !PathLike(chain[j])
  {
    if |chain| == 0 || PathLike(chain[0]) then 0 else 1 + Target(chain[1..])
  }

  function Make(scope: Scope, base: Detail, chain: seq<ResourceRef>): Suggestion {
    Suggestion(scope, base.(chain := chain, permission := Canonical(base.cliId, chain, base.action)))
  }

  function Bare(chain: seq<ResourceRef>): (r: seq<ResourceRef>)
    ensures |r| == |chain| && forall i :: 0 <= i < |r| ==> r[i] == ResourceRef(chain[i].resource, None)
  {
    seq(|chain|, i requires 0 <= i < |chain| => ResourceRef(chain[i].resource, None))
  }

  // Which key of the target is taken as its path: one of its path-like keys.
  predicate PathKey(d: Detail, key: string) {
    var i := Target(d.chain);
    i < |d.chain| ==> key in d.chain[i].selector.value && key in PATH_LIKE_KEYS
  }

  function WithPattern(ref: ResourceRef, key: string, pattern: string): ResourceRef
    requires ref.selector.Some?
  {
    ResourceRef(ref.resource, Some(ref.selector.value[key := pattern]))
  }

  // The variants that differ from the path, as references.
  function VariantRefs(ref: ResourceRef, key: string, variants: seq<Variant>, path: string): seq<Offer>
    requires ref.selector.Some?
  {
    if |variants| == 0 then []
    else
      (if variants[0].pattern != path then [Offer(variants[0].scope, WithPattern(ref, key, variants[0].pattern))]
       else [])
      + VariantRefs(ref, key, variants[1..], path)
  }

  // What the target reference is offered as, from exact to wildcard.
  function TargetRefs(ref: ResourceRef, key: string): seq<Offer>
    requires ref.selector.Some? && key in ref.selector.value
  {
    var path := ref.selector.value[key];
    [Offer(Exact, ref)] + VariantRefs(ref, key, PathVariants(path), path)
      + [Offer(Wildcard, ResourceRef(ref.resource, None))]
  }

  // `suggestWideningsForDetail`
  function Suggestions(d: Detail, key: string): seq<Suggestion>
    requires PathKey(d, key)
  {
    var i := Target(d.chain);
    if i == |d.chain| then [Make(Exact, d, d.chain), Make(Wildcard, d, Bare(d.chain))]
    else
      var refs := TargetRefs(d.chain[i], key);
      seq(|refs|, k requires 0 <= k < |refs| => Make(refs[k].scope, d, d.chain[i := refs[k].ref]))
  }

  // What the approver can be offered safely: the path is one line and rooted, and no pattern
  // or other selector value is an overlong glob.
  predicate Suitable(d: Detail, key: string)
    requires PathKey(d, key)
  {
    && d.kind == CLI_KIND && BoundedChain(d.chain)
    && var i := Target(d.chain);
       i < |d.chain| ==>
         var path := d.chain[i].selector.value[key];
         Glob.SingleLine(path) && Rooted(path) && forall v :: v in PathVariants(path) ==> Glob.Bounded(v.pattern)
  }

  predicate BoundedVariants(variants: seq<Variant>) {
    forall i :: 0 <= i < |variants| ==> Glob.Bounded(variants[i].pattern) && variants[i].pattern != ""
  }

  // Replacing the path of a reference by a pattern that matches it.
  lemma PatternCovers(ref: ResourceRef, key: string, wide: string, narrow: string)
    requires ref.selector.Some? && BoundedRef(ref)
    requires wide != "" && Glob.Bounded(wide) && Glob.GlobMatches(wide, narrow) && narrow != ""
    ensures RefCovers(WithPattern(ref, key, wide), WithPattern(ref, key, narrow))
  {
    var a, b := NonEmpty(ref.selector.value[key := wide]), NonEmpty(ref.selector.value[key := narrow]);
    Glob.BoundedMatchesIsGlob(wide, narrow);
    assert key in a && key in b;
    assert |b| > 0 by { assert key in b.Keys; }
    forall k | k in a ensures k in b && Glob.Matches(a[k], b[k]) {
      if k != key { Glob.MatchesReflexive(a[k]); }
    }
  }

  // Each offer covers all earlier ones, and all of them cover a reference.
  ghost predicate IncreasingFrom(offers: seq<Offer>, ref: ResourceRef) {
    && (forall k :: 0 <= k < |offers| ==> RefCovers(offers[k].ref, ref) && offers[k].ref.resource == ref.resource)
    && forall k, m :: 0 <= k <= m < |offers| ==> RefCovers(offers[m].ref, offers[k].ref)
  }

  // The references offered for a target, with the variants still to come after some pattern.
  lemma {:induction false} VariantRefsIncrease(ref: ResourceRef, key: string, variants: seq<Variant>, path: string,
                                               last: string)
    requires ref.selector.Some? && BoundedRef(ref) && BoundedVariants(variants) && last != ""
    requires Increasing(PatternsOf(variants))
             && forall i :: 0 <= i < |variants| ==> Glob.GlobMatches(variants[i].pattern, last)
    ensures IncreasingFrom(VariantRefs(ref, key, variants, path), WithPattern(ref, key, last))
    decreases |variants|
  {
    hide Glob.GlobMatches, RefCovers, BoundedRef, Glob.Bounded, IncreasingFrom;
    assert variants == [] ==> IncreasingFrom([], WithPattern(ref, key, last)) by {
      NoOffers(WithPattern(ref, key, last));
    }
    if |variants| > 0 {
      var rest := variants[1..];
      var pattern := variants[0].pattern;
      assert forall i :: 0 <= i < |rest| ==>
              rest[i] == variants[i + 1] && PatternsOf(rest)[i] == PatternsOf(variants)[i + 1];
      assert Increasing(PatternsOf(rest));
      forall i | 0 <= i < |rest| ensures Glob.GlobMatches(rest[i].pattern, pattern) {
        assert Glob.GlobMatches(PatternsOf(variants)[i + 1], PatternsOf(variants)[0]);
      }
      VariantRefsIncrease(ref, key, rest, path, last);
      var refs, tail := VariantRefs(ref, key, variants, path), VariantRefs(ref, key, rest, path);
      if pattern == path {
        assert refs == tail;
      } else {
        var first := Offer(variants[0].scope, WithPattern(ref, key, pattern));
        assert refs == [first] + tail;
        VariantRefsIncrease(ref, key, rest, path, pattern);
        PatternCovers(ref, key, pattern, last);
        Glob.GlobReflexive(pattern);
        PatternCovers(ref, key, pattern, pattern);
        ConsIncreases(first, tail, WithPattern(ref, key, last));
      }
    }
  }

  lemma NoOffers(last: ResourceRef)
    ensures IncreasingFrom([], last)
  {
  }

  lemma ConsIncreases(first: Offer, tail: seq<Offer>, last: ResourceRef)
    requires RefCovers(first.ref, first.ref) && RefCovers(first.ref, last) && first.ref.resource == last.resource
    requires IncreasingFrom(tail, first.ref) && IncreasingFrom(tail, last)
    ensures IncreasingFrom([first] + tail, last)
  {
    hide RefCovers;
    var refs := [first] + tail;
    assert forall k :: 0 < k < |refs| ==> refs[k] == tail[k - 1];
  }

  lemma NoneCovers(resource: string, ref: ResourceRef)
    requires ref.resource == resource
    ensures RefCovers(ResourceRef(resource, None), ref)
  {
  }

  // Every reference offered for the target covers all earlier ones.
  lemma TargetRefsIncrease(ref: ResourceRef, key: string)
    requires ref.selector.Some? && key in ref.selector.value && BoundedRef(ref)
    requires var path := ref.selector.value[key];
             Glob.SingleLine(path) && Rooted(path) && forall v :: v in PathVariants(path) ==> Glob.Bounded(v.pattern)
    ensures IncreasingFrom(TargetRefs(ref, key), ref) && TargetRefs(ref, key)[0].ref == ref
  {
    var path := ref.selector.value[key];
    var variants := PathVariants(path);
    WithOwnPath(ref, key);
    RefCoversReflexive(ref);
    if path == "" {
      EmptyPath();
      hide RefCovers, PathVariants, IncreasingFrom;
      NoOffers(ref);
      Sandwich(ref, []);
      assert VariantRefs(ref, key, [], path) == [];
    } else {
      VariantsAreUsable(path);
      hide Glob.GlobMatches, RefCovers, PathVariants, Rooted, Glob.SingleLine, BoundedRef, WithPattern, BoundedVariants;
      hide Increasing, IncreasingFrom;
      VariantRefsIncrease(ref, key, variants, path, path);
      hide VariantRefs;
      Sandwich(ref, VariantRefs(ref, key, variants, path));
    }
  }

  lemma VariantsAreUsable(path: string)
    requires Glob.SingleLine(path) && Rooted(path) && forall v :: v in PathVariants(path) ==> Glob.Bounded(v.pattern)
    ensures BoundedVariants(PathVariants(path)) && Increasing(PatternsOf(PathVariants(path)))
    ensures forall i :: 0 <= i < |PathVariants(path)| ==> Glob.GlobMatches(PathVariants(path)[i].pattern, path)
  {
    VariantsMatchPath(path);
    VariantsIncrease(path);
    VariantPatternsNonEmpty(path);
    var variants := PathVariants(path);
    hide Glob.GlobMatches, PathVariants, Rooted, Glob.SingleLine, Glob.Bounded, Increasing;
    assert forall i :: 0 <= i < |variants| ==> variants[i] in variants;
  }

  lemma WithOwnPath(ref: ResourceRef, key: string)
    requires ref.selector.Some? && key in ref.selector.value
    ensures WithPattern(ref, key, ref.selector.value[key]) == ref
  {
    assert ref.selector.value[key := ref.selector.value[key]] == ref.selector.value;
  }

  lemma Sandwich(ref: ResourceRef, middle: seq<Offer>)
    requires RefCovers(ref, ref) && IncreasingFrom(middle, ref)
    ensures IncreasingFrom([Offer(Exact, ref)] + middle + [Offer(Wildcard, ResourceRef(ref.resource, None))], ref)
  {
    hide RefCovers;
    var refs := [Offer(Exact, ref)] + middle + [Offer(Wildcard, ResourceRef(ref.resource, None))];
    NoneCovers(ref.resource, ref);
    forall k, m | 0 <= k <= m < |refs| ensures RefCovers(refs[m].ref, refs[k].ref) {
      if m == |refs| - 1 { NoneCovers(ref.resource, refs[k].ref); }
    }
  }

  lemma EmptyPath()
    ensures PathVariants("") == []
  {
  }

  lemma VariantPatternsNonEmpty(path: string)
    ensures forall i :: 0 <= i < |PathVariants(path)| ==> PathVariants(path)[i].pattern != ""
  {
    hide Segments, Ancestor, Extension;
  }

  // Chains that differ at most at one position, where the first covers the second.
  lemma ChainCovers(base: Detail, a: Suggestion, b: Suggestion)
    requires base.kind == CLI_KIND && |a.detail.chain| == |b.detail.chain|
    requires a.detail == Make(a.scope, base, a.detail.chain).detail
             && b.detail == Make(b.scope, base, b.detail.chain).detail
    requires forall i :: 0 <= i < |a.detail.chain| ==> RefCovers(a.detail.chain[i], b.detail.chain[i])
    ensures Covers(a.detail, b.detail)
  {
  }

  // The suggestions for a suitable detail form an increasing chain: each covers all earlier
  // ones, from exactly the request to the wildcard.
  lemma SuggestionsIncrease(d: Detail, key: string)
    requires PathKey(d, key) && Suitable(d, key)
    ensures var s := Suggestions(d, key);
            && |s| >= 2 && s[0].detail.chain == d.chain
            && (forall i, j :: 0 <= i <= j < |s| ==> Covers(s[j].detail, s[i].detail))
            && (forall i :: 0 <= i < |s| ==>
                  SameStructure(s[i].detail.chain, d.chain)
                  && s[i].detail == Make(s[i].scope, d, s[i].detail.chain).detail)
  {
    var s, t := Suggestions(d, key), Target(d.chain);
    AtLeastTwo(d, key);
    SuggestionsAreMade(d, key);
    forall i, j | 0 <= i <= j < |s| ensures Covers(s[j].detail, s[i].detail) { LaterCovers(d, key, i, j); }
    hide TargetRefs, PathVariants, Suitable, Target, Covers;
    assert t < |d.chain| ==> d.chain[t := d.chain[t]] == d.chain;
  }

  lemma {:induction false} VariantRefsKeepResource(ref: ResourceRef, key: string, variants: seq<Variant>, path: string)
    requires ref.selector.Some?
    ensures forall o :: o in VariantRefs(ref, key, variants, path) ==> o.ref.resource == ref.resource
  {
    if |variants| > 0 { VariantRefsKeepResource(ref, key, variants[1..], path); }
  }

  lemma TargetRefsKeepResource(ref: ResourceRef, key: string)
    requires ref.selector.Some? && key in ref.selector.value
    ensures forall k :: 0 <= k < |TargetRefs(ref, key)| ==> TargetRefs(ref, key)[k].ref.resource == ref.resource
  {
    var path := ref.selector.value[key];
    VariantRefsKeepResource(ref, key, PathVariants(path), path);
    hide PathVariants, VariantRefs;
    forall k | 0 <= k < |TargetRefs(ref, key)| ensures TargetRefs(ref, key)[k].ref.resource == ref.resource {
      assert TargetRefs(ref, key)[k] in TargetRefs(ref, key);
    }
  }

  lemma SuggestionsAreMade(d: Detail, key: string)
    requires PathKey(d, key)
    ensures forall i :: 0 <= i < |Suggestions(d, key)| ==>
              var s := Suggestions(d, key)[i];
              SameStructure(s.detail.chain, d.chain) && s.detail == Make(s.scope, d, s.detail.chain).detail
  {
    var t := Target(d.chain);
    if t < |d.chain| { TargetRefsKeepResource(d.chain[t], key); }
    hide TargetRefs, PathVariants, Target, Canonical;
  }

  lemma LaterCovers(d: Detail, key: string, i: nat, j: nat)
    requires PathKey(d, key) && Suitable(d, key) && i <= j < |Suggestions(d, key)|
    ensures Covers(Suggestions(d, key)[j].detail, Suggestions(d, key)[i].detail)
  {
    var s, t := Suggestions(d, key), Target(d.chain);
    forall n | 0 <= n < |d.chain| ensures RefCovers(d.chain[n], d.chain[n]) { RefCoversReflexive(d.chain[n]); }
    if t < |d.chain| { TargetRefsIncrease(d.chain[t], key); }
    hide TargetRefs, PathVariants, Rooted, Glob.SingleLine, Canonical, BoundedRef, BoundedChain, Target, RefCovers;
    forall n | 0 <= n < |d.chain| ensures RefCovers(s[j].detail.chain[n], s[i].detail.chain[n]) {
      if t == |d.chain| && j == 1 { NoneCovers(d.chain[n].resource, s[i].detail.chain[n]); }
    }
    SuggestionsAreMade(d, key);
    hide Suggestions, Covers;
    ChainCovers(d, s[j], s[i]);
  }

  lemma AtLeastTwo(d: Detail, key: string)
    requires PathKey(d, key)
    ensures |Suggestions(d, key)| >= 2
  {
    hide PathVariants, VariantRefs;
  }

  // Whatever the approver picks passes the checks on a widened detail.
  lemma SuggestionIsValidWidening(d: Detail, key: string, s: Suggestion)
    requires PathKey(d, key) && Suitable(d, key) && s in Suggestions(d, key)
    ensures ValidWidening(d, s.detail)
  {
    SuggestionsIncrease(d, key);
    var all := Suggestions(d, key);
    hide Suggestions, Suitable;
    var j :| 0 <= j < |all| && all[j] == s;
    assert Covers(all[j].detail, all[0].detail);
    hide Canonical, RefCovers;
  }

  // Choosing any one suggestion per detail widens the pending grant: the approval is
  // accepted whenever its type can be approved, and covers the original request.
  lemma ChosenSuggestionsAreAccepted(s: Store, id: string, approver: string, now: int, chosen: seq<Suggestion>,
                                     keys: seq<string>,
                                     grantType: Option<GrantType>, duration: Option<int>)
    requires GrantRuns.Inv(s) && id in s.grants && s.grants[id].status.Pending?
    requires !Referenced(s.grants[id].request) && !SingleUse(s.grants[id].request)
    requires var originals := CliDetails(DetailsOf(s.grants[id].request));
             && 0 < |originals| == |chosen| == |keys|
             && forall i :: 0 <= i < |originals| ==>
                  PathKey(originals[i], keys[i]) && Suitable(originals[i], keys[i])
                  && chosen[i] in Suggestions(originals[i], keys[i])
    requires var r := s.grants[id].request;
             EffectiveType(r, Overrides(grantType, duration, None, [])).Timed? ==>
               Or(duration, r.duration).Some? && Or(duration, r.duration).value != 0
    ensures var answer := ApproveWidened(s, id, approver, now, DetailsOfChosen(chosen), grantType, duration).1;
            && answer.Ok? && answer.value.status.Approved?
            && DetailsCover(AllReadable(DetailsOf(answer.value.request)), CliDetails(DetailsOf(s.grants[id].request)))
  {
    var r := s.grants[id].request;
    var originals, widened := CliDetails(DetailsOf(r)), DetailsOfChosen(chosen);
    hide Suitable, Suggestions, PathKey, ValidWidening, CliDetails, DetailsOf, SingleUse, ApproveWidened, GrantRuns.Inv;
    forall i | 0 <= i < |originals| ensures ValidWidening(originals[i], widened[i]) {
      SuggestionIsValidWidening(originals[i], keys[i], chosen[i]);
    }
    GrantExtension.WideningSucceeds(s, id, approver, now, widened, grantType, duration);
    GrantExtension.WidenedApprovalCovers(s, id, approver, now, widened, grantType, duration);
  }

  function DetailsOfChosen(chosen: seq<Suggestion>): (details: seq<Detail>)
    ensures |details| == |chosen| && forall i :: 0 <= i < |details| ==> details[i] == chosen[i].detail
  {
    seq(|chosen|, i requires 0 <= i < |chosen| => chosen[i].detail)
  }

  // A path with an empty segment does not match its own directory.
  lemma EmptySegmentIsNotMatched()
    ensures Glob.SingleLine("a//b/c") && !Rooted("a//b/c")
    ensures exists v :: v in PathVariants("a//b/c") && !Glob.GlobMatches(v.pattern, "a//b/c")
  {
    var path := "a//b/c";
    EmptySegmentParts();
    var segments := Segments(path);
    assert segments[..2] == ["a", "b"];
    assert ["a", "b"][1..] == ["b"];
    assert Parent(path) == "a/b";
    assert !("a/b/" <= path);
    hide Segments, Glob.GlobMatches;
    VariantsMatchPath(path);
  }

  lemma EmptySegmentParts()
    ensures Segments("a//b/c") == ["a", "b", "c"]
  {
    var x, y := "a" + ['/'] + "", "b" + ['/'] + "c";
    assert "a//b/c" == x + ['/'] + y;
    SplitAtSeparator(x, '/', y);
    SplitAtSeparator("a", '/', "");
    SplitAtSeparator("b", '/', "c");
    SplitWithoutSeparator("a", '/');
    SplitWithoutSeparator("", '/');
    SplitWithoutSeparator("b", '/');
    SplitWithoutSeparator("c", '/');
    assert Split("a//b/c", '/') == ["a", "", "b", "c"];
    assert ["c"][1..] == [] && ["b", "c"][1..] == ["c"] && ["", "b", "c"][1..] == ["b", "c"]
           && ["a", "", "b", "c"][1..] == ["", "b", "c"];
  }
}
