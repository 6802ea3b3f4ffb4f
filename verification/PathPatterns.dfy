// The patterns suggested for a path, written out for every path of plain segments, and which
// references are taken for paths (packages/grants/src/widening-suggestions.ts:8, 60-73, 82-144).
module PathPatterns {
  import opened Wrappers
  import opened Text
  import opened CliPermissions
  import opened WideningSuggestions

  predicate Segment(s: string) {
    s != "" && '/' !in s
  }

  predicate AllSegments(parts: seq<string>) {
    forall i :: 0 <= i < |parts| ==> Segment(parts[i])
  }

  // The path of these segments.
  function PathOfSegments(absolute: bool, parts: seq<string>): string {
    (if absolute then "/" else "") + Join(parts, "/")
  }

  // The file name ends in this extension; a name that only starts with a dot has none.
  predicate EndsInExtension(fileName: string, extension: string) {
    if extension == "" then
      '.' !in fileName || (|fileName| > 0 && fileName[0] == '.' && '.' !in fileName[1..])
    else
      && extension[0] == '.' && '.' !in extension[1..]
      && |extension| < |fileName| && fileName[|fileName| - |extension|..] == extension
  }

  // ---------------------------------------------------------------- segments

  lemma {:induction false} SegmentsStay(parts: seq<string>)
    requires AllSegments(parts)
    ensures NonEmptyTexts(parts) == parts
  {
    if |parts| > 0 {
      assert forall i :: 0 <= i < |parts| - 1 ==> parts[1..][i] == parts[i + 1];
      SegmentsStay(parts[1..]);
      assert parts == [parts[0]] + parts[1..];
    }
  }

  lemma SegmentsOfPath(absolute: bool, parts: seq<string>)
    requires |parts| > 0 && AllSegments(parts)
    ensures Segments(PathOfSegments(absolute, parts)) == parts
    ensures Root(PathOfSegments(absolute, parts)) == if absolute then "/" else ""
  {
    var joined := Join(parts, "/");
    assert forall p :: p in parts ==> Segment(p);
    SplitOfJoin(parts, '/');
    SegmentsStay(parts);
    assert joined[..|parts[0]|] == parts[0] by { JoinHasSeparator(parts, '/'); }
    assert joined[0] == parts[0][0] && parts[0][0] in parts[0];
    hide Split, Join;
    if absolute {
      SlashFirst(joined);
      assert [""] + parts == Split("/" + joined, '/');
      EmptyIsDropped(parts);
    } else {
      assert "" + joined == joined;
    }
  }

  lemma SlashFirst(joined: string)
    ensures Split("/" + joined, '/') == [""] + Split(joined, '/')
  {
    assert ("/" + joined)[1..] == joined;
  }

  lemma EmptyIsDropped(parts: seq<string>)
    ensures NonEmptyTexts([""] + parts) == NonEmptyTexts(parts)
  {
    assert ([""] + parts)[1..] == parts;
  }

  lemma AncestorOfPath(absolute: bool, parts: seq<string>, n: nat)
    requires |parts| > 0 && AllSegments(parts) && n <= |parts|
    ensures n <= |Segments(PathOfSegments(absolute, parts))|
    ensures Ancestor(PathOfSegments(absolute, parts), n) == PathOfSegments(absolute, parts[..n])
  {
    SegmentsOfPath(absolute, parts);
    hide Segments, Root;
  }

  // ---------------------------------------------------------------- extensions

  lemma {:induction false} AfterLastIs(s: string, c: char, n: nat)
    requires n <= |s| && (n > 0 ==> s[n - 1] == c) && c !in s[n..]
    ensures AfterLast(s, c) == n
  {
    var m := AfterLast(s, c);
    assert forall i :: n <= i < |s| ==> s[i] == s[n..][i - n];
    assert forall i :: m <= i < |s| ==> s[i] == s[m..][i - m];
  }

  lemma ExtensionIs(path: string, extension: string)
    requires |Segments(path)| > 0
    requires EndsInExtension(Segments(path)[|Segments(path)| - 1], extension)
    ensures Extension(path) == extension
  {
    var fileName := Segments(path)[|Segments(path)| - 1];
    hide Segments, AfterLast;
    if extension == "" {
      if '.' !in fileName {
        assert fileName[0..] == fileName;
        AfterLastIs(fileName, '.', 0);
      } else {
        AfterLastIs(fileName, '.', 1);
      }
    } else {
      var n := |fileName| - |extension| + 1;
      assert fileName[n - 1] == extension[0] && fileName[n..] == extension[1..];
      AfterLastIs(fileName, '.', n);
    }
  }

  // ---------------------------------------------------------------- the patterns

  // Everything with the extension in the directory, everything in it, everything under it,
  // and everything under each directory above it, nearest first.
  ghost predicate ArePatterns(variants: seq<Variant>, absolute: bool, directories: seq<string>, extension: string) {
    var parent := PathOfSegments(absolute, directories);
    var first := if extension == "" then 0 else 1;
    && |variants| == first + 1 + |directories|
    && (extension != "" ==> variants[0] == Variant(parent + "/*" + extension, SiblingType))
    && variants[first] == Variant(parent + "/*", Directory)
    && forall i :: first < i < |variants| ==>
         variants[i] == Variant(PathOfSegments(absolute, directories[..|variants| - i]) + "/**", Subtree)
  }

  // The variants of a path of plain segments; a path without a directory has none.
  lemma PatternsOfPath(absolute: bool, directories: seq<string>, fileName: string, extension: string)
    requires AllSegments(directories) && Segment(fileName) && EndsInExtension(fileName, extension)
    ensures var variants := PathVariants(PathOfSegments(absolute, directories + [fileName]));
            if |directories| == 0 then variants == [] else ArePatterns(variants, absolute, directories, extension)
  {
    var parts, n := directories + [fileName], |directories|;
    var path := PathOfSegments(absolute, parts);
    SegmentsOfPath(absolute, parts);
    ExtensionIs(path, extension);
    forall k | 0 <= k <= n ensures Ancestor(path, k) == PathOfSegments(absolute, directories[..k]) {
      AncestorOfPath(absolute, parts, k);
      assert parts[..k] == directories[..k];
    }
    assert directories[..n] == directories;
    hide Segments, Extension, Ancestor, PathOfSegments;
    if n > 0 {
      PatternsInOrder(path, absolute, directories, extension);
    }
  }

  lemma PatternsInOrder(path: string, absolute: bool, directories: seq<string>, extension: string)
    requires |directories| > 0 && |Segments(path)| == |directories| + 1 && Extension(path) == extension
    requires forall k :: 0 <= k <= |directories| ==>
               Ancestor(path, k) == PathOfSegments(absolute, directories[..k])
    ensures ArePatterns(PathVariants(path), absolute, directories, extension)
  {
    hide Segments, Extension, PathOfSegments;
    var n, parent := |directories|, PathOfSegments(absolute, directories);
    assert directories[..n] == directories && Parent(path) == Ancestor(path, n);
    var subtrees, variants := Subtrees(path, n), PathVariants(path);
    var first := if extension == "" then 0 else 1;
    forall i | first < i < |variants|
      ensures variants[i] == Variant(PathOfSegments(absolute, directories[..|variants| - i]) + "/**", Subtree)
    {
      assert variants[i] == subtrees[i - first - 1];
    }
  }

  // ---------------------------------------------------------------- the reference that is a path

  predicate IsPathKey(key: string) {
    key == "path" || key == "glob" || key == "file" || key == "filename" || key == "uri"
  }

  ghost predicate HasPath(ref: ResourceRef) {
    ref.selector.Some? && exists k :: k in ref.selector.value && IsPathKey(k)
  }

  // The first reference with such a key is widened step by step, by one of its keys; without
  // one there are only the exact and the wildcard suggestion.
  lemma WidenedReference(d: Detail, key: string)
    requires PathKey(d, key)
    ensures var i := Target(d.chain);
            && (forall j :: 0 <= j < i ==> !HasPath(d.chain[j]))
            && (i == |d.chain| ==> |Suggestions(d, key)| == 2)
            && (i < |d.chain| ==>
                  && HasPath(d.chain[i]) && d.chain[i].selector.Some?
                  && key in d.chain[i].selector.value && IsPathKey(key))
  {
    hide Suggestions;
    var i := Target(d.chain);
    forall j | 0 <= j < i ensures !HasPath(d.chain[j]) { assert !PathLike(d.chain[j]); }
    if i == |d.chain| { OnlyTwo(d, key); }
  }

  lemma OnlyTwo(d: Detail, key: string)
    requires PathKey(d, key) && Target(d.chain) == |d.chain|
    ensures |Suggestions(d, key)| == 2
  {
  }

  // Any of the keys of that reference may be the one, and there is one.
  lemma PathKeysOf(d: Detail, key: string)
    requires Target(d.chain) < |d.chain|
    ensures var selector := d.chain[Target(d.chain)].selector;
            && selector.Some?
            && (PathKey(d, key) <==> key in selector.value && IsPathKey(key))
            && exists k :: k in selector.value && IsPathKey(k)
  {
    assert PathLike(d.chain[Target(d.chain)]);
  }
}
