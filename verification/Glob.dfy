// Matching of selector values: a granted value with '*' is a glob over the required value
// (packages/grants/src/cli-permissions.ts:118-125).
module Glob {

  const LENGTH_LIMIT: nat := 256

  // '.' of a regular expression matches anything else.
  predicate LineTerminator(c: char) {
    c == '\n' || c == '\r' || c == '\U{2028}' || c == '\U{2029}'
  }

  predicate Metacharacter(c: char) {
    c in ".+?^${}()|[]\\"
  }

  // First replacement: escape every metacharacter except '*'.
  function EscapeMetacharacters(p: string): string {
    if |p| == 0 then ""
    else (if Metacharacter(p[0]) then ['\\', p[0]] else [p[0]]) + EscapeMetacharacters(p[1..])
  }

  // Second replacement: every '*' becomes '.*'.
  function ExpandStars(s: string): string {
    if |s| == 0 then ""
    else (if s[0] == '*' then ".*" else [s[0]]) + ExpandStars(s[1..])
  }

  // How a regular expression engine reads an anchored source text, restricted to escaped
  // characters, '.*' and plain characters; any other construct matches nothing here.
  predicate RegexMatches(source: string, text: string)
    decreases |source| + |text|
  {
    if |source| == 0 then |text| == 0
    else if source[0] == '\\' then
      |source| > 1 && |text| > 0 && text[0] == source[1] && RegexMatches(source[2..], text[1..])
    else if source[0] == '.' then
      && |source| > 1 && source[1] == '*'
      && (RegexMatches(source[2..], text)
          || (|text| > 0 && !LineTerminator(text[0]) && RegexMatches(source, text[1..])))
    else
      && !Metacharacter(source[0]) && source[0] != '*'
      && |text| > 0 && text[0] == source[0] && RegexMatches(source[1..], text[1..])
  }

  // `selectorValueMatches`
  predicate Matches(granted: string, required: string) {
    if '*' !in granted then granted == required
    else if |granted| > LENGTH_LIMIT then false
    else RegexMatches(ExpandStars(EscapeMetacharacters(granted)), required)
  }

  // What a glob means: '*' stands for any run without line terminators, every other
  // character for itself.
  predicate GlobMatches(p: string, text: string)
    decreases |p| + |text|
  {
    if |p| == 0 then |text| == 0
    else if p[0] == '*' then
      || GlobMatches(p[1..], text)
      || (|text| > 0 && !LineTerminator(text[0]) && GlobMatches(p, text[1..]))
    else |text| > 0 && text[0] == p[0] && GlobMatches(p[1..], text[1..])
  }

  // The compiled expression has exactly the meaning of the glob: escaping makes every
  // other character literal, wherever it stands.
  lemma {:induction false} CompiledGlobIsGlob(p: string, text: string)
    ensures RegexMatches(ExpandStars(EscapeMetacharacters(p)), text) == GlobMatches(p, text)
    decreases |p| + |text|
  {
    if |p| > 0 {
      var source := ExpandStars(EscapeMetacharacters(p));
      var rest := ExpandStars(EscapeMetacharacters(p[1..]));
      if Metacharacter(p[0]) {
        assert EscapeMetacharacters(p)[1..] == [p[0]] + EscapeMetacharacters(p[1..]);
        assert ([p[0]] + EscapeMetacharacters(p[1..]))[1..] == EscapeMetacharacters(p[1..]);
        assert source == ['\\', p[0]] + rest;
      } else {
        assert EscapeMetacharacters(p)[1..] == EscapeMetacharacters(p[1..]);
        assert source == (if p[0] == '*' then ".*" else [p[0]]) + rest;
      }
      if |text| > 0 {
        CompiledGlobIsGlob(p[1..], text[1..]);
        if p[0] == '*' { CompiledGlobIsGlob(p, text[1..]); }
      }
      if p[0] == '*' {
        CompiledGlobIsGlob(p[1..], text);
        assert source[2..] == rest;
      } else if Metacharacter(p[0]) {
        assert source[2..] == rest;
      } else {
        assert source[1..] == rest;
      }
    }
  }

  lemma MatchesMeansGlob(granted: string, required: string)
    ensures '*' in granted
            ==> (Matches(granted, required) <==> |granted| <= LENGTH_LIMIT && GlobMatches(granted, required))
  {
    CompiledGlobIsGlob(granted, required);
  }

  lemma {:induction false} LiteralMatchesItself(p: string, text: string)
    requires '*' !in p
    ensures GlobMatches(p, text) <==> p == text
  {
    if |p| > 0 {
      assert p[0] in p;
      assert forall c :: c in p[1..] ==> c in p;
      if |text| > 0 {
        LiteralMatchesItself(p[1..], text[1..]);
        assert p == [p[0]] + p[1..] && text == [text[0]] + text[1..];
      }
    }
  }

  // Short enough to take part in matching at all.
  predicate Bounded(value: string) {
    '*' in value ==> |value| <= LENGTH_LIMIT
  }

  // For bounded values the two forms of comparison are one.
  lemma BoundedMatchesIsGlob(granted: string, required: string)
    requires Bounded(granted)
    ensures Matches(granted, required) == GlobMatches(granted, required)
  {
    if '*' in granted { MatchesMeansGlob(granted, required); } else { LiteralMatchesItself(granted, required); }
  }

  // ---------------------------------------------------------------- the documented reading

  predicate SingleLine(text: string) {
    forall c :: c in text ==> !LineTerminator(c)
  }

  // The pattern `*` matches exactly the texts of one line.
  lemma {:induction false} StarIsSingleLine(text: string)
    ensures GlobMatches("*", text) <==> SingleLine(text)
  {
    assert "*"[1..] == "";
    if |text| > 0 {
      StarIsSingleLine(text[1..]);
      assert text == [text[0]] + text[1..];
    }
  }

  // The meaning the documentation gives a glob: '*' stands for any characters.
  predicate DocumentedMatches(p: string, text: string)
    decreases |p| + |text|
  {
    if |p| == 0 then |text| == 0
    else if p[0] == '*' then DocumentedMatches(p[1..], text) || (|text| > 0 && DocumentedMatches(p, text[1..]))
    else |text| > 0 && text[0] == p[0] && DocumentedMatches(p[1..], text[1..])
  }

  lemma {:induction false} DocumentedOnOneLine(p: string, text: string)
    requires SingleLine(text)
    ensures DocumentedMatches(p, text) <==> GlobMatches(p, text)
    decreases |p| + |text|
  {
    if |p| > 0 {
      if |text| > 0 {
        assert text[0] in text && forall c :: c in text[1..] ==> c in text;
        DocumentedOnOneLine(p[1..], text[1..]);
        DocumentedOnOneLine(p, text[1..]);
      }
      DocumentedOnOneLine(p[1..], text);
    }
  }

  lemma {:induction false} DocumentedStar(text: string)
    ensures DocumentedMatches("*", text)
  {
    assert "*"[1..] == "";
    if |text| > 0 { DocumentedStar(text[1..]); }
  }

  // The code meets the documentation on a text, whatever the pattern, exactly when the text
  // is one line.
  lemma DocumentedExactly(text: string)
    ensures (forall p :: '*' in p && |p| <= LENGTH_LIMIT ==> (Matches(p, text) <==> DocumentedMatches(p, text)))
            <==> SingleLine(text)
  {
    if SingleLine(text) {
      forall p | '*' in p && |p| <= LENGTH_LIMIT ensures Matches(p, text) <==> DocumentedMatches(p, text) {
        MatchesMeansGlob(p, text);
        DocumentedOnOneLine(p, text);
      }
    } else {
      MatchesMeansGlob("*", text);
      StarIsSingleLine(text);
      DocumentedStar(text);
    }
  }

  // A text of two lines that `*` does not match.
  lemma StarRejectsLineFeed()
    ensures !Matches("*", "a\nb")
  {
    assert '\n' in "a\nb";
    StarIsSingleLine("a\nb");
    MatchesMeansGlob("*", "a\nb");
  }

  // ---------------------------------------------------------------- preorder

  lemma {:induction false} GlobReflexive(p: string)
    ensures GlobMatches(p, p)
  {
    if |p| > 0 {
      GlobReflexive(p[1..]);
      if p[0] == '*' {
        assert GlobMatches(p, p[1..]);
      }
    }
  }

  // A pattern that matches the text of another pattern matches everything the other does.
  lemma {:induction false} GlobTransitive(a: string, b: string, c: string)
    requires GlobMatches(a, b) && GlobMatches(b, c)
    ensures GlobMatches(a, c)
    decreases |a| + |b| + |c|
  {
    if |a| > 0 {
      if a[0] == '*' {
        if GlobMatches(a[1..], b) {
          GlobTransitive(a[1..], b, c);
        } else if b[0] == '*' {
          // the run of a's star continues through b's star
          if GlobMatches(b[1..], c) {
            GlobTransitive(a, b[1..], c);
          } else {
            GlobTransitive(a, b, c[1..]);
          }
        } else {
          GlobTransitive(a, b[1..], c[1..]);
        }
      } else {
        GlobTransitive(a[1..], b[1..], c[1..]);
      }
    }
  }

  lemma MatchesTransitive(a: string, b: string, c: string)
    requires Matches(a, b) && Matches(b, c)
    ensures Matches(a, c)
  {
    if '*' in a && '*' in b {
      MatchesMeansGlob(a, b);
      MatchesMeansGlob(b, c);
      GlobTransitive(a, b, c);
      MatchesMeansGlob(a, c);
    }
  }

  // A value matches itself exactly when it is not an overlong glob.
  lemma MatchesReflexive(value: string)
    ensures Matches(value, value) <==> Bounded(value)
  {
    if '*' in value {
      MatchesMeansGlob(value, value);
      GlobReflexive(value);
    }
  }

  // ---------------------------------------------------------------- inclusion

  function Instantiate(p: string, c: char): (t: string)
    ensures |t| == |p| && forall i :: 0 <= i < |p| ==> t[i] == if p[i] == '*' then c else p[i]
  {
    if |p| == 0 then "" else [if p[0] == '*' then c else p[0]] + Instantiate(p[1..], c)
  }

  lemma {:induction false} InstanceMatches(p: string, c: char)
    requires !LineTerminator(c)
    ensures GlobMatches(p, Instantiate(p, c))
  {
    if |p| > 0 {
      InstanceMatches(p[1..], c);
      assert Instantiate(p, c)[1..] == Instantiate(p[1..], c);
      if p[0] == '*' {
        assert GlobMatches(p, Instantiate(p, c)[1..]);
      }
    }
  }

  // A pattern that does not mention c matches b's text if it matches b with c for each star.
  lemma {:induction false} InstanceReflects(a: string, b: string, c: char)
    requires c !in a && c != '*' && GlobMatches(a, Instantiate(b, c))
    ensures GlobMatches(a, b)
    decreases |a| + |b|
  {
    if |a| > 0 {
      var t := Instantiate(b, c);
      assert forall x :: x in a[1..] ==> x in a;
      assert a[0] in a;
      if |b| > 0 {
        assert t[1..] == Instantiate(b[1..], c);
      }
      if a[0] == '*' {
        if GlobMatches(a[1..], t) {
          InstanceReflects(a[1..], b, c);
        } else {
          InstanceReflects(a, b[1..], c);
        }
      } else {
        InstanceReflects(a[1..], b[1..], c);
      }
    }
  }

  // One of |p| + 1 consecutive characters does not occur in p.
  lemma UnusedCharacter(p: string, low: nat) returns (c: char)
    requires 0x100 <= low && low + |p| <= 0x1000
    ensures low <= c as nat <= low + |p| && c !in p
  {
    c := low as char;
    if c in p {
      var i :| 0 <= i < |p| && p[i] == c;
      var others := p[..i] + p[i + 1..];
      assert forall k :: 0 <= k < |p| && k != i ==> p[k] == others[if k < i then k else k - 1];
      c := UnusedCharacter(others, low + 1);
    }
  }

  // Every bounded value matches the instances of itself.
  lemma InstanceOfItself(b: string, c: char)
    requires Bounded(b) && !LineTerminator(c) && c != '*'
    ensures '*' !in Instantiate(b, c) && Matches(b, Instantiate(b, c))
    ensures '*' !in b ==> Instantiate(b, c) == b
  {
    InstanceMatches(b, c);
    BoundedMatchesIsGlob(b, Instantiate(b, c));
  }

  // What one value does not match another for: a concrete value, as long as the other's
  // text, that only the other matches.
  lemma TellingInstance(a: string, b: string) returns (t: string)
    requires Bounded(b) && !Matches(a, b)
    ensures '*' !in t && |t| == |b| && Matches(b, t) && !Matches(a, t)
  {
    var c := 'x';
    if '*' in a && Bounded(a) { c := UnusedCharacter(a, 0x100); }
    InstanceOfItself(b, c);
    InstanceOfItself(b, 'y');
    t := Instantiate(b, c);
    if '*' in b && Matches(a, t) {
      if '*' in a {
        BoundedMatchesIsGlob(a, t);
        InstanceReflects(a, b, c);
        BoundedMatchesIsGlob(a, b);
      } else {
        // two instances differ, and a literal is at most one of them
        var i :| 0 <= i < |b| && b[i] == '*';
        t := Instantiate(b, 'y');
        assert t[i] != Instantiate(b, c)[i];
      }
    }
  }

  // Matching decides inclusion: one value matches another exactly when it matches every
  // concrete value (one without '*') that the other matches.
  lemma MatchesIsInclusion(a: string, b: string)
    requires Bounded(b)
    ensures Matches(a, b) <==> forall t :: '*' !in t && Matches(b, t) ==> Matches(a, t)
  {
    if Matches(a, b) {
      forall t | '*' !in t && Matches(b, t) ensures Matches(a, t) { MatchesTransitive(a, b, t); }
    } else {
      var t := TellingInstance(a, b);
    }
  }

  // The limit counts for globs only, and is 256 characters.
  lemma LimitOfGlobs(granted: string, required: string)
    ensures Bounded(granted) <==> '*' !in granted || |granted| <= 256
    ensures !Bounded(granted) ==> !Matches(granted, required)
    ensures '*' !in granted ==> (Matches(granted, required) <==> granted == required)
  {
  }
}
