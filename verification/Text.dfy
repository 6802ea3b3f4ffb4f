// Text operations that several components of the source share: joining and splitting,
// code-unit order, and decimal numerals.
module Text {

  // ---------------------------------------------------------------- separators

  function Join(parts: seq<string>, separator: string): string {
    if |parts| == 0 then ""
    else if |parts| == 1 then parts[0]
    else parts[0] + separator + Join(parts[1..], separator)
  }

  // Two texts that agree up to the first separator agree on both sides of it.
  lemma FirstSeparator(x: string, y: string, c: char, rest: string, rest': string)
    requires c !in x && c !in y
    requires x + [c] + rest == y + [c] + rest'
    ensures x == y && rest == rest'
  {
    var s := x + [c] + rest;
    assert s[|x|] == c && s[|y|] == c;
    assert forall i :: 0 <= i < |x| ==> s[i] == x[i] && x[i] in x;
    assert forall i :: 0 <= i < |y| ==> s[i] == y[i] && y[i] in y;
    assert x == s[..|x|] && y == s[..|y|];
    assert rest == s[|x| + 1..] && rest' == s[|y| + 1..];
  }

  // A join of several parts contains the separator, a single part is its own join.
  lemma JoinHasSeparator(parts: seq<string>, c: char)
    requires |parts| > 0
    ensures |parts| == 1 ==> Join(parts, [c]) == parts[0]
    ensures |parts| > 1 ==> Join(parts, [c]) == parts[0] + [c] + Join(parts[1..], [c]) && c in Join(parts, [c])
  {
    if |parts| > 1 {
      assert Join(parts, [c])[|parts[0]|] == c;
    }
  }

  // Non-empty lists of parts that avoid the separator are recovered from their join.
  lemma {:induction false} JoinIsInjective(a: seq<string>, b: seq<string>, c: char)
    requires |a| > 0 && |b| > 0 && Join(a, [c]) == Join(b, [c])
    requires (forall p :: p in a ==> c !in p) && (forall p :: p in b ==> c !in p)
    ensures a == b
  {
    JoinHasSeparator(a, c);
    JoinHasSeparator(b, c);
    assert a[0] in a && b[0] in b;
    if |a| > 1 && |b| > 1 {
      FirstSeparator(a[0], b[0], c, Join(a[1..], [c]), Join(b[1..], [c]));
      JoinIsInjective(a[1..], b[1..], c);
      assert a == [a[0]] + a[1..] && b == [b[0]] + b[1..];
    }
  }

  // A join contains no character that neither its parts nor the separator contain.
  lemma {:induction false} JoinAvoids(parts: seq<string>, c: char, d: char)
    requires c != d && forall p :: p in parts ==> c !in p
    ensures c !in Join(parts, [d])
  {
    if |parts| > 0 {
      assert parts[0] in parts;
      if |parts| > 1 { JoinAvoids(parts[1..], c, d); }
    }
  }

  // `split` at a one-character separator.
  function Split(text: string, c: char): (parts: seq<string>)
    ensures |parts| > 0
  {
    if |text| == 0 then [""]
    else
      var rest := Split(text[1..], c);
      if text[0] == c then [""] + rest else [[text[0]] + rest[0]] + rest[1..]
  }

  // Splitting distributes over a separator.
  lemma {:induction false} SplitAtSeparator(x: string, c: char, y: string)
    ensures Split(x + [c] + y, c) == Split(x, c) + Split(y, c)
  {
    var s := x + [c] + y;
    if |x| == 0 {
      assert s[1..] == y;
    } else {
      assert s[1..] == x[1..] + [c] + y;
      SplitAtSeparator(x[1..], c, y);
    }
  }

  lemma {:induction false} SplitWithoutSeparator(x: string, c: char)
    requires c !in x
    ensures Split(x, c) == [x]
  {
    if |x| > 0 {
      assert forall d :: d in x[1..] ==> d in x;
      SplitWithoutSeparator(x[1..], c);
      assert x == [x[0]] + x[1..];
    }
  }

  // A text is split exactly at its separators.
  lemma {:induction false} SplitOnce(x: string, c: char)
    ensures |Split(x, c)| == 1 <==> c !in x
  {
    if |x| > 0 {
      SplitOnce(x[1..], c);
      assert x == [x[0]] + x[1..];
    }
  }

  // A join is split into more parts than were joined if one of them has the separator.
  lemma {:induction false} SplitOfJoinLength(parts: seq<string>, c: char)
    requires |parts| > 0
    ensures |Split(Join(parts, [c]), c)| >= |parts|
    ensures |Split(Join(parts, [c]), c)| == |parts| ==> forall p :: p in parts ==> c !in p
  {
    SplitOnce(parts[0], c);
    if |parts| > 1 {
      JoinHasSeparator(parts, c);
      SplitAtSeparator(parts[0], c, Join(parts[1..], [c]));
      SplitOfJoinLength(parts[1..], c);
      assert parts == [parts[0]] + parts[1..];
    }
  }

  // A list as long as one that avoids the separator is recovered from an equal join.
  lemma JoinDecides(a: seq<string>, b: seq<string>, c: char)
    requires |a| == |b| && forall p :: p in b ==> c !in p
    ensures Join(a, [c]) == Join(b, [c]) <==> a == b
  {
    if |a| > 0 && Join(a, [c]) == Join(b, [c]) {
      SplitOfJoin(b, c);
      SplitOfJoinLength(a, c);
      JoinIsInjective(a, b, c);
    }
  }

  // Splitting a join gives the parts back.
  lemma {:induction false} SplitOfJoin(parts: seq<string>, c: char)
    requires |parts| > 0 && forall p :: p in parts ==> c !in p
    ensures Split(Join(parts, [c]), c) == parts
  {
    assert parts[0] in parts;
    SplitWithoutSeparator(parts[0], c);
    if |parts| > 1 {
      JoinHasSeparator(parts, c);
      SplitOfJoin(parts[1..], c);
      SplitAtSeparator(parts[0], c, Join(parts[1..], [c]));
    }
  }

  // The first position of a character, or the length of the text.
  function IndexOf(text: string, c: char): (i: nat)
    ensures i <= |text| && c !in text[..i] && (i < |text| ==> text[i] == c)
  {
    if |text| == 0 || text[0] == c then 0
    else
      var i := 1 + IndexOf(text[1..], c);
      assert text[..i] == [text[0]] + text[1..][..i - 1];
      i
  }

  lemma {:induction false} IndexOfFirst(text: string, c: char, i: nat)
    requires i < |text| && text[i] == c && c !in text[..i]
    ensures IndexOf(text, c) == i
  {
    if i > 0 {
      assert text[..i][0] == text[0];
      assert forall d :: d in text[1..][..i - 1] ==> d in text[..i] by {
        assert text[..i] == [text[0]] + text[1..][..i - 1];
      }
      IndexOfFirst(text[1..], c, i - 1);
    }
  }

  // The white space that `trim` removes.
  predicate IsSpace(c: char) {
    || c == ' ' || '\t' <= c <= '\r' || c == '\U{A0}' || c == '\U{1680}' || '\U{2000}' <= c <= '\U{200A}'
    || c == '\U{2028}' || c == '\U{2029}' || c == '\U{202F}' || c == '\U{205F}' || c == '\U{3000}' || c == '\U{FEFF}'
  }

  // The 25 characters that ECMAScript takes for white space or line ends, by code.
  lemma SpacesAre(c: char)
    ensures IsSpace(c) <==>
              c as int in {9, 10, 11, 12, 13, 32, 160, 5760, 8192, 8193, 8194, 8195, 8196, 8197, 8198, 8199, 8200, 8201,
                           8202, 8232, 8233, 8239, 8287, 12288, 65279}
  {
  }

  function TrimStart(s: string): string {
    if |s| > 0 && IsSpace(s[0]) then TrimStart(s[1..]) else s
  }

  function TrimEnd(s: string): string {
    if |s| > 0 && IsSpace(s[|s| - 1]) then TrimEnd(s[..|s| - 1]) else s
  }

  function Trim(s: string): string {
    TrimEnd(TrimStart(s))
  }

  predicate Blank(s: string) {
    forall c :: c in s ==> IsSpace(c)
  }

  predicate Trimmed(s: string) {
    |s| > 0 && !IsSpace(s[0]) && !IsSpace(s[|s| - 1])
  }

  // A text that one `data:` line carries as it is.
  predicate PlainLine(s: string) {
    Trimmed(s) && s != "[DONE]" && '\n' !in s
  }

  // Trimming takes exactly the space around a text away.
  lemma {:induction false} TrimStartOf(space: string, s: string)
    requires Blank(space) && (s == "" || !IsSpace(s[0]))
    ensures TrimStart(space + s) == s
  {
    if |space| > 0 {
      assert space[0] in space && (space + s)[1..] == space[1..] + s;
      assert forall c :: c in space[1..] ==> c in space;
      TrimStartOf(space[1..], s);
    } else {
      assert space + s == s;
    }
  }

  lemma {:induction false} TrimEndOf(s: string, space: string)
    requires Blank(space) && (s == "" || !IsSpace(s[|s| - 1]))
    ensures TrimEnd(s + space) == s
  {
    if |space| > 0 {
      var n := |space| - 1;
      assert space[n] in space && (s + space)[..|s + space| - 1] == s + space[..n];
      assert forall c :: c in space[..n] ==> c in space;
      TrimEndOf(s, space[..n]);
    } else {
      assert s + space == s;
    }
  }

  lemma {:induction false} TrimStartParts(s: string) returns (space: string)
    ensures s == space + TrimStart(s) && Blank(space)
    ensures TrimStart(s) == "" || !IsSpace(TrimStart(s)[0])
  {
    hide IsSpace;
    if |s| > 0 && IsSpace(s[0]) {
      var rest := TrimStartParts(s[1..]);
      space := [s[0]] + rest;
      SpaceBefore(s[0], rest, TrimStart(s[1..]));
      assert s == [s[0]] + s[1..];
    } else {
      space := "";
      assert s == "" + s;
    }
  }

  lemma SpaceBefore(c: char, space: string, s: string)
    requires IsSpace(c) && Blank(space)
    ensures Blank([c] + space) && [c] + space + s == [c] + (space + s)
  {
  }

  lemma {:induction false} TrimEndParts(s: string) returns (space: string)
    ensures s == TrimEnd(s) + space && Blank(space)
    ensures TrimEnd(s) == "" || (!IsSpace(TrimEnd(s)[|TrimEnd(s)| - 1]) && TrimEnd(s)[0] == s[0])
  {
    if |s| > 0 && IsSpace(s[|s| - 1]) {
      var rest := TrimEndParts(s[..|s| - 1]);
      space := rest + [s[|s| - 1]];
      assert s == s[..|s| - 1] + [s[|s| - 1]];
    } else {
      space := "";
      assert s == s + "";
    }
  }

  // What trimming gives: the text between the outer spaces, which is empty only for blank ones.
  lemma TrimParts(s: string) returns (before: string, after: string)
    ensures s == before + Trim(s) + after && Blank(before) && Blank(after)
    ensures Trim(s) == "" || Trimmed(Trim(s))
  {
    before := TrimStartParts(s);
    after := TrimEndParts(TrimStart(s));
  }

  lemma TrimOf(before: string, s: string, after: string)
    requires Blank(before) && Blank(after) && Trimmed(s)
    ensures Trim(before + s + after) == s
  {
    assert before + s + after == before + (s + after);
    TrimStartOf(before, s + after);
    TrimEndOf(s, after);
  }

  function Concat(pieces: seq<string>): string {
    if |pieces| == 0 then "" else Concat(pieces[..|pieces| - 1]) + pieces[|pieces| - 1]
  }

  lemma {:induction false} ConcatHead(pieces: seq<string>)
    requires |pieces| > 0
    ensures Concat(pieces) == pieces[0] + Concat(pieces[1..])
  {
    if |pieces| == 1 {
      assert pieces[..0] == [] && pieces[1..] == [];
    } else {
      var init := pieces[..|pieces| - 1];
      ConcatHead(init);
      assert pieces[1..][..|pieces| - 2] == init[1..];
    }
  }

  // ---------------------------------------------------------------- code-unit order

  // The strict order of `<` on strings.
  predicate Less(a: string, b: string) {
    if |b| == 0 then false
    else if |a| == 0 then true
    else if a[0] != b[0] then a[0] < b[0]
    else Less(a[1..], b[1..])
  }

  lemma {:induction false} LessIsTotal(a: string, b: string)
    ensures a == b || Less(a, b) || Less(b, a)
  {
    if |a| > 0 && |b| > 0 && a[0] == b[0] {
      LessIsTotal(a[1..], b[1..]);
      assert a == [a[0]] + a[1..] && b == [b[0]] + b[1..];
    }
  }

  lemma {:induction false} LessIsStrict(a: string, b: string)
    ensures !(Less(a, b) && Less(b, a)) && !Less(a, a)
  {
    if |a| > 0 {
      LessIsStrict(a[1..], a[1..]);
      if |b| > 0 && a[0] == b[0] { LessIsStrict(a[1..], b[1..]); }
    }
  }

  lemma {:induction false} LessIsTransitive(a: string, b: string, c: string)
    requires Less(a, b) && Less(b, c)
    ensures Less(a, c)
  {
    if |a| > 0 && a[0] == b[0] == c[0] {
      LessIsTransitive(a[1..], b[1..], c[1..]);
    }
  }

  ghost predicate Ascending(keys: seq<string>) {
    forall i, j :: 0 <= i < j < |keys| ==> Less(keys[i], keys[j])
  }

  // Two ascending lists of the same keys are the same list.
  lemma {:induction false} AscendingIsUnique(a: seq<string>, b: seq<string>)
    requires Ascending(a) && Ascending(b) && forall k :: k in a <==> k in b
    ensures a == b
  {
    assert (|a| > 0 ==> a[0] in b) && (|b| > 0 ==> b[0] in a);
    if |a| > 0 && |b| > 0 {
      var i :| 0 <= i < |b| && b[i] == a[0];
      var j :| 0 <= j < |a| && a[j] == b[0];
      if i > 0 && j > 0 { LessIsStrict(a[0], b[0]); }
      assert a[0] == b[0];
      forall k ensures k in a[1..] <==> k in b[1..] {
        if k in a[1..] { LessIsStrict(k, a[0]); assert k in b; assert k != b[0]; }
        if k in b[1..] { LessIsStrict(k, b[0]); assert k in a; assert k != a[0]; }
      }
      AscendingIsUnique(a[1..], b[1..]);
      assert a == [a[0]] + a[1..] && b == [b[0]] + b[1..];
    }
  }

  ghost predicate IsLeast(k: string, keys: set<string>) {
    k in keys && forall x :: x in keys && x != k ==> Less(k, x)
  }

  lemma {:induction false} Least(keys: set<string>) returns (k: string)
    requires keys != {}
    ensures IsLeast(k, keys)
    decreases |keys|
  {
    hide Less;
    k :| k in keys;
    var others := keys - {k};
    assert forall x :: x in keys <==> x == k || x in others;
    if others != {} {
      var m := Least(others);
      LessIsTotal(k, m);
      if Less(k, m) {
        forall x | x in others ensures Less(k, x) {
          if x != m { LessIsTransitive(k, m, x); }
        }
      } else {
        k := m;
      }
    }
  }

  lemma LeastExists(keys: set<string>)
    requires keys != {}
    ensures exists k :: k in keys && forall x :: x in keys && x != k ==> Less(k, x)
    ensures forall a, b :: a in keys && b in keys ==> !(Less(a, b) && Less(b, a))
  {
    hide Less;
    forall a, b | a in keys && b in keys ensures !(Less(a, b) && Less(b, a)) { LessIsStrict(a, b); }
    var k := Least(keys);
  }

  // The keys of an object in code-unit order.
  function SortedKeys(keys: set<string>): seq<string> {
    if keys == {} then []
    else
      LeastExists(keys);
      var k :| k in keys && forall x :: x in keys && x != k ==> Less(k, x);
      [k] + SortedKeys(keys - {k})
  }

  lemma {:induction false} SortedKeysFacts(keys: set<string>)
    ensures Ascending(SortedKeys(keys))
    ensures forall k :: k in SortedKeys(keys) <==> k in keys
  {
    if keys != {} {
      var k := SortedKeys(keys)[0];
      var rest := SortedKeys(keys - {k});
      assert SortedKeys(keys) == [k] + rest;
      SortedKeysFacts(keys - {k});
      assert forall j :: 0 <= j < |rest| ==> rest[j] in rest;
    }
  }

  // ---------------------------------------------------------------- decimal numerals

  predicate IsDigit(c: char) {
    '0' <= c <= '9'
  }

  predicate AllDigits(s: string) {
    forall c :: c in s ==> IsDigit(c)
  }

  function Digit(d: nat): (c: char)
    requires d < 10
    ensures IsDigit(c) && DigitValue(c) == d
  {
    '0' + d as char
  }

  function DigitValue(c: char): (d: nat)
    requires IsDigit(c)
    ensures d < 10
  {
    (c - '0') as nat
  }

  function Decimal(n: nat): (s: string)
    ensures |s| > 0 && AllDigits(s)
  {
    if n < 10 then [Digit(n)] else Decimal(n / 10) + [Digit(n % 10)]
  }

  function NumberOf(s: string): nat
    requires AllDigits(s)
  {
    if |s| == 0 then 0 else 10 * NumberOf(s[..|s| - 1]) + DigitValue(s[|s| - 1])
  }

  // Printing and reading a decimal numeral gives the number back.
  lemma {:induction false} DecimalRoundTrip(n: nat)
    ensures NumberOf(Decimal(n)) == n
  {
    if n < 10 {
      assert [Digit(n)][..0] == "";
    } else {
      DecimalRoundTrip(n / 10);
      assert (Decimal(n / 10) + [Digit(n % 10)])[..|Decimal(n)| - 1] == Decimal(n / 10);
    }
  }

  lemma DecimalIsInjective(m: nat, n: nat)
    requires Decimal(m) == Decimal(n)
    ensures m == n
  {
    DecimalRoundTrip(m);
    DecimalRoundTrip(n);
  }
}
