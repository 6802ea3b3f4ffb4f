// What JSON.stringify writes determines the value that JSON.parse reads back, whatever the
// order of the keys, and is one line.
module JsonText {
  import opened Wrappers
  import opened Text
  import opened Json

  // ---------------------------------------------------------------- a text has one value

  // The keys that are written.
  function Live(keys: seq<string>, fields: map<string, Js>): seq<string> {
    if |keys| == 0 then []
    else (if keys[0] in fields && !fields[keys[0]].Undefined? then [keys[0]] else []) + Live(keys[1..], fields)
  }

  ghost predicate AllLive(keys: seq<string>, j: Js) {
    j.Object? && WellFormed(j) && forall k :: k in keys ==> k in j.fields && !j.fields[k].Undefined?
  }

  lemma {:induction false} LiveMembers(keys: seq<string>, fields: map<string, Js>)
    ensures forall k :: k in Live(keys, fields) <==> k in keys && k in fields && !fields[k].Undefined?
  {
    if |keys| > 0 {
      LiveMembers(keys[1..], fields);
      assert keys == [keys[0]] + keys[1..];
    }
  }

  lemma {:induction false} OnlyLiveMatter(keys: seq<string>, j: Js, first: bool, tail: string)
    requires j.Object?
    ensures StringifyMembers(keys, j, first, tail) == StringifyMembers(Live(keys, j.fields), j, first, tail)
    decreases |keys|
  {
    if |keys| > 0 {
      var k, rest := keys[0], Live(keys[1..], j.fields);
      if k !in j.fields || j.fields[k].Undefined? {
        OnlyLiveMatter(keys[1..], j, first, tail);
        assert [] + rest == rest;
      } else {
        OnlyLiveMatter(keys[1..], j, false, tail);
        assert ([k] + rest)[1..] == rest;
        hide StringifyTo;
      }
    }
  }

  function KindOfJs(j: Js): nat {
    match j
    case Undefined => 0
    case Null => 0
    case Bool(b) => if b then 1 else 2
    case Number(_) => 3
    case Str(_) => 4
    case Array(_) => 5
    case Object(_, _) => 6
  }

  lemma StringifyStart(j: Js, x: string)
    ensures |StringifyTo(j, x)| > 0 && KindOf(StringifyTo(j, x)[0]) == KindOfJs(j)
  {
    if j.Number? { NumeralStart(j.n, x); }
  }

  lemma JsItemsStart(items: seq<Js>, first: bool, x: string)
    ensures var s := StringifyItems(items, first, [']'] + x);
            && |s| > 0 && (s[0] == ']' <==> |items| == 0)
            && (!first ==> Stops(s) && (|items| > 0 ==> s[0] == ','))
  {
    if |items| > 0 {
      var rest := StringifyTo(items[0], StringifyItems(items[1..], false, [']'] + x));
      StringifyStart(items[0], StringifyItems(items[1..], false, [']'] + x));
      hide StringifyTo;
      Cancel(',', rest, rest);
      assert "" + rest == rest;
    }
  }

  lemma JsMembersStart(keys: seq<string>, j: Js, first: bool, x: string)
    requires AllLive(keys, j)
    ensures var s := StringifyMembers(keys, j, first, ['}'] + x);
            && |s| > 0 && (s[0] == '}' <==> |keys| == 0)
            && (!first ==> Stops(s))
  {
    if |keys| > 0 {
      assert keys[0] in keys;
      var member := QuoteTo(keys[0],
                            [':'] + StringifyTo(j.fields[keys[0]], StringifyMembers(keys[1..], j, false, ['}'] + x)));
      assert member[0] == '"';
      hide QuoteTo;
      assert "" + member == member;
    }
  }

  // A text followed by what can follow a value determines the value and what follows.
  lemma {:induction false} StringifyIsPrefixFree(a: Js, b: Js, x: string, y: string)
    requires WellFormed(a) && WellFormed(b)
    requires Stops(x) && Stops(y) && StringifyTo(a, x) == StringifyTo(b, y)
    ensures Meaning(a) == Meaning(b) && x == y
    decreases a, 2, 0
  {
    StringifyStart(a, x);
    StringifyStart(b, y);
    match a
    case Undefined => CancelPrefix("null", x, y);
    case Null => CancelPrefix("null", x, y);
    case Bool(v) => CancelPrefix(if v then "true" else "false", x, y);
    case Number(m) => NumeralIsPrefixFree(m, b.n, x, y);
    case Str(s) => QuoteIsPrefixFree(s, b.s, x, y);
    case Array(items) =>
      Cancel('[', StringifyItems(items, true, [']'] + x), StringifyItems(b.items, true, [']'] + y));
      JsItemsArePrefixFree(items, b.items, true, x, y);
      assert Meaning(a).items == Meaning(b).items;
    case Object(_, _) => JsObjectsArePrefixFree(a, b, x, y);
  }

  lemma LiveKeys(j: Js)
    requires j.Object? && WellFormed(j)
    ensures var ks := Live(Enumeration(j.order), j.fields);
            && AllLive(ks, j)
            && (forall k :: k in ks <==> k in Meaning(j).fields)
            && forall tail :: StringifyTo(j, tail) == ['{'] + StringifyMembers(ks, j, true, ['}'] + tail)
  {
    EnumerationMembers(j.order);
    LiveMembers(Enumeration(j.order), j.fields);
    forall tail
      ensures StringifyTo(j, tail)
              == ['{'] + StringifyMembers(Live(Enumeration(j.order), j.fields), j, true, ['}'] + tail)
    {
      OnlyLiveMatter(Enumeration(j.order), j, true, ['}'] + tail);
      hide StringifyMembers;
    }
    hide Enumeration, Live, StringifyTo;
  }

  lemma {:induction false} JsObjectsArePrefixFree(a: Js, b: Js, x: string, y: string)
    requires a.Object? && b.Object? && WellFormed(a) && WellFormed(b) && StringifyTo(a, x) == StringifyTo(b, y)
    ensures Meaning(a) == Meaning(b) && x == y
    decreases a, 1, 0
  {
    var ks, ls := Live(Enumeration(a.order), a.fields), Live(Enumeration(b.order), b.fields);
    LiveKeys(a);
    LiveKeys(b);
    Cancel('{', StringifyMembers(ks, a, true, ['}'] + x), StringifyMembers(ls, b, true, ['}'] + y));
    hide Enumeration, Live, StringifyTo, StringifyMembers, WellFormed;
    JsMembersArePrefixFree(ks, ls, a, b, true, x, y);
    SameMeaning(ks, a, b);
  }

  lemma SameMeaning(ks: seq<string>, a: Js, b: Js)
    requires AllLive(ks, a) && AllLive(ks, b)
    requires forall k :: k in ks ==> Meaning(a.fields[k]) == Meaning(b.fields[k])
    requires (forall k :: k in ks <==> k in Meaning(a).fields) && (forall k :: k in ks <==> k in Meaning(b).fields)
    ensures Meaning(a) == Meaning(b)
  {
    hide WellFormed;
    var v, w := Meaning(a).fields, Meaning(b).fields;
    assert v.Keys == w.Keys;
    assert forall k :: k in v ==> v[k] == Meaning(a.fields[k]) && w[k] == Meaning(b.fields[k]);
    assert v == w;
  }

  lemma {:induction false} JsItemsArePrefixFree(vs: seq<Js>, ws: seq<Js>, first: bool, x: string, y: string)
    requires (forall i :: 0 <= i < |vs| ==> WellFormed(vs[i])) && (forall i :: 0 <= i < |ws| ==> WellFormed(ws[i]))
    requires StringifyItems(vs, first, [']'] + x) == StringifyItems(ws, first, [']'] + y)
    ensures |vs| == |ws| && x == y && forall i :: 0 <= i < |vs| ==> Meaning(vs[i]) == Meaning(ws[i])
    decreases vs, 0, 0
  {
    hide WellFormed, Meaning;
    JsItemsStart(vs, first, x);
    JsItemsStart(ws, first, y);
    Cancel(']', x, y);
    if |vs| > 0 && |ws| > 0 {
      var tv, tw := StringifyItems(vs[1..], false, [']'] + x), StringifyItems(ws[1..], false, [']'] + y);
      CancelPrefix(Comma(first), StringifyTo(vs[0], tv), StringifyTo(ws[0], tw));
      JsItemsStart(vs[1..], false, x);
      JsItemsStart(ws[1..], false, y);
      StringifyIsPrefixFree(vs[0], ws[0], tv, tw);
      JsItemsArePrefixFree(vs[1..], ws[1..], false, x, y);
      forall i | 0 <= i < |vs| ensures Meaning(vs[i]) == Meaning(ws[i]) {
        if i > 0 { assert vs[1..][i - 1] == vs[i] && ws[1..][i - 1] == ws[i]; }
      }
    }
  }

  lemma {:induction false} JsMembersArePrefixFree(ks: seq<string>, ls: seq<string>, a: Js, b: Js, first: bool,
                                                  x: string, y: string)
    requires AllLive(ks, a) && AllLive(ls, b)
    requires StringifyMembers(ks, a, first, ['}'] + x) == StringifyMembers(ls, b, first, ['}'] + y)
    ensures ks == ls && x == y && forall k :: k in ks ==> Meaning(a.fields[k]) == Meaning(b.fields[k])
    decreases a, 0, |ks|
  {
    JsMembersStart(ks, a, first, x);
    JsMembersStart(ls, b, first, y);
    Cancel('}', x, y);
    if |ks| > 0 && |ls| > 0 {
      assert ks[0] in ks && ls[0] in ls;
      var p, q := a.fields[ks[0]], b.fields[ls[0]];
      assert WellFormed(p) && WellFormed(q);
      hide WellFormed, Meaning;
      var tv, tw := StringifyMembers(ks[1..], a, false, ['}'] + x), StringifyMembers(ls[1..], b, false, ['}'] + y);
      var mv, mw := StringifyTo(p, tv), StringifyTo(q, tw);
      CancelPrefix(Comma(first), QuoteTo(ks[0], [':'] + mv), QuoteTo(ls[0], [':'] + mw));
      QuoteIsPrefixFree(ks[0], ls[0], [':'] + mv, [':'] + mw);
      Cancel(':', mv, mw);
      JsMembersStart(ks[1..], a, false, x);
      JsMembersStart(ls[1..], b, false, y);
      StringifyIsPrefixFree(p, q, tv, tw);
      JsMembersArePrefixFree(ks[1..], ls[1..], a, b, false, x, y);
      assert ks == [ks[0]] + ks[1..] && ls == [ls[0]] + ls[1..];
    }
  }

  function Stringify(j: Js): string {
    StringifyTo(j, "")
  }

  // Objects and values with the same text mean the same.
  lemma StringifyDetermines(a: Js, b: Js)
    requires WellFormed(a) && WellFormed(b) && Stringify(a) == Stringify(b)
    ensures Meaning(a) == Meaning(b)
  {
    StringifyIsPrefixFree(a, b, "", "");
  }

  ghost predicate Writes(j: Js, text: string) {
    WellFormed(j) && Stringify(j) == text
  }

  ghost function WriterOf(text: string): (j: Js)
    requires exists j :: Writes(j, text)
    ensures Writes(j, text)
  {
    var j :| Writes(j, text);
    j
  }

  // JSON.parse on the texts that JSON.stringify writes.
  ghost function Parse(text: string): Option<Value> {
    if exists j :: Writes(j, text) then Some(Meaning(WriterOf(text))) else None
  }

  lemma ParseReadsBack(j: Js)
    requires WellFormed(j)
    ensures Parse(Stringify(j)) == Some(Meaning(j))
  {
    assert Writes(j, Stringify(j));
    assert Writes(WriterOf(Stringify(j)), Stringify(j));
    StringifyDetermines(WriterOf(Stringify(j)), j);
  }

  // ---------------------------------------------------------------- a text is one line

  // The text is one line if what follows is, and ends in what follows.
  predicate LineBefore(s: string, tail: string) {
    |s| >= |tail| && s[|s| - |tail|..] == tail && ('\n' !in tail ==> '\n' !in s)
  }

  lemma LinesCompose(s: string, t: string, tail: string)
    requires LineBefore(s, t) && LineBefore(t, tail)
    ensures LineBefore(s, tail)
  {
    assert s[|s| - |tail|..] == s[|s| - |t|..][|t| - |tail|..];
  }

  lemma LineAfter(head: string, s: string, tail: string)
    requires LineBefore(s, tail) && '\n' !in head
    ensures LineBefore(head + s, tail)
  {
    assert (head + s)[|head + s| - |s|..] == s;
    LinesCompose(head + s, s, tail);
  }

  lemma HexIsNoLineFeed(d: nat)
    requires d < 16
    ensures HexDigit(d) != '\n'
  {
  }

  lemma EscapeIsLine(c: char)
    ensures '\n' !in EscapeChar(c)
  {
    if c as int < 32 {
      HexIsNoLineFeed(c as nat / 16);
      HexIsNoLineFeed(c as nat % 16);
    }
  }

  lemma {:induction false} EscapedIsLine(s: string, tail: string)
    ensures LineBefore(EscapeTo(s, tail), tail)
  {
    if |s| > 0 {
      EscapeIsLine(s[0]);
      EscapedIsLine(s[1..], tail);
      LineAfter(EscapeChar(s[0]), EscapeTo(s[1..], tail), tail);
    }
  }

  lemma QuotedIsLine(s: string, tail: string)
    ensures LineBefore(QuoteTo(s, tail), tail)
  {
    EscapedIsLine(s, ['"'] + tail);
    LineAfter("\"", tail, tail);
    LinesCompose(EscapeTo(s, ['"'] + tail), ['"'] + tail, tail);
    LineAfter("\"", EscapeTo(s, ['"'] + tail), tail);
  }

  lemma NumeralIsLine(n: int)
    ensures '\n' !in Numeral(n)
  {
    assert AllDigits(Decimal(if n < 0 then -n else n));
    assert !IsDigit('\n');
  }

  lemma {:induction false} StringifiedIsLine(j: Js, tail: string)
    ensures LineBefore(StringifyTo(j, tail), tail)
    decreases j, 1, 0
  {
    hide LineBefore;
    LineIsLine(tail);
    match j
    case Undefined => LineAfter("null", tail, tail);
    case Null => LineAfter("null", tail, tail);
    case Bool(b) => LineAfter(if b then "true" else "false", tail, tail);
    case Number(n) =>
      NumeralIsLine(n);
      LineAfter(Numeral(n), tail, tail);
    case Str(s) => QuotedIsLine(s, tail);
    case Array(items) =>
      ItemsAreLine(items, true, [']'] + tail);
      LineAfter("]", tail, tail);
      LinesCompose(StringifyItems(items, true, [']'] + tail), [']'] + tail, tail);
      LineAfter("[", StringifyItems(items, true, [']'] + tail), tail);
    case Object(order, _) =>
      MembersAreLine(Enumeration(order), j, true, ['}'] + tail);
      LineAfter("}", tail, tail);
      LinesCompose(StringifyMembers(Enumeration(order), j, true, ['}'] + tail), ['}'] + tail, tail);
      LineAfter("{", StringifyMembers(Enumeration(order), j, true, ['}'] + tail), tail);
  }

  lemma LineIsLine(tail: string)
    ensures LineBefore(tail, tail)
  {
  }

  lemma {:induction false} ItemsAreLine(items: seq<Js>, first: bool, tail: string)
    ensures LineBefore(StringifyItems(items, first, tail), tail)
    decreases items, 0, 0
  {
    hide LineBefore;
    if |items| == 0 {
      LineIsLine(tail);
    } else {
      var rest := StringifyItems(items[1..], false, tail);
      ItemsAreLine(items[1..], false, tail);
      StringifiedIsLine(items[0], rest);
      LinesCompose(StringifyTo(items[0], rest), rest, tail);
      LineAfter(Comma(first), StringifyTo(items[0], rest), tail);
    }
  }

  lemma {:induction false} MembersAreLine(keys: seq<string>, j: Js, first: bool, tail: string)
    requires j.Object?
    ensures LineBefore(StringifyMembers(keys, j, first, tail), tail)
    decreases j, 0, |keys|
  {
    hide LineBefore;
    if |keys| == 0 {
      LineIsLine(tail);
    } else if keys[0] !in j.fields || j.fields[keys[0]].Undefined? {
      MembersAreLine(keys[1..], j, first, tail);
    } else {
      var rest := StringifyMembers(keys[1..], j, false, tail);
      var value := StringifyTo(j.fields[keys[0]], rest);
      MembersAreLine(keys[1..], j, false, tail);
      StringifiedIsLine(j.fields[keys[0]], rest);
      LinesCompose(value, rest, tail);
      LineAfter(":", value, tail);
      QuotedIsLine(keys[0], [':'] + value);
      LinesCompose(QuoteTo(keys[0], [':'] + value), [':'] + value, tail);
      LineAfter(Comma(first), QuoteTo(keys[0], [':'] + value), tail);
    }
  }

  // The text of an object is one line in braces.
  lemma ObjectText(j: Js)
    requires j.Object?
    ensures var s := Stringify(j); |s| > 1 && s[0] == '{' && s[|s| - 1] == '}' && '\n' !in s
  {
    MembersAreLine(Enumeration(j.order), j, true, ['}'] + "");
    hide Enumeration, StringifyMembers, LineBefore;
    Braced(StringifyMembers(Enumeration(j.order), j, true, ['}'] + ""));
  }

  lemma Braced(members: string)
    requires LineBefore(members, ['}'] + "")
    ensures var s := ['{'] + members; |s| > 1 && s[0] == '{' && s[|s| - 1] == '}' && '\n' !in s
  {
    assert members[|members| - 1..][0] == '}';
  }
}
