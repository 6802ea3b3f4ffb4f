// JSON values as JavaScript holds them, their serialization, and the order-free value they
// denote.
module Json {
  import opened Wrappers
  import opened Text

  // A JavaScript value: an object remembers the order in which its keys were set, and a
  // property may hold undefined.
  datatype Js =
    | Undefined
    | Null
    | Bool(b: bool)
    | Number(n: int)
    | Str(s: string)
    | Array(items: seq<Js>)
    | Object(order: seq<string>, fields: map<string, Js>)

  // The order lists every key once, and undefined stands only in objects.
  ghost predicate WellFormed(j: Js) {
    match j
    case Array(items) => forall i :: 0 <= i < |items| ==> !items[i].Undefined? && WellFormed(items[i])
    case Object(order, fields) =>
      && Distinct(order) && (forall k :: k in order <==> k in fields)
      && forall k :: k in fields ==> WellFormed(fields[k])
    case _ => true
  }

  ghost predicate Distinct(keys: seq<string>) {
    forall i, j :: 0 <= i < j < |keys| ==> keys[i] != keys[j]
  }

  // The value denoted, without key order and undefined properties.
  datatype Value =
    | VNull
    | VBool(b: bool)
    | VNumber(n: int)
    | VStr(s: string)
    | VArray(items: seq<Value>)
    | VObject(fields: map<string, Value>)

  function Meaning(j: Js): Value {
    match j
    case Undefined => VNull
    case Null => VNull
    case Bool(b) => VBool(b)
    case Number(n) => VNumber(n)
    case Str(s) => VStr(s)
    case Array(items) => VArray(seq(|items|, i requires 0 <= i < |items| => Meaning(items[i])))
    case Object(_, fields) => VObject(map k | k in fields && !fields[k].Undefined? :: Meaning(fields[k]))
  }

  // A property of an object, if it is there.
  function ValueAt(fields: map<string, Value>, key: string): Option<Value> {
    if key in fields then Some(fields[key]) else None
  }

  // A property that holds a text.
  function TextAt(fields: map<string, Value>, key: string): Option<string> {
    if key in fields && fields[key].VStr? then Some(fields[key].s) else None
  }

  // ---------------------------------------------------------------- key order

  // A key that is a canonical array index is enumerated before all others.
  predicate IsIndex(key: string) {
    && |key| > 0 && AllDigits(key)
    && (key[0] == '0' ==> |key| == 1)
    && NumberOf(key) < 0xFFFF_FFFF
  }

  function InsertIndex(key: string, keys: seq<string>): seq<string> {
    if |keys| == 0 || |key| < |keys[0]| || (|key| == |keys[0]| && Less(key, keys[0])) then [key] + keys
    else [keys[0]] + InsertIndex(key, keys[1..])
  }

  function Indices(keys: seq<string>): seq<string> {
    if |keys| == 0 then []
    else if IsIndex(keys[0]) then InsertIndex(keys[0], Indices(keys[1..]))
    else Indices(keys[1..])
  }

  function Names(keys: seq<string>): seq<string> {
    if |keys| == 0 then []
    else (if IsIndex(keys[0]) then [] else [keys[0]]) + Names(keys[1..])
  }

  // How JavaScript enumerates the keys set in this order.
  function Enumeration(keys: seq<string>): seq<string> {
    Indices(keys) + Names(keys)
  }

  lemma {:induction false} InsertIndexMembers(key: string, keys: seq<string>)
    ensures forall k :: k in InsertIndex(key, keys) <==> k == key || k in keys
  {
    if |keys| > 0 {
      InsertIndexMembers(key, keys[1..]);
      assert keys == [keys[0]] + keys[1..];
    }
  }

  lemma {:induction false} EnumerationMembers(keys: seq<string>)
    ensures forall k :: k in Indices(keys) <==> k in keys && IsIndex(k)
    ensures forall k :: k in Names(keys) <==> k in keys && !IsIndex(k)
    ensures forall k :: k in Enumeration(keys) <==> k in keys
  {
    if |keys| > 0 {
      EnumerationMembers(keys[1..]);
      InsertIndexMembers(keys[0], Indices(keys[1..]));
      assert keys == [keys[0]] + keys[1..];
    }
  }

  // ---------------------------------------------------------------- strings

  function HexDigit(d: nat): char
    requires d < 16
  {
    if d < 10 then '0' + d as char else 'a' + (d - 10) as char
  }

  function EscapeChar(c: char): (e: string)
    ensures |e| > 0 && e[0] != '"'
  {
    if c == '"' then "\\\""
    else if c == '\\' then "\\\\"
    else if c as int == 8 then "\\b"
    else if c as int == 12 then "\\f"
    else if c == '\n' then "\\n"
    else if c == '\r' then "\\r"
    else if c == '\t' then "\\t"
    else if c as int < 32 then ['\\', 'u', '0', '0', HexDigit(c as nat / 16), HexDigit(c as nat % 16)]
    else [c]
  }

  // Texts are built with what follows them, so that no concatenation is ever regrouped.
  function EscapeTo(s: string, tail: string): string {
    if |s| == 0 then tail else EscapeChar(s[0]) + EscapeTo(s[1..], tail)
  }

  // A quoted string and what follows it.
  function QuoteTo(s: string, tail: string): string {
    ['"'] + EscapeTo(s, ['"'] + tail)
  }

  function Numeral(n: int): string {
    if n < 0 then ['-'] + Decimal(-n) else Decimal(n)
  }

  // ---------------------------------------------------------------- serialization

  // JSON.stringify(j) followed by `tail`
  function StringifyTo(j: Js, tail: string): string
    decreases j, 1, 0
  {
    match j
    case Undefined => "null" + tail // inside an array; properties that hold it are skipped
    case Null => "null" + tail
    case Bool(b) => (if b then "true" else "false") + tail
    case Number(n) => Numeral(n) + tail
    case Str(s) => QuoteTo(s, tail)
    case Array(items) => ['['] + StringifyItems(items, true, [']'] + tail)
    case Object(order, _) => ['{'] + StringifyMembers(Enumeration(order), j, true, ['}'] + tail)
  }

  function StringifyItems(items: seq<Js>, first: bool, tail: string): string
    decreases items, 0, 0
  {
    if |items| == 0 then tail
    else Comma(first) + StringifyTo(items[0], StringifyItems(items[1..], false, tail))
  }

  function StringifyMembers(keys: seq<string>, j: Js, first: bool, tail: string): string
    requires j.Object?
    decreases j, 0, |keys|
  {
    if |keys| == 0 then tail
    else if keys[0] !in j.fields || j.fields[keys[0]].Undefined? then StringifyMembers(keys[1..], j, first, tail)
    else
      Comma(first)
      + QuoteTo(keys[0], [':'] + StringifyTo(j.fields[keys[0]], StringifyMembers(keys[1..], j, false, tail)))
  }

  function Comma(first: bool): string {
    if first then "" else ","
  }

  // The same text computed from the value, with its keys in sorted enumeration order.
  function RenderTo(v: Value, tail: string): string
    decreases v, 1, 0
  {
    match v
    case VNull => "null" + tail
    case VBool(b) => (if b then "true" else "false") + tail
    case VNumber(n) => Numeral(n) + tail
    case VStr(s) => QuoteTo(s, tail)
    case VArray(items) => ['['] + RenderItems(items, true, [']'] + tail)
    case VObject(fields) => ['{'] + RenderMembers(Enumeration(SortedKeys(fields.Keys)), v, true, ['}'] + tail)
  }

  function RenderItems(items: seq<Value>, first: bool, tail: string): string
    decreases items, 0, 0
  {
    if |items| == 0 then tail else Comma(first) + RenderTo(items[0], RenderItems(items[1..], false, tail))
  }

  function RenderMembers(keys: seq<string>, v: Value, first: bool, tail: string): string
    requires v.VObject?
    decreases v, 0, |keys|
  {
    if |keys| == 0 then tail
    else if keys[0] !in v.fields then RenderMembers(keys[1..], v, first, tail)
    else
      Comma(first) + QuoteTo(keys[0], [':'] + RenderTo(v.fields[keys[0]], RenderMembers(keys[1..], v, false, tail)))
  }

  // ---------------------------------------------------------------- injectivity

  lemma Cancel(c: char, x: string, y: string)
    ensures [c] + x == [c] + y ==> x == y
    ensures ([c] + x)[0] == c && ([c] + x)[1..] == x
  {
    assert ([c] + x)[1..] == x && ([c] + y)[1..] == y;
  }

  lemma CancelPrefix(p: string, x: string, y: string)
    requires p + x == p + y
    ensures x == y
  {
    assert (p + x)[|p|..] == x && (p + y)[|p|..] == y;
  }

  lemma EscapeCharIsPrefixFree(c: char, d: char, x: string, y: string)
    requires EscapeChar(c) + x == EscapeChar(d) + y
    ensures c == d && x == y
  {
    var s := EscapeChar(c) + x;
    assert s[0] == EscapeChar(c)[0] == EscapeChar(d)[0];
    if s[0] == '\\' {
      assert s[1] == EscapeChar(c)[1] == EscapeChar(d)[1];
      if s[1] == 'u' {
        assert s[4] == EscapeChar(c)[4] == EscapeChar(d)[4];
        assert s[5] == EscapeChar(c)[5] == EscapeChar(d)[5];
        assert c as nat == 16 * (c as nat / 16) + c as nat % 16;
        assert d as nat == 16 * (d as nat / 16) + d as nat % 16;
      }
    }
    assert c == d;
    CancelPrefix(EscapeChar(c), x, y);
  }

  lemma {:induction false} EscapeIsPrefixFree(a: string, b: string, x: string, y: string)
    requires EscapeTo(a, ['"'] + x) == EscapeTo(b, ['"'] + y)
    ensures a == b && x == y
  {
    hide EscapeChar;
    Cancel('"', x, y);
    assert |a| > 0 ==> EscapeTo(a, ['"'] + x)[0] == EscapeChar(a[0])[0];
    assert |b| > 0 ==> EscapeTo(b, ['"'] + y)[0] == EscapeChar(b[0])[0];
    if |a| > 0 && |b| > 0 {
      EscapeCharIsPrefixFree(a[0], b[0], EscapeTo(a[1..], ['"'] + x), EscapeTo(b[1..], ['"'] + y));
      EscapeIsPrefixFree(a[1..], b[1..], x, y);
      assert a == [a[0]] + a[1..] && b == [b[0]] + b[1..];
    }
  }

  lemma QuoteIsPrefixFree(a: string, b: string, x: string, y: string)
    requires QuoteTo(a, x) == QuoteTo(b, y)
    ensures a == b && x == y
  {
    Cancel('"', EscapeTo(a, ['"'] + x), EscapeTo(b, ['"'] + y));
    EscapeIsPrefixFree(a, b, x, y);
  }

  // What may follow a value inside a JSON text.
  predicate Stops(x: string) {
    |x| == 0 || x[0] == ',' || x[0] == ']' || x[0] == '}'
  }

  lemma {:induction false} DigitsStop(a: string, b: string, x: string, y: string)
    requires AllDigits(a) && AllDigits(b) && Stops(x) && Stops(y) && a + x == b + y
    ensures a == b && x == y
  {
    var s := a + x;
    assert |a| > 0 ==> s[0] == a[0] && a[0] in a;
    assert |b| > 0 ==> s[0] == b[0] && b[0] in b;
    assert |a| == 0 ==> s == x;
    assert |b| == 0 ==> s == y;
    if |a| > 0 && |b| > 0 {
      assert s[1..] == a[1..] + x && s[1..] == b[1..] + y;
      DigitsStop(a[1..], b[1..], x, y);
      assert a == [a[0]] + a[1..] && b == [b[0]] + b[1..];
    }
  }

  lemma NumeralStart(n: int, x: string)
    ensures |Numeral(n)| > 0 && (Numeral(n) + x)[0] == Numeral(n)[0]
    ensures if n < 0 then Numeral(n)[0] == '-' && (Numeral(n) + x)[1..] == Decimal(-n) + x else IsDigit(Numeral(n)[0])
  {
    if n >= 0 { assert Decimal(n)[0] in Decimal(n); }
  }

  lemma NumeralIsPrefixFree(m: int, n: int, x: string, y: string)
    requires Stops(x) && Stops(y) && Numeral(m) + x == Numeral(n) + y
    ensures m == n && x == y
  {
    NumeralStart(m, x);
    NumeralStart(n, y);
    hide Decimal;
    if m < 0 {
      DigitsStop(Decimal(-m), Decimal(-n), x, y);
      DecimalIsInjective(-m, -n);
    } else {
      DigitsStop(Decimal(m), Decimal(n), x, y);
      DecimalIsInjective(m, n);
    }
  }

  // The first character of a rendering tells the kind of the value.
  function Kind(v: Value): nat {
    match v
    case VNull => 0
    case VBool(b) => if b then 1 else 2
    case VNumber(_) => 3
    case VStr(_) => 4
    case VArray(_) => 5
    case VObject(_) => 6
  }

  function KindOf(c: char): nat {
    if c == 'n' then 0 else if c == 't' then 1 else if c == 'f' then 2
    else if c == '-' || IsDigit(c) then 3 else if c == '"' then 4 else if c == '[' then 5
    else if c == '{' then 6 else 7
  }

  lemma RenderStart(v: Value, x: string)
    ensures |RenderTo(v, x)| > 0 && KindOf(RenderTo(v, x)[0]) == Kind(v)
  {
    if v.VNumber? { NumeralStart(v.n, x); }
  }

  lemma EnumeratesKeys(keys: set<string>)
    ensures forall k :: k in Enumeration(SortedKeys(keys)) <==> k in keys
  {
    SortedKeysFacts(keys);
    EnumerationMembers(SortedKeys(keys));
  }

  lemma ItemsStart(items: seq<Value>, first: bool, x: string)
    ensures var s := RenderItems(items, first, [']'] + x);
            && |s| > 0 && (s[0] == ']' <==> |items| == 0)
            && (!first ==> Stops(s) && (|items| > 0 ==> s[0] == ','))
  {
    if |items| > 0 {
      var rest := RenderTo(items[0], RenderItems(items[1..], false, [']'] + x));
      RenderStart(items[0], RenderItems(items[1..], false, [']'] + x));
      hide RenderTo;
      Cancel(',', rest, rest);
      assert "" + rest == rest;
    }
  }

  lemma MembersStart(keys: seq<string>, v: Value, first: bool, x: string)
    requires v.VObject? && forall k :: k in keys ==> k in v.fields
    ensures var s := RenderMembers(keys, v, first, ['}'] + x);
            && |s| > 0 && (s[0] == '}' <==> |keys| == 0)
            && (!first ==> Stops(s))
  {
    if |keys| > 0 {
      assert keys[0] in keys;
      var member := QuoteTo(keys[0],
                            [':'] + RenderTo(v.fields[keys[0]], RenderMembers(keys[1..], v, false, ['}'] + x)));
      assert member[0] == '"';
      hide QuoteTo;
      assert "" + member == member;
    }
  }

  lemma {:induction false} RenderIsPrefixFree(v: Value, w: Value, x: string, y: string)
    requires Stops(x) && Stops(y) && RenderTo(v, x) == RenderTo(w, y)
    ensures v == w && x == y
    decreases v, 2, 0
  {
    RenderStart(v, x);
    RenderStart(w, y);
    match v
    case VNull => CancelPrefix("null", x, y);
    case VBool(b) => CancelPrefix(if b then "true" else "false", x, y);
    case VNumber(m) => NumeralIsPrefixFree(m, w.n, x, y);
    case VStr(a) => QuoteIsPrefixFree(a, w.s, x, y);
    case VArray(items) =>
      Cancel('[', RenderItems(items, true, [']'] + x), RenderItems(w.items, true, [']'] + y));
      ItemsArePrefixFree(items, w.items, true, x, y);
    case VObject(_) => ObjectsArePrefixFree(v, w, x, y);
  }

  lemma {:induction false} ObjectsArePrefixFree(v: Value, w: Value, x: string, y: string)
    requires v.VObject? && w.VObject? && RenderTo(v, x) == RenderTo(w, y)
    ensures v == w && x == y
    decreases v, 1, 0
  {
    var ks, ls := Enumeration(SortedKeys(v.fields.Keys)), Enumeration(SortedKeys(w.fields.Keys));
    EnumeratesKeys(v.fields.Keys);
    EnumeratesKeys(w.fields.Keys);
    Cancel('{', RenderMembers(ks, v, true, ['}'] + x), RenderMembers(ls, w, true, ['}'] + y));
    hide Enumeration, SortedKeys;
    MembersArePrefixFree(ks, ls, v, w, true, x, y);
    assert v.fields.Keys == w.fields.Keys;
    assert forall k :: k in v.fields ==> k in ks;
  }

  lemma {:induction false} ItemsArePrefixFree(vs: seq<Value>, ws: seq<Value>, first: bool, x: string, y: string)
    requires RenderItems(vs, first, [']'] + x) == RenderItems(ws, first, [']'] + y)
    ensures vs == ws && x == y
    decreases vs, 0, 0
  {
    ItemsStart(vs, first, x);
    ItemsStart(ws, first, y);
    Cancel(']', x, y);
    if |vs| > 0 && |ws| > 0 {
      var tv, tw := RenderItems(vs[1..], false, [']'] + x), RenderItems(ws[1..], false, [']'] + y);
      CancelPrefix(Comma(first), RenderTo(vs[0], tv), RenderTo(ws[0], tw));
      ItemsStart(vs[1..], false, x);
      ItemsStart(ws[1..], false, y);
      RenderIsPrefixFree(vs[0], ws[0], tv, tw);
      ItemsArePrefixFree(vs[1..], ws[1..], false, x, y);
      assert vs == [vs[0]] + vs[1..] && ws == [ws[0]] + ws[1..];
    }
  }

  lemma {:induction false} MembersArePrefixFree(ks: seq<string>, ls: seq<string>, v: Value, w: Value, first: bool,
                                                x: string, y: string)
    requires v.VObject? && w.VObject?
    requires (forall k :: k in ks ==> k in v.fields) && (forall k :: k in ls ==> k in w.fields)
    requires RenderMembers(ks, v, first, ['}'] + x) == RenderMembers(ls, w, first, ['}'] + y)
    ensures ks == ls && x == y && forall k :: k in ks ==> v.fields[k] == w.fields[k]
    decreases v, 0, |ks|
  {
    MembersStart(ks, v, first, x);
    MembersStart(ls, w, first, y);
    Cancel('}', x, y);
    if |ks| > 0 && |ls| > 0 {
      assert ks[0] in ks && ls[0] in ls;
      var tv, tw := RenderMembers(ks[1..], v, false, ['}'] + x), RenderMembers(ls[1..], w, false, ['}'] + y);
      var mv, mw := RenderTo(v.fields[ks[0]], tv), RenderTo(w.fields[ls[0]], tw);
      CancelPrefix(Comma(first), QuoteTo(ks[0], [':'] + mv), QuoteTo(ls[0], [':'] + mw));
      QuoteIsPrefixFree(ks[0], ls[0], [':'] + mv, [':'] + mw);
      Cancel(':', mv, mw);
      MembersStart(ks[1..], v, false, x);
      MembersStart(ls[1..], w, false, y);
      RenderIsPrefixFree(v.fields[ks[0]], w.fields[ls[0]], tv, tw);
      MembersArePrefixFree(ks[1..], ls[1..], v, w, false, x, y);
      assert ks == [ks[0]] + ks[1..] && ls == [ls[0]] + ls[1..];
    }
  }

  function Render(v: Value): string {
    RenderTo(v, "")
  }

  // Different values have different texts.
  lemma RenderIsInjective(v: Value, w: Value)
    ensures Render(v) == Render(w) <==> v == w
  {
    if Render(v) == Render(w) { RenderIsPrefixFree(v, w, "", ""); }
  }
}
