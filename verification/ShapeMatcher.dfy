// Reading a command line as one of a list of operations (packages/grants/src/shape-matcher.ts).
module ShapeMatcher {
  import opened Wrappers
  import opened Text

  type Bindings = map<string, string>

  datatype Operation = Operation(
    id: string,
    command: seq<string>,
    positionals: seq<string>,
    requiredOptions: seq<string>,
    valueOptions: Option<seq<string>>,
    flagOptions: Option<seq<string>>,
    globalOptions: seq<string>)

  // An option token: its name and the value after '=', if any.
  datatype Opt = Opt(key: string, value: Option<string>)

  datatype Parsed = Parsed(options: Bindings, positionals: seq<string>)

  // ---------------------------------------------------------------- option tokens

  predicate DashLed(token: string) {
    |token| > 0 && token[0] == '-'
  }

  predicate DoubleDashLed(token: string) {
    |token| > 1 && token[0] == '-' && token[1] == '-'
  }

  function SplitInline(name: string): Opt {
    var i := IndexOf(name, '=');
    if i == |name| then Opt(name, None) else Opt(name[..i], Some(name[i + 1..]))
  }

  // `exactOption`: `--name`, `--name=value`, or `-x` for a one-letter name
  function ExactOption(token: string): Option<Opt> {
    if DoubleDashLed(token) then
      var o := SplitInline(token[2..]);
      if |o.key| > 1 then Some(o) else None
    else if |token| == 2 then Some(Opt([token[1]], None)) else None
  }

  function OptionsOrNone(names: Option<seq<string>>): seq<string> {
    if names.Some? then names.value else []
  }

  predicate TakesValue(op: Operation, key: string) {
    key in op.requiredOptions || key in OptionsOrNone(op.valueOptions)
  }

  predicate IsFlag(op: Operation, key: string) {
    key in OptionsOrNone(op.flagOptions)
  }

  predicate DeclaresOptions(op: Operation) {
    op.valueOptions.Some? || op.flagOptions.Some?
  }

  // A token that can stand as the value of an option.
  predicate ValueToken(token: string) {
    token != "" && !DashLed(token)
  }

  // ---------------------------------------------------------------- units of a declared call

  // What the tokens of a declared call amount to.
  datatype Unit =
    | Positional(token: string)
    | Bundle(letters: string)             // -ab
    | Inline(key: string, value: string)  // --key=value
    | Spaced(key: string, value: string)  // --key value, -k value
    | Flag(key: string)                   // --key, -k

  function Dashed(key: string): string {
    if |key| == 1 then "-" + key else "--" + key
  }

  // A name that has an exact dash form.
  predicate Name(key: string) {
    if |key| == 1 then key != "-" else |key| > 1 && '=' !in key
  }

  predicate UnitOk(op: Operation, u: Unit) {
    match u
    case Positional(token) => !DashLed(token) || token == "-"
    case Bundle(letters) => |letters| > 1 && letters[0] != '-' && forall c :: c in letters ==> IsFlag(op, [c])
    case Inline(key, _) => |key| > 1 && '=' !in key && (TakesValue(op, key) || IsFlag(op, key))
    case Spaced(key, value) => Name(key) && TakesValue(op, key) && ValueToken(value)
    case Flag(key) => Name(key) && !TakesValue(op, key) && IsFlag(op, key)
  }

  function Tokens(u: Unit): seq<string> {
    match u
    case Positional(token) => [token]
    case Bundle(letters) => ["-" + letters]
    case Inline(key, value) => ["--" + key + "=" + value]
    case Spaced(key, value) => [Dashed(key), value]
    case Flag(key) => [Dashed(key)]
  }

  function Print(units: seq<Unit>): seq<string> {
    if |units| == 0 then [] else Tokens(units[0]) + Print(units[1..])
  }

  // The first unit of a token list, if it is declared.
  function FirstUnit(op: Operation, tokens: seq<string>): Option<Unit>
    requires |tokens| > 0
  {
    var token := tokens[0];
    if !DashLed(token) || token == "-" then Some(Positional(token))
    else if !DoubleDashLed(token) && |token| > 2 then
      if forall c :: c in token[1..] ==> IsFlag(op, [c]) then Some(Bundle(token[1..])) else None
    else
      var option := ExactOption(token);
      if option.None? then None
      else
        var Opt(key, value) := option.value;
        if TakesValue(op, key) then
          if value.Some? then Some(Inline(key, value.value))
          else if |tokens| > 1 && ValueToken(tokens[1]) then Some(Spaced(key, tokens[1]))
          else None
        else if !IsFlag(op, key) then None
        else if value.Some? then Some(Inline(key, value.value)) else Some(Flag(key))
  }

  function Units(op: Operation, tokens: seq<string>): Option<seq<Unit>>
    decreases |tokens|
  {
    if |tokens| == 0 then Some([])
    else
      var u := FirstUnit(op, tokens);
      if u.None? then None
      else
        var n := |Tokens(u.value)|;
        if n > |tokens| then None
        else
          var rest := Units(op, tokens[n..]);
          if rest.None? then None else Some([u.value] + rest.value)
  }

  // ---- what units bind

  function Assign(options: Bindings, u: Unit): Bindings {
    match u
    case Positional(_) => options
    case Bundle(letters) => AssignLetters(options, letters)
    case Inline(key, value) => options[key := value]
    case Spaced(key, value) => options[key := value]
    case Flag(key) => options[key := "true"]
  }

  function AssignLetters(options: Bindings, letters: string): Bindings
    decreases |letters|
  {
    if |letters| == 0 then options else AssignLetters(options[[letters[0]] := "true"], letters[1..])
  }

  function AssignAll(options: Bindings, units: seq<Unit>): Bindings
    decreases |units|
  {
    if |units| == 0 then options else AssignAll(Assign(options, units[0]), units[1..])
  }

  function PositionalTokens(units: seq<Unit>): seq<string> {
    if |units| == 0 then []
    else (if units[0].Positional? then [units[0].token] else []) + PositionalTokens(units[1..])
  }

  // `parseDeclaredOptionArgs`
  function ParseDeclared(op: Operation, tokens: seq<string>): Option<Parsed> {
    var units := Units(op, tokens);
    if units.None? then None else Some(Parsed(AssignAll(map[], units.value), PositionalTokens(units.value)))
  }

  // The parse of the remaining tokens, added to what is already read.
  function Continue(op: Operation, tokens: seq<string>, options: Bindings, positionals: seq<string>): Option<Parsed> {
    var units := Units(op, tokens);
    if units.None? then None
      else Some(Parsed(AssignAll(options, units.value), positionals + PositionalTokens(units.value)))
  }

  lemma ContinueUnit(op: Operation, tokens: seq<string>, options: Bindings, positionals: seq<string>)
    requires |tokens| > 0
    ensures var u := FirstUnit(op, tokens);
            Continue(op, tokens, options, positionals)
            == if u.None? || |Tokens(u.value)| > |tokens| then None
               else Continue(op, tokens[|Tokens(u.value)|..], Assign(options, u.value),
                             if u.value.Positional? then positionals + [u.value.token] else positionals)
  {
    hide FirstUnit, Tokens, Assign;
    var u := FirstUnit(op, tokens);
    if u.Some? && |Tokens(u.value)| <= |tokens| {
      var rest := Units(op, tokens[|Tokens(u.value)|..]);
      if rest.Some? {
        assert ([u.value] + rest.value)[1..] == rest.value;
        var more := PositionalTokens(rest.value);
        Regroup(positionals, u.value, more);
        assert [] + more == more;
      }
    }
  }

  lemma Regroup(a: seq<string>, u: Unit, b: seq<string>)
    ensures u.Positional? ==> a + ([u.token] + b) == a + [u.token] + b
  {
  }

  // The letters of a bundle, one flag each.
  method BindLetters(before: Bindings, bundle: string) returns (options: Bindings)
    ensures options == AssignLetters(before, bundle)
  {
    options := before;
    assert bundle[0..] == bundle;
    for n := 0 to |bundle|
      invariant AssignLetters(before, bundle) == AssignLetters(options, bundle[n..])
    {
      assert bundle[n..][1..] == bundle[n + 1..];
      options := options[[bundle[n]] := "true"];
    }
  }

  method ParseDeclaredOptionArgs(op: Operation, tokens: seq<string>) returns (r: Option<Parsed>)
    ensures r == ParseDeclared(op, tokens)
  {
    var options: Bindings := map[];
    var positionals: seq<string> := [];
    var index := 0;
    assert tokens[0..] == tokens;
    StartContinues(op, tokens);
    while index < |tokens|
      invariant index <= |tokens|
      invariant ParseDeclared(op, tokens) == Continue(op, tokens[index..], options, positionals)
    {
      hide Continue, ParseDeclared, AssignLetters, Units, ExactOption, IsFlag, TakesValue;
      ContinueUnit(op, tokens[index..], options, positionals);
      assert tokens[index..][1..] == tokens[index + 1..];
      assert index + 2 <= |tokens| ==> tokens[index..][2..] == tokens[index + 2..];
      var token := tokens[index];
      if !DashLed(token) || token == "-" {
        positionals := positionals + [token];
        index := index + 1;
        continue;
      }
      if !DoubleDashLed(token) && |token| > 2 {
        var bundle := token[1..];
        if exists c :: c in bundle && !IsFlag(op, [c]) {
          return None;
        }
        options := BindLetters(options, bundle);
        index := index + 1;
        continue;
      }
      var option := ExactOption(token);
      if option.None? {
        return None;
      }
      var Opt(key, value) := option.value;
      if TakesValue(op, key) {
        if value.Some? {
          options := options[key := value.value];
          index := index + 1;
          continue;
        }
        if index + 1 == |tokens| || !ValueToken(tokens[index + 1]) {
          return None;
        }
        options := options[key := tokens[index + 1]];
        index := index + 2;
        continue;
      }
      if !IsFlag(op, key) {
        return None;
      }
      options := options[key := if value.Some? then value.value else "true"];
      index := index + 1;
    }
    assert positionals + [] == positionals;
    return Some(Parsed(options, positionals));
  }

  lemma StartContinues(op: Operation, tokens: seq<string>)
    ensures ParseDeclared(op, tokens) == Continue(op, tokens, map[], [])
  {
    var units := Units(op, tokens);
    if units.Some? { assert [] + PositionalTokens(units.value) == PositionalTokens(units.value); }
  }

  // ---------------------------------------------------------------- reading and printing units

  lemma SplitInlineFacts(name: string)
    ensures var o := SplitInline(name);
            '=' !in o.key && name == o.key + (if o.value.Some? then "=" + o.value.value else "")
  {
    var i := IndexOf(name, '=');
    if i < |name| { assert name == name[..i] + "=" + name[i + 1..]; }
  }

  lemma SplitInlineOf(key: string, value: string)
    requires '=' !in key
    ensures SplitInline(key) == Opt(key, None)
    ensures SplitInline(key + "=" + value) == Opt(key, Some(value))
  {
    var name := key + "=" + value;
    assert name[..|key|] == key && name[|key| + 1..] == value;
    IndexOfFirst(name, '=', |key|);
    assert key[..|key|] == key;
    assert forall i :: 0 <= i < |key| ==> key[i] in key;
  }

  // An exact option token is the dashed name, or the long inline form.
  lemma ExactOptionFacts(token: string)
    requires DashLed(token) && token != "-" && (DoubleDashLed(token) || |token| <= 2)
    ensures ExactOption(token).Some? ==>
              var Opt(key, value) := ExactOption(token).value;
              if value.Some? then |key| > 1 && '=' !in key && token == "--" + key + "=" + value.value
              else Name(key) && token == Dashed(key)
  {
    if DoubleDashLed(token) {
      SplitInlineFacts(token[2..]);
      assert token == "--" + token[2..];
    } else {
      assert token == "-" + [token[1]];
    }
  }

  lemma DashedIsExact(key: string)
    requires Name(key)
    ensures var token := Dashed(key);
            DashLed(token) && token != "-" && (DoubleDashLed(token) || |token| <= 2)
            && ExactOption(token) == Some(Opt(key, None))
  {
    if |key| > 1 {
      SplitInlineOf(key, "");
      assert ("--" + key)[2..] == key;
    } else {
      assert [key[0]] == key;
    }
  }

  lemma InlineIsExact(key: string, value: string)
    requires |key| > 1 && '=' !in key
    ensures var token := "--" + key + "=" + value;
            DoubleDashLed(token) && ExactOption(token) == Some(Opt(key, Some(value)))
  {
    SplitInlineOf(key, value);
    assert ("--" + key + "=" + value)[2..] == key + "=" + value;
  }

  // Reading a unit gives a declared unit in exact dash form, printed as these tokens.
  lemma FirstUnitSound(op: Operation, tokens: seq<string>)
    requires |tokens| > 0 && FirstUnit(op, tokens).Some?
    ensures var u := FirstUnit(op, tokens).value;
            UnitOk(op, u) && 0 < |Tokens(u)| <= |tokens| && Tokens(u) == tokens[..|Tokens(u)|]
  {
    var token := tokens[0];
    assert tokens[..1] == [token];
    assert |tokens| > 1 ==> tokens[..2] == [token, tokens[1]];
    if DashLed(token) && token != "-" {
      if DoubleDashLed(token) || |token| <= 2 {
        ExactOptionFacts(token);
        hide ExactOption;
      } else {
        assert token == "-" + token[1..];
      }
    }
  }

  // Printing a declared unit and reading it gives it back, whatever follows.
  lemma FirstUnitComplete(op: Operation, u: Unit, rest: seq<string>)
    requires UnitOk(op, u)
    ensures FirstUnit(op, Tokens(u) + rest) == Some(u)
  {
    var tokens := Tokens(u) + rest;
    match u
    case Positional(token) =>
    case Bundle(letters) =>
      assert tokens[0] == "-" + letters && ("-" + letters)[1..] == letters;
    case Inline(key, value) => InlineIsExact(key, value); assert tokens[0] == "--" + key + "=" + value;
    case Spaced(key, value) => DashedIsExact(key); assert tokens[0] == Dashed(key) && tokens[1] == value;
    case Flag(key) => DashedIsExact(key); assert tokens[0] == Dashed(key);
  }

  lemma {:induction false} UnitsSound(op: Operation, tokens: seq<string>)
    requires Units(op, tokens).Some?
    ensures Print(Units(op, tokens).value) == tokens && forall u :: u in Units(op, tokens).value ==> UnitOk(op, u)
    decreases |tokens|
  {
    hide UnitOk, FirstUnit, Tokens;
    if |tokens| > 0 {
      FirstUnitSound(op, tokens);
      var u := FirstUnit(op, tokens).value;
      var n := |Tokens(u)|;
      UnitsSound(op, tokens[n..]);
      var rest := Units(op, tokens[n..]).value;
      assert ([u] + rest)[1..] == rest;
      assert tokens == tokens[..n] + tokens[n..];
    }
  }

  lemma {:induction false} UnitsComplete(op: Operation, units: seq<Unit>)
    requires forall u :: u in units ==> UnitOk(op, u)
    ensures Units(op, Print(units)) == Some(units)
  {
    hide UnitOk, FirstUnit;
    if |units| > 0 {
      var rest := Print(units[1..]);
      UnitsComplete(op, units[1..]);
      FirstUnitComplete(op, units[0], rest);
      assert (Tokens(units[0]) + rest)[|Tokens(units[0])|..] == rest;
      assert |Tokens(units[0])| > 0;
      assert units == [units[0]] + units[1..];
    }
  }

  // ---------------------------------------------------------------- legacy options

  // `optionName`, for operations that declare no options
  function OptionName(token: string): Option<string> {
    if DoubleDashLed(token) then Some(token[2..])
    else if DashLed(token) && |token| > 1 && !IsDigit(token[1]) then Some(token[1..]) else None
  }

  function ParseLegacy(op: Operation, tokens: seq<string>, parsed: Parsed): Parsed
    decreases |tokens|
  {
    if |tokens| == 0 then parsed
    else
      var token, rest := tokens[0], tokens[1..];
      var name := OptionName(token);
      if name.None? then ParseLegacy(op, rest, parsed.(positionals := parsed.positionals + [token]))
      else
        var Opt(key, value) := if DoubleDashLed(token) then SplitInline(name.value) else Opt(name.value, None);
        if value.Some? then ParseLegacy(op, rest, parsed.(options := parsed.options[key := value.value]))
        else
          var consumes := DoubleDashLed(token) || |key| != 1 || key in op.requiredOptions;
          if consumes && |rest| > 0 && ValueToken(rest[0])
          then ParseLegacy(op, rest[1..], parsed.(options := parsed.options[key := rest[0]]))
          else ParseLegacy(op, rest, parsed.(options := parsed.options[key := "true"]))
  }

  // `parseOptionArgs`
  function ParseOptionArgs(op: Operation, tokens: seq<string>): Option<Parsed> {
    if DeclaresOptions(op) then ParseDeclared(op, tokens) else Some(ParseLegacy(op, tokens, Parsed(map[], [])))
  }

  // ---------------------------------------------------------------- global options

  // `entry.split('=', 2)`: the name, and the binding it stands for
  function GlobalEntry(entry: string): (string, string) {
    var parts := Split(entry, '=');
    (parts[0], if |parts| > 1 && parts[1] != "" then parts[1] else parts[0])
  }

  function BindingFor(globals: seq<string>): Bindings {
    if |globals| == 0 then map[]
    else
      var (name, binding) := GlobalEntry(globals[|globals| - 1]);
      BindingFor(globals[..|globals| - 1])[name := binding]
  }

  // The global option that a token spells, if it is declared.
  function GlobalToken(bindingFor: Bindings, token: string): Option<Opt> {
    if !DashLed(token) || ExactOption(token).None? then None
    else
      var option := ExactOption(token).value;
      if option.key in bindingFor && bindingFor[option.key] != "" then Some(option) else None
  }

  datatype Globals = Globals(bindings: Bindings, rest: seq<string>)

  // `parseGlobalOptions`, with what is already bound
  function ParseGlobals(argv: seq<string>, bindingFor: Bindings, bound: Bindings): Option<Globals>
    decreases |argv|
  {
    if |argv| == 0 || GlobalToken(bindingFor, argv[0]).None? then Some(Globals(bound, argv))
    else
      var Opt(key, value) := GlobalToken(bindingFor, argv[0]).value;
      var binding := bindingFor[key];
      if binding in bound then None
      else if value.Some? then ParseGlobals(argv[1..], bindingFor, bound[binding := value.value])
      else if |argv| == 1 || !ValueToken(argv[1]) then None
      else ParseGlobals(argv[2..], bindingFor, bound[binding := argv[1]])
  }

  method ParseGlobalOptions(argv: seq<string>, globalOptions: seq<string>) returns (r: Option<Globals>)
    ensures r == ParseGlobals(argv, BindingFor(globalOptions), map[])
  {
    hide ExactOption;
    var bindingFor: Bindings := map[];
    for n := 0 to |globalOptions|
      invariant bindingFor == BindingFor(globalOptions[..n])
    {
      assert globalOptions[..n + 1][..n] == globalOptions[..n];
      var (name, binding) := GlobalEntry(globalOptions[n]);
      bindingFor := bindingFor[name := binding];
    }
    assert globalOptions[..|globalOptions|] == globalOptions;
    var bindings: Bindings := map[];
    var index := 0;
    assert argv[0..] == argv;
    while index < |argv|
      invariant index <= |argv|
      invariant ParseGlobals(argv, bindingFor, map[]) == ParseGlobals(argv[index..], bindingFor, bindings)
    {
      assert argv[index..][1..] == argv[index + 1..];
      assert index + 2 <= |argv| ==> argv[index..][2..] == argv[index + 2..];
      var token := argv[index];
      if !DashLed(token) {
        break;
      }
      var option := ExactOption(token);
      if option.None? {
        break;
      }
      var Opt(key, value) := option.value;
      if key !in bindingFor || bindingFor[key] == "" {
        break;
      }
      var binding := bindingFor[key];
      if binding in bindings {
        return None;
      }
      if value.Some? {
        bindings := bindings[binding := value.value];
        index := index + 1;
        continue;
      }
      if index + 1 == |argv| || !ValueToken(argv[index + 1]) {
        return None;
      }
      bindings := bindings[binding := argv[index + 1]];
      index := index + 2;
    }
    return Some(Globals(bindings, argv[index..]));
  }

  // ---- global units

  // A global option with its value, in one token or in two.
  datatype GlobalUnit = GlobalUnit(key: string, value: string, inlined: bool)

  function GlobalTokens(g: GlobalUnit): seq<string> {
    if g.inlined then ["--" + g.key + "=" + g.value] else [Dashed(g.key), g.value]
  }

  function PrintGlobals(gs: seq<GlobalUnit>): seq<string> {
    if |gs| == 0 then [] else GlobalTokens(gs[0]) + PrintGlobals(gs[1..])
  }

  predicate GlobalOk(bindingFor: Bindings, g: GlobalUnit) {
    && g.key in bindingFor && bindingFor[g.key] != ""
    && (if g.inlined then |g.key| > 1 && '=' !in g.key else Name(g.key) && ValueToken(g.value))
  }

  // Declared globals whose bindings are new, one after the other.
  predicate GlobalsOk(bindingFor: Bindings, gs: seq<GlobalUnit>, bound: Bindings) {
    |gs| > 0 ==>
      && GlobalOk(bindingFor, gs[0]) && bindingFor[gs[0].key] !in bound
      && GlobalsOk(bindingFor, gs[1..], bound[bindingFor[gs[0].key] := gs[0].value])
  }

  function BindGlobals(bindingFor: Bindings, gs: seq<GlobalUnit>, bound: Bindings): Bindings
    requires forall g :: g in gs ==> g.key in bindingFor
  {
    if |gs| == 0 then bound
    else
      assert gs[0] in gs;
      assert forall g :: g in gs[1..] ==> g in gs;
      BindGlobals(bindingFor, gs[1..], bound[bindingFor[gs[0].key] := gs[0].value])
  }

  lemma {:induction false} GlobalsAreDeclared(bindingFor: Bindings, gs: seq<GlobalUnit>, bound: Bindings)
    requires GlobalsOk(bindingFor, gs, bound)
    ensures forall g :: g in gs ==> g.key in bindingFor
  {
    if |gs| > 0 {
      GlobalsAreDeclared(bindingFor, gs[1..], bound[bindingFor[gs[0].key] := gs[0].value]);
      assert gs == [gs[0]] + gs[1..];
    }
  }

  // Where the global options end.
  predicate StopsGlobals(bindingFor: Bindings, rest: seq<string>) {
    |rest| > 0 ==> GlobalToken(bindingFor, rest[0]).None?
  }

  lemma GlobalTokenFacts(bindingFor: Bindings, token: string)
    requires GlobalToken(bindingFor, token).Some?
    ensures var Opt(key, value) := GlobalToken(bindingFor, token).value;
            && key in bindingFor && bindingFor[key] != ""
            && (if value.Some? then |key| > 1 && '=' !in key && token == "--" + key + "=" + value.value
                else Name(key) && token == Dashed(key))
  {
    assert token != "-";
    ExactOptionFacts(token);
  }

  // Global options that are read are declared, have new bindings and are printed as read.
  lemma {:induction false} GlobalsSound(argv: seq<string>, bindingFor: Bindings, bound: Bindings)
      returns (gs: seq<GlobalUnit>)
    requires ParseGlobals(argv, bindingFor, bound).Some?
    ensures GlobalsOk(bindingFor, gs, bound) && forall g :: g in gs ==> g.key in bindingFor
    ensures var Globals(bindings, rest) := ParseGlobals(argv, bindingFor, bound).value;
            argv == PrintGlobals(gs) + rest && StopsGlobals(bindingFor, rest)
            && bindings == BindGlobals(bindingFor, gs, bound)
    decreases |argv|
  {
    if |argv| == 0 || GlobalToken(bindingFor, argv[0]).None? {
      gs := [];
      assert [] + argv == argv;
      hide GlobalToken;
    } else {
      hide *;
      var g := FirstGlobal(argv, bindingFor, bound);
      var n := |GlobalTokens(g)|;
      var rest := GlobalsSound(argv[n..], bindingFor, bound[bindingFor[g.key] := g.value]);
      gs := [g] + rest;
      ConsGlobal(g, rest, bindingFor, bound);
      Prefixed(argv, n, PrintGlobals(rest), ParseGlobals(argv, bindingFor, bound).value.rest);
    }
  }

  lemma Prefixed(argv: seq<string>, n: nat, printed: seq<string>, rest: seq<string>)
    requires n <= |argv| && argv[n..] == printed + rest
    ensures argv == argv[..n] + printed + rest
  {
    assert argv == argv[..n] + argv[n..];
  }

  lemma ConsGlobal(g: GlobalUnit, gs: seq<GlobalUnit>, bindingFor: Bindings, bound: Bindings)
    requires GlobalOk(bindingFor, g) && g.key in bindingFor && bindingFor[g.key] !in bound
    requires GlobalsOk(bindingFor, gs, bound[bindingFor[g.key] := g.value])
             && forall h :: h in gs ==> h.key in bindingFor
    ensures GlobalsOk(bindingFor, [g] + gs, bound) && (forall h :: h in [g] + gs ==> h.key in bindingFor)
    ensures PrintGlobals([g] + gs) == GlobalTokens(g) + PrintGlobals(gs)
    ensures BindGlobals(bindingFor, [g] + gs, bound) == BindGlobals(bindingFor, gs, bound[bindingFor[g.key] := g.value])
  {
    hide GlobalOk, GlobalTokens;
    assert ([g] + gs)[1..] == gs;
  }

  // The global option that a token list begins with.
  lemma FirstGlobal(argv: seq<string>, bindingFor: Bindings, bound: Bindings) returns (g: GlobalUnit)
    requires |argv| > 0 && GlobalToken(bindingFor, argv[0]).Some? && ParseGlobals(argv, bindingFor, bound).Some?
    ensures GlobalOk(bindingFor, g) && g.key in bindingFor && bindingFor[g.key] !in bound
    ensures 0 < |GlobalTokens(g)| <= |argv| && GlobalTokens(g) == argv[..|GlobalTokens(g)|]
    ensures ParseGlobals(argv, bindingFor, bound)
            == ParseGlobals(argv[|GlobalTokens(g)|..], bindingFor, bound[bindingFor[g.key] := g.value])
  {
    GlobalTokenFacts(bindingFor, argv[0]);
    hide GlobalToken, ExactOption, Name, Dashed;
    var Opt(key, value) := GlobalToken(bindingFor, argv[0]).value;
    g := GlobalUnit(key, if value.Some? then value.value else argv[1], value.Some?);
    assert argv[..1] == [argv[0]];
    assert |argv| > 1 ==> argv[..2] == [argv[0], argv[1]];
  }

  // Printed global options are read back.
  lemma {:induction false} GlobalsComplete(bindingFor: Bindings, gs: seq<GlobalUnit>, bound: Bindings,
                                           rest: seq<string>)
    requires GlobalsOk(bindingFor, gs, bound) && StopsGlobals(bindingFor, rest)
    requires forall g :: g in gs ==> g.key in bindingFor
    ensures ParseGlobals(PrintGlobals(gs) + rest, bindingFor, bound)
            == Some(Globals(BindGlobals(bindingFor, gs, bound), rest))
    decreases |gs|
  {
    if |gs| == 0 {
      assert PrintGlobals(gs) + rest == rest;
    } else {
      var g, after := gs[0], PrintGlobals(gs[1..]) + rest;
      assert PrintGlobals(gs) + rest == GlobalTokens(g) + after;
      GlobalsComplete(bindingFor, gs[1..], bound[bindingFor[g.key] := g.value], rest);
      OneGlobalRead(bindingFor, g, bound, after);
      hide GlobalTokens, GlobalOk, ParseGlobals;
    }
  }

  // A printed global option is read, whatever follows.
  lemma OneGlobalRead(bindingFor: Bindings, g: GlobalUnit, bound: Bindings, after: seq<string>)
    requires GlobalOk(bindingFor, g) && bindingFor[g.key] !in bound
    ensures ParseGlobals(GlobalTokens(g) + after, bindingFor, bound)
            == ParseGlobals(after, bindingFor, bound[bindingFor[g.key] := g.value])
  {
    GlobalTokenOf(bindingFor, g);
    hide GlobalToken, ExactOption, Name, Dashed;
    var argv := GlobalTokens(g) + after;
    if g.inlined {
      assert argv[1..] == after;
    } else {
      assert argv[2..] == after && argv[1] == g.value;
    }
  }

  lemma GlobalTokenOf(bindingFor: Bindings, g: GlobalUnit)
    requires GlobalOk(bindingFor, g)
    ensures GlobalToken(bindingFor, GlobalTokens(g)[0]) == Some(Opt(g.key, if g.inlined then Some(g.value) else None))
  {
    if g.inlined { InlineIsExact(g.key, g.value); } else { DashedIsExact(g.key); }
  }

  // ---------------------------------------------------------------- one operation

  predicate Truthy(bindings: Bindings, key: string) {
    key in bindings && bindings[key] != ""
  }

  // Positionals bound to their names; a literal positional must be met exactly.
  function BindPositionals(names: seq<string>, values: seq<string>, bindings: Bindings): Option<Bindings>
    requires |names| == |values|
  {
    if |names| == 0 then Some(bindings)
    else if |names[0]| > 0 && names[0][0] == '=' then
      if values[0] != names[0][1..] then None else BindPositionals(names[1..], values[1..], bindings)
    else BindPositionals(names[1..], values[1..], bindings[names[0] := values[0]])
  }

  function Separated(texts: seq<string>): string {
    Join(texts, "\0")
  }

  // What the parsed parts of a call bind, unless the call does not fit the operation.
  function Bound(op: Operation, parsed: Parsed, globals: Bindings): Option<Bindings> {
    if |parsed.positionals| != |op.positionals| then None
    else if exists name :: name in op.requiredOptions && !Truthy(parsed.options, name) then None
    else
      var local := BindPositionals(op.positionals, parsed.positionals, parsed.options);
      if local.None? || exists name :: name in globals && name in local.value then None
      else Some(local.value + globals)
  }

  function GlobalsOfCall(op: Operation, argv: seq<string>): Option<Globals> {
    if |op.globalOptions| > 0 then ParseGlobals(argv, BindingFor(op.globalOptions), map[])
      else Some(Globals(map[], argv))
  }

  // `matchOperation`
  function MatchOperation(op: Operation, argv: seq<string>): Option<Bindings> {
    var globals := GlobalsOfCall(op, argv);
    if globals.None? then None
    else
      var rest, n := globals.value.rest, |op.command|;
      if |rest| < n || Separated(rest[..n]) != Separated(op.command) then None
      else
        var parsed := ParseOptionArgs(op, rest[n..]);
        if parsed.None? then None else Bound(op, parsed.value, globals.value.bindings)
  }

  // The names and literals of the positionals, in order.
  method BindInOrder(names: seq<string>, values: seq<string>, options: Bindings) returns (r: Option<Bindings>)
    requires |names| == |values|
    ensures r == BindPositionals(names, values, options)
  {
    var bindings := options;
    assert names[0..] == names && values[0..] == values;
    for n := 0 to |names|
      invariant BindPositionals(names, values, options) == BindPositionals(names[n..], values[n..], bindings)
    {
      assert names[n..][1..] == names[n + 1..] && values[n..][1..] == values[n + 1..];
      var name, value := names[n], values[n];
      if |name| > 0 && name[0] == '=' {
        if value != name[1..] {
          return None;
        }
        continue;
      }
      bindings := bindings[name := value];
    }
    return Some(bindings);
  }

  // A global binding must never be replaced by an option or positional of the same name.
  method AddGlobals(local: Bindings, globals: Bindings) returns (r: Option<Bindings>)
    ensures r == if exists name :: name in globals && name in local then None else Some(local + globals)
  {
    var bindings, names := local, globals.Keys;
    while names != {}
      invariant names <= globals.Keys
      invariant forall name :: name in globals && name !in names ==> name !in local
      invariant bindings == local + (map name | name in globals && name !in names :: globals[name])
      decreases names
    {
      var name :| name in names;
      if name in bindings {
        return None;
      }
      bindings := bindings[name := globals[name]];
      names := names - {name};
    }
    ghost var all := map name | name in globals && name !in names :: globals[name];
    assert all == globals;
    return Some(bindings);
  }

  method MatchOperationInSteps(op: Operation, argv: seq<string>) returns (r: Option<Bindings>)
    ensures r == MatchOperation(op, argv)
  {
    hide ParseGlobals, ParseDeclared, ParseLegacy, Separated, BindPositionals;
    var globals := Some(Globals(map[], argv));
    if |op.globalOptions| > 0 {
      globals := ParseGlobalOptions(argv, op.globalOptions);
    }
    if globals.None? {
      return None;
    }
    var rest := globals.value.rest;
    if |rest| < |op.command| || Separated(rest[..|op.command|]) != Separated(op.command) {
      return None;
    }
    var remainder := rest[|op.command|..];
    var parsed := Some(Parsed(map[], []));
    if DeclaresOptions(op) {
      parsed := ParseDeclaredOptionArgs(op, remainder);
    } else {
      parsed := Some(ParseLegacy(op, remainder, Parsed(map[], [])));
    }
    if parsed.None? {
      return None;
    }
    r := BindCall(op, parsed.value, globals.value.bindings);
  }

  method BindCall(op: Operation, parsed: Parsed, globals: Bindings) returns (r: Option<Bindings>)
    ensures r == Bound(op, parsed, globals)
  {
    hide BindPositionals;
    if |parsed.positionals| != |op.positionals| {
      return None;
    }
    for n := 0 to |op.requiredOptions|
      invariant forall m :: 0 <= m < n ==> Truthy(parsed.options, op.requiredOptions[m])
    {
      if !Truthy(parsed.options, op.requiredOptions[n]) {
        return None;
      }
    }
    var local := BindInOrder(op.positionals, parsed.positionals, parsed.options);
    if local.None? {
      return None;
    }
    r := AddGlobals(local.value, globals);
  }

  // ---------------------------------------------------------------- what matching means

  predicate WithoutSeparator(texts: seq<string>) {
    forall t :: t in texts ==> '\0' !in t
  }

  // A command that no other tokens can pass for.
  predicate SafeCommand(command: seq<string>) {
    |command| > 1 ==> WithoutSeparator(command)
  }

  // The tokens of a call, whatever they are, pass for a safe command only if they are it.
  lemma SeparatedIsFaithful(tokens: seq<string>, command: seq<string>)
    requires |tokens| == |command| && SafeCommand(command)
    ensures Separated(tokens) == Separated(command) <==> tokens == command
  {
    if |command| > 1 { JoinDecides(tokens, command, '\0'); }
  }

  lemma TextOfTwo(x: string, y: string, rest: seq<string>)
    ensures Separated([x, y] + rest) == (x + ['\0'] + y) + if rest == [] then "" else ['\0'] + Separated(rest)
  {
    var all := [x, y] + rest;
    assert all[1..] == [y] + rest && ([y] + rest)[1..] == rest;
    assert Separated(all) == x + "\0" + Join([y] + rest, "\0");
    if rest == [] {
      assert Join([y] + rest, "\0") == y;
      assert (x + ['\0'] + y) + "" == x + "\0" + y;
    } else {
      assert Join([y] + rest, "\0") == y + "\0" + Separated(rest);
      assert x + "\0" + (y + "\0" + Separated(rest)) == (x + ['\0'] + y) + (['\0'] + Separated(rest));
    }
  }

  // Moving a separator from one token to the next leaves the text as it was.
  lemma {:induction false} MovedSeparator(front: seq<string>, x: string, y: string, x': string, y': string,
                                          rest: seq<string>)
    requires x + ['\0'] + y == x' + ['\0'] + y'
    ensures Separated(front + [x, y] + rest) == Separated(front + [x', y'] + rest)
    decreases |front|
  {
    var a, b := front + [x, y] + rest, front + [x', y'] + rest;
    if |front| == 0 {
      TextOfTwo(x, y, rest);
      TextOfTwo(x', y', rest);
      assert a == [x, y] + rest && b == [x', y'] + rest;
    } else {
      assert a[1..] == front[1..] + [x, y] + rest && b[1..] == front[1..] + [x', y'] + rest;
      MovedSeparator(front[1..], x, y, x', y', rest);
    }
  }

  // Different tokens pass for any command that is not safe.
  lemma UnsafeCommandCollides(command: seq<string>) returns (other: seq<string>)
    requires !SafeCommand(command)
    ensures |other| == |command| && other != command && Separated(other) == Separated(command)
  {
    var t :| t in command && '\0' in t;
    var i :| 0 <= i < |command| && command[i] == t;
    var n :| 0 <= n < |t| && t[n] == '\0';
    var u, v := t[..n], t[n + 1..];
    assert t == u + ['\0'] + v;
    var k := if i + 1 < |command| then i else i - 1;
    var front, rest := command[..k], command[k + 2..];
    var x', y' := if k == i then u else command[k] + ['\0'] + u, if k == i then v + ['\0'] + command[k + 1] else v;
    assert command == front + [command[k], command[k + 1]] + rest;
    MovedSeparator(front, command[k], command[k + 1], x', y', rest);
    other := front + [x', y'] + rest;
    assert other[i] == (if k == i then u else v) && |other[i]| < |t|;
  }

  // So only itself passes for a command exactly when the command is safe.
  lemma SafeCommandsExactly(command: seq<string>)
    ensures SafeCommand(command)
            <==> forall tokens :: |tokens| == |command| && Separated(tokens) == Separated(command) ==> tokens == command
  {
    if SafeCommand(command) {
      forall tokens | |tokens| == |command| && Separated(tokens) == Separated(command) ensures tokens == command {
        SeparatedIsFaithful(tokens, command);
      }
    } else {
      var other := UnsafeCommandCollides(command);
    }
  }

  // Two token lists with one text.
  lemma SeparatorCollides()
    ensures Separated(["a\0b", "c"]) == Separated(["a", "b\0c"])
  {
    assert ["a\0b", "c"][1..] == ["c"] && ["a", "b\0c"][1..] == ["b\0c"];
    assert "a\0b" + "\0" + "c" == "a" + "\0" + "b\0c";
  }

  function GlobalNames(op: Operation): Bindings {
    if |op.globalOptions| > 0 then BindingFor(op.globalOptions) else map[]
  }

  // The call is the rendering of global options, the command, and units, all declared and
  // in exact dash form.
  ghost predicate Renders(op: Operation, gs: seq<GlobalUnit>, units: seq<Unit>, argv: seq<string>) {
    && argv == PrintGlobals(gs) + (op.command + Print(units))
    && GlobalsOk(GlobalNames(op), gs, map[])
    && StopsGlobals(GlobalNames(op), op.command + Print(units))
    && (forall u :: u in units ==> UnitOk(op, u))
    && (forall g :: g in gs ==> g.key in GlobalNames(op))
  }

  // What the matcher binds to the parts of a rendered call.
  ghost function BoundParts(op: Operation, gs: seq<GlobalUnit>, units: seq<Unit>): Option<Bindings>
    requires forall g :: g in gs ==> g.key in GlobalNames(op)
  {
    Bound(op, Parsed(AssignAll(map[], units), PositionalTokens(units)), BindGlobals(GlobalNames(op), gs, map[]))
  }

  // Matching a call whose global options are read: the rest is the command and declared units.
  lemma MatchAfterGlobals(op: Operation, argv: seq<string>, globals: Bindings, units: seq<Unit>)
    requires DeclaresOptions(op) && GlobalsOfCall(op, argv) == Some(Globals(globals, op.command + Print(units)))
    requires Units(op, Print(units)) == Some(units)
    ensures MatchOperation(op, argv) == Bound(op, Parsed(AssignAll(map[], units), PositionalTokens(units)), globals)
  {
    hide GlobalsOfCall, Units, Print, Bound, AssignAll, PositionalTokens, Separated;
    var rest := op.command + Print(units);
    assert rest[..|op.command|] == op.command && rest[|op.command|..] == Print(units);
  }

  lemma GlobalsOfRendered(op: Operation, gs: seq<GlobalUnit>, rest: seq<string>)
    requires GlobalsOk(GlobalNames(op), gs, map[]) && StopsGlobals(GlobalNames(op), rest)
    requires forall g :: g in gs ==> g.key in GlobalNames(op)
    ensures GlobalsOfCall(op, PrintGlobals(gs) + rest) == Some(Globals(BindGlobals(GlobalNames(op), gs, map[]), rest))
  {
    GlobalsComplete(GlobalNames(op), gs, map[], rest);
    hide GlobalToken, ParseGlobals;
    if |op.globalOptions| == 0 {
      assert gs == [] && PrintGlobals(gs) + rest == rest;
    }
  }

  // A rendered call is bound as its parts are.
  lemma RenderedCallBinds(op: Operation, gs: seq<GlobalUnit>, units: seq<Unit>, argv: seq<string>)
    requires DeclaresOptions(op) && Renders(op, gs, units, argv)
    ensures MatchOperation(op, argv) == BoundParts(op, gs, units)
  {
    hide GlobalsOfCall, MatchOperation, UnitOk, Bound, GlobalsOk, BindGlobals, GlobalNames, StopsGlobals,
         DeclaresOptions;
    UnitsComplete(op, units);
    GlobalsOfRendered(op, gs, op.command + Print(units));
    MatchAfterGlobals(op, argv, BindGlobals(GlobalNames(op), gs, map[]), units);
  }

  // After the global options of a matched call stand the command and declared units.
  lemma RestOfMatch(op: Operation, argv: seq<string>) returns (units: seq<Unit>)
    requires DeclaresOptions(op) && MatchOperation(op, argv).Some? && SafeCommand(op.command)
    ensures Units(op, Print(units)) == Some(units) && forall u :: u in units ==> UnitOk(op, u)
    ensures GlobalsOfCall(op, argv).value.rest == op.command + Print(units)
  {
    hide GlobalsOfCall, Units, Print, Bound, AssignAll, PositionalTokens, Separated, UnitOk, SafeCommand;
    var rest, n := GlobalsOfCall(op, argv).value.rest, |op.command|;
    SeparatedIsFaithful(rest[..n], op.command);
    UnitsSound(op, rest[n..]);
    units := Units(op, rest[n..]).value;
    assert rest == rest[..n] + rest[n..];
  }

  // Every call that matches is the rendering of declared options only.
  lemma MatchedCallIsRendered(op: Operation, argv: seq<string>) returns (gs: seq<GlobalUnit>, units: seq<Unit>)
    requires DeclaresOptions(op) && MatchOperation(op, argv).Some? && SafeCommand(op.command)
    ensures Renders(op, gs, units, argv)
  {
    assert GlobalsOfCall(op, argv).Some?;
    var globals := GlobalsOfCall(op, argv).value;
    hide GlobalsOfCall, MatchOperation, UnitOk, Bound, GlobalsOk, BindGlobals, GlobalNames, StopsGlobals,
         DeclaresOptions, SafeCommand;
    gs := GlobalsOfCallSound(op, argv);
    units := RestOfMatch(op, argv);
    MatchAfterGlobals(op, argv, globals.bindings, units);
  }

  lemma GlobalsOfCallSound(op: Operation, argv: seq<string>) returns (gs: seq<GlobalUnit>)
    requires GlobalsOfCall(op, argv).Some?
    ensures var Globals(bindings, rest) := GlobalsOfCall(op, argv).value;
            && GlobalsOk(GlobalNames(op), gs, map[]) && (forall g :: g in gs ==> g.key in GlobalNames(op))
            && argv == PrintGlobals(gs) + rest && StopsGlobals(GlobalNames(op), rest)
            && bindings == BindGlobals(GlobalNames(op), gs, map[])
  {
    if |op.globalOptions| > 0 {
      gs := GlobalsSound(argv, BindingFor(op.globalOptions), map[]);
    } else {
      gs := [];
      assert [] + argv == argv;
    }
  }

  // ---- what a rendered call binds

  // The assignments that units make, one by one.
  function Assignments(units: seq<Unit>): seq<(string, string)> {
    if |units| == 0 then []
    else
      (match units[0]
       case Positional(_) => []
       case Bundle(letters) => LetterAssignments(letters)
       case Inline(key, value) => [(key, value)]
       case Spaced(key, value) => [(key, value)]
       case Flag(key) => [(key, "true")]) + Assignments(units[1..])
  }

  function LetterAssignments(letters: string): seq<(string, string)> {
    if |letters| == 0 then [] else [([letters[0]], "true")] + LetterAssignments(letters[1..])
  }

  function Perform(options: Bindings, assignments: seq<(string, string)>): Bindings
    decreases |assignments|
  {
    if |assignments| == 0 then options else Perform(options[assignments[0].0 := assignments[0].1], assignments[1..])
  }

  lemma {:induction false} PerformConcat(options: Bindings, a: seq<(string, string)>, b: seq<(string, string)>)
    ensures Perform(options, a + b) == Perform(Perform(options, a), b)
    decreases |a|
  {
    if |a| == 0 {
      assert a + b == b;
    } else {
      assert (a + b)[1..] == a[1..] + b;
      PerformConcat(options[a[0].0 := a[0].1], a[1..], b);
    }
  }

  lemma {:induction false} LettersPerform(options: Bindings, letters: string)
    ensures AssignLetters(options, letters) == Perform(options, LetterAssignments(letters))
    decreases |letters|
  {
    if |letters| > 0 {
      LettersPerform(options[[letters[0]] := "true"], letters[1..]);
      assert LetterAssignments(letters)[1..] == LetterAssignments(letters[1..]);
    }
  }

  lemma {:induction false} AssignAllPerforms(options: Bindings, units: seq<Unit>)
    ensures AssignAll(options, units) == Perform(options, Assignments(units))
    decreases |units|
  {
    if |units| > 0 {
      var u, rest := units[0], Assignments(units[1..]);
      AssignAllPerforms(Assign(options, u), units[1..]);
      match u
      case Positional(_) => assert [] + rest == rest;
      case Bundle(letters) =>
        LettersPerform(options, letters);
        PerformConcat(options, LetterAssignments(letters), rest);
      case Inline(key, value) => PerformConcat(options, [(key, value)], rest); OneAssignment(options, key, value);
      case Spaced(key, value) => PerformConcat(options, [(key, value)], rest); OneAssignment(options, key, value);
      case Flag(key) => PerformConcat(options, [(key, "true")], rest); OneAssignment(options, key, "true");
    }
  }

  lemma OneAssignment(options: Bindings, key: string, value: string)
    ensures Perform(options, [(key, value)]) == options[key := value]
  {
    assert [(key, value)][1..] == [];
  }

  ghost predicate AssignedIn(assignments: seq<(string, string)>, name: string) {
    exists i :: 0 <= i < |assignments| && assignments[i].0 == name
  }

  ghost predicate DistinctNames(assignments: seq<(string, string)>) {
    forall i, j :: 0 <= i < j < |assignments| ==> assignments[i].0 != assignments[j].0
  }

  ghost predicate DistinctTexts(texts: seq<string>) {
    forall i, j :: 0 <= i < j < |texts| ==> texts[i] != texts[j]
  }

  lemma AssignedFromHead(assignments: seq<(string, string)>, name: string)
    requires |assignments| > 0
    ensures AssignedIn(assignments, name) <==> name == assignments[0].0 || AssignedIn(assignments[1..], name)
  {
    if i :| 0 <= i < |assignments| && assignments[i].0 == name && i > 0 { assert assignments[1..][i - 1].0 == name; }
    if AssignedIn(assignments[1..], name) {
      var i :| 0 <= i < |assignments| - 1 && assignments[1..][i].0 == name;
      assert assignments[i + 1].0 == name;
    }
  }

  // The names that are assigned are exactly the ones bound, and when they are distinct each
  // keeps the value it was given.
  lemma {:induction false} PerformBinds(options: Bindings, assignments: seq<(string, string)>)
    ensures var r := Perform(options, assignments);
            && (forall name :: name in r <==> name in options || AssignedIn(assignments, name))
            && (forall name :: name in options && !AssignedIn(assignments, name) ==>
                 name in r && r[name] == options[name])
            && (DistinctNames(assignments) ==>
                  forall i :: 0 <= i < |assignments|
                    ==> assignments[i].0 in r && r[assignments[i].0] == assignments[i].1)
    decreases |assignments|
  {
    if |assignments| > 0 {
      var rest := assignments[1..];
      assert forall i :: 0 <= i < |rest| ==> rest[i] == assignments[i + 1];
      forall name ensures AssignedIn(assignments, name) <==> name == assignments[0].0 || AssignedIn(rest, name) {
        AssignedFromHead(assignments, name);
      }
      hide AssignedIn;
      PerformBinds(options[assignments[0].0 := assignments[0].1], rest);
    }
  }

  // The options read from a call are exactly the names its units assign; each of distinct
  // names has the value it was rendered with.
  lemma OptionsAreExact(units: seq<Unit>)
    ensures var r, a := AssignAll(map[], units), Assignments(units);
            && (forall name :: name in r <==> AssignedIn(a, name))
            && (DistinctNames(a) ==> forall i :: 0 <= i < |a| ==> a[i].0 in r && r[a[i].0] == a[i].1)
  {
    AssignAllPerforms(map[], units);
    PerformBinds(map[], Assignments(units));
  }

  predicate Literal(name: string) {
    |name| > 0 && name[0] == '='
  }

  // Literal positionals are met exactly; the others are bound to their names, and options of
  // other names are kept.
  lemma {:induction false} BindPositionalsFacts(names: seq<string>, values: seq<string>, options: Bindings)
    requires |names| == |values| && BindPositionals(names, values, options).Some?
    ensures var r := BindPositionals(names, values, options).value;
            && (forall i :: 0 <= i < |names| && Literal(names[i]) ==> values[i] == names[i][1..])
            && (forall name :: name in r <==> name in options || (name in names && !Literal(name)))
            && (forall name :: name in options && (name !in names || Literal(name)) ==>
                 name in r && r[name] == options[name])
    decreases |names|
  {
    if |names| > 0 {
      var options' := if Literal(names[0]) then options else options[names[0] := values[0]];
      BindPositionalsFacts(names[1..], values[1..], options');
      assert names == [names[0]] + names[1..];
    }
  }

  // Positionals of distinct names keep their values.
  lemma {:induction false} BoundPositionals(names: seq<string>, values: seq<string>, options: Bindings, i: nat)
    requires |names| == |values| && BindPositionals(names, values, options).Some? && DistinctTexts(names)
    requires i < |names| && !Literal(names[i])
    ensures var r := BindPositionals(names, values, options).value; names[i] in r && r[names[i]] == values[i]
    decreases |names|
  {
    var options' := if Literal(names[0]) then options else options[names[0] := values[0]];
    assert forall j :: 0 <= j < |names| - 1 ==> names[1..][j] == names[j + 1];
    if i > 0 {
      BoundPositionals(names[1..], values[1..], options', i - 1);
    } else {
      assert names[0] !in names[1..];
      BindPositionalsFacts(names[1..], values[1..], options');
    }
  }

  // Global options, whose bindings are distinct, are all bound.
  lemma {:induction false} BindGlobalsFacts(bindingFor: Bindings, gs: seq<GlobalUnit>, bound: Bindings)
    requires GlobalsOk(bindingFor, gs, bound) && forall g :: g in gs ==> g.key in bindingFor
    ensures var r := BindGlobals(bindingFor, gs, bound);
            && (forall name :: name in bound ==> name in r && r[name] == bound[name])
            && (forall g :: g in gs ==> bindingFor[g.key] in r && r[bindingFor[g.key]] == g.value)
            && (forall name :: name in r ==> name in bound || exists g :: g in gs && bindingFor[g.key] == name)
    decreases |gs|
  {
    hide GlobalOk;
    if |gs| > 0 {
      var g := gs[0];
      assert gs == [g] + gs[1..];
      BindGlobalsFacts(bindingFor, gs[1..], bound[bindingFor[g.key] := g.value]);
    }
  }

  ghost predicate GlobalName(op: Operation, gs: seq<GlobalUnit>, name: string) {
    exists g :: g in gs && g.key in GlobalNames(op) && GlobalNames(op)[g.key] == name
  }

  // The value that the last assignment of a name gives it.
  function LastAssigned(assignments: seq<(string, string)>, name: string): Option<string> {
    if |assignments| == 0 then None
    else
      var later := LastAssigned(assignments[1..], name);
      if later.Some? then later else if assignments[0].0 == name then Some(assignments[0].1) else None
  }

  function Lookup(bindings: Bindings, name: string): Option<string> {
    if name in bindings then Some(bindings[name]) else None
  }

  lemma {:induction false} PerformKeepsLast(options: Bindings, assignments: seq<(string, string)>, name: string)
    ensures Lookup(Perform(options, assignments), name)
            == if LastAssigned(assignments, name).Some? then LastAssigned(assignments, name) else Lookup(options, name)
    decreases |assignments|
  {
    if |assignments| > 0 { PerformKeepsLast(options[assignments[0].0 := assignments[0].1], assignments[1..], name); }
  }

  // The positionals that bind a name.
  function NamedPositionals(names: seq<string>, values: seq<string>): seq<(string, string)>
    requires |names| == |values|
  {
    if |names| == 0 then []
    else (if Literal(names[0]) then [] else [(names[0], values[0])]) + NamedPositionals(names[1..], values[1..])
  }

  predicate LiteralsMet(names: seq<string>, values: seq<string>)
    requires |names| == |values|
  {
    forall i :: 0 <= i < |names| && Literal(names[i]) ==> values[i] == names[i][1..]
  }

  // Positionals bind exactly when every literal is met, and then assign name by name.
  lemma {:induction false} BindingIsAssigning(names: seq<string>, values: seq<string>, options: Bindings)
    requires |names| == |values|
    ensures BindPositionals(names, values, options)
            == if LiteralsMet(names, values) then Some(Perform(options, NamedPositionals(names, values))) else None
    decreases |names|
  {
    if |names| > 0 {
      var rest := NamedPositionals(names[1..], values[1..]);
      LiteralsMetFromHead(names, values);
      hide LiteralsMet;
      if Literal(names[0]) {
        assert [] + rest == rest;
        BindingIsAssigning(names[1..], values[1..], options);
      } else {
        assert ([(names[0], values[0])] + rest)[1..] == rest;
        BindingIsAssigning(names[1..], values[1..], options[names[0] := values[0]]);
      }
    }
  }

  lemma LiteralsMetFromHead(names: seq<string>, values: seq<string>)
    requires |names| == |values| > 0
    ensures LiteralsMet(names, values)
            <==> (Literal(names[0]) ==> values[0] == names[0][1..]) && LiteralsMet(names[1..], values[1..])
  {
    if (Literal(names[0]) ==> values[0] == names[0][1..]) && LiteralsMet(names[1..], values[1..]) {
      forall i | 0 <= i < |names| && Literal(names[i]) ensures values[i] == names[i][1..] {
        if i > 0 { assert names[1..][i - 1] == names[i] && values[1..][i - 1] == values[i]; }
      }
    }
    assert forall i :: 0 <= i < |names| - 1 ==> names[1..][i] == names[i + 1] && values[1..][i] == values[i + 1];
  }

  // All assignments of a call: its options, then its positionals.
  function CallAssignments(op: Operation, units: seq<Unit>): seq<(string, string)>
    requires |PositionalTokens(units)| == |op.positionals|
  {
    Assignments(units) + NamedPositionals(op.positionals, PositionalTokens(units))
  }

  predicate RequiredGiven(op: Operation, units: seq<Unit>) {
    forall name :: name in op.requiredOptions ==>
      LastAssigned(Assignments(units), name).Some? && LastAssigned(Assignments(units), name).value != ""
  }

  // The parts fit the operation: as many positionals as it names, its literals among them,
  // a value for every required option, and no global under a name that the call assigns.
  ghost predicate Fits(op: Operation, gs: seq<GlobalUnit>, units: seq<Unit>) {
    && |PositionalTokens(units)| == |op.positionals|
    && LiteralsMet(op.positionals, PositionalTokens(units))
    && RequiredGiven(op, units)
    && forall name :: GlobalName(op, gs, name) ==> LastAssigned(CallAssignments(op, units), name).None?
  }

  // The value that a call gives a name: that of its global option, or the last one assigned.
  function Given(op: Operation, gs: seq<GlobalUnit>, units: seq<Unit>, name: string): Option<string>
    requires |PositionalTokens(units)| == |op.positionals|
  {
    var global := GlobalValue(GlobalNames(op), gs, name);
    if global.Some? then global else LastAssigned(CallAssignments(op, units), name)
  }

  function GlobalValue(bindingFor: Bindings, gs: seq<GlobalUnit>, name: string): Option<string> {
    if |gs| == 0 then None
    else if gs[0].key in bindingFor && bindingFor[gs[0].key] == name then Some(gs[0].value)
    else GlobalValue(bindingFor, gs[1..], name)
  }

  ghost predicate BindsGiven(op: Operation, gs: seq<GlobalUnit>, units: seq<Unit>, bindings: Bindings)
    requires |PositionalTokens(units)| == |op.positionals|
  {
    forall name :: Lookup(bindings, name) == Given(op, gs, units, name)
  }

  lemma {:induction false} GlobalsKeepValues(bindingFor: Bindings, gs: seq<GlobalUnit>, bound: Bindings, name: string)
    requires GlobalsOk(bindingFor, gs, bound) && forall g :: g in gs ==> g.key in bindingFor
    ensures Lookup(BindGlobals(bindingFor, gs, bound), name)
            == if name in bound then Some(bound[name]) else GlobalValue(bindingFor, gs, name)
    decreases |gs|
  {
    hide GlobalOk;
    if |gs| > 0 {
      var g := gs[0];
      assert gs == [g] + gs[1..];
      GlobalsKeepValues(bindingFor, gs[1..], bound[bindingFor[g.key] := g.value], name);
    }
  }

  lemma {:induction false} GlobalValueOfName(op: Operation, gs: seq<GlobalUnit>, name: string)
    ensures GlobalValue(GlobalNames(op), gs, name).Some? <==> GlobalName(op, gs, name)
    decreases |gs|
  {
    hide GlobalNames;
    if |gs| > 0 {
      assert gs == [gs[0]] + gs[1..];
      GlobalValueOfName(op, gs[1..], name);
    }
  }

  // The parts of a rendered call are bound exactly when they fit the operation, and then
  // every name has the value that the call gives it.
  lemma BoundExactly(op: Operation, gs: seq<GlobalUnit>, units: seq<Unit>)
    requires GlobalsOk(GlobalNames(op), gs, map[]) && forall g :: g in gs ==> g.key in GlobalNames(op)
    ensures BoundParts(op, gs, units).Some? <==> Fits(op, gs, units)
    ensures Fits(op, gs, units) ==> BindsGiven(op, gs, units, BoundParts(op, gs, units).value)
  {
    var options, tokens := AssignAll(map[], units), PositionalTokens(units);
    var globals := BindGlobals(GlobalNames(op), gs, map[]);
    AssignAllPerforms(map[], units);
    forall name ensures Lookup(options, name) == LastAssigned(Assignments(units), name) {
      PerformKeepsLast(map[], Assignments(units), name);
    }
    forall name
      ensures Lookup(globals, name) == GlobalValue(GlobalNames(op), gs, name)
      ensures name in globals <==> GlobalName(op, gs, name)
    {
      GlobalsKeepValues(GlobalNames(op), gs, map[], name);
      GlobalValueOfName(op, gs, name);
    }
    assert RequiredGiven(op, units) <==> !exists name :: name in op.requiredOptions && !Truthy(options, name) by {
      RequiredAreTruthy(op, units, options);
    }
    if |tokens| == |op.positionals| {
      BindingIsAssigning(op.positionals, tokens, options);
      var all := CallAssignments(op, units);
      PerformConcat(map[], Assignments(units), NamedPositionals(op.positionals, tokens));
      var local := Perform(map[], all);
      forall name ensures Lookup(local, name) == LastAssigned(all, name) { PerformKeepsLast(map[], all, name); }
      LocalAndGlobal(op, gs, units, local, globals);
    }
    hide GlobalsOk, GlobalNames, AssignAll, PositionalTokens, BindGlobals, LiteralsMet, RequiredGiven, CallAssignments,
         BindPositionals, BindsGiven, Perform, LastAssigned, Truthy;
  }

  lemma RequiredAreTruthy(op: Operation, units: seq<Unit>, options: Bindings)
    requires forall name :: Lookup(options, name) == LastAssigned(Assignments(units), name)
    ensures RequiredGiven(op, units) <==> !exists name :: name in op.requiredOptions && !Truthy(options, name)
  {
    hide LastAssigned, Assignments;
    forall name
      ensures Truthy(options, name)
              <==> LastAssigned(Assignments(units), name).Some? && LastAssigned(Assignments(units), name).value != ""
    {
      assert Lookup(options, name) == LastAssigned(Assignments(units), name);
    }
  }

  lemma LocalAndGlobal(op: Operation, gs: seq<GlobalUnit>, units: seq<Unit>, local: Bindings, globals: Bindings)
    requires |PositionalTokens(units)| == |op.positionals|
    requires forall name :: Lookup(local, name) == LastAssigned(CallAssignments(op, units), name)
    requires forall name :: Lookup(globals, name) == GlobalValue(GlobalNames(op), gs, name)
    requires forall name :: name in globals <==> GlobalName(op, gs, name)
    ensures (exists name :: name in globals && name in local)
            <==> !(forall name :: GlobalName(op, gs, name) ==> LastAssigned(CallAssignments(op, units), name).None?)
    ensures BindsGiven(op, gs, units, local + globals)
  {
    hide LastAssigned, CallAssignments, GlobalName, GlobalValue, GlobalNames, PositionalTokens;
    forall name ensures name in local <==> LastAssigned(CallAssignments(op, units), name).Some? {
      assert Lookup(local, name) == LastAssigned(CallAssignments(op, units), name);
    }
    forall name ensures Lookup(local + globals, name) == Given(op, gs, units, name) {
      assert Lookup(local, name) == LastAssigned(CallAssignments(op, units), name);
      assert Lookup(globals, name) == GlobalValue(GlobalNames(op), gs, name);
    }
  }

  // A rendered call matches exactly when its parts fit the operation, and then binds every
  // name to the value that the call gives it, and nothing else.
  lemma RenderedCallMatches(op: Operation, gs: seq<GlobalUnit>, units: seq<Unit>, argv: seq<string>)
    requires DeclaresOptions(op) && Renders(op, gs, units, argv)
    ensures MatchOperation(op, argv).Some? <==> Fits(op, gs, units)
    ensures Fits(op, gs, units) ==> BindsGiven(op, gs, units, MatchOperation(op, argv).value)
  {
    RenderedCallBinds(op, gs, units, argv);
    BoundExactly(op, gs, units);
    hide Fits, BindsGiven, BoundParts, MatchOperation, UnitOk, GlobalsOk, GlobalNames, StopsGlobals, DeclaresOptions;
  }

  // An operation with declared options matches a call exactly when the call renders declared
  // options that fit it around its command, and then binds exactly what they give.
  lemma MatchingIsRendering(op: Operation, argv: seq<string>, bindings: Bindings)
    requires DeclaresOptions(op) && SafeCommand(op.command)
    ensures MatchOperation(op, argv) == Some(bindings)
            <==> exists gs, units :: Renders(op, gs, units, argv) && Fits(op, gs, units)
                                     && BindsGiven(op, gs, units, bindings)
  {
    if MatchOperation(op, argv) == Some(bindings) {
      hide Renders, MatchOperation, Fits, BindsGiven, DeclaresOptions, SafeCommand;
      var gs, units := MatchedCallIsRendered(op, argv);
      RenderedCallMatches(op, gs, units, argv);
    }
    if gs, units :| Renders(op, gs, units, argv) && Fits(op, gs, units) && BindsGiven(op, gs, units, bindings) {
      RenderedCallMatches(op, gs, units, argv);
      GivenIsExact(op, gs, units, bindings, MatchOperation(op, argv).value);
      hide Renders, MatchOperation, Fits, BindsGiven, DeclaresOptions, SafeCommand;
    }
  }

  ghost predicate IsRendering(op: Operation, argv: seq<string>) {
    exists gs, units :: Renders(op, gs, units, argv)
  }

  // Without global options, tokens that pass for the command are matched like it.
  lemma PassingTokensMatch(op: Operation, tokens: seq<string>, rest: seq<string>)
    requires op.globalOptions == [] && |tokens| == |op.command| && Separated(tokens) == Separated(op.command)
    ensures MatchOperation(op, tokens + rest) == MatchOperation(op, op.command + rest)
  {
    hide ParseOptionArgs, Bound, Separated;
    var n := |op.command|;
    assert (tokens + rest)[..n] == tokens && (tokens + rest)[n..] == rest;
    assert (op.command + rest)[..n] == op.command && (op.command + rest)[n..] == rest;
  }

  lemma RenderingBegins(op: Operation, gs: seq<GlobalUnit>, units: seq<Unit>, argv: seq<string>)
    requires op.globalOptions == [] && Renders(op, gs, units, argv)
    ensures |argv| >= |op.command| && argv[..|op.command|] == op.command
  {
    hide UnitOk, StopsGlobals;
    assert gs == [];
    assert [] + (op.command + Print(units)) == op.command + Print(units);
  }

  lemma CommandRenders(op: Operation, units: seq<Unit>)
    requires op.globalOptions == [] && forall u :: u in units ==> UnitOk(op, u)
    ensures Renders(op, [], units, op.command + Print(units))
  {
    hide UnitOk;
    assert [] + (op.command + Print(units)) == op.command + Print(units);
    assert StopsGlobals(map[], op.command + Print(units));
  }

  // The condition is needed: an operation without global options that some call fits is
  // matched by renderings only, exactly when its command is safe.
  lemma OnlyRenderingsExactly(op: Operation, units: seq<Unit>)
    requires DeclaresOptions(op) && op.globalOptions == []
    requires (forall u :: u in units ==> UnitOk(op, u)) && Fits(op, [], units)
    ensures SafeCommand(op.command) <==> forall argv :: MatchOperation(op, argv).Some? ==> IsRendering(op, argv)
  {
    CommandRenders(op, units);
    RenderedCallMatches(op, [], units, op.command + Print(units));
    hide Fits, UnitOk, Renders, MatchOperation, DeclaresOptions, SafeCommand, Separated;
    if SafeCommand(op.command) {
      forall argv | MatchOperation(op, argv).Some? ensures IsRendering(op, argv) {
        var gs, us := MatchedCallIsRendered(op, argv);
      }
    } else {
      var other := UnsafeCommandCollides(op.command);
      var argv := other + Print(units);
      PassingTokensMatch(op, other, Print(units));
      assert argv[..|op.command|] == other;
      if gs, us :| Renders(op, gs, us, argv) { RenderingBegins(op, gs, us, argv); }
    }
  }

  lemma GivenIsExact(op: Operation, gs: seq<GlobalUnit>, units: seq<Unit>, a: Bindings, b: Bindings)
    requires |PositionalTokens(units)| == |op.positionals|
    requires BindsGiven(op, gs, units, a) && BindsGiven(op, gs, units, b)
    ensures a == b
  {
    hide Given;
    forall name ensures Lookup(a, name) == Lookup(b, name) {
      assert Lookup(a, name) == Given(op, gs, units, name);
    }
    forall name ensures (name in a <==> name in b) && (name in a ==> a[name] == b[name]) {
      assert Lookup(a, name) == Lookup(b, name);
    }
  }

  // With distinct names, every value of a rendered call that fits is bound to its name.
  lemma RenderedValuesAreBound(op: Operation, gs: seq<GlobalUnit>, units: seq<Unit>, argv: seq<string>)
    requires DeclaresOptions(op) && Renders(op, gs, units, argv) && Fits(op, gs, units)
    requires DistinctNames(Assignments(units)) && DistinctTexts(op.positionals)
    requires forall i :: 0 <= i < |Assignments(units)| ==> Assignments(units)[i].0 !in op.positionals
    ensures MatchOperation(op, argv).Some?
    ensures var a, tokens, bindings := Assignments(units), PositionalTokens(units), MatchOperation(op, argv).value;
            && (forall i :: 0 <= i < |a| ==> a[i].0 in bindings && bindings[a[i].0] == a[i].1)
            && |tokens| == |op.positionals|
            && (forall i :: 0 <= i < |tokens| ==>
                  if Literal(op.positionals[i]) then tokens[i] == op.positionals[i][1..]
                  else op.positionals[i] in bindings && bindings[op.positionals[i]] == tokens[i])
            && (forall g :: g in gs ==>
                 GlobalNames(op)[g.key] in bindings && bindings[GlobalNames(op)[g.key]] == g.value)
            && forall name :: name in bindings ==>
                 AssignedIn(a, name) || (name in op.positionals && !Literal(name)) || GlobalName(op, gs, name)
  {
    RenderedCallMatches(op, gs, units, argv);
    RenderedCallBinds(op, gs, units, argv);
    PartsAreBound(op, gs, units);
    hide Fits, Assignments, AssignAll, PositionalTokens, GlobalNames, DeclaresOptions, DistinctNames, DistinctTexts;
  }

  lemma PartsAreBound(op: Operation, gs: seq<GlobalUnit>, units: seq<Unit>)
    requires GlobalsOk(GlobalNames(op), gs, map[]) && forall g :: g in gs ==> g.key in GlobalNames(op)
    requires BoundParts(op, gs, units).Some?
    requires DistinctNames(Assignments(units)) && DistinctTexts(op.positionals)
    requires forall i :: 0 <= i < |Assignments(units)| ==> Assignments(units)[i].0 !in op.positionals
    ensures var a, tokens, bindings := Assignments(units), PositionalTokens(units), BoundParts(op, gs, units).value;
            && (forall i :: 0 <= i < |a| ==> a[i].0 in bindings && bindings[a[i].0] == a[i].1)
            && |tokens| == |op.positionals|
            && (forall i :: 0 <= i < |tokens| ==>
                  if Literal(op.positionals[i]) then tokens[i] == op.positionals[i][1..]
                  else op.positionals[i] in bindings && bindings[op.positionals[i]] == tokens[i])
            && (forall g :: g in gs ==>
                 GlobalNames(op)[g.key] in bindings && bindings[GlobalNames(op)[g.key]] == g.value)
            && forall name :: name in bindings ==>
                 AssignedIn(a, name) || (name in op.positionals && !Literal(name)) || GlobalName(op, gs, name)
  {
    var options, globals := AssignAll(map[], units), BindGlobals(GlobalNames(op), gs, map[]);
    var a, tokens := Assignments(units), PositionalTokens(units);
    assert |tokens| == |op.positionals| && BindPositionals(op.positionals, tokens, options).Some?;
    var local := BindPositionals(op.positionals, tokens, options).value;
    assert BoundParts(op, gs, units).value == local + globals && forall name :: name in globals ==> name !in local;
    GlobalValues(op, gs);
    hide *;
    OptionsAreExact(units);
    BindPositionalsFacts(op.positionals, tokens, options);
    forall i | 0 <= i < |a| ensures a[i].0 in local && local[a[i].0] == a[i].1 { assert a[i].0 in options; }
    forall i | 0 <= i < |tokens| && !Literal(op.positionals[i])
      ensures op.positionals[i] in local && local[op.positionals[i]] == tokens[i]
    {
      BoundPositionals(op.positionals, tokens, options, i);
    }
  }

  lemma GlobalValues(op: Operation, gs: seq<GlobalUnit>)
    requires GlobalsOk(GlobalNames(op), gs, map[]) && forall g :: g in gs ==> g.key in GlobalNames(op)
    ensures var r := BindGlobals(GlobalNames(op), gs, map[]);
            && (forall g :: g in gs ==> GlobalNames(op)[g.key] in r && r[GlobalNames(op)[g.key]] == g.value)
            && (forall name :: name in r ==> GlobalName(op, gs, name))
  {
    BindGlobalsFacts(GlobalNames(op), gs, map[]);
  }

  // ---------------------------------------------------------------- choosing an operation

  datatype Found = Found(operation: Operation, bindings: Bindings)

  function TryMatch(operations: seq<Operation>, argv: seq<string>): seq<Found> {
    if |operations| == 0 then []
    else
      (match MatchOperation(operations[0], argv) case Some(b) => [Found(operations[0], b)] case None => [])
      + TryMatch(operations[1..], argv)
  }

  predicate Letter(c: char) {
    'a' <= c <= 'z' || 'A' <= c <= 'Z'
  }

  function Expand(token: string): seq<string> {
    if DashLed(token) && !DoubleDashLed(token) && |token| > 2 && forall c :: c in token[1..] ==> Letter(c)
    then seq(|token| - 1, i requires 0 <= i < |token| - 1 => "-" + [token[i + 1]])
    else [token]
  }

  // `expandCombinedFlags`
  function ExpandCombinedFlags(argv: seq<string>): seq<string> {
    if |argv| == 0 then [] else Expand(argv[0]) + ExpandCombinedFlags(argv[1..])
  }

  function Undeclared(operations: seq<Operation>): seq<Operation> {
    if |operations| == 0 then []
    else (if DeclaresOptions(operations[0]) then [] else [operations[0]]) + Undeclared(operations[1..])
  }

  // The first match, in order, of those with the longest command.
  function Longest(matches: seq<Found>): Option<Found> {
    if |matches| == 0 then None
    else
      var rest := Longest(matches[1..]);
      if rest.Some? && |rest.value.operation.command| > |matches[0].operation.command| then rest else Some(matches[0])
  }

  function Candidates(operations: seq<Operation>, argv: seq<string>): seq<Found> {
    var exact := TryMatch(operations, argv);
    var expanded := ExpandCombinedFlags(argv);
    if |exact| > 0 || |expanded| == |argv| then exact else TryMatch(Undeclared(operations), expanded)
  }

  // `matchArgvToOperation`
  function MatchArgv(operations: seq<Operation>, argv: seq<string>): Option<Found> {
    Longest(Candidates(operations, argv))
  }

  // An operation that the call matches; `legacy` leaves out those that declare options.
  ghost predicate Eligible(op: Operation, argv: seq<string>, legacy: bool) {
    MatchOperation(op, argv).Some? && (legacy ==> !DeclaresOptions(op))
  }

  // The first eligible operation, in order, of those with the longest command, with what it
  // binds.
  ghost predicate FirstLongest(operations: seq<Operation>, argv: seq<string>, legacy: bool, found: Found, i: nat) {
    && i < |operations| && Eligible(operations[i], argv, legacy)
    && found == Found(operations[i], MatchOperation(operations[i], argv).value)
    && forall j :: 0 <= j < |operations| && Eligible(operations[j], argv, legacy) ==>
         if j < i then |operations[j].command| < |operations[i].command|
         else |operations[j].command| <= |operations[i].command|
  }

  ghost predicate AnyEligible(operations: seq<Operation>, argv: seq<string>, legacy: bool) {
    exists op :: op in operations && Eligible(op, argv, legacy)
  }

  ghost predicate Chosen(operations: seq<Operation>, argv: seq<string>, legacy: bool, found: Option<Found>) {
    if AnyEligible(operations, argv, legacy)
    then found.Some? && exists i: nat :: FirstLongest(operations, argv, legacy, found.value, i)
    else found.None?
  }

  // One more operation in front.
  lemma ChosenFromHead(operations: seq<Operation>, argv: seq<string>, legacy: bool, later: Option<Found>)
    requires |operations| > 0 && Chosen(operations[1..], argv, legacy, later)
    ensures var op := operations[0];
            var head := Found(op, if MatchOperation(op, argv).Some? then MatchOperation(op, argv).value else map[]);
            Chosen(operations, argv, legacy,
                   if !Eligible(op, argv, legacy) then later
                   else if later.Some? && |later.value.operation.command| > |op.command| then later
                   else Some(head))
  {
    hide MatchOperation, DeclaresOptions, Eligible;
    var op, rest := operations[0], operations[1..];
    assert operations == [op] + rest;
    if AnyEligible(rest, argv, legacy) {
      var i: nat :| FirstLongest(rest, argv, legacy, later.value, i);
      if !Eligible(op, argv, legacy) || |rest[i].command| > |op.command| {
        LaterIsFirstLongest(operations, argv, legacy, later.value, i);
      } else {
        HeadIsFirstLongest(operations, argv, legacy, later);
      }
    } else if Eligible(op, argv, legacy) {
      HeadIsFirstLongest(operations, argv, legacy, later);
    }
    hide FirstLongest;
  }

  lemma LaterIsFirstLongest(operations: seq<Operation>, argv: seq<string>, legacy: bool, found: Found, i: nat)
    requires |operations| > 0 && FirstLongest(operations[1..], argv, legacy, found, i)
    requires Eligible(operations[0], argv, legacy) ==> |found.operation.command| > |operations[0].command|
    ensures FirstLongest(operations, argv, legacy, found, i + 1)
  {
    hide MatchOperation, DeclaresOptions, Eligible;
    assert forall j :: 0 < j < |operations| ==> operations[j] == operations[1..][j - 1];
  }

  lemma HeadIsFirstLongest(operations: seq<Operation>, argv: seq<string>, legacy: bool, later: Option<Found>)
    requires |operations| > 0 && Eligible(operations[0], argv, legacy) && Chosen(operations[1..], argv, legacy, later)
    requires later.Some? ==> |later.value.operation.command| <= |operations[0].command|
    ensures MatchOperation(operations[0], argv).Some?
    ensures FirstLongest(operations, argv, legacy, Found(operations[0], MatchOperation(operations[0], argv).value), 0)
  {
    EligibleMatches(operations[0], argv, legacy);
    hide MatchOperation, DeclaresOptions, Eligible;
    var rest := operations[1..];
    assert forall j :: 0 < j < |operations| ==> operations[j] == rest[j - 1] && rest[j - 1] in rest;
    if AnyEligible(rest, argv, legacy) {
      var i: nat :| FirstLongest(rest, argv, legacy, later.value, i);
    }
  }

  lemma EligibleMatches(op: Operation, argv: seq<string>, legacy: bool)
    requires Eligible(op, argv, legacy)
    ensures MatchOperation(op, argv).Some?
  {
    hide MatchOperation;
  }

  lemma {:induction false} LongestIsChosen(operations: seq<Operation>, argv: seq<string>, legacy: bool)
    ensures Chosen(operations, argv, legacy,
                   Longest(TryMatch(if legacy then Undeclared(operations) else operations, argv)))
  {
    hide MatchOperation, Chosen;
    if |operations| == 0 {
      NoneChosen(argv, legacy);
    } else {
      var op, rest := operations[0], operations[1..];
      LongestIsChosen(rest, argv, legacy);
      var pool := if legacy then Undeclared(rest) else rest;
      ChosenFromHead(operations, argv, legacy, Longest(TryMatch(pool, argv)));
      if legacy && DeclaresOptions(op) {
        assert [] + pool == pool;
      } else {
        assert ([op] + pool)[1..] == pool && ([op] + pool)[0] == op;
        LongestFromHead(op, pool, argv);
        assert !legacy ==> [op] + pool == operations;
      }
    }
  }

  lemma NoneChosen(argv: seq<string>, legacy: bool)
    ensures Chosen([], argv, legacy, Longest(TryMatch(if legacy then Undeclared([]) else [], argv)))
  {
  }

  lemma LongestFromHead(op: Operation, pool: seq<Operation>, argv: seq<string>)
    ensures var later, m := Longest(TryMatch(pool, argv)), MatchOperation(op, argv);
            Longest(TryMatch([op] + pool, argv))
            == if m.None? || (later.Some? && |later.value.operation.command| > |op.command|) then later
               else Some(Found(op, m.value))
  {
    hide MatchOperation;
    assert ([op] + pool)[1..] == pool;
    var rest := TryMatch(pool, argv);
    assert [] + rest == rest;
    var m := MatchOperation(op, argv);
    if m.Some? { assert ([Found(op, m.value)] + rest)[1..] == rest; }
  }

  // The chosen operation is, with what it binds, the first of those with the longest command
  // that match the call as it stands; if there is none, the first such operation without
  // declared options that matches it with its flags expanded; and otherwise there is none.
  lemma ChosenIsLongestMatch(operations: seq<Operation>, argv: seq<string>)
    ensures var found, expanded := MatchArgv(operations, argv), ExpandCombinedFlags(argv);
            if AnyEligible(operations, argv, false) then Chosen(operations, argv, false, found)
            else if |expanded| != |argv| then Chosen(operations, expanded, true, found)
            else found.None?
  {
    var expanded := ExpandCombinedFlags(argv);
    LongestIsChosen(operations, argv, false);
    LongestIsChosen(operations, expanded, true);
    var exact := TryMatch(operations, argv);
    assert Longest(exact).None? <==> exact == [];
    hide MatchOperation, TryMatch, Undeclared, ExpandCombinedFlags, DeclaresOptions, Eligible;
  }
}
