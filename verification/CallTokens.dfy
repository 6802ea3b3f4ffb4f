// How single tokens of a call are read, letter by letter, with the older option rule of
// operations that declare no options (packages/grants/src/shape-matcher.ts:37-72, 115-204, 318-332).
module CallTokens {
  import opened Wrappers
  import opened Text
  import opened ShapeMatcher

  // ---------------------------------------------------------------- declared options

  // A name of two letters or more after two dashes, or of one letter after one dash.
  predicate ExactName(key: string) {
    || (|key| == 1 && key != "-")
    || (|key| >= 2 && '=' !in key)
  }

  // What one unit of a call to an operation with declared options may be, on the lists of
  // the operation: a value option takes a value, and a flag may be given one inline.
  lemma DeclaredUnits(op: Operation, u: Unit)
    ensures UnitOk(op, u) <==>
              var valued := op.requiredOptions + (if op.valueOptions.Some? then op.valueOptions.value else []);
              var flags := if op.flagOptions.Some? then op.flagOptions.value else [];
              match u
              case Positional(token) => token == "" || token[0] != '-' || token == "-"
              case Bundle(letters) => |letters| >= 2 && letters[0] != '-' && forall c :: c in letters ==> [c] in flags
              case Inline(key, _) => |key| >= 2 && '=' !in key && (key in valued || key in flags)
              case Spaced(key, value) => ExactName(key) && key in valued && value != "" && value[0] != '-'
              case Flag(key) => ExactName(key) && key !in valued && key in flags
  {
  }

  // Declaring either list, even an empty one, makes the declared rule apply.
  lemma DeclaringIsEnough(op: Operation, tokens: seq<string>)
    ensures op.valueOptions == None && op.flagOptions == None ==>
              ParseOptionArgs(op, tokens) == Some(ParseLegacy(op, tokens, Parsed(map[], [])))
    ensures op.valueOptions != None || op.flagOptions != None ==>
              (ParseOptionArgs(op, tokens).Some? <==> Units(op, tokens).Some?)
  {
    hide ParseLegacy, ParseDeclared;
    if op.valueOptions != None || op.flagOptions != None { DeclaredParse(op, tokens); }
  }

  lemma DeclaredParse(op: Operation, tokens: seq<string>)
    ensures ParseDeclared(op, tokens).Some? <==> Units(op, tokens).Some?
  {
    hide Units;
  }

  // ---------------------------------------------------------------- the older option rule

  // Whether the next token is taken as a value.
  predicate GivesValue(rest: seq<string>) {
    |rest| > 0 && rest[0] != "" && rest[0][0] != '-'
  }

  // An option that takes the next token if it can, and is set to "true" otherwise.
  function OptionThenRest(op: Operation, key: string, takes: bool, rest: seq<string>, parsed: Parsed): Parsed {
    if takes && GivesValue(rest)
    then ParseLegacy(op, rest[1..], parsed.(options := parsed.options[key := rest[0]]))
    else ParseLegacy(op, rest, parsed.(options := parsed.options[key := "true"]))
  }

  lemma TokenFirst(token: string, rest: seq<string>)
    ensures ([token] + rest)[0] == token && ([token] + rest)[1..] == rest
  {
  }

  // A token without a dash, a lone dash and a negative number are positionals.
  lemma OlderPositional(op: Operation, token: string, rest: seq<string>, parsed: Parsed)
    requires token == "" || token[0] != '-' || token == "-" || '0' <= token[1] <= '9'
    ensures ParseLegacy(op, [token] + rest, parsed)
            == ParseLegacy(op, rest, parsed.(positionals := parsed.positionals + [token]))
  {
    TokenFirst(token, rest);
  }

  // `--key=value` binds the value, whatever follows.
  lemma OlderInline(op: Operation, key: string, value: string, rest: seq<string>, parsed: Parsed)
    requires '=' !in key
    ensures ParseLegacy(op, ["--" + key + "=" + value] + rest, parsed)
            == ParseLegacy(op, rest, parsed.(options := parsed.options[key := value]))
  {
    var name := key + "=" + value;
    var token := "--" + key + "=" + value;
    TokenFirst(token, rest);
    assert token[2..] == name && name[|key|] == '=' && name[..|key|] == key && name[|key| + 1..] == value;
    IndexOfFirst(name, '=', |key|);
    assert OptionName(token) == Some(name) && SplitInline(name) == Opt(key, Some(value));
    hide IndexOf;
  }

  // `--key` takes the next token if it can stand as a value.
  lemma OlderDouble(op: Operation, key: string, rest: seq<string>, parsed: Parsed)
    requires '=' !in key
    ensures ParseLegacy(op, ["--" + key] + rest, parsed) == OptionThenRest(op, key, true, rest, parsed)
  {
    var token := "--" + key;
    TokenFirst(token, rest);
    assert token[2..] == key;
    assert IndexOf(key, '=') == |key|;
    assert OptionName(token) == Some(key) && SplitInline(key) == Opt(key, None);
    hide IndexOf;
  }

  // `-key` does so too, but a single letter only if it is required; nothing is inline here.
  lemma OlderSingle(op: Operation, key: string, rest: seq<string>, parsed: Parsed)
    requires key != "" && key[0] != '-' && !('0' <= key[0] <= '9')
    ensures ParseLegacy(op, ["-" + key] + rest, parsed)
            == OptionThenRest(op, key, |key| > 1 || key in op.requiredOptions, rest, parsed)
  {
    var token := "-" + key;
    TokenFirst(token, rest);
    assert token[1..] == key && token[1] == key[0];
    assert OptionName(token) == Some(key);
  }

  // ---------------------------------------------------------------- global options

  // A global option is bound to its own name unless a name is given after the first `=`; a
  // second `=` ends that name.
  lemma GlobalEntries(name: string, binding: string, more: string)
    requires '=' !in name && '=' !in binding
    ensures GlobalEntry(name) == (name, name)
    ensures GlobalEntry(name + "=" + binding) == (name, if binding == "" then name else binding)
    ensures GlobalEntry(name + "=" + binding + "=" + more) == (name, if binding == "" then name else binding)
  {
    SplitWithoutSeparator(name, '=');
    SplitWithoutSeparator(binding, '=');
    SplitAtSeparator(name, '=', binding);
    SplitAtSeparator(name, '=', binding + "=" + more);
    SplitAtSeparator(binding, '=', more);
    assert name + "=" + binding + "=" + more == name + "=" + (binding + "=" + more);
  }

  // ---------------------------------------------------------------- combined flags

  predicate LatinLetters(s: string) {
    forall i :: 0 <= i < |s| ==> ('a' <= s[i] <= 'z') || ('A' <= s[i] <= 'Z')
  }

  // A dash with two letters or more becomes one token for each letter; every other token
  // stays.
  lemma ExpandedToken(token: string)
    ensures if |token| >= 3 && token[0] == '-' && LatinLetters(token[1..])
            then && |Expand(token)| == |token| - 1
                 && forall i :: 0 <= i < |token| - 1 ==> Expand(token)[i] == ['-', token[i + 1]]
            else Expand(token) == [token]
  {
    if |token| >= 3 && token[0] == '-' {
      var letters := token[1..];
      assert (forall c :: c in letters ==> Letter(c)) <==> LatinLetters(letters) by {
        if forall c :: c in letters ==> Letter(c) {
          forall i | 0 <= i < |letters| ensures Letter(letters[i]) { assert letters[i] in letters; }
        }
      }
      if LatinLetters(letters) { assert token[1] == letters[0]; }
      assert forall i :: 0 <= i < |letters| ==> "-" + [letters[i]] == ['-', letters[i]];
    }
  }
}
