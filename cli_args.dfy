/**
 * parseArgs (src/index.ts:28-50): the command-line tokenizer. Every token
 * after the first two entries of argv is either an option (`--name=value`
 * or a bare `--name`) or a positional argument collected under `_`.
 *
 * The result is one JavaScript record: options and the positional list
 * share it, so an option named `_` can replace the list, and a later
 * positional then fails on `push` with a TypeError.
 */
module CliArgs {
  import opened Wrappers
  import opened Strings
  import opened Seqs

  /** A value in the record: an option's text, `true` for a bare option, or the positional list. */
  datatype ArgValue = Text(s: string) | True | Positional(tokens: seq<string>)

  /** The TypeError of `args._.push(token)` when `_` holds a non-empty string or `true`. */
  datatype ArgsError = PushOnNonArray(token: string)

  type Args = map<string, ArgValue>

  /** `token.startsWith("--")`. */
  predicate IsOption(token: string) {
    "--" <= token
  }

  /** `key.slice(2)` where `[key, value] = token.split("=")`. */
  function OptionName(token: string): string {
    if |Split(token, '=')[0]| >= 2 then Split(token, '=')[0][2..] else ""
  }

  /** `value ?? true` where `[key, value] = token.split("=")`: the text up to the second `=`. */
  function OptionValue(token: string): ArgValue {
    if |Split(token, '=')| >= 2 then Text(Split(token, '=')[1]) else True
  }

  /** `!args._`: no entry, or the empty string (every list and `true` are truthy). */
  predicate NoPositionals(args: Args) {
    "_" !in args || args["_"] == Text("")
  }

  /** One iteration of the loop of lines 30-41. */
  function Step(args: Args, token: string): Result<Args, ArgsError> {
    if IsOption(token) then Ok(args[OptionName(token) := OptionValue(token)])
    else if NoPositionals(args) then Ok(args["_" := Positional([token])])
    else if args["_"].Positional? then Ok(args["_" := Positional(args["_"].tokens + [token])])
    else Err(PushOnNonArray(token))
  }

  /** The loop over the tokens, in order; the first error ends it. */
  function ParseTokens(tokens: seq<string>): Result<Args, ArgsError> {
    if tokens == [] then Ok(map[])
    else if ParseTokens(tokens[..|tokens| - 1]).Err? then ParseTokens(tokens[..|tokens| - 1])
    else Step(ParseTokens(tokens[..|tokens| - 1]).value, tokens[|tokens| - 1])
  }

  /** The tokens parseArgs reads: argv without the runtime and script entries. */
  function UserTokens(argv: seq<string>): seq<string> {
    if |argv| <= 2 then [] else argv[2..]
  }

  /** `parseArgs(argv)`, imperatively. */
  method ParseArgs(argv: seq<string>) returns (r: Result<Args, ArgsError>)
    ensures r == ParseTokens(UserTokens(argv))
  {
    ghost var tokens := UserTokens(argv);
    var args: Args := map[];
    var i := 2;
    while i < |argv|
      invariant 2 <= i && (i <= |argv| || i == 2)
      invariant i - 2 <= |tokens|
      invariant ParseTokens(tokens[..i - 2]) == Ok(args)
    {
      assert tokens == argv[2..] && argv[i] == tokens[i - 2];
      TakeOneMore(tokens, i - 2);
      DropLastOfAppend(tokens[..i - 2], [tokens[i - 2]]);
      var next := ApplyToken(args, argv[i]);
      if next.Err? {
        ErrorPersists(tokens, i - 1);
        return next;
      }
      args := next.value;
      i := i + 1;
    }
    assert tokens[..i - 2] == tokens;
    return Ok(args);
  }

  /**
   * The body of the loop of lines 30-41: one token read into the record.
   * `Step` is its specification, and the fold `ParseTokens` of `Step` is
   * what the whole loop is proved against.
   */
  method ApplyToken(args: Args, token: string) returns (r: Result<Args, ArgsError>)
    ensures r == Step(args, token)
  {
    if "--" <= token {
      var parts := Split(token, '=');
      var key := parts[0];
      var value := if |parts| >= 2 then Text(parts[1]) else True;
      return Ok(args[(if |key| >= 2 then key[2..] else "") := value]);
    } else if "_" !in args || args["_"] == Text("") {
      return Ok(args["_" := Positional([token])]);
    } else if args["_"].Positional? {
      return Ok(args["_" := Positional(args["_"].tokens + [token])]);
    } else {
      return Err(PushOnNonArray(token));
    }
  }

  /** A thrown error ends the loop: the later tokens change nothing. */
  lemma {:induction false} ErrorPersists(tokens: seq<string>, j: nat)
    requires j <= |tokens|
    requires ParseTokens(tokens[..j]).Err?
    ensures ParseTokens(tokens) == ParseTokens(tokens[..j])
    decreases |tokens| - j
  {
    if j < |tokens| {
      assert tokens[..j + 1][..j] == tokens[..j];
      ErrorPersists(tokens, j + 1);
    } else {
      assert tokens[..j] == tokens;
    }
  }

  // ---------------------------------------------------------------------
  // Options
  // ---------------------------------------------------------------------

  /**
   * `--name=value` yields `name` and `value`, whatever follows a second
   * `=`; the name and the value are the text between the `=` signs.
   */
  lemma OptionWithValue(name: string, value: string, rest: string)
    requires '=' !in name && '=' !in value
    requires rest == [] || rest[0] == '='
    ensures IsOption("--" + name + "=" + value + rest)
    ensures OptionName("--" + name + "=" + value + rest) == name
    ensures OptionValue("--" + name + "=" + value + rest) == Text(value)
  {
    var key := "--" + name;
    assert '=' !in key by {
      assert forall i :: 0 <= i < |key| ==> key[i] == (if i < 2 then '-' else name[i - 2]);
    }
    assert "--" + name + "=" + value + rest == key + ['='] + (value + rest);
    SplitCons(key, value + rest, '=');
    if rest == [] {
      assert value + rest == value;
      SplitSingle(value, '=');
    } else {
      assert value + rest == value + ['='] + rest[1..];
      SplitCons(value, rest[1..], '=');
    }
    assert key[2..] == name;
  }

  /** A bare `--name` is the flag `name` set to `true`. */
  lemma BareOption(name: string)
    requires '=' !in name
    ensures IsOption("--" + name)
    ensures OptionName("--" + name) == name
    ensures OptionValue("--" + name) == True
  {
    var key := "--" + name;
    assert '=' !in key by {
      assert forall i :: 0 <= i < |key| ==> key[i] == (if i < 2 then '-' else name[i - 2]);
    }
    SplitSingle(key, '=');
    assert key[2..] == name;
  }

  // ---------------------------------------------------------------------
  // What the record holds
  // ---------------------------------------------------------------------

  /** The non-option tokens, in order. */
  function Positionals(tokens: seq<string>): seq<string> {
    if tokens == [] then []
    else Positionals(tokens[..|tokens| - 1]) + (if IsOption(tokens[|tokens| - 1]) then [] else [tokens[|tokens| - 1]])
  }

  /** The value the last option named `name` gives, if any. */
  function LastOption(tokens: seq<string>, name: string): Option<ArgValue> {
    if tokens == [] then None
    else if IsOption(tokens[|tokens| - 1]) && OptionName(tokens[|tokens| - 1]) == name then
      Some(OptionValue(tokens[|tokens| - 1]))
    else LastOption(tokens[..|tokens| - 1], name)
  }

  /** An option token that writes the `_` entry. */
  predicate NamesPositionals(token: string) {
    IsOption(token) && OptionName(token) == "_"
  }

  function Get(args: Args, name: string): Option<ArgValue> {
    if name in args then Some(args[name]) else None
  }

  /**
   * Without an option named `_`, parsing never fails and `_` holds the
   * positional tokens in their order (and is absent when there are none).
   */
  lemma {:induction false} PositionalsInOrder(tokens: seq<string>)
    requires forall i :: 0 <= i < |tokens| ==> !NamesPositionals(tokens[i])
    ensures ParseTokens(tokens).Ok?
    ensures Get(ParseTokens(tokens).value, "_") ==
              if Positionals(tokens) == [] then None else Some(Positional(Positionals(tokens)))
  {
    if tokens != [] {
      var init, last := tokens[..|tokens| - 1], tokens[|tokens| - 1];
      assert forall i :: 0 <= i < |init| ==> init[i] == tokens[i];
      PositionalsInOrder(init);
      assert !NamesPositionals(last);
      var a := ParseTokens(init).value;
      assert ParseTokens(tokens) == Step(a, last);
      if IsOption(last) {
        assert Positionals(tokens) == Positionals(init);
      } else {
        assert Positionals(tokens) == Positionals(init) + [last];
        if Positionals(init) == [] {
          assert Positionals(tokens) == [last];
          assert Get(ParseTokens(tokens).value, "_") == Some(Positional([last]));
        } else {
          assert a["_"] == Positional(Positionals(init));
        }
      }
    }
  }

  /** Every other name holds the value of the last option of that name, and only such names are present. */
  lemma {:induction false} LastOptionWins(tokens: seq<string>, name: string)
    requires name != "_"
    requires ParseTokens(tokens).Ok?
    ensures Get(ParseTokens(tokens).value, name) == LastOption(tokens, name)
  {
    if tokens != [] {
      LastOptionWins(tokens[..|tokens| - 1], name);
    }
  }

  /** `-h` is not an option: it lands among the positional arguments. */
  lemma ShortHelpIsPositional()
    ensures ParseTokens(["-h"]) == Ok(map["_" := Positional(["-h"])])
  {
    assert ["-h"][..0] == [];
    assert "--"[1] != "-h"[1];
  }

  // ---------------------------------------------------------------------
  // An option named `_`
  // ---------------------------------------------------------------------

  /** `_` holds a truthy value that is not a list: `true` or a non-empty string. */
  predicate ScalarPositionals(args: Args) {
    "_" in args && (args["_"] == True || (args["_"].Text? && args["_"].s != ""))
  }

  /**
   * Once `_` holds `true` or a non-empty string, the next positional token
   * passes the `!args._` test and throws on `push`.
   */
  lemma PositionalAfterScalarThrows(tokens: seq<string>, token: string)
    requires ParseTokens(tokens).Ok? && ScalarPositionals(ParseTokens(tokens).value)
    requires !IsOption(token)
    ensures ParseTokens(tokens + [token]) == Err(PushOnNonArray(token))
  {
    DropLastOfAppend(tokens, [token]);
  }

  /** `--_=value` with a non-empty value, then a positional token: a TypeError. */
  lemma UnderscoreOptionBreaksPositionals(value: string, token: string)
    requires value != "" && '=' !in value && !IsOption(token)
    ensures ParseTokens(["--_=" + value, token]) == Err(PushOnNonArray(token))
  {
    OptionWithValue("_", value, "");
    assert "--" + "_" + "=" + value + "" == "--_=" + value;
    var first := ["--_=" + value];
    assert first[..0] == [];
    assert ParseTokens(first) == Ok(map["_" := Text(value)]);
    PositionalAfterScalarThrows(first, token);
    assert first + [token] == ["--_=" + value, token];
  }

  /** A bare `--_`, then a positional token: `_` is `true`, and `push` throws. */
  lemma BareUnderscoreOptionBreaksPositionals(token: string)
    requires !IsOption(token)
    ensures ParseTokens(["--_", token]) == Err(PushOnNonArray(token))
  {
    BareOption("_");
    assert "--" + "_" == "--_";
    var first := ["--_"];
    assert first[..0] == [];
    assert ParseTokens(first) == Ok(map["_" := True]);
    PositionalAfterScalarThrows(first, token);
    assert first + [token] == ["--_", token];
  }

  /**
   * `--_=` sets `_` to the empty string, which is falsy: the next positional
   * token starts a fresh list instead of throwing.
   */
  lemma EmptyUnderscoreOptionIsReplaced(token: string)
    requires !IsOption(token)
    ensures ParseTokens(["--_=", token]) == Ok(map["_" := Positional([token])])
  {
    OptionWithValue("_", "", "");
    assert "--" + "_" + "=" + "" + "" == "--_=";
    var first := ["--_="];
    assert first[..0] == [];
    assert ParseTokens(first) == Ok(map["_" := Text("")]);
    var tokens := ["--_=", token];
    assert tokens[..1] == first;
    assert NoPositionals(map["_" := Text("")]);
    assert map["_" := Text("")]["_" := Positional([token])] == map["_" := Positional([token])];
  }
}
