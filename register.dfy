/**
 * register.js: splitting `key=value` argv entries into a dictionary, the
 * `isJson` classification of the `--esbuild-config` value, and the options
 * handed to `register`.
 *
 * `JSON.parse` is the parameter `parse` (None when it throws), and
 * `process.version` is the parameter `version`.
 */
module Register {
  import opened Wrappers
  import opened Text
  import opened JsonValue

  const EsbuildConfigName: string := "--esbuild-config"

  /** An argv entry split at its first `=` into key and value; None without `=`. */
  function SplitEntry(arg: string): (r: Option<(string, string)>)
    ensures r.None? <==> '=' !in arg
    ensures r.Some? ==> r.value.0 + "=" + r.value.1 == arg && '=' !in r.value.0
  {
    var index := IndexOf(arg, '=');
    if index == -1 then None
    else
      assert arg == arg[..index] + [arg[index]] + arg[index + 1..];
      Some((arg[..index], arg[index + 1..]))
  }

  /** The key an entry records, if any. */
  function KeyOf(arg: string): Option<string>
  {
    match SplitEntry(arg)
    case None => None
    case Some((key, _)) => Some(key)
  }

  /** What one iteration of the `forEach` body does to the dictionary. */
  function Step(args: map<string, string>, arg: string): map<string, string>
  {
    match SplitEntry(arg)
    case None => args
    case Some((key, value)) => args[key := value]
  }

  /** The dictionary after processing `argv` left to right. */
  function ParseArgsSpec(argv: seq<string>): map<string, string>
  {
    if argv == [] then map[] else Step(ParseArgsSpec(argv[..|argv| - 1]), argv[|argv| - 1])
  }

  /** `parseArgs`: the loop that writes each entry into `args`. */
  method ParseArgs(argv: seq<string>) returns (args: map<string, string>)
    ensures args == ParseArgsSpec(argv)
  {
    args := map[];
    var i := 0;
    while i < |argv|
      invariant 0 <= i <= |argv|
      invariant args == ParseArgsSpec(argv[..i])
    {
      var arg := argv[i];
      var index := IndexOf(arg, '=');
      if index != -1 {
        var key := arg[..index];
        var value := arg[index + 1..];
        args := args[key := value];
      }
      assert argv[..i + 1][..i] == argv[..i];
      i := i + 1;
    }
    assert argv[..|argv|] == argv;
  }

  /** Splitting inverts joining: any key without `=` and any value (which may hold `=`). */
  lemma SplitEntryOfJoin(key: string, value: string)
    requires '=' !in key
    ensures SplitEntry(key + "=" + value) == Some((key, value))
  {
    var arg := key + "=" + value;
    var index := IndexOf(arg, '=');
    assert arg[|key|] == '=';
    assert arg[..|key|] == key;
    assert arg[..index] == key;
    assert arg[index + 1..] == value;
  }

  /** An entry starting with `=` is recorded under the empty key. */
  lemma LeadingEqualsIsEmptyKey(arg: string)
    requires |arg| > 0 && arg[0] == '='
    ensures SplitEntry(arg) == Some(("", arg[1..]))
  {
    assert arg == "" + "=" + arg[1..];
    SplitEntryOfJoin("", arg[1..]);
  }

  /** An entry without `=` leaves the dictionary as it was. */
  lemma EntryWithoutEqualsAddsNothing(argv: seq<string>, arg: string)
    requires '=' !in arg
    ensures ParseArgsSpec(argv + [arg]) == ParseArgsSpec(argv)
  {
    assert (argv + [arg])[..|argv|] == argv;
  }

  /** Appending an entry with `=` sets its key and changes no other key. */
  lemma EntryOverwritesOnlyItsKey(argv: seq<string>, key: string, value: string)
    requires '=' !in key
    ensures ParseArgsSpec(argv + [key + "=" + value]) == ParseArgsSpec(argv)[key := value]
    ensures forall k :: k != key ==>
      (k in ParseArgsSpec(argv + [key + "=" + value]) <==> k in ParseArgsSpec(argv))
  {
    SplitEntryOfJoin(key, value);
    assert (argv + [key + "=" + value])[..|argv|] == argv;
  }

  /** A step adds the entry's key, if it has one, and no other. */
  lemma StepKeys(args: map<string, string>, arg: string, key: string)
    ensures key in Step(args, arg) <==> key in args || KeyOf(arg) == Some(key)
  {
  }

  /** Some element satisfies `p` exactly when one before the last does, or the last does. */
  lemma ExistsInInit<T>(xs: seq<T>, init: seq<T>, p: T -> bool)
    requires xs != [] && init == xs[..|xs| - 1]
    ensures (exists i :: 0 <= i < |xs| && p(xs[i]))
        <==> ((exists i :: 0 <= i < |init| && p(init[i])) || p(xs[|xs| - 1]))
  {
    if exists i :: 0 <= i < |xs| && p(xs[i]) {
      var i :| 0 <= i < |xs| && p(xs[i]);
      if i < |init| {
        assert init[i] == xs[i];
      }
    }
    if exists i :: 0 <= i < |init| && p(init[i]) {
      var i :| 0 <= i < |init| && p(init[i]);
      assert xs[i] == init[i];
    }
  }

  /** A key is present exactly when some entry records it. */
  lemma {:induction false} ParseArgsKeys(argv: seq<string>, key: string)
    ensures key in ParseArgsSpec(argv) <==> exists i :: 0 <= i < |argv| && KeyOf(argv[i]) == Some(key)
  {
    if argv != [] {
      var init, last := argv[..|argv| - 1], argv[|argv| - 1];
      ParseArgsKeys(init, key);
      StepKeys(ParseArgsSpec(init), last, key);
      ExistsInInit(argv, init, (a: string) => KeyOf(a) == Some(key));
    }
  }

  /** The value of a key is the value of the last entry that records it. */
  lemma {:induction false} ParseArgsLastWins(argv: seq<string>, i: nat, key: string, value: string)
    requires i < |argv| && SplitEntry(argv[i]) == Some((key, value))
    requires forall j :: i < j < |argv| ==> KeyOf(argv[j]) != Some(key)
    ensures key in ParseArgsSpec(argv) && ParseArgsSpec(argv)[key] == value
  {
    var init := argv[..|argv| - 1];
    if i < |argv| - 1 {
      ParseArgsLastWins(init, i, key, value);
      assert KeyOf(argv[|argv| - 1]) != Some(key);
    }
  }

  /**
   * `isJson`: the parsed value when it is an object (not an array, not null).
   * None stands for `false`: a parse failure or any other value.
   */
  function IsJson(str: string, parse: string -> Option<Json>): (r: Option<map<string, Json>>)
    ensures r.Some? <==> parse(str).Some? && parse(str).value.Object?
    ensures r.Some? ==> parse(str).value == Object(r.value)
  {
    match parse(str)
    case None => None
    case Some(Object(fields)) => Some(fields)
    case Some(_) => None
  }

  /** The accepted config: `isJson` of the `--esbuild-config` value, when there is one. */
  function ConfigFromArgs(args: map<string, string>, parse: string -> Option<Json>): (r: Option<map<string, Json>>)
    ensures r.Some? <==> EsbuildConfigName in args && parse(args[EsbuildConfigName]).Some? && parse(args[EsbuildConfigName]).value.Object?
    ensures r.Some? ==> parse(args[EsbuildConfigName]).value == Object(r.value)
  {
    if EsbuildConfigName in args then IsJson(args[EsbuildConfigName], parse) else None
  }

  /** `node${process.version.slice(1)}`: "node" and the version without its first character. */
  function DefaultTarget(version: string): string
  {
    "node" + (if |version| == 0 then "" else version[1..])
  }

  /** `process.version` is `v` and the version number, so the target is `node` and that number. */
  lemma DefaultTargetOfVersion(number: string)
    ensures DefaultTarget("v" + number) == "node" + number
  {
    assert ("v" + number)[1..] == number;
  }

  /** The object literal at lines 43-46: the default target, then the config spread over it. */
  function MergeOptions(version: string, config: Option<map<string, Json>>): (opts: map<string, Json>)
    ensures config.None? ==> opts == map["target" := String(DefaultTarget(version))]
    ensures config.Some? ==> opts.Keys == config.value.Keys + {"target"}
    ensures config.Some? ==> forall k :: k in config.value ==> opts[k] == config.value[k]
    ensures config.Some? && "target" !in config.value ==> opts["target"] == String(DefaultTarget(version))
  {
    map["target" := String(DefaultTarget(version))] + (if config.Some? then config.value else map[])
  }

  /** The options register.js passes to `register`, from the argv entries after the script. */
  method RegisterOptions(argv: seq<string>, version: string, parse: string -> Option<Json>)
    returns (opts: map<string, Json>)
    ensures opts == MergeOptions(version, ConfigFromArgs(ParseArgsSpec(argv), parse))
  {
    var args := ParseArgs(argv);
    var config: Option<map<string, Json>> := None;
    if EsbuildConfigName in args {
      config := IsJson(args[EsbuildConfigName], parse);
    }
    opts := map["target" := String(DefaultTarget(version))];
    if config.Some? {
      opts := opts + config.value;
    }
  }

  /** Without any `--esbuild-config=` entry the options are exactly the default target. */
  lemma NoConfigEntryGivesDefaultTarget(argv: seq<string>, version: string, parse: string -> Option<Json>)
    requires forall i :: 0 <= i < |argv| ==> KeyOf(argv[i]) != Some(EsbuildConfigName)
    ensures MergeOptions(version, ConfigFromArgs(ParseArgsSpec(argv), parse))
         == map["target" := String(DefaultTarget(version))]
  {
    ParseArgsKeys(argv, EsbuildConfigName);
  }

  /** The last `--esbuild-config=` entry decides; an object it parses to overrides the target. */
  lemma LastConfigEntryDecides(argv: seq<string>, i: nat, text: string, parse: string -> Option<Json>, version: string)
    requires i < |argv| && argv[i] == EsbuildConfigName + "=" + text
    requires forall j :: i < j < |argv| ==> KeyOf(argv[j]) != Some(EsbuildConfigName)
    requires parse(text).Some? && parse(text).value.Object?
    ensures var opts := MergeOptions(version, ConfigFromArgs(ParseArgsSpec(argv), parse));
      forall k :: k in parse(text).value.fields ==> k in opts && opts[k] == parse(text).value.fields[k]
  {
    SplitEntryOfJoin(EsbuildConfigName, text);
    ParseArgsLastWins(argv, i, EsbuildConfigName, text);
  }
}
