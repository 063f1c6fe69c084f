/**
 * src/options.ts: `getOptions` finds `tsconfig.json` upwards from `cwd` and
 * projects its `compilerOptions` onto `{jsxFactory, jsxFragment, target}`;
 * `getOptionsPath` returns the path that lookup found.
 *
 * The lookup (joycon's upward search, the file read, comment stripping and
 * `JSON.parse`) is the parameter `loadSync`; `Err` stands for an exception
 * it throws, which neither function catches.
 */
module Options {
  import opened Wrappers
  import opened JsonValue

  /** The file names searched for. */
  const ConfigFiles: seq<string> := ["tsconfig.json"]

  /** joycon's `{ path, data }`: both absent when no file is found. */
  datatype LoadSyncResult = LoadSyncResult(path: Option<string>, data: Option<Json>)

  /** The three keys `getOptions` can return. */
  const OptionKeys: set<string> := {"jsxFactory", "jsxFragment", "target"}

  /**
   * The returned object. A key mapped to `None` is present with the value
   * `undefined`, as an object literal with an `undefined` field is.
   */
  type OptionsObject = map<string, Option<Json>>

  /** The lookup found a file and parsed a truthy value: `path && data`. */
  predicate Found(res: LoadSyncResult)
  {
    res.path.Some? && res.path.value != "" && res.data.Some? && Truthy(res.data.value)
  }

  /** `data.compilerOptions?.<key>`. */
  function CompilerOption(data: Json, key: string): Option<Json>
  {
    Get(Get(Some(data), "compilerOptions"), key)
  }

  /**
   * `getOptions(cwd)`: the lookup's exception propagates; a found truthy
   * config gives all three keys, `jsxFragment` read from
   * `jsxFragmentFactory`; anything else gives `{}`.
   */
  function GetOptions(cwd: string, loadSync: (seq<string>, string) -> Result<LoadSyncResult, string>): (r: Result<OptionsObject, string>)
    ensures r.Err? <==> loadSync(ConfigFiles, cwd).Err?
    ensures r.Err? ==> r.error == loadSync(ConfigFiles, cwd).error
    ensures r.Ok? ==> r.value.Keys == {} || r.value.Keys == OptionKeys
    ensures r.Ok? ==> (r.value.Keys == OptionKeys <==> Found(loadSync(ConfigFiles, cwd).value))
    ensures r.Ok? && r.value.Keys == OptionKeys ==>
      var data := loadSync(ConfigFiles, cwd).value.data.value;
      && r.value["jsxFactory"] == CompilerOption(data, "jsxFactory")
      && r.value["jsxFragment"] == CompilerOption(data, "jsxFragmentFactory")
      && r.value["target"] == CompilerOption(data, "target")
  {
    match loadSync(ConfigFiles, cwd)
    case Err(e) => Err(e)
    case Ok(res) =>
      if Found(res) then
        var data := res.data.value;
        Ok(map[
          "jsxFactory" := CompilerOption(data, "jsxFactory"),
          "jsxFragment" := CompilerOption(data, "jsxFragmentFactory"),
          "target" := CompilerOption(data, "target")])
      else Ok(map[])
  }

  /** `getOptionsPath(cwd)`: the same lookup, returning only its path. */
  function GetOptionsPath(cwd: string, loadSync: (seq<string>, string) -> Result<LoadSyncResult, string>): (r: Result<Option<string>, string>)
    ensures r.Err? <==> loadSync(ConfigFiles, cwd).Err?
    ensures r.Err? ==> r.error == loadSync(ConfigFiles, cwd).error
    ensures r.Ok? ==> r.value == loadSync(ConfigFiles, cwd).value.path
  {
    match loadSync(ConfigFiles, cwd)
    case Err(e) => Err(e)
    case Ok(res) => Ok(res.path)
  }

  /** `getOptions` is non-empty only when `getOptionsPath` gives a non-empty path. */
  lemma OptionsOnlyWithPath(cwd: string, loadSync: (seq<string>, string) -> Result<LoadSyncResult, string>)
    requires GetOptions(cwd, loadSync).Ok? && GetOptions(cwd, loadSync).value != map[]
    ensures GetOptionsPath(cwd, loadSync).Ok?
    ensures GetOptionsPath(cwd, loadSync).value.Some? && GetOptionsPath(cwd, loadSync).value.value != ""
  {
    assert "target" in GetOptions(cwd, loadSync).value;
  }

  /** With no file, or with falsy data, the result is `{}`. */
  lemma NotFoundGivesEmpty(cwd: string, loadSync: (seq<string>, string) -> Result<LoadSyncResult, string>)
    requires loadSync(ConfigFiles, cwd).Ok?
    requires var res := loadSync(ConfigFiles, cwd).value;
      res.path.None? || res.data.None? || !Truthy(res.data.value)
    ensures GetOptions(cwd, loadSync) == Ok(map[])
  {
  }

  /** A config object without `compilerOptions` gives all three keys, each `undefined`, and no error. */
  lemma NoCompilerOptionsAllUndefined(cwd: string, loadSync: (seq<string>, string) -> Result<LoadSyncResult, string>, path: string, fields: map<string, Json>)
    requires loadSync(ConfigFiles, cwd) == Ok(LoadSyncResult(Some(path), Some(Object(fields))))
    requires path != "" && "compilerOptions" !in fields
    ensures GetOptions(cwd, loadSync) == Ok(map["jsxFactory" := None, "jsxFragment" := None, "target" := None])
  {
  }

  /** A `jsxFactory` set in `compilerOptions` is returned; `jsxFragment` follows `jsxFragmentFactory` alone. */
  lemma FactoriesProjected(cwd: string, loadSync: (seq<string>, string) -> Result<LoadSyncResult, string>, path: string, compilerOptions: map<string, Json>, fields: map<string, Json>)
    requires loadSync(ConfigFiles, cwd) == Ok(LoadSyncResult(Some(path), Some(Object(fields))))
    requires path != "" && "compilerOptions" in fields && fields["compilerOptions"] == Object(compilerOptions)
    ensures var r := GetOptions(cwd, loadSync).value;
      && r["jsxFactory"] == (if "jsxFactory" in compilerOptions then Some(compilerOptions["jsxFactory"]) else None)
      && r["jsxFragment"] == (if "jsxFragmentFactory" in compilerOptions then Some(compilerOptions["jsxFragmentFactory"]) else None)
      && r["target"] == (if "target" in compilerOptions then Some(compilerOptions["target"]) else None)
  {
  }
}
