/**
 * src/tsconfig-paths.ts: `registerTsconfigPaths` loads the tsconfig path
 * aliases once, replaces Node's `Module._resolveFilename` with a wrapper
 * that rewrites aliased requests, and returns a function that puts the
 * saved resolver back.
 *
 * `loadConfig`, `createMatchPath`, the list `builtinModules` and Node's own
 * resolver are parameters; the working directory is the string `cwd`.
 */
module TsconfigPaths {
  import opened Wrappers

  /** A JavaScript value passed to a resolver: a string or any other value. */
  datatype Value = Str(s: string) | Other(id: nat)

  /** What a resolver call produces: a file name, or Node's not-found error. */
  datatype Resolution = Resolved(filename: string) | ModuleNotFound(message: string)

  /** The fields of a successful `loadConfig` result that reach `createMatchPath`. */
  datatype PathsConfig = PathsConfig(
    absoluteBaseUrl: string,
    paths: map<string, seq<string>>,
    mainFields: seq<string>,
    addMatchAll: bool)

  datatype ConfigLoaderResult = Failed | Loaded(config: PathsConfig)

  /**
   * The value held in `Module._resolveFilename`: Node's own resolver, or
   * the wrapper installed here around the resolver it replaced, holding the
   * `matchPath` built at install time and the builtin module names.
   */
  datatype Resolver =
    | Native(resolve: (Value, seq<Value>) -> Resolution)
    | AliasWrapper(original: Resolver, matchPath: string -> Option<string>, builtins: seq<string>)

  /** The resolver calls Node makes: the first argument is the request string. */
  predicate WellFormedCall(args: seq<Value>)
  {
    args != [] && args[0].Str?
  }

  /** `matchPath(request)` gives a truthy path: present and not the empty string. */
  predicate AliasHit(request: string, matchPath: string -> Option<string>, builtins: seq<string>)
  {
    request !in builtins && matchPath(request).Some? && matchPath(request).value != ""
  }

  /**
   * The arguments the wrapper passes on: on an alias hit the found path
   * replaces argument 0 and the rest follow in place; otherwise
   * `arguments` itself.
   */
  function ForwardedArgs(args: seq<Value>, matchPath: string -> Option<string>, builtins: seq<string>): (fwd: seq<Value>)
    requires WellFormedCall(args)
    ensures WellFormedCall(fwd) && |fwd| == |args|
    ensures forall i :: 1 <= i < |args| ==> fwd[i] == args[i]
    ensures AliasHit(args[0].s, matchPath, builtins) ==> fwd[0] == Str(matchPath(args[0].s).value)
    ensures !AliasHit(args[0].s, matchPath, builtins) ==> fwd == args
  {
    var request := args[0].s;
    if request !in builtins then
      var found := matchPath(request);
      if found.Some? && found.value != "" then [Str(found.value)] + args[1..]
      else args
    else args
  }

  /** Calling the resolver with `this` bound to `thisArg`; wrappers forward `this` unchanged. */
  function Resolve(r: Resolver, thisArg: Value, args: seq<Value>): Resolution
    requires WellFormedCall(args)
  {
    match r
    case Native(resolve) => resolve(thisArg, args)
    case AliasWrapper(original, matchPath, builtins) =>
      Resolve(original, thisArg, ForwardedArgs(args, matchPath, builtins))
  }

  /** A builtin request bypasses alias matching: the saved resolver sees the same call. */
  lemma BuiltinBypassesAliases(original: Resolver, matchPath: string -> Option<string>, builtins: seq<string>, thisArg: Value, args: seq<Value>)
    requires WellFormedCall(args) && args[0].s in builtins
    ensures Resolve(AliasWrapper(original, matchPath, builtins), thisArg, args) == Resolve(original, thisArg, args)
  {
  }

  /** An alias hit calls the saved resolver with the found path in place of the request, other arguments kept. */
  lemma HitReplacesRequest(original: Resolver, matchPath: string -> Option<string>, builtins: seq<string>, thisArg: Value, args: seq<Value>)
    requires WellFormedCall(args) && AliasHit(args[0].s, matchPath, builtins)
    ensures Resolve(AliasWrapper(original, matchPath, builtins), thisArg, args)
         == Resolve(original, thisArg, [Str(matchPath(args[0].s).value)] + args[1..])
  {
    var fwd := ForwardedArgs(args, matchPath, builtins);
    assert fwd == [Str(matchPath(args[0].s).value)] + args[1..];
  }

  /** A miss (nothing found, or the empty string) passes the call through unchanged. */
  lemma MissPassesThrough(original: Resolver, matchPath: string -> Option<string>, builtins: seq<string>, thisArg: Value, args: seq<Value>)
    requires WellFormedCall(args) && !AliasHit(args[0].s, matchPath, builtins)
    ensures Resolve(AliasWrapper(original, matchPath, builtins), thisArg, args) == Resolve(original, thisArg, args)
  {
  }

  /** A wrapper whose `matchPath` never finds anything behaves exactly like the resolver it wraps. */
  lemma NoAliasesNoChange(original: Resolver, matchPath: string -> Option<string>, builtins: seq<string>, thisArg: Value, args: seq<Value>)
    requires WellFormedCall(args)
    requires forall request :: matchPath(request).None?
    ensures Resolve(AliasWrapper(original, matchPath, builtins), thisArg, args) == Resolve(original, thisArg, args)
  {
    MissPassesThrough(original, matchPath, builtins, thisArg, args);
  }

  /** Node's message for a module it cannot find. */
  function NotFoundMessage(request: string): string
  {
    "Cannot find module '" + request + "'"
  }

  /** A native resolver that, when it fails, names the request it was given. */
  ghost predicate NamesItsRequest(resolve: (Value, seq<Value>) -> Resolution)
  {
    forall thisArg: Value, args: seq<Value> :: WellFormedCall(args) && resolve(thisArg, args).ModuleNotFound? ==>
      resolve(thisArg, args).message == NotFoundMessage(args[0].s)
  }

  /** On a miss the not-found error names the specifier the program asked for, not an alias target. */
  lemma MissReportsOriginalRequest(resolve: (Value, seq<Value>) -> Resolution, matchPath: string -> Option<string>, builtins: seq<string>, thisArg: Value, args: seq<Value>)
    requires NamesItsRequest(resolve)
    requires WellFormedCall(args) && !AliasHit(args[0].s, matchPath, builtins)
    ensures var r := Resolve(AliasWrapper(Native(resolve), matchPath, builtins), thisArg, args);
      r.ModuleNotFound? ==> r.message == NotFoundMessage(args[0].s)
  {
    MissPassesThrough(Native(resolve), matchPath, builtins, thisArg, args);
  }

  /** The request `@apis/foos` with no alias target yields `Cannot find module '@apis/foos'`. */
  lemma UnmatchedAliasNotFound(resolve: (Value, seq<Value>) -> Resolution, matchPath: string -> Option<string>, builtins: seq<string>, thisArg: Value, rest: seq<Value>)
    requires NamesItsRequest(resolve)
    requires "@apis/foos" !in builtins && matchPath("@apis/foos").None?
    ensures var r := Resolve(AliasWrapper(Native(resolve), matchPath, builtins), thisArg, [Str("@apis/foos")] + rest);
      r.ModuleNotFound? ==> r.message == "Cannot find module '@apis/foos'"
  {
    MissReportsOriginalRequest(resolve, matchPath, builtins, thisArg, [Str("@apis/foos")] + rest);
  }

  /** The function `registerTsconfigPaths` returns. */
  datatype Unregister = NoOp | RestoreResolver(saved: Resolver)

  /** The part of Node's `module` object that the patch touches. */
  class ModuleRuntime {
    /** `Module._resolveFilename`. */
    var resolveFilename: Resolver

    constructor(initial: Resolver)
      ensures resolveFilename == initial
    {
      resolveFilename := initial;
    }

    /**
     * `registerTsconfigPaths()`: a failed config load changes nothing and
     * returns the no-op; otherwise `matchPath` is built once from the loaded
     * config, the current resolver is saved, the wrapper is installed, and
     * the returned function restores the saved resolver.
     */
    method RegisterTsconfigPaths(
      cwd: string,
      loadConfig: string -> ConfigLoaderResult,
      createMatchPath: PathsConfig -> (string -> Option<string>),
      builtins: seq<string>)
      returns (unregister: Unregister)
      modifies this
      ensures loadConfig(cwd).Failed? ==> unregister == NoOp && resolveFilename == old(resolveFilename)
      ensures loadConfig(cwd).Loaded? ==>
        && resolveFilename == AliasWrapper(old(resolveFilename), createMatchPath(loadConfig(cwd).config), builtins)
        && unregister == RestoreResolver(old(resolveFilename))
    {
      var configLoaderResult := loadConfig(cwd);
      if configLoaderResult.Failed? {
        return NoOp;
      }
      var matchPath := createMatchPath(configLoaderResult.config);
      var originalResolveFilename := resolveFilename;
      resolveFilename := AliasWrapper(originalResolveFilename, matchPath, builtins);
      unregister := RestoreResolver(originalResolveFilename);
    }

    /** Calling the function `registerTsconfigPaths` returned. */
    method CallUnregister(unregister: Unregister)
      modifies this
      ensures unregister.NoOp? ==> resolveFilename == old(resolveFilename)
      ensures unregister.RestoreResolver? ==> resolveFilename == unregister.saved
    {
      if unregister.RestoreResolver? {
        resolveFilename := unregister.saved;
      }
    }

    /** Registering and then unregistering leaves `_resolveFilename` exactly as it was. */
    method RegisterThenUnregister(
      cwd: string,
      loadConfig: string -> ConfigLoaderResult,
      createMatchPath: PathsConfig -> (string -> Option<string>),
      builtins: seq<string>)
      modifies this
      ensures resolveFilename == old(resolveFilename)
    {
      var unregister := RegisterTsconfigPaths(cwd, loadConfig, createMatchPath, builtins);
      CallUnregister(unregister);
    }

    /**
     * Two registrations undone in reverse order restore the original
     * resolver, and in between the first undo brings back the first
     * wrapper.
     */
    method NestedRegistrations(
      cwd1: string,
      cwd2: string,
      loadConfig: string -> ConfigLoaderResult,
      createMatchPath: PathsConfig -> (string -> Option<string>),
      builtins: seq<string>)
      modifies this
      ensures resolveFilename == old(resolveFilename)
    {
      var first := RegisterTsconfigPaths(cwd1, loadConfig, createMatchPath, builtins);
      var afterFirst := resolveFilename;
      var second := RegisterTsconfigPaths(cwd2, loadConfig, createMatchPath, builtins);
      CallUnregister(second);
      assert resolveFilename == afterFirst;
      CallUnregister(first);
    }
  }
}
