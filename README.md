# esbuild-register, modelled in Dafny

esbuild-register is a Node require-hook. Files are compiled with esbuild as
they are loaded. This project models the decision and string logic at its
core and proves what that logic promises:

- **register.js.** `parseArgs` splits `key=value` argv entries into a
  dictionary. `isJson` accepts only a JSON object as the `--esbuild-config`
  value. The options passed to `register` are a default `target` with that
  config spread over it.
- **src/utils.ts.** `[major, minor]` is parsed from `process.versions.node`.
  On old runtimes, `removeNodePrefix` applies a global regex replace that
  rewrites `(require("node:NAME"))` to `(require("NAME"))`.
- **src/plugins.ts.** The `inject-file-scope` esbuild plugin does three things:
  - it merges the `define` map;
  - it filters files by extension and prefixes each loaded file with three
    variable declarations;
  - it picks the esbuild loader from the extension.
- **src/tsconfig-paths.ts.** The wrapper installed over
  `Module._resolveFilename` substitutes tsconfig path aliases.
  Unregistering restores the saved resolver.
- **src/loader.ts.** The ESM `load` hook forces `.ts`, `.tsx`, `.mts` and
  `.cts` URLs to format `commonjs`.
- **src/options.ts.** `getOptions` projects `tsconfig.json` onto
  `{jsxFactory, jsxFragment, target}`. `getOptionsPath` returns the path of
  that file.

Modules:

- `wrappers.dfy`: `Option` and `Result`.
- `text.dfy`: `indexOf`, last-index, suffix and substring tests, and the
  meaning of the anchored extension regexes.
- `json.dfy`: parsed JSON values, truthiness and optional chaining.
- `posix_path.dfy`: Node's POSIX `path.extname`.
- `register.dfy`, `utils.dfy`, `plugins.dfy`, `tsconfig_paths.dfy`,
  `loader.dfy`, `options.dfy`: one module per source file.

Foreign collaborators are parameters:

- `JSON.parse` (with `None` for a throw);
- joycon's `loadSync`;
- tsconfig-paths' `loadConfig` and `createMatchPath`;
- `builtinModules`;
- Node's native resolver;
- `defaultLoad`;
- `JSON.stringify`, `path.dirname` and `pathToFileURL(..).href`;
- `process.argv.slice(2)`, `process.version`, `process.versions.node` and
  `process.cwd()`.

`path.extname` is modelled rather than passed in, because the loader
finding below depends on its behaviour.

Three parts of the core work by changing things step by step, and these are
imperative. `parseArgs` is a `while` loop, proved equal to a left-to-right
fold. The plugin's `setup` and the resolver patch each mutate an object, so
they are classes whose methods update those fields. The rest are functions.

A `tsconfig.json` that `JSON.parse` rejects makes `getOptions` and
`getOptionsPath` throw. Neither the loader at src/options.ts:9-12 nor the two
functions has a `try`. `Options.GetOptions` and `Options.GetOptionsPath`
therefore return the lookup's `Err` unchanged.

## Model

| member | source | states |
|---|---|---|
| Text.IndexOf | register.js:7 | The result is -1 exactly when the character is absent. Otherwise it is a position holding it, with no earlier occurrence. |
| Text.DotAltAtEndIsSuffix | src/plugins.ts:6 | An anchored `/\.(a\|b\|…)$/` test holds exactly when the text ends in `.` followed by one of the alternatives. |
| JsonValue.Get | src/options.ts:21-23 | `v?.key` is defined only on objects that have the key, and then it is that field. |
| Register.SplitEntry | register.js:7-10 | No split exactly when the entry has no `=`. Otherwise the key has no `=`, and key, `=` and value rebuild the entry. |
| Register.SplitEntryOfJoin | register.js:7-10 | Joining any key without `=` to any value (which may itself hold `=`) splits back into that key and value. |
| Register.LeadingEqualsIsEmptyKey | register.js:8-10 | An entry starting with `=` records the rest under the empty key. |
| Register.ParseArgs | register.js:4-15 | The `forEach` loop builds the dictionary of the left-to-right fold `ParseArgsSpec`. |
| Register.EntryWithoutEqualsAddsNothing | register.js:7-8 | An entry without `=` leaves the dictionary unchanged. |
| Register.EntryOverwritesOnlyItsKey | register.js:6-13 | A later `key=value` entry sets that key and leaves every other key as it was. |
| Register.ParseArgsKeys | register.js:4-15 | A key is in the dictionary exactly when some entry records it. |
| Register.ConfigFromArgs | register.js:35-36 | A config is accepted exactly when `--esbuild-config` is a key of the parsed arguments and its value parses to an object. That object is then the config. |
| Register.ParseArgsLastWins | register.js:6-13 | A key's value comes from the last entry that records it. |
| Register.IsJson | register.js:20-31 | Accepted exactly when the parse succeeds and gives an object. So a parse failure, a primitive, an array or `null` is rejected, and an accepted value is the parsed object. |
| Register.DefaultTargetOfVersion | register.js:44 | For `process.version` = `v` followed by a version number, the default target is `node` followed by that number. |
| Register.MergeOptions | register.js:43-46 | With no accepted config the options are exactly `{target}`. Otherwise their keys are the config's plus `target`, each config key keeps its value, and `target` stays the default unless the config sets it. |
| Register.RegisterOptions | register.js:33-46 | The options passed to `register` are the merge of the default target with `isJson` of the parsed `--esbuild-config` entry. |
| Register.NoConfigEntryGivesDefaultTarget | register.js:35-46 | Without an `--esbuild-config=` entry the options are exactly `{target}`. |
| Register.LastConfigEntryDecides | register.js:35-46 | When the last `--esbuild-config=` entry parses to an object, every key of that object appears in the options with its value. |
| Utils.VersionCaptures | src/utils.ts:1 | When there are captures, the text starts with the first, a `.`, and the second, all non-empty digit strings. No digit follows, because `\d+` is greedy. |
| Utils.VersionCapturesIff | src/utils.ts:1 | The captures are `major` and `minor` exactly when the text starts with `major.minor` and no digit follows. |
| Utils.NodeVersion | src/utils.ts:1-3 | The parsed version has exactly two numbers or none. |
| Utils.NodeVersionEmptyIff | src/utils.ts:1-3 | The version list is empty exactly when the text does not start with digits, a `.`, and digits. |
| Utils.DecimalValueOfDecimal | src/utils.ts:3 | `Number` of the decimal digits of `n` is `n`. |
| Utils.VersionCapturesOfParts | src/utils.ts:1 | For `major.minor` followed by a non-digit, the captures are exactly `major` and `minor`. |
| Utils.NodeVersionOfDecimal | src/utils.ts:1-3 | A version string `M.N…` parses to `[M, N]`. |
| Utils.NodeVersionWithoutLeadingDigit | src/utils.ts:1-3 | A version string that does not start with a digit parses to the empty list. |
| Utils.GateAsWritten | src/utils.ts:7 | The gate as written: at least two numbers, the major at most 14, and the minor below 18. Related to the intended gate by `GateAsWrittenImpliesIntended` and `GatesDiffer`. |
| Utils.GateAsWrittenImpliesIntended | src/utils.ts:7 | The written gate fires only on runtimes older than 14.18. |
| Utils.GatesDiffer | src/utils.ts:7 | The written and intended gates differ exactly for a major below 14 with a minor of 18 or more. |
| Utils.GateAsWrittenMissesNode12 | src/utils.ts:7 | `12.22.0` parses to `[12, 22]`. It needs the rewrite, but the written gate skips it. |
| Utils.MatchAt | src/utils.ts:9 | A match ends at least 19 characters after its start and within the text. |
| Utils.MatchAtIsPrefixedCall | src/utils.ts:9 | The pattern matches from `i` to `e` exactly when `i..e` is the following sequence: `(` or U+0008, then `require("node:`, then a non-empty NAME without `"`, then `")`, then `)` or U+0008. |
| Utils.ReplaceFrom | src/utils.ts:8-11 | The output length is the input length minus 5 times the number of matches. |
| Utils.ReplaceAtMatch | src/utils.ts:8-11 | A match is replaced by the same text with `node:` removed, delimiters kept, and the scan resumes after it. |
| Utils.ReplaceCopiesUnmatched | src/utils.ts:8-11 | Text where no match starts is copied unchanged. |
| Utils.CountSkipsUnmatched | src/utils.ts:8-11 | Text where no match starts adds no match to the count. |
| Utils.NoMatchUnchanged | src/utils.ts:8-11 | With no match, the replace returns the text unchanged. |
| Utils.UnchangedIffNoMatch | src/utils.ts:8-11 | The replace returns its input exactly when nothing matched. |
| Utils.NoLiteralNoMatch | src/utils.ts:9 | Text that does not contain `require("node:` has no match. |
| Utils.NoLiteralUnchanged | src/utils.ts:8-11 | Code that does not contain `require("node:` comes out of the replace unchanged. |
| Utils.RemoveNodePrefixWhen | src/utils.ts:7-13 | With the gate off, the output is the input. With it on, the length drops by 5 per match. Text without the literal is unchanged either way. |
| Utils.RemoveNodePrefixAsWritten | src/utils.ts:6-14 | `removeNodePrefix` with the written gate returns the input when that gate is false. When it is true, the length drops by 5 per match. Code without the literal is always unchanged. |
| Utils.RemoveNodePrefix | src/utils.ts:6-14 | `removeNodePrefix` with the corrected gate returns the input on 14.18 and later and on unparsable versions. On older runtimes the length drops by 5 per match. Code without the literal is always unchanged. |
| PosixPath.StripTrailingSlashes | src/plugins.ts:40 | The stripped path is a prefix of the path and does not end in `/`. Everything removed is `/`. |
| PosixPath.LastComponent | src/plugins.ts:40 | The last component contains no `/`. |
| PosixPath.Extname | src/plugins.ts:40 | `path.extname` is empty or starts with `.`. |
| PosixPath.ExtnameShape | src/plugins.ts:40 | A non-empty extension has no further `.`, has no `/`, and ends the last component. |
| PosixPath.ExtnameOfDotted | src/plugins.ts:40 | For `pre.a`, where `a` is a name without `.` or `/`, the extension is `.a`. It is empty when `pre` is empty or ends in `/`. |
| Plugins.JsExtFilter | src/plugins.ts:6 | `JS_EXT_RE.test(path)`: the path ends in `.` followed by `mjs`, `cjs`, `ts`, `js`, `tsx` or `jsx`. Related by `FilterHasMatch` to a witness dot position. |
| Plugins.InferLoader | src/plugins.ts:11-14 | `.mjs` and `.cjs` give `js`. Any other extension gives itself without its first character. |
| Plugins.InferLoaderOfJsExt | src/plugins.ts:6-14 | Every extension the filter accepts maps to `js`, `ts`, `tsx` or `jsx`. `.ts`, `.js`, `.tsx` and `.jsx` map to themselves without the dot. |
| Plugins.LoaderAsWritten | src/plugins.ts:40 | The loader as written, `inferLoader(path.extname(path))`. Related to the corrected loader by `LoaderAsWrittenAgrees` and `DotNamedFileGetsEmptyLoader`. |
| Plugins.MatchedLoaderAt | src/plugins.ts:40 | The filter's `.` is the last `.` of the path. The corrected loader is inferred from that extension and is one of the four. |
| Plugins.MatchedLoaderIsJsLoader | src/plugins.ts:27-40 | Every path the filter accepts gets `js`, `ts`, `tsx` or `jsx` from the corrected loader. |
| Plugins.ExtnameAtMatch | src/plugins.ts:40 | On a filtered path, `path.extname` is the matched extension, or empty when that `.` starts the file name. |
| Plugins.LoaderAsWrittenAgrees | src/plugins.ts:40 | On a filtered path, the written loader equals the corrected one exactly when `path.extname` is non-empty. That fails exactly when the matched `.` starts the file name. |
| Plugins.DotNamedFileGetsEmptyLoader | src/plugins.ts:40 | A file named just `.` plus an accepted extension, in any directory, passes the filter. Its written loader is the empty string and its corrected loader is one of the four. |
| Plugins.MergeDefine | src/plugins.ts:20-25 | The merged keys are the old keys plus the three injected ones. The three are set to the fixed variable names, and every other key keeps its value. A missing `define` spreads as empty. |
| Plugins.MergeDefineIdempotent | src/plugins.ts:20-25 | Merging an already merged map changes nothing. |
| Plugins.InjectLines | src/plugins.ts:29-37 | The three declarations in order: filename, dirname, then import-meta-url, each the `JSON.stringify` of its value. Their joined text is pinned by `OnLoadContents`. |
| Plugins.JoinAppend | src/plugins.ts:39 | `join('')` of two lists put together is the join of the first followed by the join of the second. |
| Plugins.JoinSingleton | src/plugins.ts:39 | `join('')` of a single line is that line. |
| Plugins.OnLoad | src/plugins.ts:27-42 | The callback with the corrected loader, the one from the extension the filter matched. It produces a result exactly for filtered paths, and the file's text is a suffix of the contents. |
| Plugins.OnLoadAsWritten | src/plugins.ts:27-42 | As written, the callback also produces a result exactly for filtered paths. |
| Plugins.OnLoadContents | src/plugins.ts:29-39 | The contents are the filename, dirname and import-meta-url declarations, in that order with no separator, followed by the file's text. The loader is one of the four. |
| Plugins.OnLoadAsWrittenDiffers | src/plugins.ts:38-41 | The written callback has the same contents as the corrected one. It returns the same result exactly when `path.extname` is non-empty. |
| Plugins.BuildContext.constructor | src/plugins.ts:19 | A build context starts with the given `define` and no callbacks. |
| Plugins.BuildContext.Setup | src/plugins.ts:19-43 | `setup` as written reassigns `define` to the merge of the old one. It appends exactly one callback, which behaves as `OnLoadAsWritten`, and keeps the earlier callbacks. |
| Plugins.BuildContext.SetupCorrected | src/plugins.ts:19-43 | The same setup, except that the appended callback behaves as the corrected `OnLoad`. |
| TsconfigPaths.ForwardedArgs | src/tsconfig-paths.ts:24-35 | The forwarded arguments have the same length and keep every argument after the first. On an alias hit the first is the found path. Otherwise they are the original arguments. |
| TsconfigPaths.Resolve | src/tsconfig-paths.ts:24-36 | Calling `_resolveFilename`: Node's own resolver is applied directly. A wrapper calls its saved resolver with the same `this` and the forwarded arguments. Its behaviour is stated by the lemmas below. |
| TsconfigPaths.BuiltinBypassesAliases | src/tsconfig-paths.ts:25-35 | For a builtin request, the saved resolver receives the unchanged call. |
| TsconfigPaths.HitReplacesRequest | src/tsconfig-paths.ts:27-31 | On a truthy `matchPath` result, the saved resolver receives the found path as argument 0 and the other arguments in place. |
| TsconfigPaths.MissPassesThrough | src/tsconfig-paths.ts:27-35 | When `matchPath` finds nothing, or finds the empty string, the saved resolver receives exactly the original arguments. |
| TsconfigPaths.NoAliasesNoChange | src/tsconfig-paths.ts:24-36 | A wrapper whose `matchPath` never finds anything behaves exactly as the resolver it wraps. |
| TsconfigPaths.MissReportsOriginalRequest | src/tsconfig-paths.ts:35 | On a miss, a not-found error names the requested specifier. |
| TsconfigPaths.UnmatchedAliasNotFound | tests/test.ts:95-111 | An unmatched request `@apis/foos` fails with `Cannot find module '@apis/foos'`. |
| TsconfigPaths.ModuleRuntime.constructor | src/tsconfig-paths.ts:21-22 | The module object starts with the given resolver. |
| TsconfigPaths.ModuleRuntime.RegisterTsconfigPaths | src/tsconfig-paths.ts:6-42 | A failed config load patches nothing and returns the no-op. Otherwise the wrapper is installed over the current resolver, with `matchPath` built once from the config. The returned unregister restores that saved resolver. |
| TsconfigPaths.ModuleRuntime.CallUnregister | src/tsconfig-paths.ts:38-41 | Unregistering sets `_resolveFilename` back to exactly the saved handler. The no-op changes nothing. |
| TsconfigPaths.ModuleRuntime.RegisterThenUnregister | src/tsconfig-paths.ts:22-41 | Register followed by unregister leaves `_resolveFilename` exactly as it was. |
| TsconfigPaths.ModuleRuntime.NestedRegistrations | src/tsconfig-paths.ts:22-41 | Two registrations, undone in reverse order, restore the original resolver. |
| Loader.Load | src/loader.ts:5-15 | A forced URL gives format `commonjs` and exactly the source of the next loader run with `{format: 'module'}`. Any other URL gives the next loader's result for the original url and context. |
| Loader.ForcesCommonJs | src/loader.ts:3-6 | `extensionsRegex.test(url)`, the anchored test for the four extensions. Characterised by `ForcedIffSuffix`. |
| Loader.ForcedIffSuffix | src/loader.ts:3-6 | A URL is forced exactly when it ends in `.ts`, `.tsx`, `.mts` or `.cts`. |
| Loader.ForcedIgnoresContext | src/loader.ts:6-11 | A forced URL's result does not depend on the incoming context. |
| Loader.TrailingJsNotForced | src/loader.ts:3 | Any URL ending in `.js` is not forced. |
| Loader.TsThenJsNotForced | src/loader.ts:3 | `a.ts.js` is not forced. |
| Loader.BareJsNotForced | src/loader.ts:3 | `.js` is not forced. |
| Loader.UpperCaseNotForced | src/loader.ts:3 | Any URL ending in `.TS` is not forced, because the test is case-sensitive. |
| Loader.TsForced | src/loader.ts:3 | Any URL ending in `.ts` is forced. |
| Options.GetOptions | src/options.ts:15-27 | The lookup's exception propagates. A found truthy config gives exactly the three keys: `jsxFactory` and `target` come from `compilerOptions`, and `jsxFragment` comes from `jsxFragmentFactory`. Anything else gives `{}`. No other key ever appears. |
| Options.GetOptionsPath | src/options.ts:29-32 | The same lookup's path. If the lookup throws, the result is that same exception. |
| Options.OptionsOnlyWithPath | src/options.ts:18-31 | `getOptions` is non-empty only when `getOptionsPath` gives a non-empty path. |
| Options.NotFoundGivesEmpty | src/options.ts:19-26 | With no file found, or with falsy data, the result is `{}`. |
| Options.NoCompilerOptionsAllUndefined | src/options.ts:20-24 | A config without `compilerOptions` gives all three keys as `undefined`, without error. |
| Options.FactoriesProjected | src/options.ts:20-24 | Each of the three fields is the corresponding `compilerOptions` entry, or `undefined` where it is absent. |

## Left out

- Everything around the core is out of scope:
  - src/node.ts, src/esbuildResolveSync.ts, scripts/ and the test fixtures;
  - the esbuild transform, pirates' hook and source-map-support;
  - the `register` call itself, which the model only feeds with its options.
- I/O and processes are inputs:
  - file reads (`fs.promises.readFile`, joycon's read);
  - `process.argv`, `process.version`, `process.versions.node` and `process.cwd()`.
- The `console.log` at register.js:39 prints a notice when the config is
  not JSON. The model computes the same options without printing it.
- Asynchrony is dropped: awaiting `defaultLoad` and the `onLoad` promise is
  modelled as applying a function.
- Loader.Load: `defaultLoad`'s third argument is left out. In the passthrough
  branch the code also passes `defaultLoad` itself, and the model passes
  only url and context.
- TsconfigPaths.Resolve: `this` is forwarded as an opaque value. The
  arguments are a sequence, the model of `arguments` and
  `[].slice.call(arguments, 1)`.
- TsconfigPaths.MissReportsOriginalRequest: the not-found message comes from
  Node's own resolver, here a parameter. So the lemma assumes, through
  `NamesItsRequest`, that this resolver names the request it was given.
- Whether an alias candidate exists on disk is decided inside
  tsconfig-paths' `matchPath`, here a parameter.
- Register.ParseArgs: the JavaScript quirk of assigning the key `__proto__`
  to a plain object (which changes its prototype rather than adding a key)
  is not modelled. Every key is an ordinary dictionary key.
- JavaScript objects are modelled as maps, so property order is not
  modelled.
- JSON numbers are reals, and `Number()` of the version's digits is exact.
  Loss of precision beyond 2^53 is not modelled.
- `path.extname` is the POSIX variant only. Windows separators and drive
  letters are not modelled.
- `JSON.stringify`, `path.dirname` and `pathToFileURL` are parameters. The
  model states where their results go, not what they are.
- Plugins.InferLoader: the `as Loader` cast is unchecked in TypeScript, so
  the result is any string. That esbuild rejects an unknown loader is not
  modelled.
- joycon's result cache is not modelled. Both option functions call the same
  `loadSync` parameter.

## Findings

| source | as written | input that shows it | evidently intended | confidence | as-written member | corrected member |
|---|---|---|---|---|---|---|
| src/utils.ts:7 | `nodeVersion[0] <= 14 && nodeVersion[1] < 18` compares the minor version independently of the major. So every major up to 14 is rewritten only when its minor is below 18. | `process.versions.node` = `12.22.0`: a runtime older than 14.18, where `require("node:fs")` is not understood, is left unrewritten. | Rewrite exactly on runtimes older than 14.18: major below 14, or major 14 with minor below 18. | medium; not executed | Utils.GateAsWrittenMissesNode12 | Utils.RemoveNodePrefix |
| src/plugins.ts:40 | The loader is `inferLoader(path.extname(args.path))`, but the filter at src/plugins.ts:6 matches on the whole path. | `/src/.ts` passes the filter, but `path.extname` gives `""`, so the loader is `""` rather than `ts`. | Infer the loader from the extension the filter matched, which always gives `js`, `ts`, `tsx` or `jsx`. | low; not executed | Plugins.DotNamedFileGetsEmptyLoader | Plugins.MatchedLoaderIsJsLoader |
