/**
 * src/loader.ts: the ESM `load` hook. A URL ending in `.ts`, `.tsx`, `.mts`
 * or `.cts` is loaded by the next loader as format `module` and handed back
 * as format `commonjs` with the same source; every other URL goes to the
 * next loader unchanged.
 *
 * The next loader, `defaultLoad`, is a parameter; its asynchrony is left
 * out, so awaiting it is applying it.
 */
module Loader {
  import opened Wrappers
  import opened Text

  /** The alternatives of `/\.(ts|tsx|mts|cts)$/`. */
  const ForcedExts: seq<string> := ["ts", "tsx", "mts", "cts"]

  /** The hook's `context` argument: the fields Node fills in, `None` where absent. */
  datatype LoadContext = LoadContext(
    format: Option<string>,
    conditions: Option<seq<string>>,
    importAttributes: Option<map<string, string>>)

  /** What a loader returns; the source is the module's text, `None` where absent. */
  datatype LoadResult = LoadResult(
    format: Option<string>,
    source: Option<string>,
    shortCircuit: Option<bool>)

  /** The context `{ format: 'module' }` built for the forced call. */
  const ModuleContext: LoadContext := LoadContext(Some("module"), None, None)

  /** `extensionsRegex.test(url)`. */
  predicate ForcesCommonJs(url: string)
  {
    DotAltAtEnd(url, ForcedExts)
  }

  /**
   * `load(url, context, defaultLoad)`: on a forced URL the result has format
   * `commonjs` and exactly the source the next loader produced under
   * format `module`, and nothing else; otherwise it is the next loader's
   * result for the original arguments.
   */
  function Load(url: string, context: LoadContext, defaultLoad: (string, LoadContext) -> LoadResult): (r: LoadResult)
    ensures ForcesCommonJs(url) ==> r.format == Some("commonjs") && r.shortCircuit.None?
    ensures ForcesCommonJs(url) ==> r.source == defaultLoad(url, ModuleContext).source
    ensures !ForcesCommonJs(url) ==> r == defaultLoad(url, context)
  {
    if ForcesCommonJs(url) then
      var loaded := defaultLoad(url, ModuleContext);
      LoadResult(Some("commonjs"), loaded.source, None)
    else defaultLoad(url, context)
  }

  /** The override applies exactly to URLs ending in `.` and one of the four extensions. */
  lemma ForcedIffSuffix(url: string)
    ensures ForcesCommonJs(url) <==> exists e :: e in ForcedExts && EndsWith(url, "." + e)
  {
    DotAltAtEndIsSuffix(url, ForcedExts);
  }

  /** A forced URL's result does not depend on the context it came with. */
  lemma ForcedIgnoresContext(url: string, c1: LoadContext, c2: LoadContext, defaultLoad: (string, LoadContext) -> LoadResult)
    requires ForcesCommonJs(url)
    ensures Load(url, c1, defaultLoad) == Load(url, c2, defaultLoad)
  {
  }

  /** Every forced extension ends in `x`, or in `ts`. */
  lemma ForcedExtEnding(e: string)
    ensures e in ForcedExts ==> |e| >= 2 && (e[|e| - 1] == 'x' || (e[|e| - 1] == 's' && e[|e| - 2] == 't'))
  {
  }

  /** Appending text that ends in a letter outside the four extensions removes the override. */
  lemma TrailingJsNotForced(base: string)
    ensures !ForcesCommonJs(base + ".js")
  {
    var url := base + ".js";
    forall i | 0 <= i < |url| && url[i] == '.'
      ensures url[i + 1..] !in ForcedExts
    {
      var e := url[i + 1..];
      ForcedExtEnding(e);
      assert |e| >= 2 ==> e[|e| - 1] == 's' && e[|e| - 2] == 'j';
    }
  }

  /** `a.ts.js` is not overridden. */
  lemma TsThenJsNotForced()
    ensures !ForcesCommonJs("a.ts.js")
  {
    TrailingJsNotForced("a.ts");
    assert "a.ts" + ".js" == "a.ts.js";
  }

  /** A bare `.js` is not overridden. */
  lemma BareJsNotForced()
    ensures !ForcesCommonJs(".js")
  {
    TrailingJsNotForced("");
    assert "" + ".js" == ".js";
  }

  /** The match is case-sensitive: an upper-case extension is not overridden. */
  lemma UpperCaseNotForced(base: string)
    ensures !ForcesCommonJs(base + ".TS")
  {
    var url := base + ".TS";
    forall i | 0 <= i < |url| && url[i] == '.'
      ensures url[i + 1..] !in ForcedExts
    {
      var e := url[i + 1..];
      ForcedExtEnding(e);
      assert |e| >= 2 ==> e[|e| - 1] == 'S';
    }
  }

  /** A `.ts` URL is overridden. */
  lemma TsForced(base: string)
    ensures ForcesCommonJs(base + ".ts")
  {
    var url := base + ".ts";
    assert url[|base|] == '.' && url[|base| + 1..] == "ts";
  }
}
