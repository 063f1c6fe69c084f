/**
 * src/plugins.ts: the esbuild plugin `bundle-require:inject-file-scope`.
 * Its setup rewrites the build's `define` map so that `__dirname`,
 * `__filename` and `import.meta.url` refer to three injected variables, and
 * registers an `onLoad` callback, filtered by the extension regex, that
 * prefixes each loaded file with the declarations of those variables and
 * picks the esbuild loader from the file's extension.
 *
 * The file's text is an input (the read itself is I/O), and `JSON.stringify`,
 * `path.dirname` and `pathToFileURL(..).href` are the fields of
 * `PathServices`. `path.extname` is the model in module PosixPath.
 */
module Plugins {
  import opened Wrappers
  import opened Text
  import PosixPath

  const PluginName: string := "bundle-require:inject-file-scope"
  const DirnameVarName: string := "__esbuild_register_dirname__"
  const FilenameVarName: string := "__esbuild_register_filename__"
  const ImportMetaUrlVarName: string := "__esbuild_register_import_meta_url__"

  /** The alternatives of the filter regex `/\.(mjs|cjs|ts|js|tsx|jsx)$/`. */
  const JsExts: seq<string> := ["mjs", "cjs", "ts", "js", "tsx", "jsx"]

  /** The loaders a filtered file is meant to get. */
  const JsLoaders: set<string> := {"js", "ts", "tsx", "jsx"}

  /** The `onLoad` filter: the path ends in `.` and one of the extensions. */
  predicate JsExtFilter(path: string)
  {
    DotAltAtEnd(path, JsExts)
  }

  /** `inferLoader`: `.mjs` and `.cjs` load as `js`, anything else as itself without its first character. */
  function InferLoader(ext: string): (loader: string)
    ensures ext == ".mjs" || ext == ".cjs" ==> loader == "js"
    ensures ext != ".mjs" && ext != ".cjs" ==> (ext == [] ==> loader == []) && (ext != [] ==> [ext[0]] + loader == ext)
  {
    if ext == ".mjs" || ext == ".cjs" then "js"
    else if ext == [] then []
    else ext[1..]
  }

  /** Each extension the filter accepts maps to one of the four loaders. */
  lemma InferLoaderOfJsExt(a: string)
    requires a in JsExts
    ensures InferLoader("." + a) in JsLoaders
    ensures a != "mjs" && a != "cjs" ==> InferLoader("." + a) == a
  {
    assert ("." + a)[1..] == a;
  }

  /** No filter alternative holds a `.` or a `/`, and none is empty. */
  lemma JsExtsAreNames(a: string)
    requires a in JsExts
    ensures a != [] && '.' !in a && '/' !in a
  {
  }

  /** Witness of the filter: a `.` at `d` followed by one of the extensions up to the end. */
  predicate FilterMatchAt(path: string, d: nat)
  {
    d < |path| && path[d] == '.' && path[d + 1..] in JsExts
  }

  lemma FilterHasMatch(path: string) returns (d: nat)
    requires JsExtFilter(path)
    ensures FilterMatchAt(path, d)
  {
    d :| 0 <= d < |path| && path[d] == '.' && path[d + 1..] in JsExts;
  }

  /** The loader of line 40 as written: `inferLoader(path.extname(path))`. */
  function LoaderAsWritten(path: string): string
  {
    InferLoader(PosixPath.Extname(path))
  }

  /** The corrected loader: inferred from the extension the filter matched, the text from the last `.`. */
  function MatchedLoader(path: string): string
  {
    var d := LastIndexOf(path, '.');
    if d < 0 then [] else InferLoader(path[d..])
  }

  /** The filter's `.` is the path's last one, so the corrected loader reads the matched extension. */
  lemma MatchedLoaderAt(path: string, d: nat)
    requires FilterMatchAt(path, d)
    ensures MatchedLoader(path) == InferLoader(path[d..])
    ensures MatchedLoader(path) in JsLoaders && MatchedLoader(path) != []
  {
    JsExtsAreNames(path[d + 1..]);
    assert forall j :: d < j < |path| ==> path[j] == path[d + 1..][j - d - 1];
    LastIndexOfIs(path, '.', d);
    assert path[d..] == "." + path[d + 1..];
    InferLoaderOfJsExt(path[d + 1..]);
  }

  /** Every path the filter accepts gets one of the four loaders. */
  lemma MatchedLoaderIsJsLoader(path: string)
    requires JsExtFilter(path)
    ensures MatchedLoader(path) in JsLoaders
  {
    var d := FilterHasMatch(path);
    MatchedLoaderAt(path, d);
  }

  /** `path.extname` of a filtered path is the matched extension, unless its `.` starts the file name. */
  lemma ExtnameAtMatch(path: string, d: nat)
    requires FilterMatchAt(path, d)
    ensures PosixPath.Extname(path) == if d == 0 || path[d - 1] == '/' then [] else path[d..]
  {
    JsExtsAreNames(path[d + 1..]);
    PosixPath.ExtnameAtDot(path, d);
  }

  lemma NoExtnameNoLoader(path: string)
    requires PosixPath.Extname(path) == []
    ensures LoaderAsWritten(path) == []
  {
  }

  /**
   * On a filtered path the written loader agrees with the matched one
   * exactly when `path.extname` sees an extension, which fails exactly when
   * the matched `.` starts the file name.
   */
  lemma LoaderAsWrittenAgrees(path: string, d: nat)
    requires FilterMatchAt(path, d)
    ensures LoaderAsWritten(path) == MatchedLoader(path) <==> PosixPath.Extname(path) != []
    ensures PosixPath.Extname(path) == [] <==> d == 0 || path[d - 1] == '/'
  {
    ExtnameAtMatch(path, d);
    MatchedLoaderAt(path, d);
    if PosixPath.Extname(path) == [] {
      NoExtnameNoLoader(path);
    }
  }

  /**
   * A file whose name is just `.` and an extension, in any directory, passes
   * the filter, yet `path.extname` gives `""` and the written loader is `""`
   * (for example `/src/.ts`, with `dir` = `/src` and `a` = `ts`).
   */
  lemma DotNamedFileGetsEmptyLoader(dir: string, a: string)
    requires a in JsExts
    ensures var path := dir + "/" + ("." + a);
      && JsExtFilter(path)
      && LoaderAsWritten(path) == []
      && MatchedLoader(path) == InferLoader("." + a)
      && MatchedLoader(path) in JsLoaders
  {
    var path := dir + "/" + ("." + a);
    var d := |dir| + 1;
    assert path[d..] == "." + a;
    assert path[d + 1..] == a;
    assert FilterMatchAt(path, d);
    ExtnameAtMatch(path, d);
    NoExtnameNoLoader(path);
    MatchedLoaderAt(path, d);
  }

  /** `{...define, __dirname: .., __filename: .., 'import.meta.url': ..}`; an absent map spreads as empty. */
  function MergeDefine(define: Option<map<string, string>>): (r: map<string, string>)
    ensures define.None? ==> r.Keys == {"__dirname", "__filename", "import.meta.url"}
    ensures define.Some? ==> r.Keys == define.value.Keys + {"__dirname", "__filename", "import.meta.url"}
    ensures r["__dirname"] == DirnameVarName
    ensures r["__filename"] == FilenameVarName
    ensures r["import.meta.url"] == ImportMetaUrlVarName
    ensures define.Some? ==> forall k :: k in define.value && k !in {"__dirname", "__filename", "import.meta.url"} ==> r[k] == define.value[k]
  {
    var base := if define.Some? then define.value else map[];
    base["__dirname" := DirnameVarName]["__filename" := FilenameVarName]["import.meta.url" := ImportMetaUrlVarName]
  }

  /** Running the merge on its own output changes nothing. */
  lemma MergeDefineIdempotent(define: Option<map<string, string>>)
    ensures MergeDefine(Some(MergeDefine(define))) == MergeDefine(define)
  {
  }

  /** The collaborators the callback calls: `JSON.stringify`, `path.dirname` and `pathToFileURL(..).href`. */
  datatype PathServices = PathServices(
    stringify: string -> string,
    dirname: string -> string,
    fileUrlHref: string -> string)

  /** One injected line, `const NAME = VALUE;`. */
  function Declaration(name: string, value: string): string
  {
    "const " + name + " = " + value + ";"
  }

  /** The three lines built in the callback: filename, dirname, import-meta-url. */
  function InjectLines(path: string, svc: PathServices): seq<string>
  {
    [ Declaration(FilenameVarName, svc.stringify(path)),
      Declaration(DirnameVarName, svc.stringify(svc.dirname(path))),
      Declaration(ImportMetaUrlVarName, svc.stringify(svc.fileUrlHref(path))) ]
  }

  /** `lines.join('')`. */
  function Join(lines: seq<string>): string
  {
    if lines == [] then [] else lines[0] + Join(lines[1..])
  }

  /** Joining with the empty separator distributes over concatenation of the lists. */
  lemma {:induction false} JoinAppend(xs: seq<string>, ys: seq<string>)
    ensures Join(xs + ys) == Join(xs) + Join(ys)
  {
    if xs != [] {
      assert (xs + ys)[1..] == xs[1..] + ys;
      JoinAppend(xs[1..], ys);
    } else {
      assert xs + ys == ys;
    }
  }

  /** A single line joins to itself. */
  lemma JoinSingleton(line: string)
    ensures Join([line]) == line
  {
    assert [line][1..] == [];
  }

  datatype OnLoadResult = OnLoadResult(contents: string, loader: string)

  /**
   * The `onLoad` callback for a file at `path` whose text is `text`, with
   * the corrected loader; `None` where the filter keeps esbuild from
   * calling it.
   */
  function OnLoad(path: string, text: string, svc: PathServices): (r: Option<OnLoadResult>)
    ensures r.Some? <==> JsExtFilter(path)
    ensures r.Some? ==> EndsWith(r.value.contents, text)
  {
    if JsExtFilter(path) then
      var prefix := Join(InjectLines(path, svc));
      assert (prefix + text)[|prefix + text| - |text|..] == text;
      Some(OnLoadResult(prefix + text, MatchedLoader(path)))
    else None
  }

  /** The callback as written, with `inferLoader(path.extname(path))` as the loader. */
  function OnLoadAsWritten(path: string, text: string, svc: PathServices): (r: Option<OnLoadResult>)
    ensures r.Some? <==> JsExtFilter(path)
  {
    match OnLoad(path, text, svc)
    case Some(res) => Some(res.(loader := LoaderAsWritten(path)))
    case None => None
  }

  /**
   * The loaded contents are the three declarations, with no separator, in
   * the order filename, dirname, import-meta-url, then the file's text; the
   * loader is one of the four.
   */
  lemma OnLoadContents(path: string, text: string, svc: PathServices)
    requires JsExtFilter(path)
    ensures OnLoad(path, text, svc).value.contents
         == Declaration(FilenameVarName, svc.stringify(path))
          + Declaration(DirnameVarName, svc.stringify(svc.dirname(path)))
          + Declaration(ImportMetaUrlVarName, svc.stringify(svc.fileUrlHref(path)))
          + text
    ensures OnLoad(path, text, svc).value.loader in JsLoaders
  {
    var lines := InjectLines(path, svc);
    assert lines == [lines[0]] + ([lines[1]] + [lines[2]]);
    JoinAppend([lines[0]], [lines[1]] + [lines[2]]);
    JoinAppend([lines[1]], [lines[2]]);
    JoinSingleton(lines[0]);
    JoinSingleton(lines[1]);
    JoinSingleton(lines[2]);
    MatchedLoaderIsJsLoader(path);
  }

  /** The written callback differs from the corrected one only in the loader, and only for dot-named files. */
  lemma OnLoadAsWrittenDiffers(path: string, text: string, svc: PathServices, d: nat)
    requires FilterMatchAt(path, d)
    ensures OnLoadAsWritten(path, text, svc).value.contents == OnLoad(path, text, svc).value.contents
    ensures OnLoadAsWritten(path, text, svc) == OnLoad(path, text, svc) <==> PosixPath.Extname(path) != []
  {
    LoaderAsWrittenAgrees(path, d);
  }

  /** The part of esbuild's plugin-build object that the setup touches. */
  class BuildContext {
    /** `initialOptions.define`. */
    var define: Option<map<string, string>>
    /** The `onLoad` callbacks registered so far, each guarded by its filter. */
    var onLoadCallbacks: seq<(string, string) -> Option<OnLoadResult>>

    constructor(define: Option<map<string, string>>)
      ensures this.define == define && onLoadCallbacks == []
    {
      this.define := define;
      onLoadCallbacks := [];
    }

    /**
     * `setup(ctx)` as written: reassign the merged `define`, then register
     * the filtered callback whose loader is `inferLoader(path.extname(..))`.
     */
    method Setup(svc: PathServices)
      modifies this
      ensures define == Some(MergeDefine(old(define)))
      ensures |onLoadCallbacks| == |old(onLoadCallbacks)| + 1
      ensures onLoadCallbacks[..|old(onLoadCallbacks)|] == old(onLoadCallbacks)
      ensures forall path, text :: onLoadCallbacks[|old(onLoadCallbacks)|](path, text) == OnLoadAsWritten(path, text, svc)
    {
      define := Some(MergeDefine(define));
      onLoadCallbacks := onLoadCallbacks + [(path, text) => OnLoadAsWritten(path, text, svc)];
    }

    /** The same setup registering the callback with the corrected loader. */
    method SetupCorrected(svc: PathServices)
      modifies this
      ensures define == Some(MergeDefine(old(define)))
      ensures |onLoadCallbacks| == |old(onLoadCallbacks)| + 1
      ensures onLoadCallbacks[..|old(onLoadCallbacks)|] == old(onLoadCallbacks)
      ensures forall path, text :: onLoadCallbacks[|old(onLoadCallbacks)|](path, text) == OnLoad(path, text, svc)
    {
      define := Some(MergeDefine(define));
      onLoadCallbacks := onLoadCallbacks + [(path, text) => OnLoad(path, text, svc)];
    }
  }
}
