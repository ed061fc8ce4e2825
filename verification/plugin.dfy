/**
 * The Fable plugin's in-memory state and its five hooks, as pure functions
 * from (state, inputs) to (state', output). The compiler daemon's replies,
 * the host's module graph and Node's path functions enter as inputs; what
 * the source sends to the daemon or to the dev-server socket comes back as
 * part of the output.
 */
module Plugin {
  import opened Wrappers
  import opened JsString
  import opened ArtifactCache
  import JsArray
  import FsharpFileRegex

  /** The project options the daemon reports; only the ordered source file list is used. */
  datatype ProjectOptions = ProjectOptions(sourceFiles: seq<string>)

  /** `projectOptions` (`null` until a project is loaded) and the `compilableFiles` map. */
  datatype State = State(projectOptions: Option<ProjectOptions>, compilableFiles: Cache)

  /** The state `fablePlugin` starts from. */
  const Initial: State := State(None, map[])

  // ---------------------------------------------------------------- buildStart

  /** A positional field of the daemon's `fable/init` reply. */
  datatype Field =
    | ProjectOptionsField(options: ProjectOptions)
    | CompiledFilesField(files: map<string, string>)

  /** The daemon's tagged reply: a `Case` name and, possibly, `Fields`. */
  datatype ProjectResponse = ProjectResponse(caseName: string, fields: Option<seq<Field>>)

  datatype BuildStartOutcome =
    | Loaded       // the reply was used
    | Unexpected   // the reply failed the Success/two-fields test and was only logged
    | Malformed    // a two-field Success whose fields are not (options, compiled files)

  datatype BuildStartResult = BuildStartResult(state: State, outcome: BuildStartOutcome)

  /** The test the source applies: `Case === "Success"`, `Fields` present, two of them. */
  predicate IsSuccessWithTwoFields(resp: ProjectResponse) {
    resp.caseName == "Success" && resp.fields.Some? && |resp.fields.value| == 2
  }

  /** The two fields are the project options and the compiled-files object, in that order. */
  predicate IsWellShaped(resp: ProjectResponse) {
    && IsSuccessWithTwoFields(resp)
    && resp.fields.value[0].ProjectOptionsField?
    && resp.fields.value[1].CompiledFilesField?
  }

  function ResponseSourceFiles(resp: ProjectResponse): seq<string>
    requires IsWellShaped(resp)
  {
    resp.fields.value[0].options.sourceFiles
  }

  function ResponseFiles(resp: ProjectResponse): map<string, string>
    requires IsWellShaped(resp)
  {
    resp.fields.value[1].files
  }

  /** `compiledFSharpFiles[file]`, which is `undefined` for a file the compiler sent nothing for. */
  function Lookup(files: map<string, string>, file: string): Option<string> {
    if file in files then Some(files[file]) else None
  }

  /** The `compilableFiles.set` calls of the `forEach` loop, one per source file, in order. */
  function LoadWrites(sourceFiles: seq<string>, files: map<string, string>, keyOf: string -> string): seq<Write> {
    seq(|sourceFiles|, i requires 0 <= i < |sourceFiles| => Write(keyOf(sourceFiles[i]), Lookup(files, sourceFiles[i])))
  }

  /**
   * The state a usable reply leaves, with `keyOf` the cache key of a source
   * file: the options are recorded; the cache gains one key per source file,
   * every source file's key holds the code compiled for it (or none) unless
   * a later source file has the same key, and every other entry is kept.
   */
  predicate LoadedWith(st: State, resp: ProjectResponse, keyOf: string -> string, st': State)
    requires IsWellShaped(resp)
  {
    var sf := ResponseSourceFiles(resp);
    var cache' := st'.compilableFiles;
    && st'.projectOptions == Some(ProjectOptions(sf))
    && cache'.Keys == st.compilableFiles.Keys + (set f | f in sf :: keyOf(f))
    && (forall f :: f in sf ==> keyOf(f) in cache')
    && (forall i :: 0 <= i < |sf| && (forall i' :: i < i' < |sf| ==> keyOf(sf[i']) != keyOf(sf[i])) ==>
          cache'[keyOf(sf[i])] == Lookup(ResponseFiles(resp), sf[i]))
    && (forall k :: k in st.compilableFiles && (forall f :: f in sf ==> keyOf(f) != k) ==>
          cache'[k] == st.compilableFiles[k])
  }

  /**
   * buildStart, with the function that turns a source file into its cache
   * key as a parameter. A reply that fails the Success/two-fields test, or
   * whose fields are not (options, compiled files), leaves the state alone.
   * A usable one records the options and adds one key per source file,
   * holding the code compiled for the last source file with that key (or
   * none); every other entry is kept.
   */
  function BuildStartWith(st: State, resp: ProjectResponse, keyOf: string -> string): (r: BuildStartResult)
    ensures r.outcome == Loaded <==> IsWellShaped(resp)
    ensures r.outcome != Loaded ==> r.state == st
    ensures !IsSuccessWithTwoFields(resp) ==> r.outcome == Unexpected
    ensures r.outcome == Loaded ==> r.state.projectOptions == Some(resp.fields.value[0].options)
    ensures st.compilableFiles.Keys <= r.state.compilableFiles.Keys
    ensures IsWellShaped(resp) ==> LoadedWith(st, resp, keyOf, r.state)
  {
    if !IsSuccessWithTwoFields(resp) then BuildStartResult(st, Unexpected)
    else if !IsWellShaped(resp) then BuildStartResult(st, Malformed)
    else
      var options := resp.fields.value[0].options;
      var files := resp.fields.value[1].files;
      LoadWritesFacts(options.sourceFiles, files, keyOf);
      BuildStartResult(State(Some(options), ApplyWrites(st.compilableFiles, LoadWrites(options.sourceFiles, files, keyOf))), Loaded)
  }

  /** The cache key the source computes in buildStart: `file.replace(".fs", ".js")`, first occurrence. */
  function AsWrittenKey(file: string): string {
    ReplaceFirst(file, ".fs", ".js")
  }

  /**
   * buildStart exactly as the source writes it: on a usable reply the
   * options are recorded and every source file's first `.fs` becomes `.js`
   * to form its key; any other reply leaves the state alone.
   */
  function BuildStartAsWritten(st: State, resp: ProjectResponse): (r: BuildStartResult)
    ensures !IsWellShaped(resp) ==> r.state == st && r.outcome != Loaded
    ensures r.state.projectOptions == if IsWellShaped(resp) then Some(ProjectOptions(ResponseSourceFiles(resp))) else st.projectOptions
    ensures st.compilableFiles.Keys <= r.state.compilableFiles.Keys
    ensures IsWellShaped(resp) ==> r.outcome == Loaded && LoadedWith(st, resp, AsWrittenKey, r.state)
  {
    BuildStartWith(st, resp, AsWrittenKey)
  }

  /**
   * buildStart with the cache key the other hooks use: the trailing
   * `.fs`/`.fsi` of each source file becomes `.js`. This is the corrected
   * definition of the README's finding; `Step` runs `BuildStartAsWritten`.
   */
  function BuildStart(st: State, resp: ProjectResponse): (r: BuildStartResult)
    ensures !IsWellShaped(resp) ==> r.state == st && r.outcome != Loaded
    ensures r.state.projectOptions == if IsWellShaped(resp) then Some(ProjectOptions(ResponseSourceFiles(resp))) else st.projectOptions
    ensures st.compilableFiles.Keys <= r.state.compilableFiles.Keys
    ensures IsWellShaped(resp) ==> r.outcome == Loaded && LoadedWith(st, resp, FsharpFileRegex.ToJs, r.state)
  {
    BuildStartWith(st, resp, FsharpFileRegex.ToJs)
  }

  /** What the load writes of buildStart touch, phrased per source file. */
  lemma LoadWritesFacts(sf: seq<string>, files: map<string, string>, keyOf: string -> string)
    ensures WrittenKeys(LoadWrites(sf, files, keyOf)) == set f | f in sf :: keyOf(f)
    ensures forall i :: 0 <= i < |sf| && (forall i' :: i < i' < |sf| ==> keyOf(sf[i']) != keyOf(sf[i])) ==>
              IsLastWrite(LoadWrites(sf, files, keyOf), i)
    ensures forall k :: (forall f :: f in sf ==> keyOf(f) != k) ==> k !in WrittenKeys(LoadWrites(sf, files, keyOf))
  {
    var ws := LoadWrites(sf, files, keyOf);
    assert |ws| == |sf|;
    assert forall i :: 0 <= i < |ws| ==> ws[i] == Write(keyOf(sf[i]), Lookup(files, sf[i]));
  }

  // ---------------------------------------------------------------- resolveId

  /**
   * Node's `path.dirname`, `path.resolve` and Vite's `normalizePath`,
   * left uninterpreted: the model holds for any choice of them.
   */
  datatype PathOps = PathOps(
    dirname: string -> string,
    resolve: (string, string) -> string,
    normalizePath: string -> string)

  /** An importer counts only when it is truthy: present and not the empty string. */
  predicate HasImporter(importer: Option<string>) {
    importer.Some? && importer.value != ""
  }

  /**
   * The F# file a `.js` specifier points at: for a `.fs.js` name (as files
   * from fable_modules are named) the first `.js` is removed, otherwise the
   * first `.js` becomes `.fs`.
   */
  function Candidate(source: string): (r: string)
    ensures EndsWith(source, ".fs.js") ==> r == ReplaceFirst(source, ".js", "")
    ensures EndsWith(source, ".fs.js") && (forall i :: 0 <= i < |source| - 3 ==> !OccursAt(source, ".js", i)) ==>
              r == source[..|source| - 3] && EndsWith(r, ".fs")
    ensures !EndsWith(source, ".fs.js") ==> r == ReplaceFirst(source, ".js", ".fs")
    ensures EndsWith(source, ".js") && !EndsWith(source, ".fs.js") && (forall i :: 0 <= i < |source| - 3 ==> !OccursAt(source, ".js", i)) ==>
              r == source[..|source| - 3] + ".fs"
  {
    if EndsWith(source, ".fs.js") then
      // a `.fs.js` name ends in `s`, so `trimEnd` has nothing to remove
      assert source[|source| - 1] == ".fs.js"[5];
      TrimEndNoOp(source);
      assert source[|source| - 3..] == ".js";
      ReplaceFirstOfSoleSuffix(source, ".js", "");
      var c := source[..|source| - 3];
      assert c[|c| - 3..] == source[|source| - 6..|source| - 3];
      ReplaceFirst(TrimEnd(source), ".js", "")
    else
      ReplaceFirstOfSoleSuffix(source, ".js", ".fs");
      ReplaceFirst(source, ".js", ".fs")
  }

  /**
   * The path resolveId finally tests for membership: the candidate itself,
   * or, when that is not a source file and an importer is given, the
   * candidate resolved against the importer's directory (a leading `/` in
   * the specifier is made relative with a `.` prefix).
   */
  function FinalCandidate(sourceFiles: seq<string>, paths: PathOps, source: string, importer: Option<string>): (r: string)
    ensures Candidate(source) in sourceFiles || !HasImporter(importer) ==> r == Candidate(source)
  {
    var fsFile := Candidate(source);
    if fsFile !in sourceFiles && HasImporter(importer) then
      var importerFolder := paths.dirname(importer.value);
      var sourceRelativePath := if StartsWith(source, "/") then "." + fsFile else fsFile;
      paths.normalizePath(paths.resolve(importerFolder, sourceRelativePath))
    else fsFile
  }

  /**
   * resolveId: only `.js` specifiers are considered; a result is always a
   * project source file with its trailing F# extension turned into `.js`,
   * and there is one exactly when the final candidate is a source file.
   * The project must be loaded, as the source dereferences it unchecked.
   */
  function ResolveId(st: State, paths: PathOps, source: string, importer: Option<string>): (r: Option<string>)
    requires EndsWith(source, ".js") ==> st.projectOptions.Some?
    ensures !EndsWith(source, ".js") ==> r == None
    ensures r.Some? ==> exists f :: f in st.projectOptions.value.sourceFiles && r.value == FsharpFileRegex.ToJs(f)
    ensures EndsWith(source, ".js") ==>
              (r.None? <==> FinalCandidate(st.projectOptions.value.sourceFiles, paths, source, importer) !in st.projectOptions.value.sourceFiles)
  {
    if !EndsWith(source, ".js") then None
    else
      var sourceFiles := st.projectOptions.value.sourceFiles;
      var fsFile := FinalCandidate(sourceFiles, paths, source, importer);
      if fsFile in sourceFiles then Some(FsharpFileRegex.Replace(fsFile, ".js")) else None
  }

  // ---------------------------------------------------------------- load

  /** The `{ code }` object load returns; `code` is `undefined` when the cache holds no code. */
  datatype LoadResult = LoadResult(code: Option<string>)

  /** load: `null` for an id that is not cached, otherwise exactly the cached code. */
  function Load(st: State, id: string): (r: Option<LoadResult>)
    ensures r.None? <==> id !in st.compilableFiles
    ensures r.Some? ==> r.value.code == st.compilableFiles[id]
  {
    if id !in st.compilableFiles then None else Some(LoadResult(st.compilableFiles[id]))
  }

  // ---------------------------------------------------------------- watchChange

  /** One key of the daemon's `compiledFSharpFiles` object with its code, in `Object.keys` order. */
  datatype CompiledFile = CompiledFile(fsFile: string, code: string)

  datatype WatchOutcome =
    | Ignored                                        // no project, or not an F# file
    | ProjectReloadRequested                         // an `.fsproj` changed: only logged
    | Recompiled(fileName: string, reloaded: seq<string>)  // sent `fable/compile` for `fileName`; ids passed to `this.load`

  datatype WatchChangeResult = WatchChangeResult(state: State, outcome: WatchOutcome)

  /** The `compilableFiles.set` calls for a compile result, in key order. */
  function CompileWrites(compiled: seq<CompiledFile>): seq<Write> {
    seq(|compiled|, j requires 0 <= j < |compiled| => Write(FsharpFileRegex.ToJs(compiled[j].fsFile), Some(compiled[j].code)))
  }

  /** The condition under which watchChange asks the daemon to compile `id`. */
  predicate WatchCompiles(st: State, id: string) {
    st.projectOptions.Some? && !EndsWith(id, ".fsproj") && FsharpFileRegex.Test(id)
  }

  /**
   * watchChange: nothing changes unless a project is loaded and `id` is an
   * F# file (and not an `.fsproj`); then each returned file's code is stored
   * under its `.js` id (a later key with the same id wins), every other
   * cache entry and the project options are kept, and each written id is
   * handed to `this.load` in key order.
   */
  function WatchChange(st: State, id: string, compiled: seq<CompiledFile>): (r: WatchChangeResult)
    ensures !WatchCompiles(st, id) ==> r.state == st
    ensures st.projectOptions.Some? && EndsWith(id, ".fsproj") ==> r.outcome == ProjectReloadRequested
    ensures r.state.projectOptions == st.projectOptions
    ensures st.compilableFiles.Keys <= r.state.compilableFiles.Keys
    ensures WatchCompiles(st, id) ==>
              var cache' := r.state.compilableFiles;
              && cache'.Keys == st.compilableFiles.Keys + (set c | c in compiled :: FsharpFileRegex.ToJs(c.fsFile))
              && (forall j :: 0 <= j < |compiled| && (forall j' :: j < j' < |compiled| ==> FsharpFileRegex.ToJs(compiled[j'].fsFile) != FsharpFileRegex.ToJs(compiled[j].fsFile)) ==>
                    cache'[FsharpFileRegex.ToJs(compiled[j].fsFile)] == Some(compiled[j].code))
              && (forall k :: k in st.compilableFiles && (forall c :: c in compiled ==> FsharpFileRegex.ToJs(c.fsFile) != k) ==>
                    cache'[k] == st.compilableFiles[k])
              && r.outcome.Recompiled? && r.outcome.fileName == id
              && |r.outcome.reloaded| == |compiled|
              && (forall j :: 0 <= j < |compiled| ==> r.outcome.reloaded[j] == FsharpFileRegex.ToJs(compiled[j].fsFile))
  {
    if st.projectOptions.None? then WatchChangeResult(st, Ignored)
    else if EndsWith(id, ".fsproj") then WatchChangeResult(st, ProjectReloadRequested)
    else if FsharpFileRegex.Test(id) then
      var ws := CompileWrites(compiled);
      CompileWritesFacts(compiled);
      assert |ws| == |compiled|;
      assert forall j :: 0 <= j < |ws| ==> ws[j] == Write(FsharpFileRegex.ToJs(compiled[j].fsFile), Some(compiled[j].code));
      var reloaded := seq(|compiled|, j requires 0 <= j < |compiled| => FsharpFileRegex.ToJs(compiled[j].fsFile));
      WatchChangeResult(State(st.projectOptions, ApplyWrites(st.compilableFiles, ws)), Recompiled(id, reloaded))
    else WatchChangeResult(st, Ignored)
  }

  /** What the writes of watchChange touch, phrased per compiled file. */
  lemma CompileWritesFacts(compiled: seq<CompiledFile>)
    ensures WrittenKeys(CompileWrites(compiled)) == set c | c in compiled :: FsharpFileRegex.ToJs(c.fsFile)
    ensures forall j :: 0 <= j < |compiled| && (forall j' :: j < j' < |compiled| ==> FsharpFileRegex.ToJs(compiled[j'].fsFile) != FsharpFileRegex.ToJs(compiled[j].fsFile)) ==>
              IsLastWrite(CompileWrites(compiled), j)
  {
    var ws := CompileWrites(compiled);
    assert |ws| == |compiled|;
    assert forall j :: 0 <= j < |ws| ==> ws[j] == Write(FsharpFileRegex.ToJs(compiled[j].fsFile), Some(compiled[j].code));
  }

  // ---------------------------------------------------------------- handleHotUpdate

  /** A node of the host's module graph; only its url is read. */
  datatype ModuleNode = ModuleNode(id: string, url: string)

  /** `server.moduleGraph.getModuleById`: a module for the ids the graph knows. */
  type ModuleGraph = map<string, ModuleNode>

  /** The message the source sends on `server.ws`. */
  datatype WsPayload = WsPayload(kind: string, event: string, data: seq<string>)

  /** What handleHotUpdate returns to the host, with the message it sent, if any. */
  datatype HotUpdateResult = HotUpdateResult(returned: seq<ModuleNode>, sent: Option<WsPayload>)

  /**
   * `filter((f, idx) => idx >= indexOf(file))`: the source files from the
   * first occurrence of the changed file on, or all of them for a file that
   * is not a source file (its index is -1).
   */
  function Downstream(sourceFiles: seq<string>, file: string): (r: seq<string>)
    ensures file !in sourceFiles ==> r == sourceFiles
    ensures file in sourceFiles ==>
              var i := JsArray.IndexOf(sourceFiles, file);
              r == sourceFiles[i..] && sourceFiles[i] == file && file !in sourceFiles[..i]
  {
    var i := JsArray.IndexOf(sourceFiles, file);
    JsArray.FilterIndexAtLeastIsSuffix(sourceFiles, i);
    JsArray.FilterIndexAtLeast(sourceFiles, i)
  }

  /** The graph's modules for the given source files, in their order, skipping files it does not know. */
  function PresentModules(graph: ModuleGraph, files: seq<string>): (r: seq<ModuleNode>)
    ensures |r| <= |files|
    ensures forall m :: m in r ==> m in graph.Values
  {
    if |files| == 0 then []
    else
      var jsFile := FsharpFileRegex.ToJs(files[0]);
      (if jsFile in graph then [graph[jsFile]] else []) + PresentModules(graph, files[1..])
  }

  /** `modulesToCompile.map(({ url }) => url)` */
  function Urls(modules: seq<ModuleNode>): seq<string> {
    seq(|modules|, i requires 0 <= i < |modules| => modules[i].url)
  }

  const HotUpdateEvent: string := "hot-update-dependents"

  /**
   * handleHotUpdate: `undefined` for a file the regex does not recognise;
   * otherwise the graph's modules for the changed file and every later
   * source file (all source files when the file is unknown), in order, are
   * returned and their urls sent; when there are none, the host's own
   * `modules` are returned and nothing is sent.
   */
  function HandleHotUpdate(st: State, file: string, graph: ModuleGraph, modules: seq<ModuleNode>): (r: Option<HotUpdateResult>)
    requires FsharpFileRegex.Test(file) ==> st.projectOptions.Some?
    ensures r.None? <==> !FsharpFileRegex.Test(file)
    ensures r.Some? ==>
              var sf := st.projectOptions.value.sourceFiles;
              var i := JsArray.IndexOf(sf, file);
              var present := PresentModules(graph, if i == -1 then sf else sf[i..]);
              && (|present| > 0 ==> r.value.returned == present && r.value.sent.Some?)
              && (|present| == 0 ==> r.value.returned == modules && r.value.sent.None?)
    ensures r.Some? && r.value.sent.Some? ==>
              r.value.sent.value == WsPayload("custom", HotUpdateEvent, Urls(r.value.returned))
  {
    if !FsharpFileRegex.Test(file) then None
    else
      var sf := st.projectOptions.value.sourceFiles;
      JsArray.FilterIndexAtLeastIsSuffix(sf, JsArray.IndexOf(sf, file));
      var modulesToCompile := PresentModules(graph, Downstream(sf, file));
      if |modulesToCompile| > 0 then
        Some(HotUpdateResult(modulesToCompile, Some(WsPayload("custom", HotUpdateEvent, Urls(modulesToCompile)))))
      else
        Some(HotUpdateResult(modules, None))
  }

  // ---------------------------------------------------------------- one hook call

  /** A call of one of the hooks, with the inputs the host and the daemon supply. */
  datatype Hook =
    | BuildStartHook(response: ProjectResponse)
    | ResolveIdHook(source: string, importer: Option<string>)
    | LoadHook(id: string)
    | WatchChangeHook(changedId: string, compiled: seq<CompiledFile>)
    | HotUpdateHook(file: string, graph: ModuleGraph, modules: seq<ModuleNode>)

  datatype HookOutput =
    | BuildStartOutput(buildOutcome: BuildStartOutcome)
    | ResolveIdOutput(resolved: Option<string>)
    | LoadOutput(loaded: Option<LoadResult>)
    | WatchChangeOutput(watchOutcome: WatchOutcome)
    | HotUpdateOutput(hotUpdate: Option<HotUpdateResult>)

  /** The hooks that dereference `projectOptions` unchecked need a loaded project on that path. */
  predicate CanRun(st: State, hook: Hook) {
    match hook
    case ResolveIdHook(source, _) => EndsWith(source, ".js") ==> st.projectOptions.Some?
    case HotUpdateHook(file, _, _) => FsharpFileRegex.Test(file) ==> st.projectOptions.Some?
    case _ => true
  }

  /**
   * One hook call, with buildStart as the source writes it.
   * resolveId, load and handleHotUpdate only read the state;
   * only buildStart replaces the project options, and only with a loaded
   * project; no hook ever removes a cache entry.
   */
  function Step(st: State, paths: PathOps, hook: Hook): (r: (State, HookOutput))
    requires CanRun(st, hook)
    ensures hook.ResolveIdHook? || hook.LoadHook? || hook.HotUpdateHook? ==> r.0 == st
    ensures !hook.BuildStartHook? ==> r.0.projectOptions == st.projectOptions
    ensures st.projectOptions.Some? ==> r.0.projectOptions.Some?
    ensures st.compilableFiles.Keys <= r.0.compilableFiles.Keys
  {
    match hook
    case BuildStartHook(response) =>
      var b := BuildStartAsWritten(st, response);
      (b.state, BuildStartOutput(b.outcome))
    case ResolveIdHook(source, importer) =>
      assert EndsWith(source, ".js") ==> st.projectOptions.Some?;
      (st, ResolveIdOutput(ResolveId(st, paths, source, importer)))
    case LoadHook(id) => (st, LoadOutput(Load(st, id)))
    case WatchChangeHook(id, compiled) =>
      var w := WatchChange(st, id, compiled);
      (w.state, WatchChangeOutput(w.outcome))
    case HotUpdateHook(file, graph, modules) =>
      assert FsharpFileRegex.Test(file) ==> st.projectOptions.Some?;
      (st, HotUpdateOutput(HandleHotUpdate(st, file, graph, modules)))
  }
}
