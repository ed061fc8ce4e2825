/**
 * Properties that relate the hooks to each other and to the string and
 * list operations they are built from: how resolveId rewrites a specifier,
 * that it maps a source file's own id back to it, that what it resolves
 * load can serve, that buildStart is idempotent, and which modules a hot
 * update invalidates.
 */
module HookProperties {
  import opened Wrappers
  import opened JsString
  import opened ArtifactCache
  import opened Plugin
  import JsArray
  import FsharpFileRegex

  // ---------------------------------------------------------------- resolveId

  /** `".js"` occurs at an index below `|stem|` of `stem + ".js"` only inside `stem`. */
  lemma JsOccurrenceInStem(stem: string, i: int)
    requires 0 <= i < |stem| && OccursAt(stem + ".js", ".js", i)
    ensures OccursAt(stem, ".js", i)
  {
    var s := stem + ".js";
    assert s[i..i + 3] == ".js";
    assert s[i + 1] == 'j' && s[i + 2] == 's';
    assert s[|stem|] == '.';
    assert s[i..i + 3] == stem[i..i + 3];
  }

  /** For `stem + ".js"` with no `.js` inside `stem`, the first `.js` is the trailing one. */
  lemma FirstJsIsTrailing(stem: string)
    requires forall i :: !OccursAt(stem, ".js", i)
    ensures forall i :: 0 <= i < |stem + ".js"| - 3 ==> !OccursAt(stem + ".js", ".js", i)
    ensures EndsWith(stem + ".js", ".js")
  {
    forall i | 0 <= i < |stem + ".js"| - 3
      ensures !OccursAt(stem + ".js", ".js", i)
    {
      if OccursAt(stem + ".js", ".js", i) {
        JsOccurrenceInStem(stem, i);
      }
    }
    assert (stem + ".js")[|stem|..] == ".js";
  }

  /** Only the first `.js` is rewritten: a directory named `x.js` takes the `.fs`, not the file. */
  lemma CandidateRewritesFirstJs()
    ensures Candidate("x.js/A.js") == "x.fs/A.js"
  {
    var s := "x.js/A.js";
    assert !EndsWith(s, ".fs.js") by { assert s[|s| - 6..][0] == 's'; }
    assert s[1..4] == ".js";
    assert s[0..3] != ".js" by { assert s[0..3][0] == 'x'; }
    assert IndexOfFrom(s, ".js", 0) == 1;
    assert s[..1] + ".fs" + s[4..] == "x.fs/A.js";
  }

  /** The importer is not consulted when the candidate itself is a source file. */
  lemma ResolveIdDirectHit(st: State, paths: PathOps, source: string, importer: Option<string>)
    requires EndsWith(source, ".js") && st.projectOptions.Some?
    requires Candidate(source) in st.projectOptions.value.sourceFiles
    ensures ResolveId(st, paths, source, importer) == Some(FsharpFileRegex.ToJs(Candidate(source)))
  {
  }

  /**
   * A candidate that is not a source file is resolved against the
   * importer's directory, with a leading `/` in the specifier made relative.
   */
  lemma ResolveIdViaImporter(st: State, paths: PathOps, source: string, importer: Option<string>)
    requires EndsWith(source, ".js") && st.projectOptions.Some?
    requires Candidate(source) !in st.projectOptions.value.sourceFiles && HasImporter(importer)
    ensures var relative := if StartsWith(source, "/") then "." + Candidate(source) else Candidate(source);
            var resolved := paths.normalizePath(paths.resolve(paths.dirname(importer.value), relative));
            ResolveId(st, paths, source, importer) ==
              if resolved in st.projectOptions.value.sourceFiles then Some(FsharpFileRegex.ToJs(resolved)) else None
  {
  }

  /**
   * Round trip: the `.js` id of an ordinary source file `stem.fs` resolves
   * back to that same id, whatever the importer.
   */
  lemma ResolveIdOfOwnId(st: State, paths: PathOps, stem: string, importer: Option<string>)
    requires st.projectOptions.Some? && stem + ".fs" in st.projectOptions.value.sourceFiles
    requires forall i :: !OccursAt(stem, ".js", i)
    requires !EndsWith(stem, ".fs")
    ensures ResolveId(st, paths, stem + ".js", importer) == Some(stem + ".js")
  {
    var source := stem + ".js";
    FirstJsIsTrailing(stem);
    assert source[..|source| - 3] == stem;
    if |stem| >= 3 {
      assert source[|source| - 6..] == stem[|stem| - 3..] + ".js";
    }
    assert Candidate(source) == stem + ".fs";
    assert (stem + ".fs")[|stem + ".fs"| - 3..] == ".fs";
    assert (stem + ".fs")[..|stem + ".fs"| - 3] == stem;
  }

  /** A specifier that is not `.js` is never ours: `resolveId("Unrelated.css", null)` is null. */
  lemma ResolveIdIgnoresCss(st: State, paths: PathOps)
    ensures ResolveId(st, paths, "Unrelated.css", None) == None
  {
  }

  /**
   * `resolveId("Foo.js", importer = "/proj/Bar.fs")` with `/proj/Foo.fs` a
   * source file: when the path functions place `Foo.fs` next to the
   * importer, the id is `/proj/Foo.js`.
   */
  lemma ResolveIdRelativeToImporter(st: State, paths: PathOps)
    requires st.projectOptions.Some?
    requires "/proj/Foo.fs" in st.projectOptions.value.sourceFiles
    requires "Foo.fs" !in st.projectOptions.value.sourceFiles
    requires paths.normalizePath(paths.resolve(paths.dirname("/proj/Bar.fs"), "Foo.fs")) == "/proj/Foo.fs"
    ensures ResolveId(st, paths, "Foo.js", Some("/proj/Bar.fs")) == Some("/proj/Foo.js")
  {
    SpecifierFooJs();
    ProjFooId();
    ResolveIdViaImporter(st, paths, "Foo.js", Some("/proj/Bar.fs"));
  }

  /** `Foo.js` is a plain `.js` specifier, not root-relative, whose candidate is `Foo.fs`. */
  lemma SpecifierFooJs()
    ensures EndsWith("Foo.js", ".js") && !StartsWith("Foo.js", "/")
    ensures Candidate("Foo.js") == "Foo.fs"
  {
    var s := "Foo.js";
    assert s[3..6] == ".js";
    forall i | 0 <= i < 3
      ensures !OccursAt(s, ".js", i)
    {
      assert s[i..i + 3][0] == s[i];
    }
    assert !EndsWith(s, ".fs.js") by { assert s[|s| - 6..][0] == 'F'; }
    assert !StartsWith(s, "/") by { assert s[..1][0] == 'F'; }
    assert s[..3] + ".fs" == "Foo.fs";
  }

  /** The `.js` id of `/proj/Foo.fs` is `/proj/Foo.js`. */
  lemma ProjFooId()
    ensures FsharpFileRegex.ToJs("/proj/Foo.fs") == "/proj/Foo.js"
  {
  }

  // ---------------------------------------------------------------- buildStart and load

  /**
   * After buildStart has loaded a project, every id resolveId returns is a
   * key of the cache, so load serves it rather than returning null.
   */
  lemma ResolvedIdIsLoadable(st: State, resp: ProjectResponse, paths: PathOps, source: string, importer: Option<string>)
    requires IsWellShaped(resp)
    ensures var st' := BuildStart(st, resp).state;
            var r := ResolveId(st', paths, source, importer);
            r.Some? ==> Load(st', r.value).Some?
  {
  }

  /** The key buildStart as written uses for `/w/x.fsharp/A.fs`: its first `.fs` is in the directory. */
  lemma AsWrittenKeyOfFsharpDirectory()
    ensures AsWrittenKey("/w/x.fsharp/A.fs") == "/w/x.jsharp/A.fs"
  {
    var f := "/w/x.fsharp/A.fs";
    assert f[4..7] == ".fs";
    forall i | 0 <= i < 4
      ensures !OccursAt(f, ".fs", i)
    {
      assert f[0] == '/' && f[1] == 'w' && f[2] == '/' && f[3] == 'x';
      assert f[i..i + 3][0] == f[i];
    }
    assert f[..4] + ".js" + f[7..] == "/w/x.jsharp/A.fs";
  }

  /** The response of the discrepancy below: one source file in a directory named `x.fsharp`. */
  const FsharpDirectoryResponse: ProjectResponse :=
    ProjectResponse("Success", Some([ProjectOptionsField(ProjectOptions(["/w/x.fsharp/A.fs"])),
                                     CompiledFilesField(map["/w/x.fsharp/A.fs" := "code"])]))

  /** The state buildStart as written leaves for that response: the code sits under `/w/x.jsharp/A.fs`. */
  const AsWrittenFsharpDirectoryState: State :=
    State(Some(ProjectOptions(["/w/x.fsharp/A.fs"])), map["/w/x.jsharp/A.fs" := Some("code")])

  /** buildStart as written, run on that response from the initial state, leaves exactly that state. */
  lemma AsWrittenStateOfFsharpDirectory()
    ensures BuildStartAsWritten(Initial, FsharpDirectoryResponse).state == AsWrittenFsharpDirectoryState
  {
    var f := "/w/x.fsharp/A.fs";
    AsWrittenKeyOfFsharpDirectory();
    var ws := LoadWrites([f], map[f := "code"], AsWrittenKey);
    assert |ws| == 1 && ws[0] == Write(AsWrittenKey(f), Lookup(map[f := "code"], f));
    assert ws == [Write("/w/x.jsharp/A.fs", Some("code"))];
    assert ApplyWrites(map[], ws) == map["/w/x.jsharp/A.fs" := Some("code")];
  }

  /**
   * The discrepancy of buildStart as written: with the source file
   * `/w/x.fsharp/A.fs`, resolveId maps `/w/x.fsharp/A.js` to itself, but
   * the cache holds the code under `/w/x.jsharp/A.fs`, so load returns null.
   */
  lemma AsWrittenBuildStartMissesResolvedId(paths: PathOps)
    ensures var st' := BuildStartAsWritten(Initial, FsharpDirectoryResponse).state;
            && ResolveId(st', paths, "/w/x.fsharp/A.js", None) == Some("/w/x.fsharp/A.js")
            && Load(st', "/w/x.fsharp/A.js") == None
  {
    AsWrittenStateOfFsharpDirectory();
    FsharpDirectoryResolves(paths);
    FsharpDirectoryMisses();
  }

  /** resolveId maps `/w/x.fsharp/A.js` to itself once `/w/x.fsharp/A.fs` is the project's source file. */
  lemma FsharpDirectoryResolves(paths: PathOps)
    ensures ResolveId(AsWrittenFsharpDirectoryState, paths, "/w/x.fsharp/A.js", None) == Some("/w/x.fsharp/A.js")
  {
    FsharpDirectoryStem();
    ResolveIdOfOwnId(AsWrittenFsharpDirectoryState, paths, "/w/x.fsharp/A", None);
  }

  /** The cache buildStart as written leaves has no entry for `/w/x.fsharp/A.js`. */
  lemma FsharpDirectoryMisses()
    ensures Load(AsWrittenFsharpDirectoryState, "/w/x.fsharp/A.js") == None
  {
  }

  /** `/w/x.fsharp/A` contains no `.js` and does not end in `.fs`. */
  lemma FsharpDirectoryStem()
    ensures forall i :: !OccursAt("/w/x.fsharp/A", ".js", i)
    ensures !EndsWith("/w/x.fsharp/A", ".fs")
    ensures "/w/x.fsharp/A" + ".fs" == "/w/x.fsharp/A.fs"
    ensures "/w/x.fsharp/A" + ".js" == "/w/x.fsharp/A.js"
  {
    var stem := "/w/x.fsharp/A";
    forall i | 0 <= i < |stem| - 2
      ensures !OccursAt(stem, ".js", i)
    {
      assert stem[i..i + 3][1] == stem[i + 1];
    }
    assert stem[|stem| - 3..][0] == 'p';
  }

  /** Two identical successive buildStarts leave the same state as one, whatever the cache key. */
  lemma BuildStartWithIdempotent(st: State, resp: ProjectResponse, keyOf: string -> string)
    ensures BuildStartWith(BuildStartWith(st, resp, keyOf).state, resp, keyOf) == BuildStartWith(st, resp, keyOf)
  {
    if IsWellShaped(resp) {
      ApplyWritesIdempotent(st.compilableFiles, LoadWrites(ResponseSourceFiles(resp), ResponseFiles(resp), keyOf));
    }
  }

  /** In particular for buildStart as written and for the corrected buildStart. */
  lemma BuildStartIdempotent(st: State, resp: ProjectResponse)
    ensures BuildStartAsWritten(BuildStartAsWritten(st, resp).state, resp) == BuildStartAsWritten(st, resp)
    ensures BuildStart(BuildStart(st, resp).state, resp) == BuildStart(st, resp)
  {
    BuildStartWithIdempotent(st, resp, AsWrittenKey);
    BuildStartWithIdempotent(st, resp, FsharpFileRegex.ToJs);
  }

  /** Receiving the same compile result twice leaves the same cache as receiving it once. */
  lemma WatchChangeIdempotent(st: State, id: string, compiled: seq<CompiledFile>)
    ensures WatchChange(WatchChange(st, id, compiled).state, id, compiled).state == WatchChange(st, id, compiled).state
  {
    if WatchCompiles(st, id) {
      ApplyWritesIdempotent(st.compilableFiles, CompileWrites(compiled));
    }
  }

  // ---------------------------------------------------------------- handleHotUpdate

  /** A module is collected exactly when some listed file's `.js` id maps to it in the graph. */
  lemma {:induction false} PresentModulesMembership(graph: ModuleGraph, files: seq<string>, m: ModuleNode)
    ensures m in PresentModules(graph, files) <==>
              exists f :: f in files && FsharpFileRegex.ToJs(f) in graph && graph[FsharpFileRegex.ToJs(f)] == m
    decreases |files|
  {
    if |files| > 0 {
      PresentModulesMembership(graph, files[1..], m);
      assert forall f :: f in files <==> f == files[0] || f in files[1..];
    }
  }

  /** Collecting over a concatenation keeps the order: first list's modules, then the second's. */
  lemma {:induction false} PresentModulesAppend(graph: ModuleGraph, a: seq<string>, b: seq<string>)
    ensures PresentModules(graph, a + b) == PresentModules(graph, a) + PresentModules(graph, b)
    decreases |a|
  {
    if |a| == 0 {
      assert a + b == b;
    } else {
      assert (a + b)[0] == a[0];
      assert (a + b)[1..] == a[1..] + b;
      PresentModulesAppend(graph, a[1..], b);
      var js := FsharpFileRegex.ToJs(a[0]);
      var head := if js in graph then [graph[js]] else [];
      assert PresentModules(graph, a + b) == head + PresentModules(graph, a[1..] + b);
      assert PresentModules(graph, a) == head + PresentModules(graph, a[1..]);
    }
  }

  /** No listed file's `.js` id is in the graph: nothing is collected. */
  lemma {:induction false} NoPresentModules(graph: ModuleGraph, files: seq<string>)
    requires forall f :: f in files ==> FsharpFileRegex.ToJs(f) !in graph
    ensures PresentModules(graph, files) == []
    decreases |files|
  {
    if |files| > 0 {
      assert files[0] in files;
      NoPresentModules(graph, files[1..]);
    }
  }

  /** Every module handleHotUpdate returns is one of the host's or one the graph holds for a downstream file. */
  lemma HotUpdateReturnsKnownModules(st: State, file: string, graph: ModuleGraph, modules: seq<ModuleNode>, m: ModuleNode)
    requires FsharpFileRegex.Test(file) && st.projectOptions.Some?
    requires m in HandleHotUpdate(st, file, graph, modules).value.returned
    ensures m in modules ||
            exists f :: f in Downstream(st.projectOptions.value.sourceFiles, file) &&
                        FsharpFileRegex.ToJs(f) in graph && graph[FsharpFileRegex.ToJs(f)] == m
  {
    var sf := st.projectOptions.value.sourceFiles;
    JsArray.FilterIndexAtLeastIsSuffix(sf, JsArray.IndexOf(sf, file));
    PresentModulesMembership(graph, Downstream(sf, file), m);
  }

  /** Source files A, B, C, in compile order. */
  const ScenarioFiles: seq<string> := ["A.fs", "B.fs", "C.fs"]

  /** A change to the first file invalidates all three; a change to the last only itself. */
  lemma DownstreamScenario()
    ensures Downstream(ScenarioFiles, "A.fs") == ["A.fs", "B.fs", "C.fs"]
    ensures Downstream(ScenarioFiles, "B.fs") == ["B.fs", "C.fs"]
    ensures Downstream(ScenarioFiles, "C.fs") == ["C.fs"]
    ensures Downstream(ScenarioFiles, "D.fs") == ScenarioFiles
  {
    var sf := ScenarioFiles;
    assert "A.fs"[0] == 'A' && "B.fs"[0] == 'B' && "C.fs"[0] == 'C' && "D.fs"[0] == 'D';
    assert JsArray.IndexOf(sf, "A.fs") == 0;
    assert JsArray.IndexOf(sf, "B.fs") == 1;
    assert JsArray.IndexOf(sf, "C.fs") == 2;
    assert "D.fs" !in sf;
  }

  /** Nothing the graph knows among the downstream files: the host's modules come back, nothing is sent. */
  lemma HotUpdateFallsBackToHostModules(st: State, file: string, graph: ModuleGraph, modules: seq<ModuleNode>)
    requires FsharpFileRegex.Test(file) && st.projectOptions.Some?
    requires forall f :: f in st.projectOptions.value.sourceFiles ==> FsharpFileRegex.ToJs(f) !in graph
    ensures HandleHotUpdate(st, file, graph, modules) == Some(HotUpdateResult(modules, None))
  {
    var sf := st.projectOptions.value.sourceFiles;
    NoPresentModules(graph, Downstream(sf, file));
  }
}
