# vite-plugin-fable: plugin state and hook logic

A Dafny model of the in-memory state and the decision logic of the Vite
plugin that serves Fable-compiled F# as virtual JavaScript modules
(`index.js`). The state is the loaded project's ordered `sourceFiles` list
(held in `projectOptions`, `null` until a project is loaded) and the
`compilableFiles` cache from `.js` module id to compiled code. The five
hooks that read or change it are pure functions from (state, inputs) to
(state', output):

- **buildStart** fills the state from the daemon's tagged `fable/init` reply;
- **resolveId** turns a requested `.js` specifier into an F# candidate path,
  falls back to resolving it against the importer's directory, accepts it only
  if it is a project source file, and maps it back to a `.js` id;
- **load** looks an id up in the cache;
- **watchChange** merges a compile result into the cache;
- **handleHotUpdate** picks the changed file and every later source file,
  keeps those the host's module graph knows, and decides what to return and
  what to send to the client.

The JavaScript primitives the hooks rest on are modelled with their exact
semantics on the strings the hooks pass: `String.prototype.replace` with a string pattern replaces only the
first occurrence (`JsString.ReplaceFirst`); `/\.(fs|fsi)$/` is a left-to-right
regex search whose `$` anchors at the end of the string
(`FsharpFileRegex.Test` / `Replace`); `Array.prototype.indexOf` returns -1 for
a missing element and `filter((f, idx) => idx >= k)` keeps a suffix
(`JsArray`). A cache update is a sequence of `Map.set` calls in which the last
write to a key wins (`ArtifactCache.ApplyWrites`).

The compiler daemon, the host's module graph and Node's path functions enter
as inputs: the `fable/init` reply is a `ProjectResponse`, the `fable/compile`
reply is the list of `CompiledFile`s in `Object.keys` order, the module graph
is a map from id to `ModuleNode`, and `path.dirname`, `path.resolve` and
`normalizePath` are the uninterpreted functions of a `PathOps` value. What the
source sends (the `fable/compile` request, the ids handed to `this.load`, the
`hot-update-dependents` message) is returned as part of the output.

`index.js` never clears or removes a cache entry; `Plugin.Step` proves that no
hook removes a key. watchChange does not handle a failed compile: a rejected
`fable/compile` request or a reply without `compiledFSharpFiles` throws before
any write, so the cache is left as it was. `Plugin.Step`
runs buildStart as `index.js` writes it (`Plugin.BuildStartAsWritten`). The
corrected `Plugin.BuildStart` of the finding below is used only to state the
intended property `HookProperties.ResolvedIdIsLoadable`; both are instances
of `Plugin.BuildStartWith`, whose cache-key function is a parameter.

Files: `wrappers.dfy` (Option), `js_string.dfy`, `fsharp_file_regex.dfy`,
`js_array.dfy`, `artifact_cache.dfy`, `plugin.dfy` (state, hooks, `Step`),
`hook_properties.dfy` (properties relating the hooks).

## Model

| member | source | states |
|---|---|---|
| JsString.IndexOf | index.js:63-64 | the search `replace` performs: -1 exactly when the pattern occurs nowhere, otherwise an occurrence with none before it |
| JsString.ReplaceFirst | index.js:63-64 | replace with a string pattern: unchanged when the pattern does not occur, otherwise only the first occurrence is replaced and everything before and after it is kept |
| JsString.TrimEnd | index.js:63 | `trimEnd` yields a prefix, removes only ECMAScript white space and line terminators, and leaves no trailing white space |
| JsString.TrimEndNoOp | index.js:62-63 | `trimEnd` is the identity when the last character is not white space, as for a `.fs.js` name |
| JsString.ReplaceFirstOfSoleSuffix | index.js:63-64 | when the only occurrence of the pattern ends the string, replace rewrites just that suffix |
| JsString.ReplaceFirstKeepsLaterOccurrence | index.js:64 | only the first `.js` of `a.js.js` becomes `.fs` |
| FsharpFileRegex.FirstMatchFrom | index.js:7 | the regex engine's leftmost-match search: a match position with no match before it, or -1 when no position matches |
| FsharpFileRegex.Test | index.js:7 | `fsharpFileRegex.test(s)` holds exactly when `s` ends in `.fs` or `.fsi` (the test of index.js:99 and 121) |
| FsharpFileRegex.Replace | index.js:82 | `s.replace(fsharpFileRegex, r)` turns a trailing `.fs` or `.fsi` into `r` and leaves any other string unchanged (also index.js:108 and 129) |
| FsharpFileRegex.MatchPositions | index.js:7 | because `$` anchors at the end, a match starts three characters before the end of a `.fs` name or four before the end of a `.fsi` name |
| FsharpFileRegex.ToJsLeavesFsharp | index.js:108 | rewriting an F# file name gives a name ending in `.js` that the regex no longer recognises |
| JsArray.IndexOf | index.js:122 | `indexOf` is -1 exactly for a missing element, otherwise the index of its first occurrence |
| JsArray.FilterIndexAtLeastIsSuffix | index.js:123-125 | the index filter keeps the whole list for a bound of -1 or 0, and exactly `s[k..]` for an index `k` in range |
| JsArray.KeepIndexAtLeastIsSuffix | index.js:123-125 | the filter's callback, run with indices counted from `base`, keeps the suffix from `k - base` |
| ArtifactCache.ApplyWrites | index.js:47-51 | a sequence of `Map.set` calls adds exactly the written keys, leaves each written key with its last write, and keeps every other entry |
| ArtifactCache.ApplyWritesIdempotent | index.js:47-51 | performing the same writes a second time changes nothing |
| Plugin.BuildStartWith | index.js:36-54 | for any cache-key function: a reply is used exactly when it is a two-field Success of options and compiled files; then the options are recorded, the cache gains exactly one key per source file, each key holds the code of the last source file with that key (or none), and every other entry is kept; otherwise the state is unchanged; no key is ever removed |
| Plugin.BuildStartAsWritten | index.js:34-55 | buildStart as written: project options recorded; each source file's code bound under its name with the first `.fs` turned into `.js` (last file wins on a shared key); other entries kept; any other reply changes nothing |
| Plugin.BuildStart | index.js:34-55 | buildStart with the trailing-extension key used by the other hooks: project options recorded; each source file's code bound under its `.js` id (last file wins on a shared key); other entries kept; any other reply changes nothing |
| Plugin.Candidate | index.js:62-64 | a `.fs.js` specifier loses its first `.js` (and is the `.fs` file when that `.js` is the trailing one); any other specifier has its first `.js` turned into `.fs` (only the extension changes when that is the trailing one) |
| Plugin.FinalCandidate | index.js:68-78 | when the direct candidate is a source file or no truthy importer is given, the membership test uses the candidate itself |
| Plugin.ResolveId | index.js:56-86 | `null` for a non-`.js` specifier; a result is always some source file with its trailing `.fs`/`.fsi` turned into `.js`; the result is `null` exactly when the final candidate is not a source file |
| Plugin.Load | index.js:87-93 | `null` exactly for an id not in the cache, otherwise `{ code }` with exactly the stored code |
| Plugin.WatchChange | index.js:94-119 | no change without a project, for an `.fsproj` or for a non-F# id; otherwise each returned file's code lands under its `.js` id (a later key wins on a shared id), every other entry and the project options are kept, the compile request names the id, and the written ids are reloaded in key order |
| Plugin.Downstream | index.js:122-125 | the source files from the first occurrence of the changed file on, starting with that file; the whole list for a file that is not a source file |
| Plugin.PresentModules | index.js:127-132 | at most one module per listed file, each one a module of the graph |
| Plugin.HandleHotUpdate | index.js:120-144 | `undefined` exactly for a non-F# file; otherwise the graph's modules for the changed file's suffix of `sourceFiles` (the whole list for an unknown file) are returned and their urls sent, or the host's modules are returned and nothing sent when there are none |
| Plugin.Step | index.js:32-144 | with buildStart as written: resolveId, load and handleHotUpdate leave the state unchanged; only buildStart changes the project options and never unloads a project; no hook removes a cache entry |
| HookProperties.JsOccurrenceInStem | index.js:64 | an occurrence of `.js` in `stem + ".js"` that starts inside `stem` lies wholly inside `stem` |
| HookProperties.FirstJsIsTrailing | index.js:64 | for `stem + ".js"` with no `.js` in `stem`, the first `.js` is the trailing one |
| HookProperties.CandidateRewritesFirstJs | index.js:64 | in `x.js/A.js` the directory's `.js` is rewritten, giving `x.fs/A.js` |
| HookProperties.ResolveIdDirectHit | index.js:68-82 | when the direct candidate is a source file the importer is not consulted and its `.js` id is returned |
| HookProperties.ResolveIdViaImporter | index.js:68-85 | otherwise, with a truthy importer, the candidate is resolved against the importer's directory (a leading `/` made relative by a `.` prefix) and accepted only if that path is a source file |
| HookProperties.ResolveIdOfOwnId | index.js:56-86 | round trip: the `.js` id of an ordinary source file `stem.fs` resolves to that same id, whatever the importer |
| HookProperties.ResolveIdIgnoresCss | index.js:58 | `Unrelated.css` resolves to `null` |
| HookProperties.ResolveIdRelativeToImporter | index.js:68-82 | `Foo.js` imported from `/proj/Bar.fs` resolves to `/proj/Foo.js` when the path functions place `Foo.fs` in `/proj` |
| HookProperties.ResolvedIdIsLoadable | index.js:34-93 | after buildStart loads a project, load serves every id resolveId returns |
| HookProperties.AsWrittenKeyOfFsharpDirectory | index.js:49 | buildStart as written keys `/w/x.fsharp/A.fs` as `/w/x.jsharp/A.fs` |
| HookProperties.AsWrittenStateOfFsharpDirectory | index.js:34-55 | the state buildStart as written leaves for a project whose one source file is `/w/x.fsharp/A.fs` |
| HookProperties.AsWrittenBuildStartMissesResolvedId | index.js:49 | after buildStart as written, resolveId returns `/w/x.fsharp/A.js` but load returns `null` for it |
| HookProperties.FsharpDirectoryResolves | index.js:56-86 | resolveId maps `/w/x.fsharp/A.js` to itself when `/w/x.fsharp/A.fs` is the source file |
| HookProperties.FsharpDirectoryMisses | index.js:87-88 | load finds nothing under `/w/x.fsharp/A.js` in that state |
| HookProperties.BuildStartWithIdempotent | index.js:36-54 | for any cache-key function, two identical successive buildStarts leave the same state and outcome as one |
| HookProperties.BuildStartIdempotent | index.js:34-55 | the same for buildStart as written and for the corrected buildStart |
| HookProperties.WatchChangeIdempotent | index.js:94-119 | receiving the same compile result twice leaves the same state as receiving it once |
| HookProperties.PresentModulesMembership | index.js:128-132 | a module is collected exactly when the graph holds it for the `.js` id of one of the listed files |
| HookProperties.PresentModulesAppend | index.js:128-132 | collecting over two lists in turn gives the first list's modules followed by the second's, so the collected modules keep `sourceFiles` order |
| HookProperties.NoPresentModules | index.js:128-132 | when the graph knows none of the listed files' `.js` ids, nothing is collected |
| HookProperties.HotUpdateReturnsKnownModules | index.js:128-142 | every returned module is either one of the host's modules or the graph's module for a downstream file |
| HookProperties.DownstreamScenario | index.js:122-125 | with `A.fs, B.fs, C.fs`, a change to `A.fs` selects all three, to `B.fs` the last two, to `C.fs` only itself, and an unknown file all three |
| HookProperties.HotUpdateFallsBackToHostModules | index.js:133-142 | when the graph knows none of the source files, the host's modules are returned and nothing is sent |

## Left out

- Spawning the .NET daemon, building the JSON-RPC endpoint and killing the process in buildEnd (index.js:1-18, 145-147): process I/O. The daemon's replies are inputs instead.
- The `endpoint.send` calls (index.js:20-25, 101-103): the request is not modelled for `fable/init`; for `fable/compile` the requested file name is returned in `Recompiled`.
- The `this.load` re-invocation and `Promise.all` (index.js:114-116): a call into the host; the ids it is called with are returned instead.
- `server.ws.send` (index.js:134-138): a call into the host; the payload is returned as `WsPayload`.
- `console` logging: not behaviour.
- The commented-out `addWatchFile` calls (index.js:43-48): no behaviour.
- `path.dirname`, `path.resolve` and `normalizePath` (index.js:70-76): left uninterpreted as the fields of `PathOps`; the properties hold for every choice of them.
- Interleaving of the async hooks: each hook runs to completion in one step, so a hook running while watchChange awaits the daemon is not modelled.
- Plugin.BuildStart: a two-field Success whose fields are not (project options, compiled-files object) is modelled as the `Malformed` outcome with the state unchanged, whereas the source first assigns `projectOptions` and then fails with a TypeError or reads `undefined` codes; JSON values of the wrong shape are not modelled.
- Plugin.BuildStartAsWritten: the same simplification for a two-field Success of the wrong shape.
- Plugin.BuildStartWith: the same simplification, which both buildStart variants inherit from it.
- Plugin.WatchChange: the compile reply is taken as its list of (file, code) entries; a reply without `compiledFSharpFiles` (index.js:105-106) and a rejected `fable/compile` request (index.js:101), on both of which the source throws before any write, are not modelled.
- Plugin.ResolveId: a `.js` specifier before any project is loaded is excluded by the precondition, because the source dereferences `projectOptions` unchecked (index.js:68) and throws.
- Plugin.HandleHotUpdate: an F# file before any project is loaded is excluded by the precondition, for the same reason (index.js:122).
- Strings are sequences of Unicode code points, not UTF-16 code units: `JsString.IndexOf` counts code points and a lone surrogate cannot be represented; every pattern and replacement the hooks use is ASCII, so their results are unaffected.
- JavaScript replacement patterns (`$&` and the like) in `replace`: the plugin's replacement strings contain no `$`.
- The `PluginState` fields `config`, `pendingChanges`, `hotPromiseWithResolvers`, `dependentFiles` and `configuration` (types.d.ts:41-54), the `PendingChangesState` type (types.d.ts:72-76) and the `jsx` option of `PluginOptions` (types.d.ts:36): declared in types.d.ts and never used by index.js, so there is no behaviour to model.
- install.js (runtime selection and `dotnet publish`), docs/scripts/command.js (a web component) and sample-project/vite.config.js (configuration): not part of this model.

## Findings

| source | as written | input that shows it | evidently intended | confidence | as-written member | corrected member |
|---|---|---|---|---|---|---|
| index.js:49 | buildStart keys each file by `file.replace(".fs", ".js")`, which rewrites the first `.fs` anywhere in the path | source file `/w/x.fsharp/A.fs`: the code is stored under `/w/x.jsharp/A.fs`, resolveId returns `/w/x.fsharp/A.js`, and load returns `null` for it | the trailing rewrite `file.replace(fsharpFileRegex, ".js")` that resolveId, watchChange and handleHotUpdate use (index.js:82, 108, 129) | medium, not executed | HookProperties.AsWrittenBuildStartMissesResolvedId | HookProperties.ResolvedIdIsLoadable |
