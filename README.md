# LuaPack core, modelled in Dafny

LuaPack bundles a Lua program into one file. It starts from an entry file and works through these stages:

- It resolves every `require('…')` id to a file. The ignore set is tried first, then overrides, then the current directory, the source root and the external roots. Each candidate is probed as `X.lua`, then `X/init.lua`.
- It builds the dependency graph with a visited-set depth-first walk.
- It orders the graph with a three-colour topological sort that rejects cycles.
- It emits a Lua bundle: a table of module loaders plus a caching `custom_require` shim. It can encode the result as `string.char` blocks.

Around that pipeline the model also covers:

- the configuration layer: default output path, CLI merge, path normalisation, analysis context and packer normalisation;
- the external roots taken from environment variables;
- the CLI's toggle and env-option parsers;
- the logger's level state machine;
- the data structures behind the analysis report: the folder tree, labels and tags, the alert sections, the external summary, and the line layout of the tree and topological-order sections.

## How the model is built

- **The filesystem** is a value, `map<AbsPath, string>`: a file exists when its path is a key.
- **Paths** are normalised absolute paths, written as segment lists. `path.resolve`, `relative`, `dirname`, `basename` and `extname` are functions on them, with POSIX semantics.
- **Dynamic JavaScript values** (config objects, CLI options, obfuscation sections) are `JsValues.Json`. Truthiness, `??` and `||` are written out.
- **Thrown errors** are `JsError(message, code)`.
- **Stateful objects** are classes whose fields the methods update: the resolver, the analyzer with its `visited`, `missingRecords` and `errors`, the two analysis pipelines, the logger, and the Lua runtime's module cache.
- **Loops** are methods with invariants. Each is proved against a specification function, and the properties are then proved about that function. Examples: the visit loop of the sort, the require loop of the graph builder, the bundle's module loop, the warning and error deduplication loops, and the line-building loops of the report sections.
- **Pure code** is functions and lemmas. This covers the resolver's name derivation, the env parsing, the config merges and the label, tag and tree functions.

The obfuscator and the runtime are specified at this level:

- The Lua runtime semantics of the emitted `custom_require` are modelled by `Bundle.LuaRuntime`: a table of loaders plus the bundle's local `require_cache` table.
- The ASCII obfuscator is specified by a parse-back of its `string.char` blocks and by Lua's byte-level `string.char`. This gives a round trip to the module's UTF-8 text exactly for ASCII modules.

Two behaviours the model keeps exactly as the code has them:

- A root-level `init.lua` inside the source root gets the module name `init`, whatever the fallback id. The fallback branch of `deriveModuleName` is reachable only for a file outside the root (src/ModuleResolver.js:128-142). `Resolution.ModuleResolver.DeriveModuleNameInSource` states what the code does.
- `getObfuscationConfig` in the JavaScript pipeline stores the tool under the key `ool` (src/analysis/AnalysisPipeline.js:137-147). `PipelineJs.ObfuscationSummary` keeps that field name.

## Model

| member | source | states |
|---|---|---|
| Resolution.NormalizeModuleId | src/ModuleResolver.js:17-19 | same length as the id, no backslash left, every other character kept in place |
| Resolution.NormalizeModuleIdIdempotent | src/ModuleResolver.js:17-19 | normalising twice equals normalising once |
| Resolution.CreateIgnoredRecord | src/ModuleResolver.js:87-97 | the ignored record: no file path, `isIgnored` true, dependencies not analysed, name equal to the id |
| Resolution.ModuleResolver.constructor | src/ModuleResolver.js:5-15 | the ignore set is the normalised ids of the ignored list; roots and overrides are stored as given |
| Resolution.ModuleResolver.IsWithinSourceIff | src/ModuleResolver.js:152-155 | a path is within the source root iff the root is a prefix and the relative path does not start with `..` |
| Resolution.ModuleResolver.DeriveModuleNameInSource | src/ModuleResolver.js:128-150 | for a file below the source root: its segments joined with `.`, `.lua` stripped from the last, a last `init` dropped when it has a parent, and a root-level `init.lua` named `init` whatever the fallback |
| Resolution.ModuleResolver.ResolveOverridePath | src/ModuleResolver.js:79-85 | the override path with `.lua` stripped, resolved against the source root; an absolute path is normalised rather than kept as written (see Left out) |
| Resolution.ModuleResolver.TryPath | src/ModuleResolver.js:157-167 | `base.lua` if it exists, else `base/init.lua` if it exists, else none |
| Resolution.ModuleResolver.Candidates | src/ModuleResolver.js:45-56 | the current directory joined with the id, then the source root, then each external root in configured order (relative ones against the source root) |
| Resolution.ModuleResolver.FirstHit | src/ModuleResolver.js:58-67 | the first candidate `TryPath` accepts, with every earlier candidate rejected; none iff every candidate is rejected |
| Resolution.ModuleResolver.AnalyzeDependencies | src/ModuleResolver.js:106-116 | an override's boolean `recursive` wins; otherwise, for an external module, a boolean `external.recursive`; otherwise true |
| Resolution.ModuleResolver.CreateRecord | src/ModuleResolver.js:99-126 | the record's path, name, `isExternal == !isWithinSource`, override flag and recursion flag |
| Resolution.ModuleResolver.CreateEntryRecord | src/ModuleResolver.js:72-77 | the entry record for a path: no override, the name derived with its own derived name as fallback, and, inside the source root, analysed and not external |
| Resolution.ModuleResolver.ResolveSpecProps | src/ModuleResolver.js:21-70 | an ignored id gives the ignored record before overrides or search; an override with a path probes only that path and fails with "Override path for module … not found"; otherwise the first accepted candidate wins, else "Module not found: <id>" |
| Resolution.ModuleResolver.Resolve | src/ModuleResolver.js:21-70 | `resolve` returns exactly the specified resolution, ResolveSpec, whose properties ResolveSpecProps proves |
| RequireScan.MatchAt | src/DependencyAnalyzer.js:110-118 | a match at a position starts with `require` and captures a non-empty run of `[\w./-]` characters |
| RequireScan.ScanFrom | src/DependencyAnalyzer.js:110-118 | every id the global search yields is a well-formed require id |
| RequireScan.ScanLeftmost | src/DependencyAnalyzer.js:110-118 | the search reports the leftmost match first, then resumes after its end (source order, duplicates kept) |
| RequireScan.ScanNone | src/DependencyAnalyzer.js:110-118 | text with no match yields no ids |
| RequireScan.SingleRequire | src/DependencyAnalyzer.js:110-118 | `require('x')` yields exactly `[x]` for any well-formed id |
| DependencyAnalysis.DependencyAnalyzer.constructor | src/DependencyAnalyzer.js:6-12 | the analyzer starts with no visited paths, no missing records and no errors |
| DependencyAnalysis.DependencyAnalyzer.FindDependencies | src/DependencyAnalyzer.js:110-118 | the scanner's loop returns the ids of the regular-expression search, in order |
| DependencyAnalysis.DependencyAnalyzer.BuildDependencyGraph | src/DependencyAnalyzer.js:14-29 | succeeds exactly when the depth-first walk `Walk` from the entry record succeeds, and then returns that walk's graph, keys in pre-order; a failure is the walk's error; on success the graph is a graph of the entry record (entry first, nodes built from their files' requires, closed under edges, every key reached from an earlier key) and `visited` equals its keys; an error is never MODULE_NOT_FOUND |
| DependencyAnalysis.DependencyAnalyzer.BuildGraph | src/DependencyAnalyzer.js:31-108 | each path is expanded at most once; the graph grows by the record's node and its recursable dependencies; null, ignored and path-less records get no node; `errors` is the fatal missing entries; it fails exactly when `Walk` fails, with the same error, and otherwise ends with `Walk`'s graph |
| DependencyAnalysis.DependencyAnalyzer.BuildChildren | src/DependencyAnalyzer.js:105-107 | the loop over a node's dependencies fails exactly when `WalkChildren` fails, with its error, and otherwise ends with its graph |
| DependencyAnalysis.Walk | src/DependencyAnalyzer.js:31-108 | the depth-first walk on values; a successful walk keeps the graph valid and only adds keys |
| DependencyAnalysis.ExpandableOk | src/DependencyAnalyzer.js:51-98 | one record's expansion succeeds iff its file reads and each of its requires is accepted |
| DependencyAnalysis.WalkSucceeds | src/DependencyAnalyzer.js:31-108 | the walk succeeds when every record reachable through require chains from the start can be expanded |
| DependencyAnalysis.WalkFails | src/DependencyAnalyzer.js:31-108 | a failed walk has a require chain from the start to a record whose own expansion gives the walk's error |
| DependencyAnalysis.WalkErrorCause | src/DependencyAnalyzer.js:31-108 | the error of a failed walk is a read error of a reachable file missing from the file system, or a non-MODULE_NOT_FOUND resolver error of one of its requires |
| DependencyAnalysis.DependencyAnalyzer.ExpandRequireIds | src/DependencyAnalyzer.js:54-98 | the require loop succeeds iff every id is accepted; its edges and missing entries are those of the specification |
| DependencyAnalysis.DependencyAnalyzer.ResolveRequire | src/DependencyAnalyzer.js:56-97 | one require: ignored results are dropped, missing ones kept as edges and recorded, MODULE_NOT_FOUND recorded with `fatal = !ignoreMissing`, any other error propagated |
| DependencyAnalysis.ExpandRequiresProps | src/DependencyAnalyzer.js:54-98 | over all ids: the expansion succeeds iff each is accepted; an error is a non-MODULE_NOT_FOUND resolver error; each missing entry names the requiring record, and it is fatal only for MODULE_NOT_FOUND without `ignoreMissing` |
| DependencyAnalysis.ShownResolverNeverMissing | src/DependencyAnalyzer.js:55-98 | with the resolver of src/ModuleResolver.js nothing is ever recorded missing, and the expansion succeeds iff every id resolves |
| DependencyAnalysis.NeverMissing | src/DependencyAnalyzer.js:55-98 | over resolutions that never report MODULE_NOT_FOUND nor a missing record, the missing list stays empty |
| DependencyAnalysis.ResolveSpecShape | src/ModuleResolver.js:21-70 | the resolver's errors carry no code, and it never returns a record flagged missing |
| DependencyAnalysis.DependencyAnalyzer.TopologicalSort | src/DependencyAnalyzer.js:120-158 | on success: each node's module exactly once, every dependency before its dependant, no cycle, and the entry last in a rooted graph; on failure: a cycle through the reported path and "Circular dependency detected: <path>" |
| DependencyAnalysis.SortedOrder | src/DependencyAnalyzer.js:151-157 | after the outer loop the emitted order is a topological order that covers every key |
| DependencyAnalysis.AllKeysVisited | src/DependencyAnalyzer.js:100-107 | in a rooted graph, a finished set that holds the entry holds every key |
| TopologicalOrder.Visit | src/DependencyAnalyzer.js:125-149 | visiting keeps the order invariant and finishes the path, or returns a cycle with "Circular dependency detected" |
| TopologicalOrder.VisitDeps | src/DependencyAnalyzer.js:137-142 | after the dependency loop every edge target of the path is finished |
| TopologicalOrder.CycleFromStack | src/DependencyAnalyzer.js:126-128 | reaching a path on the walk stack closes a cycle |
| TopologicalOrder.FinishKeepsOrder | src/DependencyAnalyzer.js:144-148 | appending a path whose dependencies are all emitted keeps the order topological |
| TopologicalOrder.NoCycle | src/DependencyAnalyzer.js:120-158 | an order in which every edge points backwards rules out every cycle |
| Env.NormalizeEnvNames | src/utils/env.js:3-10 | none for a non-array; otherwise trimmed, non-empty names only |
| Env.NormalizedNamesTrimmed | src/utils/env.js:3-10 | every name is trimmed and non-empty |
| Env.NormalizedNamesExact | src/utils/env.js:3-10 | the names are exactly the trimmed non-empty string entries, in order |
| Env.SplitEnvValue | src/utils/env.js:12-17 | `[]` for a non-string or `''`; otherwise pieces without `;` whose join with `;` is the value |
| Env.CutPattern | src/utils/env.js:24-25 | the text before the first `?`, the whole text when there is none |
| Env.StripTrailingSeps | src/utils/env.js:31 | a prefix of the text that ends in neither `/` nor `\` |
| Env.NormalizeEnvEntry | src/utils/env.js:19-42 | none iff the trimmed, cut and stripped stem is empty; an absolute stem is kept; a relative one is resolved against the source root or cwd |
| Env.EnvNames | src/utils/env.js:45-47 | the defaults `['LUA_PATH']` without explicit configuration; an explicit array, even empty, is used as given |
| Env.ResolveExternalEnv | src/utils/env.js:44-82 | `hasExplicitConfig` iff the config is an array; the names, the per-name lists and the overall list are the specified ones |
| Env.ResolveEntries | src/utils/env.js:58-70 | the per-name loop produces the normalised entries of each variable, in name order |
| Env.PathsByEnvProps | src/utils/env.js:53-74 | every listed name gets an entry, even when unset; each list is that variable's normalised paths |
| Env.PathsForProps | src/utils/env.js:63-65 | each per-name list is duplicate-free, keeps first occurrences in order and has the entries' elements |
| Env.AllPathsProps | src/utils/env.js:66-69 | `allPaths` is duplicate-free in first-seen order across names |
| Env.AllEntriesUnion | src/utils/env.js:50-51 | `allPaths` as a set is the union of the per-name lists |
| Env.UnsetVariable | src/utils/env.js:57 | an unset variable contributes an empty list |
| Bundle.PropOrFalse | src/BundleGenerator.js:57 | a config flag reads as false unless present and truthy |
| Bundle.MinifyGating | src/BundleGenerator.js:55-67 | the minifier runs iff the tool is `internal` and `minify` or `renameVariables` is truthy; `renameVariables` turns on both RenameVariables and RenameGlobals |
| Bundle.BundleModulesOk | src/BundleGenerator.js:47-70 | the module loop succeeds iff every record with a file can be read |
| Bundle.BundleModulesKeys | src/BundleGenerator.js:47-52 | the table keys are the names of the records with a file, deduplicated in first-seen order; path-less records are skipped |
| Bundle.BundleModulesLastWins | src/BundleGenerator.js:69 | for a shared name, the last record's text is emitted |
| Bundle.BundleStops | src/BundleGenerator.js:47-70 | a read failure stops the loop with that error |
| Bundle.Entries | src/BundleGenerator.js:6-8 | one `["name"] = function(...) … end,` entry per key, in order |
| Bundle.TemplateShape | src/BundleGenerator.js:5-38 | the bundle starts with the module table and ends with `require("<entry>")` |
| Bundle.TemplateHasEntry | src/BundleGenerator.js:5-8 | each module's content appears verbatim inside its entry, in key order |
| Bundle.GenerateBundle | src/BundleGenerator.js:44-75 | the generated text is the template over the bundled modules; a read error propagates |
| Bundle.RequireSound | src/BundleGenerator.js:17-30 | `custom_require` returns a truthy cached value; raises "<position>Module '<name>' not found.", with Lua's `<chunk>:<line>: ` position in front, for an unknown name and leaves the cache alone; otherwise runs the loader and caches its result |
| Bundle.RequireTwiceRunsOnce | src/BundleGenerator.js:17-30 | a loader with a truthy result runs once across two requires |
| Bundle.FalsyLoaderReruns | src/BundleGenerator.js:17-30 | a loader returning nil or false runs again on the next require |
| Bundle.LuaRuntime.constructor | src/BundleGenerator.js:15-30 | the runtime starts with the table's loaders, the error position of `custom_require` and an empty `require_cache` |
| Bundle.LuaRuntime.CustomRequire | src/BundleGenerator.js:17-30 | the stateful require returns and caches exactly what the specification says |
| AsciiObfuscation.Code | src/obfuscation/AsciiObfuscator.js:3 | a character's UTF-16 code unit |
| AsciiObfuscation.Codes | src/obfuscation/AsciiObfuscator.js:3 | one code per character, in order |
| AsciiObfuscation.ChunksPartition | src/obfuscation/AsciiObfuscator.js:7-10 | blocks of 1 to 200 codes, ⌈n/200⌉ of them, whose concatenation is the code list |
| AsciiObfuscation.SourceBuilderShape | src/obfuscation/AsciiObfuscator.js:12-15 | one block is used directly; any other count, including zero, is wrapped in `table.concat({ … })` |
| AsciiObfuscation.WrapperEnds | src/obfuscation/AsciiObfuscator.js:17-20 | the wrapper loads the source under the given name and ends with `return __lp_chunk(...)` |
| AsciiObfuscation.Encode | src/obfuscation/AsciiObfuscator.js:2-21 | the encoder's loop builds the blocks of the specification and wraps them |
| AsciiObfuscation.ChunkRoundTrip | src/obfuscation/AsciiObfuscator.js:8 | parsing a block's comma-joined decimal codes gives the codes back |
| AsciiObfuscation.ParseJoinedCodes | src/obfuscation/AsciiObfuscator.js:8 | parsing a joined code list gives the list back |
| AsciiObfuscation.StringChar | src/obfuscation/AsciiObfuscator.js:8 | Lua's `string.char`: one byte per code, failing iff some code is above 255 |
| AsciiObfuscation.Utf8 | src/obfuscation/AsciiObfuscator.js:2-3 | the module file's UTF-8 bytes: at least one per character, exactly one per character iff the text is ASCII |
| AsciiObfuscation.StringCharAppend | src/obfuscation/AsciiObfuscator.js:12-15 | `string.char` over two code lists joined is the join of the two results, and fails iff either does |
| AsciiObfuscation.RebuildFlat | src/obfuscation/AsciiObfuscator.js:12-18 | joining the blocks' `string.char` results with `table.concat` is `string.char` of the whole code list |
| AsciiObfuscation.StringCharOfCodes | src/obfuscation/AsciiObfuscator.js:3-9 | `string.char` of the code list is the module's UTF-8 text iff the module is ASCII, and fails when a character is above 255 |
| AsciiObfuscation.EncodeRoundTrip | src/obfuscation/AsciiObfuscator.js:2-21 | each block reads back as its codes and the blocks concatenate to the code list; the text `load` receives is the module's UTF-8 text iff the module is ASCII; a character above 255 makes it fail |
| ModuleCollections.EdgeOf | src/analysis/core/ModuleCollectionBuilder.ts:36-43 | an edge keeps the record's id and name, booleanised flags, and a null file path when there is none |
| ModuleCollections.EdgesAreValidDeps | src/analysis/core/ModuleCollectionBuilder.ts:30-48 | a node's edges are its valid dependencies, in order |
| ModuleCollections.BuildModuleCollections | src/analysis/core/ModuleCollectionBuilder.ts:17-62 | the module map, the edge map, `modules` as the map's non-missing values, and `externals` as their external subset |
| ModuleCollections.CollectDependencies | src/analysis/core/ModuleCollectionBuilder.ts:29-48 | the dependency loop collects each valid dependency's edge and inserts it into the map only when absent |
| ModuleCollections.AddDependenciesGet | src/analysis/core/ModuleCollectionBuilder.ts:45-47 | a dependency never overwrites an existing entry, and its first occurrence wins |
| ModuleCollections.ModuleMapLookup | src/analysis/core/ModuleCollectionBuilder.ts:21-51 | `moduleMap[id]` is the last node with that id, else the first dependency with it; nodes without a string id are skipped |
| ModuleCollections.DependencyGraphKeys | src/analysis/core/ModuleCollectionBuilder.ts:50 | the graph's keys are the valid nodes' ids, deduplicated in insertion order |
| ModuleCollections.DependencyGraphValues | src/analysis/core/ModuleCollectionBuilder.ts:50 | each id's edges are those of the last node with that id |
| ModuleCollections.ModulesAndExternals | src/analysis/core/ModuleCollectionBuilder.ts:53-54 | `modules` are the map's values minus missing records; `externals` are exactly the members with `isExternal` |
| ConfigContext.EntriesOf | src/analysis/context/ConfigContextBuilder.ts:21-26 | the entries of a name-to-paths object, in key order |
| ConfigContext.CloneIsCopy | src/analysis/context/ConfigContextBuilder.ts:21-26 | the clone of `pathsByEnv` equals the original |
| ConfigContext.ToBool | src/analysis/context/ConfigContextBuilder.ts:52-60 | `Boolean(x)`: true iff x is truthy |
| ConfigContext.ArrayOrEmpty | src/analysis/context/ConfigContextBuilder.ts:31-36 | a copy of an array, `[]` for anything else |
| ConfigContext.EnvEntries | src/analysis/context/ConfigContextBuilder.ts:43-46 | one entry per env name, in order, holding that name's paths or `[]` |
| ConfigContext.EnvEntriesExact | src/analysis/context/ConfigContextBuilder.ts:43-46 | the entries carry exactly the resolver's per-name lists; the `?? []` fallback never applies |
| ConfigContext.BuildAnalysisContext | src/analysis/context/ConfigContextBuilder.ts:28-71 | every context field: ignored patterns, external paths, booleanised flags, `recursive` defaulting to true, env names, entries and resolved paths |
| Cli.ParseToggle | src/index.ts:13-25 | true for undefined; false iff the value is an off word (`false`, `0`, `no`, `off`, any case) or empty |
| Cli.ToggleWords | src/index.ts:17-23 | each on word gives true and each off word gives false, in any case |
| Cli.ParseEnvOption | src/index.ts:199-214 | none iff undefined; a blank string gives `[]`; otherwise non-empty trimmed comma-separated tokens |
| Cli.Tokens | src/index.ts:210-213 | the tokens are the trimmed pieces with the empty ones removed, in order |
| Cli.ParseJoined | src/index.ts:199-214 | parsing a comma-join of clean tokens gives them back |
| Cli.TokensOfJoined | src/index.ts:210-213 | splitting and trimming a comma-join of clean tokens gives them back |
| Logging.Rank | src/Logger.js:1-6 | a name has a rank iff it is a known level, and the rank locates it in the level list |
| Logging.NameOf | src/Logger.js:33-35 | each rank maps back to its level name |
| Logging.Allows | src/Logger.js:37-41 | a level name passes iff its lowercase form is known and ranks at or below the current level |
| Logging.AllowsMonotone | src/Logger.js:37-41 | raising the level never blocks a name that passed |
| Logging.ErrorsAlwaysPass | src/Logger.js:37-41 | `error` always passes; `debug` passes only at the debug level |
| Logging.Logger.constructor | src/Logger.js:11-21 | the level starts at `info` and nothing is emitted |
| Logging.Logger.SetLevel | src/Logger.js:23-31 | a falsy or unknown name leaves the level; a known one, in any case, sets it |
| Logging.Logger.GetLevel | src/Logger.js:33-35 | the current level's name |
| Logging.Logger.ShouldLog | src/Logger.js:37-41 | true iff the name is a known level ranking at or below the current one |
| Logging.Logger.Log | src/Logger.js:43-49 | a line is emitted iff `shouldLog` holds; the level is unchanged |
| Packer.ParseIntString | src/LuaPacker.js:93-99 | `parseInt` on text: none iff there are no leading digits after the sign |
| Packer.ParseIntNumeral | src/LuaPacker.js:93-99 | the decimal text of a natural number parses back to it, and an integral number parses to itself |
| Packer.ParseIntStringComma | src/LuaPacker.js:93-94 | text after a comma does not change what `parseInt` reads |
| Packer.ParseIntStringArray | src/LuaPacker.js:93-94 | an array of strings parses as its `,`-joined text does, that is, as its first string |
| Packer.ClampInteger | src/LuaPacker.js:93-99 | `parseInt` reads a number's integer part, a string's leading integer, or an array's first item; the fallback when nothing parses; otherwise within [min, max], the value itself inside the range, and min or max at the edges |
| Packer.NormalizeRenameConfig | src/LuaPacker.js:51-91 | a boolean gives the defaults with `enabled` set; a non-object gives `{false, 5, 5}`; an object gives 1 ≤ min ≤ max ≤ the largest safe integer |
| Packer.NonPositiveMinClamped | src/LuaPacker.js:65-88 | a non-positive `min` becomes 1, where the analysis pipeline's normaliser gives 5 |
| Packer.MergedConfig | src/LuaPacker.js:31-39 | every default key is present, and each incoming key overrides its default |
| Packer.MergeObfuscation | src/LuaPacker.js:27-39 | the merged obfuscation section: the tool and the merged config |
| Packer.MergedTool | src/LuaPacker.js:27-30 | the tool defaults to `none` and is kept when given |
| Packer.NormalizedJson | src/LuaPacker.js:40-48 | the normalised rename settings replace `renameVariables` |
| Packer.NormalizeConfig | src/LuaPacker.js:11-49 | Ok iff the entry is a string and the other path options are strings when truthy; `sourceRoot` defaults to the entry's directory, `output` to `bundle.lua` |
| Packer.InternalToolAlwaysRenames | src/LuaPacker.js:40-48 | after normalisation the rename object is always truthy, so the internal tool always minifies with both rename options |
| Packer.Pack | src/LuaPacker.js:105-131 | throws before generating anything for a missing analysis, a missing `entryModule` or a non-array `sortedModules`; otherwise returns the generated bundle |
| ConfigLoader.DefaultOutputProps | src/config/ConfigLoader.js:9-15 | `<entry stem>_packed.lua`, placed in the entry's directory |
| ConfigLoader.MergeConfig | src/config/ConfigLoader.js:61-123 | the merge works on a copy, with the path, toggle and module rules below |
| ConfigLoader.MergePaths | src/config/ConfigLoader.js:64-74 | `entry`, `output`, `sourceRoot` are overridden only by truthy CLI values |
| ConfigLoader.MergeToggles | src/config/ConfigLoader.js:76-100 | only boolean toggles replace config keys; other keys are kept |
| ConfigLoader.InternalTool | src/config/ConfigLoader.js:95-99 | the tool becomes `internal` iff some toggle is boolean |
| ConfigLoader.ToggleConfig | src/config/ConfigLoader.js:83-93 | each boolean toggle sets its key, and everything else is kept |
| ConfigLoader.MergeModules | src/config/ConfigLoader.js:102-120 | `ignoreMissing` is set only when boolean; a defined `env` replaces `external.env` with the array or `[]`, keeping the other external keys |
| ConfigLoader.ResolveExternalPaths | src/config/ConfigLoader.js:149-159 | each external path is resolved against its base, in order |
| ConfigLoader.ExternalPathsAbsolute | src/config/ConfigLoader.js:149-159 | resolved external paths are absolute |
| ConfigLoader.NormalizePaths | src/config/ConfigLoader.js:125-162 | CLI paths are resolved against cwd, file paths against the config file's directory, and `output` is defaulted only when absent |
| ConfigLoader.ResolvePathSettings | src/config/ConfigLoader.js:130-147 | the entry, output and source-root settings, each resolved against its origin |
| ConfigLoader.ResolveEntryAndOutput | src/config/ConfigLoader.js:130-142 | the entry is resolved, and the output is resolved or defaulted next to the entry |
| ConfigLoader.ResolveSetting | src/config/ConfigLoader.js:130-147 | a string setting is resolved against its origin's base, and other values are kept |
| ConfigLoader.ResolveExternalSection | src/config/ConfigLoader.js:149-159 | the external section's paths are resolved, and its other keys are kept |
| ConfigLoader.LoadConfig | src/config/ConfigLoader.js:164-190 | `merged` is the result of the merge; no entry gives "Configuration must specify an entry file."; it succeeds iff the merged entry is set and its paths and external roots resolve; success is the merged configuration with its paths and external roots normalised against the file's directory (else the working directory) and every other key kept; the only errors are the no-entry error and the argument type error |
| Pipeline.NormalizeRenameConfig | src/analysis/AnalysisPipeline.ts:180-206 | 1 ≤ min ≤ max; a boolean b gives `{b, 5, 5}`; a non-object gives `{false, 5, 5}` |
| Pipeline.RenameFromObject | src/analysis/AnalysisPipeline.ts:185-203 | `min` is a positive integer value or 5; `max` is a positive integer value, or `max(min, 5)`, raised to `min`; `enabled` iff it is `true` |
| Pipeline.GetObfuscationConfig | src/analysis/AnalysisPipeline.ts:168-178 | the rename invariant holds; an absent section gives tool `none` and everything off |
| Pipeline.ObfuscationFromSection | src/analysis/AnalysisPipeline.ts:168-178 | the tool with `none` as default, the normalised rename, and truthy `minify` and `ascii` |
| Pipeline.FormatMissing | src/analysis/AnalysisPipeline.ts:208-232 | the message is from `error`, else the record's `missingError`, else the default; `requiredBy` is the parent's name, else its id, else null; `moduleName` defaults to `requireId` |
| Pipeline.FormatAnalyzerEntry | src/analysis/AnalysisPipeline.ts:208-232 | for the analyzer's entries, the report keeps the record's name, path and flags and the entry's fatality |
| Pipeline.ApplyMissingWarnings | src/analysis/AnalysisPipeline.ts:234-244 | the loop appends each non-fatal override-applied message not yet present |
| Pipeline.ApplyMissingWarningsProps | src/analysis/AnalysisPipeline.ts:234-244 | existing warnings stay at the front, no warning repeats, and there are exactly the old warnings plus those messages |
| Pipeline.OverrideWarningsMembers | src/analysis/AnalysisPipeline.ts:236-243 | the candidate messages are exactly those of non-fatal, override-applied entries |
| Pipeline.SortedNames | src/analysis/AnalysisPipeline.ts:112-118 | `sortedModules` are the non-missing sorted records, and `topologicalOrder` their names, position by position |
| Pipeline.AnalysisPipeline.constructor | src/analysis/AnalysisPipeline.ts:68-73 | stores the config and creates an analyzer over the resolver |
| Pipeline.AnalysisPipeline.Run | src/analysis/AnalysisPipeline.ts:75-139 | a build error gives that error alone, no success and empty modules; an empty graph succeeds with nothing; otherwise the graph analysis; the context and obfuscation settings always |
| Pipeline.AnalysisPipeline.SortModules | src/analysis/AnalysisPipeline.ts:111-124 | on a sort: the non-missing records of a topological order and their names; on failure both empty and the error appended |
| Pipeline.AnalysisPipeline.AnalyzeGraph | src/analysis/AnalysisPipeline.ts:105-138 | the collections from the graph's nodes, the sort outcome, counts equal to list lengths, override warnings, and success iff no error |
| PipelineJs.GetObfuscationConfig | src/analysis/AnalysisPipeline.js:137-147 | the rename invariant; the tool under `ool`, always truthy; a falsy section gives the defaults |
| PipelineJs.ToolDefault | src/analysis/AnalysisPipeline.js:137-147 | `ool` is the truthy tool, else `none` |
| PipelineJs.FormatMissing | src/analysis/AnalysisPipeline.js:194-202 | `requiredBy` is the parent's name, else its id, else null; the message is the error's, else the default; fatality kept |
| PipelineJs.JsEdgeOf | src/analysis/AnalysisPipeline.js:106-112 | an edge keeps the record's id, name, path and flags |
| PipelineJs.ExternalWarning | src/analysis/AnalysisPipeline.js:130-134 | the "resolved outside source root" warning naming the module |
| PipelineJs.PopulateModuleCollections | src/analysis/AnalysisPipeline.js:90-135 | node-overwrite and dependency-if-absent map, edges, non-missing modules, their external subset, and one warning per external in order |
| PipelineJs.ExternalWarningsProps | src/analysis/AnalysisPipeline.js:126-134 | the warnings appended are one per external module, in `externals` order |
| PipelineJs.AnalysisPipelineJs.constructor | src/analysis/AnalysisPipeline.js:7-11 | stores the config and creates an analyzer over the resolver |
| PipelineJs.AnalysisPipelineJs.Run | src/analysis/AnalysisPipeline.js:13-88 | a build error fails with that error alone; an empty graph succeeds with nothing; otherwise the graph analysis |
| PipelineJs.AnalysisPipelineJs.SortModules | src/analysis/AnalysisPipeline.js:65-75 | a sort gives its records and their names; a failure empties both and appends the error |
| PipelineJs.AnalysisPipelineJs.AnalyzeGraph | src/analysis/AnalysisPipeline.js:63-87 | collections, sort outcome, counts, and success iff there are no errors |
| Labels.CollectModuleTags | src/analysis/report/utils/labels.ts:18-35 | `[]` for no record; otherwise `external`, `override`, `skipped` in that order, each iff its flag, `skipped` iff dependencies are not analysed and the module is not external |
| Labels.ExternalNeverSkipped | src/analysis/report/utils/labels.ts:31-33 | an external module is tagged `external` first and never `skipped` |
| Labels.FormatModuleLabel | src/analysis/report/utils/labels.ts:37-81 | one styled span starting with the name, with a tag suffix iff `displayTags` and tags are present |
| Labels.StylePriority | src/analysis/report/utils/labels.ts:49-80 | entry, then folder, skipped, missing (muted when ignoring missing, else error), external, override, then plain module |
| Labels.ModuleLabelStyle | src/analysis/report/utils/labels.ts:46-47 | an external module's label is styled external and carries its tags |
| DependencyTree.FindChild | src/analysis/report/utils/dependencyTree.ts:224-229 | the first child with that name and kind, or the count when none |
| DependencyTree.InsertPath | src/analysis/report/utils/dependencyTree.ts:199-236 | the node's own fields are unchanged, and only the child on the path changes |
| DependencyTree.InsertedFound | src/analysis/report/utils/dependencyTree.ts:199-236 | after insertion the path leads through folders to a module node carrying the tags and the entry flag |
| DependencyTree.ReinsertKeepsOutline | src/analysis/report/utils/dependencyTree.ts:208-234 | inserting never removes or reorders existing nodes |
| DependencyTree.NewLeafAppended | src/analysis/report/utils/dependencyTree.ts:215-223 | a new final segment appends exactly one module node, and the siblings are unchanged |
| DependencyTree.ExistingLeafMerged | src/analysis/report/utils/dependencyTree.ts:208-214 | re-inserting merges tags as an order-preserving union and ORs `isEntry` |
| DependencyTree.SplitPath | src/analysis/report/utils/dependencyTree.ts:248-260 | a path is split into at least one part |
| DependencyTree.DecorateMissingParts | src/analysis/report/utils/dependencyTree.ts:262-271 | same length, with `/` appended to every part but the last |
| DependencyTree.SplitPathOfJoin | src/analysis/report/utils/dependencyTree.ts:248-260 | splitting a `/`-joined path gives its decorated segments |
| DependencyTree.RelativeBelow | src/analysis/report/utils/dependencyTree.ts:123-166 | a path below a root splits into its decorated segments below that root |
| DependencyTree.ExternalRoots | src/analysis/report/utils/dependencyTree.ts:53-59 | one root per configured path, resolved against the base, in order |
| DependencyTree.EnsureSection | src/analysis/report/utils/dependencyTree.ts:140-161 | each section key is created once, appended at the end, and looked up afterwards |
| DependencyTree.ResolveSectionForPath | src/analysis/report/utils/dependencyTree.ts:123-166 | a path under the root goes to the root section; otherwise the first matching external root; earlier sections are kept |
| DependencyTree.MissingTags | src/analysis/report/utils/dependencyTree.ts:107-113 | `missing` first, then `external` and `override`, each iff flagged |
| DependencyTree.MissingName | src/analysis/report/utils/dependencyTree.ts:188 | the name shown for a missing entry is non-empty |
| DependencyTree.ResolveMissingSection | src/analysis/report/utils/dependencyTree.ts:168-197 | with a path, that path's section; without one, the name's parts split on `/` and `.` under the root section |
| DependencyTree.Place | src/analysis/report/utils/dependencyTree.ts:64-85 | only the chosen section changes, by insertion of the parts |
| DependencyTree.AddModule | src/analysis/report/utils/dependencyTree.ts:64-85 | adds at most one section and renames none; a path-less module changes nothing |
| DependencyTree.ModuleInserted | src/analysis/report/utils/dependencyTree.ts:64-85 | a module with a path ends up in its section with its tags and entry flag |
| DependencyTree.AddMissing | src/analysis/report/utils/dependencyTree.ts:89-118 | adds at most one section and renames none |
| DependencyTree.MissingUnderRoot | src/analysis/report/utils/dependencyTree.ts:188-196 | a path-less missing entry lands under the root section with its missing tags |
| DependencyTree.SeenKeys | src/analysis/report/utils/dependencyTree.ts:89-95 | every entry's `moduleName || requireId` is among the seen keys |
| DependencyTree.BuildDependencyTreeSections | src/analysis/report/utils/dependencyTree.ts:42-121 | the loops produce the specified sections, and only folder sections with children are returned |
| DependencyTree.RootSectionFirst | src/analysis/report/utils/dependencyTree.ts:120 | the root section comes first among the returned sections |
| Alerts.PlainAlertsPassThrough | src/analysis/report/sections/AlertsSection.ts:30-52 | string warnings are listed as those strings; `Error`s with distinct messages are listed as those messages, in order |
| Alerts.GetWarningsData | src/analysis/report/sections/AlertsSection.ts:48-52 | one normalised message per warning, in order |
| Alerts.MissingAlertOf | src/analysis/report/sections/AlertsSection.ts:71-91 | `ERROR` iff fatal; `requireId` defaults to `unknown`; the prefix is `requiredBy -> requireId` when set |
| Alerts.GetMissingData | src/analysis/report/sections/AlertsSection.ts:71-91 | same length as the missing list, one alert per entry |
| Alerts.GetErrorsData | src/analysis/report/sections/AlertsSection.ts:117-131 | the dedup loop gives the first occurrences of the normalised messages, in order, duplicate-free |
| Alerts.BulletLine | src/analysis/report/sections/AlertsSection.ts:54-69 | a bullet line reads `- <message>` |
| Alerts.BuildWarningsSection | src/analysis/report/sections/AlertsSection.ts:54-69 | empty without warnings; otherwise a heading and one bullet per warning |
| Alerts.MissingLine | src/analysis/report/sections/AlertsSection.ts:93-115 | a missing line reads `- <text>`, styled by fatality and `ignoreMissing` |
| Alerts.MissingTextEnding | src/analysis/report/sections/AlertsSection.ts:93-115 | the text starts with the prefix and ends with "Module not found." or "Module not found ignored." |
| Alerts.BuildMissingSection | src/analysis/report/sections/AlertsSection.ts:93-115 | empty without missing entries; otherwise a heading and one line per entry |
| Alerts.BuildErrorsSection | src/analysis/report/sections/AlertsSection.ts:133-148 | empty without errors; otherwise a heading and one bullet per distinct message |
| Alerts.ErrorLinesDistinct | src/analysis/report/sections/AlertsSection.ts:117-148 | no two error lines carry the same message |
| ExternalSummary.StringsOf | src/analysis/report/builders/ExternalSummaryBuilder.ts:9-14 | the strings among the items, no more items than given |
| ExternalSummary.ToStringArray | src/analysis/report/builders/ExternalSummaryBuilder.ts:9-14 | `[]` for a non-array; otherwise exactly its string items |
| ExternalSummary.ToStringArrayOfStrings | src/analysis/report/builders/ExternalSummaryBuilder.ts:9-14 | an array of strings is returned unchanged |
| ExternalSummary.CountLabel | src/analysis/report/builders/ExternalSummaryBuilder.ts:25-29 | the label starts with the module count, and it has a `(k missing)` suffix iff k > 0 |
| ExternalSummary.AnyHasPaths | src/analysis/report/builders/ExternalSummaryBuilder.ts:44 | true iff some env entry has paths |
| ExternalSummary.EnvLabel | src/analysis/report/builders/ExternalSummaryBuilder.ts:45-50 | `none` iff no env entry has paths |
| ExternalSummary.BuildExternalSummary | src/analysis/report/builders/ExternalSummaryBuilder.ts:16-79 | counts, the count label, `recursive` defaulting to true, formatted paths and the modules list; one env entry per env name, in order; `totalPaths` is the number of resolved env paths; the env label is `none` iff no entry has paths, and otherwise names the variables and the resolved path count |
| ExternalSummary.MissingCountIsExternalCount | src/analysis/report/builders/ExternalSummaryBuilder.ts:21 | the missing count is the number of external missing entries |
| ReportSections.JoinBlocksLength | src/analysis/report/sections/DependencyTreeSection.ts:25-33 | the rendered sections plus one blank line between consecutive ones |
| ReportSections.JoinBlocksSlice | src/analysis/report/sections/DependencyTreeSection.ts:25-33 | each section's lines appear contiguously at their offset, followed by a blank line unless last |
| ReportSections.BuildDependencyTreeSection | src/analysis/report/sections/DependencyTreeSection.ts:17-35 | empty without sections; otherwise heading, divider and the joined sections |
| ReportSections.BuildTopologicalOrderSection | src/analysis/report/sections/TopologicalOrderSection.ts:14-27 | empty without items; otherwise heading, divider and one numbered line per item |
| ReportSections.IndexLabelValue | src/analysis/report/sections/TopologicalOrderSection.ts:23 | the index label is at least two digits and denotes i + 1 |

## Left out

- Timing: `performance.now` and the duration metrics are not modelled.
- Writing the bundle: the write to disk and the directory creation are not modelled.
- The logger's handler dispatch and its convenience methods: `Logging.Logger.Log` records the emitted line instead.
- Ajv schema validation, reading and parsing the config file, the `JSON.parse(JSON.stringify(…))` copy and `formatErrors` are not modelled. The analysis side takes a typed, already-validated configuration.
- Node's error message text for argument type errors is an abstract error value.
- Numbers are exact reals. NaN, Infinity, exponent forms in `parseInt` and float-to-text formatting are not modelled.
- `process.env` and `process.cwd()` are parameters.
- The palette's colours are abstract style tags.
- Paths follow POSIX semantics only; Windows drive letters and separators are not modelled.
- Lowercasing is ASCII only.
- Object key order is plain insertion order. JavaScript's integer-like keys first rule is not modelled.
- This model does not include `MetricsCalculator` or `computeModuleSizeSum`. The size sum is a function parameter of the pipelines' `Run`.
- The luamin minifier is an arbitrary function parameter.
- `createMissingRecord` and `ignoreMissing` are not part of the resolver in src/ModuleResolver.js. They are parameters of the analyzer's resolver interface.
- This model does not include TextReportBuilder, AnalysisReporter, SummarySection or SerializablePayloadBuilder.
- DependencyTree.InsertPath: the tree is modelled on values. The cursor walk becomes recursion that rebuilds the path, so shared mutable nodes are not modelled. External sections are found through a key-to-index map.
- ConfigLoader.NormalizePaths: the nested objects that the source shares and mutates are modelled as fresh values. Aliasing between the input and the output is not captured.
- Alerts.NormalizeMessage: `String(value)` of a non-message object is taken as given text; host toString behaviour is not modelled.
- Alerts.BuildMissingSection: the unused `destination` argument is dropped.
- Report lists with `null` items are not modelled; items are records.
- AsciiObfuscation.EncodeRoundTrip: the round trip holds only for ASCII modules. A character from 128 to 255 comes back as one byte where the file had two UTF-8 bytes. A character above 255, including a UTF-16 half of a character outside the Basic Multilingual Plane, makes `string.char` raise when the bundle loads. StringCharOfCodes proves both.
- Resolution.ModuleResolver.ResolveOverridePath: an absolute override path is normalised (`/x/y/` and `/a/../b.lua` become `/x/y` and `/b`), because paths are segment lists. The source keeps the string as written. So the model does not capture the raw-string probe (`/x/y/.lua`), nor a second graph node when one file is reached both by a non-normal override path and by search.
- ConfigLoader.LoadConfig: the schema validation and the `JSON.parse(JSON.stringify(…))` copy between the merge and the normalisation are not modelled; the merged configuration goes to the normalisation as it is.
- Spreads of strings and arrays into config objects are not modelled; only object spreads are.
- Resolution.ModuleResolver.DeriveModuleNameInSource: states the name only for files below the source root. Outside it, the name is the fallback id or the dotted path; DeriveModuleName defines this, but no lemma restates it.
