/**
 * The analysis pipeline: builds the dependency graph, derives the module collections, sorts
 * the modules, formats the missing entries and assembles the analysis result with its metrics.
 */
module Pipeline {
  import opened Wrappers
  import opened Seqs
  import opened Paths
  import opened Records
  import opened OrderedMaps
  import opened JsValues
  import opened DependencyGraphs
  import opened DependencyAnalysis
  import opened ModuleCollections
  import opened ConfigContext

  // ---------------------------------------------------------------------------------------
  // Rename settings.

  datatype RenameConfig = RenameConfig(enabled: bool, min: int, max: int)

  const DefaultRename := RenameConfig(false, 5, 5)

  /** `Number.isInteger(v) && v > 0`. */
  predicate IsPositiveInteger(v: Json) {
    v.Num? && v.n == v.n.Floor as real && v.n > 0.0
  }

  function Max(a: int, b: int): int {
    if a < b then b else a
  }

  /**
   * `normalizeRenameConfig`: a boolean only sets `enabled`; an object supplies each of `min`
   * and `max` when it is a positive integer, `max` being raised to `min`; anything else gives
   * the defaults. The bounds always satisfy `1 <= min <= max`.
   */
  function NormalizeRenameConfig(renameValue: Json): (r: RenameConfig)
    ensures 1 <= r.min <= r.max
    ensures renameValue.Bool? ==> r == RenameConfig(renameValue.b, 5, 5)
    ensures !renameValue.Bool? && !IsObject(renameValue) ==> r == DefaultRename
  {
    if renameValue.Bool? then RenameConfig(renameValue.b, DefaultRename.min, DefaultRename.max)
    else if Truthy(renameValue) && IsObject(renameValue) then
      var minCandidate := Get(renameValue, "min");
      var maxCandidate := Get(renameValue, "max");
      var enabledCandidate := Get(renameValue, "enabled");
      var min := if IsPositiveInteger(minCandidate) then minCandidate.n.Floor else DefaultRename.min;
      var max0 := if IsPositiveInteger(maxCandidate) then maxCandidate.n.Floor else Max(min, DefaultRename.max);
      var max := if max0 < min then min else max0;
      var enabled := if enabledCandidate.Bool? then enabledCandidate.b else DefaultRename.enabled;
      RenameConfig(enabled, min, max)
    else DefaultRename
  }

  /**
   * For an object: `min` is the given positive integer or 5; `max` is the given positive
   * integer raised to `min`, or the larger of `min` and 5; `enabled` is the given boolean or false.
   */
  lemma RenameFromObject(renameValue: Json)
    requires IsObject(renameValue)
    ensures (var r := NormalizeRenameConfig(renameValue);
             var minC := Get(renameValue, "min");
             var maxC := Get(renameValue, "max");
             && (IsPositiveInteger(minC) ==> r.min as real == minC.n)
             && (!IsPositiveInteger(minC) ==> r.min == 5)
             && (IsPositiveInteger(maxC) ==> r.max == Max(r.min, maxC.n.Floor))
             && (IsPositiveInteger(maxC) && maxC.n >= r.min as real ==> r.max as real == maxC.n)
             && (!IsPositiveInteger(maxC) ==> r.max == Max(r.min, 5))
             && (r.enabled <==> Get(renameValue, "enabled") == Bool(true)))
  {
  }

  // ---------------------------------------------------------------------------------------
  // Obfuscation settings.

  /** The obfuscation summary; `tool` keeps whatever value the configuration holds. */
  datatype ObfuscationSettings = ObfuscationSettings(tool: Json, rename: RenameConfig, minify: bool, ascii: bool)

  /** `{ tool: 'none', config: {} }`. */
  const NoObfuscation := Obj(["tool", "config"], map["tool" := Str("none"), "config" := Obj([], map[])])

  /** `getObfuscationConfig`: absent sections (`undefined` or `null`) fall back to no tool and an empty configuration. */
  function GetObfuscationConfig(obfuscation: Json): (r: ObfuscationSettings)
    ensures 1 <= r.rename.min <= r.rename.max
    ensures (obfuscation.Undefined? || obfuscation.Null?) ==> r == ObfuscationSettings(Str("none"), DefaultRename, false, false)
  {
    var toolConfig := OrElse(obfuscation, NoObfuscation);
    var rawConfig := OrElse(Get(toolConfig, "config"), Obj([], map[]));
    ObfuscationSettings(
      OrElse(Get(toolConfig, "tool"), Str("none")),
      NormalizeRenameConfig(Get(rawConfig, "renameVariables")),
      Truthy(Get(rawConfig, "minify")),
      Truthy(Get(rawConfig, "ascii")))
  }

  /** The settings read the given section: its tool (or `'none'`) and its `config` flags. */
  lemma ObfuscationFromSection(obfuscation: Json)
    requires obfuscation.Obj?
    ensures (var r := GetObfuscationConfig(obfuscation);
             var cfg := OrElse(Get(obfuscation, "config"), Obj([], map[]));
             && r.tool == OrElse(Get(obfuscation, "tool"), Str("none"))
             && r.rename == NormalizeRenameConfig(Get(cfg, "renameVariables"))
             && (r.minify <==> Truthy(Get(cfg, "minify")))
             && (r.ascii <==> Truthy(Get(cfg, "ascii"))))
  {
  }

  // ---------------------------------------------------------------------------------------
  // Missing entries.

  /** A missing entry as the pipeline receives it: every part may be absent. */
  datatype AnalyzerMissing = AnalyzerMissing(
    requiredBy: Option<ModuleRecord>,
    requireId: string,
    record: Option<ModuleRecord>,
    error: Option<JsError>,
    fatal: Option<bool>)

  /** The analyzer's own entries always carry every part. */
  function FromAnalyzer(m: MissingEntry): AnalyzerMissing {
    AnalyzerMissing(Some(m.requiredBy), m.requireId, Some(m.record), m.error, Some(m.fatal))
  }

  /** A missing module as the analysis reports it. */
  datatype MissingReport = MissingReport(
    requiredBy: Option<string>,
    requireId: string,
    moduleName: string,
    filePath: Option<AbsPath>,
    isExternal: bool,
    overrideApplied: bool,
    fatal: bool,
    message: string,
    code: Option<string>)

  /** `missing.moduleName || missing.requireId`: the name a missing entry is known by. */
  function MissingNameOf(m: MissingReport): string {
    if m.moduleName != "" then m.moduleName else m.requireId
  }

  const DefaultMissingMessage := "Module was marked missing."

  /** The error an entry explains itself with: its own, else its record's `missingError`. */
  function MessageSource(item: AnalyzerMissing): Option<JsError> {
    if item.error.Some? then item.error
    else if item.record.Some? then item.record.value.missingError
    else None
  }

  /** `formatMissing`. */
  function FormatMissing(item: AnalyzerMissing): (r: MissingReport)
    ensures r.requireId == item.requireId
    ensures r.message != ""
    ensures (var src := MessageSource(item);
             r.message == if src.Some? && src.value.message != "" then src.value.message else DefaultMissingMessage)
    ensures r.code.Some? ==> r.code.value != "" && MessageSource(item).Some? && MessageSource(item).value.code == r.code
    ensures r.requiredBy.Some? ==>
      (r.requiredBy.value != "" && item.requiredBy.Some? &&
       r.requiredBy.value in {item.requiredBy.value.moduleName, item.requiredBy.value.id})
    ensures r.requiredBy.None? <==> (item.requiredBy.None? || (item.requiredBy.value.moduleName == "" && item.requiredBy.value.id == ""))
    ensures r.moduleName == if item.record.Some? then item.record.value.moduleName else item.requireId
    ensures r.fatal == (item.fatal == Some(true))
  {
    var requiredBy :=
      if item.requiredBy.None? then None
      else if item.requiredBy.value.moduleName != "" then Some(item.requiredBy.value.moduleName)
      else if item.requiredBy.value.id != "" then Some(item.requiredBy.value.id)
      else None;
    var src := MessageSource(item);
    var message := if src.Some? && src.value.message != "" then src.value.message else DefaultMissingMessage;
    var code := if src.Some? && src.value.code.Some? && src.value.code.value != "" then src.value.code else None;
    var rec := item.record;
    MissingReport(
      requiredBy,
      item.requireId,
      if rec.Some? then rec.value.moduleName else item.requireId,
      if rec.Some? then rec.value.filePath else None,
      rec.Some? && rec.value.isExternal,
      rec.Some? && rec.value.overrideApplied,
      item.fatal.GetOr(false),
      message,
      code)
  }

  function FormatEntry(m: MissingEntry): MissingReport {
    FormatMissing(FromAnalyzer(m))
  }

  /** For the analyzer's entries the report keeps the record's name, path and flags and the entry's fatality. */
  lemma FormatAnalyzerEntry(m: MissingEntry)
    ensures (var r := FormatEntry(m);
             && r.requireId == m.requireId && r.moduleName == m.record.moduleName
             && r.filePath == m.record.filePath && r.isExternal == m.record.isExternal
             && r.overrideApplied == m.record.overrideApplied && r.fatal == m.fatal)
  {
  }

  // ---------------------------------------------------------------------------------------
  // Warnings for overridden modules that were not found.

  /** A non-fatal entry for an override, with a message, yields a warning. */
  predicate IsOverrideWarning(e: MissingReport) {
    e.overrideApplied && !e.fatal && e.message != ""
  }

  /** The warning messages the entries call for, in order, repeats kept. */
  function OverrideWarnings(missing: seq<MissingReport>): seq<string> {
    if |missing| == 0 then []
    else (if IsOverrideWarning(missing[0]) then [missing[0].message] else []) + OverrideWarnings(missing[1..])
  }

  lemma {:induction false} OverrideWarningsMembers(missing: seq<MissingReport>)
    ensures forall x :: x in OverrideWarnings(missing) <==>
      exists i :: 0 <= i < |missing| && IsOverrideWarning(missing[i]) && missing[i].message == x
  {
    if |missing| > 0 {
      OverrideWarningsMembers(missing[1..]);
      forall x ensures x in OverrideWarnings(missing) <==>
        exists i :: 0 <= i < |missing| && IsOverrideWarning(missing[i]) && missing[i].message == x
      {
        if exists i :: 0 <= i < |missing| && IsOverrideWarning(missing[i]) && missing[i].message == x {
          var i :| 0 <= i < |missing| && IsOverrideWarning(missing[i]) && missing[i].message == x;
          if i > 0 {
            assert missing[1..][i - 1] == missing[i];
          }
        }
        if x in OverrideWarnings(missing[1..]) {
          var i :| 0 <= i < |missing[1..]| && IsOverrideWarning(missing[1..][i]) && missing[1..][i].message == x;
          assert missing[i + 1] == missing[1..][i];
        }
      }
    }
  }

  /** `applyMissingWarnings`: push each override warning not yet among the warnings. */
  method ApplyMissingWarnings(warnings: seq<string>, missing: seq<MissingReport>) returns (warnings': seq<string>)
    ensures warnings' == DedupOnto(warnings, OverrideWarnings(missing))
  {
    warnings' := warnings;
    var warningSet := set w | w in warnings;
    for k := 0 to |missing|
      invariant DedupOnto(warnings', OverrideWarnings(missing[k..])) == DedupOnto(warnings, OverrideWarnings(missing))
      invariant forall w :: w in warningSet <==> w in warnings'
    {
      var missingEntry := missing[k];
      assert missing[k..][0] == missingEntry && missing[k..][1..] == missing[k + 1..];
      var rest := OverrideWarnings(missing[k + 1..]);
      if IsOverrideWarning(missingEntry) {
        assert OverrideWarnings(missing[k..]) == [missingEntry.message] + rest;
        assert ([missingEntry.message] + rest)[0] == missingEntry.message && ([missingEntry.message] + rest)[1..] == rest;
        if missingEntry.message !in warningSet {
          warnings' := warnings' + [missingEntry.message];
          warningSet := warningSet + {missingEntry.message};
        }
      } else {
        assert OverrideWarnings(missing[k..]) == [] + rest == rest;
      }
    }
  }

  /**
   * Over warnings without repeats, the result keeps them first, has no repeats, and holds
   * exactly the earlier warnings and the override messages.
   */
  lemma ApplyMissingWarningsProps(warnings: seq<string>, missing: seq<MissingReport>)
    requires Distinct(warnings)
    ensures (var r := DedupOnto(warnings, OverrideWarnings(missing));
             && PrefixOf(warnings, r)
             && Distinct(r)
             && forall x :: x in r <==>
                  (x in warnings || exists i :: 0 <= i < |missing| && IsOverrideWarning(missing[i]) && missing[i].message == x))
  {
    DedupOntoProps(warnings, OverrideWarnings(missing));
    OverrideWarningsMembers(missing);
  }

  // ---------------------------------------------------------------------------------------
  // The analysis result and the run.

  datatype Metrics = Metrics(
    moduleCount: nat,
    externalCount: nat,
    missingCount: nat,
    moduleSizeSum: nat,
    estimatedBundleSize: nat,
    bundleSizeBytes: nat)

  datatype AnalysisResult = AnalysisResult(
    entryModule: Option<ModuleRecord>,
    modules: seq<ModuleRecord>,
    moduleById: OrderedMap<string, ModuleRecord>,
    dependencyGraph: OrderedMap<string, seq<ModuleEdge>>,
    sortedModules: seq<ModuleRecord>,
    topologicalOrder: seq<string>,
    externals: seq<ModuleRecord>,
    missing: seq<MissingReport>,
    warnings: seq<string>,
    errors: seq<JsError>,
    metrics: Metrics,
    obfuscation: ObfuscationSettings,
    context: AnalysisContext,
    success: bool)

  function ModuleNameOf(m: ModuleRecord): string {
    m.moduleName
  }

  /** The sort's records that are not missing, and their names. */
  lemma SortedNames(sorted: seq<ModuleRecord>)
    ensures (var kept := Filter(NotMissing, sorted);
             && (forall m :: m in kept <==> m in sorted && !m.isMissing)
             && |Map(ModuleNameOf, kept)| == |kept|
             && forall i :: 0 <= i < |kept| ==> Map(ModuleNameOf, kept)[i] == kept[i].moduleName)
  {
    FilterMembers(NotMissing, sorted);
  }

  class AnalysisPipeline {
    const config: WorkflowConfig
    const analyzer: DependencyAnalyzer

    /** The analyzer is created for this pipeline, over the resolver built from the configuration. */
    constructor(config: WorkflowConfig, resolver: ResolverInterface)
      ensures this.config == config && fresh(analyzer) && analyzer.resolver == resolver
    {
      this.config := config;
      analyzer := new DependencyAnalyzer(resolver);
    }

    /**
     * `run()`, without timing. The process environment and the size of the modules' files
     * are parameters. The ghost results are what the analyzer returned.
     */
    method Run(fs: FileSystem, env: map<string, string>, moduleSizeSum: seq<ModuleRecord> -> nat)
      returns (analysis: AnalysisResult, ghost built: Result<BuildResult, JsError>, ghost sorted: Option<Result<seq<ModuleRecord>, JsError>>)
      modifies analyzer
      ensures analysis.obfuscation == GetObfuscationConfig(config.obfuscation)
      ensures IsContextOf(config, env, analysis.context)
      ensures built.Ok? ==> IsGraphOf(analyzer.resolver, fs, analyzer.resolver.createEntryRecord(config.entry), built.value)
      ensures built.Err? ==>
        && analysis.errors == [built.error] && !analysis.success
        && analysis.entryModule.None? && analysis.modules == [] && analysis.missing == []
        && analysis.sortedModules == [] && sorted.None?
      ensures built.Ok? ==>
        && analysis.entryModule == Some(built.value.entryModule)
        && analysis.missing == Map(FormatEntry, built.value.missing)
        && analysis.metrics.missingCount == |analysis.missing|
      ensures built.Ok? && |built.value.graph.keys| == 0 ==>
        analysis.success && analysis.modules == [] && analysis.sortedModules == [] && sorted.None?
      ensures built.Ok? && |built.value.graph.keys| > 0 ==>
        GraphAnalysis(built.value, analysis, sorted, moduleSizeSum)
    {
      var context := BuildAnalysisContext(config, env);
      var emptyMap: OrderedMap<string, ModuleRecord> := Empty();
      var emptyEdges: OrderedMap<string, seq<ModuleEdge>> := Empty();
      analysis := AnalysisResult(None, [], emptyMap, emptyEdges, [], [], [], [], [], [],
        Metrics(0, 0, 0, 0, 0, 0), GetObfuscationConfig(config.obfuscation), context, true);
      sorted := None;

      var buildResult := analyzer.BuildDependencyGraph(fs, config.entry);
      built := buildResult;
      analysis, sorted := ReportBuild(buildResult, analysis, moduleSizeSum);
    }

    /** The part of `run()` after `buildDependencyGraph` returned or threw. */
    method ReportBuild(built: Result<BuildResult, JsError>, analysis0: AnalysisResult, moduleSizeSum: seq<ModuleRecord> -> nat)
      returns (analysis: AnalysisResult, ghost sorted: Option<Result<seq<ModuleRecord>, JsError>>)
      requires built.Ok? ==> built.value.graph.Valid() && built.value.errors == FatalErrors(built.value.missing)
      requires analysis0.errors == [] && analysis0.warnings == [] && analysis0.success
      requires analysis0.entryModule.None? && analysis0.modules == [] && analysis0.missing == [] && analysis0.sortedModules == []
      ensures analysis.obfuscation == analysis0.obfuscation && analysis.context == analysis0.context
      ensures built.Err? ==>
        && analysis.errors == [built.error] && !analysis.success
        && analysis.entryModule.None? && analysis.modules == [] && analysis.missing == []
        && analysis.sortedModules == [] && sorted.None?
      ensures built.Ok? ==>
        && analysis.entryModule == Some(built.value.entryModule)
        && analysis.missing == Map(FormatEntry, built.value.missing)
        && analysis.metrics.missingCount == |analysis.missing|
      ensures built.Ok? && |built.value.graph.keys| == 0 ==>
        analysis.success && analysis.modules == [] && analysis.sortedModules == [] && sorted.None?
      ensures built.Ok? && |built.value.graph.keys| > 0 ==>
        GraphAnalysis(built.value, analysis, sorted, moduleSizeSum)
    {
      analysis := analysis0;
      sorted := None;
      if built.Err? {
        analysis := analysis.(errors := analysis.errors + [built.error], success := false);
        return;
      }
      var result := built.value;
      var graph := result.graph;
      analysis := analysis.(entryModule := Some(result.entryModule));
      analysis := analysis.(missing := Map(FormatEntry, result.missing));
      analysis := analysis.(metrics := analysis.metrics.(missingCount := |analysis.missing|));
      if |result.errors| > 0 {
        analysis := analysis.(errors := analysis.errors + result.errors);
      }
      assert analysis.errors == result.errors;

      if |graph.keys| == 0 {
        return;
      }

      analysis, sorted := AnalyzeGraph(result, analysis, moduleSizeSum);
    }

    /** The `topologicalSort` step of `run()`. */
    method SortModules(graph: Graph, errors0: seq<JsError>)
      returns (sortedModules: seq<ModuleRecord>, topologicalOrder: seq<string>, errors: seq<JsError>,
               ghost sorted: Result<seq<ModuleRecord>, JsError>)
      requires graph.Valid()
      ensures SortOutcome(graph, errors0, sorted, sortedModules, topologicalOrder, errors)
    {
      var sortResult, order, cycle := analyzer.TopologicalSort(graph);
      sorted := sortResult;
      errors := errors0;
      if sortResult.Ok? {
        sortedModules := Filter(NotMissing, sortResult.value);
        topologicalOrder := Map(ModuleNameOf, sortedModules);
      } else {
        errors := errors + [sortResult.error];
        sortedModules, topologicalOrder := [], [];
      }
    }

    /** The part of `run()` after a non-empty graph was built. */
    method AnalyzeGraph(result: BuildResult, analysis0: AnalysisResult, moduleSizeSum: seq<ModuleRecord> -> nat)
      returns (analysis: AnalysisResult, ghost sorted: Option<Result<seq<ModuleRecord>, JsError>>)
      requires result.graph.Valid() && |result.graph.keys| > 0
      requires analysis0.errors == result.errors && analysis0.warnings == []
      ensures GraphAnalysis(result, analysis, sorted, moduleSizeSum)
      ensures analysis.entryModule == analysis0.entryModule && analysis.missing == analysis0.missing
      ensures analysis.metrics.missingCount == analysis0.metrics.missingCount
      ensures analysis.obfuscation == analysis0.obfuscation && analysis.context == analysis0.context
    {
      var graph := result.graph;
      var collections := BuildModuleCollections(NodesOf(graph));

      var sortedModules, topologicalOrder, errors, s := SortModules(graph, analysis0.errors);
      sorted := Some(s);

      var sizeSum := moduleSizeSum(collections.modules);
      var metrics := analysis0.metrics.(
        moduleCount := |collections.modules|,
        externalCount := |collections.externals|,
        moduleSizeSum := sizeSum,
        estimatedBundleSize := sizeSum);
      var warnings := ApplyMissingWarnings(analysis0.warnings, analysis0.missing);
      analysis := analysis0.(
        moduleById := collections.moduleMap,
        modules := collections.modules,
        externals := collections.externals,
        dependencyGraph := collections.dependencyGraph,
        sortedModules := sortedModules,
        topologicalOrder := topologicalOrder,
        errors := errors,
        metrics := metrics,
        warnings := warnings,
        success := |errors| == 0);
    }
  }

  /** The sort step: the sort's non-missing records and their names, or nothing and the error appended. */
  ghost predicate SortOutcome(graph: Graph, errors0: seq<JsError>, sorted: Result<seq<ModuleRecord>, JsError>,
                              sortedModules: seq<ModuleRecord>, topologicalOrder: seq<string>, errors: seq<JsError>)
    requires graph.Valid()
  {
    && (sorted.Ok? ==>
          && (exists order :: IsTopologicalOrder(graph, order, sorted.value))
          && sortedModules == Filter(NotMissing, sorted.value)
          && topologicalOrder == Map(ModuleNameOf, sortedModules)
          && errors == errors0)
    && (sorted.Err? ==>
          && sortedModules == [] && topologicalOrder == []
          && errors == errors0 + [sorted.error])
  }

  /**
   * The result over a non-empty graph: the collections derived from its nodes; the sort's
   * non-missing records and their names, or nothing and the sort's error appended; the
   * counts; the override warnings; and success exactly when no error was recorded.
   */
  ghost predicate GraphAnalysis(result: BuildResult, analysis: AnalysisResult,
                                sorted: Option<Result<seq<ModuleRecord>, JsError>>, moduleSizeSum: seq<ModuleRecord> -> nat)
    requires result.graph.Valid()
  {
    var nodes := NodesOf(result.graph);
    && analysis.moduleById == ModuleMapOf(nodes) && analysis.moduleById.Valid()
    && analysis.dependencyGraph == EdgeMapOf(EdgeOf, nodes)
    && analysis.modules == Filter(NotMissing, Values(analysis.moduleById))
    && analysis.externals == Filter(External, analysis.modules)
    && sorted.Some?
    && SortOutcome(result.graph, result.errors, sorted.value, analysis.sortedModules, analysis.topologicalOrder, analysis.errors)
    && analysis.metrics.moduleCount == |analysis.modules|
    && analysis.metrics.externalCount == |analysis.externals|
    && analysis.metrics.moduleSizeSum == moduleSizeSum(analysis.modules)
    && analysis.metrics.estimatedBundleSize == analysis.metrics.moduleSizeSum
    && analysis.warnings == Dedup(OverrideWarnings(analysis.missing))
    && (analysis.success <==> analysis.errors == [])
  }
}
