/**
 * The older JavaScript analysis pipeline. It differs from the typed one: its obfuscation
 * summary stores the tool under the key `ool`; sorted modules are not filtered; missing
 * entries keep only four fields; there is no analysis context and no override warnings;
 * instead every external module gets a warning of its own.
 */
module PipelineJs {
  import opened Wrappers
  import opened Seqs
  import opened Paths
  import opened Records
  import opened OrderedMaps
  import opened JsValues
  import opened DependencyGraphs
  import opened DependencyAnalysis
  import opened ModuleCollections
  import opened ConfigContext
  import Pipeline

  /** The obfuscation summary, with the tool under `ool`: the name the code gives that key. */
  datatype ObfuscationSummary = ObfuscationSummary(ool: Json, rename: Pipeline.RenameConfig, minify: bool, ascii: bool)

  /** `getObfuscationConfig`: falsy sections fall back to an empty configuration and the tool to `'none'`. */
  function GetObfuscationConfig(obfuscation: Json): (r: ObfuscationSummary)
    ensures 1 <= r.rename.min <= r.rename.max
    ensures Truthy(r.ool)
    ensures !Truthy(obfuscation) ==> r == ObfuscationSummary(Str("none"), Pipeline.DefaultRename, false, false)
  {
    var toolConfig := OrIfFalsy(obfuscation, Obj(["config"], map["config" := Obj([], map[])]));
    var obfConfig := OrIfFalsy(Get(toolConfig, "config"), Obj([], map[]));
    ObfuscationSummary(
      OrIfFalsy(Get(toolConfig, "tool"), Str("none")),
      Pipeline.NormalizeRenameConfig(Get(obfConfig, "renameVariables")),
      Truthy(Get(obfConfig, "minify")),
      Truthy(Get(obfConfig, "ascii")))
  }

  /** A falsy tool (`''`, `0`, `false`, `null`) reads as `'none'`; a truthy one is kept. */
  lemma ToolDefault(obfuscation: Json)
    requires obfuscation.Obj?
    ensures Truthy(Get(obfuscation, "tool")) ==> GetObfuscationConfig(obfuscation).ool == Get(obfuscation, "tool")
    ensures !Truthy(Get(obfuscation, "tool")) ==> GetObfuscationConfig(obfuscation).ool == Str("none")
  {
  }

  /** A missing entry as this pipeline reports it. */
  datatype MissingSummary = MissingSummary(requiredBy: Option<string>, requireId: string, fatal: bool, message: string)

  /** `formatMissing`: the parent's name, else its id; the error's message, else the default. */
  function FormatMissing(item: MissingEntry): (r: MissingSummary)
    ensures r.requireId == item.requireId && r.fatal == item.fatal
    ensures r.requiredBy.Some? ==> r.requiredBy.value != "" && r.requiredBy.value in {item.requiredBy.moduleName, item.requiredBy.id}
    ensures r.requiredBy.None? <==> item.requiredBy.moduleName == "" && item.requiredBy.id == ""
    ensures item.error.Some? ==> r.message == item.error.value.message
    ensures item.error.None? ==> r.message == Pipeline.DefaultMissingMessage
  {
    var parentName :=
      if item.requiredBy.moduleName != "" then item.requiredBy.moduleName else item.requiredBy.id;
    MissingSummary(
      if parentName != "" then Some(parentName) else None,
      item.requireId,
      item.fatal,
      if item.error.Some? then item.error.value.message else Pipeline.DefaultMissingMessage)
  }

  /** An edge of this pipeline: no `overrideApplied` flag. */
  datatype JsEdge = JsEdge(id: string, moduleName: string, isExternal: bool, isMissing: bool, filePath: Option<AbsPath>)

  function JsEdgeOf(m: ModuleRecord): (e: JsEdge)
    ensures e.id == m.id && e.moduleName == m.moduleName && e.filePath == m.filePath
    ensures e.isExternal == m.isExternal && e.isMissing == m.isMissing
  {
    JsEdge(m.id, m.moduleName, m.isExternal, m.isMissing, m.filePath)
  }

  /** The warning for one external module. */
  function ExternalWarning(m: ModuleRecord): (w: string)
    ensures w == "Module '" + m.moduleName + "' resolved outside source root and will be treated as external."
  {
    "Module '" + m.moduleName + "' resolved outside source root and will be treated as external."
  }

  datatype MetricsJs = MetricsJs(
    moduleCount: nat,
    externalCount: nat,
    missingCount: nat,
    moduleSizeSum: nat,
    estimatedBundleSize: nat)

  datatype AnalysisJs = AnalysisJs(
    entryModule: Option<ModuleRecord>,
    modules: seq<ModuleRecord>,
    moduleById: OrderedMap<string, ModuleRecord>,
    dependencyGraph: OrderedMap<string, seq<JsEdge>>,
    sortedModules: seq<ModuleRecord>,
    topologicalOrder: seq<string>,
    externals: seq<ModuleRecord>,
    missing: seq<MissingSummary>,
    warnings: seq<string>,
    errors: seq<JsError>,
    metrics: MetricsJs,
    obfuscation: ObfuscationSummary,
    success: bool)

  /** What `populateModuleCollections` leaves in the analysis. */
  datatype Populated = Populated(
    moduleById: OrderedMap<string, ModuleRecord>,
    dependencyGraph: OrderedMap<string, seq<JsEdge>>,
    modules: seq<ModuleRecord>,
    externals: seq<ModuleRecord>,
    warnings: seq<string>)

  /**
   * `populateModuleCollections`: the same map semantics as the typed builder, with this
   * pipeline's edges, and one warning per external module, in order, after the earlier ones.
   */
  method PopulateModuleCollections(nodes: seq<CandidateNode>, warnings0: seq<string>) returns (r: Populated)
    ensures r.moduleById == ModuleMapOf(nodes) && r.moduleById.Valid()
    ensures r.dependencyGraph == EdgeMapOf(JsEdgeOf, nodes)
    ensures r.modules == Filter(NotMissing, Values(r.moduleById))
    ensures r.externals == Filter(External, r.modules)
    ensures r.warnings == warnings0 + Map(ExternalWarning, r.externals)
  {
    var moduleMap, dependencyGraph := CollectJsModules(nodes);
    var modules := Filter(NotMissing, Values(moduleMap));
    var externals := Filter(External, modules);
    var warnings := AppendExternalWarnings(warnings0, externals);
    r := Populated(moduleMap, dependencyGraph, modules, externals, warnings);
  }

  /** The node loop of `populateModuleCollections`: records by id and this pipeline's edges. */
  method CollectJsModules(nodes: seq<CandidateNode>)
    returns (moduleMap: OrderedMap<string, ModuleRecord>, dependencyGraph: OrderedMap<string, seq<JsEdge>>)
    ensures moduleMap == ModuleMapOf(nodes) && moduleMap.Valid()
    ensures dependencyGraph == EdgeMapOf(JsEdgeOf, nodes)
  {
    moduleMap, dependencyGraph := Empty(), Empty();
    for k := 0 to |nodes|
      invariant moduleMap == ModuleMapOf(nodes[..k]) && dependencyGraph == EdgeMapOf(JsEdgeOf, nodes[..k])
      invariant moduleMap.Valid() && dependencyGraph.Valid()
    {
      assert nodes[..k + 1][..k] == nodes[..k];
      var node := nodes[k];
      if node.moduleRecord.None? {
        continue;
      }
      var moduleRecord := node.moduleRecord.value;
      moduleMap := moduleMap.Set(moduleRecord.id, moduleRecord);
      var dependencies, m := CollectDependencies(JsEdgeOf, moduleMap, node.dependencies);
      moduleMap := m;
      dependencyGraph := dependencyGraph.Set(moduleRecord.id, dependencies);
    }
    assert nodes[..|nodes|] == nodes;
  }

  /** The warning loop of `populateModuleCollections`: one warning per external module, in order. */
  method AppendExternalWarnings(warnings0: seq<string>, externals: seq<ModuleRecord>) returns (warnings: seq<string>)
    ensures warnings == warnings0 + Map(ExternalWarning, externals)
  {
    warnings := warnings0;
    for i := 0 to |externals|
      invariant warnings == warnings0 + Map(ExternalWarning, externals[..i])
    {
      MapSnoc(ExternalWarning, externals[..i], externals[i]);
      assert externals[..i + 1] == externals[..i] + [externals[i]];
      warnings := warnings + [ExternalWarning(externals[i])];
    }
    assert externals[..|externals|] == externals;
  }

  /** Each external module, and only those, is named in a warning, at its own position. */
  lemma ExternalWarningsProps(warnings0: seq<string>, externals: seq<ModuleRecord>)
    ensures |warnings0 + Map(ExternalWarning, externals)| == |warnings0| + |externals|
    ensures forall i :: 0 <= i < |externals| ==>
      (warnings0 + Map(ExternalWarning, externals))[|warnings0| + i] == ExternalWarning(externals[i])
  {
  }

  /** The sort step: the sort's records and their names, or nothing and the error appended. */
  ghost predicate SortOutcomeJs(graph: Graph, errors0: seq<JsError>, sorted: Result<seq<ModuleRecord>, JsError>,
                                sortedModules: seq<ModuleRecord>, topologicalOrder: seq<string>, errors: seq<JsError>)
    requires graph.Valid()
  {
    && (sorted.Ok? ==>
          && (exists order :: IsTopologicalOrder(graph, order, sorted.value))
          && sortedModules == sorted.value
          && topologicalOrder == Map(Pipeline.ModuleNameOf, sorted.value)
          && errors == errors0)
    && (sorted.Err? ==>
          && sortedModules == [] && topologicalOrder == []
          && errors == errors0 + [sorted.error])
  }

  /** The result over a non-empty graph; success exactly when no error was recorded. */
  ghost predicate GraphAnalysisJs(result: BuildResult, analysis: AnalysisJs,
                                  sorted: Result<seq<ModuleRecord>, JsError>, moduleSizeSum: seq<ModuleRecord> -> nat)
    requires result.graph.Valid()
  {
    var nodes := NodesOf(result.graph);
    && analysis.moduleById == ModuleMapOf(nodes) && analysis.moduleById.Valid()
    && analysis.dependencyGraph == EdgeMapOf(JsEdgeOf, nodes)
    && analysis.modules == Filter(NotMissing, Values(analysis.moduleById))
    && analysis.externals == Filter(External, analysis.modules)
    && analysis.warnings == Map(ExternalWarning, analysis.externals)
    && SortOutcomeJs(result.graph, result.errors, sorted, analysis.sortedModules, analysis.topologicalOrder, analysis.errors)
    && analysis.metrics.moduleCount == |analysis.modules|
    && analysis.metrics.externalCount == |analysis.externals|
    && analysis.metrics.moduleSizeSum == moduleSizeSum(analysis.modules)
    && analysis.metrics.estimatedBundleSize == analysis.metrics.moduleSizeSum
    && (analysis.success <==> analysis.errors == [])
  }

  class AnalysisPipelineJs {
    const config: WorkflowConfig
    const analyzer: DependencyAnalyzer

    constructor(config: WorkflowConfig, resolver: ResolverInterface)
      ensures this.config == config && fresh(analyzer) && analyzer.resolver == resolver
    {
      this.config := config;
      analyzer := new DependencyAnalyzer(resolver);
    }

    /** `run()`, without timing; the size of the modules' files is a parameter. */
    method Run(fs: FileSystem, moduleSizeSum: seq<ModuleRecord> -> nat)
      returns (analysis: AnalysisJs, ghost built: Result<BuildResult, JsError>, ghost sorted: Option<Result<seq<ModuleRecord>, JsError>>)
      modifies analyzer
      ensures analysis.obfuscation == GetObfuscationConfig(config.obfuscation)
      ensures built.Ok? ==> IsGraphOf(analyzer.resolver, fs, analyzer.resolver.createEntryRecord(config.entry), built.value)
      ensures built.Err? ==>
        && analysis.errors == [built.error] && !analysis.success
        && analysis.entryModule.None? && analysis.modules == [] && analysis.missing == [] && sorted.None?
      ensures built.Ok? ==>
        && analysis.entryModule == Some(built.value.entryModule)
        && analysis.missing == Map(FormatMissing, built.value.missing)
        && analysis.metrics.missingCount == |analysis.missing|
      ensures built.Ok? && |built.value.graph.keys| == 0 ==>
        analysis.success && analysis.modules == [] && analysis.warnings == [] && sorted.None?
      ensures built.Ok? && |built.value.graph.keys| > 0 ==>
        sorted.Some? && GraphAnalysisJs(built.value, analysis, sorted.value, moduleSizeSum)
    {
      var emptyMap: OrderedMap<string, ModuleRecord> := Empty();
      var emptyEdges: OrderedMap<string, seq<JsEdge>> := Empty();
      analysis := AnalysisJs(None, [], emptyMap, emptyEdges, [], [], [], [], [], [],
        MetricsJs(0, 0, 0, 0, 0), GetObfuscationConfig(config.obfuscation), true);
      sorted := None;

      var buildResult := analyzer.BuildDependencyGraph(fs, config.entry);
      built := buildResult;
      if buildResult.Err? {
        analysis := analysis.(errors := analysis.errors + [buildResult.error], success := false);
        return;
      }
      var result := buildResult.value;
      var missing := Map(FormatMissing, result.missing);
      analysis := analysis.(entryModule := Some(result.entryModule), missing := missing,
                            metrics := analysis.metrics.(missingCount := |missing|), errors := result.errors);
      if |result.graph.keys| == 0 {
        return;
      }
      ghost var s;
      analysis, s := AnalyzeGraph(result, analysis, moduleSizeSum);
      sorted := Some(s);
    }

    /** The `topologicalSort` step of `run()`: the sort's records, unfiltered, and their names. */
    method SortModules(graph: Graph, errors0: seq<JsError>)
      returns (sortedModules: seq<ModuleRecord>, topologicalOrder: seq<string>, errors: seq<JsError>,
               ghost sorted: Result<seq<ModuleRecord>, JsError>)
      requires graph.Valid()
      ensures SortOutcomeJs(graph, errors0, sorted, sortedModules, topologicalOrder, errors)
    {
      var sortResult, order, cycle := analyzer.TopologicalSort(graph);
      sorted := sortResult;
      errors := errors0;
      if sortResult.Ok? {
        sortedModules := sortResult.value;
        topologicalOrder := Map(Pipeline.ModuleNameOf, sortedModules);
      } else {
        errors := errors + [sortResult.error];
        sortedModules, topologicalOrder := [], [];
      }
    }

    /** The part of `run()` after a non-empty graph was built. */
    method AnalyzeGraph(result: BuildResult, analysis0: AnalysisJs, moduleSizeSum: seq<ModuleRecord> -> nat)
      returns (analysis: AnalysisJs, ghost sorted: Result<seq<ModuleRecord>, JsError>)
      requires result.graph.Valid() && |result.graph.keys| > 0
      requires analysis0.errors == result.errors && analysis0.warnings == []
      ensures GraphAnalysisJs(result, analysis, sorted, moduleSizeSum)
      ensures analysis.entryModule == analysis0.entryModule && analysis.missing == analysis0.missing
      ensures analysis.metrics.missingCount == analysis0.metrics.missingCount
      ensures analysis.obfuscation == analysis0.obfuscation
    {
      var populated := PopulateModuleCollections(NodesOf(result.graph), analysis0.warnings);
      assert [] + Map(ExternalWarning, populated.externals) == Map(ExternalWarning, populated.externals);
      var sortedModules, topologicalOrder, errors;
      sortedModules, topologicalOrder, errors, sorted := SortModules(result.graph, analysis0.errors);
      var sizeSum := moduleSizeSum(populated.modules);
      var metrics := MetricsJs(|populated.modules|, |populated.externals|, analysis0.metrics.missingCount, sizeSum, sizeSum);
      analysis := AnalysisJs(
        analysis0.entryModule,
        populated.modules,
        populated.moduleById,
        populated.dependencyGraph,
        sortedModules,
        topologicalOrder,
        populated.externals,
        analysis0.missing,
        populated.warnings,
        errors,
        metrics,
        analysis0.obfuscation,
        |errors| == 0);
    }
  }
}
