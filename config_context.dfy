/**
 * The analysis context: a snapshot of the configuration the analysis ran with, including the
 * external search roots resolved from environment variables.
 */
module ConfigContext {
  import opened Wrappers
  import opened Paths
  import opened OrderedMaps
  import opened JsValues
  import opened Env

  /**
   * The normalized configuration the analysis reads. Paths are already absolute; the
   * `modules` and `obfuscation` sections and the `_analyzeOnly` flag are kept as the
   * untyped values they may be, since the code tests their shape before using them.
   */
  datatype WorkflowConfig = WorkflowConfig(
    entry: AbsPath,
    output: AbsPath,
    sourceRoot: AbsPath,
    modules: Json,
    obfuscation: Json,
    analyzeOnly: Json)

  datatype EnvironmentEntry = EnvironmentEntry(name: string, paths: seq<string>)

  datatype EnvironmentInfo = EnvironmentInfo(
    hasExplicitConfig: bool,
    names: seq<string>,
    pathsByEnv: OrderedMap<string, seq<string>>,
    resolvedPaths: seq<string>,
    entries: seq<EnvironmentEntry>)

  datatype ExternalConfigInfo = ExternalConfigInfo(
    enabled: bool,
    recursive: bool,
    paths: seq<Json>,
    env: EnvironmentInfo)

  datatype AnalysisContext = AnalysisContext(
    rootDir: AbsPath,
    entryPath: AbsPath,
    outputPath: AbsPath,
    analyzeOnly: bool,
    ignoredPatterns: seq<Json>,
    ignoreMissing: bool,
    externals: ExternalConfigInfo)

  /** `Object.entries(m)`, each list copied. */
  function EntriesOf(m: OrderedMap<string, seq<string>>): (r: seq<(string, seq<string>)>)
    requires m.Valid()
    ensures |r| == |m.keys|
    ensures forall i :: 0 <= i < |r| ==> r[i] == (m.keys[i], m.values[m.keys[i]])
  {
    seq(|m.keys|, i requires 0 <= i < |m.keys| => (m.keys[i], m.values[m.keys[i]]))
  }

  /** `Object.fromEntries(entries)`: insert the pairs in order. */
  function FromEntries(entries: seq<(string, seq<string>)>): OrderedMap<string, seq<string>> {
    if |entries| == 0 then Empty()
    else
      var (k, v) := entries[|entries| - 1];
      FromEntries(entries[..|entries| - 1]).Set(k, v)
  }

  /** `clonePathsByEnv`: a copy with the same names, in the same order, and the same lists. */
  function ClonePathsByEnv(pathsByEnv: OrderedMap<string, seq<string>>): (r: OrderedMap<string, seq<string>>)
    requires pathsByEnv.Valid()
  {
    FromEntries(EntriesOf(pathsByEnv))
  }

  /** Rebuilding a map from its own entries gives the map back. */
  lemma CloneIsCopy(pathsByEnv: OrderedMap<string, seq<string>>)
    requires pathsByEnv.Valid()
    ensures ClonePathsByEnv(pathsByEnv) == pathsByEnv
  {
    var m := pathsByEnv;
    FromEntriesPrefix(m, |m.keys|);
    assert EntriesOf(m)[..|m.keys|] == EntriesOf(m);
    assert m.keys[..|m.keys|] == m.keys;
  }

  /** The first `n` entries rebuild the first `n` keys with their lists. */
  lemma {:induction false} FromEntriesPrefix(m: OrderedMap<string, seq<string>>, n: nat)
    requires m.Valid() && n <= |m.keys|
    ensures FromEntries(EntriesOf(m)[..n]) == OrderedMap(m.keys[..n], map k | k in m.keys[..n] :: m.values[k])
  {
    if n > 0 {
      var es := EntriesOf(m);
      FromEntriesPrefix(m, n - 1);
      assert es[..n][..n - 1] == es[..n - 1];
      assert m.keys[..n] == m.keys[..n - 1] + [m.keys[n - 1]];
      assert m.keys[n - 1] !in m.keys[..n - 1] by {
        forall j | 0 <= j < n - 1 ensures m.keys[j] != m.keys[n - 1] {
        }
      }
    }
  }

  /** `Boolean(v)`. */
  function ToBool(v: Json): (r: bool)
    ensures r <==> Truthy(v)
  {
    Truthy(v)
  }

  /** `Array.isArray(v) ? [...v] : []`. */
  function ArrayOrEmpty(v: Json): (r: seq<Json>)
    ensures v.Arr? ==> r == v.items
    ensures !v.Arr? ==> r == []
  {
    if v.Arr? then v.items else []
  }

  /** `config.modules ?? {}`. */
  function ModulesSection(config: WorkflowConfig): Json {
    OrElse(config.modules, Obj([], map[]))
  }

  /** `modulesConfig.external ?? {}`. */
  function ExternalSection(config: WorkflowConfig): Json {
    OrElse(Get(ModulesSection(config), "external"), Obj([], map[]))
  }

  /** `{ name, paths: [...(pathsByEnv[name] ?? [])] }` for each name. */
  function EnvEntries(names: seq<string>, pathsByEnv: OrderedMap<string, seq<string>>): (r: seq<EnvironmentEntry>)
    ensures |r| == |names|
    ensures forall i :: 0 <= i < |names| ==> r[i] == EnvironmentEntry(names[i], pathsByEnv.Get(names[i]).GetOr([]))
  {
    seq(|names|, i requires 0 <= i < |names| => EnvironmentEntry(names[i], pathsByEnv.Get(names[i]).GetOr([])))
  }

  /** Every listed name has its own list, so the `?? []` fallback never applies. */
  lemma EnvEntriesExact(env: map<string, string>, names: seq<string>, base: AbsPath)
    ensures (var entries := EnvEntries(names, PathsByEnv(env, names, base));
             forall i :: 0 <= i < |names| ==> entries[i] == EnvironmentEntry(names[i], PathsFor(env, names[i], base)))
  {
    PathsByEnvProps(env, names, base);
  }

  /**
   * What the context holds: the three paths as configured; `Boolean(...)` of the flags;
   * copies of the `ignore` and `external.paths` arrays (empty when not arrays); `recursive`
   * defaulting to true; and the names, per-name lists and combined list the environment
   * yields, with one entry per name.
   */
  ghost predicate IsContextOf(config: WorkflowConfig, env: map<string, string>, ctx: AnalysisContext) {
    var external := ExternalSection(config);
    var names := EnvNames(Get(external, "env"));
    && ctx.rootDir == config.sourceRoot && ctx.entryPath == config.entry && ctx.outputPath == config.output
    && ctx.analyzeOnly == Truthy(config.analyzeOnly)
    && ctx.ignoredPatterns == ArrayOrEmpty(Get(ModulesSection(config), "ignore"))
    && ctx.ignoreMissing == Truthy(Get(ModulesSection(config), "ignoreMissing"))
    && ctx.externals.enabled == Truthy(Get(external, "enabled"))
    && ctx.externals.recursive == (var v := Get(external, "recursive"); if v.Bool? then v.b else true)
    && ctx.externals.paths == ArrayOrEmpty(Get(external, "paths"))
    && (ctx.externals.env.hasExplicitConfig <==> Get(external, "env").Arr?)
    && ctx.externals.env.names == names
    && ctx.externals.env.pathsByEnv == PathsByEnv(env, names, config.sourceRoot)
    && ctx.externals.env.resolvedPaths == AllPaths(env, names, config.sourceRoot)
    && ctx.externals.env.entries == EnvEntries(names, ctx.externals.env.pathsByEnv)
  }

  /** `buildAnalysisContext(config)`, with the process environment as a parameter. */
  method BuildAnalysisContext(config: WorkflowConfig, env: map<string, string>) returns (ctx: AnalysisContext)
    ensures IsContextOf(config, env, ctx)
  {
    var modulesConfig := ModulesSection(config);
    var externalConfig := ExternalSection(config);
    var ignoredPatterns := ArrayOrEmpty(Get(modulesConfig, "ignore"));
    var externalPaths := ArrayOrEmpty(Get(externalConfig, "paths"));

    var envInfo := ResolveExternalEnv(Get(externalConfig, "env"), config.sourceRoot, env);
    var envEntries := EnvEntries(envInfo.envNames, envInfo.pathsByEnv);

    var recursive := Get(externalConfig, "recursive");
    PathsByEnvProps(env, envInfo.envNames, config.sourceRoot);
    CloneIsCopy(envInfo.pathsByEnv);
    var envSection := EnvironmentInfo(
      envInfo.hasExplicitConfig,
      envInfo.envNames,
      ClonePathsByEnv(envInfo.pathsByEnv),
      envInfo.allPaths,
      envEntries);
    ctx := AnalysisContext(
      config.sourceRoot,
      config.entry,
      config.output,
      ToBool(config.analyzeOnly),
      ignoredPatterns,
      ToBool(Get(modulesConfig, "ignoreMissing")),
      ExternalConfigInfo(
        ToBool(Get(externalConfig, "enabled")),
        if recursive.Bool? then recursive.b else true,
        externalPaths,
        envSection));
  }
}
