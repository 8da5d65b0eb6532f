/** The summary of external modules and external search roots shown in the report header. */
module ExternalSummary {
  import opened Wrappers
  import opened Strings
  import opened Seqs
  import opened JsValues
  import opened Records
  import opened OrderedMaps
  import opened ConfigContext
  import Pipeline

  /** The strings among a list of values, in order. */
  function StringsOf(items: seq<Json>): (r: seq<string>)
    ensures |r| <= |items|
    ensures forall s :: s in r <==> Str(s) in items
  {
    if |items| == 0 then []
    else
      var rest := StringsOf(items[..|items| - 1]);
      assert forall v :: v in items <==> v in items[..|items| - 1] || v == items[|items| - 1];
      if items[|items| - 1].Str? then rest + [items[|items| - 1].s] else rest
  }

  /** `toStringArray(value)`: the string elements of an array; nothing for anything else. */
  function ToStringArray(value: Json): (r: seq<string>)
    ensures !value.Arr? ==> r == []
    ensures value.Arr? ==> forall s :: s in r <==> Str(s) in value.items
  {
    if value.Arr? then StringsOf(value.items) else []
  }

  /** A list that is all strings passes through unchanged. */
  lemma {:induction false} ToStringArrayOfStrings(xs: seq<string>)
    ensures ToStringArray(Arr(Map(s => Str(s), xs))) == xs
    decreases |xs|
  {
    if |xs| > 0 {
      ToStringArrayOfStrings(xs[..|xs| - 1]);
      assert Map(s => Str(s), xs)[..|xs| - 1] == Map(s => Str(s), xs[..|xs| - 1]);
    }
  }

  datatype SummaryModule = SummaryModule(name: string, tags: seq<string>)

  datatype EnvEntry = EnvEntry(name: string, paths: seq<string>)

  datatype EnvDetails = EnvDetails(hasPaths: bool, totalPaths: nat, entries: seq<EnvEntry>)

  datatype VerboseDetails = VerboseDetails(
    recursive: bool,
    paths: seq<string>,
    modules: seq<SummaryModule>,
    env: EnvDetails)

  datatype Summary = Summary(
    countLabel: string,
    missingCount: nat,
    envLabel: string,
    verboseDetails: VerboseDetails)

  /** `n` followed by the noun, singular exactly when `n` is 1. */
  function Counted(n: nat, singular: string, plural: string): string {
    NatToString(n) + " " + (if n == 1 then singular else plural)
  }

  /** `N module(s)`, then ` (k missing)` when some external modules are missing. */
  function CountLabel(externalCount: nat, missingCount: nat): (r: string)
    ensures StartsWith(r, Counted(externalCount, "module", "modules"))
    ensures missingCount == 0 <==> r == Counted(externalCount, "module", "modules")
    ensures missingCount > 0 ==> EndsWith(r, " missing)")
  {
    var base := Counted(externalCount, "module", "modules");
    if missingCount > 0 then
      var r := base + " (" + NatToString(missingCount) + " missing)";
      assert r[..|base|] == base;
      r
    else base
  }

  predicate IsMissingExternal(m: Pipeline.MissingReport) {
    m.isExternal
  }

  function HasPaths(entry: EnvEntry): bool {
    |entry.paths| > 0
  }

  /** `envEntries.some((entry) => entry.paths.length > 0)`. */
  function AnyHasPaths(entries: seq<EnvEntry>): (r: bool)
    ensures r <==> exists i :: 0 <= i < |entries| && HasPaths(entries[i])
  {
    if |entries| == 0 then false
    else
      assert forall i :: 1 <= i < |entries| ==> entries[i] == entries[1..][i - 1];
      HasPaths(entries[0]) || AnyHasPaths(entries[1..])
  }

  /** `none`, unless some variable contributed paths: then the names and the resolved path count. */
  function EnvLabel(names: seq<string>, hasPaths: bool, resolvedCount: nat): (r: string)
    ensures r == "none" <==> !hasPaths
  {
    if hasPaths then
      var r := (if |names| > 0 then Join(names, ", ") else "env") + " (" + Counted(resolvedCount, "path", "paths") + ")";
      assert r[|r| - 1] == ')';
      r
    else "none"
  }

  /** One environment variable's entry: its paths from `pathsByEnv`, formatted. */
  function EnvEntryOf(name: string, pathsByEnv: Option<OrderedMap<string, seq<string>>>, formatPath: string -> string): EnvEntry {
    var raw := if pathsByEnv.Some? then pathsByEnv.value.Get(name).GetOr([]) else [];
    EnvEntry(name, Map(formatPath, raw))
  }

  /** The tags of an external module in the verbose list. */
  function ExternalTags(m: ModuleRecord): seq<string> {
    if m.overrideApplied then ["external", "override"] else ["external"]
  }

  /** `buildExternalSummary(analysis, {formatPath})`. */
  function BuildExternalSummary(
    externals: Option<seq<ModuleRecord>>,
    missing: Option<seq<Pipeline.MissingReport>>,
    externalsContext: Option<ExternalConfigInfo>,
    formatPath: string -> string): (r: Summary)
    ensures var ext := externals.GetOr([]);
      var missingExternals := Filter(IsMissingExternal, missing.GetOr([]));
      && r.missingCount == |missingExternals|
      && r.countLabel == CountLabel(|ext|, |missingExternals|)
      && |r.verboseDetails.modules| == |ext| + |missingExternals|
      && (forall i :: 0 <= i < |ext| ==>
            r.verboseDetails.modules[i] == SummaryModule(ext[i].moduleName, ExternalTags(ext[i])))
      && (forall i :: 0 <= i < |missingExternals| ==>
            r.verboseDetails.modules[|ext| + i].tags == ["external", "missing"] &&
            r.verboseDetails.modules[|ext| + i].name == Pipeline.MissingNameOf(missingExternals[i]))
    ensures r.verboseDetails.recursive == (externalsContext.None? || externalsContext.value.recursive)
    ensures r.verboseDetails.paths ==
      Map(formatPath, if externalsContext.Some? then ToStringArray(Arr(externalsContext.value.paths)) else [])
    ensures var envNames := if externalsContext.Some? then externalsContext.value.env.names else [];
      var pathsByEnv := if externalsContext.Some? then Some(externalsContext.value.env.pathsByEnv) else None;
      var resolvedEnvPaths := if externalsContext.Some? then externalsContext.value.env.resolvedPaths else [];
      && |r.verboseDetails.env.entries| == |envNames|
      && (forall i :: 0 <= i < |envNames| ==> r.verboseDetails.env.entries[i] == EnvEntryOf(envNames[i], pathsByEnv, formatPath))
      && r.verboseDetails.env.totalPaths == |resolvedEnvPaths|
      && (r.verboseDetails.env.hasPaths ==> r.envLabel == EnvLabel(envNames, true, |resolvedEnvPaths|))
    ensures r.envLabel == "none" <==> !r.verboseDetails.env.hasPaths
    ensures r.verboseDetails.env.hasPaths <==>
      exists i :: 0 <= i < |r.verboseDetails.env.entries| && |r.verboseDetails.env.entries[i].paths| > 0
  {
    var ext := externals.GetOr([]);
    var missingExternals := Filter(IsMissingExternal, missing.GetOr([]));
    var envContext := if externalsContext.Some? then Some(externalsContext.value.env) else None;
    var envNames := if envContext.Some? then envContext.value.names else [];
    var pathsByEnv := if envContext.Some? then Some(envContext.value.pathsByEnv) else None;
    var resolvedEnvPaths := if envContext.Some? then envContext.value.resolvedPaths else [];
    var envEntries := seq(|envNames|, i requires 0 <= i < |envNames| => EnvEntryOf(envNames[i], pathsByEnv, formatPath));
    var envHasPaths := AnyHasPaths(envEntries);
    var rawPaths := if externalsContext.Some? then ToStringArray(Arr(externalsContext.value.paths)) else [];
    var modules :=
      seq(|ext|, i requires 0 <= i < |ext| => SummaryModule(ext[i].moduleName, ExternalTags(ext[i]))) +
      seq(|missingExternals|, i requires 0 <= i < |missingExternals| =>
        SummaryModule(Pipeline.MissingNameOf(missingExternals[i]), ["external", "missing"]));
    Summary(
      CountLabel(|ext|, |missingExternals|),
      |missingExternals|,
      EnvLabel(envNames, envHasPaths, |resolvedEnvPaths|),
      VerboseDetails(
        externalsContext.None? || externalsContext.value.recursive,
        Map(formatPath, rawPaths),
        modules,
        EnvDetails(envHasPaths, |resolvedEnvPaths|, envEntries)))
  }

  /** The number of missing entries flagged external. */
  function ExternalCount(missing: seq<Pipeline.MissingReport>): nat {
    if |missing| == 0 then 0
    else ExternalCount(missing[..|missing| - 1]) + (if missing[|missing| - 1].isExternal then 1 else 0)
  }

  /** The missing count is exactly the number of missing entries flagged external. */
  lemma {:induction false} MissingCountIsExternalCount(missing: seq<Pipeline.MissingReport>)
    ensures |Filter(IsMissingExternal, missing)| == ExternalCount(missing)
    decreases |missing|
  {
    if |missing| > 0 {
      MissingCountIsExternalCount(missing[..|missing| - 1]);
    }
  }

  /** With one external module and nothing missing the label is singular. */
  lemma SingleModuleLabel()
    ensures CountLabel(1, 0) == "1 module"
    ensures CountLabel(2, 1) == "2 modules (1 missing)"
  {
    assert NatToString(1) == "1";
    assert NatToString(2) == "2";
    assert Counted(1, "module", "modules") == "1" + " " + "module";
    assert Counted(2, "module", "modules") == "2" + " " + "modules";
    assert CountLabel(2, 1) == "2" + " " + "modules" + " (" + "1" + " missing)";
    CountLiterals();
  }

  lemma CountLiterals()
    ensures "1" + " " + "module" == "1 module"
    ensures "2" + " " + "modules" + " (" + "1" + " missing)" == "2 modules (1 missing)"
  {
  }
}
