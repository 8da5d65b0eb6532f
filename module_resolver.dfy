/**
 * Module resolution: how a `require` id found in a Lua file becomes a module record.
 * The ignore set is consulted first, then the overrides, then the search candidates
 * (current directory, source root, external roots), each probed as `X.lua` and then
 * `X/init.lua`.
 */
module Resolution {
  import opened Wrappers
  import opened Strings
  import opened Paths
  import opened Records
  import Seqs

  /** `moduleId.replace(/\\/g, '/')`: backslashes become forward slashes. */
  function NormalizeModuleId(moduleId: string): (r: string)
    ensures |r| == |moduleId|
    ensures '\\' !in r
    ensures forall i :: 0 <= i < |moduleId| && moduleId[i] != '\\' ==> r[i] == moduleId[i]
  {
    ReplaceChar(moduleId, '\\', '/')
  }

  /** Normalizing an id twice changes nothing more. */
  lemma NormalizeModuleIdIdempotent(moduleId: string)
    ensures NormalizeModuleId(NormalizeModuleId(moduleId)) == NormalizeModuleId(moduleId)
  {
  }

  /** The record for an ignored id: no file, flagged ignored, never analyzed. */
  function CreateIgnoredRecord(moduleId: string): (r: ModuleRecord)
    ensures r.id == moduleId && r.moduleName == moduleId
    ensures r.filePath.None? && r.isIgnored && !r.analyzeDependencies
    ensures !r.isExternal && !r.overrideApplied && !r.isMissing
  {
    ModuleRecord(moduleId, moduleId, None, true, false, false, false, false, None)
  }

  /** An override's `path` counts only when it is a non-empty string. */
  predicate HasOverridePath(o: Option<OverrideConfig>) {
    o.Some? && o.value.path.Some? && o.value.path.value != ""
  }

  class ModuleResolver {
    const sourceRoot: AbsPath
    const ignoreSet: set<string>
    const overrides: map<string, OverrideConfig>
    const externalConfig: ExternalConfig

    /** Ignore entries are stored normalized; overrides and the external block are kept as given. */
    constructor(config: ResolverConfig)
      ensures sourceRoot == config.sourceRoot
      ensures ignoreSet == set id | id in config.modules.ignore :: NormalizeModuleId(id)
      ensures overrides == config.modules.overrides
      ensures externalConfig == config.modules.external
    {
      sourceRoot := config.sourceRoot;
      ignoreSet := set id | id in config.modules.ignore :: NormalizeModuleId(id);
      overrides := config.modules.overrides;
      externalConfig := config.modules.external;
    }

    /** `path.relative(sourceRoot, f)` neither climbs out (`..`) nor is absolute. */
    predicate IsWithinSource(filePath: AbsPath) {
      var rel := Relative(sourceRoot, filePath);
      !StartsWith(rel, "..") && !IsAbsolute(rel)
    }

    /**
     * A normalized path is within the source root exactly when the root is a prefix of it
     * and the first segment below the root does not itself start with `..`.
     */
    lemma IsWithinSourceIff(filePath: AbsPath)
      requires IsNormal(filePath)
      ensures IsWithinSource(filePath) <==>
        IsPrefix(sourceRoot, filePath) &&
        (|filePath| == |sourceRoot| || !StartsWith(filePath[|sourceRoot|], ".."))
    {
      var c := CommonPrefix(sourceRoot, filePath);
      CommonPrefixOfPrefix(sourceRoot, filePath);
      var segs := seq(|sourceRoot| - c, _ => "..") + filePath[c..];
      var rel := Join(segs, "/");
      assert rel == Relative(sourceRoot, filePath);
      assert forall i :: 0 <= i < |segs| ==> segs[i] != "" && '/' !in segs[i] by {
        forall i | 0 <= i < |segs| ensures segs[i] != "" && '/' !in segs[i] {
          if i >= |sourceRoot| - c {
            assert segs[i] == filePath[c + i - (|sourceRoot| - c)];
          }
        }
      }
      if |segs| > 0 {
        JoinStartsWithDots(segs);
        JoinHead(segs);
        assert rel[0] == segs[0][0];
      }
      if c < |sourceRoot| {
        assert segs[0] == "..";
      } else if |filePath| > |sourceRoot| {
        assert segs[0] == filePath[|sourceRoot|];
      }
    }

    /**
     * The dotted module name of a file. Inside the source root: the relative path with
     * `.lua` stripped, a trailing `/init` collapsed onto its parent and `/` mapped to `.`.
     * Outside: the fallback id when there is one, else the whole path dotted.
     */
    function DeriveModuleName(filePath: AbsPath, fallbackId: string): string {
      if IsWithinSource(filePath) then
        NameWithinSource(ReplaceChar(Relative(sourceRoot, filePath), '\\', '/'), fallbackId)
      else if fallbackId != "" then fallbackId
      else
        var normalized := StripSuffix(ToString(filePath), ".lua");
        ReplaceChar(ReplaceChar(normalized, '\\', '.'), '/', '.')
    }

    /**
     * For a file `sourceRoot/s1/.../sn` (n >= 1, no backslashes, s1 not starting with `..`)
     * the name is the segments joined with `.`, after `.lua` is stripped from sn, with an
     * `init` last segment dropped when it has a parent; a root-level `init.lua` is named
     * `init`, whatever the fallback.
     */
    lemma DeriveModuleNameInSource(segs: seq<string>, fallbackId: string)
      requires |segs| > 0 && IsNormal(sourceRoot + segs)
      requires !StartsWith(segs[0], "..")
      requires forall i :: 0 <= i < |segs| ==> '\\' !in segs[i]
      ensures var n := |segs|; var stem := StripSuffix(segs[n - 1], ".lua");
        DeriveModuleName(sourceRoot + segs, fallbackId) ==
          if stem == "init" && n > 1 then Join(segs[..n - 1], ".")
          else Join(segs[..n - 1] + [stem], ".")
    {
      RelativeOfSegments(segs);
      NameOfSegments(segs, fallbackId);
    }

    /** Below the root, the backslash-normalized relative path is the segments joined with `/`. */
    lemma RelativeOfSegments(segs: seq<string>)
      requires |segs| > 0 && IsNormal(sourceRoot + segs)
      requires !StartsWith(segs[0], "..")
      requires forall i :: 0 <= i < |segs| ==> '\\' !in segs[i]
      ensures IsNormal(segs) && IsWithinSource(sourceRoot + segs)
      ensures ReplaceChar(Relative(sourceRoot, sourceRoot + segs), '\\', '/') == Join(segs, "/")
    {
      var f := sourceRoot + segs;
      var n := |segs|;
      assert IsNormal(segs) by {
        forall i | 0 <= i < n ensures IsSegment(segs[i]) {
          assert segs[i] == f[|sourceRoot| + i];
        }
      }
      assert f[..|sourceRoot|] == sourceRoot;
      assert f[|sourceRoot|] == segs[0];
      IsWithinSourceIff(f);
      assert CommonPrefix(sourceRoot, f) == |sourceRoot|;
      assert f[|sourceRoot|..] == segs;
      var rel := Join(segs, "/");
      assert Relative(sourceRoot, f) == rel by {
        assert seq(0, _ => "..") + segs == segs;
      }
      NoSlashSegments(segs);
      JoinNoChar(segs, '\\');
    }

    /** `overridePath` without its `.lua`, taken relative to the source root unless absolute. */
    function ResolveOverridePath(overridePath: string): (r: AbsPath)
      ensures r == Paths.Resolve(sourceRoot, StripSuffix(overridePath, ".lua"))
    {
      var candidate := StripSuffix(overridePath, ".lua");
      if IsAbsolute(candidate) then Paths.Resolve([], candidate) else Paths.Resolve(sourceRoot, candidate)
    }

    /** `tryPath`: `base.lua` if it exists, else `base/init.lua` if it exists, else nothing. */
    function TryPath(fs: FileSystem, basePath: AbsPath): (r: Option<AbsPath>)
      ensures r.Some? ==> r.value in fs
      ensures AppendSuffix(basePath, ".lua") in fs ==> r == Some(AppendSuffix(basePath, ".lua"))
      ensures AppendSuffix(basePath, ".lua") !in fs ==>
        r == (if basePath + ["init.lua"] in fs then Some(basePath + ["init.lua"]) else None)
    {
      var withExtension := AppendSuffix(basePath, ".lua");
      if withExtension in fs then Some(withExtension)
      else if basePath + ["init.lua"] in fs then Some(basePath + ["init.lua"])
      else None
    }

    /** An external root as the resolver uses it: absolute as given, else against the source root. */
    function ExternalRoot(p: string): AbsPath {
      if IsAbsolute(p) then Paths.Resolve([], p) else Paths.Resolve(sourceRoot, p)
    }

    /** The search candidates for an id, in probing order. */
    function Candidates(moduleId: string, currentDir: AbsPath): (r: seq<AbsPath>)
      ensures |r| == 2 + |externalConfig.paths|
      ensures var pathFromRequire := ReplaceChar(moduleId, '.', '/');
        r[0] == Paths.Resolve(currentDir, pathFromRequire) &&
        r[1] == Paths.Resolve(sourceRoot, pathFromRequire) &&
        forall i :: 0 <= i < |externalConfig.paths| ==>
          r[2 + i] == Paths.Resolve(ExternalRoot(externalConfig.paths[i]), pathFromRequire)
    {
      var pathFromRequire := ReplaceChar(moduleId, '.', '/');
      [Paths.Resolve(currentDir, pathFromRequire), Paths.Resolve(sourceRoot, pathFromRequire)] +
        seq(|externalConfig.paths|, i requires 0 <= i < |externalConfig.paths| =>
          Paths.Resolve(ExternalRoot(externalConfig.paths[i]), pathFromRequire))
    }

    /** The probe result of the first candidate `tryPath` accepts. */
    function FirstHit(fs: FileSystem, candidates: seq<AbsPath>): (r: Option<AbsPath>)
      ensures r.None? <==> forall i :: 0 <= i < |candidates| ==> TryPath(fs, candidates[i]).None?
      ensures r.Some? ==> exists i :: (0 <= i < |candidates| && TryPath(fs, candidates[i]) == r &&
        forall j :: 0 <= j < i ==> TryPath(fs, candidates[j]).None?)
    {
      if |candidates| == 0 then None
      else
        var hit := TryPath(fs, candidates[0]);
        if hit.Some? then hit
        else
          var rest := FirstHit(fs, candidates[1..]);
          assert forall i :: 1 <= i < |candidates| ==> candidates[i] == candidates[1..][i - 1];
          if rest.Some? then
            var k :| 0 <= k < |candidates[1..]| && TryPath(fs, candidates[1..][k]) == rest &&
              forall j :: 0 <= j < k ==> TryPath(fs, candidates[1..][j]).None?;
            assert TryPath(fs, candidates[k + 1]) == rest;
            rest
          else rest
    }

    /**
     * Whether a module's own requires are followed: a boolean `recursive` on its override
     * wins; otherwise an external module follows `external.recursive` when that is a boolean;
     * otherwise yes.
     */
    function AnalyzeDependencies(isExternal: bool, overrideConfig: Option<OverrideConfig>): (r: bool)
      ensures overrideConfig.Some? && overrideConfig.value.recursive.Some? ==>
        r == overrideConfig.value.recursive.value
      ensures (!(overrideConfig.Some? && overrideConfig.value.recursive.Some?) && isExternal &&
        externalConfig.recursive.Some?) ==> r == externalConfig.recursive.value
      ensures (!(overrideConfig.Some? && overrideConfig.value.recursive.Some?) &&
        !(isExternal && externalConfig.recursive.Some?)) ==> r
    {
      if overrideConfig.Some? && overrideConfig.value.recursive.Some? then overrideConfig.value.recursive.value
      else if isExternal && externalConfig.recursive.Some? then externalConfig.recursive.value
      else true
    }

    /** The record of a resolved file. */
    function CreateRecord(moduleId: string, filePath: AbsPath, overrideApplied: bool,
                          overrideConfig: Option<OverrideConfig>): (r: ModuleRecord)
      ensures r.moduleName == DeriveModuleName(filePath, moduleId)
      ensures r.id == if moduleId != "" then moduleId else r.moduleName
      ensures r.filePath == Some(filePath)
      ensures r.isExternal == !IsWithinSource(filePath)
      ensures r.analyzeDependencies == AnalyzeDependencies(r.isExternal, overrideConfig)
      ensures r.overrideApplied == overrideApplied && !r.isIgnored && !r.isMissing && r.missingError.None?
    {
      var moduleName := DeriveModuleName(filePath, moduleId);
      var isExternal := !IsWithinSource(filePath);
      ModuleRecord(if moduleId != "" then moduleId else moduleName, moduleName, Some(filePath),
        false, isExternal, overrideApplied, AnalyzeDependencies(isExternal, overrideConfig), false, None)
    }

    /** The entry file's record: its id is its own derived name. */
    function CreateEntryRecord(filePath: AbsPath): (r: ModuleRecord)
      ensures r.filePath == Some(filePath) && !r.overrideApplied && !r.isIgnored
      ensures r.moduleName == DeriveModuleName(filePath, DeriveModuleName(filePath, ""))
      ensures IsWithinSource(filePath) ==> r.analyzeDependencies && !r.isExternal
    {
      CreateRecord(DeriveModuleName(filePath, ""), filePath, false, None)
    }

    /** What `resolve` returns or throws. */
    function ResolveSpec(fs: FileSystem, requirePath: string, currentDir: AbsPath): Result<ModuleRecord, JsError> {
      var moduleId := NormalizeModuleId(requirePath);
      if moduleId in ignoreSet then Ok(CreateIgnoredRecord(moduleId))
      else
        var override := if moduleId in overrides then Some(overrides[moduleId]) else None;
        if HasOverridePath(override) then
          var resolvedPath := TryPath(fs, ResolveOverridePath(override.value.path.value));
          if resolvedPath.None? then
            Err(JsError("Override path for module '" + moduleId + "' not found: " + override.value.path.value, None))
          else Ok(CreateRecord(moduleId, resolvedPath.value, true, override))
        else
          var hit := FirstHit(fs, Candidates(moduleId, currentDir));
          if hit.None? then Err(JsError("Module not found: " + moduleId, None))
          else Ok(CreateRecord(moduleId, hit.value, false, override))
    }

    /**
     * Ignored ids win outright; an override with a path is probed alone (and is the only
     * way to an `overrideApplied` record); otherwise the first accepting candidate wins,
     * and when none accepts the id is reported not found.
     */
    lemma ResolveSpecProps(fs: FileSystem, requirePath: string, currentDir: AbsPath)
      ensures var moduleId := NormalizeModuleId(requirePath);
        moduleId in ignoreSet ==> ResolveSpec(fs, requirePath, currentDir) == Ok(CreateIgnoredRecord(moduleId))
      ensures var moduleId := NormalizeModuleId(requirePath);
        var override := if moduleId in overrides then Some(overrides[moduleId]) else None;
        var r := ResolveSpec(fs, requirePath, currentDir);
        var probe := if HasOverridePath(override)
          then TryPath(fs, ResolveOverridePath(override.value.path.value)) else None;
        (moduleId !in ignoreSet && HasOverridePath(override)) ==>
          (r.Ok? <==> probe.Some?) &&
          (r.Ok? ==> (r.value.overrideApplied && r.value.filePath == probe)) &&
          (r.Err? ==> (r.error.message ==
            "Override path for module '" + moduleId + "' not found: " + override.value.path.value))
      ensures var moduleId := NormalizeModuleId(requirePath);
        var override := if moduleId in overrides then Some(overrides[moduleId]) else None;
        var candidates := Candidates(moduleId, currentDir);
        var r := ResolveSpec(fs, requirePath, currentDir);
        (moduleId !in ignoreSet && !HasOverridePath(override)) ==>
          (r.Err? <==> (forall i :: 0 <= i < |candidates| ==> TryPath(fs, candidates[i]).None?)) &&
          (r.Err? ==> r.error.message == "Module not found: " + moduleId) &&
          (r.Ok? ==> (!r.value.overrideApplied &&
            exists i :: (0 <= i < |candidates| &&
              r.value.filePath == TryPath(fs, candidates[i]) &&
              forall j :: 0 <= j < i ==> TryPath(fs, candidates[j]).None?)))
    {
      var moduleId := NormalizeModuleId(requirePath);
      var override := if moduleId in overrides then Some(overrides[moduleId]) else None;
      if moduleId !in ignoreSet && !HasOverridePath(override) {
        var candidates := Candidates(moduleId, currentDir);
        var hit := FirstHit(fs, candidates);
        if hit.Some? {
          var k :| 0 <= k < |candidates| && TryPath(fs, candidates[k]) == hit &&
            forall j :: 0 <= j < k ==> TryPath(fs, candidates[j]).None?;
          assert CreateRecord(moduleId, hit.value, false, override).filePath == TryPath(fs, candidates[k]);
        }
      }
    }

    /** `resolve(requirePath, currentDir)`, proved to compute ResolveSpec. */
    method Resolve(fs: FileSystem, requirePath: string, currentDir: AbsPath)
      returns (r: Result<ModuleRecord, JsError>)
      ensures r == ResolveSpec(fs, requirePath, currentDir)
    {
      var moduleId := NormalizeModuleId(requirePath);
      if moduleId in ignoreSet {
        return Ok(CreateIgnoredRecord(moduleId));
      }
      var override := if moduleId in overrides then Some(overrides[moduleId]) else None;
      if HasOverridePath(override) {
        var overrideCandidate := ResolveOverridePath(override.value.path.value);
        var resolvedPath := TryPath(fs, overrideCandidate);
        if resolvedPath.None? {
          return Err(JsError("Override path for module '" + moduleId + "' not found: " + override.value.path.value, None));
        }
        return Ok(CreateRecord(moduleId, resolvedPath.value, true, override));
      }
      var candidates := CandidateList(moduleId, currentDir);
      var hit := Probe(fs, candidates);
      if hit.None? {
        return Err(JsError("Module not found: " + moduleId, None));
      }
      return Ok(CreateRecord(moduleId, hit.value, false, override));
    }

    /** The candidate loop: the current directory, the source root, then each external root. */
    method CandidateList(moduleId: string, currentDir: AbsPath) returns (candidates: seq<AbsPath>)
      ensures candidates == Candidates(moduleId, currentDir)
    {
      var pathFromRequire := ReplaceChar(moduleId, '.', '/');
      candidates := [Paths.Resolve(currentDir, pathFromRequire), Paths.Resolve(sourceRoot, pathFromRequire)];
      var externalPaths := externalConfig.paths;
      ghost var all := Candidates(moduleId, currentDir);
      for k := 0 to |externalPaths|
        invariant candidates == all[..2 + k]
      {
        var next := Paths.Resolve(ExternalRoot(externalPaths[k]), pathFromRequire);
        Seqs.PrefixPush(candidates, all, 2 + k, next);
        candidates := candidates + [next];
      }
      assert all[..2 + |externalPaths|] == all;
    }

    /** The probing loop: the first candidate `tryPath` accepts, if any. */
    method Probe(fs: FileSystem, candidates: seq<AbsPath>) returns (hit: Option<AbsPath>)
      ensures hit == FirstHit(fs, candidates)
    {
      for k := 0 to |candidates|
        invariant FirstHit(fs, candidates) == FirstHit(fs, candidates[k..])
      {
        var resolvedPath := TryPath(fs, candidates[k]);
        if resolvedPath.Some? {
          return resolvedPath;
        }
        assert candidates[k..][1..] == candidates[k + 1..];
      }
      return None;
    }
  }

  /**
   * The name of a file inside the source root from its relative path: `.lua` stripped, a
   * trailing `/init` collapsed onto its parent (a bare `init` keeps the fallback id, else
   * `init`), then `/` mapped to `.`.
   */
  function NameWithinSource(relativePath: string, fallbackId: string): string {
    NameWithoutExtension(StripSuffix(relativePath, ".lua"), fallbackId)
  }

  function NameWithoutExtension(withoutExtension: string, fallbackId: string): string {
    if EndsWith(withoutExtension, "/init") then
      var parentPath := withoutExtension[..|withoutExtension| - 5];
      if |parentPath| == 0 then (if fallbackId != "" then fallbackId else "init")
      else ReplaceChar(parentPath, '/', '.')
    else ReplaceChar(withoutExtension, '/', '.')
  }

  /** The name of a joined segment list: its segments dotted, `.lua` and a non-root `init` dropped. */
  lemma NameOfSegments(segs: seq<string>, fallbackId: string)
    requires |segs| > 0 && IsNormal(segs)
    ensures var n := |segs|; var stem := StripSuffix(segs[n - 1], ".lua");
      NameWithinSource(Join(segs, "/"), fallbackId) ==
        if stem == "init" && n > 1 then Join(segs[..n - 1], ".")
        else Join(segs[..n - 1] + [stem], ".")
  {
    var n := |segs|;
    var front := segs[..n - 1];
    var stem := StripSuffix(segs[n - 1], ".lua");
    NoSlashSegments(segs);
    JoinStripLua(segs);
    assert '/' !in stem;
    assert IsNormal(front) by {
      forall i | 0 <= i < n - 1 ensures IsSegment(front[i]) {
        assert front[i] == segs[i];
      }
    }
    if n == 1 {
      NameOfSingle(stem, fallbackId);
    } else if stem == "init" {
      NameOfNestedInit(front, fallbackId);
    } else {
      NameOfNestedStem(front, stem, fallbackId);
    }
  }

  /** `d/init` names the directory `d`. */
  lemma NameOfNestedInit(front: seq<string>, fallbackId: string)
    requires |front| > 0 && IsNormal(front)
    ensures NameWithoutExtension(Join(front + ["init"], "/"), fallbackId) == Join(front, ".")
  {
    var j := Join(front, "/");
    JoinSnoc(front, "init");
    SlashInit(j);
    JoinNonEmpty(front);
    NoSlashSegments(front);
    ReplaceJoin(front);
  }

  /** A nested path whose stem is not `init` keeps every segment. */
  lemma NameOfNestedStem(front: seq<string>, stem: string, fallbackId: string)
    requires |front| > 0 && IsNormal(front) && '/' !in stem && stem != "init"
    ensures NameWithoutExtension(Join(front + [stem], "/"), fallbackId) == Join(front + [stem], ".")
  {
    JoinSnoc(front, stem);
    EndsWithSlashInit(Join(front, "/"), stem);
    NoSlashSegments(front);
    NoSlashSegments(front + [stem]);
    ReplaceJoin(front + [stem]);
  }

  /** A single segment: never ends in `/init`, so it is its own name. */
  lemma NameOfSingle(stem: string, fallbackId: string)
    requires '/' !in stem
    ensures NameWithoutExtension(Join([stem], "/"), fallbackId) == Join([stem], ".")
  {
    assert Join([stem], "/") == stem;
    if |stem| >= 5 {
      assert stem[|stem| - 5..][0] == stem[|stem| - 5];
    }
    ReplaceJoin([stem]);
  }

  lemma JoinSnoc(front: seq<string>, last: string)
    requires |front| > 0
    ensures Join(front + [last], "/") == Join(front, "/") + "/" + last
  {
    JoinLast(front + [last]);
    assert (front + [last])[..|front|] == front;
  }

  lemma SlashInit(j: string)
    ensures var s := j + "/" + "init"; EndsWith(s, "/init") && s[..|s| - 5] == j
  {
    var s := j + "/" + "init";
    assert s[|s| - 5..] == "/init";
    assert s[..|s| - 5] == j;
  }

  // Helpers about joined segment lists.

  lemma NoSlashSegments(segs: seq<string>)
    requires IsNormal(segs) || forall i :: 0 <= i < |segs| ==> '/' !in segs[i]
    ensures forall i :: 0 <= i < |segs| ==> '/' !in segs[i]
  {
  }

  lemma {:induction false} JoinHead(segs: seq<string>)
    requires |segs| > 0
    ensures |Join(segs, "/")| >= |segs[0]| && Join(segs, "/")[..|segs[0]|] == segs[0]
    decreases |segs|
  {
    if |segs| > 1 {
      assert Join(segs, "/") == segs[0] + ("/" + Join(segs[1..], "/"));
    }
  }

  lemma {:induction false} JoinNoChar(segs: seq<string>, c: char)
    requires forall i :: 0 <= i < |segs| ==> c !in segs[i]
    requires c != '/'
    ensures c !in Join(segs, "/")
    decreases |segs|
  {
    if |segs| > 1 {
      JoinNoChar(segs[1..], c);
    }
  }

  lemma {:induction false} JoinLast(segs: seq<string>)
    requires |segs| > 1
    ensures Join(segs, "/") == Join(segs[..|segs| - 1], "/") + "/" + segs[|segs| - 1]
    decreases |segs|
  {
    if |segs| > 2 {
      JoinLast(segs[1..]);
      assert segs[1..][..|segs| - 2] == segs[..|segs| - 1][1..];
    }
  }

  lemma {:induction false} JoinNonEmpty(segs: seq<string>)
    requires |segs| > 0 && segs[0] != ""
    ensures Join(segs, "/") != ""
  {
    JoinHead(segs);
  }

  /** Mapping `/` to `.` in a joined path is joining with `.` instead. */
  lemma {:induction false} ReplaceJoin(segs: seq<string>)
    requires forall i :: 0 <= i < |segs| ==> '/' !in segs[i]
    ensures ReplaceChar(Join(segs, "/"), '/', '.') == Join(segs, ".")
    decreases |segs|
  {
    if |segs| == 1 {
      assert ReplaceChar(segs[0], '/', '.') == segs[0];
    } else if |segs| > 1 {
      ReplaceJoin(segs[1..]);
      var a := segs[0];
      var b := Join(segs[1..], "/");
      assert ReplaceChar(a + "/" + b, '/', '.') == ReplaceChar(a, '/', '.') + "." + ReplaceChar(b, '/', '.');
      assert ReplaceChar(a, '/', '.') == a;
    }
  }

  /** `.lua` can only be stripped from the last segment of a joined path. */
  lemma JoinStripLua(segs: seq<string>)
    requires |segs| > 0
    requires forall i :: 0 <= i < |segs| ==> '/' !in segs[i]
    ensures StripSuffix(Join(segs, "/"), ".lua") ==
      Join(segs[..|segs| - 1] + [StripSuffix(segs[|segs| - 1], ".lua")], "/")
  {
    var n := |segs|;
    var last := segs[n - 1];
    if EndsWith(last, ".lua") {
      JoinStripLuaLast(segs);
    } else {
      JoinNotLua(segs);
      assert StripSuffix(last, ".lua") == last;
      assert segs[..n - 1] + [last] == segs;
    }
  }

  lemma JoinNotLua(segs: seq<string>)
    requires |segs| > 0 && !EndsWith(segs[|segs| - 1], ".lua")
    requires '/' !in segs[|segs| - 1]
    ensures !EndsWith(Join(segs, "/"), ".lua")
  {
    var n := |segs|;
    if n > 1 {
      JoinLast(segs);
      NotLuaAfterSlash(Join(segs[..n - 1], "/"), segs[n - 1]);
    }
  }

  lemma JoinStripLuaLast(segs: seq<string>)
    requires |segs| > 0 && EndsWith(segs[|segs| - 1], ".lua")
    ensures StripSuffix(Join(segs, "/"), ".lua") ==
      Join(segs[..|segs| - 1] + [StripSuffix(segs[|segs| - 1], ".lua")], "/")
  {
    var n := |segs|;
    var last := segs[n - 1];
    var stem := last[..|last| - 4];
    var stemmed := segs[..n - 1] + [stem];
    assert last == stem + ".lua";
    assert segs == stemmed[..n - 1] + [stemmed[n - 1] + ".lua"];
    JoinAppendLast(stemmed, ".lua");
    StripAppended(Join(stemmed, "/"), ".lua");
  }

  lemma StripAppended(s: string, suffix: string)
    ensures StripSuffix(s + suffix, suffix) == s
  {
    assert (s + suffix)[|s|..] == suffix;
  }

  lemma NotLuaAfterSlash(front: string, last: string)
    requires '/' !in last && !EndsWith(last, ".lua")
    ensures !EndsWith(front + "/" + last, ".lua")
  {
    var j := front + "/" + last;
    if |j| >= 4 {
      var suffix := j[|j| - 4..];
      if |last| >= 4 {
        assert suffix == last[|last| - 4..];
      } else {
        assert suffix[3 - |last|] == '/';
      }
    }
  }

  /** With a slash-free last segment, a joined path ends in `/init` exactly when that segment is `init`. */
  lemma EndsWithSlashInit(front: string, stem: string)
    requires '/' !in stem
    ensures EndsWith(front + "/" + stem, "/init") <==> stem == "init"
  {
    var s := front + "/" + stem;
    if stem == "init" {
      assert s[|s| - 5..] == "/init";
    } else if |s| >= 5 {
      var suffix := s[|s| - 5..];
      if |stem| >= 5 {
        assert suffix[0] == stem[|stem| - 5];
      } else if |stem| == 4 {
        assert suffix[1..] == stem;
      } else {
        assert suffix[4 - |stem|] == '/';
      }
    }
  }

}
