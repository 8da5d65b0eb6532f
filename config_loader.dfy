/**
 * The configuration loader: the command-line options are merged over the configuration
 * file's contents, the result must name an entry file, and its paths are then made absolute
 * (command-line paths against the working directory, file paths against the file's directory).
 */
module ConfigLoader {
  import opened Wrappers
  import opened Strings
  import opened Paths
  import opened JsValues

  const EmptyObject := Obj([], map[])

  /** `<entry name without extension>_packed.lua`, or `<entry name>_packed.lua` when that is empty. */
  function OutputName(entry: AbsPath): string {
    var stem := Stem(entry);
    (if stem != "" then stem else Basename(entry)) + "_packed.lua"
  }

  /** `buildDefaultOutputPath(entryPath)`: the packed file's name, joined to the entry's directory. */
  function BuildDefaultOutputPath(entry: AbsPath): AbsPath {
    Resolve(Dirname(entry), OutputName(entry))
  }

  /**
   * For a normalized entry the default output sits next to the entry, and its name is the
   * entry's name with the extension replaced by `_packed.lua`.
   */
  lemma DefaultOutputProps(entry: AbsPath)
    requires IsNormal(entry) && |entry| > 0
    ensures BuildDefaultOutputPath(entry) == Dirname(entry) + [OutputName(entry)]
    ensures Stem(entry) != "" ==> Basename(BuildDefaultOutputPath(entry)) == Stem(entry) + "_packed.lua"
    ensures EndsWith(Basename(BuildDefaultOutputPath(entry)), "_packed.lua")
  {
    var name := OutputName(entry);
    var stem := Stem(entry);
    var base := if stem != "" then stem else Basename(entry);
    assert IsSegment(Basename(entry));
    assert '/' !in base by {
      if stem != "" {
        assert stem + Extname(Basename(entry)) == Basename(entry);
        forall i | 0 <= i < |stem| ensures stem[i] != '/' {
          assert stem[i] == Basename(entry)[i];
        }
      }
    }
    assert name[|name| - 1] == 'a';
    assert '/' !in name by {
      assert name == base + "_packed.lua";
      forall i | 0 <= i < |name| ensures name[i] != '/' {
        if i < |base| {
          assert name[i] == base[i];
        }
      }
    }
    assert IsSegment(name) by {
      assert |name| >= 11;
    }
    ResolveSegment(Dirname(entry), name);
    assert name[|name| - 11..] == "_packed.lua";
  }

  /** `/work/src/main.lua` is packed to `/work/src/main_packed.lua`. */
  lemma DefaultOutputExample()
    ensures BuildDefaultOutputPath(["work", "src", "main.lua"]) == ["work", "src", "main_packed.lua"]
  {
    var entry := ["work", "src", "main.lua"];
    MainEntryNormal();
    MainEntryOutputName();
    DefaultOutputProps(entry);
    assert Dirname(entry) == ["work", "src"];
    assert ["work", "src"] + ["main_packed.lua"] == ["work", "src", "main_packed.lua"];
  }

  lemma MainEntryNormal()
    ensures IsNormal(["work", "src", "main.lua"])
  {
    var entry := ["work", "src", "main.lua"];
    var name := "main.lua";
    assert IsSegment(entry[0]) && IsSegment(entry[1]);
    assert IsSegment(entry[2]) by {
      assert forall i :: 0 <= i < |name| ==> name[i] != '/';
    }
  }

  lemma MainEntryOutputName()
    ensures OutputName(["work", "src", "main.lua"]) == "main_packed.lua"
  {
    MainEntryStem();
    assert "main" + "_packed.lua" == "main_packed.lua";
  }

  lemma MainEntryStem()
    ensures Stem(["work", "src", "main.lua"]) == "main"
  {
    var name := "main.lua";
    assert Basename(["work", "src", "main.lua"]) == name;
    assert name[4] == '.' && name[5] != '.' && name[6] != '.' && name[7] != '.';
    assert LastDot(name) == 4;
    assert name[4..] == ".lua";
    assert Extname(name) == ".lua";
  }

  /** The obfuscation switches that can be given on the command line. */
  predicate IsToggle(key: string) {
    key == "renameVariables" || key == "minify" || key == "ascii"
  }

  /** Some switch is given as a boolean. */
  predicate HasToggle(cliOptions: Json) {
    Get(cliOptions, "renameVariables").Bool? || Get(cliOptions, "minify").Bool? || Get(cliOptions, "ascii").Bool?
  }

  /** Non-path keys, which the path steps leave alone. */
  predicate IsPathKey(key: string) {
    key == "entry" || key == "output" || key == "sourceRoot"
  }

  /** The obfuscation section assumed when the configuration has none. */
  const NoObfuscation := Obj(["tool", "config"], map["tool" := Str("none"), "config" := EmptyObject])

  /** `cliOptions[key]` when it is set (truthy), else `base[target]`. */
  function Overridden(cliOptions: Json, key: string, base: Json, target: string): Json {
    if Truthy(Get(cliOptions, key)) then Get(cliOptions, key) else Get(base, target)
  }

  /** The `config` of an obfuscation section with the command-line switches applied. */
  ghost predicate ToggledConfig(cfg: Json, existing: Json, cliOptions: Json) {
    forall k :: Get(cfg, k) ==
      (if IsToggle(k) && Get(cliOptions, k).Bool? then Get(cliOptions, k)
       else Get(OrIfFalsy(Get(existing, "config"), EmptyObject), k))
  }

  /** The obfuscation section after the command-line switches, from the one before. */
  ghost predicate ToggledObfuscation(obfuscation: Json, original: Json, cliOptions: Json) {
    var existing := OrIfFalsy(original, NoObfuscation);
    && Get(obfuscation, "tool") == Str("internal")
    && (forall k :: k != "tool" && k != "config" ==> Get(obfuscation, k) == Get(existing, k))
    && ToggledConfig(Get(obfuscation, "config"), existing, cliOptions)
  }

  /** The `modules` section after the `ignoreMissing` and `env` options, from the one before. */
  ghost predicate MergedModules(modules: Json, original: Json, cliOptions: Json) {
    var ignoreMissing := Get(cliOptions, "ignoreMissing");
    var env := Get(cliOptions, "env");
    && (!ignoreMissing.Bool? && env.Undefined? ==> modules == original)
    && (ignoreMissing.Bool? || !env.Undefined? ==>
          && (forall k :: k != "ignoreMissing" && k != "external" ==> Get(modules, k) == Get(original, k))
          && Get(modules, "ignoreMissing") == (if ignoreMissing.Bool? then ignoreMissing else Get(original, "ignoreMissing"))
          && (env.Undefined? ==> Get(modules, "external") == Get(original, "external")))
    && (!env.Undefined? ==>
          && Get(Get(modules, "external"), "env") == (if env.Arr? then env else Arr([]))
          && forall k :: k != "env" ==> Get(Get(modules, "external"), k) == Get(Get(original, "external"), k))
  }

  /**
   * `mergeConfig(baseConfig, cliOptions)`, on a copy of the base configuration:
   * `entry`, `output` and `sourceRoot` are replaced by set command-line values; any boolean
   * obfuscation switch selects the `internal` tool and replaces just that key of its `config`;
   * a boolean `ignoreMissing` and a given `env` (an array, else `[]`) go into `modules`,
   * the latter inside `external`, keeping every other key there.
   */
  method MergeConfig(baseConfig: Json, cliOptions: Json) returns (merged: Json)
    ensures merged.Obj?
    ensures Get(merged, "entry") == Overridden(cliOptions, "entry", baseConfig, "entry")
    ensures Get(merged, "output") == Overridden(cliOptions, "output", baseConfig, "output")
    ensures Get(merged, "sourceRoot") == Overridden(cliOptions, "sourceroot", baseConfig, "sourceRoot")
    ensures !HasToggle(cliOptions) ==> Get(merged, "obfuscation") == Get(baseConfig, "obfuscation")
    ensures HasToggle(cliOptions) ==> ToggledObfuscation(Get(merged, "obfuscation"), Get(baseConfig, "obfuscation"), cliOptions)
    ensures MergedModules(Get(merged, "modules"), Get(baseConfig, "modules"), cliOptions)
    ensures forall k :: !IsPathKey(k) && k != "obfuscation" && k != "modules" ==> Get(merged, k) == Get(baseConfig, k)
  {
    var copied := MergePaths(Copy(baseConfig), cliOptions);
    assert Get(copied, "obfuscation") == Get(baseConfig, "obfuscation");
    assert Get(copied, "modules") == Get(baseConfig, "modules");
    var toggled := MergeToggles(copied, cliOptions);
    assert Get(toggled, "modules") == Get(baseConfig, "modules");
    merged := MergeModules(toggled, cliOptions);
  }

  /** The `entry`, `output` and `sourceRoot` steps of `mergeConfig`; nothing else changes. */
  method MergePaths(merged0: Json, cliOptions: Json) returns (merged: Json)
    requires merged0.Obj?
    ensures merged.Obj?
    ensures Get(merged, "entry") == Overridden(cliOptions, "entry", merged0, "entry")
    ensures Get(merged, "output") == Overridden(cliOptions, "output", merged0, "output")
    ensures Get(merged, "sourceRoot") == Overridden(cliOptions, "sourceroot", merged0, "sourceRoot")
    ensures forall k :: !IsPathKey(k) ==> Get(merged, k) == Get(merged0, k)
  {
    merged := merged0;
    if Truthy(Get(cliOptions, "entry")) {
      merged := Assign(merged, "entry", Get(cliOptions, "entry"));
    }
    if Truthy(Get(cliOptions, "output")) {
      merged := Assign(merged, "output", Get(cliOptions, "output"));
    }
    if Truthy(Get(cliOptions, "sourceroot")) {
      merged := Assign(merged, "sourceRoot", Get(cliOptions, "sourceroot"));
    }
  }

  /** The obfuscation steps of `mergeConfig`; nothing but `obfuscation` changes. */
  method MergeToggles(merged0: Json, cliOptions: Json) returns (merged: Json)
    requires merged0.Obj?
    ensures merged.Obj?
    ensures forall k :: k != "obfuscation" ==> Get(merged, k) == Get(merged0, k)
    ensures !HasToggle(cliOptions) ==> merged == merged0
    ensures HasToggle(cliOptions) ==> ToggledObfuscation(Get(merged, "obfuscation"), Get(merged0, "obfuscation"), cliOptions)
  {
    merged := merged0;
    var hasObfuscationToggle := Get(cliOptions, "renameVariables").Bool? || Get(cliOptions, "minify").Bool? || Get(cliOptions, "ascii").Bool?;
    if hasObfuscationToggle {
      var existingObfuscation := OrIfFalsy(Get(merged, "obfuscation"), NoObfuscation);
      var updatedConfig := ToggleConfig(OrIfFalsy(Get(existingObfuscation, "config"), EmptyObject), cliOptions);
      merged := Assign(merged, "obfuscation", InternalTool(existingObfuscation, updatedConfig));
    }
  }

  /** `{ ...existing, tool: 'internal', config }`. */
  function InternalTool(existing: Json, config: Json): (r: Json)
    ensures Get(r, "tool") == Str("internal") && Get(r, "config") == config
    ensures forall k :: k != "tool" && k != "config" ==> Get(r, k) == Get(existing, k)
  {
    Spread(existing, Obj(["tool", "config"], map["tool" := Str("internal"), "config" := config]))
  }

  /** The switches given as booleans replace their keys of a copy of `existingConfig`. */
  method ToggleConfig(existingConfig: Json, cliOptions: Json) returns (updatedConfig: Json)
    ensures forall k :: (Get(updatedConfig, k) ==
      if IsToggle(k) && Get(cliOptions, k).Bool? then Get(cliOptions, k) else Get(existingConfig, k))
  {
    updatedConfig := Copy(existingConfig);
    if Get(cliOptions, "renameVariables").Bool? {
      updatedConfig := Assign(updatedConfig, "renameVariables", Get(cliOptions, "renameVariables"));
    }
    if Get(cliOptions, "minify").Bool? {
      updatedConfig := Assign(updatedConfig, "minify", Get(cliOptions, "minify"));
    }
    if Get(cliOptions, "ascii").Bool? {
      updatedConfig := Assign(updatedConfig, "ascii", Get(cliOptions, "ascii"));
    }
  }

  /** The `modules` steps of `mergeConfig`; nothing but `modules` changes. */
  method MergeModules(merged0: Json, cliOptions: Json) returns (merged: Json)
    requires merged0.Obj?
    ensures merged.Obj?
    ensures forall k :: k != "modules" ==> Get(merged, k) == Get(merged0, k)
    ensures MergedModules(Get(merged, "modules"), Get(merged0, "modules"), cliOptions)
  {
    merged := merged0;
    if Get(cliOptions, "ignoreMissing").Bool? {
      merged := Assign(merged, "modules",
        Assign(OrIfFalsy(Get(merged, "modules"), EmptyObject), "ignoreMissing", Get(cliOptions, "ignoreMissing")));
    }
    if !Get(cliOptions, "env").Undefined? {
      var env := Get(cliOptions, "env");
      var envValues := if env.Arr? then env else Arr([]);
      var external := OrIfFalsy(Get(Get(merged, "modules"), "external"), EmptyObject);
      merged := Assign(merged, "modules",
        Assign(OrIfFalsy(Get(merged, "modules"), EmptyObject), "external", Assign(external, "env", envValues)));
    }
  }

  /** `path.isAbsolute(p) ? p : path.resolve(origin, p)` over the configured external roots. */
  function ResolveExternalPaths(origin: AbsPath, items: seq<Json>): (r: Result<seq<Json>, JsError>)
    ensures r.Ok? <==> forall i :: 0 <= i < |items| ==> items[i].Str?
    ensures r.Err? ==> r.error == ArgTypeError
    ensures r.Ok? ==> |r.value| == |items| && forall i :: 0 <= i < |items| ==>
      r.value[i] == (if IsAbsolute(items[i].s) then items[i] else Str(ToString(Resolve(origin, items[i].s))))
  {
    if |items| == 0 then Ok([])
    else if !items[0].Str? then Err(ArgTypeError)
    else
      var first := if IsAbsolute(items[0].s) then items[0] else Str(ToString(Resolve(origin, items[0].s)));
      match ResolveExternalPaths(origin, items[1..])
      case Ok(rest) => Ok([first] + rest)
      case Err(e) => Err(e)
  }

  /** After resolution every external root is an absolute path. */
  lemma ExternalPathsAbsolute(origin: AbsPath, items: seq<Json>)
    requires ResolveExternalPaths(origin, items).Ok?
    ensures forall i :: 0 <= i < |items| ==>
      ResolveExternalPaths(origin, items).value[i].Str? && IsAbsolute(ResolveExternalPaths(origin, items).value[i].s)
  {
    forall i | 0 <= i < |items|
      ensures ResolveExternalPaths(origin, items).value[i].Str? && IsAbsolute(ResolveExternalPaths(origin, items).value[i].s)
    {
      if !IsAbsolute(items[i].s) {
        assert ToString(Resolve(origin, items[i].s))[0] == '/';
      }
    }
  }

  /** The directory a path option is resolved against: the working directory for a command-line value. */
  function Origin(cliOptions: Json, key: string, cwd: AbsPath, baseDir: AbsPath): AbsPath {
    if Truthy(Get(cliOptions, key)) then cwd else baseDir
  }

  /** A path option set to something `path.resolve` rejects. */
  predicate BadPath(v: Json) {
    Truthy(v) && !v.Str?
  }

  /** `modules.external.paths` is an array, so `normalizePaths` resolves it. */
  predicate HasExternalPaths(modules: Json) {
    Truthy(modules) && Truthy(Get(modules, "external")) && Get(Get(modules, "external"), "paths").Arr?
  }

  /** The external roots of a `modules` section, resolved. */
  function ResolvedExternals(modules: Json, baseDir: AbsPath): Result<seq<Json>, JsError>
    requires HasExternalPaths(modules)
  {
    ResolveExternalPaths(baseDir, Get(Get(modules, "external"), "paths").items)
  }

  /** `path.resolve(origin, v)` as a string, for a string setting. */
  function Resolved(origin: AbsPath, v: Json): Json
    requires v.Str?
  {
    Str(ToString(Resolve(origin, v.s)))
  }

  /** The three path settings of `config` can be resolved. */
  predicate PathsResolvable(config: Json) {
    !BadPath(Get(config, "entry")) && !BadPath(Get(config, "output")) && !BadPath(Get(config, "sourceRoot"))
  }

  /** The external roots of `modules`, if it lists any, can be resolved. */
  predicate ExternalsResolvable(modules: Json, baseDir: AbsPath) {
    HasExternalPaths(modules) ==> ResolvedExternals(modules, baseDir).Ok?
  }

  /** The three path settings of `finalConfig` are those of `config`, resolved. */
  ghost predicate PathsNormalized(config: Json, cliOptions: Json, baseDir: AbsPath, cwd: AbsPath, finalConfig: Json)
    requires PathsResolvable(config)
  {
    var entry := Get(config, "entry");
    var output := Get(config, "output");
    var sourceRoot := Get(config, "sourceRoot");
    var entryOrigin := Origin(cliOptions, "entry", cwd, baseDir);
    && Get(finalConfig, "entry") == (if Truthy(entry) then Resolved(entryOrigin, entry) else entry)
    && Get(finalConfig, "output") ==
         (if Truthy(output) then Resolved(Origin(cliOptions, "output", cwd, baseDir), output)
          else if Truthy(entry) then Str(ToString(BuildDefaultOutputPath(Resolve(entryOrigin, entry.s))))
          else output)
    && Get(finalConfig, "sourceRoot") ==
         (if Truthy(sourceRoot) then Resolved(Origin(cliOptions, "sourceroot", cwd, baseDir), sourceRoot) else sourceRoot)
  }

  /** `modules` is `original` with its external roots, if it lists any, resolved. */
  ghost predicate ExternalsNormalized(original: Json, baseDir: AbsPath, modules: Json)
    requires ExternalsResolvable(original, baseDir)
  {
    && (!HasExternalPaths(original) ==> modules == original)
    && (HasExternalPaths(original) ==>
          var external := Get(modules, "external");
          && Get(external, "paths") == Arr(ResolvedExternals(original, baseDir).value)
          && (forall k :: k != "external" ==> Get(modules, k) == Get(original, k))
          && (forall k :: k != "paths" ==> Get(external, k) == Get(Get(original, "external"), k)))
  }

  /**
   * `normalizePaths(config, cliOptions, fileBaseDir)`, with the working directory as a
   * parameter: each set path is resolved against the working directory when it came from the
   * command line and against the configuration file's directory (or the working directory)
   * otherwise; a missing output defaults to the packed file next to the entry; relative
   * external roots are resolved against the file's directory. A path setting that is not a
   * string makes `path.resolve` or `path.isAbsolute` throw.
   */
  method NormalizePaths(config: Json, cliOptions: Json, fileBaseDir: Option<AbsPath>, cwd: AbsPath)
    returns (r: Result<Json, JsError>)
    ensures r.Ok? <==> PathsResolvable(config) && ExternalsResolvable(Get(config, "modules"), fileBaseDir.GetOr(cwd))
    ensures r.Err? ==> r.error == ArgTypeError
    ensures r.Ok? ==> PathsNormalized(config, cliOptions, fileBaseDir.GetOr(cwd), cwd, r.value)
    ensures r.Ok? ==> ExternalsNormalized(Get(config, "modules"), fileBaseDir.GetOr(cwd), Get(r.value, "modules"))
    ensures r.Ok? ==> forall k :: !IsPathKey(k) && k != "modules" ==> Get(r.value, k) == Get(config, k)
  {
    var baseDir := fileBaseDir.GetOr(cwd);
    var withPaths := ResolvePathSettings(config, cliOptions, baseDir, cwd);
    if withPaths.Err? {
      return Err(withPaths.error);
    }
    var finalConfig := withPaths.value;
    assert Get(finalConfig, "modules") == Get(config, "modules");
    var modules := ResolveExternalSection(Get(finalConfig, "modules"), baseDir);
    if modules.Err? {
      return Err(modules.error);
    }
    if HasExternalPaths(Get(finalConfig, "modules")) {
      finalConfig := Assign(finalConfig, "modules", modules.value);
    }
    r := Ok(finalConfig);
  }

  /** The `entry`, `output` and `sourceRoot` steps of `normalizePaths`. */
  method ResolvePathSettings(config: Json, cliOptions: Json, baseDir: AbsPath, cwd: AbsPath) returns (r: Result<Json, JsError>)
    ensures r.Ok? <==> PathsResolvable(config)
    ensures r.Err? ==> r.error == ArgTypeError
    ensures r.Ok? ==> PathsNormalized(config, cliOptions, baseDir, cwd, r.value)
    ensures r.Ok? ==> forall k :: !IsPathKey(k) ==> Get(r.value, k) == Get(config, k)
  {
    var withOutput := ResolveEntryAndOutput(config, cliOptions, baseDir, cwd);
    if withOutput.Err? {
      return Err(withOutput.error);
    }
    r := ResolveSetting(withOutput.value, "sourceRoot", cliOptions, "sourceroot", baseDir, cwd);
  }

  /** The `entry` and `output` steps of `normalizePaths`, with the default output. */
  method ResolveEntryAndOutput(config: Json, cliOptions: Json, baseDir: AbsPath, cwd: AbsPath) returns (r: Result<Json, JsError>)
    ensures r.Ok? <==> !BadPath(Get(config, "entry")) && !BadPath(Get(config, "output"))
    ensures r.Err? ==> r.error == ArgTypeError
    ensures r.Ok? ==>
      (var entry := Get(config, "entry");
       var output := Get(config, "output");
       var entryOrigin := Origin(cliOptions, "entry", cwd, baseDir);
       && Get(r.value, "entry") == (if Truthy(entry) then Resolved(entryOrigin, entry) else entry)
       && Get(r.value, "output") ==
            (if Truthy(output) then Resolved(Origin(cliOptions, "output", cwd, baseDir), output)
             else if Truthy(entry) then Str(ToString(BuildDefaultOutputPath(Resolve(entryOrigin, entry.s))))
             else output))
    ensures r.Ok? ==> forall k :: k != "entry" && k != "output" ==> Get(r.value, k) == Get(config, k)
  {
    var entry := ResolveSetting(Copy(config), "entry", cliOptions, "entry", baseDir, cwd);
    if entry.Err? {
      return Err(entry.error);
    }
    var output := ResolveSetting(entry.value, "output", cliOptions, "output", baseDir, cwd);
    if output.Err? {
      return Err(output.error);
    }
    var finalConfig := output.value;
    // A resolved entry is never the empty string, so `finalConfig.entry` is truthy exactly when `config.entry` is.
    if !Truthy(Get(finalConfig, "output")) && Truthy(Get(config, "entry")) {
      var entryPath := Resolve(Origin(cliOptions, "entry", cwd, baseDir), Get(config, "entry").s);
      finalConfig := Assign(finalConfig, "output", Str(ToString(BuildDefaultOutputPath(entryPath))));
    }
    r := Ok(finalConfig);
  }

  /**
   * One path step of `normalizePaths`: a set `finalConfig[key]` is resolved against the working
   * directory when the command line gave `cliKey`, and against the base directory otherwise.
   */
  method ResolveSetting(finalConfig: Json, key: string, cliOptions: Json, cliKey: string, baseDir: AbsPath, cwd: AbsPath)
    returns (r: Result<Json, JsError>)
    ensures r.Ok? <==> !BadPath(Get(finalConfig, key))
    ensures r.Err? ==> r.error == ArgTypeError
    ensures r.Ok? ==> (Get(r.value, key) ==
      if Truthy(Get(finalConfig, key)) then Resolved(Origin(cliOptions, cliKey, cwd, baseDir), Get(finalConfig, key))
      else Get(finalConfig, key))
    ensures r.Ok? ==> forall k :: k != key ==> Get(r.value, k) == Get(finalConfig, k)
  {
    if !Truthy(Get(finalConfig, key)) {
      return Ok(finalConfig);
    }
    var origin := if Truthy(Get(cliOptions, cliKey)) then cwd else baseDir;
    var resolved := ResolveArg(origin, Get(finalConfig, key));
    if resolved.Err? {
      return Err(resolved.error);
    }
    r := Ok(Assign(finalConfig, key, Str(ToString(resolved.value))));
  }

  /** The external-roots step of `normalizePaths`, on the `modules` section. */
  method ResolveExternalSection(modules: Json, baseDir: AbsPath) returns (r: Result<Json, JsError>)
    ensures r.Ok? <==> ExternalsResolvable(modules, baseDir)
    ensures r.Err? ==> r.error == ArgTypeError
    ensures r.Ok? ==> ExternalsNormalized(modules, baseDir, r.value)
  {
    if !HasExternalPaths(modules) {
      return Ok(modules);
    }
    var external := Get(modules, "external");
    var paths := ResolveExternalPaths(baseDir, Get(external, "paths").items);
    if paths.Err? {
      return Err(paths.error);
    }
    r := Ok(Assign(modules, "external", Assign(external, "paths", Arr(paths.value))));
  }

  /** The configuration file's contents and the directory holding it, as `readConfigFile` returns them. */
  datatype ConfigFile = ConfigFile(config: Json, baseDir: AbsPath)

  const NoEntryError := JsError("Configuration must specify an entry file.", None)

  /** What `mergeConfig(baseConfig, cliOptions)` promises of its result (see MergeConfig). */
  ghost predicate IsMerge(merged: Json, baseConfig: Json, cliOptions: Json) {
    && merged.Obj?
    && Get(merged, "entry") == Overridden(cliOptions, "entry", baseConfig, "entry")
    && Get(merged, "output") == Overridden(cliOptions, "output", baseConfig, "output")
    && Get(merged, "sourceRoot") == Overridden(cliOptions, "sourceroot", baseConfig, "sourceRoot")
    && (!HasToggle(cliOptions) ==> Get(merged, "obfuscation") == Get(baseConfig, "obfuscation"))
    && (HasToggle(cliOptions) ==> ToggledObfuscation(Get(merged, "obfuscation"), Get(baseConfig, "obfuscation"), cliOptions))
    && MergedModules(Get(merged, "modules"), Get(baseConfig, "modules"), cliOptions)
    && (forall k :: !IsPathKey(k) && k != "obfuscation" && k != "modules" ==> Get(merged, k) == Get(baseConfig, k))
  }

  /**
   * `loadConfig(cliOptions)`, after the file named by `--config` (if any) has been read:
   * the merged configuration (`merged`) must name an entry, and is then normalized against
   * the file's directory, or the working directory when there is no file.
   */
  method LoadConfig(file: Option<ConfigFile>, cliOptions: Json, cwd: AbsPath) returns (r: Result<Json, JsError>, ghost merged: Json)
    ensures IsMerge(merged, if file.Some? then file.value.config else EmptyObject, cliOptions)
    ensures (var fileConfig := if file.Some? then file.value.config else EmptyObject;
             !Truthy(Overridden(cliOptions, "entry", fileConfig, "entry")) ==> r == Err(NoEntryError))
    ensures var baseDir := if file.Some? then file.value.baseDir else cwd;
      r.Ok? <==> Truthy(Get(merged, "entry")) && PathsResolvable(merged) && ExternalsResolvable(Get(merged, "modules"), baseDir)
    ensures r.Err? ==> r == Err(NoEntryError) || r.error == ArgTypeError
    ensures var baseDir := if file.Some? then file.value.baseDir else cwd;
      r.Ok? ==> && PathsNormalized(merged, cliOptions, baseDir, cwd, r.value)
                && ExternalsNormalized(Get(merged, "modules"), baseDir, Get(r.value, "modules"))
                && forall k :: !IsPathKey(k) && k != "modules" ==> Get(r.value, k) == Get(merged, k)
    ensures r.Ok? ==> Truthy(Get(r.value, "entry")) && Get(r.value, "entry").Str? && Get(r.value, "output").Str?
  {
    var fileConfig := if file.Some? then file.value.config else EmptyObject;
    var baseDir := if file.Some? then Some(file.value.baseDir) else None;
    var m := MergeConfig(fileConfig, cliOptions);
    merged := m;
    if !Truthy(Get(m, "entry")) {
      return Err(NoEntryError), merged;
    }
    r := NormalizePaths(m, cliOptions, baseDir, cwd);
  }
}
