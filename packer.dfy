/**
 * The packer: it normalizes its configuration once (absolute paths, merged obfuscation
 * settings, clamped rename lengths), then checks an analysis result before generating the
 * bundle and writing it to the output path.
 */
module Packer {
  import opened Wrappers
  import opened Strings
  import opened Paths
  import opened Records
  import opened JsValues
  import opened Bundle
  import Pipeline

  /** `Number.MAX_SAFE_INTEGER`. */
  const MaxSafeInteger := 9007199254740991

  /** The integer part of a number, rounding toward zero. */
  function Truncate(n: real): (r: int)
    ensures n >= 0.0 ==> r == n.Floor
    ensures n < 0.0 ==> r == -((-n).Floor)
  {
    if n >= 0.0 then n.Floor else -((-n).Floor)
  }

  /** The text after a leading sign, if any. */
  function Unsigned(t: string): (r: string)
    ensures |r| <= |t|
  {
    if |t| > 0 && (t[0] == '-' || t[0] == '+') then t[1..] else t
  }

  /**
   * `Number.parseInt(s, 10)` on a string: leading white space, an optional sign, then the
   * longest run of decimal digits; no digits at all gives `NaN` (None).
   */
  function ParseIntString(s: string): (r: Option<int>)
    ensures r.None? <==> DigitRun(Unsigned(TrimStart(s))) == 0
  {
    ParseSigned(TrimStart(s))
  }

  /** The parse after the leading white space: an optional sign, then the digits. */
  function ParseSigned(t: string): (r: Option<int>)
    ensures r.None? <==> DigitRun(Unsigned(t)) == 0
  {
    var digits := Unsigned(t);
    var k := DigitRun(digits);
    if k == 0 then None
    else
      var v: int := DigitsValue(digits[..k]);
      Some(if t[0] == '-' then -v else v)
  }

  /**
   * `Number.parseInt(value, 10)` on the values a configuration can hold: a number gives its
   * integer part and a string is parsed. An array is first made text, its items' texts joined
   * by `,`, so it parses as its first item does (see ParseIntStringComma); an empty array, and
   * an array whose first item is `null` or `undefined`, gives text with no leading digits.
   * The texts of booleans, `null`, `undefined` and objects hold no digits: `NaN`.
   */
  function ParseInt(value: Json): Option<int> {
    match value
    case Num(n) => Some(Truncate(n))
    case Str(s) => ParseIntString(s)
    case Arr(items) => if |items| == 0 then None else ParseInt(items[0])
    case _ => None
  }

  /**
   * An array of strings parses as `String(array)` does, the strings joined by `,`: the first
   * string decides.
   */
  lemma ParseIntStringArray(items: seq<Json>, xs: seq<string>)
    requires |items| == |xs| > 0
    requires forall i :: 0 <= i < |xs| ==> items[i] == Str(xs[i])
    ensures ParseInt(Arr(items)) == ParseIntString(Join(xs, ","))
  {
    assert ParseInt(Arr(items)) == ParseIntString(xs[0]) by {
      assert items[0] == Str(xs[0]);
    }
    ParseIntStringJoin(xs);
  }

  /** A `,`-joined list of texts parses as its first text. */
  lemma ParseIntStringJoin(xs: seq<string>)
    requires |xs| > 0
    ensures ParseIntString(Join(xs, ",")) == ParseIntString(xs[0])
  {
    if |xs| > 1 {
      var rest := Join(xs[1..], ",");
      assert Join(xs, ",") == xs[0] + "," + rest;
      ParseIntStringComma(xs[0], rest);
    } else {
      assert Join(xs, ",") == xs[0];
    }
  }

  /** Whatever follows a comma does not change what a text parses to. */
  lemma ParseIntStringComma(s: string, t: string)
    ensures ParseIntString(s + "," + t) == ParseIntString(s)
  {
    var u := "," + t;
    assert s + "," + t == s + u;
    var t0 := TrimStart(s);
    if |t0| > 0 {
      assert TrimStart(s + u) == t0 + u by {
        TrimStartAppend(s, u);
      }
      ParseSignedComma(t0, u);
    } else {
      assert TrimStart(s + u) == u by {
        TrimStartAppend(s, u);
        assert TrimStart(u) == u;
      }
      assert ParseSigned(u).None? by {
        assert Unsigned(u) == u;
      }
    }
  }

  /** Text from a comma on does not change what a non-empty signed numeral parses to. */
  lemma ParseSignedComma(t0: string, u: string)
    requires |t0| > 0 && |u| > 0 && u[0] == ','
    ensures ParseSigned(t0 + u) == ParseSigned(t0)
  {
    var d := Unsigned(t0);
    assert Unsigned(t0 + u) == d + u by {
      if t0[0] == '-' || t0[0] == '+' {
        assert (t0 + u)[1..] == t0[1..] + u;
      }
    }
    DigitRunAppend(d, u);
    var k := DigitRun(d);
    assert (t0 + u)[0] == t0[0];
    if k > 0 {
      assert (d + u)[..k] == d[..k];
    }
  }

  lemma {:induction false} TrimStartAppend(s: string, u: string)
    ensures |TrimStart(s)| > 0 ==> TrimStart(s + u) == TrimStart(s) + u
    ensures |TrimStart(s)| == 0 ==> TrimStart(s + u) == TrimStart(u)
    decreases |s|
  {
    if |s| > 0 {
      assert (s + u)[0] == s[0];
      if IsSpace(s[0]) {
        assert (s + u)[1..] == s[1..] + u;
        TrimStartAppend(s[1..], u);
      }
    } else {
      assert s + u == u;
    }
  }

  lemma {:induction false} DigitRunAppend(d: string, u: string)
    requires |u| > 0 && !('0' <= u[0] <= '9')
    ensures DigitRun(d + u) == DigitRun(d)
    decreases |d|
  {
    if |d| > 0 {
      assert (d + u)[0] == d[0];
      if '0' <= d[0] <= '9' {
        assert (d + u)[1..] == d[1..] + u;
        DigitRunAppend(d[1..], u);
      }
    } else {
      assert d + u == u;
    }
  }

  /** A decimal numeral reads back as its value, and so does a whole number. */
  lemma ParseIntNumeral(n: nat)
    ensures ParseInt(Str(NatToString(n))) == Some(n)
    ensures ParseInt(Num(n as real)) == Some(n)
  {
    var s := NatToString(n);
    TrimStartDigits(s);
    assert Unsigned(s) == s;
    DigitRunAll(s);
    assert s[..|s|] == s;
    NatToStringValue(n);
  }

  lemma TrimStartDigits(s: string)
    requires |s| > 0 && '0' <= s[0] <= '9'
    ensures TrimStart(s) == s
  {
  }

  lemma {:induction false} DigitRunAll(s: string)
    requires forall i :: 0 <= i < |s| ==> '0' <= s[i] <= '9'
    ensures DigitRun(s) == |s|
  {
    if |s| > 0 {
      DigitRunAll(s[1..]);
    }
  }

  /**
   * `clampInteger(value, min, max, fallback)`: the parsed integer clamped into `[min, max]`,
   * or the fallback when the value does not parse.
   */
  function ClampInteger(value: Json, min: int, max: int, fallback: int): (r: int)
    ensures ParseInt(value).None? ==> r == fallback
    ensures ParseInt(value).Some? && min <= max ==> min <= r <= max
    ensures ParseInt(value).Some? && min <= ParseInt(value).value <= max ==> r == ParseInt(value).value
    ensures ParseInt(value).Some? && ParseInt(value).value < min <= max ==> r == min
    ensures ParseInt(value).Some? && ParseInt(value).value > max ==> r == max
  {
    match ParseInt(value)
    case Some(i) => var low := if i < min then min else i; if low > max then max else low
    case None => fallback
  }

  /**
   * `LuaPacker.normalizeRenameConfig`: a boolean only sets `enabled`; for an object, `min` is
   * clamped to at least 1 and `max` to at least `min` (both at most the largest safe integer),
   * defaulting to 5 and the larger of `min` and 5; anything else gives the defaults.
   */
  function NormalizeRenameConfig(renameValue: Json): (r: Pipeline.RenameConfig)
    ensures 1 <= r.min <= r.max <= MaxSafeInteger
    ensures renameValue.Bool? ==> r == Pipeline.RenameConfig(renameValue.b, 5, 5)
    ensures !renameValue.Bool? && !IsObject(renameValue) ==> r == Pipeline.DefaultRename
  {
    if renameValue.Bool? then Pipeline.RenameConfig(renameValue.b, 5, 5)
    else if Truthy(renameValue) && IsObject(renameValue) then
      var enabledValue := Get(renameValue, "enabled");
      var enabled := if enabledValue.Bool? then enabledValue.b else false;
      var min := ClampInteger(Get(renameValue, "min"), 1, MaxSafeInteger, 5);
      var max := ClampInteger(Get(renameValue, "max"), min, MaxSafeInteger, Pipeline.Max(min, 5));
      Pipeline.RenameConfig(enabled, min, max)
    else Pipeline.DefaultRename
  }

  /** Unlike the pipeline's normalizer, a non-positive `min` becomes 1, not 5. */
  lemma NonPositiveMinClamped(renameValue: Json)
    requires IsObject(renameValue)
    requires ParseInt(Get(renameValue, "min")).Some? && ParseInt(Get(renameValue, "min")).value < 1
    ensures NormalizeRenameConfig(renameValue).min == 1
    ensures Pipeline.NormalizeRenameConfig(renameValue).min == 5
  {
  }

  /** A rename setting as the configuration stores it. */
  function RenameJson(r: Pipeline.RenameConfig): Json {
    Obj(["enabled", "min", "max"], map["enabled" := Bool(r.enabled), "min" := Num(r.min as real), "max" := Num(r.max as real)])
  }

  /** `const EmptyObject := {}`. */
  const EmptyObject := Obj([], map[])

  /** The default obfuscation section's `config`: no minification, renaming off at 5/5, no ASCII. */
  const DefaultObfuscationConfig := Obj(["minify", "renameVariables", "ascii"],
    map["minify" := Bool(false), "renameVariables" := RenameJson(Pipeline.DefaultRename), "ascii" := Bool(false)])

  const DefaultObfuscation := Obj(["tool", "config"], map["tool" := Str("none"), "config" := DefaultObfuscationConfig])

  /** A key of the incoming section's `config` (`incoming.config || {}`), or the default's value. */
  function ConfigField(incoming: Json, key: string, default: Json): Json {
    var cfg := OrIfFalsy(Get(incoming, "config"), EmptyObject);
    if cfg.Obj? && key in cfg.fields then cfg.fields[key] else default
  }

  /**
   * The merged `config`: the default settings overridden key by key by the incoming ones,
   * then the rename setting normalized.
   */
  function MergedConfig(incoming: Json): (r: Json)
    ensures r.Obj?
    ensures Get(r, "renameVariables") ==
      RenameJson(NormalizeRenameConfig(ConfigField(incoming, "renameVariables", RenameJson(Pipeline.DefaultRename))))
    ensures Get(r, "minify") == ConfigField(incoming, "minify", Bool(false))
    ensures Get(r, "ascii") == ConfigField(incoming, "ascii", Bool(false))
    ensures forall k :: k != "renameVariables" ==> Get(r, k) == ConfigField(incoming, k, Get(DefaultObfuscationConfig, k))
  {
    var merged := Spread(DefaultObfuscationConfig, OrIfFalsy(Get(incoming, "config"), EmptyObject));
    var rename := RenameJson(NormalizeRenameConfig(Get(merged, "renameVariables")));
    Spread(merged, Obj(["renameVariables"], map["renameVariables" := rename]))
  }

  /**
   * The merged obfuscation section: the defaults overridden key by key by the given section
   * (`config.obfuscation || {}`), with the merged `config`.
   */
  function MergeObfuscation(obfuscation: Json): (r: Json)
    ensures r.Obj?
    ensures Get(r, "tool") == Get(Spread(DefaultObfuscation, OrIfFalsy(obfuscation, EmptyObject)), "tool")
    ensures Get(r, "config") == MergedConfig(OrIfFalsy(obfuscation, EmptyObject))
  {
    var incoming := OrIfFalsy(obfuscation, EmptyObject);
    Spread(Spread(DefaultObfuscation, incoming), Obj(["config"], map["config" := MergedConfig(incoming)]))
  }

  /** The tool is the section's own when it names one, and `none` otherwise. */
  lemma MergedTool(obfuscation: Json)
    ensures (var incoming := OrIfFalsy(obfuscation, EmptyObject);
             Get(MergeObfuscation(obfuscation), "tool") ==
               (if incoming.Obj? && "tool" in incoming.fields then incoming.fields["tool"] else Str("none")))
  {
  }

  /** The normalized configuration, with the three paths also kept as paths. */
  datatype PackerSettings = PackerSettings(config: Json, entry: AbsPath, output: AbsPath, sourceRoot: AbsPath)

  /** The normalized configuration object: `{ ...config, entry, output, sourceRoot, obfuscation }`. */
  function NormalizedJson(config: Json, entry: AbsPath, output: AbsPath, sourceRoot: AbsPath, obfuscation: Json): (r: Json)
    ensures Get(r, "entry") == Str(ToString(entry))
    ensures Get(r, "output") == Str(ToString(output))
    ensures Get(r, "sourceRoot") == Str(ToString(sourceRoot))
    ensures Get(r, "obfuscation") == obfuscation
    ensures forall k :: k !in ["entry", "output", "sourceRoot", "obfuscation"] ==> Get(r, k) == Get(config, k)
  {
    Spread(config, Obj(["entry", "output", "sourceRoot", "obfuscation"],
      map["entry" := Str(ToString(entry)), "output" := Str(ToString(output)),
          "sourceRoot" := Str(ToString(sourceRoot)), "obfuscation" := obfuscation]))
  }

  /**
   * `normalizeConfig(config)`, with the working directory as a parameter. It fails exactly
   * when a path it resolves is not a string: the entry always, the source root and the
   * output only when set. The source root defaults to the entry's directory and the output
   * to `bundle.lua`.
   */
  function NormalizeConfig(config: Json, cwd: AbsPath): (r: Result<PackerSettings, JsError>)
    ensures (var entry := Get(config, "entry");
             var sourceRoot := Get(config, "sourceRoot");
             var output := Get(config, "output");
             && (r.Ok? <==> entry.Str? && (!Truthy(sourceRoot) || sourceRoot.Str?) && (!Truthy(output) || output.Str?))
             && (r.Err? ==> r.error == ArgTypeError)
             && (r.Ok? ==>
                   && r.value.entry == Resolve(cwd, entry.s)
                   && r.value.sourceRoot == (if Truthy(sourceRoot) then Resolve(cwd, sourceRoot.s) else Dirname(r.value.entry))
                   && r.value.output == (if Truthy(output) then Resolve(cwd, output.s) else Resolve(cwd, "bundle.lua"))
                   && r.value.config == NormalizedJson(config, r.value.entry, r.value.output, r.value.sourceRoot,
                                                       MergeObfuscation(Get(config, "obfuscation")))))
  {
    var sourceRoot :=
      if Truthy(Get(config, "sourceRoot")) then ResolveArg(cwd, Get(config, "sourceRoot"))
      else match ResolveArg(cwd, Get(config, "entry"))
        case Ok(p) => Ok(Dirname(p))
        case Err(e) => Err(e);
    if sourceRoot.Err? then Err(sourceRoot.error)
    else
      var obfuscation := MergeObfuscation(Get(config, "obfuscation"));
      var entry := ResolveArg(cwd, Get(config, "entry"));
      if entry.Err? then Err(entry.error)
      else
        var output := if Truthy(Get(config, "output")) then ResolveArg(cwd, Get(config, "output")) else Ok(Resolve(cwd, "bundle.lua"));
        if output.Err? then Err(output.error)
        else Ok(PackerSettings(NormalizedJson(config, entry.value, output.value, sourceRoot.value, obfuscation),
                               entry.value, output.value, sourceRoot.value))
  }

  /**
   * Because the normalized rename setting is always an object, and so truthy, the bundle
   * generator renames variables and globals for the `internal` tool whatever the setting's
   * `enabled` flag and the `minify` flag say.
   */
  lemma InternalToolAlwaysRenames(config: Json, cwd: AbsPath)
    requires NormalizeConfig(config, cwd).Ok?
    requires Get(Get(NormalizeConfig(config, cwd).value.config, "obfuscation"), "tool") == Str("internal")
    ensures MinifyPlan(NormalizeConfig(config, cwd).value.config) == Some(MinifyOptions(true, true))
  {
    var c := NormalizeConfig(config, cwd).value.config;
    assert Get(c, "obfuscation") == MergeObfuscation(Get(config, "obfuscation"));
    InternalPlan(c, Get(config, "obfuscation"));
  }

  /** A configuration whose obfuscation section is a merged one with the internal tool renames. */
  lemma InternalPlan(c: Json, section: Json)
    requires Get(c, "obfuscation") == MergeObfuscation(section)
    requires Get(MergeObfuscation(section), "tool") == Str("internal")
    ensures MinifyPlan(c) == Some(MinifyOptions(true, true))
  {
    var obfuscation := MergeObfuscation(section);
    assert Truthy(obfuscation);
    assert ObfuscationOf(c) == obfuscation;
    var cfg := MergedConfig(OrIfFalsy(section, EmptyObject));
    assert Get(obfuscation, "config") == cfg;
    assert Truthy(cfg);
    var rename := Get(cfg, "renameVariables");
    assert rename.Obj?;
    assert PropOrFalse(cfg, "renameVariables") == rename;
  }

  /** The part of an analysis result `pack` reads; `None` for a value that is not a record or not an array. */
  datatype PackInput = PackInput(entryModule: Option<ModuleRecord>, sortedModules: Option<seq<ModuleRecord>>)

  const MissingAnalysis := JsError("Analysis result is required to create a bundle.", None)
  const IncompleteAnalysis := JsError("Analysis result must include entryModule and sortedModules.", None)

  /**
   * `pack(analysisResult)`: the argument checks, then the bundle text for the result's
   * modules, which `pack` writes to `settings.output`.
   */
  method Pack(settings: PackerSettings, fs: FileSystem, minifier: Minifier, analysisResult: Option<PackInput>)
    returns (r: Result<string, JsError>)
    ensures analysisResult.None? ==> r == Err(MissingAnalysis)
    ensures analysisResult.Some? && (analysisResult.value.entryModule.None? || analysisResult.value.sortedModules.None?) ==>
      r == Err(IncompleteAnalysis)
    ensures analysisResult.Some? && analysisResult.value.entryModule.Some? && analysisResult.value.sortedModules.Some? ==>
      (var spec := BundleModules(settings.config, fs, minifier, analysisResult.value.sortedModules.value);
       && (r.Ok? <==> spec.Ok?)
       && (spec.Err? ==> r == Err(spec.error))
       && (spec.Ok? ==> (spec.value.Valid() &&
             r.value == BundleTemplate(spec.value, analysisResult.value.entryModule.value.moduleName))))
  {
    if analysisResult.None? {
      return Err(MissingAnalysis);
    }
    var entryModule := analysisResult.value.entryModule;
    var sortedModules := analysisResult.value.sortedModules;
    if entryModule.None? || sortedModules.None? {
      return Err(IncompleteAnalysis);
    }
    r := GenerateBundle(settings.config, fs, minifier, entryModule.value, sortedModules.value);
  }
}
