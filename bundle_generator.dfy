/**
 * The bundle generator: which modules go into the bundle and with what text (`generateBundle`),
 * and the Lua text it emits (`createBundleTemplate`), a table of module loaders followed by a
 * caching `require` shim and the call that runs the entry module. The minifier is a parameter.
 */
module Bundle {
  import opened Wrappers
  import opened Seqs
  import opened Strings
  import opened Paths
  import opened Records
  import opened OrderedMaps
  import opened JsValues

  /** The options object handed to the minifier. */
  datatype MinifyOptions = MinifyOptions(renameVariables: bool, renameGlobals: bool)

  /** `luamin.Minify`: an arbitrary text transformation. */
  type Minifier = (string, MinifyOptions) -> string

  /** `const { key = false } = obj`: the property, or `false` when it is `undefined`. */
  function PropOrFalse(obj: Json, key: string): (r: Json)
    ensures Get(obj, key).Undefined? ==> r == Bool(false)
    ensures !Get(obj, key).Undefined? ==> r == Get(obj, key)
  {
    var v := Get(obj, key);
    if v.Undefined? then Bool(false) else v
  }

  /** `this.config.obfuscation || { tool: 'none', config: {} }`. */
  function ObfuscationOf(config: Json): Json {
    OrIfFalsy(Get(config, "obfuscation"),
      Obj(["tool", "config"], map["tool" := Str("none"), "config" := Obj([], map[])]))
  }

  /**
   * Whether each module's text goes through the minifier, and with which options: only for the
   * `internal` tool with a truthy `minify` or `renameVariables`; the latter turns on both renamings.
   */
  function MinifyPlan(config: Json): Option<MinifyOptions>
  {
    var obfuscation := ObfuscationOf(config);
    if Get(obfuscation, "tool") != Str("internal") then None
    else
      var cfg := OrIfFalsy(Get(obfuscation, "config"), Obj([], map[]));
      var minify := PropOrFalse(cfg, "minify");
      var renameVariables := PropOrFalse(cfg, "renameVariables");
      if Truthy(minify) || Truthy(renameVariables) then
        Some(MinifyOptions(Truthy(renameVariables), Truthy(renameVariables)))
      else None
  }

  /**
   * The minifier runs exactly for the `internal` tool with a truthy `minify` or
   * `renameVariables` (`false` when absent), and renaming turns on both renaming options.
   */
  lemma MinifyGating(config: Json)
    ensures var obfuscation := ObfuscationOf(config);
      var cfg := OrIfFalsy(Get(obfuscation, "config"), Obj([], map[]));
      MinifyPlan(config).Some? <==>
        Get(obfuscation, "tool") == Str("internal") &&
        (Truthy(PropOrFalse(cfg, "minify")) || Truthy(PropOrFalse(cfg, "renameVariables")))
    ensures var cfg := OrIfFalsy(Get(ObfuscationOf(config), "config"), Obj([], map[]));
      MinifyPlan(config).Some? ==>
        MinifyPlan(config).value.renameVariables == Truthy(PropOrFalse(cfg, "renameVariables")) &&
        MinifyPlan(config).value.renameGlobals == Truthy(PropOrFalse(cfg, "renameVariables"))
  {
  }

  /** The text a module contributes: its file, minified when the plan says so. */
  function ModuleText(config: Json, minifier: Minifier, content: string): string {
    match MinifyPlan(config)
    case Some(options) => minifier(content, options)
    case None => content
  }

  /**
   * The `modules` object after the loop over `sortedModules`: records without a file are
   * skipped, every other one (re)assigns its module name; a file that cannot be read aborts.
   */
  function BundleModules(config: Json, fs: FileSystem, minifier: Minifier, records: seq<ModuleRecord>)
    : Result<OrderedMap<string, string>, JsError>
  {
    if |records| == 0 then Ok(Empty())
    else
      match BundleModules(config, fs, minifier, records[..|records| - 1])
      case Err(e) => Err(e)
      case Ok(modules) =>
        var m := records[|records| - 1];
        if m.filePath.None? then Ok(modules)
        else if m.filePath.value !in fs then Err(ReadError(m.filePath.value))
        else Ok(modules.Set(m.moduleName, ModuleText(config, minifier, fs[m.filePath.value])))
  }

  /** One iteration of the loop, on the records before it. */
  lemma BundleStep(config: Json, fs: FileSystem, minifier: Minifier, records: seq<ModuleRecord>, k: nat)
    requires k < |records|
    ensures BundleModules(config, fs, minifier, records[..k + 1]) ==
      match BundleModules(config, fs, minifier, records[..k])
      case Err(e) => Err(e)
      case Ok(modules) =>
        if records[k].filePath.None? then Ok(modules)
        else if records[k].filePath.value !in fs then Err(ReadError(records[k].filePath.value))
        else Ok(modules.Set(records[k].moduleName, ModuleText(config, minifier, fs[records[k].filePath.value])))
  {
    assert records[..k + 1][..k] == records[..k];
  }

  /** The records that reach the table: those with a file. */
  predicate HasFile(m: ModuleRecord) {
    m.filePath.Some?
  }

  function NameOf(m: ModuleRecord): string {
    m.moduleName
  }

  /** Every record with a file can be read. */
  predicate AllReadable(fs: FileSystem, records: seq<ModuleRecord>) {
    forall i :: 0 <= i < |records| && records[i].filePath.Some? ==> records[i].filePath.value in fs
  }

  /** The table is built exactly when every record with a file can be read. */
  lemma {:induction false} BundleModulesOk(config: Json, fs: FileSystem, minifier: Minifier, records: seq<ModuleRecord>)
    ensures BundleModules(config, fs, minifier, records).Ok? <==> AllReadable(fs, records)
    decreases |records|
  {
    if |records| > 0 {
      var n := |records| - 1;
      BundleModulesOk(config, fs, minifier, records[..n]);
      assert forall i :: 0 <= i < n ==> records[..n][i] == records[i];
    }
  }

  /** The keys of the table are the names of the records with a file, each once, in first-seen order. */
  lemma {:induction false} BundleModulesKeys(config: Json, fs: FileSystem, minifier: Minifier, records: seq<ModuleRecord>)
    ensures var r := BundleModules(config, fs, minifier, records);
      r.Ok? ==> r.value.Valid() && r.value.keys == Dedup(Map(NameOf, Filter(HasFile, records)))
    decreases |records|
  {
    if |records| > 0 {
      var n := |records| - 1;
      var init := records[..n];
      var m := records[n];
      BundleModulesKeys(config, fs, minifier, init);
      BundleStep(config, fs, minifier, records, n);
      assert records[..n + 1] == records;
      var r := BundleModules(config, fs, minifier, records);
      if r.Ok? {
        var prev := BundleModules(config, fs, minifier, init).value;
        var names := Map(NameOf, Filter(HasFile, init));
        assert prev.Valid() && prev.keys == Dedup(names);
        FilterSnoc(records);
        if HasFile(m) {
          assert Filter(HasFile, records) == Filter(HasFile, init) + [m];
          MapSnoc(NameOf, Filter(HasFile, init), m);
          assert Map(NameOf, Filter(HasFile, records)) == names + [m.moduleName];
          DedupSnoc(names, m.moduleName);
          DedupProps(names);
          assert m.moduleName in prev.values <==> m.moduleName in names;
          assert r.value == prev.Set(m.moduleName, ModuleText(config, minifier, fs[m.filePath.value]));
        } else {
          assert Filter(HasFile, records) == Filter(HasFile, init);
          assert r.value == prev;
        }
      }
    }
  }

  lemma FilterSnoc(records: seq<ModuleRecord>)
    requires |records| > 0
    ensures Filter(HasFile, records) ==
      Filter(HasFile, records[..|records| - 1]) + (if HasFile(records[|records| - 1]) then [records[|records| - 1]] else [])
  {
  }

  /** The record `i` is the last one with a file under its module name. */
  predicate LastOfName(records: seq<ModuleRecord>, i: nat)
    requires i < |records|
  {
    forall j :: i < j < |records| && records[j].filePath.Some? ==> records[j].moduleName != records[i].moduleName
  }

  /** Each name holds the text of the last record with a file under that name: later records win. */
  lemma {:induction false} BundleModulesLastWins(config: Json, fs: FileSystem, minifier: Minifier, records: seq<ModuleRecord>)
    ensures var r := BundleModules(config, fs, minifier, records);
      r.Ok? ==> forall i :: 0 <= i < |records| && records[i].filePath.Some? && LastOfName(records, i) ==>
        && records[i].filePath.value in fs
        && records[i].moduleName in r.value.values
        && r.value.values[records[i].moduleName] == ModuleText(config, minifier, fs[records[i].filePath.value])
    decreases |records|
  {
    if |records| > 0 {
      var n := |records| - 1;
      var init := records[..n];
      BundleModulesLastWins(config, fs, minifier, init);
      var r := BundleModules(config, fs, minifier, records);
      if r.Ok? {
        BundleModulesOk(config, fs, minifier, records);
        forall i | 0 <= i < n && records[i].filePath.Some? && LastOfName(records, i)
          ensures LastOfName(init, i)
        {
          assert forall j :: i < j < n ==> init[j] == records[j];
        }
      }
    }
  }

  /** One loader entry of the modules table. */
  function Entry(name: string, content: string): string {
    "[\"" + name + "\"] = function(...)\n" + content + "\nend,"
  }

  /** The entries of the table, one per key, in key order. */
  function Entries(modules: OrderedMap<string, string>): (r: seq<string>)
    requires modules.Valid()
    ensures |r| == |modules.keys|
    ensures forall i :: 0 <= i < |r| ==> r[i] == Entry(modules.keys[i], modules.values[modules.keys[i]])
  {
    seq(|modules.keys|, i requires 0 <= i < |modules.keys| => Entry(modules.keys[i], modules.values[modules.keys[i]]))
  }

  /** The runtime the bundle installs: the cache, the `custom_require` function and its installation. */
  const Shim :=
    "local require_cache = {}\n" +
    "\n" +
    "local function custom_require(module_name)\n" +
    "    if require_cache[module_name] then\n" +
    "        return require_cache[module_name]\n" +
    "    end\n" +
    "\n" +
    "    if not modules[module_name] then\n" +
    "        error(\"Module '\" .. module_name .. \"' not found.\")\n" +
    "    end\n" +
    "\n" +
    "    local module_func = modules[module_name]\n" +
    "    local result = module_func()\n" +
    "    require_cache[module_name] = result\n" +
    "    return result\n" +
    "end\n" +
    "\n" +
    "-- Set the global require to our custom require\n" +
    "require = custom_require\n" +
    "\n" +
    "-- Run the entry module\n"

  const TableHead := "\nlocal modules = {\n"

  /** The statement that runs the entry module: the last line of every bundle. */
  function EntryCall(entryModule: string): string {
    "require(\"" + entryModule + "\")\n"
  }

  /**
   * The bundle text around a given runtime text: the table head, the entries, the end of the
   * table, the runtime and the entry call. The proofs below hold for any runtime text.
   */
  function TemplateWith(modules: OrderedMap<string, string>, entryModule: string, shim: string): string
    requires modules.Valid()
  {
    TableHead + (Join(Entries(modules), "\n") + ("\n}\n\n" + shim + EntryCall(entryModule)))
  }

  /** `createBundleTemplate`. */
  function BundleTemplate(modules: OrderedMap<string, string>, entryModule: string): string
    requires modules.Valid()
  {
    TemplateWith(modules, entryModule, Shim)
  }

  /** A bundle opens with the modules table and ends with the call that runs the entry module. */
  lemma TemplateShape(modules: OrderedMap<string, string>, entryModule: string)
    requires modules.Valid()
    ensures StartsWith(BundleTemplate(modules, entryModule), TableHead + Join(Entries(modules), "\n"))
    ensures EndsWith(BundleTemplate(modules, entryModule), EntryCall(entryModule))
  {
    TemplateShapeWith(modules, entryModule, Shim);
  }

  lemma TemplateShapeWith(modules: OrderedMap<string, string>, entryModule: string, shim: string)
    requires modules.Valid()
    ensures StartsWith(TemplateWith(modules, entryModule, shim), TableHead + Join(Entries(modules), "\n"))
    ensures EndsWith(TemplateWith(modules, entryModule, shim), EntryCall(entryModule))
  {
    var joined := Join(Entries(modules), "\n");
    PrefixAndSuffix(TableHead, joined, "\n}\n\n" + shim, EntryCall(entryModule));
  }

  lemma PrefixAndSuffix(a: string, b: string, c: string, d: string)
    ensures (a + (b + (c + d)))[..|a + b|] == a + b
    ensures |d| <= |a + (b + (c + d))|
    ensures (a + (b + (c + d)))[|a + (b + (c + d))| - |d|..] == d
  {
    assert a + (b + (c + d)) == (a + b) + (c + d);
    assert a + (b + (c + d)) == (a + b + c) + d;
  }

  /**
   * Where entry `i` starts in the joined entry list: after every earlier entry and its separator.
   */
  function Offset(parts: seq<string>, sepLength: nat, i: nat): nat
    requires i <= |parts|
  {
    if i == 0 then 0 else Offset(parts, sepLength, i - 1) + |parts[i - 1]| + sepLength
  }

  /** Each part appears verbatim in the joined text, at its offset: the parts keep their order. */
  lemma {:induction false} JoinHasParts(parts: seq<string>, sep: string, i: nat)
    requires i < |parts|
    ensures Offset(parts, |sep|, i) + |parts[i]| <= |Join(parts, sep)|
    ensures Join(parts, sep)[Offset(parts, |sep|, i)..Offset(parts, |sep|, i) + |parts[i]|] == parts[i]
    decreases |parts|
  {
    if i == 0 {
      if |parts| > 1 {
        assert Join(parts, sep) == parts[0] + (sep + Join(parts[1..], sep));
      }
    } else {
      JoinHasParts(parts[1..], sep, i - 1);
      OffsetShift(parts, |sep|, i);
      var rest := Join(parts[1..], sep);
      assert Join(parts, sep) == (parts[0] + sep) + rest;
      assert parts[1..][i - 1] == parts[i];
      var o := Offset(parts[1..], |sep|, i - 1);
      SliceAfter(parts[0] + sep, rest, o, o + |parts[i]|);
    }
  }

  lemma SliceAfter<T>(a: seq<T>, b: seq<T>, i: nat, k: nat)
    requires i <= k <= |b|
    ensures |a| + k <= |a + b| && (a + b)[|a| + i..|a| + k] == b[i..k]
  {
  }

  lemma {:induction false} OffsetShift(parts: seq<string>, sepLength: nat, i: nat)
    requires 0 < i <= |parts|
    ensures Offset(parts, sepLength, i) == |parts[0]| + sepLength + Offset(parts[1..], sepLength, i - 1)
    decreases i
  {
    if i > 1 {
      OffsetShift(parts, sepLength, i - 1);
    }
  }

  /**
   * Every module's loader is in the bundle text, verbatim and after the loaders of the modules
   * inserted before it: the text of module `keys[i]` sits right after the table head and the
   * entries before it.
   */
  lemma TemplateHasEntry(modules: OrderedMap<string, string>, entryModule: string, i: nat)
    requires modules.Valid() && i < |modules.keys|
    ensures var r := BundleTemplate(modules, entryModule);
      var start := |TableHead| + Offset(Entries(modules), 1, i);
      var e := Entry(modules.keys[i], modules.values[modules.keys[i]]);
      start + |e| <= |r| && r[start..start + |e|] == e
  {
    TemplateHasEntryWith(modules, entryModule, Shim, i);
  }

  lemma TemplateHasEntryWith(modules: OrderedMap<string, string>, entryModule: string, shim: string, i: nat)
    requires modules.Valid() && i < |modules.keys|
    ensures var r := TemplateWith(modules, entryModule, shim);
      var start := |TableHead| + Offset(Entries(modules), 1, i);
      var e := Entry(modules.keys[i], modules.values[modules.keys[i]]);
      start + |e| <= |r| && r[start..start + |e|] == e
  {
    var parts := Entries(modules);
    var tail := "\n}\n\n" + shim + EntryCall(entryModule);
    var r := TemplateWith(modules, entryModule, shim);
    assert r == TableHead + (Join(parts, "\n") + tail);
    assert parts[i] == Entry(modules.keys[i], modules.values[modules.keys[i]]);
    assert |"\n"| == 1;
    JoinedPartInText(TableHead, parts, "\n", tail, i);
  }

  /** A part of a joined list framed by a head and a tail sits at the head's length plus its offset. */
  lemma JoinedPartInText(head: string, parts: seq<string>, sep: string, tail: string, i: nat)
    requires i < |parts|
    ensures var r := head + (Join(parts, sep) + tail);
      var start := |head| + Offset(parts, |sep|, i);
      start + |parts[i]| <= |r| && r[start..start + |parts[i]|] == parts[i]
  {
    JoinHasParts(parts, sep, i);
    var o := Offset(parts, |sep|, i);
    SliceInMiddle(head, Join(parts, sep), tail, o, o + |parts[i]|);
  }

  lemma SliceInMiddle<T>(a: seq<T>, b: seq<T>, c: seq<T>, i: nat, k: nat)
    requires i <= k <= |b|
    ensures |a| + k <= |a + (b + c)| && (a + (b + c))[|a| + i..|a| + k] == b[i..k]
  {
    assert a + (b + c) == (a + b) + c;
  }

  /** `generateBundle`: the table built from the sorted records, then the template for the entry module. */
  method GenerateBundle(config: Json, fs: FileSystem, minifier: Minifier,
                        entryModule: ModuleRecord, sortedModules: seq<ModuleRecord>)
    returns (r: Result<string, JsError>)
    ensures var spec := BundleModules(config, fs, minifier, sortedModules);
      && (r.Ok? <==> spec.Ok?)
      && (spec.Err? ==> r.error == spec.error)
    ensures r.Ok? ==> BundleModules(config, fs, minifier, sortedModules).value.Valid() &&
                      r.value == BundleTemplate(BundleModules(config, fs, minifier, sortedModules).value, entryModule.moduleName)
  {
    var modules: OrderedMap<string, string> := Empty();
    for k := 0 to |sortedModules|
      invariant BundleModules(config, fs, minifier, sortedModules[..k]) == Ok(modules)
      invariant modules.Valid()
    {
      BundleStep(config, fs, minifier, sortedModules, k);
      var moduleRecord := sortedModules[k];
      if moduleRecord.filePath.None? {
        continue;
      }
      var moduleName := moduleRecord.moduleName;
      if moduleRecord.filePath.value !in fs {
        BundleStops(config, fs, minifier, sortedModules, k + 1);
        return Err(ReadError(moduleRecord.filePath.value));
      }
      var content := fs[moduleRecord.filePath.value];
      var plan := MinifyPlan(config);
      if plan.Some? {
        content := minifier(content, plan.value);
      }
      modules := modules.Set(moduleName, content);
    }
    assert sortedModules[..|sortedModules|] == sortedModules;
    r := Ok(BundleTemplate(modules, entryModule.moduleName));
  }

  /** Once the loop has failed on a prefix, the whole loop fails with the same error. */
  lemma {:induction false} BundleStops(config: Json, fs: FileSystem, minifier: Minifier, records: seq<ModuleRecord>, k: nat)
    requires 0 < k <= |records|
    requires BundleModules(config, fs, minifier, records[..k]).Err?
    ensures BundleModules(config, fs, minifier, records) == BundleModules(config, fs, minifier, records[..k])
    decreases |records| - k
  {
    if k < |records| {
      BundleStep(config, fs, minifier, records, k);
      BundleStops(config, fs, minifier, records, k + 1);
    } else {
      assert records[..k] == records;
    }
  }

  /** A Lua value as the emitted `custom_require` tells them apart: `nil`, `false`, or any other value. */
  datatype LuaValue = Nil | False | Other(id: int)

  predicate LuaTruthy(v: LuaValue) {
    !v.Nil? && !v.False?
  }

  /** What one `custom_require(name)` call does: its result, the cache after it, whether the loader ran. */
  datatype RequireOutcome = RequireOutcome(result: Result<LuaValue, string>, cache: map<string, LuaValue>, ran: bool)

  /**
   * The emitted `custom_require`, on a cache and on the value each module's loader returns:
   * a truthy cached value is returned as is; a name absent from the table raises an error;
   * otherwise the loader runs and its result is stored (storing `nil` removes the key).
   * `where` is the `<chunk>:<line>: ` position that Lua's `error` puts in front of a message
   * raised at level 1; it is fixed by the bundle's chunk name and layout.
   */
  function Require(cache: map<string, LuaValue>, loaders: map<string, LuaValue>, name: string, where: string): RequireOutcome {
    if name in cache && LuaTruthy(cache[name]) then RequireOutcome(Ok(cache[name]), cache, false)
    else if name !in loaders then RequireOutcome(Err(where + "Module '" + name + "' not found."), cache, false)
    else
      var result := loaders[name];
      RequireOutcome(Ok(result), if result.Nil? then cache - {name} else cache[name := result], true)
  }

  /** Everything in the cache is what that module's loader returned. */
  predicate CacheSound(cache: map<string, LuaValue>, loaders: map<string, LuaValue>) {
    forall k :: k in cache ==> k in loaders && cache[k] == loaders[k]
  }

  /** A call keeps the cache sound, and a successful call returns what the module's loader returns. */
  lemma RequireSound(cache: map<string, LuaValue>, loaders: map<string, LuaValue>, name: string, where: string)
    requires CacheSound(cache, loaders)
    ensures CacheSound(Require(cache, loaders, name, where).cache, loaders)
    ensures Require(cache, loaders, name, where).result.Ok? <==> name in loaders
    ensures Require(cache, loaders, name, where).result.Ok? ==> Require(cache, loaders, name, where).result.value == loaders[name]
    ensures Require(cache, loaders, name, where).result.Err? ==>
      Require(cache, loaders, name, where).result.error == where + "Module '" + name + "' not found." &&
      Require(cache, loaders, name, where).cache == cache
  {
  }

  /** A loader with a truthy result runs once: a second call is served from the cache with the same value. */
  lemma RequireTwiceRunsOnce(cache: map<string, LuaValue>, loaders: map<string, LuaValue>, name: string, where: string)
    requires name in loaders && LuaTruthy(loaders[name])
    ensures var first := Require(cache, loaders, name, where);
      var second := Require(first.cache, loaders, name, where);
      !second.ran && second.cache == first.cache && second.result == Ok(if first.ran then loaders[name] else cache[name])
  {
  }

  /** A loader returning `nil` or `false` is not remembered: every call runs it again. */
  lemma FalsyLoaderReruns(cache: map<string, LuaValue>, loaders: map<string, LuaValue>, name: string, where: string)
    requires name in loaders && !LuaTruthy(loaders[name])
    requires CacheSound(cache, loaders)
    ensures Require(cache, loaders, name, where).ran
    ensures Require(Require(cache, loaders, name, where).cache, loaders, name, where).ran
  {
  }

  /** The Lua state the bundle sets up: the `modules` table (as its loaders' results) and `require_cache`. */
  class LuaRuntime {
    const loaders: map<string, LuaValue>
    /** The position prefix of the not-found error (see Require). */
    const where: string
    var cache: map<string, LuaValue>
    /** The names whose loader has run, in order. */
    ghost var runs: seq<string>

    /** Right after loading the bundle the cache is empty and no loader has run. */
    constructor(loaders: map<string, LuaValue>, where: string)
      ensures this.loaders == loaders && this.where == where && cache == map[] && runs == []
    {
      this.loaders := loaders;
      this.where := where;
      cache := map[];
      runs := [];
    }

    /** `custom_require(name)`. */
    method CustomRequire(name: string) returns (r: Result<LuaValue, string>)
      modifies this
      ensures var o := Require(old(cache), loaders, name, where);
        r == o.result && cache == o.cache && runs == old(runs) + (if o.ran then [name] else [])
    {
      if name in cache && LuaTruthy(cache[name]) {
        return Ok(cache[name]);
      }
      if name !in loaders {
        return Err(where + "Module '" + name + "' not found.");
      }
      var result := loaders[name];
      if result.Nil? {
        cache := cache - {name};
      } else {
        cache := cache[name := result];
      }
      runs := runs + [name];
      r := Ok(result);
    }
  }
}
