/**
 * External search roots taken from environment variables: which variables are consulted,
 * how a `;`-separated value is cut into entries, how an entry is turned into a directory,
 * and how the per-variable and aggregate lists are deduplicated in first-seen order.
 * The process environment is a parameter, a map from variable name to value.
 */
module Env {
  import opened Wrappers
  import opened Seqs
  import opened Strings
  import opened Paths
  import opened OrderedMaps
  import opened JsValues

  /** The variable consulted when no list of names is configured. */
  const DefaultEnvName := "LUA_PATH"

  /** An array entry as a name: a string trimmed, anything else the empty string. */
  function EntryName(v: Json): string {
    if v.Str? then Trim(v.s) else ""
  }

  predicate NonEmpty(s: string) {
    |s| > 0
  }

  /**
   * `normalizeEnvNames`: nothing for a non-array, otherwise the trimmed names of its string
   * entries with the empty ones dropped, in order.
   */
  function NormalizeEnvNames(envConfig: Json): (r: Option<seq<string>>)
    ensures r.None? <==> !envConfig.Arr?
  {
    if !envConfig.Arr? then None
    else Some(Filter(NonEmpty, Map(EntryName, envConfig.items)))
  }

  /** The names kept are trimmed and non-empty. */
  lemma NormalizedNamesTrimmed(envConfig: Json)
    requires envConfig.Arr?
    ensures var r := NormalizeEnvNames(envConfig).value;
      forall i :: 0 <= i < |r| ==> r[i] != "" && Trim(r[i]) == r[i]
  {
    var names := Map(EntryName, envConfig.items);
    var kept := Filter(NonEmpty, names);
    forall i | 0 <= i < |kept| ensures Trim(kept[i]) == kept[i] {
      var j :| 0 <= j < |names| && names[j] == kept[i];
      TrimIdempotent(envConfig.items[j].s);
    }
  }

  /** Every string entry that trims to something non-empty is kept, trimmed, and nothing else is. */
  lemma NormalizedNamesExact(envConfig: Json)
    requires envConfig.Arr?
    ensures var r := NormalizeEnvNames(envConfig).value;
      forall i :: 0 <= i < |envConfig.items| && envConfig.items[i].Str? && Trim(envConfig.items[i].s) != "" ==>
        Trim(envConfig.items[i].s) in r
    ensures var r := NormalizeEnvNames(envConfig).value;
      forall i :: 0 <= i < |r| ==> exists j :: 0 <= j < |envConfig.items| && EntryName(envConfig.items[j]) == r[i]
  {
    var names := Map(EntryName, envConfig.items);
    var kept := Filter(NonEmpty, names);
    forall i | 0 <= i < |envConfig.items| && envConfig.items[i].Str? && Trim(envConfig.items[i].s) != ""
      ensures Trim(envConfig.items[i].s) in kept
    {
      assert names[i] == Trim(envConfig.items[i].s);
    }
  }

  /** `splitEnvValue`: no entries for a non-string or the empty string, else the `;`-separated pieces. */
  function SplitEnvValue(value: Json): (r: seq<string>)
    ensures !value.Str? || value.s == "" ==> r == []
    ensures value.Str? && value.s != "" ==> |r| >= 1 && Join(r, ";") == value.s
    ensures forall i :: 0 <= i < |r| ==> ';' !in r[i]
  {
    if !value.Str? || |value.s| == 0 then []
    else
      JoinSplit(value.s, ';');
      Split(value.s, ';')
  }

  /** Cut a `LUA_PATH` pattern at its first `?`. */
  function CutPattern(s: string): (r: string)
    ensures '?' !in r
    ensures StartsWith(s, r)
    ensures r == s <==> '?' !in s
  {
    var q := IndexOf(s, '?');
    if q == -1 then s else s[..q]
  }

  predicate IsSep(c: char) {
    c == '/' || c == '\\'
  }

  /** `s.replace(/[\\/]+$/, '')`: drop the trailing run of `/` and `\`. */
  function StripTrailingSeps(s: string): (r: string)
    ensures StartsWith(s, r)
    ensures |r| > 0 ==> !IsSep(r[|r| - 1])
    ensures forall i :: |r| <= i < |s| ==> IsSep(s[i])
  {
    if |s| > 0 && IsSep(s[|s| - 1]) then StripTrailingSeps(s[..|s| - 1]) else s
  }

  /** The directory text an entry names before it is resolved: trimmed, pattern cut, trailing separators gone. */
  function EntryStem(entry: string): string {
    StripTrailingSeps(CutPattern(Trim(entry)))
  }

  /**
   * `normalizeEnvEntry`: nothing when no text is left once the entry is trimmed, cut at `?`
   * and stripped of trailing separators; such an absolute text is kept as written, and a
   * relative one is resolved against `base` (`sourceRoot`, or the working directory).
   */
  function NormalizeEnvEntry(entry: string, base: AbsPath): (r: Option<string>)
    ensures r.None? <==> EntryStem(entry) == ""
    ensures r.Some? ==> IsAbsolute(r.value)
    ensures r.Some? && IsAbsolute(EntryStem(entry)) ==>
              r.value == EntryStem(entry) && '?' !in r.value && !IsSep(r.value[|r.value| - 1])
    ensures r.Some? && !IsAbsolute(EntryStem(entry)) ==> r.value == ToString(Resolve(base, EntryStem(entry)))
  {
    var trimmed := Trim(entry);
    if trimmed == "" then None
    else
      var withoutPattern := CutPattern(trimmed);
      if withoutPattern == "" then None
      else
        var stripped := StripTrailingSeps(withoutPattern);
        if stripped == "" then None
        else if IsAbsolute(stripped) then
          assert '?' !in stripped by {
            assert forall i :: 0 <= i < |stripped| ==> stripped[i] == withoutPattern[i];
          }
          Some(stripped)
        else Some(ToString(Resolve(base, stripped)))
  }

  /** The entries a variable contributes, normalized, with the empty ones dropped (duplicates kept). */
  function Normalized(entries: seq<string>, base: AbsPath): (r: seq<string>)
    ensures |r| <= |entries|
  {
    if |entries| == 0 then []
    else
      var rest := Normalized(entries[..|entries| - 1], base);
      match NormalizeEnvEntry(entries[|entries| - 1], base)
      case Some(p) => rest + [p]
      case None => rest
  }

  /** The raw entries of one variable: empty when it is unset or empty, else its `;`-separated pieces. */
  function RawEntries(env: map<string, string>, name: string): seq<string> {
    if name in env && env[name] != "" then SplitEnvValue(Str(env[name])) else []
  }

  function EntriesOf(env: map<string, string>, name: string, base: AbsPath): seq<string> {
    Normalized(RawEntries(env, name), base)
  }

  /** The directories a variable names, duplicate-free in first-seen order: `pathsByEnv[name]`. */
  function PathsFor(env: map<string, string>, name: string, base: AbsPath): seq<string> {
    Dedup(EntriesOf(env, name, base))
  }

  /** Every variable's entries, one variable after another. */
  function AllEntries(env: map<string, string>, names: seq<string>, base: AbsPath): seq<string> {
    if |names| == 0 then []
    else AllEntries(env, names[..|names| - 1], base) + EntriesOf(env, names[|names| - 1], base)
  }

  /** The aggregate list: every directory of every variable once, in first-seen order. */
  function AllPaths(env: map<string, string>, names: seq<string>, base: AbsPath): seq<string> {
    Dedup(AllEntries(env, names, base))
  }

  /** The `pathsByEnv` object after assigning each name's list in turn. */
  function PathsByEnv(env: map<string, string>, names: seq<string>, base: AbsPath): OrderedMap<string, seq<string>> {
    if |names| == 0 then Empty()
    else
      var n := names[|names| - 1];
      PathsByEnv(env, names[..|names| - 1], base).Set(n, PathsFor(env, n, base))
  }

  /** The names consulted: the normalized configured list, else `LUA_PATH` alone. */
  function EnvNames(envConfig: Json): (r: seq<string>)
    ensures !envConfig.Arr? ==> r == [DefaultEnvName]
    ensures envConfig.Arr? ==> r == NormalizeEnvNames(envConfig).value
  {
    NormalizeEnvNames(envConfig).GetOr([DefaultEnvName])
  }

  datatype ExternalEnv = ExternalEnv(
    hasExplicitConfig: bool,
    envNames: seq<string>,
    pathsByEnv: OrderedMap<string, seq<string>>,
    allPaths: seq<string>)

  /**
   * `resolveExternalEnv`. `base` is `sourceRoot` when it is set and the working directory
   * otherwise; `env` is the process environment.
   */
  method ResolveExternalEnv(envConfig: Json, base: AbsPath, env: map<string, string>) returns (r: ExternalEnv)
    ensures r.hasExplicitConfig <==> envConfig.Arr?
    ensures r.envNames == EnvNames(envConfig)
    ensures r.pathsByEnv == PathsByEnv(env, r.envNames, base)
    ensures r.allPaths == AllPaths(env, r.envNames, base)
  {
    var hasExplicitConfig := envConfig.Arr?;
    var envNames := EnvNames(envConfig);
    var pathsByEnv: OrderedMap<string, seq<string>> := Empty();
    var aggregated: seq<string> := [];
    var aggregateSet: set<string> := {};
    for i := 0 to |envNames|
      invariant pathsByEnv == PathsByEnv(env, envNames[..i], base)
      invariant aggregated == Dedup(AllEntries(env, envNames[..i], base))
      invariant forall x :: x in aggregateSet <==> x in aggregated
    {
      var envName := envNames[i];
      var entries := RawEntries(env, envName);
      var resolvedPaths;
      resolvedPaths, aggregated, aggregateSet := ResolveEntries(entries, base, AllEntries(env, envNames[..i], base), aggregated, aggregateSet);
      EnvStep(env, envNames, i, base);
      pathsByEnv := pathsByEnv.Set(envName, resolvedPaths);
    }
    assert envNames[..|envNames|] == envNames;
    r := ExternalEnv(hasExplicitConfig, envNames, pathsByEnv, aggregated);
  }

  /** The inner loop of `resolveExternalEnv`: one variable's entries pushed onto its list and the aggregate. */
  method ResolveEntries(entries: seq<string>, base: AbsPath, ghost before: seq<string>,
                        aggregated0: seq<string>, aggregateSet0: set<string>)
    returns (resolvedPaths: seq<string>, aggregated: seq<string>, aggregateSet: set<string>)
    requires aggregated0 == Dedup(before) && forall x :: x in aggregateSet0 <==> x in aggregated0
    ensures resolvedPaths == Dedup(Normalized(entries, base))
    ensures aggregated == Dedup(before + Normalized(entries, base))
    ensures forall x :: x in aggregateSet <==> x in aggregated
  {
    resolvedPaths, aggregated, aggregateSet := [], aggregated0, aggregateSet0;
    assert before + Normalized(entries[..0], base) == before;
    for j := 0 to |entries|
      invariant resolvedPaths == Dedup(Normalized(entries[..j], base))
      invariant aggregated == Dedup(before + Normalized(entries[..j], base))
      invariant forall x :: x in aggregateSet <==> x in aggregated
    {
      ghost var seen := Normalized(entries[..j], base);
      var normalized := NormalizeEnvEntry(entries[j], base);
      NormalizedStep(entries, j, base);
      if normalized.Some? {
        var p := normalized.value;
        DedupPushList(seen, resolvedPaths, p);
        if p !in resolvedPaths {
          resolvedPaths := resolvedPaths + [p];
        }
        ConcatAssoc(before, seen, p);
        DedupPush(before + seen, aggregated, aggregateSet, p);
        if p !in aggregateSet {
          aggregateSet := aggregateSet + {p};
          aggregated := aggregated + [p];
        }
      }
    }
    assert entries[..|entries|] == entries;
  }

  lemma EnvStep(env: map<string, string>, names: seq<string>, i: nat, base: AbsPath)
    requires i < |names|
    ensures AllEntries(env, names[..i + 1], base) == AllEntries(env, names[..i], base) + EntriesOf(env, names[i], base)
    ensures PathsByEnv(env, names[..i + 1], base) == PathsByEnv(env, names[..i], base).Set(names[i], PathsFor(env, names[i], base))
  {
    assert names[..i + 1][..i] == names[..i];
  }

  lemma NormalizedStep(entries: seq<string>, j: nat, base: AbsPath)
    requires j < |entries|
    ensures Normalized(entries[..j + 1], base) ==
      if NormalizeEnvEntry(entries[j], base).Some?
      then Normalized(entries[..j], base) + [NormalizeEnvEntry(entries[j], base).value]
      else Normalized(entries[..j], base)
  {
    assert entries[..j + 1][..j] == entries[..j];
  }

  lemma ConcatAssoc(a: seq<string>, b: seq<string>, x: string)
    ensures a + (b + [x]) == (a + b) + [x]
  {
  }

  /** Every consulted name gets an entry, in first-listed order, holding that variable's directories. */
  lemma {:induction false} PathsByEnvProps(env: map<string, string>, names: seq<string>, base: AbsPath)
    ensures PathsByEnv(env, names, base).Valid()
    ensures PathsByEnv(env, names, base).keys == Dedup(names)
    ensures forall n :: n in PathsByEnv(env, names, base).values <==> n in names
    ensures forall n :: n in names ==> PathsByEnv(env, names, base).values[n] == PathsFor(env, n, base)
  {
    if |names| > 0 {
      var init := names[..|names| - 1];
      var n := names[|names| - 1];
      PathsByEnvProps(env, init, base);
      assert init + [n] == names;
      DedupOntoSnoc([], init, n);
      DedupProps(init);
    }
  }

  /** Each variable's list has no duplicates and holds exactly the directories its entries name. */
  lemma PathsForProps(env: map<string, string>, name: string, base: AbsPath)
    ensures Distinct(PathsFor(env, name, base))
    ensures forall p :: p in PathsFor(env, name, base) <==> p in EntriesOf(env, name, base)
    ensures PathsFor(env, name, base) == KeepFirsts(EntriesOf(env, name, base))
  {
    DedupProps(EntriesOf(env, name, base));
    DedupFirstOccurrences(EntriesOf(env, name, base));
  }

  /**
   * The aggregate list has no duplicates, keeps first occurrences in order, and as a set is
   * the union of the per-variable lists.
   */
  lemma AllPathsProps(env: map<string, string>, names: seq<string>, base: AbsPath)
    ensures Distinct(AllPaths(env, names, base))
    ensures AllPaths(env, names, base) == KeepFirsts(AllEntries(env, names, base))
    ensures forall p :: p in AllPaths(env, names, base) <==> exists n :: n in names && p in PathsFor(env, n, base)
  {
    DedupProps(AllEntries(env, names, base));
    DedupFirstOccurrences(AllEntries(env, names, base));
    AllEntriesUnion(env, names, base);
  }

  lemma {:induction false} AllEntriesUnion(env: map<string, string>, names: seq<string>, base: AbsPath)
    ensures forall p :: p in AllEntries(env, names, base) <==> exists n :: n in names && p in PathsFor(env, n, base)
  {
    if |names| > 0 {
      var init := names[..|names| - 1];
      var last := names[|names| - 1];
      AllEntriesUnion(env, init, base);
      forall n | n in names ensures forall p :: p in PathsFor(env, n, base) <==> p in EntriesOf(env, n, base) {
        PathsForProps(env, n, base);
      }
      forall p | p in AllEntries(env, names, base) ensures exists n :: n in names && p in PathsFor(env, n, base) {
        if p in AllEntries(env, init, base) {
          var n :| n in init && p in PathsFor(env, n, base);
          assert n in names;
        } else {
          assert p in PathsFor(env, last, base);
        }
      }
      forall p | exists n :: n in names && p in PathsFor(env, n, base) ensures p in AllEntries(env, names, base) {
        var n :| n in names && p in PathsFor(env, n, base);
        if n != last {
          assert n in init;
        }
      }
    }
  }

  /** An unset or empty variable still gets an entry, and contributes nothing. */
  lemma UnsetVariable(env: map<string, string>, name: string, base: AbsPath)
    requires name !in env || env[name] == ""
    ensures PathsFor(env, name, base) == []
  {
  }
}
