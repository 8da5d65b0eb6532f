/**
 * The dependency analyzer: from an entry file, read each analyzed module, find its
 * `require` ids, resolve them from the module's directory and recurse depth-first into
 * every dependency that has a file, building an insertion-ordered graph keyed by file path;
 * then order the graph so that every module follows its dependencies.
 *
 * The analyzer reaches the resolver through ResolverInterface: `resolve` (which either
 * returns a record or fails with an error), the entry-record factory, the missing-record
 * factory and the `ignoreMissing` flag. ShownResolver builds the interface from a
 * Resolution.ModuleResolver.
 */
module DependencyAnalysis {
  import opened Wrappers
  import opened Seqs
  import opened Strings
  import opened Paths
  import opened Records
  import opened OrderedMaps
  import opened DependencyGraphs
  import opened RequireScan
  import opened TopologicalOrder
  import Resolution

  datatype ResolverInterface = ResolverInterface(
    resolve: (FileSystem, string, AbsPath) -> Result<ModuleRecord, JsError>,
    createEntryRecord: AbsPath -> ModuleRecord,
    createMissingRecord: string -> ModuleRecord,
    ignoreMissing: bool)

  /**
   * The interface over a ModuleResolver. That resolver has no missing-record factory and no
   * `ignoreMissing` flag (an absent flag reads as false); its errors never carry the
   * MODULE_NOT_FOUND code, so the factory is never called (see ShownResolverNeverMissing).
   */
  function ShownResolver(r: Resolution.ModuleResolver): ResolverInterface {
    ResolverInterface(
      (fs: FileSystem, id: string, dir: AbsPath) => r.ResolveSpec(fs, id, dir),
      (p: AbsPath) => r.CreateEntryRecord(p),
      (id: string) => Resolution.CreateIgnoredRecord(id),
      false)
  }

  /**
   * With the shown resolver nothing is ever missing: a require either resolves or aborts
   * the build (its errors carry no code), and no resolved record is flagged missing.
   */
  lemma ShownResolverNeverMissing(r: Resolution.ModuleResolver, fs: FileSystem,
                                  from: ModuleRecord, dir: AbsPath, ids: seq<string>)
    ensures var e := ExpandRequires(ShownResolver(r), fs, from, dir, ids);
      && (e.Ok? <==> forall i :: 0 <= i < |ids| ==> r.ResolveSpec(fs, ids[i], dir).Ok?)
      && (e.Ok? ==> e.value.missing == [])
  {
    var I := ShownResolver(r);
    forall id ensures PlainResolution(I, fs, dir, id) {
      ResolveSpecShape(r, fs, id, dir);
    }
    NeverMissing(I, fs, from, dir, ids);
    assert forall i :: 0 <= i < |ids| ==> I.resolve(fs, ids[i], dir) == r.ResolveSpec(fs, ids[i], dir);
  }

  /** A resolution that never reports MODULE_NOT_FOUND and never returns a missing record. */
  predicate PlainResolution(I: ResolverInterface, fs: FileSystem, dir: AbsPath, id: string) {
    var res := I.resolve(fs, id, dir);
    (res.Err? ==> res.error.code.None?) && (res.Ok? ==> !res.value.isMissing)
  }

  /** Over plain resolutions the loop either resolves every id or fails, and records nothing missing. */
  lemma {:induction false} NeverMissing(I: ResolverInterface, fs: FileSystem,
                                        from: ModuleRecord, dir: AbsPath, ids: seq<string>)
    requires forall id :: PlainResolution(I, fs, dir, id)
    ensures var e := ExpandRequires(I, fs, from, dir, ids);
      && (e.Ok? <==> forall i :: 0 <= i < |ids| ==> I.resolve(fs, ids[i], dir).Ok?)
      && (e.Ok? ==> e.value.missing == [])
    decreases |ids|
  {
    if |ids| > 0 {
      var n := |ids| - 1;
      NeverMissing(I, fs, from, dir, ids[..n]);
      assert forall i :: 0 <= i < n ==> ids[..n][i] == ids[i];
      assert PlainResolution(I, fs, dir, ids[n]);
    }
  }

  /** The shown resolver throws only errors without a code, and never returns a missing record. */
  lemma ResolveSpecShape(r: Resolution.ModuleResolver, fs: FileSystem, id: string, dir: AbsPath)
    ensures r.ResolveSpec(fs, id, dir).Err? ==> r.ResolveSpec(fs, id, dir).error.code.None?
    ensures r.ResolveSpec(fs, id, dir).Ok? ==> !r.ResolveSpec(fs, id, dir).value.isMissing
  {
  }

  /** One entry of `missingRecords`. */
  datatype MissingEntry = MissingEntry(
    requiredBy: ModuleRecord,
    requireId: string,
    record: ModuleRecord,
    error: Option<JsError>,
    fatal: bool)

  /** A record the graph builder follows: it has a file and is not ignored. */
  predicate Recursable(m: ModuleRecord) {
    !m.isIgnored && m.filePath.Some?
  }

  /** What resolving one file's requires contributes: its dependency list and its missing entries. */
  datatype Expansion = Expansion(deps: seq<ModuleRecord>, missing: seq<MissingEntry>)

  /** A require the loop gets past: resolved, or failed with MODULE_NOT_FOUND. */
  predicate Accepted(I: ResolverInterface, fs: FileSystem, dir: AbsPath, id: string) {
    var r := I.resolve(fs, id, dir);
    r.Ok? || r.error.code == Some(ModuleNotFound)
  }

  /** One iteration of the loop over `requires`, applied to what the earlier ones produced. */
  function ExpandOne(I: ResolverInterface, fs: FileSystem, from: ModuleRecord, dir: AbsPath,
                     id: string, acc: Expansion): Result<Expansion, JsError>
  {
    match I.resolve(fs, id, dir)
    case Err(e) =>
      if e.code == Some(ModuleNotFound) then
        var missingRecord := I.createMissingRecord(id);
        Ok(Expansion(acc.deps + [missingRecord],
                     acc.missing + [MissingEntry(from, id, missingRecord, Some(e), !I.ignoreMissing)]))
      else Err(e)
    case Ok(resolved) =>
      if resolved.isIgnored then Ok(acc)
      else if resolved.isMissing then
        Ok(Expansion(acc.deps + [resolved],
                     acc.missing + [MissingEntry(from, id, resolved, resolved.missingError, false)]))
      else Ok(Expansion(acc.deps + [resolved], acc.missing))
  }

  /** The whole loop over a file's require ids (its properties are ExpandRequiresProps). */
  function ExpandRequires(I: ResolverInterface, fs: FileSystem, from: ModuleRecord, dir: AbsPath,
                          ids: seq<string>): Result<Expansion, JsError>
    decreases |ids|
  {
    if |ids| == 0 then Ok(Expansion([], []))
    else
      match ExpandRequires(I, fs, from, dir, ids[..|ids| - 1])
      case Err(e) => Err(e)
      case Ok(acc) => ExpandOne(I, fs, from, dir, ids[|ids| - 1], acc)
  }

  /**
   * The loop gets through exactly when every id is accepted; otherwise it stops with an
   * error some id's resolution raised, never MODULE_NOT_FOUND. Each id adds at most one
   * dependency and each dependency at most one missing entry; every entry names the
   * requiring module, and only a MODULE_NOT_FOUND entry under `ignoreMissing == false` is fatal.
   */
  lemma {:induction false} ExpandRequiresProps(I: ResolverInterface, fs: FileSystem, from: ModuleRecord,
                                               dir: AbsPath, ids: seq<string>)
    ensures var r := ExpandRequires(I, fs, from, dir, ids);
      && (r.Ok? <==> forall i :: 0 <= i < |ids| ==> Accepted(I, fs, dir, ids[i]))
      && (r.Err? ==> r.error.code != Some(ModuleNotFound))
      && (r.Err? ==> exists i :: 0 <= i < |ids| && I.resolve(fs, ids[i], dir) == Err(r.error))
      && (r.Ok? ==> |r.value.deps| <= |ids| && |r.value.missing| <= |r.value.deps|)
      && (r.Ok? ==> forall j :: 0 <= j < |r.value.missing| ==> r.value.missing[j].requiredBy == from)
      && (r.Ok? ==> forall j :: 0 <= j < |r.value.missing| && r.value.missing[j].fatal ==>
            !I.ignoreMissing && r.value.missing[j].error.Some? &&
            r.value.missing[j].error.value.code == Some(ModuleNotFound))
    decreases |ids|
  {
    if |ids| > 0 {
      var n := |ids| - 1;
      ExpandRequiresProps(I, fs, from, dir, ids[..n]);
      assert forall i :: 0 <= i < n ==> ids[..n][i] == ids[i];
    }
  }

  /**
   * What `_buildGraph` computes for one module before recursing: nothing for a module
   * whose requires are not followed (its file is not read); a read error when its file
   * does not exist; otherwise the expansion of the requires found in its text, resolved
   * from its directory.
   */
  function NodeExpansion(I: ResolverInterface, fs: FileSystem, m: ModuleRecord): Result<Expansion, JsError> {
    if m.filePath.None? || !m.analyzeDependencies then Ok(Expansion([], []))
    else if m.filePath.value !in fs then Err(ReadError(m.filePath.value))
    else ExpandRequires(I, fs, m, Dirname(m.filePath.value), RequireIds(fs[m.filePath.value]))
  }

  /**
   * The walk `_buildGraph(record, graph)` performs. A record that is ignored, has no file or
   * whose file already has a node adds nothing; a module whose requires are not followed
   * gets a node without dependencies; any other module's node is inserted before its
   * dependencies are walked in require order, so the keys come out in depth-first pre-order.
   * The walk stops with the first expansion error it meets.
   */
  function Walk(I: ResolverInterface, fs: FileSystem, record: ModuleRecord, g: Graph): (r: Result<Graph, JsError>)
    requires g.Valid()
    ensures r.Ok? ==> r.value.Valid() && g.values.Keys <= r.value.values.Keys
    decreases |fs.Keys - g.values.Keys|, 0, 0
  {
    if record.isIgnored || record.filePath.None? || record.filePath.value in g.values then Ok(g)
    else if !record.analyzeDependencies then Ok(g.Set(record.filePath.value, GraphNode(record, [])))
    else
      match NodeExpansion(I, fs, record)
      case Err(e) => Err(e)
      case Ok(x) =>
        var path := record.filePath.value;
        var g1 := g.Set(path, GraphNode(record, x.deps));
        FewerUnvisited(fs.Keys, g.values.Keys, g1.values.Keys, path);
        WalkChildren(I, fs, x.deps, 0, g1)
  }

  /** The loop of `_buildGraph` over a node's dependencies, from the `c`-th on. */
  function WalkChildren(I: ResolverInterface, fs: FileSystem, deps: seq<ModuleRecord>, c: nat, h: Graph)
    : (r: Result<Graph, JsError>)
    requires h.Valid() && c <= |deps|
    ensures r.Ok? ==> r.value.Valid() && h.values.Keys <= r.value.values.Keys
    decreases |fs.Keys - h.values.Keys|, 1, |deps| - c
  {
    if c == |deps| then Ok(h)
    else
      match Walk(I, fs, deps[c], h)
      case Err(e) => Err(e)
      case Ok(h2) =>
        SubsetCard(fs.Keys - h2.values.Keys, fs.Keys - h.values.Keys);
        WalkChildren(I, fs, deps, c + 1, h2)
  }

  /**
   * A chain of records the walk follows: each record but the last is followed, its
   * requires expand, and the next record is one of its dependencies.
   */
  ghost predicate Chain(I: ResolverInterface, fs: FileSystem, chain: seq<ModuleRecord>) {
    && |chain| > 0
    && forall i, j :: 0 <= i < j < |chain| && j == i + 1 ==> Link(I, fs, chain[i], chain[j])
  }

  /** The walk goes from `a` to `b`: `a` is followed, its requires expand, and `b` is one of its dependencies. */
  ghost predicate Link(I: ResolverInterface, fs: FileSystem, a: ModuleRecord, b: ModuleRecord) {
    Recursable(a) && NodeExpansion(I, fs, a).Ok? && b in NodeExpansion(I, fs, a).value.deps
  }

  /** A chain from `a` to `b`. */
  ghost predicate ChainFrom(I: ResolverInterface, fs: FileSystem, chain: seq<ModuleRecord>, a: ModuleRecord, b: ModuleRecord) {
    Chain(I, fs, chain) && chain[0] == a && chain[|chain| - 1] == b
  }

  /** A module whose file, when its requires are followed, exists and has only accepted requires. */
  ghost predicate Expandable(I: ResolverInterface, fs: FileSystem, m: ModuleRecord) {
    m.filePath.Some? && m.analyzeDependencies ==>
      && m.filePath.value in fs
      && forall id :: id in RequireIds(fs[m.filePath.value]) ==> Accepted(I, fs, Dirname(m.filePath.value), id)
  }

  /** A module's expansion succeeds exactly when its file can be read and each of its requires is accepted. */
  lemma ExpandableOk(I: ResolverInterface, fs: FileSystem, m: ModuleRecord)
    ensures NodeExpansion(I, fs, m).Ok? <==> Expandable(I, fs, m)
  {
    if m.filePath.Some? && m.analyzeDependencies && m.filePath.value in fs {
      var ids := RequireIds(fs[m.filePath.value]);
      ExpandRequiresProps(I, fs, m, Dirname(m.filePath.value), ids);
      if !Expandable(I, fs, m) {
        var id :| id in ids && !Accepted(I, fs, Dirname(m.filePath.value), id);
        var i :| 0 <= i < |ids| && ids[i] == id;
      }
    }
  }

  /** A failed walk fails with the expansion error of a followed module it reaches. */
  lemma {:induction false} WalkFails(I: ResolverInterface, fs: FileSystem, record: ModuleRecord, g: Graph)
    returns (chain: seq<ModuleRecord>)
    requires g.Valid() && Walk(I, fs, record, g).Err?
    ensures Chain(I, fs, chain) && chain[0] == record && Recursable(chain[|chain| - 1])
    ensures NodeExpansion(I, fs, chain[|chain| - 1]) == Err(Walk(I, fs, record, g).error)
    decreases |fs.Keys - g.values.Keys|, 0, 0
  {
    WalkErrShape(I, fs, record, g);
    if NodeExpansion(I, fs, record).Err? {
      chain := [record];
    } else {
      var x := NodeExpansion(I, fs, record).value;
      var g1 := g.Set(record.filePath.value, GraphNode(record, x.deps));
      FewerUnvisited(fs.Keys, g.values.Keys, g1.values.Keys, record.filePath.value);
      var j, below := WalkChildrenFails(I, fs, x.deps, 0, g1, WalkChildren(I, fs, x.deps, 0, g1).error);
      chain := [record] + below;
      FailsThroughChild(I, fs, record, g, j, below);
    }
  }

  /** A failure found below the `j`-th dependency of the record is the walk's failure, one record longer. */
  lemma FailsThroughChild(I: ResolverInterface, fs: FileSystem, record: ModuleRecord, g: Graph,
                          j: nat, below: seq<ModuleRecord>)
    requires g.Valid() && Walk(I, fs, record, g).Err? && NodeExpansion(I, fs, record).Ok?
    requires j < |NodeExpansion(I, fs, record).value.deps|
    requires Chain(I, fs, below) && below[0] == NodeExpansion(I, fs, record).value.deps[j]
    requires !record.isIgnored && record.filePath.Some? && record.filePath.value !in g.values
    requires var deps := NodeExpansion(I, fs, record).value.deps;
      NodeExpansion(I, fs, below[|below| - 1]) ==
        Err(WalkChildren(I, fs, deps, 0, g.Set(record.filePath.value, GraphNode(record, deps))).error)
    ensures Chain(I, fs, [record] + below)
    ensures NodeExpansion(I, fs, below[|below| - 1]) == Err(Walk(I, fs, record, g).error)
  {
    WalkErrShape(I, fs, record, g);
    var c := [record] + below;
    forall i, j | 0 <= i < j < |c| && j == i + 1 ensures Link(I, fs, c[i], c[j]) {
      if i > 0 {
        assert c[i] == below[i - 1] && c[j] == below[j - 1];
      }
    }
  }

  /** A walk fails only at a followed, analyzed module without a node, and then fails as its children do. */
  lemma WalkErrShape(I: ResolverInterface, fs: FileSystem, record: ModuleRecord, g: Graph)
    requires g.Valid() && Walk(I, fs, record, g).Err?
    ensures Recursable(record) && record.filePath.value !in g.values && record.analyzeDependencies
    ensures NodeExpansion(I, fs, record).Err? ==> Walk(I, fs, record, g).error == NodeExpansion(I, fs, record).error
    ensures NodeExpansion(I, fs, record).Ok? ==> record.filePath.value in fs
    ensures NodeExpansion(I, fs, record).Ok? ==>
      Walk(I, fs, record, g) ==
        WalkChildren(I, fs, NodeExpansion(I, fs, record).value.deps, 0,
                     g.Set(record.filePath.value, GraphNode(record, NodeExpansion(I, fs, record).value.deps)))
  {
  }

  lemma {:induction false} WalkChildrenFails(I: ResolverInterface, fs: FileSystem, deps: seq<ModuleRecord>, c: nat, h: Graph,
                                             e: JsError)
    returns (j: nat, chain: seq<ModuleRecord>)
    requires h.Valid() && c <= |deps| && WalkChildren(I, fs, deps, c, h) == Err(e)
    ensures c <= j < |deps| && Chain(I, fs, chain) && chain[0] == deps[j] && Recursable(chain[|chain| - 1])
    ensures NodeExpansion(I, fs, chain[|chain| - 1]) == Err(e)
    decreases |fs.Keys - h.values.Keys|, 1, |deps| - c
  {
    WalkChildrenStep(I, fs, deps, c, h);
    if Walk(I, fs, deps[c], h).Err? {
      j := c;
      chain := WalkFails(I, fs, deps[c], h);
    } else {
      var h2 := Walk(I, fs, deps[c], h).value;
      SubsetCard(fs.Keys - h2.values.Keys, fs.Keys - h.values.Keys);
      j, chain := WalkChildrenFails(I, fs, deps, c + 1, h2, e);
    }
  }

  /** One dependency of the loop: its walk's failure ends the loop, its success continues it. */
  lemma WalkChildrenStep(I: ResolverInterface, fs: FileSystem, deps: seq<ModuleRecord>, c: nat, h: Graph)
    requires h.Valid() && c <= |deps| && WalkChildren(I, fs, deps, c, h).Err?
    ensures c < |deps|
    ensures Walk(I, fs, deps[c], h).Err? ==> WalkChildren(I, fs, deps, c, h) == Walk(I, fs, deps[c], h)
    ensures Walk(I, fs, deps[c], h).Ok? ==>
      WalkChildren(I, fs, deps, c, h) == WalkChildren(I, fs, deps, c + 1, Walk(I, fs, deps[c], h).value)
  {
  }

  /**
   * The walk succeeds when every followed module it can reach has a readable file whose
   * requires are all accepted (resolved, or failed with MODULE_NOT_FOUND).
   */
  lemma WalkSucceeds(I: ResolverInterface, fs: FileSystem, record: ModuleRecord, g: Graph)
    requires g.Valid()
    requires forall chain :: Chain(I, fs, chain) && chain[0] == record && Recursable(chain[|chain| - 1]) ==>
      Expandable(I, fs, chain[|chain| - 1])
    ensures Walk(I, fs, record, g).Ok?
  {
    if Walk(I, fs, record, g).Err? {
      var chain := WalkFails(I, fs, record, g);
      ExpandableOk(I, fs, chain[|chain| - 1]);
    }
  }

  /**
   * A failed walk names its cause: a followed module it reaches whose file does not exist
   * (a read error for that path), or one of whose requires failed to resolve with an
   * error other than MODULE_NOT_FOUND (that very error).
   */
  lemma WalkErrorCause(I: ResolverInterface, fs: FileSystem, record: ModuleRecord, g: Graph)
    returns (chain: seq<ModuleRecord>, m: ModuleRecord)
    requires g.Valid() && Walk(I, fs, record, g).Err?
    ensures ChainFrom(I, fs, chain, record, m) && Recursable(m) && m.analyzeDependencies && !Expandable(I, fs, m)
    ensures var e := Walk(I, fs, record, g).error;
      if m.filePath.value !in fs then e == ReadError(m.filePath.value)
      else (exists id :: id in RequireIds(fs[m.filePath.value]) &&
              I.resolve(fs, id, Dirname(m.filePath.value)) == Err(e) && e.code != Some(ModuleNotFound))
  {
    chain := WalkFails(I, fs, record, g);
    m := chain[|chain| - 1];
    ExpandableOk(I, fs, m);
    if m.filePath.value in fs {
      ExpandRequiresProps(I, fs, m, Dirname(m.filePath.value), RequireIds(fs[m.filePath.value]));
    }
  }

  /** A graph node as `_buildGraph` inserts it for path `k`. */
  ghost predicate NodeOk(I: ResolverInterface, fs: FileSystem, k: AbsPath, n: GraphNode) {
    && n.moduleRecord.filePath == Some(k)
    && !n.moduleRecord.isIgnored
    && NodeExpansion(I, fs, n.moduleRecord).Ok?
    && n.dependencies == NodeExpansion(I, fs, n.moduleRecord).value.deps
  }

  /** The missing entries the nodes at `ks` contributed, in key order. */
  ghost function MissingOf(I: ResolverInterface, fs: FileSystem, g: Graph, ks: seq<AbsPath>): seq<MissingEntry>
    decreases |ks|
  {
    if |ks| == 0 then []
    else MissingOf(I, fs, g, ks[..|ks| - 1]) + NodeMissing(I, fs, g, ks[|ks| - 1])
  }

  ghost function NodeMissing(I: ResolverInterface, fs: FileSystem, g: Graph, k: AbsPath): seq<MissingEntry> {
    if k in g.values && NodeExpansion(I, fs, g.values[k].moduleRecord).Ok?
    then NodeExpansion(I, fs, g.values[k].moduleRecord).value.missing
    else []
  }

  /** The errors a list of missing entries pushes: the error of each fatal one. */
  function FatalErrors(ms: seq<MissingEntry>): seq<JsError>
    decreases |ms|
  {
    if |ms| == 0 then []
    else
      var last := ms[|ms| - 1];
      FatalErrors(ms[..|ms| - 1]) + (if last.fatal && last.error.Some? then [last.error.value] else [])
  }

  /** `g1` extends `g0`: same nodes for the old keys, new keys appended. */
  ghost predicate Grown(g0: Graph, g1: Graph) {
    && g1.Valid()
    && PrefixOf(g0.keys, g1.keys)
    && forall k :: k in g0.values ==> k in g1.values && g1.values[k] == g0.values[k]
  }

  /** The keys `g1` added to `g0`. */
  function NewKeys(g0: Graph, g1: Graph): seq<AbsPath>
    requires |g0.keys| <= |g1.keys|
  {
    g1.keys[|g0.keys|..]
  }

  /** Every node at `ks` is as `_buildGraph` inserts it. */
  ghost predicate NodesOk(I: ResolverInterface, fs: FileSystem, g: Graph, ks: seq<AbsPath>) {
    forall i :: 0 <= i < |ks| ==> ks[i] in g.values && NodeOk(I, fs, ks[i], g.values[ks[i]])
  }

  /** Every followed dependency in `deps` has a node. */
  ghost predicate DepsInGraph(g: Graph, deps: seq<ModuleRecord>) {
    forall j :: 0 <= j < |deps| && Recursable(deps[j]) ==> deps[j].filePath.value in g.values
  }

  /** The nodes at `ks` have their followed dependencies in the graph. */
  ghost predicate ClosedAt(g: Graph, ks: seq<AbsPath>) {
    forall i :: 0 <= i < |ks| ==> ks[i] in g.values && DepsInGraph(g, g.values[ks[i]].dependencies)
  }

  /**
   * What one `_buildGraph(record, ...)` call does to the graph `g` (giving `h`) and to the
   * missing entries `m` (giving `m'`): it only appends keys; the nodes it adds are as inserted
   * and closed; the record's own file has a node when it is followed, and is the first key
   * added when any is; each key added after it is reached from an earlier one; and the
   * missing entries grow by those of the added nodes, in key order.
   */
  ghost predicate Extends(I: ResolverInterface, fs: FileSystem, record: ModuleRecord, g: Graph, h: Graph,
                          m: seq<MissingEntry>, m': seq<MissingEntry>) {
    && Grown(g, h)
    && NodesOk(I, fs, h, NewKeys(g, h))
    && ClosedAt(h, NewKeys(g, h))
    && (Recursable(record) ==> record.filePath.value in h.values)
    && (|NewKeys(g, h)| > 0 ==>
          && record.filePath.Some? && NewKeys(g, h)[0] == record.filePath.value
          && record.filePath.value in h.values && h.values[record.filePath.value].moduleRecord == record)
    && RootedFrom(h, h.keys, |g.keys|)
    && m' == m + MissingOf(I, fs, h, NewKeys(g, h))
  }

  /**
   * The loop over the dependencies of the node at `path` (inserted into `g0` giving `g1`),
   * after its first `c` children: what Extends says, for the keys added since `g1`, with the
   * first `c` dependencies' files in the graph.
   */
  ghost predicate ChildrenDone(I: ResolverInterface, fs: FileSystem, g0: Graph, g1: Graph, h: Graph,
                               deps: seq<ModuleRecord>, c: nat, base: seq<MissingEntry>, m: seq<MissingEntry>) {
    && c <= |deps|
    && Grown(g1, h)
    && NodesOk(I, fs, h, NewKeys(g1, h))
    && ClosedAt(h, NewKeys(g1, h))
    && (forall j :: 0 <= j < c && Recursable(deps[j]) ==> deps[j].filePath.value in h.values)
    && RootedFrom(h, h.keys, |g0.keys|)
    && m == base + MissingOf(I, fs, h, NewKeys(g1, h))
  }

  /** What `buildDependencyGraph` returns. */
  datatype BuildResult = BuildResult(
    graph: Graph,
    entryModule: ModuleRecord,
    missing: seq<MissingEntry>,
    errors: seq<JsError>)

  /**
   * The complete graph for an entry record: valid, the entry's node first, every node as
   * inserted, closed under followed dependencies, every later key reached from an earlier
   * one, and the missing entries and errors those nodes produced.
   */
  ghost predicate IsGraphOf(I: ResolverInterface, fs: FileSystem, entry: ModuleRecord, res: BuildResult) {
    var g := res.graph;
    && g.Valid()
    && res.entryModule == entry
    && (|g.keys| > 0 <==> Recursable(entry))
    && (|g.keys| > 0 ==> g.keys[0] == entry.filePath.value && g.values[g.keys[0]].moduleRecord == entry)
    && NodesOk(I, fs, g, g.keys)
    && ClosedAt(g, g.keys)
    && RootedFrom(g, g.keys, 0)
    && res.missing == MissingOf(I, fs, g, g.keys)
    && res.errors == FatalErrors(res.missing)
  }

  /** A correct topological order of `g` and the modules emitted along it. */
  ghost predicate IsTopologicalOrder(g: Graph, order: seq<AbsPath>, sorted: seq<ModuleRecord>) {
    && Distinct(order)
    && (forall k :: k in order <==> k in g.values)
    && |order| == |g.keys|
    && BackwardEdges(g, order)
    && |sorted| == |order|
    && (forall i :: 0 <= i < |order| ==> sorted[i] == g.values[order[i]].moduleRecord)
  }

  class DependencyAnalyzer {
    const resolver: ResolverInterface
    var visited: set<AbsPath>
    var missingRecords: seq<MissingEntry>
    var errors: seq<JsError>

    constructor(resolver: ResolverInterface)
      ensures this.resolver == resolver && visited == {} && missingRecords == [] && errors == []
    {
      this.resolver := resolver;
      visited := {};
      missingRecords := [];
      errors := [];
    }

    /** `_findDependencies`: run the global require pattern over the text. */
    method FindDependencies(content: string) returns (dependencies: seq<string>)
      ensures dependencies == RequireIds(content)
      ensures forall k :: 0 <= k < |dependencies| ==> IsRequireId(dependencies[k])
    {
      dependencies := [];
      var i := 0;
      while i < |content|
        invariant 0 <= i <= |content|
        invariant dependencies + ScanFrom(content, i) == ScanFrom(content, 0)
        decreases |content| - i
      {
        match MatchAt(content, i)
        case Some(m) =>
          dependencies := dependencies + [m.id];
          i := m.end;
        case None =>
          i := i + 1;
      }
    }

    /** `buildDependencyGraph(entryFile)`. */
    method BuildDependencyGraph(fs: FileSystem, entryFile: AbsPath) returns (r: Result<BuildResult, JsError>)
      modifies this
      ensures r.Ok? ==> IsGraphOf(resolver, fs, resolver.createEntryRecord(entryFile), r.value)
      ensures r.Ok? ==> visited == r.value.graph.values.Keys
      ensures r.Err? ==> r.error.code != Some(ModuleNotFound)
      ensures var w := Walk(resolver, fs, resolver.createEntryRecord(entryFile), Empty());
        && (r.Ok? <==> w.Ok?)
        && (r.Ok? ==> r.value.graph == w.value)
        && (r.Err? ==> w == Err(r.error))
    {
      var graph := Empty<AbsPath, GraphNode>();
      visited := {};
      missingRecords := [];
      errors := [];
      var entryModule := resolver.createEntryRecord(entryFile);
      var g, err := BuildGraph(fs, entryModule, graph);
      if err.Some? {
        return Err(err.value);
      }
      r := Ok(BuildResult(g, entryModule, missingRecords, errors));
      WholeGraph(resolver, fs, entryModule, g, missingRecords, errors);
    }

    /** `_buildGraph(moduleRecord, graph)`, returning the grown graph or the error thrown. */
    method BuildGraph(fs: FileSystem, record: ModuleRecord, graph: Graph) returns (graph': Graph, err: Option<JsError>)
      requires graph.Valid()
      requires visited == graph.values.Keys
      requires errors == FatalErrors(missingRecords)
      modifies this
      ensures err.None? ==> Extends(resolver, fs, record, graph, graph', old(missingRecords), missingRecords)
      ensures err.None? ==> visited == graph'.values.Keys && errors == FatalErrors(missingRecords)
      ensures err.Some? ==> err.value.code != Some(ModuleNotFound)
      ensures err.None? <==> Walk(resolver, fs, record, graph).Ok?
      ensures err.None? ==> graph' == Walk(resolver, fs, record, graph).value
      ensures err.Some? ==> Walk(resolver, fs, record, graph) == Err(err.value)
      decreases |fs.Keys - visited|, 1
    {
      if record.isIgnored || record.filePath.None? {
        NoChange(resolver, fs, record, graph, missingRecords);
        return graph, None;
      }
      var path := record.filePath.value;
      if path in visited {
        NoChange(resolver, fs, record, graph, missingRecords);
        return graph, None;
      }
      visited := visited + {path};
      if !record.analyzeDependencies {
        graph' := graph.Set(path, GraphNode(record, []));
        LeafNode(resolver, fs, graph, path, record, missingRecords);
        return graph', None;
      }
      if path !in fs {
        return graph, Some(ReadError(path));
      }
      var requireIds := FindDependencies(fs[path]);
      var dir := Dirname(path);
      var deps, e := ExpandRequireIds(fs, record, dir, requireIds);
      if e.Some? {
        return graph, e;
      }
      assert NodeExpansion(resolver, fs, record) == ExpandRequires(resolver, fs, record, dir, requireIds);
      var graph1 := graph.Set(path, GraphNode(record, deps));
      ghost var base := missingRecords;
      FirstNode(resolver, fs, graph, path, record, deps, base);
      graph', err := BuildChildren(fs, graph, graph1, path, deps, base);
      if err.Some? {
        return;
      }
      LastStep(resolver, fs, graph, graph1, graph', path, record, deps, old(missingRecords), missingRecords);
    }

    /** The loop `for (const dependency of resolvedDependencies)` of `_buildGraph` for the node at `path`. */
    method BuildChildren(fs: FileSystem, graph: Graph, graph1: Graph, path: AbsPath, deps: seq<ModuleRecord>,
                         ghost base: seq<MissingEntry>)
      returns (graph': Graph, err: Option<JsError>)
      requires graph.Valid() && path !in graph.values && path in fs
      requires graph1.keys == graph.keys + [path] && path in graph1.values && graph1.values[path].dependencies == deps
      requires graph1.values.Keys == graph.values.Keys + {path}
      requires ChildrenDone(resolver, fs, graph, graph1, graph1, deps, 0, base, missingRecords)
      requires visited == graph1.values.Keys && errors == FatalErrors(missingRecords)
      modifies this
      ensures err.None? ==> ChildrenDone(resolver, fs, graph, graph1, graph', deps, |deps|, base, missingRecords)
      ensures err.None? ==> visited == graph'.values.Keys && errors == FatalErrors(missingRecords)
      ensures err.Some? ==> err.value.code != Some(ModuleNotFound)
      ensures err.None? <==> WalkChildren(resolver, fs, deps, 0, graph1).Ok?
      ensures err.None? ==> graph' == WalkChildren(resolver, fs, deps, 0, graph1).value
      ensures err.Some? ==> WalkChildren(resolver, fs, deps, 0, graph1) == Err(err.value)
      decreases |fs.Keys - graph.values.Keys|, 0
    {
      graph' := graph1;
      for c := 0 to |deps|
        invariant ChildrenDone(resolver, fs, graph, graph1, graph', deps, c, base, missingRecords)
        invariant visited == graph'.values.Keys && errors == FatalErrors(missingRecords)
        invariant WalkChildren(resolver, fs, deps, 0, graph1) == WalkChildren(resolver, fs, deps, c, graph')
      {
        GrownKeys(graph, graph1, graph', path);
        FewerUnvisited(fs.Keys, graph.values.Keys, visited, path);
        ghost var before, m0 := graph', missingRecords;
        var grown, childErr := BuildGraph(fs, deps[c], graph');
        if childErr.Some? {
          return grown, childErr;
        }
        ChildStep(resolver, fs, graph, graph1, before, grown, path, deps, c, base, m0, missingRecords);
        graph' := grown;
      }
      err := None;
    }

    /** The loop over the require ids of one file, with the pushes onto `missingRecords` and `errors`. */
    method ExpandRequireIds(fs: FileSystem, record: ModuleRecord, dir: AbsPath, requireIds: seq<string>)
      returns (deps: seq<ModuleRecord>, err: Option<JsError>)
      requires errors == FatalErrors(missingRecords)
      modifies this
      ensures visited == old(visited)
      ensures err.None? <==> ExpandRequires(resolver, fs, record, dir, requireIds).Ok?
      ensures err.Some? ==> err.value.code != Some(ModuleNotFound)
      ensures err.Some? ==> ExpandRequires(resolver, fs, record, dir, requireIds) == Err(err.value)
      ensures err.None? ==> (
        && deps == ExpandRequires(resolver, fs, record, dir, requireIds).value.deps
        && missingRecords == old(missingRecords) + ExpandRequires(resolver, fs, record, dir, requireIds).value.missing
        && errors == FatalErrors(missingRecords))
    {
      deps := [];
      ghost var missing0 := missingRecords;
      ghost var added: seq<MissingEntry> := [];
      for k := 0 to |requireIds|
        invariant visited == old(visited)
        invariant ExpandRequires(resolver, fs, record, dir, requireIds[..k]) == Ok(Expansion(deps, added))
        invariant missingRecords == missing0 + added
        invariant errors == FatalErrors(missingRecords)
      {
        ExpandSnoc(resolver, fs, record, dir, requireIds, k);
        deps, added, err := ResolveRequire(fs, record, dir, requireIds[k], deps, missing0, added);
        if err.Some? {
          ExpandErrKept(resolver, fs, record, dir, requireIds, k + 1);
          return;
        }
      }
      assert requireIds[..|requireIds|] == requireIds;
      err := None;
    }

    /** One iteration of the loop over the require ids: resolve one id and record the outcome. */
    method ResolveRequire(fs: FileSystem, record: ModuleRecord, dir: AbsPath, requireId: string,
                          deps: seq<ModuleRecord>, ghost base: seq<MissingEntry>, ghost added: seq<MissingEntry>)
      returns (deps': seq<ModuleRecord>, ghost added': seq<MissingEntry>, err: Option<JsError>)
      requires missingRecords == base + added
      requires errors == FatalErrors(missingRecords)
      modifies this
      ensures visited == old(visited)
      ensures err.None? <==> Accepted(resolver, fs, dir, requireId)
      ensures err.Some? ==> err.value.code != Some(ModuleNotFound)
      ensures err.Some? ==> ExpandOne(resolver, fs, record, dir, requireId, Expansion(deps, added)) == Err(err.value)
      ensures err.None? ==> (
        && ExpandOne(resolver, fs, record, dir, requireId, Expansion(deps, added)) == Ok(Expansion(deps', added'))
        && missingRecords == base + added'
        && errors == FatalErrors(missingRecords))
    {
      deps', added' := deps, added;
      var resolved := resolver.resolve(fs, requireId, dir);
      if resolved.Err? {
        if resolved.error.code == Some(ModuleNotFound) {
          var missingRecord := resolver.createMissingRecord(requireId);
          var entry := MissingEntry(record, requireId, missingRecord, Some(resolved.error), !resolver.ignoreMissing);
          FatalErrorsSnoc(missingRecords, entry);
          missingRecords := missingRecords + [entry];
          added' := added + [entry];
          if !resolver.ignoreMissing {
            errors := errors + [resolved.error];
          }
          deps' := deps + [missingRecord];
          return deps', added', None;
        }
        return deps', added', Some(resolved.error);
      }
      if resolved.value.isIgnored {
        return deps', added', None;
      }
      if resolved.value.isMissing {
        var entry := MissingEntry(record, requireId, resolved.value, resolved.value.missingError, false);
        FatalErrorsSnoc(missingRecords, entry);
        missingRecords := missingRecords + [entry];
        added' := added + [entry];
        deps' := deps + [resolved.value];
        return deps', added', None;
      }
      deps' := deps + [resolved.value];
      err := None;
    }

    /** `topologicalSort(graph)`: every module after its dependencies, or the cycle found. */
    method TopologicalSort(g: Graph) returns (r: Result<seq<ModuleRecord>, JsError>, ghost order: seq<AbsPath>, ghost cycle: seq<AbsPath>)
      requires g.Valid()
      ensures r.Ok? ==> IsTopologicalOrder(g, order, r.value)
      ensures r.Ok? ==> forall c :: !IsCycle(g, c)
      ensures r.Ok? && |g.keys| > 0 && RootedFrom(g, g.keys, 0) ==>
        |r.value| > 0 && r.value[|r.value| - 1] == g.values[g.keys[0]].moduleRecord
      ensures r.Err? ==> IsCycle(g, cycle) && r.error == CycleError(cycle[0])
    {
      var st := SortState({}, {}, []);
      order, cycle := [], [];
      for k := 0 to |g.keys|
        invariant st.visiting == {}
        invariant k == 0 ==> st.visited == {}
        invariant OrderInv(g, st, order)
        invariant forall j :: 0 <= j < k ==> g.keys[j] in st.visited
        invariant k > 0 && RootedFrom(g, g.keys, 0) ==> EntryLast(g, st, order)
      {
        if g.keys[k] !in st.visited {
          var err;
          ghost var v0 := st.visited;
          assert g.keys[k] in g.values;
          st, err, order, cycle := Visit(g, g.keys[k], st, order, []);
          if err.Some? {
            return Err(err.value), order, cycle;
          }
          if k == 0 && RootedFrom(g, g.keys, 0) {
            AllKeysVisited(g, st, |g.keys|);
          }
          KeysStayVisited(g.keys, k, v0, st.visited);
        }
      }
      SortedOrder(g, st, order);
      forall c ensures !IsCycle(g, c) {
        NoCycle(g, order, c);
      }
      r := Ok(st.sorted);
    }
  }

  /** With the graph rooted at its first key, the entry is emitted last and nothing remains. */
  ghost predicate EntryLast(g: Graph, st: SortState, order: seq<AbsPath>) {
    && |g.keys| > 0
    && |order| > 0 && order[|order| - 1] == g.keys[0]
    && forall j :: 0 <= j < |g.keys| ==> g.keys[j] in st.visited
  }

  lemma KeysStayVisited(keys: seq<AbsPath>, k: nat, v0: set<AbsPath>, v1: set<AbsPath>)
    requires k < |keys| && v0 <= v1 && keys[k] in v1
    requires forall j :: 0 <= j < k ==> keys[j] in v0
    ensures forall j :: 0 <= j < k + 1 ==> keys[j] in v1
  {
  }

  /** A finished set closed under edges that holds the first key holds every key reached from it. */
  lemma {:induction false} AllKeysVisited(g: Graph, st: SortState, n: nat)
    requires g.Valid() && n <= |g.keys| && |g.keys| > 0
    requires g.keys[0] in st.visited
    requires forall q, d {:trigger Edge(g, q, d)} :: q in st.visited && Edge(g, q, d) ==> d in st.visited
    requires RootedFrom(g, g.keys, 0)
    ensures forall j :: 0 <= j < n ==> g.keys[j] in st.visited
  {
    if n > 1 {
      AllKeysVisited(g, st, n - 1);
      assert Reached(g, g.keys, n - 1);
      var j :| 0 <= j < n - 1 && Edge(g, g.keys[j], g.keys[n - 1]);
      assert g.keys[j] in st.visited;
    }
  }

  /** At the end of the outer loop the emitted order is a topological order of the whole graph. */
  lemma SortedOrder(g: Graph, st: SortState, order: seq<AbsPath>)
    requires g.Valid()
    requires OrderInv(g, st, order)
    requires forall j :: 0 <= j < |g.keys| ==> g.keys[j] in st.visited
    ensures IsTopologicalOrder(g, order, st.sorted)
    ensures forall k :: k in g.values ==> k in order
  {
    forall k | k in g.values ensures k in order {
      assert k in g.keys;
      var j :| 0 <= j < |g.keys| && g.keys[j] == k;
      assert k in st.visited;
    }
    DistinctSameElements(order, g.keys);
  }

  /** Two duplicate-free lists with the same elements have the same length. */
  lemma DistinctSameElements(a: seq<AbsPath>, b: seq<AbsPath>)
    requires Distinct(a) && Distinct(b)
    requires forall x :: x in a <==> x in b
    ensures |a| == |b|
  {
    DistinctCard(a);
    DistinctCard(b);
    assert (set x | x in a) == (set x | x in b);
  }

  lemma {:induction false} DistinctCard(a: seq<AbsPath>)
    requires Distinct(a)
    ensures |set x | x in a| == |a|
    decreases |a|
  {
    if |a| > 0 {
      var n := |a| - 1;
      assert Distinct(a[..n]);
      DistinctCard(a[..n]);
      assert (set x | x in a) == (set x | x in a[..n]) + {a[n]};
      assert a[n] !in (set x | x in a[..n]);
    }
  }

  /** The loop over ids, one more id: the fold's step. */
  lemma ExpandSnoc(I: ResolverInterface, fs: FileSystem, from: ModuleRecord, dir: AbsPath, ids: seq<string>, k: nat)
    requires k < |ids|
    ensures ExpandRequires(I, fs, from, dir, ids[..k]).Err? ==>
      ExpandRequires(I, fs, from, dir, ids[..k + 1]) == ExpandRequires(I, fs, from, dir, ids[..k])
    ensures ExpandRequires(I, fs, from, dir, ids[..k]).Ok? ==>
      ExpandRequires(I, fs, from, dir, ids[..k + 1]) ==
      ExpandOne(I, fs, from, dir, ids[k], ExpandRequires(I, fs, from, dir, ids[..k]).value)
  {
    assert ids[..k + 1][..k] == ids[..k];
  }

  /** Once the loop over a prefix of the ids fails, the whole loop fails with the same error. */
  lemma {:induction false} ExpandErrKept(I: ResolverInterface, fs: FileSystem, from: ModuleRecord, dir: AbsPath,
                                         ids: seq<string>, k: nat)
    requires k <= |ids| && ExpandRequires(I, fs, from, dir, ids[..k]).Err?
    ensures ExpandRequires(I, fs, from, dir, ids) == ExpandRequires(I, fs, from, dir, ids[..k])
    decreases |ids| - k
  {
    if k < |ids| {
      ExpandSnoc(I, fs, from, dir, ids, k);
      ExpandErrKept(I, fs, from, dir, ids, k + 1);
    } else {
      assert ids[..k] == ids;
    }
  }

  lemma FatalErrorsSnoc(ms: seq<MissingEntry>, m: MissingEntry)
    ensures FatalErrors(ms + [m]) == FatalErrors(ms) + (if m.fatal && m.error.Some? then [m.error.value] else [])
  {
    assert (ms + [m])[..|ms|] == ms;
  }

  lemma {:induction false} MissingOfAppend(I: ResolverInterface, fs: FileSystem, g: Graph, a: seq<AbsPath>, b: seq<AbsPath>)
    ensures MissingOf(I, fs, g, a + b) == MissingOf(I, fs, g, a) + MissingOf(I, fs, g, b)
    decreases |b|
  {
    if |b| == 0 {
      assert a + b == a;
    } else {
      var n := |b| - 1;
      assert (a + b)[..|a + b| - 1] == a + b[..n];
      assert (a + b)[|a + b| - 1] == b[n];
      MissingOfAppend(I, fs, g, a, b[..n]);
      Seqs.ConcatRegroup(MissingOf(I, fs, g, a), MissingOf(I, fs, g, b[..n]), NodeMissing(I, fs, g, b[n]));
    }
  }

  /** The missing entries of nodes read only those nodes. */
  lemma {:induction false} MissingOfFrame(I: ResolverInterface, fs: FileSystem, g: Graph, h: Graph, ks: seq<AbsPath>)
    requires forall i :: 0 <= i < |ks| ==> ks[i] in g.values && ks[i] in h.values && h.values[ks[i]] == g.values[ks[i]]
    ensures MissingOf(I, fs, h, ks) == MissingOf(I, fs, g, ks)
    decreases |ks|
  {
    if |ks| > 0 {
      var n := |ks| - 1;
      assert forall i :: 0 <= i < n ==> ks[..n][i] == ks[i];
      MissingOfFrame(I, fs, g, h, ks[..n]);
    }
  }

  lemma NothingNew(g: Graph)
    requires g.Valid()
    ensures Grown(g, g) && NewKeys(g, g) == []
  {
    assert g.keys[..|g.keys|] == g.keys;
  }

  /** Inserting a node for a path not yet in the graph. */
  lemma Inserted(g: Graph, path: AbsPath, n: GraphNode)
    requires g.Valid() && path !in g.values
    ensures Grown(g, g.Set(path, n))
    ensures NewKeys(g, g.Set(path, n)) == [path]
    ensures g.Set(path, n).values.Keys == g.values.Keys + {path}
  {
    var h := g.Set(path, n);
    assert h.keys[..|g.keys|] == g.keys;
  }

  /** A call that adds nothing: the record is not followed or its file already has a node. */
  lemma NoChange(I: ResolverInterface, fs: FileSystem, record: ModuleRecord, g: Graph, m: seq<MissingEntry>)
    requires g.Valid()
    requires Recursable(record) ==> record.filePath.value in g.values
    ensures Extends(I, fs, record, g, g, m, m)
  {
    NothingNew(g);
  }

  /** The leaf case: a module whose requires are not followed gets an empty node. */
  lemma LeafNode(I: ResolverInterface, fs: FileSystem, g: Graph, path: AbsPath, record: ModuleRecord, m: seq<MissingEntry>)
    requires g.Valid() && path !in g.values
    requires record.filePath == Some(path) && !record.isIgnored && !record.analyzeDependencies
    ensures Extends(I, fs, record, g, g.Set(path, GraphNode(record, [])), m, m)
    ensures g.Set(path, GraphNode(record, [])).values.Keys == g.values.Keys + {path}
  {
    var h := g.Set(path, GraphNode(record, []));
    Inserted(g, path, GraphNode(record, []));
    MissingOfSingle(I, fs, h, path);
  }

  /** The node of an analyzed module, inserted before its dependencies are followed. */
  lemma FirstNode(I: ResolverInterface, fs: FileSystem, g: Graph, path: AbsPath, record: ModuleRecord,
                  deps: seq<ModuleRecord>, base: seq<MissingEntry>)
    requires g.Valid() && path !in g.values
    requires record.filePath == Some(path) && !record.isIgnored && record.analyzeDependencies && path in fs
    requires NodeExpansion(I, fs, record).Ok? && deps == NodeExpansion(I, fs, record).value.deps
    ensures var h := g.Set(path, GraphNode(record, deps));
      && h.keys == g.keys + [path]
      && h.values.Keys == g.values.Keys + {path}
      && NodeOk(I, fs, path, h.values[path])
      && ChildrenDone(I, fs, g, h, h, deps, 0, base, base)
  {
    var h := g.Set(path, GraphNode(record, deps));
    Inserted(g, path, GraphNode(record, deps));
    NothingNew(h);
    assert h.keys[..|g.keys|] == g.keys;
  }

  /** Before a child call: the graph's keys still include the old ones and the current path. */
  lemma GrownKeys(g: Graph, g1: Graph, h: Graph, path: AbsPath)
    requires Grown(g1, h)
    requires g1.values.Keys == g.values.Keys + {path}
    ensures g.values.Keys + {path} <= h.values.Keys
  {
  }

  /** At a recursive call one more file of the file system has been visited. */
  lemma FewerUnvisited(files: set<AbsPath>, v0: set<AbsPath>, v1: set<AbsPath>, path: AbsPath)
    requires path in files && path !in v0 && v0 + {path} <= v1
    ensures |files - v1| < |files - v0|
  {
    assert files - v1 <= (files - v0) - {path};
    SubsetCard(files - v1, (files - v0) - {path});
  }

  lemma SubsetCard(a: set<AbsPath>, b: set<AbsPath>)
    requires a <= b
    ensures |a| <= |b|
  {
    assert b == a + (b - a);
  }

  lemma GrownTrans(a: Graph, b: Graph, c: Graph)
    requires Grown(a, b) && Grown(b, c)
    ensures Grown(a, c)
    ensures NewKeys(a, c) == NewKeys(a, b) + NewKeys(b, c)
  {
    PrefixTrans(a.keys, b.keys, c.keys);
    assert c.keys[..|b.keys|] == b.keys;
    assert c.keys[|a.keys|..] == c.keys[..|b.keys|][|a.keys|..] + c.keys[|b.keys|..];
  }

  /** Node checks read only the nodes checked. */
  lemma NodesOkKept(I: ResolverInterface, fs: FileSystem, g: Graph, h: Graph, ks: seq<AbsPath>)
    requires NodesOk(I, fs, g, ks) && Grown(g, h)
    ensures NodesOk(I, fs, h, ks)
  {
  }

  lemma NodesOkConcat(I: ResolverInterface, fs: FileSystem, g: Graph, a: seq<AbsPath>, b: seq<AbsPath>)
    requires NodesOk(I, fs, g, a) && NodesOk(I, fs, g, b)
    ensures NodesOk(I, fs, g, a + b)
  {
    forall i | 0 <= i < |a + b| ensures (a + b)[i] in g.values && NodeOk(I, fs, (a + b)[i], g.values[(a + b)[i]]) {
      if i >= |a| {
        assert (a + b)[i] == b[i - |a|];
      }
    }
  }

  lemma ClosedKept(g: Graph, h: Graph, ks: seq<AbsPath>)
    requires ClosedAt(g, ks) && Grown(g, h)
    ensures ClosedAt(h, ks)
  {
    forall i | 0 <= i < |ks| ensures ks[i] in h.values && DepsInGraph(h, h.values[ks[i]].dependencies) {
      assert DepsInGraph(g, g.values[ks[i]].dependencies);
    }
  }

  lemma ClosedConcat(g: Graph, a: seq<AbsPath>, b: seq<AbsPath>)
    requires ClosedAt(g, a) && ClosedAt(g, b)
    ensures ClosedAt(g, a + b)
  {
    forall i | 0 <= i < |a + b| ensures (a + b)[i] in g.values && DepsInGraph(g, g.values[(a + b)[i]].dependencies) {
      if i >= |a| {
        assert (a + b)[i] == b[i - |a|];
      }
    }
  }

  /** The dependency list of the node at `path` puts an edge into each of its dependencies' files. */
  lemma DepEdge(g: Graph, path: AbsPath, deps: seq<ModuleRecord>, c: nat)
    requires path in g.values && g.values[path].dependencies == deps
    requires c < |deps| && deps[c].filePath.Some?
    ensures Edge(g, path, deps[c].filePath.value)
  {
  }

  /** The child call keeps the graph rooted at the current node's position. */
  lemma RootedStep(g0: Graph, g1: Graph, h: Graph, h2: Graph, path: AbsPath, deps: seq<ModuleRecord>, c: nat)
    requires g0.Valid() && g1.keys == g0.keys + [path]
    requires path in g1.values && g1.values[path].dependencies == deps && c < |deps|
    requires Grown(g1, h) && Grown(h, h2)
    requires RootedFrom(h, h.keys, |g0.keys|)
    requires RootedFrom(h2, h2.keys, |h.keys|)
    requires |NewKeys(h, h2)| > 0 ==> deps[c].filePath.Some? && NewKeys(h, h2)[0] == deps[c].filePath.value
    ensures RootedFrom(h2, h2.keys, |g0.keys|)
  {
    PrefixTrans(g1.keys, h.keys, h2.keys);
    var at := |g0.keys|;
    assert h2.keys[at] == path by {
      assert h2.keys[..|g1.keys|] == g1.keys;
    }
    forall i | |h.keys| <= i < |h2.keys| && at < i ensures Reached(h2, h2.keys, i) {
      if i == |h.keys| {
        assert NewKeys(h, h2)[0] == h2.keys[i];
        assert path in h2.values && h2.values[path] == g1.values[path];
        DepEdge(h2, path, deps, c);
        assert Edge(h2, h2.keys[at], h2.keys[i]);
      } else {
        assert Reached(h2, h2.keys, i);
      }
    }
    RootedGrow(h, h2, at);
  }

  /** The missing entries of the keys added so far split at each child call. */
  lemma MissingStep(I: ResolverInterface, fs: FileSystem, g1: Graph, h: Graph, h2: Graph,
                    base: seq<MissingEntry>, m: seq<MissingEntry>, m2: seq<MissingEntry>)
    requires Grown(g1, h) && Grown(h, h2)
    requires forall i :: 0 <= i < |NewKeys(g1, h)| ==> NewKeys(g1, h)[i] in h.values
    requires m == base + MissingOf(I, fs, h, NewKeys(g1, h))
    requires m2 == m + MissingOf(I, fs, h2, NewKeys(h, h2))
    ensures m2 == base + MissingOf(I, fs, h2, NewKeys(g1, h2))
  {
    var a, b := NewKeys(g1, h), NewKeys(h, h2);
    GrownTrans(g1, h, h2);
    KeptNodes(h, h2, a);
    MissingOfFrame(I, fs, h, h2, a);
    MissingOfAppend(I, fs, h2, a, b);
    ConcatAssoc(base, MissingOf(I, fs, h, a), MissingOf(I, fs, h2, b));
  }

  lemma ConcatAssoc(a: seq<MissingEntry>, b: seq<MissingEntry>, c: seq<MissingEntry>)
    ensures (a + b) + c == a + (b + c)
  {
  }

  /** Growth keeps the nodes at keys that were already there. */
  lemma KeptNodes(h: Graph, h2: Graph, ks: seq<AbsPath>)
    requires Grown(h, h2)
    requires forall i :: 0 <= i < |ks| ==> ks[i] in h.values
    ensures forall i :: 0 <= i < |ks| ==> ks[i] in h.values && ks[i] in h2.values && h2.values[ks[i]] == h.values[ks[i]]
  {
  }

  /** One iteration of the loop over the dependencies of the node at `path`. */
  lemma ChildStep(I: ResolverInterface, fs: FileSystem, g0: Graph, g1: Graph, h: Graph, h2: Graph,
                  path: AbsPath, deps: seq<ModuleRecord>, c: nat, base: seq<MissingEntry>,
                  m: seq<MissingEntry>, m2: seq<MissingEntry>)
    requires g0.Valid() && g1.keys == g0.keys + [path]
    requires path in g1.values && g1.values[path].dependencies == deps && c < |deps|
    requires ChildrenDone(I, fs, g0, g1, h, deps, c, base, m)
    requires Extends(I, fs, deps[c], h, h2, m, m2)
    ensures ChildrenDone(I, fs, g0, g1, h2, deps, c + 1, base, m2)
  {
    ChildShape(I, fs, g1, h, h2);
    ChildDeps(h, h2, deps, c);
    RootedStep(g0, g1, h, h2, path, deps, c);
    MissingStep(I, fs, g1, h, h2, base, m, m2);
  }

  /** The nodes added before and during a child call, together. */
  lemma ChildShape(I: ResolverInterface, fs: FileSystem, g1: Graph, h: Graph, h2: Graph)
    requires Grown(g1, h) && Grown(h, h2)
    requires NodesOk(I, fs, h, NewKeys(g1, h)) && ClosedAt(h, NewKeys(g1, h))
    requires NodesOk(I, fs, h2, NewKeys(h, h2)) && ClosedAt(h2, NewKeys(h, h2))
    ensures Grown(g1, h2)
    ensures NodesOk(I, fs, h2, NewKeys(g1, h2)) && ClosedAt(h2, NewKeys(g1, h2))
  {
    GrownTrans(g1, h, h2);
    NodesOkKept(I, fs, h, h2, NewKeys(g1, h));
    NodesOkConcat(I, fs, h2, NewKeys(g1, h), NewKeys(h, h2));
    ClosedKept(h, h2, NewKeys(g1, h));
    ClosedConcat(h2, NewKeys(g1, h), NewKeys(h, h2));
  }

  lemma ChildDeps(h: Graph, h2: Graph, deps: seq<ModuleRecord>, c: nat)
    requires Grown(h, h2) && c < |deps|
    requires forall j :: 0 <= j < c && Recursable(deps[j]) ==> deps[j].filePath.value in h.values
    requires Recursable(deps[c]) ==> deps[c].filePath.value in h2.values
    ensures forall j :: 0 <= j < c + 1 && Recursable(deps[j]) ==> deps[j].filePath.value in h2.values
  {
  }

  /** After the loop: the node at `path` and everything its dependencies added. */
  lemma LastStep(I: ResolverInterface, fs: FileSystem, g0: Graph, g1: Graph, h: Graph,
                 path: AbsPath, record: ModuleRecord, deps: seq<ModuleRecord>,
                 m0: seq<MissingEntry>, m: seq<MissingEntry>)
    requires g0.Valid() && path !in g0.values
    requires g1 == g0.Set(path, GraphNode(record, deps))
    requires record.filePath == Some(path)
    requires NodeOk(I, fs, path, g1.values[path])
    requires ChildrenDone(I, fs, g0, g1, h, deps, |deps|, m0 + NodeExpansion(I, fs, record).value.missing, m)
    ensures Extends(I, fs, record, g0, h, m0, m)
  {
    Inserted(g0, path, GraphNode(record, deps));
    GrownTrans(g0, g1, h);
    var rest := NewKeys(g1, h);
    assert NewKeys(g0, h) == [path] + rest;
    HeadNode(I, fs, h, path, rest);
    LastMissing(I, fs, h, path, record, rest, m0, m);
  }

  /** The node at `path`, with its dependencies in the graph, in front of nodes already checked. */
  lemma HeadNode(I: ResolverInterface, fs: FileSystem, h: Graph, path: AbsPath, rest: seq<AbsPath>)
    requires path in h.values && NodeOk(I, fs, path, h.values[path])
    requires DepsInGraph(h, h.values[path].dependencies)
    requires NodesOk(I, fs, h, rest) && ClosedAt(h, rest)
    ensures NodesOk(I, fs, h, [path] + rest) && ClosedAt(h, [path] + rest)
  {
    NodesOkConcat(I, fs, h, [path], rest);
    ClosedConcat(h, [path], rest);
  }

  /** The node's own missing entries come before those of the nodes its dependencies added. */
  lemma LastMissing(I: ResolverInterface, fs: FileSystem, h: Graph, path: AbsPath, record: ModuleRecord,
                    rest: seq<AbsPath>, m0: seq<MissingEntry>, m: seq<MissingEntry>)
    requires path in h.values && h.values[path].moduleRecord == record
    requires NodeExpansion(I, fs, record).Ok?
    requires m == m0 + NodeExpansion(I, fs, record).value.missing + MissingOf(I, fs, h, rest)
    ensures m == m0 + MissingOf(I, fs, h, [path] + rest)
  {
    MissingOfAppend(I, fs, h, [path], rest);
    MissingOfSingle(I, fs, h, path);
    var own := NodeExpansion(I, fs, record).value.missing;
    assert NodeMissing(I, fs, h, path) == own;
    ConcatRegroup(m0, own, MissingOf(I, fs, h, rest));
  }

  /** What the builder's contract gives for the whole graph, built from the empty one. */
  lemma WholeGraph(I: ResolverInterface, fs: FileSystem, entry: ModuleRecord, g: Graph,
                   missing: seq<MissingEntry>, errors: seq<JsError>)
    requires Extends(I, fs, entry, Empty(), g, [], missing)
    requires errors == FatalErrors(missing)
    ensures IsGraphOf(I, fs, entry, BuildResult(g, entry, missing, errors))
  {
    var e: Graph := Empty();
    assert NewKeys(e, g) == g.keys;
    if |g.keys| > 0 {
      assert g.keys[0] in g.values && NodeOk(I, fs, g.keys[0], g.values[g.keys[0]]);
    }
  }

  lemma MissingOfSingle(I: ResolverInterface, fs: FileSystem, g: Graph, k: AbsPath)
    ensures MissingOf(I, fs, g, [k]) == NodeMissing(I, fs, g, k)
  {
    assert [k][..0] == [];
  }
}
