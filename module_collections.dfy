/**
 * The collections the analysis derives from the dependency graph: a map from module id to
 * record (a node's own record always wins, a dependency's only fills a gap), the edge list of
 * each node, the non-missing modules and the external ones among them.
 */
module ModuleCollections {
  import opened Wrappers
  import opened Seqs
  import opened Paths
  import opened Records
  import opened OrderedMaps
  import opened DependencyGraphs

  /**
   * A graph node as the collection builder receives it; its `module` field is `moduleRecord`
   * here. `None` stands for any value that is not a module record (`null`, `undefined`, or an
   * object whose `id` is not a string).
   */
  datatype CandidateNode = CandidateNode(moduleRecord: Option<ModuleRecord>, dependencies: seq<Option<ModuleRecord>>)

  /** The nodes of the analyzer's graph, in key order: every one of them holds a record. */
  function NodesOf(g: Graph): (r: seq<CandidateNode>)
    requires g.Valid()
    ensures |r| == |g.keys|
  {
    seq(|g.keys|, i requires 0 <= i < |g.keys| =>
      CandidateNode(Some(g.values[g.keys[i]].moduleRecord), AsCandidates(g.values[g.keys[i]].dependencies)))
  }

  function AsCandidates(deps: seq<ModuleRecord>): (r: seq<Option<ModuleRecord>>)
    ensures |r| == |deps| && forall i :: 0 <= i < |deps| ==> r[i] == Some(deps[i])
  {
    seq(|deps|, i requires 0 <= i < |deps| => Some(deps[i]))
  }

  /** The shape of one dependency edge: flags as booleans, a missing file as `null`. */
  datatype ModuleEdge = ModuleEdge(
    id: string,
    moduleName: string,
    isExternal: bool,
    isMissing: bool,
    filePath: Option<AbsPath>,
    overrideApplied: bool)

  function EdgeOf(m: ModuleRecord): (e: ModuleEdge)
    ensures e.id == m.id && e.moduleName == m.moduleName && e.filePath == m.filePath
    ensures e.isExternal == m.isExternal && e.isMissing == m.isMissing && e.overrideApplied == m.overrideApplied
  {
    ModuleEdge(m.id, m.moduleName, m.isExternal, m.isMissing, m.filePath, m.overrideApplied)
  }

  /** The edges of a node: one per valid dependency, in order. */
  function EdgesOf<E>(edge: ModuleRecord -> E, deps: seq<Option<ModuleRecord>>): seq<E> {
    if |deps| == 0 then []
    else
      var rest := EdgesOf(edge, deps[..|deps| - 1]);
      match deps[|deps| - 1]
      case Some(d) => rest + [edge(d)]
      case None => rest
  }

  /** The valid dependencies, in order. */
  function ValidDeps(deps: seq<Option<ModuleRecord>>): (r: seq<ModuleRecord>) {
    if |deps| == 0 then []
    else
      var rest := ValidDeps(deps[..|deps| - 1]);
      match deps[|deps| - 1]
      case Some(d) => rest + [d]
      case None => rest
  }

  /** The edge list is the valid dependencies, mapped to edges. */
  lemma {:induction false} EdgesAreValidDeps<E>(edge: ModuleRecord -> E, deps: seq<Option<ModuleRecord>>)
    ensures EdgesOf(edge, deps) == Map(edge, ValidDeps(deps))
    decreases |deps|
  {
    if |deps| > 0 {
      EdgesAreValidDeps(edge, deps[..|deps| - 1]);
      if deps[|deps| - 1].Some? {
        MapSnoc(edge, ValidDeps(deps[..|deps| - 1]), deps[|deps| - 1].value);
      }
    }
  }

  /** The module map after a node's dependencies: each one is inserted only when its id is new. */
  function AddDependencies(m: OrderedMap<string, ModuleRecord>, deps: seq<Option<ModuleRecord>>): OrderedMap<string, ModuleRecord> {
    if |deps| == 0 then m
    else
      var m' := AddDependencies(m, deps[..|deps| - 1]);
      match deps[|deps| - 1]
      case Some(d) => if d.id in m'.values then m' else m'.Set(d.id, d)
      case None => m'
  }

  /** The module map after the loop over the nodes. */
  function ModuleMapOf(nodes: seq<CandidateNode>): OrderedMap<string, ModuleRecord> {
    if |nodes| == 0 then Empty()
    else
      var m := ModuleMapOf(nodes[..|nodes| - 1]);
      var node := nodes[|nodes| - 1];
      match node.moduleRecord
      case None => m
      case Some(rec) => AddDependencies(m.Set(rec.id, rec), node.dependencies)
  }

  /** The edge map after the loop over the nodes, for a given shape of edge. */
  function EdgeMapOf<E>(edge: ModuleRecord -> E, nodes: seq<CandidateNode>): OrderedMap<string, seq<E>> {
    if |nodes| == 0 then Empty()
    else
      var g := EdgeMapOf(edge, nodes[..|nodes| - 1]);
      var node := nodes[|nodes| - 1];
      match node.moduleRecord
      case None => g
      case Some(rec) => g.Set(rec.id, EdgesOf(edge, node.dependencies))
  }

  /** The map's values in key order: `Array.from(moduleMap.values())`. */
  function Values<V>(m: OrderedMap<string, V>): (r: seq<V>)
    requires m.Valid()
    ensures |r| == |m.keys| && forall i :: 0 <= i < |r| ==> r[i] == m.values[m.keys[i]]
  {
    seq(|m.keys|, i requires 0 <= i < |m.keys| => m.values[m.keys[i]])
  }

  predicate NotMissing(m: ModuleRecord) {
    !m.isMissing
  }

  predicate External(m: ModuleRecord) {
    m.isExternal
  }

  datatype Collections = Collections(
    moduleMap: OrderedMap<string, ModuleRecord>,
    modules: seq<ModuleRecord>,
    externals: seq<ModuleRecord>,
    dependencyGraph: OrderedMap<string, seq<ModuleEdge>>)

  /** `buildModuleCollections`. */
  method BuildModuleCollections(nodes: seq<CandidateNode>) returns (r: Collections)
    ensures r.moduleMap == ModuleMapOf(nodes) && r.dependencyGraph == EdgeMapOf(EdgeOf, nodes)
    ensures r.moduleMap.Valid() && r.dependencyGraph.Valid()
    ensures r.modules == Filter(NotMissing, Values(r.moduleMap))
    ensures r.externals == Filter(External, r.modules)
  {
    var moduleMap: OrderedMap<string, ModuleRecord> := Empty();
    var dependencyGraph: OrderedMap<string, seq<ModuleEdge>> := Empty();
    for k := 0 to |nodes|
      invariant moduleMap == ModuleMapOf(nodes[..k]) && dependencyGraph == EdgeMapOf(EdgeOf, nodes[..k])
      invariant moduleMap.Valid() && dependencyGraph.Valid()
    {
      assert nodes[..k + 1][..k] == nodes[..k];
      var node := nodes[k];
      if node.moduleRecord.None? {
        continue;
      }
      var moduleRecord := node.moduleRecord.value;
      moduleMap := moduleMap.Set(moduleRecord.id, moduleRecord);
      var dependencies, m := CollectDependencies(EdgeOf, moduleMap, node.dependencies);
      moduleMap := m;
      dependencyGraph := dependencyGraph.Set(moduleRecord.id, dependencies);
    }
    assert nodes[..|nodes|] == nodes;
    var modules := Filter(NotMissing, Values(moduleMap));
    r := Collections(moduleMap, modules, Filter(External, modules), dependencyGraph);
  }

  /** The inner loop: push an edge per valid dependency and insert it into the map when its id is new. */
  method CollectDependencies<E>(edge: ModuleRecord -> E, m0: OrderedMap<string, ModuleRecord>, deps: seq<Option<ModuleRecord>>)
    returns (dependencies: seq<E>, moduleMap: OrderedMap<string, ModuleRecord>)
    requires m0.Valid()
    ensures dependencies == EdgesOf(edge, deps)
    ensures moduleMap == AddDependencies(m0, deps) && moduleMap.Valid()
  {
    dependencies, moduleMap := [], m0;
    for j := 0 to |deps|
      invariant dependencies == EdgesOf(edge, deps[..j])
      invariant moduleMap == AddDependencies(m0, deps[..j]) && moduleMap.Valid()
    {
      assert deps[..j + 1][..j] == deps[..j];
      if deps[j].None? {
        continue;
      }
      var dependencyRecord := deps[j].value;
      dependencies := dependencies + [edge(dependencyRecord)];
      if dependencyRecord.id !in moduleMap.values {
        moduleMap := moduleMap.Set(dependencyRecord.id, dependencyRecord);
      }
    }
    assert deps[..|deps|] == deps;
  }

  // ---------------------------------------------------------------------------------------
  // An independent description of what ends up in the maps.

  /** The record of the last valid node with id `k`. */
  function LastNode(nodes: seq<CandidateNode>, k: string): Option<ModuleRecord> {
    if |nodes| == 0 then None
    else
      var node := nodes[|nodes| - 1];
      if node.moduleRecord.Some? && node.moduleRecord.value.id == k then node.moduleRecord
      else LastNode(nodes[..|nodes| - 1], k)
  }

  /** The first valid dependency with id `k` in a list. */
  function FirstDep(deps: seq<Option<ModuleRecord>>, k: string): Option<ModuleRecord> {
    if |deps| == 0 then None
    else
      var earlier := FirstDep(deps[..|deps| - 1], k);
      if earlier.Some? then earlier
      else if deps[|deps| - 1].Some? && deps[|deps| - 1].value.id == k then deps[|deps| - 1]
      else None
  }

  /** The first dependency with id `k` over the valid nodes, in traversal order. */
  function FirstNodeDep(nodes: seq<CandidateNode>, k: string): Option<ModuleRecord> {
    if |nodes| == 0 then None
    else
      var earlier := FirstNodeDep(nodes[..|nodes| - 1], k);
      var node := nodes[|nodes| - 1];
      if earlier.Some? then earlier
      else if node.moduleRecord.Some? then FirstDep(node.dependencies, k)
      else None
  }

  /** What `moduleMap.get(k)` should give: the last node with that id, else the first dependency seen with it. */
  function Lookup(nodes: seq<CandidateNode>, k: string): Option<ModuleRecord> {
    if LastNode(nodes, k).Some? then LastNode(nodes, k) else FirstNodeDep(nodes, k)
  }

  lemma {:induction false} AddDependenciesGet(m: OrderedMap<string, ModuleRecord>, deps: seq<Option<ModuleRecord>>, k: string)
    requires m.Valid()
    ensures AddDependencies(m, deps).Valid()
    ensures AddDependencies(m, deps).Get(k) == if k in m.values then m.Get(k) else FirstDep(deps, k)
    decreases |deps|
  {
    if |deps| > 0 {
      AddDependenciesGet(m, deps[..|deps| - 1], k);
    }
  }

  /**
   * A node's own record always overwrites its id; a dependency's record is there only when no
   * node carries its id and no earlier dependency did.
   */
  lemma {:induction false} ModuleMapLookup(nodes: seq<CandidateNode>, k: string)
    ensures ModuleMapOf(nodes).Valid()
    ensures ModuleMapOf(nodes).Get(k) == Lookup(nodes, k)
    decreases |nodes|
  {
    if |nodes| > 0 {
      var init := nodes[..|nodes| - 1];
      var node := nodes[|nodes| - 1];
      ModuleMapLookup(init, k);
      if node.moduleRecord.Some? {
        var rec := node.moduleRecord.value;
        var m := ModuleMapOf(init).Set(rec.id, rec);
        AddDependenciesGet(m, node.dependencies, k);
        if ModuleMapOf(init).Get(k).Some? {
          if LastNode(init, k).None? {
            assert FirstNodeDep(init, k).Some?;
          }
        }
      }
    }
  }

  /** The keys of the edge map are the ids of the valid nodes, in first-seen order. */
  lemma {:induction false} DependencyGraphKeys<E>(edge: ModuleRecord -> E, nodes: seq<CandidateNode>)
    ensures EdgeMapOf(edge, nodes).Valid()
    ensures EdgeMapOf(edge, nodes).keys == Dedup(NodeIds(nodes))
    decreases |nodes|
  {
    if |nodes| > 0 {
      var init := nodes[..|nodes| - 1];
      var node := nodes[|nodes| - 1];
      DependencyGraphKeys(edge, init);
      var before := NodeIds(init);
      var g := EdgeMapOf(edge, init);
      DedupProps(before);
      if node.moduleRecord.Some? {
        var id := node.moduleRecord.value.id;
        assert NodeIds(nodes) == before + [id];
        assert EdgeMapOf(edge, nodes) == g.Set(id, EdgesOf(edge, node.dependencies));
        DedupSnoc(before, id);
        assert id in g.values <==> id in before;
      } else {
        assert NodeIds(nodes) == before + [] == before;
        assert EdgeMapOf(edge, nodes) == g;
      }
    }
  }

  /** The edge list stored under an id is that of the last valid node with the id. */
  lemma {:induction false} DependencyGraphValues<E>(edge: ModuleRecord -> E, nodes: seq<CandidateNode>, i: nat)
    requires i < |nodes| && nodes[i].moduleRecord.Some? && LastWithId(nodes, i)
    ensures nodes[i].moduleRecord.value.id in EdgeMapOf(edge, nodes).values
    ensures EdgeMapOf(edge, nodes).values[nodes[i].moduleRecord.value.id] == EdgesOf(edge, nodes[i].dependencies)
    decreases |nodes|
  {
    var n := |nodes| - 1;
    if i < n {
      var init := nodes[..n];
      assert init[i] == nodes[i];
      assert LastWithId(init, i) by {
        forall j | i < j < n && init[j].moduleRecord.Some?
          ensures init[j].moduleRecord.value.id != init[i].moduleRecord.value.id
        {
          assert init[j] == nodes[j];
        }
      }
      DependencyGraphValues(edge, init, i);
      assert nodes[n].moduleRecord.Some? ==> nodes[n].moduleRecord.value.id != nodes[i].moduleRecord.value.id;
    }
  }

  /** The ids of the valid nodes, in order. */
  function NodeIds(nodes: seq<CandidateNode>): seq<string> {
    if |nodes| == 0 then []
    else
      var node := nodes[|nodes| - 1];
      NodeIds(nodes[..|nodes| - 1]) + (if node.moduleRecord.Some? then [node.moduleRecord.value.id] else [])
  }

  /** Node `i` is the last valid node with its id. */
  predicate LastWithId(nodes: seq<CandidateNode>, i: nat)
    requires i < |nodes| && nodes[i].moduleRecord.Some?
  {
    forall j :: i < j < |nodes| && nodes[j].moduleRecord.Some? ==> nodes[j].moduleRecord.value.id != nodes[i].moduleRecord.value.id
  }

  /** `modules` is exactly the non-missing records of the map, `externals` exactly the external ones among them. */
  lemma ModulesAndExternals(c: Collections)
    requires c.moduleMap.Valid()
    requires c.modules == Filter(NotMissing, Values(c.moduleMap))
    requires c.externals == Filter(External, c.modules)
    ensures forall m :: m in c.modules <==> (m in Values(c.moduleMap) && !m.isMissing)
    ensures forall m :: m in c.externals <==> (m in c.modules && m.isExternal)
    ensures forall m :: m in c.externals ==> !m.isMissing
  {
    FilterMembers(NotMissing, Values(c.moduleMap));
    FilterMembers(External, c.modules);
  }

  lemma FilterMembers<T>(p: T -> bool, s: seq<T>)
    ensures forall x :: x in Filter(p, s) <==> x in s && p(x)
  {
    forall x | x in s && p(x) ensures x in Filter(p, s) {
      var i :| 0 <= i < |s| && s[i] == x;
    }
  }
}
