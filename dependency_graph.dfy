/**
 * The dependency graph the analyzer builds: an insertion-ordered map from a module's file
 * path to its node, a node being the module's record and the records of what it requires,
 * in require order. An edge runs from a node to the file path of each dependency that has one.
 */
module DependencyGraphs {
  import opened Wrappers
  import opened Paths
  import opened Records
  import opened Seqs
  import opened OrderedMaps

  /** A node; the source calls the first field `module`, a reserved word here. */
  datatype GraphNode = GraphNode(moduleRecord: ModuleRecord, dependencies: seq<ModuleRecord>)

  type Graph = OrderedMap<AbsPath, GraphNode>

  /** The file paths of the records that have one, in order. */
  function DepPaths(deps: seq<ModuleRecord>): (r: seq<AbsPath>)
    ensures forall i :: 0 <= i < |deps| && deps[i].filePath.Some? ==> deps[i].filePath.value in r
    ensures forall k :: 0 <= k < |r| ==> exists i :: 0 <= i < |deps| && deps[i].filePath == Some(r[k])
    ensures |r| <= |deps|
  {
    if |deps| == 0 then []
    else
      var rest := DepPaths(deps[1..]);
      assert forall i :: 1 <= i < |deps| ==> deps[i] == deps[1..][i - 1];
      if deps[0].filePath.Some? then [deps[0].filePath.value] + rest else rest
  }

  /** An edge from node `a` to `b`: one of a's dependencies lives at `b`. */
  predicate Edge(g: Graph, a: AbsPath, b: AbsPath) {
    a in g.values && b in DepPaths(g.values[a].dependencies)
  }

  /** A closed walk of at least one edge. */
  predicate IsCycle(g: Graph, c: seq<AbsPath>) {
    |c| >= 2 && c[0] == c[|c| - 1] && forall i :: 0 <= i < |c| - 1 ==> Edge(g, c[i], c[i + 1])
  }

  /**
   * Every key from position `start` on was reached from an earlier key: its node was
   * inserted because some earlier node depends on it.
   */
  ghost predicate RootedFrom(g: Graph, keys: seq<AbsPath>, start: nat) {
    forall i :: start < i < |keys| ==> Reached(g, keys, i)
  }

  /** Key `i` is the target of an edge from an earlier key. */
  ghost predicate Reached(g: Graph, keys: seq<AbsPath>, i: nat)
    requires i < |keys|
  {
    exists j :: 0 <= j < i && Edge(g, keys[j], keys[i])
  }

  /** The paths a walk over `g` can visit: its keys and every dependency path of its nodes. */
  ghost function Universe(g: Graph): set<AbsPath> {
    (set k | k in g.values) + (set k, q | k in g.values && q in DepPaths(g.values[k].dependencies) :: q)
  }

  /** Edges read only the source node, so they survive any growth that keeps that node. */
  lemma EdgeKept(g: Graph, h: Graph, a: AbsPath, b: AbsPath)
    requires a in g.values && a in h.values && h.values[a] == g.values[a]
    ensures Edge(g, a, b) <==> Edge(h, a, b)
  {
  }

  /**
   * Appending keys to a rooted graph keeps it rooted when the nodes already there are
   * unchanged and each appended key is reached from an earlier key of the grown graph.
   */
  lemma RootedGrow(g: Graph, h: Graph, start: nat)
    requires g.Valid() && h.Valid()
    requires PrefixOf(g.keys, h.keys)
    requires forall k :: k in g.values ==> k in h.values && h.values[k] == g.values[k]
    requires RootedFrom(g, g.keys, start)
    requires forall i :: |g.keys| <= i < |h.keys| && start < i ==> Reached(h, h.keys, i)
    ensures RootedFrom(h, h.keys, start)
  {
    forall i | start < i < |h.keys| ensures Reached(h, h.keys, i) {
      if i < |g.keys| {
        assert h.keys[..|g.keys|][i] == h.keys[i];
        assert Reached(g, g.keys, i);
        var j :| 0 <= j < i && Edge(g, g.keys[j], g.keys[i]);
        assert h.keys[..|g.keys|][j] == h.keys[j];
        assert g.keys[j] in g.values;
        EdgeKept(g, h, g.keys[j], g.keys[i]);
        assert Edge(h, h.keys[j], h.keys[i]);
      }
    }
  }
}
