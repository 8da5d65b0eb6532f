/**
 * The depth-first walk behind the analyzer's `topologicalSort`. A file path is either
 * unseen, on the current walk (`visiting`) or finished (`visited`); a finished node's module
 * is appended to `sorted` after all of its dependencies. Meeting a path that is still on the
 * walk is a cycle.
 *
 * The ghost `order` is the list of finished nodes that `sorted` mirrors and the ghost
 * `stack` the walk from the outer loop's start to the current path.
 */
module TopologicalOrder {
  import opened Wrappers
  import opened Seqs
  import opened Paths
  import opened Records
  import opened DependencyGraphs

  datatype SortState = SortState(visited: set<AbsPath>, visiting: set<AbsPath>, sorted: seq<ModuleRecord>)

  /** What the walk keeps between steps. */
  ghost predicate OrderInv(g: Graph, st: SortState, order: seq<AbsPath>) {
    && Distinct(order)
    && st.visited !! st.visiting
    && (forall i :: 0 <= i < |order| ==> order[i] in st.visited && order[i] in g.values)
    && (forall q {:trigger q in st.visited, q in g.values} :: q in st.visited && q in g.values ==> q in order)
    && |st.sorted| == |order|
    && (forall i :: 0 <= i < |order| ==> st.sorted[i] == g.values[order[i]].moduleRecord)
    && (forall q, d {:trigger Edge(g, q, d)} :: q in st.visited && Edge(g, q, d) ==> d in st.visited)
    && BackwardEdges(g, order)
  }

  /** The paths being visited are exactly those on the walk. */
  ghost predicate OnWalk(visiting: set<AbsPath>, stack: seq<AbsPath>) {
    forall x :: x in visiting <==> x in stack
  }

  /** The walk so far follows edges and ends with an edge into `p`. */
  ghost predicate WalkTo(g: Graph, stack: seq<AbsPath>, p: AbsPath) {
    && (forall i :: 0 <= i < |stack| - 1 ==> Edge(g, stack[i], stack[i + 1]))
    && (|stack| > 0 ==> Edge(g, stack[|stack| - 1], p))
  }

  /** Meeting a path that is on the walk closes a cycle through it. */
  lemma CycleFromStack(g: Graph, stack: seq<AbsPath>, p: AbsPath) returns (cycle: seq<AbsPath>)
    requires p in stack && WalkTo(g, stack, p)
    ensures IsCycle(g, cycle) && cycle[0] == p
  {
    var i :| 0 <= i < |stack| && stack[i] == p;
    cycle := stack[i..] + [p];
    forall k | 0 <= k < |cycle| - 1 ensures Edge(g, cycle[k], cycle[k + 1]) {
      if k < |cycle| - 2 {
        assert cycle[k] == stack[i + k] && cycle[k + 1] == stack[i + k + 1];
      }
    }
  }

  lemma WalkExtend(g: Graph, stack: seq<AbsPath>, p: AbsPath, q: AbsPath)
    requires WalkTo(g, stack, p) && Edge(g, p, q)
    ensures WalkTo(g, stack + [p], q)
  {
    var s := stack + [p];
    forall i | 0 <= i < |s| - 1 ensures Edge(g, s[i], s[i + 1]) {
      if i < |stack| - 1 {
        assert s[i] == stack[i] && s[i + 1] == stack[i + 1];
      }
    }
  }

  function CycleError(p: AbsPath): JsError {
    JsError("Circular dependency detected: " + ToString(p), None)
  }

  /** `visit(filePath)`. */
  method Visit(g: Graph, p: AbsPath, st: SortState, ghost order: seq<AbsPath>, ghost stack: seq<AbsPath>)
    returns (st': SortState, err: Option<JsError>, ghost order': seq<AbsPath>, ghost cycle: seq<AbsPath>)
    requires g.Valid()
    requires p in Universe(g)
    requires OrderInv(g, st, order)
    requires OnWalk(st.visiting, stack)
    requires WalkTo(g, stack, p)
    ensures err.None? ==> (
      && OrderInv(g, st', order')
      && st'.visiting == st.visiting
      && st.visited <= st'.visited
      && p in st'.visited
      && PrefixOf(order, order')
      && (p !in st.visited && p in g.values ==> order'[|order'| - 1] == p))
    ensures err.Some? ==> IsCycle(g, cycle) && err.value == CycleError(cycle[0])
    decreases Rank(g, st, 0)
  {
    if p in st.visiting {
      cycle := CycleFromStack(g, stack, p);
      return st, Some(CycleError(p)), order, cycle;
    }
    if p in st.visited {
      return st, None, order, [];
    }
    var s := SortState(st.visited, st.visiting + {p}, st.sorted);
    ghost var o := order;
    MeasureDrops(g, st, s, p);
    if p in g.values {
      s, err, o, cycle := VisitDeps(g, p, s, o, stack);
      if err.Some? {
        return s, err, o, cycle;
      }
    }
    FinishKeepsOrder(g, s, order, o, p);
    return Finish(g, s, p), None, FinishOrder(g, o, p), [];
  }

  /** One `visit(dep.filePath)` call of the loop, for a dependency `q` of `p`. */
  method VisitDep(g: Graph, p: AbsPath, q: AbsPath, st: SortState, ghost order: seq<AbsPath>, ghost stack: seq<AbsPath>)
    returns (s: SortState, err: Option<JsError>, ghost o: seq<AbsPath>, ghost cycle: seq<AbsPath>)
    requires g.Valid()
    requires Edge(g, p, q) && p in st.visiting
    requires OrderInv(g, st, order)
    requires OnWalk(st.visiting, stack + [p])
    requires WalkTo(g, stack, p)
    ensures err.None? ==> (
      && OrderInv(g, s, o)
      && s.visiting == st.visiting
      && st.visited <= s.visited && q in s.visited
      && PrefixOf(order, o))
    ensures err.Some? ==> IsCycle(g, cycle) && err.value == CycleError(cycle[0])
    decreases Rank(g, st, 1)
  {
    assert q in Universe(g);
    WalkExtend(g, stack, p, q);
    assert Rank(g, st, 0) < Rank(g, st, 1);
    s, err, o, cycle := Visit(g, q, st, order, stack + [p]);
  }

  lemma SubsetTrans(a: set<AbsPath>, b: set<AbsPath>, c: set<AbsPath>)
    requires a <= b && b <= c
    ensures a <= c
  {
  }

  /** Dependency paths finished before the `k`th one stay finished, and so does the `k`th. */
  lemma DepsStayVisited(deps: seq<ModuleRecord>, k: nat, v1: set<AbsPath>, v2: set<AbsPath>)
    requires k < |deps| && v1 <= v2
    requires forall j :: 0 <= j < k && deps[j].filePath.Some? ==> deps[j].filePath.value in v1
    requires deps[k].filePath.Some? ==> deps[k].filePath.value in v2
    ensures forall j :: 0 <= j < k + 1 && deps[j].filePath.Some? ==> deps[j].filePath.value in v2
  {
  }

  /** Once every dependency with a path is finished, so is every successor of `p`. */
  lemma DepsVisited(g: Graph, p: AbsPath, visited: set<AbsPath>)
    requires p in g.values
    requires forall j :: 0 <= j < |g.values[p].dependencies| && g.values[p].dependencies[j].filePath.Some? ==>
               g.values[p].dependencies[j].filePath.value in visited
    ensures forall d :: Edge(g, p, d) ==> d in visited
  {
  }

  /** The number of paths the walk has not reached yet. */
  ghost function Measure(g: Graph, st: SortState): nat {
    |Universe(g) - (st.visited + st.visiting)|
  }

  /**
   * The termination measure of the three mutually recursive methods: the unreached paths,
   * and at equal counts Visit below VisitDep below VisitDeps.
   */
  ghost function Rank(g: Graph, st: SortState, level: nat): nat {
    3 * Measure(g, st) + level
  }

  lemma MeasureDrops(g: Graph, st: SortState, s: SortState, p: AbsPath)
    requires p in Universe(g) && p !in st.visited + st.visiting
    requires st.visited + st.visiting + {p} <= s.visited + s.visiting
    ensures Rank(g, s, 2) < Rank(g, st, 0)
  {
    var a, b := Universe(g) - (s.visited + s.visiting), Universe(g) - (st.visited + st.visiting);
    assert a <= b - {p};
    SubsetNotLarger(a, b - {p});
  }

  lemma SubsetNotLarger(a: set<AbsPath>, b: set<AbsPath>)
    requires a <= b
    ensures |a| <= |b|
  {
    assert b == a + (b - a);
  }

  lemma MeasureKept(g: Graph, st: SortState, s: SortState)
    requires st.visited + st.visiting <= s.visited + s.visiting
    ensures Rank(g, s, 1) < Rank(g, st, 2)
  {
    SubsetNotLarger(Universe(g) - (s.visited + s.visiting), Universe(g) - (st.visited + st.visiting));
  }

  /** The `for (const dep of node.dependencies)` loop of `visit`, with `p` on the walk. */
  method VisitDeps(g: Graph, p: AbsPath, st: SortState, ghost order: seq<AbsPath>, ghost stack: seq<AbsPath>)
    returns (s: SortState, err: Option<JsError>, ghost o: seq<AbsPath>, ghost cycle: seq<AbsPath>)
    requires g.Valid()
    requires p in g.values && p in st.visiting && p !in st.visited
    requires OrderInv(g, st, order)
    requires OnWalk(st.visiting, stack + [p])
    requires WalkTo(g, stack, p)
    ensures err.None? ==> (
      && OrderInv(g, s, o)
      && s.visiting == st.visiting
      && st.visited <= s.visited && p !in s.visited
      && PrefixOf(order, o)
      && forall d :: Edge(g, p, d) ==> d in s.visited)
    ensures err.Some? ==> IsCycle(g, cycle) && err.value == CycleError(cycle[0])
    decreases Rank(g, st, 2)
  {
    s, o := st, order;
    var deps := g.values[p].dependencies;
    for k := 0 to |deps|
      invariant s.visiting == st.visiting
      invariant st.visited <= s.visited && p !in s.visited
      invariant OrderInv(g, s, o)
      invariant PrefixOf(order, o)
      invariant forall j :: 0 <= j < k && deps[j].filePath.Some? ==> deps[j].filePath.value in s.visited
    {
      if deps[k].filePath.Some? {
        var q := deps[k].filePath.value;
        assert Edge(g, p, q);
        MeasureKept(g, st, s);
        ghost var o1, v1 := o, s.visited;
        s, err, o, cycle := VisitDep(g, p, q, s, o, stack);
        if err.Some? {
          return;
        }
        PrefixTrans(order, o1, o);
        SubsetTrans(st.visited, v1, s.visited);
        DepsStayVisited(deps, k, v1, s.visited);
      }
    }
    DepsVisited(g, p, s.visited);
    err, cycle := None, [];
  }

  /** Leaving `p`: it moves from visiting to visited and, when it is a node, its module is emitted. */
  function Finish(g: Graph, s: SortState, p: AbsPath): SortState {
    SortState(s.visited + {p}, s.visiting - {p},
              if p in g.values then s.sorted + [g.values[p].moduleRecord] else s.sorted)
  }

  /** The ghost order after leaving `p`. */
  ghost function FinishOrder(g: Graph, o: seq<AbsPath>, p: AbsPath): seq<AbsPath> {
    if p in g.values then o + [p] else o
  }

  lemma FinishKeepsOrder(g: Graph, s: SortState, order: seq<AbsPath>, o: seq<AbsPath>, p: AbsPath)
    requires OrderInv(g, s, o) && PrefixOf(order, o)
    requires p in s.visiting && p !in s.visited
    requires forall d :: Edge(g, p, d) ==> d in s.visited
    ensures OrderInv(g, Finish(g, s, p), FinishOrder(g, o, p))
    ensures PrefixOf(order, FinishOrder(g, o, p))
    ensures p in g.values ==> |FinishOrder(g, o, p)| > 0 && FinishOrder(g, o, p)[|FinishOrder(g, o, p)| - 1] == p
  {
    var s', o' := Finish(g, s, p), FinishOrder(g, o, p);
    assert o'[..|o|] == o;
    assert o'[..|order|] == o[..|order|];
    if p in g.values {
      assert p !in o;
      forall i, j | 0 <= i < |o'| && 0 <= j < |o'| ensures Edge(g, o'[i], o'[j]) ==> j < i {
        if j == |o| {
          assert o'[j] == p;
          assert o'[i] in s.visited || o'[i] == p;
        }
      }
      assert o'[..|o|] == o;
    }
  }

  /** Every node listed in `order` is finished after all the nodes it depends on. */
  ghost predicate BackwardEdges(g: Graph, order: seq<AbsPath>) {
    forall i, j :: 0 <= i < |order| && 0 <= j < |order| && Edge(g, order[i], order[j]) ==> j < i
  }

  /** An order in which every node comes after its dependencies rules out any cycle. */
  lemma NoCycle(g: Graph, order: seq<AbsPath>, c: seq<AbsPath>)
    requires Distinct(order)
    requires forall k :: k in g.values ==> k in order
    requires BackwardEdges(g, order)
    ensures !IsCycle(g, c)
  {
    if |c| >= 2 && IsWalk(g, c) {
      var last := |c| - 1;
      assert Edge(g, c[0], c[1]);
      if c[last] in order {
        var i0, im := Descends(g, order, c, last);
        assert order[im] != order[i0];
      }
    }
  }

  /** Consecutive entries are joined by edges. */
  ghost predicate IsWalk(g: Graph, c: seq<AbsPath>) {
    forall i :: 0 <= i < |c| - 1 ==> Edge(g, c[i], c[i + 1])
  }

  /** Along the first `m` edges of a walk, the positions in `order` drop by at least `m`. */
  lemma {:induction false} Descends(g: Graph, order: seq<AbsPath>, c: seq<AbsPath>, m: nat)
    returns (i0: nat, im: nat)
    requires forall k :: k in g.values ==> k in order
    requires BackwardEdges(g, order)
    requires IsWalk(g, c)
    requires 1 <= m < |c| && c[m] in order
    ensures i0 < |order| && order[i0] == c[0]
    ensures im < |order| && order[im] == c[m]
    ensures im + m <= i0
  {
    assert Edge(g, c[m - 1], c[m]);
    im :| 0 <= im < |order| && order[im] == c[m];
    if m == 1 {
      i0 :| 0 <= i0 < |order| && order[i0] == c[0];
    } else {
      assert Edge(g, c[m - 2], c[m - 1]);
      var ip;
      i0, ip := Descends(g, order, c, m - 1);
    }
  }
}
