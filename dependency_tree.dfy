/**
 * The folder/module tree the dependency-tree report draws: one section per place a module
 * lives (the source root, each external root, or the directory of a module found elsewhere),
 * each section a folder whose descendants are the path segments down to module leaves.
 *
 * The tree is a value here: inserting a path returns the updated node instead of walking a
 * cursor through shared objects, and the map from an external section's key to its node is
 * a map from the key to the section's index.
 */
module DependencyTree {
  import opened Wrappers
  import opened Strings
  import opened Seqs
  import opened Paths
  import opened Records
  import opened Labels
  import Pipeline

  datatype NodeKind = FolderKind | ModuleKind

  /**
   * A tree node. `displayTags` is false on folders; on module nodes the source leaves it
   * unset, which the label treats as shown, so it is true there.
   */
  datatype TreeNode = TreeNode(
    name: string,
    kind: NodeKind,
    tags: seq<string>,
    isEntry: bool,
    displayTags: bool,
    children: seq<TreeNode>)

  /** `createFolderNode(name)`. */
  function CreateFolderNode(name: string): TreeNode {
    TreeNode(name, FolderKind, [], false, false, [])
  }

  /** The module leaf `insertPath` pushes, holding its own copy of the tags. */
  function NewModuleNode(name: string, tags: seq<string>, isEntry: bool): TreeNode {
    TreeNode(name, ModuleKind, tags, isEntry, true, [])
  }

  /** The first child with this name and kind, or `|children|` when there is none. */
  function FindChild(children: seq<TreeNode>, name: string, kind: NodeKind): (r: nat)
    ensures r <= |children|
    ensures r < |children| ==> children[r].name == name && children[r].kind == kind
    ensures forall j :: 0 <= j < r ==> !(children[j].name == name && children[j].kind == kind)
  {
    if |children| == 0 then 0
    else if children[0].name == name && children[0].kind == kind then 0
    else 1 + FindChild(children[1..], name, kind)
  }

  /** A non-final segment names a folder, written with a trailing `/`. */
  function FolderName(segment: string): (r: string)
    ensures EndsWith(r, "/")
  {
    if EndsWith(segment, "/") then segment else segment + "/"
  }

  /** The child the first segment of `parts` descends into: a module for the last segment, else a folder. */
  function ChildKey(parts: seq<string>): (string, NodeKind)
    requires |parts| > 0
  {
    if |parts| == 1 then (parts[0], ModuleKind) else (FolderName(parts[0]), FolderKind)
  }

  /** An existing leaf re-inserted: its tags become the order-preserving union, `isEntry` is or-ed. */
  function MergeLeaf(leaf: TreeNode, tags: seq<string>, isEntry: bool): TreeNode {
    leaf.(tags := Dedup(leaf.tags + tags), isEntry := leaf.isEntry || isEntry)
  }

  /**
   * The children of `r` are those of `node` with the child for `key` updated in place when
   * it exists, and appended when it did not: no other sibling changes and none is created.
   */
  predicate SiblingsKept(node: TreeNode, r: TreeNode, key: (string, NodeKind)) {
    var i := FindChild(node.children, key.0, key.1);
    && |r.children| == |node.children| + (if i < |node.children| then 0 else 1)
    && (forall j :: 0 <= j < |node.children| && j != i ==> r.children[j] == node.children[j])
    && r.children[i].name == key.0 && r.children[i].kind == key.1
  }

  /** `insertPath(node, parts, {tags, isEntry})`. */
  function InsertPath(node: TreeNode, parts: seq<string>, tags: seq<string>, isEntry: bool): (r: TreeNode)
    ensures r.name == node.name && r.kind == node.kind && r.tags == node.tags
    ensures r.isEntry == node.isEntry && r.displayTags == node.displayTags
    ensures |parts| == 0 ==> r == node
    ensures |parts| > 0 ==> SiblingsKept(node, r, ChildKey(parts))
    decreases |parts|
  {
    if |parts| == 0 then node
    else
      var key := ChildKey(parts);
      var i := FindChild(node.children, key.0, key.1);
      var found := i < |node.children|;
      var updated :=
        if |parts| == 1 then
          (if found then MergeLeaf(node.children[i], tags, isEntry) else NewModuleNode(parts[0], tags, isEntry))
        else
          InsertPath(if found then node.children[i] else CreateFolderNode(key.0), parts[1..], tags, isEntry);
      node.(children := if found then node.children[i := updated] else node.children + [updated])
  }

  /**
   * `parts` leads from `node` through folders to a module leaf that carries every one of
   * `tags`, and is marked as the entry when `isEntry` is.
   */
  predicate Contains(node: TreeNode, parts: seq<string>, tags: seq<string>, isEntry: bool)
    decreases |parts|
  {
    |parts| > 0 &&
    var key := ChildKey(parts);
    var i := FindChild(node.children, key.0, key.1);
    i < |node.children| &&
    if |parts| == 1 then
      (forall t :: t in tags ==> t in node.children[i].tags) && (isEntry ==> node.children[i].isEntry)
    else Contains(node.children[i], parts[1..], tags, isEntry)
  }

  /** The first match is at `i`, so FindChild finds `i`. */
  lemma FindChildAt(children: seq<TreeNode>, key: (string, NodeKind), i: nat)
    requires i < |children| && children[i].name == key.0 && children[i].kind == key.1
    requires forall j :: 0 <= j < i ==> !(children[j].name == key.0 && children[j].kind == key.1)
    ensures FindChild(children, key.0, key.1) == i
  {
  }

  /** After insertion the path is there, down to a leaf holding the inserted tags. */
  lemma {:induction false} InsertedFound(node: TreeNode, parts: seq<string>, tags: seq<string>, isEntry: bool)
    requires |parts| > 0
    ensures Contains(InsertPath(node, parts, tags, isEntry), parts, tags, isEntry)
    decreases |parts|
  {
    var r := InsertPath(node, parts, tags, isEntry);
    var key := ChildKey(parts);
    var i := FindChild(node.children, key.0, key.1);
    FindChildAt(r.children, key, i);
    if |parts| == 1 {
      if i < |node.children| {
        DedupProps(node.children[i].tags + tags);
      }
    } else {
      var child := if i < |node.children| then node.children[i] else CreateFolderNode(key.0);
      InsertedFound(child, parts[1..], tags, isEntry);
    }
  }

  /** The shape of a tree: names and kinds, without tags or flags. */
  datatype Outline = Outline(name: string, kind: NodeKind, children: seq<Outline>)

  function OutlineOf(node: TreeNode): Outline
    decreases node
  {
    Outline(node.name, node.kind, seq(|node.children|, i requires 0 <= i < |node.children| => OutlineOf(node.children[i])))
  }

  /** Re-inserting a path that is already present creates no node: only tags and flags change. */
  lemma {:induction false} ReinsertKeepsOutline(node: TreeNode, parts: seq<string>, tags: seq<string>, isEntry: bool)
    requires Contains(node, parts, [], false)
    ensures OutlineOf(InsertPath(node, parts, tags, isEntry)) == OutlineOf(node)
    decreases |parts|
  {
    var r := InsertPath(node, parts, tags, isEntry);
    var key := ChildKey(parts);
    var i := FindChild(node.children, key.0, key.1);
    if |parts| > 1 {
      ReinsertKeepsOutline(node.children[i], parts[1..], tags, isEntry);
    }
    assert OutlineOf(r.children[i]) == OutlineOf(node.children[i]);
    assert forall j :: 0 <= j < |r.children| ==> OutlineOf(r.children[j]) == OutlineOf(node.children[j]);
  }

  /** A leaf that was not there yet is appended after the existing children, with a copy of the tags. */
  lemma NewLeafAppended(node: TreeNode, name: string, tags: seq<string>, isEntry: bool)
    requires FindChild(node.children, name, ModuleKind) == |node.children|
    ensures InsertPath(node, [name], tags, isEntry).children == node.children + [NewModuleNode(name, tags, isEntry)]
  {
  }

  /** A leaf already there keeps its place and gets the union of the old and new tags. */
  lemma ExistingLeafMerged(node: TreeNode, name: string, tags: seq<string>, isEntry: bool)
    requires FindChild(node.children, name, ModuleKind) < |node.children|
    ensures var i := FindChild(node.children, name, ModuleKind);
      InsertPath(node, [name], tags, isEntry).children ==
        node.children[i := MergeLeaf(node.children[i], tags, isEntry)]
    ensures var leaf := node.children[FindChild(node.children, name, ModuleKind)];
      && Distinct(Dedup(leaf.tags + tags))
      && forall t :: t in Dedup(leaf.tags + tags) <==> t in leaf.tags || t in tags
  {
    var leaf := node.children[FindChild(node.children, name, ModuleKind)];
    DedupProps(leaf.tags + tags);
  }

  // Splitting the paths to insert.

  function IsNonEmpty(s: string): bool {
    s != ""
  }

  /**
   * `splitPath(relativePath, appendExtension)`: the non-empty pieces between `/`, each but
   * the last given a trailing `/`; the whole string when there are no such pieces.
   */
  function SplitPath(relativePath: string, appendExtension: bool): (r: seq<string>)
    ensures |r| >= 1
  {
    var segments := Filter(IsNonEmpty, Split(relativePath, '/'));
    if |segments| == 0 then [relativePath]
    else
      seq(|segments|, i requires 0 <= i < |segments| =>
        if i < |segments| - 1 then segments[i] + "/"
        else if appendExtension then segments[i]
        else ReplaceChar(segments[i], '\\', '/'))
  }

  /** `decorateMissingParts(parts)` as a value: `/` appended to every element but the last. */
  function DecoratedParts(parts: seq<string>): (r: seq<string>)
    ensures |r| == |parts|
  {
    seq(|parts|, i requires 0 <= i < |parts| => if i < |parts| - 1 then parts[i] + "/" else parts[i])
  }

  /** `decorateMissingParts(parts)`: the loop over a copy of the list. */
  method DecorateMissingParts(parts: seq<string>) returns (r: seq<string>)
    ensures |r| == |parts|
    ensures forall i :: 0 <= i < |parts| - 1 ==> r[i] == parts[i] + "/"
    ensures |parts| > 0 ==> r[|parts| - 1] == parts[|parts| - 1]
    ensures r == DecoratedParts(parts)
  {
    if |parts| == 0 {
      return parts;
    }
    r := parts;
    var index := 0;
    while index < |r| - 1
      invariant 0 <= index <= |parts| - 1 && |r| == |parts|
      invariant forall i :: 0 <= i < index ==> r[i] == parts[i] + "/"
      invariant forall i :: index <= i < |parts| ==> r[i] == parts[i]
    {
      r := r[index := r[index] + "/"];
      index := index + 1;
    }
  }

  /** Splitting a `/`-joined list of proper segments gives them back, decorated as folders. */
  lemma SplitPathOfJoin(segments: seq<string>)
    requires |segments| >= 1
    requires forall i :: 0 <= i < |segments| ==> segments[i] != "" && '/' !in segments[i]
    ensures SplitPath(Join(segments, "/"), true) == DecoratedParts(segments)
  {
    SplitJoin(segments, '/');
    FilterAll(IsNonEmpty, segments);
  }

  /** The segments of `to` below `from`, after `path.relative`; the file name when they coincide. */
  function RelativeParts(from: AbsPath, to: AbsPath): (r: seq<string>)
    ensures |r| >= 1
  {
    var relative := Relative(from, to);
    if relative != "" then SplitPath(relative, true) else [Basename(to)]
  }

  /** A file below a root is split into its folders below the root and its own name. */
  lemma RelativeBelow(from: AbsPath, to: AbsPath)
    requires IsNormal(to) && IsPrefix(from, to) && |to| > |from|
    ensures RelativeParts(from, to) == DecoratedParts(to[|from|..])
  {
    CommonPrefixOfPrefix(from, to);
    var rest := to[|from|..];
    assert seq(|from| - |from|, _ => "..") + rest == rest;
    assert forall i :: 0 <= i < |rest| ==> rest[i] == to[|from| + i];
    assert rest[0] != "";
    JoinNonEmptyFirst(rest);
    SplitPathOfJoin(rest);
  }

  lemma JoinNonEmptyFirst(segments: seq<string>)
    requires |segments| >= 1 && segments[0] != ""
    ensures Join(segments, "/") != ""
  {
    if |segments| > 1 {
      assert |Join(segments, "/")| >= |segments[0]|;
    }
  }

  // Sections.

  /** The label of the section for modules under the source root. */
  const RootLabel := "[Root Dir]/"

  /** An external root, resolved, and the key of its section: its formatted path and a `/`. */
  datatype ExternalRoot = ExternalRoot(path: AbsPath, key: string)

  /**
   * What placing a file depends on: the normalized root directory, the external roots, and
   * the two host functions `formatPath` and `isWithinRoot`.
   */
  datatype Layout = Layout(
    rootDir: Option<AbsPath>,
    roots: seq<ExternalRoot>,
    formatPath: AbsPath -> string,
    isWithinRoot: (AbsPath, AbsPath) -> bool)

  /** `context.externals.paths`, each resolved against the root directory or else the working directory. */
  function ExternalRoots(paths: seq<string>, base: AbsPath, formatPath: AbsPath -> string): (r: seq<ExternalRoot>)
    ensures |r| == |paths|
    ensures forall i :: 0 <= i < |paths| ==>
      r[i].path == Resolve(base, paths[i]) && r[i].key == formatPath(Resolve(base, paths[i])) + "/"
  {
    seq(|paths|, i requires 0 <= i < |paths| =>
      ExternalRoot(Resolve(base, paths[i]), formatPath(Resolve(base, paths[i])) + "/"))
  }

  /** The sections so far, and the index of each external section by its key. */
  datatype TreeState = TreeState(sections: seq<TreeNode>, keyIndex: map<string, nat>)

  /**
   * The root section comes first; every later section is a folder created for exactly one
   * key, the one it is named after and indexed by.
   */
  predicate ValidState(s: TreeState) {
    && |s.sections| >= 1
    && s.sections[0].name == RootLabel
    && (forall i :: 0 <= i < |s.sections| ==> s.sections[i].kind == FolderKind)
    && (forall k :: k in s.keyIndex ==> 1 <= s.keyIndex[k] < |s.sections| && s.sections[s.keyIndex[k]].name == k)
    && (forall i :: 1 <= i < |s.sections| ==> s.sections[i].name in s.keyIndex && s.keyIndex[s.sections[i].name] == i)
  }

  function InitialState(): (r: TreeState)
    ensures ValidState(r)
  {
    TreeState([CreateFolderNode(RootLabel)], map[])
  }

  /** The section for `key`: the existing one, or a new empty folder pushed after the others. */
  function EnsureSection(s: TreeState, key: string): (r: (TreeState, nat))
    requires ValidState(s)
    ensures ValidState(r.0)
    ensures r.1 < |r.0.sections| && r.0.sections[r.1].name == key
    ensures key in r.0.keyIndex && r.0.keyIndex[key] == r.1
    ensures key in s.keyIndex ==> r.0 == s
    ensures key !in s.keyIndex ==> r.0.sections == s.sections + [CreateFolderNode(key)]
  {
    if key in s.keyIndex then (s, s.keyIndex[key])
    else
      var n := |s.sections|;
      (TreeState(s.sections + [CreateFolderNode(key)], s.keyIndex[key := n]), n)
  }

  /** The first external root the file lies within, or `|roots|`. */
  function FirstWithin(roots: seq<ExternalRoot>, filePath: AbsPath, isWithinRoot: (AbsPath, AbsPath) -> bool): (r: nat)
    ensures r <= |roots|
    ensures r < |roots| ==> isWithinRoot(filePath, roots[r].path)
    ensures forall j :: 0 <= j < r ==> !isWithinRoot(filePath, roots[j].path)
  {
    if |roots| == 0 then 0
    else if isWithinRoot(filePath, roots[0].path) then 0
    else 1 + FirstWithin(roots[1..], filePath, isWithinRoot)
  }

  /** Where a file goes: the state with its section present, the section's index, and the parts to insert. */
  datatype Placement = Placement(state: TreeState, index: nat, parts: seq<string>)

  /** The existing sections keep their place and their names; at most one is added. */
  predicate SectionsKept(s: TreeState, t: TreeState) {
    && |s.sections| <= |t.sections| <= |s.sections| + 1
    && forall i :: 0 <= i < |s.sections| ==> t.sections[i] == s.sections[i]
  }

  /**
   * `resolveSectionForPath`: the root section for a file within the root directory; else the
   * section of the first external root containing it; else a section named after the file's
   * formatted directory.
   */
  function ResolveSectionForPath(s: TreeState, filePath: AbsPath, layout: Layout): (r: Placement)
    requires ValidState(s)
    ensures ValidState(r.state) && r.index < |r.state.sections| && |r.parts| >= 1
    ensures SectionsKept(s, r.state)
    ensures layout.rootDir.Some? && layout.isWithinRoot(filePath, layout.rootDir.value) ==>
      r.state == s && r.index == 0 && r.parts == RelativeParts(layout.rootDir.value, filePath)
    ensures !(layout.rootDir.Some? && layout.isWithinRoot(filePath, layout.rootDir.value)) ==>
      var j := FirstWithin(layout.roots, filePath, layout.isWithinRoot);
      if j < |layout.roots| then
        r.state.sections[r.index].name == layout.roots[j].key &&
        r.parts == RelativeParts(layout.roots[j].path, filePath)
      else
        r.state.sections[r.index].name == layout.formatPath(Dirname(filePath)) + "/" &&
        r.parts == [Basename(filePath)]
  {
    if layout.rootDir.Some? && layout.isWithinRoot(filePath, layout.rootDir.value) then
      Placement(s, 0, RelativeParts(layout.rootDir.value, filePath))
    else
      var j := FirstWithin(layout.roots, filePath, layout.isWithinRoot);
      if j < |layout.roots| then
        var e := EnsureSection(s, layout.roots[j].key);
        Placement(e.0, e.1, RelativeParts(layout.roots[j].path, filePath))
      else
        var e := EnsureSection(s, layout.formatPath(Dirname(filePath)) + "/");
        Placement(e.0, e.1, [Basename(filePath)])
  }

  /** The tags of a missing entry: `missing`, then `external` and `override` as flagged. */
  function MissingTags(m: Pipeline.MissingReport): (r: seq<string>)
    ensures |r| >= 1 && r[0] == "missing"
    ensures "external" in r <==> m.isExternal
    ensures "override" in r <==> m.overrideApplied
    ensures forall i, j :: 0 <= i < j < |r| ==> MissingRank(r[i]) < MissingRank(r[j])
  {
    ["missing"] + (if m.isExternal then ["external"] else []) + (if m.overrideApplied then ["override"] else [])
  }

  function MissingRank(tag: string): nat {
    if tag == "missing" then 0 else if tag == "external" then 1 else 2
  }

  /** The name a missing entry without a file is filed under, backslashes turned into `/`. */
  function MissingName(m: Pipeline.MissingReport): (r: string)
    ensures r != ""
  {
    ReplaceChar(if m.moduleName != "" then m.moduleName else if m.requireId != "" then m.requireId else "unknown", '\\', '/')
  }

  /** The pieces of a name between `/` and `.`, empties dropped; the name itself when none remain. */
  function NameParts(name: string): (r: seq<string>)
    ensures |r| >= 1
    ensures r == [name] || forall i :: 0 <= i < |r| ==> r[i] != "" && '/' !in r[i] && '.' !in r[i]
  {
    var dotted := ReplaceChar(name, '.', '/');
    assert '.' !in dotted by {
      assert forall i :: 0 <= i < |dotted| ==> dotted[i] != '.';
    }
    CleanPieces(dotted);
    var parts := Filter(IsNonEmpty, Split(dotted, '/'));
    if |parts| == 0 then [name] else parts
  }

  /** The non-empty pieces of a dot-free string split on `/` are proper names. */
  lemma CleanPieces(s: string)
    requires '.' !in s
    ensures forall i :: 0 <= i < |Filter(IsNonEmpty, Split(s, '/'))| ==>
      Filter(IsNonEmpty, Split(s, '/'))[i] != "" && '/' !in Filter(IsNonEmpty, Split(s, '/'))[i] &&
      '.' !in Filter(IsNonEmpty, Split(s, '/'))[i]
  {
    JoinSplit(s, '/');
    SplitPiecesFrom(s, '/');
    var pieces := Split(s, '/');
    var parts := Filter(IsNonEmpty, pieces);
    forall i | 0 <= i < |parts| ensures parts[i] != "" && '/' !in parts[i] && '.' !in parts[i] {
      assert parts[i] in pieces && IsNonEmpty(parts[i]);
      var j :| 0 <= j < |pieces| && pieces[j] == parts[i];
      assert forall ch :: ch in pieces[j] ==> ch in s;
    }
  }

  /** Every character of a piece of a split comes from the string split. */
  lemma {:induction false} SplitPiecesFrom(s: string, c: char)
    ensures forall i, ch :: 0 <= i < |Split(s, c)| && ch in Split(s, c)[i] ==> ch in s
    decreases |s|
  {
    var k := IndexOf(s, c);
    if k != -1 {
      SplitPiecesFrom(s[k + 1..], c);
      assert Split(s, c) == [s[..k]] + Split(s[k + 1..], c);
      assert forall ch :: ch in s[k + 1..] ==> ch in s;
      assert forall ch :: ch in s[..k] ==> ch in s;
    }
  }

  /**
   * `resolveMissingSection`: an entry with a file is placed like a module; one without goes
   * under the root section, its name split into folders and a final leaf.
   */
  function ResolveMissingSection(s: TreeState, m: Pipeline.MissingReport, layout: Layout): (r: Placement)
    requires ValidState(s)
    ensures ValidState(r.state) && r.index < |r.state.sections| && |r.parts| >= 1
    ensures SectionsKept(s, r.state)
    ensures m.filePath.Some? ==> r == ResolveSectionForPath(s, m.filePath.value, layout)
    ensures m.filePath.None? ==> r.state == s && r.index == 0 && r.parts == DecoratedParts(NameParts(MissingName(m)))
  {
    if m.filePath.Some? then ResolveSectionForPath(s, m.filePath.value, layout)
    else Placement(s, 0, DecoratedParts(NameParts(MissingName(m))))
  }

  /** Insert `parts` with these tags into the section a placement chose. */
  function Place(p: Placement, tags: seq<string>, isEntry: bool): (r: TreeState)
    requires ValidState(p.state) && p.index < |p.state.sections|
    ensures ValidState(r) && |r.sections| == |p.state.sections| && r.keyIndex == p.state.keyIndex
    ensures forall i :: 0 <= i < |r.sections| && i != p.index ==> r.sections[i] == p.state.sections[i]
    ensures r.sections[p.index] == InsertPath(p.state.sections[p.index], p.parts, tags, isEntry)
  {
    p.state.(sections := p.state.sections[p.index := InsertPath(p.state.sections[p.index], p.parts, tags, isEntry)])
  }

  /** `addModuleRecord`: a module with a file is inserted with its tags, flagged when it is the entry. */
  function AddModule(s: TreeState, m: ModuleRecord, entryFilePath: Option<AbsPath>, layout: Layout): (r: TreeState)
    requires ValidState(s)
    ensures ValidState(r) && |s.sections| <= |r.sections| <= |s.sections| + 1
    ensures forall i :: 0 <= i < |s.sections| ==> r.sections[i].name == s.sections[i].name
    ensures m.filePath.None? ==> r == s
  {
    if m.filePath.None? then s
    else
      var isEntry := entryFilePath.Some? && m.filePath == entryFilePath;
      Place(ResolveSectionForPath(s, m.filePath.value, layout), CollectModuleTags(Some(m)), isEntry)
  }

  /** A module with a file ends up in the section its placement chose, with all its tags. */
  lemma ModuleInserted(s: TreeState, m: ModuleRecord, entryFilePath: Option<AbsPath>, layout: Layout)
    requires ValidState(s) && m.filePath.Some?
    ensures var p := ResolveSectionForPath(s, m.filePath.value, layout);
      Contains(AddModule(s, m, entryFilePath, layout).sections[p.index], p.parts,
        CollectModuleTags(Some(m)), entryFilePath == m.filePath)
  {
    var p := ResolveSectionForPath(s, m.filePath.value, layout);
    InsertedFound(p.state.sections[p.index], p.parts, CollectModuleTags(Some(m)), entryFilePath == m.filePath);
  }

  /** One missing entry inserted as a leaf tagged `missing`, never as the entry. */
  function AddMissing(s: TreeState, m: Pipeline.MissingReport, layout: Layout): (r: TreeState)
    requires ValidState(s)
    ensures ValidState(r) && |s.sections| <= |r.sections| <= |s.sections| + 1
    ensures forall i :: 0 <= i < |s.sections| ==> r.sections[i].name == s.sections[i].name
  {
    Place(ResolveMissingSection(s, m, layout), MissingTags(m), false)
  }

  /** A missing entry without a file lands under the root section, along its name's pieces. */
  lemma MissingUnderRoot(s: TreeState, m: Pipeline.MissingReport, layout: Layout)
    requires ValidState(s) && m.filePath.None?
    ensures |AddMissing(s, m, layout).sections| == |s.sections|
    ensures Contains(AddMissing(s, m, layout).sections[0], DecoratedParts(NameParts(MissingName(m))), MissingTags(m), false)
  {
    InsertedFound(s.sections[0], DecoratedParts(NameParts(MissingName(m))), MissingTags(m), false);
  }

  /** `sortedModules.forEach(addModuleRecord)`. */
  function AddModules(s: TreeState, modules: seq<ModuleRecord>, entryFilePath: Option<AbsPath>, layout: Layout): (r: TreeState)
    requires ValidState(s)
    ensures ValidState(r)
    decreases |modules|
  {
    if |modules| == 0 then s
    else AddModule(AddModules(s, modules[..|modules| - 1], entryFilePath, layout), modules[|modules| - 1], entryFilePath, layout)
  }

  /** The keys of the missing entries seen so far. */
  function SeenKeys(items: seq<Pipeline.MissingReport>): (r: set<string>)
    ensures forall i :: 0 <= i < |items| ==> Pipeline.MissingNameOf(items[i]) in r
  {
    if |items| == 0 then {} else SeenKeys(items[..|items| - 1]) + {Pipeline.MissingNameOf(items[|items| - 1])}
  }

  /** The missing loop: each entry whose key was not seen before is inserted; later duplicates are skipped. */
  function AddMissingItems(s: TreeState, items: seq<Pipeline.MissingReport>, layout: Layout): (r: TreeState)
    requires ValidState(s)
    ensures ValidState(r)
    decreases |items|
  {
    if |items| == 0 then s
    else
      var before := items[..|items| - 1];
      var t := AddMissingItems(s, before, layout);
      if Pipeline.MissingNameOf(items[|items| - 1]) in SeenKeys(before) then t else AddMissing(t, items[|items| - 1], layout)
  }

  function HasChildren(section: TreeNode): bool {
    |section.children| > 0
  }

  /** The sections the report shows: those with children, in creation order. */
  function Sections(modules: seq<ModuleRecord>, missing: seq<Pipeline.MissingReport>,
                    entryFilePath: Option<AbsPath>, layout: Layout): seq<TreeNode> {
    Filter(HasChildren, AddMissingItems(AddModules(InitialState(), modules, entryFilePath, layout), missing, layout).sections)
  }

  /**
   * `buildDependencyTreeSections(analysis, {formatPath, isWithinRoot})`: the modules in
   * sorted order, then the missing entries once per key, then the sections with children.
   */
  method BuildDependencyTreeSections(
    sortedModules: seq<ModuleRecord>,
    missing: seq<Pipeline.MissingReport>,
    entryFilePath: Option<AbsPath>,
    rootDir: Option<AbsPath>,
    externalPaths: seq<string>,
    cwd: AbsPath,
    formatPath: AbsPath -> string,
    isWithinRoot: (AbsPath, AbsPath) -> bool)
    returns (sections: seq<TreeNode>)
    ensures sections == Sections(sortedModules, missing, entryFilePath,
      Layout(rootDir, ExternalRoots(externalPaths, rootDir.GetOr(cwd), formatPath), formatPath, isWithinRoot))
    ensures forall i :: 0 <= i < |sections| ==> |sections[i].children| > 0 && sections[i].kind == FolderKind
  {
    var layout := Layout(rootDir, ExternalRoots(externalPaths, rootDir.GetOr(cwd), formatPath), formatPath, isWithinRoot);
    var state := AddModulesLoop(sortedModules, entryFilePath, layout);
    state := AddMissingLoop(state, missing, layout);
    sections := Filter(HasChildren, state.sections);
  }

  /** The module loop: each sorted record placed in turn. */
  method AddModulesLoop(sortedModules: seq<ModuleRecord>, entryFilePath: Option<AbsPath>, layout: Layout)
    returns (state: TreeState)
    ensures ValidState(state)
    ensures state == AddModules(InitialState(), sortedModules, entryFilePath, layout)
  {
    state := InitialState();
    for i := 0 to |sortedModules|
      invariant ValidState(state)
      invariant state == AddModules(InitialState(), sortedModules[..i], entryFilePath, layout)
    {
      assert sortedModules[..i + 1][..i] == sortedModules[..i];
      state := AddModule(state, sortedModules[i], entryFilePath, layout);
    }
    assert sortedModules[..|sortedModules|] == sortedModules;
  }

  /** The missing loop: a set of the keys seen so far decides which entries are inserted. */
  method AddMissingLoop(state0: TreeState, missing: seq<Pipeline.MissingReport>, layout: Layout)
    returns (state: TreeState)
    requires ValidState(state0)
    ensures ValidState(state)
    ensures state == AddMissingItems(state0, missing, layout)
  {
    state := state0;
    var missingSeen: set<string> := {};
    for i := 0 to |missing|
      invariant ValidState(state)
      invariant missingSeen == SeenKeys(missing[..i])
      invariant state == AddMissingItems(state0, missing[..i], layout)
    {
      assert missing[..i + 1][..i] == missing[..i];
      var key := Pipeline.MissingNameOf(missing[i]);
      if key !in missingSeen {
        missingSeen := missingSeen + {key};
        state := AddMissing(state, missing[i], layout);
      }
    }
    assert missing[..|missing|] == missing;
  }

  /** When the root section has children it is the first section shown. */
  lemma RootSectionFirst(s: TreeState)
    requires ValidState(s) && HasChildren(s.sections[0])
    ensures |Filter(HasChildren, s.sections)| >= 1 && Filter(HasChildren, s.sections)[0] == s.sections[0]
  {
    FilterHead(HasChildren, s.sections);
  }
}
