/**
 * Node's POSIX `path` module on absolute paths held as segment lists: `/a/b` is `["a", "b"]`
 * and the root `/` is `[]`. `resolve` folds the segments of its arguments onto a base
 * (an absolute argument restarts from the root, `""` and `"."` are skipped, `".."` pops),
 * `relative` climbs out of the common prefix with `..` segments.
 */
module Paths {
  import opened Wrappers
  import opened Strings
  import opened JsValues

  type AbsPath = seq<string>

  /** A segment of a normalized path: never empty, `.` or `..`, and free of `/`. */
  predicate IsSegment(seg: string) {
    seg != "" && seg != "." && seg != ".." && '/' !in seg
  }

  /** What `path.resolve` produces: every segment proper. */
  predicate IsNormal(p: AbsPath) {
    forall i :: 0 <= i < |p| ==> IsSegment(p[i])
  }

  /** The string form of a path: `/` followed by the segments joined with `/`. */
  function ToString(p: AbsPath): string {
    "/" + Join(p, "/")
  }

  function IsAbsolute(s: string): bool {
    StartsWith(s, "/")
  }

  /** Apply one segment of a relative path to `base`. */
  function Step(base: AbsPath, seg: string): AbsPath {
    if seg == "" || seg == "." then base
    else if seg == ".." then (if |base| == 0 then base else base[..|base| - 1])
    else base + [seg]
  }

  /** Apply the segments left to right. */
  function Steps(base: AbsPath, segs: seq<string>): AbsPath
    decreases |segs|
  {
    if |segs| == 0 then base else Steps(Step(base, segs[0]), segs[1..])
  }

  /** `path.resolve(base, s)` for an absolute `base`. */
  function Resolve(base: AbsPath, s: string): AbsPath {
    Steps(if IsAbsolute(s) then [] else base, Split(s, '/'))
  }

  /** What `path.resolve` and `path.isAbsolute` throw for an argument that is not a string. */
  const ArgTypeError := JsError("The \"path\" argument must be of type string.", Some("ERR_INVALID_ARG_TYPE"))

  /** `path.resolve(base, v)` for a value of any type. */
  function ResolveArg(base: AbsPath, v: Json): (r: Result<AbsPath, JsError>)
    ensures r.Ok? <==> v.Str?
    ensures r.Ok? ==> r.value == Resolve(base, v.s)
    ensures r.Err? ==> r.error == ArgTypeError
  {
    if v.Str? then Ok(Resolve(base, v.s)) else Err(ArgTypeError)
  }

  lemma {:induction false} StepsNormal(base: AbsPath, segs: seq<string>)
    requires IsNormal(base)
    requires forall i :: 0 <= i < |segs| ==> '/' !in segs[i]
    ensures IsNormal(Steps(base, segs))
    decreases |segs|
  {
    if |segs| > 0 {
      StepsNormal(Step(base, segs[0]), segs[1..]);
    }
  }

  /** `path.resolve` always yields a normalized path. */
  lemma ResolveNormal(base: AbsPath, s: string)
    requires IsNormal(base)
    ensures IsNormal(Resolve(base, s))
  {
    JoinSplit(s, '/');
    StepsNormal(if IsAbsolute(s) then [] else base, Split(s, '/'));
  }

  /** Resolving the string form of a normalized path gives the path back. */
  lemma ResolveToString(base: AbsPath, p: AbsPath)
    requires IsNormal(p)
    ensures Resolve(base, ToString(p)) == p
  {
    var s := ToString(p);
    assert IsAbsolute(s);
    if |p| == 0 {
      assert s == "/";
      assert Split(s, '/') == ["", ""] by {
        assert IndexOf(s, '/') == 0;
        assert s[1..] == "";
      }
      assert Steps([], [""]) == [];
      assert Steps([], ["", ""]) == Steps([], [""]);
    } else {
      assert forall i :: 0 <= i < |p| ==> '/' !in p[i];
      SplitJoin([""] + p, '/');
      assert Join([""] + p, "/") == s by {
        assert ([""] + p)[1..] == p;
      }
      StepsAppend([], p);
    }
  }

  lemma {:induction false} StepsAppend(base: AbsPath, p: AbsPath)
    requires IsNormal(p)
    ensures Steps(base, [""] + p) == base + p
    ensures Steps(base, p) == base + p
    decreases |p|
  {
    if |p| > 0 {
      assert ([""] + p)[1..] == p;
      StepsAppend(base + [p[0]], p[1..]);
      assert base + [p[0]] + p[1..] == base + p;
    }
  }

  /** `path.join(p, seg)` for one proper segment. */
  lemma ResolveSegment(base: AbsPath, seg: string)
    requires IsSegment(seg)
    ensures Resolve(base, seg) == base + [seg]
  {
    assert seg[0] != '/';
    assert IndexOf(seg, '/') == -1;
    assert Split(seg, '/') == [seg];
    assert Steps(base, [seg]) == Steps(base + [seg], []);
  }

  /** `path.dirname` of a normalized absolute path. */
  function Dirname(p: AbsPath): AbsPath {
    if |p| == 0 then [] else p[..|p| - 1]
  }

  /** `path.basename` of a normalized absolute path (`""` for the root). */
  function Basename(p: AbsPath): string {
    if |p| == 0 then "" else p[|p| - 1]
  }

  /** The position of the last `.` in `s`, or -1. */
  function LastDot(s: string): (r: int)
    ensures -1 <= r < |s|
    ensures r >= 0 ==> s[r] == '.'
    ensures forall i :: r < i < |s| ==> s[i] != '.'
  {
    if |s| == 0 then -1
    else if s[|s| - 1] == '.' then |s| - 1
    else LastDot(s[..|s| - 1])
  }

  /**
   * `path.extname` of a basename: from the last `.` on, unless there is none, the only
   * dot that counts is the first character, or the name is `..`.
   */
  function Extname(base: string): (r: string)
    ensures r == "" || (StartsWith(r, ".") && EndsWith(base, r) && |r| < |base|)
  {
    var k := LastDot(base);
    if k <= 0 || base == ".." then "" else base[k..]
  }

  /** `path.basename(p, path.extname(p))`: the file name without its extension. */
  function Stem(p: AbsPath): (r: string)
    ensures r + Extname(Basename(p)) == Basename(p)
  {
    var b := Basename(p);
    var e := Extname(b);
    b[..|b| - |e|]
  }

  /** `${p}<suffix>`: text appended to the last segment (for the root, a new segment). */
  function AppendSuffix(p: AbsPath, suffix: string): (r: AbsPath)
    ensures |r| == if |p| == 0 then 1 else |p|
    ensures |p| > 0 ==> ToString(r) == ToString(p) + suffix
  {
    if |p| == 0 then [suffix]
    else
      JoinAppendLast(p, suffix);
      p[..|p| - 1] + [p[|p| - 1] + suffix]
  }

  lemma {:induction false} JoinAppendLast(p: seq<string>, suffix: string)
    requires |p| > 0
    ensures Join(p[..|p| - 1] + [p[|p| - 1] + suffix], "/") == Join(p, "/") + suffix
    decreases |p|
  {
    var q := p[..|p| - 1] + [p[|p| - 1] + suffix];
    if |p| > 1 {
      JoinAppendLast(p[1..], suffix);
      assert q[1..] == p[1..][..|p[1..]| - 1] + [p[1..][|p[1..]| - 1] + suffix];
    }
  }

  /** `path.relative(from, to)`: `..` once per segment of `from` past the common prefix, then the rest of `to`. */
  function Relative(from: AbsPath, to: AbsPath): string {
    var c := CommonPrefix(from, to);
    Join(seq(|from| - c, _ => "..") + to[c..], "/")
  }

  /** The length of the longest common prefix of two segment lists. */
  function CommonPrefix(a: AbsPath, b: AbsPath): (c: nat)
    ensures c <= |a| && c <= |b| && a[..c] == b[..c]
    ensures c < |a| && c < |b| ==> a[c] != b[c]
  {
    if |a| == 0 || |b| == 0 || a[0] != b[0] then 0
    else
      var c := CommonPrefix(a[1..], b[1..]);
      assert a[..c + 1] == [a[0]] + a[1..][..c];
      assert b[..c + 1] == [b[0]] + b[1..][..c];
      c + 1
  }

  predicate IsPrefix(a: AbsPath, b: AbsPath) {
    |a| <= |b| && b[..|a|] == a
  }

  lemma CommonPrefixOfPrefix(a: AbsPath, b: AbsPath)
    ensures IsPrefix(a, b) <==> CommonPrefix(a, b) == |a|
  {
  }

  /** A joined path starts with `..` exactly when its first segment does (segments non-empty). */
  lemma JoinStartsWithDots(segs: seq<string>)
    requires |segs| > 0
    requires forall i :: 0 <= i < |segs| ==> segs[i] != "" && '/' !in segs[i]
    ensures StartsWith(Join(segs, "/"), "..") <==> StartsWith(segs[0], "..")
  {
    var j := Join(segs, "/");
    if |segs| > 1 {
      assert j == segs[0] + "/" + Join(segs[1..], "/");
      if |segs[0]| == 1 {
        assert j[1] == '/';
      } else {
        assert j[..2] == segs[0][..2];
      }
    }
  }
}
