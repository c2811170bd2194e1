/** Slash-separated paths as strings, with the few pieces of Go's `path` and `path/filepath`
    that the core relies on: joining, the base name, the parent directory and the extension. */
module Paths {
  import opened Wrappers

  type Path = string

  /** `path.Join(dir, name)` for a clean directory and a clean relative name: one separator between them. */
  function Join(dir: Path, name: string): Path
  {
    dir + "/" + name
  }

  /** `path.Join(dir, name)` for a directory that may end in one separator (as "/etc/cptool/" does):
      the separator is not doubled. */
  function JoinClean(dir: Path, name: string): (r: Path)
    ensures r == if dir != "" && dir[|dir| - 1] == '/' then Join(dir[..|dir| - 1], name) else Join(dir, name)
  {
    if dir != "" && dir[|dir| - 1] == '/' then dir + name else Join(dir, name)
  }

  /** `p` lies strictly inside the directory `root`. */
  predicate Under(p: Path, root: Path)
  {
    root + "/" <= p
  }

  /** `p` is `root` itself or lies inside it: the subtree `RemoveAll(root)` deletes and `Walk(root)` visits. */
  predicate Within(p: Path, root: Path)
  {
    p == root || Under(p, root)
  }

  /** The position of the last `c` among the first `i` characters of `s`. */
  function LastIndexOf(s: string, c: char, i: nat): (r: Option<nat>)
    requires i <= |s|
    ensures r.Some? ==> r.value < i && s[r.value] == c && forall j :: r.value < j < i ==> s[j] != c
    ensures r.None? ==> forall j :: 0 <= j < i ==> s[j] != c
  {
    if i == 0 then None
    else if s[i - 1] == c then Some(i - 1)
    else LastIndexOf(s, c, i - 1)
  }

  /** The last `c` below `i` is at `k` when `s[k]` is `c` and nothing between them is. */
  lemma {:induction false} LastIndexOfIs(s: string, c: char, i: nat, k: nat)
    requires k < i <= |s| && s[k] == c
    requires forall j :: k < j < i ==> s[j] != c
    ensures LastIndexOf(s, c, i) == Some(k)
    decreases i
  {
    if i - 1 != k {
      LastIndexOfIs(s, c, i - 1, k);
    }
  }

  /** `filepath.Base`: the final element of a path (what `os.FileInfo.Name()` reports). */
  function BaseName(p: Path): string
  {
    match LastIndexOf(p, '/', |p|)
    case None => p
    case Some(k) => p[k + 1..]
  }

  /** `filepath.Dir`: everything before the final separator. */
  function DirOf(p: Path): Path
  {
    match LastIndexOf(p, '/', |p|)
    case None => "."
    case Some(k) => if k == 0 then "/" else p[..k]
  }

  /** Joining a non-empty directory with a name free of separators can be undone by `DirOf` and `BaseName`. */
  lemma JoinSplits(dir: Path, name: string)
    requires dir != "" && '/' !in name
    ensures DirOf(Join(dir, name)) == dir
    ensures BaseName(Join(dir, name)) == name
  {
    var p := Join(dir, name);
    assert forall j :: |dir| < j < |p| ==> p[j] == name[j - |dir| - 1];
    assert forall j :: |dir| < j < |p| ==> p[j] != '/' by {
      forall j | |dir| < j < |p| ensures p[j] != '/' {
        assert p[j] == name[j - |dir| - 1] && name[j - |dir| - 1] in name;
      }
    }
    LastIndexOfIs(p, '/', |p|, |dir|);
    assert p[..|dir|] == dir;
    assert p[|dir| + 1..] == name;
  }

  /** The scan of `filepath.Ext` over the first `i` characters, from the end: the position of the
      last `.` that no separator follows. */
  function ExtIndex(p: Path, i: nat): (r: Option<nat>)
    requires i <= |p|
    ensures r.Some? ==> r.value < i && p[r.value] == '.'
    ensures r.Some? ==> forall j :: r.value < j < i ==> p[j] != '/' && p[j] != '.'
  {
    if i == 0 || p[i - 1] == '/' then None
    else if p[i - 1] == '.' then Some(i - 1)
    else ExtIndex(p, i - 1)
  }

  /** `filepath.Ext`: the suffix of the final element starting at its last `.`, or "" when it has none. */
  function Ext(p: Path): string
  {
    match ExtIndex(p, |p|)
    case None => ""
    case Some(k) => p[k..]
  }

  predicate HasSuffix(s: string, suffix: string)
  {
    |suffix| <= |s| && s[|s| - |suffix|..] == suffix
  }

  /** `filepath.Ext(p) == ".in"` holds exactly for the paths that end in ".in". */
  lemma {:induction false} ExtIsInIffSuffix(p: Path)
    ensures Ext(p) == ".in" <==> HasSuffix(p, ".in")
  {
    var n := |p|;
    if HasSuffix(p, ".in") {
      assert p[n - 3..] == ".in";
      assert p[n - 1] == 'n' && p[n - 2] == 'i' && p[n - 3] == '.';
      assert ExtIndex(p, n) == ExtIndex(p, n - 1) == ExtIndex(p, n - 2) == Some(n - 3);
    }
    if Ext(p) == ".in" {
      var k := ExtIndex(p, n).value;
      assert p[k..] == ".in";
      assert k == n - 3;
    }
  }
}
