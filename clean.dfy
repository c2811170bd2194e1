/** Cleaning the cache (internal/core/clean.go): the compiled programs and the captured outputs,
    each removed only when it is a directory. */
module Cleaning {
  import opened Paths
  import opened FileSystems
  import opened Compilation
  import opened Testing

  /** `RemoveAll(root)` when `root` is a directory, and nothing otherwise. */
  function RemoveDir(fs: FileSystem, root: Path): FileSystem
  {
    if IsDir(fs, root) then RemoveAll(fs, root) else fs
  }

  /** `CleanCacheDirectory`: the compilation root first, then the output root. */
  function Clean(workingDirectory: Path, fs: FileSystem): (r: FileSystem)
    ensures forall q :: q in r ==> q in fs && r[q] == fs[q]
  {
    RemoveDir(RemoveDir(fs, CompilationRootDir(workingDirectory)), OutputRootDir(workingDirectory))
  }

  /** The two cache roots are disjoint: neither lies within the other. */
  lemma CacheRootsDisjoint(workingDirectory: Path, q: Path)
    ensures !(Within(q, CompilationRootDir(workingDirectory)) && Within(q, OutputRootDir(workingDirectory)))
  {
    var c := CompilationRootDir(workingDirectory);
    var o := OutputRootDir(workingDirectory);
    var w := |workingDirectory|;
    assert c[w + 9] == 's' && o[w + 9] == 'o';
    assert Within(q, c) ==> c <= q && q[w + 9] == 's';
    assert Within(q, o) ==> o <= q && q[w + 9] == 'o';
  }

  /** What `CleanCacheDirectory` removes: exactly the entries within a cache root that was a
      directory; everything else is left as it was. */
  lemma CleanRemoves(workingDirectory: Path, fs: FileSystem)
    ensures var c := CompilationRootDir(workingDirectory);
      var o := OutputRootDir(workingDirectory);
      forall q :: q in Clean(workingDirectory, fs) <==>
        q in fs && !(IsDir(fs, c) && Within(q, c)) && !(IsDir(fs, o) && Within(q, o))
  {
    var c := CompilationRootDir(workingDirectory);
    var o := OutputRootDir(workingDirectory);
    CacheRootsDisjoint(workingDirectory, o);
    assert IsDir(RemoveDir(fs, c), o) == IsDir(fs, o);
  }

  /** After cleaning, neither cache root is a directory and nothing lies inside one that was. */
  lemma CleanEmptiesCaches(workingDirectory: Path, fs: FileSystem)
    ensures var r := Clean(workingDirectory, fs);
      && !IsDir(r, CompilationRootDir(workingDirectory)) && !IsDir(r, OutputRootDir(workingDirectory))
      && (IsDir(fs, CompilationRootDir(workingDirectory)) ==>
            forall q :: q in r ==> !Within(q, CompilationRootDir(workingDirectory)))
      && (IsDir(fs, OutputRootDir(workingDirectory)) ==>
            forall q :: q in r ==> !Within(q, OutputRootDir(workingDirectory)))
  {
    CleanRemoves(workingDirectory, fs);
    CacheRootsDisjoint(workingDirectory, CompilationRootDir(workingDirectory));
    CacheRootsDisjoint(workingDirectory, OutputRootDir(workingDirectory));
  }

  /** Cleaning twice is cleaning once. */
  lemma CleanIdempotent(workingDirectory: Path, fs: FileSystem)
    ensures Clean(workingDirectory, Clean(workingDirectory, fs)) == Clean(workingDirectory, fs)
  {
    var r := Clean(workingDirectory, fs);
    CleanEmptiesCaches(workingDirectory, fs);
    CleanRemoves(workingDirectory, r);
  }
}
