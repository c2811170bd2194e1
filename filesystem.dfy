/** The filesystem the core works over (afero.Fs in the source): a map from path to entry. Every
    operation the core performs on it is a function from the old map to the new one. */
module FileSystems {
  import opened Wrappers
  import opened Errors
  import opened Paths

  newtype Byte = b: int | 0 <= b < 256
  type Bytes = seq<Byte>

  /** A modification time; only its order matters (`time.Time.After`). */
  type Time = int

  datatype Entry = File(contents: Bytes, mtime: Time) | Dir(mtime: Time)

  type FileSystem = map<Path, Entry>

  /** `Stat` succeeds and the entry is not a directory. */
  predicate IsFile(fs: FileSystem, p: Path)
  {
    p in fs && fs[p].File?
  }

  /** `Stat` succeeds and the entry is a directory (`afero.DirExists`). */
  predicate IsDir(fs: FileSystem, p: Path)
  {
    p in fs && fs[p].Dir?
  }

  /** The directories `MkdirAll(p)` needs: every prefix of `p` that ends at a separator, and `p` itself. */
  function Ancestors(p: Path): (r: set<Path>)
    ensures p != "" ==> p in r
    ensures forall q :: q in r ==> |q| <= |p|
  {
    assert p != "" ==> p == p[..|p|];
    set i | 0 < i <= |p| && (i == |p| || p[i] == '/') :: p[..i]
  }

  datatype FsResult = FsResult(fs: FileSystem, err: Option<Error>)

  /** `MkdirAll(p)`: fails when a regular file stands where a directory is needed, and otherwise
      creates, stamped `now`, every missing directory on the way to `p`. */
  function MkdirAll(fs: FileSystem, p: Path, now: Time): (r: FsResult)
    ensures r.err.None? <==> forall q :: q in Ancestors(p) ==> !IsFile(fs, q)
    ensures r.err.Some? ==> r.fs == fs && r.err == Some(NotADirectory(p))
    ensures r.err.None? ==> forall q :: q in Ancestors(p) ==> IsDir(r.fs, q)
    ensures forall q :: q in fs ==> q in r.fs && r.fs[q] == fs[q]
    ensures forall q :: q in r.fs && q !in fs ==> q in Ancestors(p)
  {
    if exists q :: q in Ancestors(p) && IsFile(fs, q) then FsResult(fs, Some(NotADirectory(p)))
    else FsResult(fs + map q | q in Ancestors(p) && q !in fs :: Dir(now), None)
  }

  /** Once `MkdirAll(p)` has succeeded, calling it again changes nothing. */
  lemma MkdirAllIdempotent(fs: FileSystem, p: Path, now: Time, later: Time)
    requires MkdirAll(fs, p, now).err.None?
    ensures MkdirAll(MkdirAll(fs, p, now).fs, p, later) == FsResult(MkdirAll(fs, p, now).fs, None)
  {
    var fs1 := MkdirAll(fs, p, now).fs;
    var added := map q | q in Ancestors(p) && q !in fs1 :: Dir(later);
    assert added == map[];
    assert fs1 + added == fs1;
  }

  /** `RemoveAll(root)`: the entry at `root` and everything inside it disappear. */
  function RemoveAll(fs: FileSystem, root: Path): (r: FileSystem)
    ensures forall q :: q in r <==> q in fs && !Within(q, root)
    ensures forall q :: q in r ==> r[q] == fs[q]
  {
    map q | q in fs && !Within(q, root) :: fs[q]
  }

  /** `Create(p)`: truncates or creates a regular file; a directory in the way is an error. */
  function Create(fs: FileSystem, p: Path, now: Time): (r: FsResult)
    ensures r.err.None? <==> !IsDir(fs, p)
    ensures r.err.None? ==> r.fs == fs[p := File([], now)]
    ensures r.err.Some? ==> r.fs == fs && r.err == Some(IsADirectory(p))
  {
    if IsDir(fs, p) then FsResult(fs, Some(IsADirectory(p)))
    else FsResult(fs[p := File([], now)], None)
  }

  /** A write of `data` at byte `offset` of `c`: overwrites, extends, and zero-fills a gap. */
  function WriteAt(c: Bytes, offset: nat, data: Bytes): (r: Bytes)
    ensures |r| == if offset + |data| < |c| then |c| else offset + |data|
    ensures r[offset..offset + |data|] == data
    ensures forall j :: 0 <= j < offset && j < |c| ==> r[j] == c[j]
    ensures forall j :: |c| <= j < offset ==> r[j] == 0
    ensures forall j :: offset + |data| <= j < |c| ==> r[j] == c[j]
  {
    if offset <= |c| then
      c[..offset] + data + (if offset + |data| < |c| then c[offset + |data|..] else [])
    else
      c + seq(offset - |c|, _ => 0 as Byte) + data
  }

  /** What reading an open file from `offset` to its end yields; a directory or a vanished file
      cannot be read. */
  function ReadFrom(fs: FileSystem, p: Path, offset: nat): (r: Result<Bytes, Error>)
    ensures r.Ok? <==> IsFile(fs, p)
    ensures r.Ok? && offset <= |fs[p].contents| ==> r.value == fs[p].contents[offset..]
    ensures r.Ok? && offset >= |fs[p].contents| ==> r.value == []
  {
    if !IsFile(fs, p) then Err(ReadFailed(p))
    else if offset <= |fs[p].contents| then Ok(fs[p].contents[offset..])
    else Ok([])
  }

  /** `walk` lists what a depth-first walk from `root` visits: each path once, `root` or a present
      entry inside it, and every present entry inside `root`. The walk's order is the walker's own. */
  ghost predicate IsWalk(fs: FileSystem, root: Path, walk: seq<Path>)
  {
    && (forall i, j :: 0 <= i < j < |walk| ==> walk[i] != walk[j])
    && (forall i :: 0 <= i < |walk| ==> walk[i] == root || (Under(walk[i], root) && walk[i] in fs))
    && (forall q :: q in fs && Under(q, root) ==> q in walk)
  }

  /** An open file (`afero.File`): the path it was opened at and its current read/write offset,
      which reads and writes through the handle advance. */
  class OpenFile {
    const path: Path
    var offset: nat

    constructor (path: Path)
      ensures this.path == path && offset == 0
    {
      this.path := path;
      offset := 0;
    }
  }
}
