/** The process executor (executioner.Exec in the source), reduced to what the core observes: each
    script invocation is recorded, and its outcome is whatever the environment chooses for it. */
module Processes {
  import opened Wrappers
  import opened Paths
  import opened FileSystems

  /** What a standard stream of a script is attached to: nothing the model tracks (nil, or the tool's
      own console), or an open file of the modelled filesystem at its current offset. */
  datatype Stream = NoStream | FileAt(path: Path, offset: nat)

  /** One `exec.Command(script, args...)`, with the streams wired to it. */
  datatype Invocation = Invocation(script: Path, args: seq<string>, stdin: Stream, stdout: Stream)

  /** How an invocation ends: it could not be started (or its error stream not read), or it ran,
      printed `stdout` and `stderr`, wrote the files in `writes`, and `Wait` reported `exitError`. */
  datatype Outcome =
    | StartFailed(message: string)
    | Exited(stdout: Bytes, stderr: Bytes, writes: FileSystem, exitError: Option<string>)

  /** The environment's answer to the `n`-th invocation of a run. */
  type Executor = (nat, Invocation) -> Outcome

  /** No script writes to `path` (it may still print to it through its standard output). */
  ghost predicate NoScriptWrites(exec: Executor, path: Path)
  {
    forall n: nat, inv: Invocation :: exec(n, inv).Exited? ==> path !in exec(n, inv).writes
  }

  /** The invocation's standard output goes to the file `p`. */
  predicate PrintsTo(inv: Invocation, p: Path)
  {
    inv.stdout.FileAt? && inv.stdout.path == p
  }

  /** The filesystem after a script has run: the files it wrote, then its standard output written
      at the offset of the file attached to it. */
  function AfterProcess(fs: FileSystem, inv: Invocation, outcome: Outcome, now: Time): (r: FileSystem)
    // a script that did not start changes nothing
    ensures outcome.StartFailed? ==> r == fs
    // no entry disappears, and the only new entries are the files the script wrote
    ensures outcome.Exited? ==> forall p :: p in r <==> p in fs || p in outcome.writes
    // a path the script neither wrote nor printed to keeps its entry
    ensures outcome.Exited? ==> forall p :: p in fs && p !in outcome.writes && !PrintsTo(inv, p) ==>
      r[p] == fs[p]
    // what the script wrote lands as written, unless it is also the file its output goes to
    ensures outcome.Exited? ==> forall p :: p in outcome.writes && !PrintsTo(inv, p) ==>
      r[p] == outcome.writes[p]
    // the printed bytes overwrite the attached file from its offset on, and it is stamped `now`
    ensures outcome.Exited? && inv.stdout.FileAt? && IsFile(fs + outcome.writes, inv.stdout.path) ==>
      var before := (fs + outcome.writes)[inv.stdout.path].contents;
      && IsFile(r, inv.stdout.path)
      && r[inv.stdout.path].mtime == now
      && r[inv.stdout.path].contents == WriteAt(before, inv.stdout.offset, outcome.stdout)
    // output sent to a file that is not there, or to no file at all, leaves no trace
    ensures outcome.Exited? && !(inv.stdout.FileAt? && IsFile(fs + outcome.writes, inv.stdout.path)) ==>
      r == fs + outcome.writes
  {
    match outcome
    case StartFailed(_) => fs
    case Exited(out, _, writes, _) =>
      var written := fs + writes;
      if inv.stdout.FileAt? && IsFile(written, inv.stdout.path) then
        var f := written[inv.stdout.path];
        written[inv.stdout.path := File(WriteAt(f.contents, inv.stdout.offset, out), now)]
      else written
  }
}
