/** Compilation (internal/core/compile.go): a solution is compiled by its language's compile
    script (or debugcompile script) into a per-solution, per-language directory under
    `.cptool/solutions`, unless an artifact newer than the solution is already there. */
module Compilation {
  import opened Wrappers
  import opened Errors
  import opened Paths
  import opened FileSystems
  import opened Processes
  import opened Languages
  import opened Solutions
  import opened Machines

  /** The outcome of `Compile`; the source's `Duration` is left out. */
  datatype CompilationResult = CompilationResult(skipped: bool, targetPath: Path, errorMessage: Bytes)

  /** The zero `CompilationResult{}` returned with most errors. */
  const NoResult := CompilationResult(false, "", [])

  /** `GetCompilationRootDir`. */
  function CompilationRootDir(workingDirectory: Path): (r: Path)
    ensures Under(r, workingDirectory)
  {
    Join(workingDirectory, ".cptool/solutions")
  }

  /** `getCompiledDirectory`: the debug flag does not change the directory. */
  function CompiledDirectory(workingDirectory: Path, solution: Solution, debug: bool): (r: Path)
    ensures Under(r, CompilationRootDir(workingDirectory)) && Under(r, workingDirectory)
  {
    Join(Join(CompilationRootDir(workingDirectory), solution.name), solution.language.name)
  }

  /** `getCompiledTarget`: `program`, or `program_debug` for a debug build. */
  function CompiledTarget(workingDirectory: Path, solution: Solution, debug: bool): (r: Path)
    ensures Under(r, CompiledDirectory(workingDirectory, solution, debug))
    ensures Under(r, CompilationRootDir(workingDirectory))
  {
    Join(CompiledDirectory(workingDirectory, solution, debug), if debug then "program_debug" else "program")
  }

  /** The script a compilation runs. */
  function CompileScript(solution: Solution, debug: bool): Path
  {
    if debug then solution.language.debugScript else solution.language.compileScript
  }

  /** `path` holds an artifact built after the solution was last updated. */
  predicate Fresh(fs: FileSystem, path: Path, solution: Solution)
  {
    path in fs && fs[path].mtime > solution.lastUpdated
  }

  datatype CompileStep = CompileStep(m: Machine, result: CompilationResult, err: Option<Error>)

  /** `Compile(solution, debug)`. */
  function CompileSpec(env: Env, m: Machine, solution: Solution, debug: bool): (r: CompileStep)
    // a debug build of a language without a debugcompile script is refused before anything happens
    ensures debug && !solution.language.debuggable ==>
      r == CompileStep(m, NoResult, Some(LanguageNotDebuggable))
    // otherwise the target directory is created (its failure ignored) and the artifact is reused if fresh
    ensures (&& !(debug && !solution.language.debuggable)
             && Fresh(MkdirAll(m.fs, CompiledDirectory(env.workingDirectory, solution, debug), env.now).fs,
                      CompiledTarget(env.workingDirectory, solution, debug), solution)) ==>
      r == CompileStep(
        m.(fs := MkdirAll(m.fs, CompiledDirectory(env.workingDirectory, solution, debug), env.now).fs),
        CompilationResult(true, CompiledTarget(env.workingDirectory, solution, debug), []), None)
    // and otherwise the script runs exactly once, on the solution and the target
    ensures r.m.log == m.log || r.m.log == m.log + [Invocation(CompileScript(solution, debug),
      [solution.path, CompiledTarget(env.workingDirectory, solution, debug)], NoStream, NoStream)]
    ensures r.m.log == m.log <==> (debug && !solution.language.debuggable) || r.result.skipped
    ensures r.result.skipped ==>
      Fresh(MkdirAll(m.fs, CompiledDirectory(env.workingDirectory, solution, debug), env.now).fs,
            CompiledTarget(env.workingDirectory, solution, debug), solution)
    ensures r.m.report == m.report
    // success names the target; failure leaves no target
    ensures r.err.None? ==> r.result.targetPath == CompiledTarget(env.workingDirectory, solution, debug)
    ensures r.err.Some? ==> !r.result.skipped && r.result.targetPath == ""
    ensures r.err.None? && !r.result.skipped ==> r.result.errorMessage == []
    // the script's outcome decides the rest: a start failure, or an exit error with its error stream
    ensures r.m.log == m.log + [Invocation(CompileScript(solution, debug),
              [solution.path, CompiledTarget(env.workingDirectory, solution, debug)], NoStream, NoStream)] ==>
      var outcome := env.exec(|m.log|, r.m.log[|m.log|]);
      && (outcome.StartFailed? ==> r.result == NoResult && r.err == Some(ExecFailed(outcome.message)))
      && (outcome.Exited? && outcome.exitError.Some? ==>
            r.result == CompilationResult(false, "", outcome.stderr) && r.err == Some(ExecFailed(outcome.exitError.value)))
      && (outcome.Exited? && outcome.exitError.None? ==> r.err.None?)
      // the script runs after the target directory was made, and its effects follow
      && r.m.fs == AfterProcess(MkdirAll(m.fs, CompiledDirectory(env.workingDirectory, solution, debug), env.now).fs,
                                r.m.log[|m.log|], outcome, env.now)
  {
    if debug && !solution.language.debuggable then CompileStep(m, NoResult, Some(LanguageNotDebuggable))
    else
      var targetDir := CompiledDirectory(env.workingDirectory, solution, debug);
      var made := m.(fs := MkdirAll(m.fs, targetDir, env.now).fs);
      var targetPath := CompiledTarget(env.workingDirectory, solution, debug);
      if targetPath in made.fs && made.fs[targetPath].mtime > solution.lastUpdated then
        CompileStep(made, CompilationResult(true, targetPath, []), None)
      else
        var commandPath := if debug then solution.language.debugScript else solution.language.compileScript;
        var run := Execute(env, made, Invocation(commandPath, [solution.path, targetPath], NoStream, NoStream));
        match run.outcome
        case StartFailed(message) => CompileStep(run.m, NoResult, Some(ExecFailed(message)))
        case Exited(_, compilationError, _, exitError) =>
          if exitError.Some? then
            CompileStep(run.m, CompilationResult(false, "", compilationError), Some(ExecFailed(exitError.value)))
          else CompileStep(run.m, CompilationResult(false, targetPath, []), None)
  }

  /** The debug and the release artifact are two different files of the same directory. */
  lemma CompiledTargetsShareDirectory(workingDirectory: Path, solution: Solution)
    ensures forall debug: bool ::
      DirOf(CompiledTarget(workingDirectory, solution, debug)) == CompiledDirectory(workingDirectory, solution, false)
    ensures BaseName(CompiledTarget(workingDirectory, solution, false)) == "program"
    ensures BaseName(CompiledTarget(workingDirectory, solution, true)) == "program_debug"
    ensures CompiledTarget(workingDirectory, solution, true) != CompiledTarget(workingDirectory, solution, false)
  {
    var dir := CompiledDirectory(workingDirectory, solution, false);
    JoinSplits(dir, "program");
    JoinSplits(dir, "program_debug");
  }

  /** The target directory exists after a compilation that got past the debug check, when no
      regular file stood in its way (that error is ignored) and no script writes over it. */
  lemma CompileMakesDirectory(env: Env, m: Machine, solution: Solution, debug: bool)
    requires !(debug && !solution.language.debuggable)
    requires NoScriptWrites(env.exec, CompiledDirectory(env.workingDirectory, solution, debug))
    requires MkdirAll(m.fs, CompiledDirectory(env.workingDirectory, solution, debug), env.now).err.None?
    ensures IsDir(CompileSpec(env, m, solution, debug).m.fs, CompiledDirectory(env.workingDirectory, solution, debug))
  {
    var dir := CompiledDirectory(env.workingDirectory, solution, debug);
    var made := MkdirAll(m.fs, dir, env.now).fs;
    assert IsDir(made, dir);
    var r := CompileSpec(env, m, solution, debug);
    if r.m.log != m.log {
      var inv := r.m.log[|m.log|];
      var outcome := env.exec(|m.log|, inv);
      assert !PrintsTo(inv, dir);
      assert outcome.Exited? ==> dir !in outcome.writes;
    }
  }

  /** `MkdirAll` applied twice has the effect of applying it once, whether it failed or not. */
  lemma MkdirAllTwice(fs: FileSystem, p: Path, now: Time, later: Time)
    ensures MkdirAll(MkdirAll(fs, p, now).fs, p, later).fs == MkdirAll(fs, p, now).fs
  {
    if MkdirAll(fs, p, now).err.None? {
      MkdirAllIdempotent(fs, p, now, later);
    }
  }

  /** A skipped compilation is stable: compiling again, at any later time and whatever the
      executor would answer, skips again and changes nothing. */
  lemma CompileSkipIsStable(env: Env, env': Env, m: Machine, solution: Solution, debug: bool)
    requires env'.workingDirectory == env.workingDirectory
    requires CompileSpec(env, m, solution, debug).result.skipped
    ensures var first := CompileSpec(env, m, solution, debug);
      CompileSpec(env', first.m, solution, debug) == first
  {
    var dir := CompiledDirectory(env.workingDirectory, solution, debug);
    MkdirAllTwice(m.fs, dir, env.now, env'.now);
  }

  /** The cache: once a compilation has left an artifact newer than the solution at the target,
      the next compilation of the same solution skips the script and reuses that artifact. */
  lemma CompileReusesFreshArtifact(env: Env, env': Env, m: Machine, solution: Solution, debug: bool)
    requires env'.workingDirectory == env.workingDirectory
    requires CompileSpec(env, m, solution, debug).err.None?
    requires Fresh(CompileSpec(env, m, solution, debug).m.fs, CompiledTarget(env.workingDirectory, solution, debug), solution)
    ensures var first := CompileSpec(env, m, solution, debug);
      var second := CompileSpec(env', first.m, solution, debug);
      && second.result == CompilationResult(true, CompiledTarget(env.workingDirectory, solution, debug), [])
      && second.err.None? && second.m.log == first.m.log
  {
    var first := CompileSpec(env, m, solution, debug);
    var dir := CompiledDirectory(env.workingDirectory, solution, debug);
    var target := CompiledTarget(env.workingDirectory, solution, debug);
    assert Fresh(MkdirAll(first.m.fs, dir, env'.now).fs, target, solution);
  }
}
