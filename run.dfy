/** Running a solution (internal/core/run.go): compile it (never in debug mode), then run the
    language's run script on the compiled program with the given standard streams. */
module Running {
  import opened Wrappers
  import opened Errors
  import opened Paths
  import opened FileSystems
  import opened Processes
  import opened Solutions
  import opened Machines
  import opened Compilation

  /** The state after `Run`, its error, and the bytes the run script printed on its standard output. */
  datatype RunStep = RunStep(m: Machine, err: Option<Error>, wrote: Bytes)

  /** The invocation of the run script. */
  function RunInvocation(workingDirectory: Path, solution: Solution, stdin: Stream, stdout: Stream): Invocation
  {
    Invocation(solution.language.runScript, [CompiledTarget(workingDirectory, solution, false)], stdin, stdout)
  }

  /** `Run(solution, stdin, stdout)`. */
  function RunSpec(env: Env, m: Machine, solution: Solution, stdin: Stream, stdout: Stream): (r: RunStep)
    // a failed compilation is returned as is, and nothing is run
    ensures CompileSpec(env, m, solution, false).err.Some? ==>
      r == RunStep(CompileSpec(env, m, solution, false).m, CompileSpec(env, m, solution, false).err, [])
    // otherwise the run script is invoked once more, after the compilation, on the non-debug target
    ensures CompileSpec(env, m, solution, false).err.None? ==>
      r.m.log == CompileSpec(env, m, solution, false).m.log +
        [RunInvocation(env.workingDirectory, solution, stdin, stdout)]
    ensures r.m.report == m.report
    // the script's start or exit error is the result; what it printed is what it wrote
    ensures CompileSpec(env, m, solution, false).err.None? ==>
      var outcome := env.exec(|CompileSpec(env, m, solution, false).m.log|,
                              RunInvocation(env.workingDirectory, solution, stdin, stdout));
      && (r.err.None? <==> outcome.Exited? && outcome.exitError.None?)
      && (outcome.StartFailed? ==> r.err == Some(ExecFailed(outcome.message)) && r.wrote == [])
      && (outcome.Exited? && outcome.exitError.Some? ==> r.err == Some(ExecFailed(outcome.exitError.value)))
      && (outcome.Exited? ==> r.wrote == outcome.stdout)
      // and the script's effects on the filesystem follow the compilation's
      && r.m.fs == AfterProcess(CompileSpec(env, m, solution, false).m.fs,
                                RunInvocation(env.workingDirectory, solution, stdin, stdout), outcome, env.now)
  {
    var targetPath := CompiledTarget(env.workingDirectory, solution, false);
    var compiled := CompileSpec(env, m, solution, false);
    if compiled.err.Some? then RunStep(compiled.m, compiled.err, [])
    else
      var run := Execute(env, compiled.m, Invocation(solution.language.runScript, [targetPath], stdin, stdout));
      match run.outcome
      case StartFailed(message) => RunStep(run.m, Some(ExecFailed(message)), [])
      case Exited(out, _, _, exitError) =>
        RunStep(run.m, if exitError.Some? then Some(ExecFailed(exitError.value)) else None, out)
  }

  /** A run never sees a debug build and never runs a stale program: it first compiles, and the
      program it runs is the one the compilation just reused or produced. */
  lemma RunCompilesFirst(env: Env, m: Machine, solution: Solution, stdin: Stream, stdout: Stream)
    requires RunSpec(env, m, solution, stdin, stdout).err.None?
    ensures var compiled := CompileSpec(env, m, solution, false);
      && compiled.err.None?
      && RunSpec(env, m, solution, stdin, stdout).m.log[|compiled.m.log|].args == [compiled.result.targetPath]
      && (compiled.result.skipped || |compiled.m.log| == |m.log| + 1)
  {
  }
}
