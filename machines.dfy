/** The state the tool's commands act on, and the environment they run in. */
module Machines {
  import opened Wrappers
  import opened Paths
  import opened FileSystems
  import opened Processes
  import opened TestCases

  /** What `Test` reports for one test case: whether the program's output matched the expected output. */
  datatype Verdict = Verdict(testCase: TestCase, matched: bool)

  /** What a command may observe but not change: the working directory, the executor's answers and
      the current time. */
  datatype Env = Env(workingDirectory: Path, exec: Executor, now: Time)

  /** What a command changes: the filesystem, the scripts it has invoked, and the verdicts reported. */
  datatype Machine = Machine(fs: FileSystem, log: seq<Invocation>, report: seq<Verdict>)

  datatype Executed = Executed(m: Machine, outcome: Outcome)

  /** One script invocation: it is appended to the log, the executor answers it according to its
      position in the log, and its effects reach the filesystem. */
  function Execute(env: Env, m: Machine, inv: Invocation): (r: Executed)
    ensures r.outcome == env.exec(|m.log|, inv)
    ensures r.m.log == m.log + [inv] && r.m.report == m.report
    ensures r.m.fs == AfterProcess(m.fs, inv, r.outcome, env.now)
  {
    var outcome := env.exec(|m.log|, inv);
    Executed(Machine(AfterProcess(m.fs, inv, outcome, env.now), m.log + [inv], m.report), outcome)
  }
}
