/** Testing a solution (internal/core/test.go): for each discovered test case, run the solution with
    the `.in` file as standard input and a capture file under `.cptool/outputs` as standard output,
    then compare the capture, read through the same handle, with the `.out` file. */
module Testing {
  import opened Wrappers
  import opened Errors
  import opened Paths
  import opened FileSystems
  import opened Processes
  import opened Solutions
  import opened TestCases
  import opened Machines
  import opened Compilation
  import opened Running

  /** The directory all capture files live under. */
  function OutputRootDir(workingDirectory: Path): (r: Path)
    ensures Under(r, workingDirectory)
  {
    Join(workingDirectory, ".cptool/outputs")
  }

  /** `getOutputTarget`: the capture file of one test case of one solution in one language. */
  function OutputTarget(workingDirectory: Path, solution: Solution, testCase: TestCase): (r: Path)
    ensures Under(r, OutputRootDir(workingDirectory)) && Under(r, workingDirectory)
  {
    Join(Join(Join(OutputRootDir(workingDirectory), solution.name), solution.language.name), testCase.name)
  }

  datatype TestStep = TestStep(m: Machine, err: Option<Error>)

  /** The capture file, created empty, and the input file, which must open. */
  function Prepare(env: Env, m: Machine, solution: Solution, testCase: TestCase): (r: Result<Machine, TestStep>)
    ensures r.Ok? ==> IsFile(r.value.fs, OutputTarget(env.workingDirectory, solution, testCase))
    ensures r.Ok? ==> r.value.fs[OutputTarget(env.workingDirectory, solution, testCase)].contents == []
    ensures r.Ok? ==> testCase.inputPath in r.value.fs && r.value.log == m.log && r.value.report == m.report
    ensures r.Err? ==> r.error.err.Some? && r.error.m.log == m.log && r.error.m.report == m.report
  {
    var outputFilePath := OutputTarget(env.workingDirectory, solution, testCase);
    var made := MkdirAll(m.fs, DirOf(outputFilePath), env.now);
    if made.err.Some? then Err(TestStep(m.(fs := made.fs), made.err))
    else
      var created := Create(made.fs, outputFilePath, env.now);
      if created.err.Some? then Err(TestStep(m.(fs := created.fs), created.err))
      else if testCase.inputPath !in created.fs then
        Err(TestStep(m.(fs := created.fs), Some(NotFound(testCase.inputPath))))
      else Ok(m.(fs := created.fs))
  }

  /** When the preparation goes through, and what it leaves otherwise: it goes through exactly
      when the capture's directory can be made, no directory stands where the capture goes, and
      the input file exists once the capture is created; it then leaves the capture's
      directories and an empty capture stamped `now`. A file in the way of the directory changes
      nothing; a directory where the capture goes keeps the directories made; a missing input
      keeps the capture created. */
  lemma PrepareOutcome(env: Env, m: Machine, solution: Solution, testCase: TestCase)
    ensures var r := Prepare(env, m, solution, testCase);
      var out := OutputTarget(env.workingDirectory, solution, testCase);
      var made := MkdirAll(m.fs, DirOf(out), env.now);
      var created := made.fs[out := File([], env.now)];
      && (r.Ok? <==> made.err.None? && !IsDir(made.fs, out) && testCase.inputPath in created)
      && (r.Ok? ==> r.value == m.(fs := created))
      && (made.err.Some? ==> r == Err(TestStep(m, Some(NotADirectory(DirOf(out))))))
      && (made.err.None? && IsDir(made.fs, out) ==> r == Err(TestStep(m.(fs := made.fs), Some(IsADirectory(out)))))
      && (made.err.None? && !IsDir(made.fs, out) && testCase.inputPath !in created ==>
            r == Err(TestStep(m.(fs := created), Some(NotFound(testCase.inputPath)))))
  {
  }

  /** The run of one test case: standard input from the input file, standard output into the
      capture file, both at offset 0. */
  function CaseRun(env: Env, prepared: Machine, solution: Solution, testCase: TestCase): RunStep
  {
    RunSpec(env, prepared, solution, FileAt(testCase.inputPath, 0),
            FileAt(OutputTarget(env.workingDirectory, solution, testCase), 0))
  }

  /** After the run: a failed run is returned as is; otherwise the capture at `capture` is read
      back, from offset 0 when `rewind` holds and from where the script's output left the handle
      otherwise, and compared with the expected output. A test case goes through exactly when its
      run does and both files can be read, whether or not they match. */
  function CompareCapture(run: RunStep, testCase: TestCase, capture: Path, rewind: bool): (r: TestStep)
    ensures r.err.None? <==> run.err.None? && IsFile(run.m.fs, capture) && IsFile(run.m.fs, testCase.outputPath)
    ensures run.err.Some? ==> r == TestStep(run.m, run.err)
    ensures run.err.None? && testCase.outputPath !in run.m.fs ==>
      r == TestStep(run.m, Some(NotFound(testCase.outputPath)))
    ensures r.m.fs == run.m.fs && r.m.log == run.m.log
    ensures r.err.Some? ==> r.m.report == run.m.report
    // the verdict: what is read back from the capture is exactly the expected output
    ensures r.err.None? ==>
      var actual := ReadFrom(run.m.fs, capture, if rewind then 0 else |run.wrote|).value;
      r.m.report == run.m.report + [Verdict(testCase, actual == run.m.fs[testCase.outputPath].contents)]
  {
    if run.err.Some? then TestStep(run.m, run.err)
    else if testCase.outputPath !in run.m.fs then TestStep(run.m, Some(NotFound(testCase.outputPath)))
    else
      match (ReadFrom(run.m.fs, capture, if rewind then 0 else |run.wrote|), ReadFrom(run.m.fs, testCase.outputPath, 0))
      case (Err(e), _) => TestStep(run.m, Some(e))
      case (_, Err(e)) => TestStep(run.m, Some(e))
      case (Ok(actual), Ok(expected)) =>
        TestStep(run.m.(report := run.m.report + [Verdict(testCase, actual == expected)]), None)
  }

  /** One iteration of `Test`'s loop: prepare, run, compare. The source reads the capture back
      through the handle the run script wrote through, without rewinding it (`rewind` false). */
  function TestOne(env: Env, m: Machine, solution: Solution, testCase: TestCase, rewind: bool): (r: TestStep)
    ensures r.err.None? ==> |r.m.report| == |m.report| + 1 && r.m.report[..|m.report|] == m.report
    ensures r.err.None? ==> r.m.report[|m.report|].testCase == testCase
    ensures r.err.Some? ==> r.m.report == m.report
    ensures |m.log| <= |r.m.log|
  {
    match Prepare(env, m, solution, testCase)
    case Err(failed) => failed
    case Ok(prepared) =>
      CompareCapture(CaseRun(env, prepared, solution, testCase), testCase,
                     OutputTarget(env.workingDirectory, solution, testCase), rewind)
  }

  /** A test case goes through exactly when its preparation and its run do and the capture and the
      expected output can both be read afterwards; the verdict does not enter into it. */
  lemma TestOneGoesThroughIff(env: Env, m: Machine, solution: Solution, testCase: TestCase, rewind: bool)
    ensures TestOne(env, m, solution, testCase, rewind).err.None? <==>
      && Prepare(env, m, solution, testCase).Ok?
      && var run := CaseRun(env, Prepare(env, m, solution, testCase).value, solution, testCase);
      && run.err.None?
      && IsFile(run.m.fs, OutputTarget(env.workingDirectory, solution, testCase))
      && IsFile(run.m.fs, testCase.outputPath)
  {
  }

  /** A step applied to the test cases one after another, each on the state the previous one
      left, stopping at the first error. */
  function RunAll(step: (Machine, TestCase) -> TestStep, m: Machine, cases: seq<TestCase>): TestStep
  {
    if cases == [] then TestStep(m, None)
    else
      var before := RunAll(step, m, cases[..|cases| - 1]);
      if before.err.Some? then before
      else step(before.m, cases[|cases| - 1])
  }

  /** The step reports one verdict, about its test case, when it goes through, and none otherwise. */
  ghost predicate ReportsOnce(step: (Machine, TestCase) -> TestStep)
  {
    forall m: Machine, testCase: TestCase ::
      var r := step(m, testCase);
      && (r.err.Some? ==> r.m.report == m.report)
      && (r.err.None? ==> |r.m.report| == |m.report| + 1 && r.m.report[..|m.report|] == m.report &&
                          r.m.report[|m.report|].testCase == testCase)
  }

  /** `Test`'s loop body, as a step. */
  function TestStepOf(env: Env, solution: Solution, rewind: bool): (Machine, TestCase) -> TestStep
  {
    (m: Machine, testCase: TestCase) => TestOne(env, m, solution, testCase, rewind)
  }

  /** `Test`'s loop over the test cases: the verdicts are reported in test-case order, one per
      test case until the first error, after the verdicts already reported, which are never
      revised. */
  function TestAll(env: Env, m: Machine, solution: Solution, cases: seq<TestCase>, rewind: bool): (r: TestStep)
    ensures |m.report| <= |r.m.report| <= |m.report| + |cases|
    ensures r.m.report[..|m.report|] == m.report
    ensures r.err.None? ==> |r.m.report| == |m.report| + |cases|
    ensures TestCasesOf(r.m.report[|m.report|..]) == cases[..|r.m.report| - |m.report|]
  {
    TestOneReportsOnce(env, solution, rewind);
    RunAllReportsInOrder(TestStepOf(env, solution, rewind), m, cases);
    RunAll(TestStepOf(env, solution, rewind), m, cases)
  }

  lemma TestOneReportsOnce(env: Env, solution: Solution, rewind: bool)
    ensures ReportsOnce(TestStepOf(env, solution, rewind))
  {
  }

  /** `Test`: every test case with the prefix, discovered along `walk`. */
  function TestSpec(env: Env, m: Machine, solution: Solution, prefix: string, walk: seq<Path>, rewind: bool): (r: TestStep)
    requires forall i :: 0 <= i < |walk| ==> Within(walk[i], env.workingDirectory)
    // the new verdicts are about the discovered test cases, in discovery order: all of them
    // when nothing failed, and a prefix of them otherwise
    ensures |m.report| <= |r.m.report| && r.m.report[..|m.report|] == m.report
    ensures TestCasesOf(r.m.report[|m.report|..]) <= Discover(m.fs, env.workingDirectory, walk, prefix)
    ensures r.err.None? ==> TestCasesOf(r.m.report[|m.report|..]) == Discover(m.fs, env.workingDirectory, walk, prefix)
  {
    TestAll(env, m, solution, Discover(m.fs, env.workingDirectory, walk, prefix), rewind)
  }

  /** One more test case: it runs only if all before it went through. */
  lemma RunAllNext(step: (Machine, TestCase) -> TestStep, m: Machine, cases: seq<TestCase>, i: nat)
    requires i < |cases|
    ensures var before := RunAll(step, m, cases[..i]);
      RunAll(step, m, cases[..i + 1]) == if before.err.Some? then before else step(before.m, cases[i])
  {
    assert cases[..i + 1][..i] == cases[..i];
  }

  /** The test cases a sequence of verdicts is about. */
  function TestCasesOf(verdicts: seq<Verdict>): (r: seq<TestCase>)
    ensures |r| == |verdicts|
    ensures forall i :: 0 <= i < |verdicts| ==> r[i] == verdicts[i].testCase
  {
    seq(|verdicts|, i requires 0 <= i < |verdicts| => verdicts[i].testCase)
  }

  /** With a step that reports once, the verdicts are reported in test-case order, one per test
      case until the first error, after the verdicts already reported, which are never revised. */
  lemma {:induction false} RunAllReportsInOrder(step: (Machine, TestCase) -> TestStep, m: Machine, cases: seq<TestCase>)
    requires ReportsOnce(step)
    ensures var r := RunAll(step, m, cases);
      && |m.report| <= |r.m.report| <= |m.report| + |cases|
      && r.m.report[..|m.report|] == m.report
      && (r.err.None? ==> |r.m.report| == |m.report| + |cases|)
      && TestCasesOf(r.m.report[|m.report|..]) == cases[..|r.m.report| - |m.report|]
  {
    if cases != [] {
      var n := |cases| - 1;
      assert cases[..n] + [cases[n]] == cases;
      RunAllReportsInOrder(step, m, cases[..n]);
      var before := RunAll(step, m, cases[..n]);
      var k := |before.m.report| - |m.report|;
      assert cases[..n][..k] == cases[..k];
      if before.err.None? {
        var r := step(before.m, cases[n]);
        if r.err.None? {
          ReportGrows(m.report, before.m.report, r.m.report, cases[..n], cases[n]);
        }
      }
    }
  }

  lemma ReportGrows(base: seq<Verdict>, before: seq<Verdict>, after: seq<Verdict>, cases: seq<TestCase>, testCase: TestCase)
    requires |base| <= |before| && before[..|base|] == base && TestCasesOf(before[|base|..]) == cases
    requires |after| == |before| + 1 && after[..|before|] == before && after[|before|].testCase == testCase
    ensures after[..|base|] == base
    ensures TestCasesOf(after[|base|..]) == cases + [testCase]
  {
    assert after[|base|..] == before[|base|..] + [after[|before|]];
  }

  /** The loop goes through exactly when every test case goes through on the state the ones before
      it left. */
  lemma RunAllGoesThroughIff(step: (Machine, TestCase) -> TestStep, m: Machine, cases: seq<TestCase>)
    ensures RunAll(step, m, cases).err.None? <==>
      forall i :: 0 <= i < |cases| ==> step(RunAll(step, m, cases[..i]).m, cases[i]).err.None?
  {
    if RunAll(step, m, cases).err.None? {
      forall i | 0 <= i < |cases|
        ensures step(RunAll(step, m, cases[..i]).m, cases[i]).err.None?
      {
        StepGoesThrough(step, m, cases, i);
      }
    } else {
      var i := FirstFailure(step, m, cases);
    }
  }

  /** When the loop goes through, so does each of its steps. */
  lemma StepGoesThrough(step: (Machine, TestCase) -> TestStep, m: Machine, cases: seq<TestCase>, i: nat)
    requires i < |cases| && RunAll(step, m, cases).err.None?
    ensures step(RunAll(step, m, cases[..i]).m, cases[i]).err.None?
  {
    if RunAll(step, m, cases[..i]).err.Some? {
      RunAllStopsAtError(step, m, cases, i);
    }
    if RunAll(step, m, cases[..i + 1]).err.Some? {
      RunAllStopsAtError(step, m, cases, i + 1);
    }
    RunAllNext(step, m, cases, i);
  }

  /** When the loop fails, some step fails on the state the steps before it left. */
  lemma FirstFailure(step: (Machine, TestCase) -> TestStep, m: Machine, cases: seq<TestCase>) returns (i: nat)
    requires RunAll(step, m, cases).err.Some?
    ensures i < |cases| && RunAll(step, m, cases[..i]).err.None?
    ensures step(RunAll(step, m, cases[..i]).m, cases[i]).err.Some?
  {
    var k := |cases|;
    assert cases[..k] == cases;
    assert cases[..0] == [];
    while k > 0 && RunAll(step, m, cases[..k - 1]).err.Some?
      invariant 0 <= k <= |cases|
      invariant RunAll(step, m, cases[..k]).err.Some?
    {
      k := k - 1;
    }
    i := k - 1;
    RunAllNext(step, m, cases, i);
  }

  /** `Test` goes through exactly when each test case does, on the state the ones before it left,
      whatever the verdicts. */
  lemma TestAllGoesThroughIff(env: Env, m: Machine, solution: Solution, cases: seq<TestCase>, rewind: bool)
    ensures TestAll(env, m, solution, cases, rewind).err.None? <==>
      forall i :: 0 <= i < |cases| ==>
        TestOne(env, TestAll(env, m, solution, cases[..i], rewind).m, solution, cases[i], rewind).err.None?
  {
    RunAllGoesThroughIff(TestStepOf(env, solution, rewind), m, cases);
  }

  /** Stopping at the first error: once a prefix of the test cases has failed, the remaining test
      cases are not run and change nothing. */
  lemma {:induction false} RunAllStopsAtError(step: (Machine, TestCase) -> TestStep, m: Machine, cases: seq<TestCase>, k: nat)
    requires k <= |cases|
    requires RunAll(step, m, cases[..k]).err.Some?
    ensures RunAll(step, m, cases) == RunAll(step, m, cases[..k])
    decreases |cases|
  {
    if k < |cases| {
      var n := |cases| - 1;
      assert cases[..n][..k] == cases[..k];
      RunAllStopsAtError(step, m, cases[..n], k);
    } else {
      assert cases[..k] == cases;
    }
  }

  /** Each test case's run reads the test case's input file and writes the capture file, both
      from their start, after the compilation. */
  lemma TestOneWiresStreams(env: Env, m: Machine, solution: Solution, testCase: TestCase, rewind: bool)
    requires Prepare(env, m, solution, testCase).Ok?
    requires CompileSpec(env, Prepare(env, m, solution, testCase).value, solution, false).err.None?
    ensures var compiled := CompileSpec(env, Prepare(env, m, solution, testCase).value, solution, false);
      var r := TestOne(env, m, solution, testCase, rewind);
      && |compiled.m.log| < |r.m.log|
      && r.m.log[|compiled.m.log|] == RunInvocation(env.workingDirectory, solution,
           FileAt(testCase.inputPath, 0), FileAt(OutputTarget(env.workingDirectory, solution, testCase), 0))
  {
  }

  /** The capture handle is never rewound: after the run it stands at the end of what the run
      script printed, and the comparison reads from there. Unless a script writes the capture file
      by other means, what is read is empty, so a test case is reported as matching exactly when
      its expected output is empty, whatever the program printed. */
  lemma TestOneMatchesIffExpectedEmpty(env: Env, m: Machine, solution: Solution, testCase: TestCase)
    requires NoScriptWrites(env.exec, OutputTarget(env.workingDirectory, solution, testCase))
    requires testCase.outputPath != OutputTarget(env.workingDirectory, solution, testCase)
    ensures var r := TestOne(env, m, solution, testCase, false);
      r.err.None? ==>
        && IsFile(r.m.fs, testCase.outputPath)
        && (r.m.report[|r.m.report| - 1].matched <==> r.m.fs[testCase.outputPath].contents == [])
  {
    var out := OutputTarget(env.workingDirectory, solution, testCase);
    match Prepare(env, m, solution, testCase)
    case Err(_) =>
    case Ok(prepared) =>
      var compiled := CompileSpec(env, prepared, solution, false);
      CompileKeepsCapture(env, prepared, solution, out);
      if compiled.err.None? {
        var inv := RunInvocation(env.workingDirectory, solution, FileAt(testCase.inputPath, 0), FileAt(out, 0));
        var outcome := env.exec(|compiled.m.log|, inv);
        var run := RunSpec(env, prepared, solution, FileAt(testCase.inputPath, 0), FileAt(out, 0));
        if outcome.Exited? && outcome.exitError.None? {
          assert run.m.fs == AfterProcess(compiled.m.fs, inv, outcome, env.now);
          assert out !in outcome.writes;
          assert (compiled.m.fs + outcome.writes)[out] == File([], compiled.m.fs[out].mtime);
          assert run.m.fs[out].contents == WriteAt([], 0, outcome.stdout) == outcome.stdout;
          assert ReadFrom(run.m.fs, out, |run.wrote|) == Ok([]);
        }
      }
  }

  /** Read back from its start, the capture holds what the program printed, so a test case is
      reported as matching exactly when the program printed its expected output (when no script
      writes the capture file by other means). */
  lemma TestOneMatchesIffPrinted(env: Env, m: Machine, solution: Solution, testCase: TestCase)
    requires NoScriptWrites(env.exec, OutputTarget(env.workingDirectory, solution, testCase))
    requires testCase.outputPath != OutputTarget(env.workingDirectory, solution, testCase)
    ensures var r := TestOne(env, m, solution, testCase, true);
      r.err.None? ==>
        && Prepare(env, m, solution, testCase).Ok?
        && IsFile(r.m.fs, testCase.outputPath)
        && (r.m.report[|r.m.report| - 1].matched <==>
              CaseRun(env, Prepare(env, m, solution, testCase).value, solution, testCase).wrote ==
              r.m.fs[testCase.outputPath].contents)
  {
    var out := OutputTarget(env.workingDirectory, solution, testCase);
    match Prepare(env, m, solution, testCase)
    case Err(_) =>
    case Ok(prepared) =>
      var compiled := CompileSpec(env, prepared, solution, false);
      CompileKeepsCapture(env, prepared, solution, out);
      if compiled.err.None? {
        var inv := RunInvocation(env.workingDirectory, solution, FileAt(testCase.inputPath, 0), FileAt(out, 0));
        var outcome := env.exec(|compiled.m.log|, inv);
        var run := CaseRun(env, prepared, solution, testCase);
        if outcome.Exited? && outcome.exitError.None? {
          assert run.m.fs == AfterProcess(compiled.m.fs, inv, outcome, env.now);
          assert out !in outcome.writes;
          assert (compiled.m.fs + outcome.writes)[out] == File([], compiled.m.fs[out].mtime);
          assert run.m.fs[out].contents == WriteAt([], 0, outcome.stdout) == outcome.stdout;
          assert ReadFrom(run.m.fs, out, 0) == Ok(run.wrote);
        }
      }
  }

  /** A compilation leaves an empty capture file empty when no script writes it. */
  lemma CompileKeepsCapture(env: Env, m: Machine, solution: Solution, out: Path)
    requires NoScriptWrites(env.exec, out)
    requires IsFile(m.fs, out) && m.fs[out].contents == []
    ensures var compiled := CompileSpec(env, m, solution, false);
      IsFile(compiled.m.fs, out) && compiled.m.fs[out].contents == []
  {
    var dir := CompiledDirectory(env.workingDirectory, solution, false);
    var made := MkdirAll(m.fs, dir, env.now).fs;
    assert made[out] == m.fs[out];
    var compiled := CompileSpec(env, m, solution, false);
    if |compiled.m.log| == |m.log| + 1 {
      var inv := compiled.m.log[|m.log|];
      var outcome := env.exec(|m.log|, inv);
      assert outcome.Exited? ==> out !in outcome.writes;
    }
  }
}
