/** The tool object (`CPTool`, internal/core/main.go) and its commands: the loaded language
    registry, the filesystem it works on, and what the commands have invoked and reported. */
module Tool {
  import opened Wrappers
  import opened Errors
  import opened Paths
  import opened FileSystems
  import opened Processes
  import opened Languages
  import opened Configuration
  import opened Solutions
  import opened TestCases
  import opened Machines
  import opened Compilation
  import opened Running
  import opened Testing
  import opened Cleaning

  /** The stream an optional open file stands for. */
  function StreamOf(handle: OpenFile?): Stream
    reads handle
  {
    if handle == null then NoStream else FileAt(handle.path, handle.offset)
  }

  class CPTool {
    const workingDirectory: Path
    const exec: Executor
    var clock: Time
    var languages: map<string, Language>
    var fs: FileSystem
    var log: seq<Invocation>
    var report: seq<Verdict>

    /** Every language is registered under its own name. */
    ghost predicate Valid()
      reads this
    {
      forall k :: k in languages ==> languages[k].name == k
    }

    function Env(): Env
      reads this
    {
      Machines.Env(workingDirectory, exec, clock)
    }

    function State(): Machine
      reads this
    {
      Machine(fs, log, report)
    }

    /** `New`: no language is loaded yet. */
    constructor (workingDirectory: Path, exec: Executor, fs: FileSystem, clock: Time)
      ensures Valid()
      ensures this.workingDirectory == workingDirectory && this.exec == exec
      ensures this.fs == fs && this.clock == clock
      ensures languages == map[] && log == [] && report == []
    {
      this.workingDirectory := workingDirectory;
      this.exec := exec;
      this.fs := fs;
      this.clock := clock;
      languages := map[];
      log := [];
      report := [];
    }

    /** `Bootstrap`: loads the registry `GetAllLanguages` builds from the `langs` directories. */
    method Bootstrap(decode: ConfDecoder, cwd: Option<Path>, home: Option<Path>, walks: seq<seq<Path>>)
      requires |walks| == |ConfigurationPaths(cwd, home)|
      requires forall i :: 0 <= i < |walks| && IsDir(fs, LanguagesDirectories(cwd, home)[i]) ==>
        IsWalk(fs, LanguagesDirectories(cwd, home)[i], walks[i])
      modifies this`languages
      ensures Valid()
      ensures languages == Register(fs, decode, Candidates(fs, LanguagesDirectories(cwd, home), walks))
    {
      var _, langMap := GetAllLanguages(fs, decode, cwd, home, walks);
      languages := langMap;
    }

    /** One script invocation through the executor. */
    method Execute(inv: Invocation) returns (outcome: Outcome)
      modifies this`fs, this`log
      ensures Executed(State(), outcome) == Machines.Execute(Env(), old(State()), inv)
    {
      outcome := exec(|log|, inv);
      fs := AfterProcess(fs, inv, outcome, clock);
      log := log + [inv];
    }

    method GetLanguageByName(name: string) returns (r: Result<Language, Error>)
      requires Valid()
      ensures r == Languages.GetLanguageByName(languages, name)
    {
      if name in languages {
        return Ok(languages[name]);
      }
      return Err(NoSuchLanguage);
    }

    method GetSolution(name: string, language: Language) returns (r: Result<Solution, Error>)
      ensures r == Solutions.GetSolution(workingDirectory, fs, name, language)
    {
      var solutionPath := Join(workingDirectory, name + "." + language.extension);
      if solutionPath !in fs || fs[solutionPath].Dir? {
        return Err(NoSuchSolution);
      }
      return Ok(Solution(name, language, solutionPath, fs[solutionPath].mtime));
    }

    /** `Compile`. */
    method Compile(solution: Solution, debug: bool) returns (result: CompilationResult, err: Option<Error>)
      modifies this`fs, this`log
      ensures CompileStep(State(), result, err) == CompileSpec(Env(), old(State()), solution, debug)
    {
      var language := solution.language;
      if debug && !language.debuggable {
        return NoResult, Some(LanguageNotDebuggable);
      }
      var targetDir := CompiledDirectory(workingDirectory, solution, debug);
      fs := MkdirAll(fs, targetDir, clock).fs;

      var targetPath := CompiledTarget(workingDirectory, solution, debug);
      if targetPath in fs && fs[targetPath].mtime > solution.lastUpdated {
        return CompilationResult(true, targetPath, []), None;
      }

      var commandPath := language.compileScript;
      if debug {
        commandPath := language.debugScript;
      }
      var outcome := Execute(Invocation(commandPath, [solution.path, targetPath], NoStream, NoStream));
      if outcome.StartFailed? {
        return NoResult, Some(ExecFailed(outcome.message));
      }
      if outcome.exitError.Some? {
        return CompilationResult(false, "", outcome.stderr), Some(ExecFailed(outcome.exitError.value));
      }
      return CompilationResult(false, targetPath, []), None;
    }

    /** `CompileByName`: the language and the solution are looked up first. */
    method CompileByName(languageName: string, solutionName: string, debug: bool)
      returns (result: CompilationResult, err: Option<Error>)
      requires Valid()
      modifies this`fs, this`log
      ensures languageName !in languages ==>
        result == NoResult && err == Some(NoSuchLanguage) && State() == old(State())
      ensures (languageName in languages &&
               !IsFile(old(fs), SolutionPath(workingDirectory, solutionName, languages[languageName]))) ==>
        result == NoResult && err == Some(NoSuchSolution) && State() == old(State())
      ensures (languageName in languages &&
               IsFile(old(fs), SolutionPath(workingDirectory, solutionName, languages[languageName]))) ==>
        CompileStep(State(), result, err) == CompileSpec(Env(), old(State()),
          Solutions.GetSolution(workingDirectory, old(fs), solutionName, languages[languageName]).value, debug)
    {
      var language := GetLanguageByName(languageName);
      if language.Err? {
        return NoResult, Some(language.error);
      }
      var solution := GetSolution(solutionName, language.value);
      if solution.Err? {
        return NoResult, Some(solution.error);
      }
      result, err := Compile(solution.value, debug);
    }

    /** `Run`: the run script's standard streams are the given open files, if any; what it prints
        advances the offset of the file attached to its standard output. */
    method Run(solution: Solution, stdin: OpenFile?, stdout: OpenFile?) returns (err: Option<Error>)
      modifies this`fs, this`log, stdout
      ensures var r := RunSpec(Env(), old(State()), solution, old(StreamOf(stdin)), old(StreamOf(stdout)));
        && State() == r.m && err == r.err
        && (stdout != null ==> stdout.offset == old(stdout.offset) + |r.wrote|)
    {
      var targetPath := CompiledTarget(workingDirectory, solution, false);
      var _, compileErr := Compile(solution, false);
      if compileErr.Some? {
        return compileErr;
      }
      var outcome := Execute(Invocation(solution.language.runScript, [targetPath], StreamOf(stdin), StreamOf(stdout)));
      if outcome.StartFailed? {
        return Some(ExecFailed(outcome.message));
      }
      if stdout != null {
        stdout.offset := stdout.offset + |outcome.stdout|;
      }
      if outcome.exitError.Some? {
        return Some(ExecFailed(outcome.exitError.value));
      }
      return None;
    }

    /** `RunByName`: runs with the tool's own console as the streams. */
    method RunByName(languageName: string, solutionName: string) returns (err: Option<Error>)
      requires Valid()
      modifies this`fs, this`log
      ensures languageName !in languages ==> err == Some(NoSuchLanguage) && State() == old(State())
      ensures (languageName in languages &&
               !IsFile(old(fs), SolutionPath(workingDirectory, solutionName, languages[languageName]))) ==>
        err == Some(NoSuchSolution) && State() == old(State())
      ensures (languageName in languages &&
               IsFile(old(fs), SolutionPath(workingDirectory, solutionName, languages[languageName]))) ==>
        var r := RunSpec(Env(), old(State()),
          Solutions.GetSolution(workingDirectory, old(fs), solutionName, languages[languageName]).value,
          NoStream, NoStream);
        State() == r.m && err == r.err
    {
      var language := GetLanguageByName(languageName);
      if language.Err? {
        return Some(language.error);
      }
      var solution := GetSolution(solutionName, language.value);
      if solution.Err? {
        return Some(solution.error);
      }
      err := Run(solution.value, null, null);
    }

    /** `getAllTestCaseWithPrefix`, along the walk of the working directory. */
    method GetAllTestCasesWithPrefix(prefix: string, walk: seq<Path>) returns (testCases: seq<TestCase>)
      requires forall i :: 0 <= i < |walk| ==> Within(walk[i], workingDirectory)
      ensures testCases == Discover(fs, workingDirectory, walk, prefix)
    {
      var fs0, wd := fs, workingDirectory;
      testCases := [];
      for i := 0 to |walk|
        invariant testCases == Discover(fs0, wd, walk[..i], prefix)
      {
        DiscoverNext(fs0, wd, walk, prefix, i);
        match Candidate(fs0, wd, walk[i], prefix)
        case Some(testCase) => testCases := testCases + [testCase];
        case None =>
      }
      assert walk[..|walk|] == walk;
    }

    /** `getTestCaseByName`: the first test case found with exactly that name, among those whose
        path starts with it. */
    method GetTestCaseByName(testcaseName: string, walk: seq<Path>) returns (r: Result<TestCase, Error>)
      requires forall i :: 0 <= i < |walk| ==> Within(walk[i], workingDirectory)
      ensures var cases := Discover(fs, workingDirectory, walk, testcaseName);
        && (r.Err? <==> forall i :: 0 <= i < |cases| ==> cases[i].name != testcaseName)
        && (r.Err? ==> r.error == NoSuchTestCase)
        && (r.Ok? ==> r.value.name == testcaseName && r.value in cases)
    {
      var testCases := GetAllTestCasesWithPrefix(testcaseName, walk);
      for i := 0 to |testCases|
        invariant forall j :: 0 <= j < i ==> testCases[j].name != testcaseName
      {
        if testCases[i].name == testcaseName {
          return Ok(testCases[i]);
        }
      }
      return Err(NoSuchTestCase);
    }

    /** The capture file, created empty, and the check that the input file can be opened. */
    method PrepareTestCase(solution: Solution, testCase: TestCase) returns (err: Option<Error>, outputFile: OpenFile?)
      modifies this`fs
      ensures Prepare(Env(), old(State()), solution, testCase) ==
        if err.None? then Ok(State()) else Err(TestStep(State(), err))
      ensures err.None? ==> outputFile != null && fresh(outputFile)
      ensures err.None? ==> outputFile.path == OutputTarget(workingDirectory, solution, testCase) && outputFile.offset == 0
    {
      var outputFilePath := OutputTarget(workingDirectory, solution, testCase);
      var made := MkdirAll(fs, DirOf(outputFilePath), clock);
      fs := made.fs;
      if made.err.Some? {
        return made.err, null;
      }
      var created := Create(fs, outputFilePath, clock);
      fs := created.fs;
      if created.err.Some? {
        return created.err, null;
      }
      outputFile := new OpenFile(outputFilePath);
      if testCase.inputPath !in fs {
        return Some(NotFound(testCase.inputPath)), outputFile;
      }
      return None, outputFile;
    }

    /** One iteration of `Test`'s loop: the capture is read back through the handle the run
        script's output went through, from where that output left it. */
    method RunTestCase(solution: Solution, testCase: TestCase) returns (err: Option<Error>)
      modifies this`fs, this`log, this`report
      ensures TestStep(State(), err) == TestOne(Env(), old(State()), solution, testCase, false)
    {
      var outputFile;
      err, outputFile := PrepareTestCase(solution, testCase);
      if err.Some? {
        return;
      }
      var inputFile := new OpenFile(testCase.inputPath);
      ghost var run := CaseRun(Env(), State(), solution, testCase);
      assert TestOne(Env(), old(State()), solution, testCase, false) ==
        CompareCapture(run, testCase, outputFile.path, false);
      err := Run(solution, inputFile, outputFile);
      if err.Some? {
        return;
      }
      err := CompareOutput(testCase, outputFile, run.wrote);
    }

    /** The end of `Test`'s loop body, after a run that went through and printed `wrote` through
        `outputFile`: the capture, read through that handle without rewinding it, against the
        expected output. */
    method CompareOutput(testCase: TestCase, outputFile: OpenFile, ghost wrote: Bytes) returns (err: Option<Error>)
      requires outputFile.offset == |wrote|
      modifies this`report
      ensures TestStep(State(), err) == CompareCapture(RunStep(old(State()), None, wrote), testCase, outputFile.path, false)
    {
      if testCase.outputPath !in fs {
        return Some(NotFound(testCase.outputPath));
      }
      var expectedOutputFile := new OpenFile(testCase.outputPath);
      var actual := ReadFrom(fs, outputFile.path, outputFile.offset);
      if actual.Err? {
        return Some(actual.error);
      }
      var expected := ReadFrom(fs, expectedOutputFile.path, expectedOutputFile.offset);
      if expected.Err? {
        return Some(expected.error);
      }
      report := report + [Verdict(testCase, actual.value == expected.value)];
      return None;
    }

    /** `Test`: runs every test case with the prefix, in discovery order, until the first error. */
    method Test(solution: Solution, testPrefix: string, walk: seq<Path>) returns (err: Option<Error>)
      requires forall i :: 0 <= i < |walk| ==> Within(walk[i], workingDirectory)
      modifies this`fs, this`log, this`report
      ensures TestStep(State(), err) == TestSpec(Env(), old(State()), solution, testPrefix, walk, false)
    {
      var testCases := GetAllTestCasesWithPrefix(testPrefix, walk);
      ghost var start := State();
      ghost var step := TestStepOf(Env(), solution, false);
      err := None;
      var i := 0;
      while i < |testCases| && err.None?
        invariant 0 <= i <= |testCases|
        invariant RunAll(step, start, testCases[..i]) == TestStep(State(), err)
      {
        RunAllNext(step, start, testCases, i);
        err := RunTestCase(solution, testCases[i]);
        i := i + 1;
      }
      if err.Some? {
        RunAllStopsAtError(step, start, testCases, i);
      } else {
        assert testCases[..i] == testCases;
      }
    }

    /** `TestByName`. */
    method TestByName(languageName: string, solutionName: string, testPrefix: string, walk: seq<Path>)
      returns (err: Option<Error>)
      requires Valid()
      requires forall i :: 0 <= i < |walk| ==> Within(walk[i], workingDirectory)
      modifies this`fs, this`log, this`report
      ensures languageName !in languages ==> err == Some(NoSuchLanguage) && State() == old(State())
      ensures (languageName in languages &&
               !IsFile(old(fs), SolutionPath(workingDirectory, solutionName, languages[languageName]))) ==>
        err == Some(NoSuchSolution) && State() == old(State())
      ensures (languageName in languages &&
               IsFile(old(fs), SolutionPath(workingDirectory, solutionName, languages[languageName]))) ==>
        TestStep(State(), err) == TestSpec(Env(), old(State()),
          Solutions.GetSolution(workingDirectory, old(fs), solutionName, languages[languageName]).value,
          testPrefix, walk, false)
    {
      var language := GetLanguageByName(languageName);
      if language.Err? {
        return Some(language.error);
      }
      var solution := GetSolution(solutionName, language.value);
      if solution.Err? {
        return Some(solution.error);
      }
      err := Test(solution.value, testPrefix, walk);
    }

    /** `CleanCacheDirectory`. */
    method CleanCacheDirectory() returns (err: Option<Error>)
      modifies this`fs
      ensures fs == Clean(workingDirectory, old(fs)) && err.None?
    {
      var compileDir := CompilationRootDir(workingDirectory);
      if IsDir(fs, compileDir) {
        fs := RemoveAll(fs, compileDir);
      }
      var outputDir := OutputRootDir(workingDirectory);
      if IsDir(fs, outputDir) {
        fs := RemoveAll(fs, outputDir);
      }
      return None;
    }
  }
}
