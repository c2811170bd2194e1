# cptool core, modelled in Dafny

cptool is a command-line helper for competitive programming. A *language* is a directory of
shell scripts (`compile`, `run`, optionally `debugcompile`, and an optional `lang.conf`) found under
the `langs` directory of each configuration path. A *solution* is a source file `<name>.<ext>` in
the working directory. A *test case* is a `<name>.in` file with a sibling `<name>.out` file below the
working directory. The tool:

- compiles a solution into a cache under `.cptool/solutions/<solution>/<language>/`, and skips the
  script when the cached program is newer than the source;
- runs the compiled program;
- runs it on every test case whose name starts with a prefix, capturing its output under
  `.cptool/outputs/` and comparing that capture with the expected output;
- cleans both caches.

The model works over a filesystem that is a map from path to entry (a regular file with contents and
a modification time, or a directory). The process executor is a function from the invocation's
position in the log and the invocation (script, arguments, standard streams) to an outcome the
environment chooses: the process could not be started, or it exited after printing some bytes,
writing some files and reporting an optional exit error. `Machines.Execute` performs one
invocation: it asks the executor for the outcome at the current log length, appends the invocation
to the log, and applies the outcome to the filesystem with `Processes.AfterProcess`.

Each command exists twice:

- a pure specification function over a `Machine` (filesystem, invocation log, reported verdicts)
  and an `Env` (working directory, executor, current time): `CompileSpec`, `RunSpec`, `TestOne`,
  `TestSpec` and `Clean`;
- a method of the class `Tool.CPTool`, whose fields are updated step by step as in the source, and
  whose postcondition equates the new state with the specification function applied to the old
  state.

The properties the source promises are lemmas about the specification functions.

Directory walks (`afero.Walk`, `filepath.Walk`) are an input: the sequence of visited paths, in the
walker's order. `FileSystems.IsWalk` states what a complete walk is. The TOML decoder of `lang.conf`
is an input function from the file's bytes to the decoded fields, or `None`.

Files:

- `wrappers.dfy`: Option and Result.
- `errors.dfy`: the error values.
- `paths.dfy`: joining, base name, parent directory, extension.
- `filesystem.dfy`: the filesystem and the afero operations the core uses.
- `processes.dfy`: invocations, outcomes and the executor.
- `machines.dfy`: machine state and the environment.
- `lang.dfy`: `internal/core/lang.go`.
- `common.dfy`: `internal/core/common.go` and `getLanguagesPaths`.
- `solution.dfy`: `internal/core/solution.go`.
- `testcase.dfy`: `internal/core/testcase.go`.
- `compile.dfy`: `internal/core/compile.go`.
- `run.dfy`: `internal/core/run.go`.
- `test.dfy`: `internal/core/test.go`.
- `clean.dfy`: `internal/core/clean.go`.
- `cptool.dfy`: the `CPTool` object and its methods.

The test loop compares the capture file through the same handle the program's output was written
to, and never rewinds it (internal/core/test.go:27-50). The handle is an `OpenFile` whose offset
the run advances by the bytes printed, so the comparison reads from the end of what the program
printed. `Testing.TestOne` takes a flag `rewind`. With `rewind` false it is the loop body as
written, and `Testing.TestOneMatchesIffExpectedEmpty` proves the consequence: when no script
writes the capture file other than through its standard output, a test case is reported as
matching exactly when its expected output is empty, whatever the program printed. `TestAll`,
`TestSpec` and the loop step `TestStepOf` take the same flag. The methods of `Tool.CPTool` follow the
code as written: `RunTestCase` and `Test` equal `TestOne` and `TestSpec` with `rewind` false, and
`CompareOutput` reads the capture from the offset the run left. With `rewind` true, the evidently
intended comparison from offset 0 (see "Findings"), `Testing.TestOneMatchesIffPrinted` proves that a
test case matches exactly when the program printed its expected output. The loop lemmas hold for
either value of the flag.

## Model

| member | source | states |
|---|---|---|
| Configuration.ConfigurationPaths | internal/core/common.go:10-26 | `<cwd>/.cptool` first when the working directory is known, `<home>/.cptool` next when the user is known, and `/etc/cptool/` always last; the length is 1 plus one per known directory, with no deduplication |
| Configuration.GetConfigurationPaths | internal/core/common.go:10-26 | appending the directories one by one yields exactly `ConfigurationPaths` |
| Configuration.LanguagesDirectories | internal/core/lang.go:38-45 | the system `langs` directory, always last, is `/etc/cptool/langs`; those under the working directory and the home directory come first, in that order |
| Configuration.LanguagesPaths | internal/core/lang.go:38-45 | the loop over `GetConfigurationPaths` yields exactly `LanguagesDirectories` |
| Languages.LanguageFromDirectory | internal/core/lang.go:62-104 | a non-directory gives ErrInvalidLanguageDirectory; an undecodable `lang.conf` gives ErrInvalidLanguageConfigurationFile before the scripts are checked; a directory whose configuration is fine but which lacks a regular `compile` or `run` file gives ErrInvalidLanguageDirectory; success holds iff the directory exists, the configuration decodes (or is absent), and `compile` and `run` are regular files; the name is the base name; without `lang.conf`, name = verbose name = extension; configured fields override only when non-empty; debuggable iff `debugcompile` is a regular file, with the debug script set to it or to "" |
| Languages.GetLanguageFromDirectory | internal/core/lang.go:62-104 | filling the language field by field with early returns yields exactly `LanguageFromDirectory` |
| Languages.Collect | internal/core/lang.go:115-125 | every registered language is registered under its own name |
| Languages.Register | internal/core/lang.go:107-126 | the registry built from the walked directories keys each language by its name |
| Languages.CollectNames | internal/core/lang.go:115-125 | a name is registered iff some load outcome defines a language with that name |
| Languages.CollectFirstWins | internal/core/lang.go:118-121 | under each name the registry holds the first outcome that defines it; later duplicates are ignored |
| Languages.RegisterFirstWins | internal/core/lang.go:107-126 | the first directory, in configuration-path and walk order, that defines a name supplies that name's language |
| Languages.RegisterNames | internal/core/lang.go:107-126 | a name is registered iff some walked directory defines a valid language with that name; invalid directories contribute nothing |
| Languages.RegisterSnoc | internal/core/lang.go:116-122 | one more walked directory adds its language only when it is valid and its name is new |
| Languages.CandidatesMembers | internal/core/lang.go:110-115 | a path is offered iff it was walked under a `langs` directory that exists |
| Languages.CandidatesPrefix | internal/core/lang.go:110-115 | the paths walked under the earlier `langs` directories come first |
| Languages.RegisterKeeps | internal/core/lang.go:118-121 | registering more directories never drops or replaces a registered language |
| Languages.EarlierDirectoryWins | internal/core/lang.go:108-126 | a language found under an earlier configuration directory is the one the registry keeps, whatever later directories define |
| Languages.RegisterWalk | internal/core/lang.go:115-125 | the walk callback over one `langs` directory extends the registry exactly as `Register` does over the walked paths |
| Languages.GetAllLanguages | internal/core/lang.go:107-132 | given a complete walk of each `langs` directory that exists, the map is the first-wins registry over the `langs` directories of `getLanguagesPaths` that exist, walked in order; the slice has as many elements as the map, each map value appears in it, and no two elements share a name |
| Languages.Values | internal/core/lang.go:127-131 | the slice lists every value of the map exactly once |
| Languages.GetLanguageByName | internal/core/lang.go:135-141 | Ok iff the name is registered, with the registered language; ErrNoSuchLanguage otherwise |
| Languages.WithExtension | internal/core/lang.go:144-153 | a language is in the result iff it is in the input and has the extension; empty iff none has it |
| Languages.GetLanguageByExtension | internal/core/lang.go:144-153 | the filtering loop returns exactly `WithExtension`, in input order |
| Languages.GetDefaultLanguage | internal/core/lang.go:156-162 | fails with ErrNoSuchLanguage iff there is no language; otherwise returns one of them |
| Languages.GetDefaultLanguageForExtension | internal/core/lang.go:165-173 | fails with ErrNoSuchLanguage iff no language has the extension; otherwise returns the first that has it |
| Solutions.SolutionPath | internal/core/solution.go:22 | the solution file lies inside the working directory and ends in `.<extension>` |
| Solutions.GetSolution | internal/core/solution.go:21-34 | the path is `<wd>/<name>.<extension>`; Ok iff a regular file is there, otherwise ErrNoSuchSolution; on success the name (subdirectories included) and language are the arguments and the last update is the file's modification time |
| TestCases.InputPathSplits | internal/core/testcase.go:36-44 | a walked `.in` path below the working directory is `<wd>/<name>.in`, for the name the callback cuts out |
| TestCases.Candidate | internal/core/testcase.go:35-56 | a walked path yields a test case only when it is a non-directory strictly below the working directory ending in `.in`, its relative path starts with the prefix, and `<wd>/<name>.out` is a regular file; the input path is the walked path and the output path is `<wd>/<name>.out` |
| TestCases.CandidateIff | internal/core/testcase.go:36-49 | the converse: a path below the working directory yields a test case iff those conditions hold |
| TestCases.Present | internal/core/testcase.go:50-54 | at most one test case is collected per examined path |
| TestCases.Discover | internal/core/testcase.go:32-58 | at most one test case per walked path (membership: `TestCases.DiscoverMembers`) |
| TestCases.DiscoverNext | internal/core/testcase.go:50-54 | walking one more path appends its test case, if any, at the end |
| TestCases.PresentMembers | internal/core/testcase.go:50-54 | a test case is collected iff the callback produced it for some path |
| TestCases.DiscoverMembers | internal/core/testcase.go:32-58 | a test case is discovered iff some walked path qualifies as that test case |
| TestCases.PresentKeepsNamesDistinct | internal/core/testcase.go:50-54 | collecting keeps names distinct when the produced test cases have distinct names |
| TestCases.DiscoverNamesDistinct | internal/core/testcase.go:32-58 | over a walk that visits each path once, no two discovered test cases share a name |
| TestCases.DiscoverComplete | internal/core/testcase.go:32-58 | over a complete walk, every qualifying `.in` file is discovered |
| Compilation.CompilationRootDir | internal/core/compile.go:126-129 | the compilation cache lies inside the working directory |
| Compilation.CompiledDirectory | internal/core/compile.go:131-134 | each solution's directory lies inside the compilation cache |
| Compilation.CompiledTarget | internal/core/compile.go:136-142 | the program lies inside its solution's directory, and so inside the cache |
| Compilation.CompileSpec | internal/core/compile.go:34-95 | a debug build of a non-debuggable language fails with ErrLanguageNotDebuggable and changes nothing; otherwise the target directory is created, a failure to create it being ignored; a target newer than the source is reused with Skipped and no script; otherwise the compile (or debug) script runs exactly once with (solution path, target), after the directory was made, and the filesystem is the made one with the script's effects applied; a start failure returns the zero result; an exit error returns the captured error stream, Skipped false and no target; success returns the target |
| Compilation.CompileMakesDirectory | internal/core/compile.go:36-41 | when the debug gate passes and the directory can be made, the target directory exists after compilation, whichever path compilation took, unless a script writes a file where it stands |
| Compilation.CompiledTargetsShareDirectory | internal/core/compile.go:127-142 | debug and release targets lie in the same directory, are called `program_debug` and `program`, and differ |
| Compilation.MkdirAllTwice | internal/core/compile.go:40-41 | creating the target directory again changes nothing |
| Compilation.CompileSkipIsStable | internal/core/compile.go:40-57 | after a skipped compilation, compiling again at any time and with any executor skips again and changes nothing |
| Compilation.CompileReusesFreshArtifact | internal/core/compile.go:48-57 | once a compilation leaves a target newer than the source, the next compilation reuses it without running a script |
| Running.RunSpec | internal/core/run.go:6-20 | non-debug compilation first; a compile error is returned unchanged and nothing runs; otherwise the run script is invoked once more, with the release target as its only argument and the given streams; no error iff the script started and exited cleanly; a start failure or an exit error is returned as `ExecFailed` with its message; what it printed is what it wrote, and the filesystem is the compilation's with the script's effects applied |
| Running.RunCompilesFirst | internal/core/run.go:7-13 | a successful run compiled first, and ran the program the compilation reused or produced |
| Testing.OutputRootDir | internal/core/test.go:15 | the output cache lies inside the working directory |
| Testing.OutputTarget | internal/core/test.go:14-16 | each capture file lies inside the output cache |
| Testing.Prepare | internal/core/test.go:23-37 | the capture file exists and is empty after preparation, and the input must exist; the log and the report are untouched, and failures are errors |
| Testing.PrepareOutcome | internal/core/test.go:23-37 | preparation succeeds iff the capture's directory can be made, no directory stands where the capture goes, and the input exists; the new filesystem is `MkdirAll` then `Create`; the errors are NotADirectory with nothing changed, IsADirectory with the directories kept, and NotFound for the input with the capture kept |
| Testing.CompareCapture | internal/core/test.go:38-59 | a failed run is returned as is; a missing expected output is NotFound; the step goes through iff the run did and both files can be read, whether or not they match; the verdict compares what is read back from the capture with the expected output; the filesystem and log are the run's |
| Testing.TestOne | internal/core/test.go:22-60 | one test case reports exactly one verdict, about itself, when no step fails, and none otherwise; the log only grows |
| Testing.TestOneGoesThroughIff | internal/core/test.go:22-60 | a test case goes through iff its preparation and its run do and the capture and the expected output are regular files afterwards; the verdict does not enter into it |
| Testing.TestOneReportsOnce | internal/core/test.go:22-60 | the loop body, as a step, reports once per test case that goes through |
| Testing.RunAllNext | internal/core/test.go:21-42 | the next test case runs only if every earlier one went through |
| Testing.RunAllReportsInOrder | internal/core/test.go:19-63 | verdicts are appended in test-case order, one per test case up to the first error, and one per test case when none fails; earlier verdicts are kept |
| Testing.TestAll | internal/core/test.go:19-63 | for either value of the comparison flag, verdicts are reported in test-case order, one per test case up to the first error, and one per test case when none fails; earlier verdicts are kept |
| Testing.TestSpec | internal/core/test.go:19-63 | for either value of the comparison flag, the new verdicts are about the discovered test cases in discovery order: a prefix of them, and all of them when nothing failed |
| Testing.RunAllGoesThroughIff | internal/core/test.go:21-62 | the loop goes through iff every test case goes through on the state the earlier ones left |
| Testing.StepGoesThrough | internal/core/test.go:21-62 | when the loop goes through, each of its steps did |
| Testing.FirstFailure | internal/core/test.go:21-62 | when the loop fails, some test case failed after all earlier ones went through |
| Testing.TestAllGoesThroughIff | internal/core/test.go:21-62 | `Test` returns no error iff each test case goes through on the state the earlier ones left, whatever the verdicts and the comparison flag |
| Testing.RunAllStopsAtError | internal/core/test.go:24-54 | after the first failing test case the remaining ones are not run and change nothing |
| Testing.TestOneWiresStreams | internal/core/test.go:33-38 | each run after compilation reads the test case's input file and writes the capture file, both from offset 0 |
| Testing.TestOneMatchesIffExpectedEmpty | internal/core/test.go:27-50 | as written (capture never rewound), a test case that goes through matches iff its expected output is empty, unless a script writes the capture by other means |
| Testing.TestOneMatchesIffPrinted | internal/core/test.go:27-50 | with the capture read from its start, a test case that goes through matches iff the program printed exactly its expected output, unless a script writes the capture by other means |
| Testing.CompileKeepsCapture | internal/core/test.go:27-38 | a compilation leaves the empty capture file empty when no script writes it |
| Cleaning.Clean | internal/core/clean.go:9-31 | cleaning only removes entries and never changes one |
| Cleaning.CacheRootsDisjoint | internal/core/clean.go:10-20 | the compilation root and the output root do not overlap |
| Cleaning.CleanRemoves | internal/core/clean.go:9-31 | exactly the entries within a cache root that was a directory are removed; all other paths are untouched |
| Cleaning.CleanEmptiesCaches | internal/core/clean.go:9-31 | afterwards neither cache root is a directory, and nothing remains inside a root that was one |
| Cleaning.CleanIdempotent | internal/core/clean.go:9-31 | cleaning twice is cleaning once |
| FileSystems.MkdirAll | internal/core/compile.go:41 | succeeds iff no prefix directory of the path is a regular file; on failure nothing changes; on success every prefix is a directory, existing entries are kept, and only prefixes are added |
| FileSystems.MkdirAllIdempotent | internal/core/test.go:24 | a second `MkdirAll` of the same path succeeds and changes nothing |
| FileSystems.RemoveAll | internal/core/clean.go:15 | exactly the entries within the root disappear; all others keep their values |
| FileSystems.Create | internal/core/test.go:27 | fails iff a directory is in the way; otherwise the file exists and is empty |
| FileSystems.ReadFrom | internal/core/test.go:50 | reading an open file from an offset yields the rest of a regular file, or nothing past its end |
| FileSystems.OpenFile.constructor | internal/core/test.go:27 | a freshly opened file stands at offset 0 |
| Paths.JoinSplits | internal/core/test.go:24 | the parent directory and the base name of `<dir>/<name>` are `dir` and `name` |
| Paths.ExtIsInIffSuffix | internal/core/testcase.go:43 | a path's extension is `.in` iff the path ends in `.in` |
| Processes.AfterProcess | internal/core/test.go:38 | a process that did not start changes nothing; for one that ran, no entry disappears, the only new entries are files it wrote, every other path keeps its entry, the files it wrote land as written, and its printed bytes are written at its standard output's offset into the attached file, stamped with the current time |
| FileSystems.WriteAt | internal/core/test.go:38 | a write at an offset overwrites from there, keeps the bytes before and after, zero-fills a gap, and extends the file only as far as needed |
| Tool.CPTool.constructor | internal/core/main.go:27-58 | a new tool has no language loaded and has invoked and reported nothing |
| Tool.CPTool.Bootstrap | internal/core/main.go:61-64 | given a complete walk of each `langs` directory that exists, the registry is the one `GetAllLanguages` builds from the configuration directories of the given working and home directories |
| Tool.CPTool.Execute | internal/core/compile.go:67-83 | the method's invocation is `Machines.Execute` |
| Tool.CPTool.GetLanguageByName | internal/core/lang.go:135-141 | the lookup in the loaded registry |
| Tool.CPTool.GetSolution | internal/core/solution.go:21-34 | `GetSolution` on the tool's filesystem |
| Tool.CPTool.Compile | internal/core/compile.go:34-95 | the method's new state and results are `CompileSpec` of the old state |
| Tool.CPTool.CompileByName | internal/core/compile.go:99-124 | ErrNoSuchLanguage, then ErrNoSuchSolution, with nothing changed and no script run; otherwise `Compile` of the resolved solution |
| Tool.CPTool.Run | internal/core/run.go:6-20 | the new state and the error are `RunSpec` of the old state, and the standard output's offset advances by what was printed |
| Tool.CPTool.RunByName | internal/core/run.go:24-35 | ErrNoSuchLanguage, then ErrNoSuchSolution, with nothing changed; otherwise `Run` of the resolved solution |
| Tool.CPTool.GetAllTestCasesWithPrefix | internal/core/testcase.go:32-59 | the appending walk callback yields exactly `Discover` |
| Tool.CPTool.GetTestCaseByName | internal/core/testcase.go:23-30 | ErrNoSuchTestCase iff no discovered test case has exactly that name; otherwise a discovered test case with that name |
| Tool.CPTool.PrepareTestCase | internal/core/test.go:23-37 | the steps before the run are `Prepare`, and yield a capture handle at offset 0 |
| Tool.CPTool.RunTestCase | internal/core/test.go:22-60 | one loop iteration is `TestOne` as written (flag false): the capture is read back through the handle from where the run's output left it |
| Tool.CPTool.CompareOutput | internal/core/test.go:44-59 | the end of the loop body, after a run that went through, is `CompareCapture` without rewinding: the capture is read from the handle's current offset |
| Tool.CPTool.Test | internal/core/test.go:19-63 | the loop over the discovered test cases, stopping at the first error, is `TestSpec` as written (flag false) |
| Tool.CPTool.TestByName | internal/core/test.go:66-77 | ErrNoSuchLanguage, then ErrNoSuchSolution, with nothing changed and nothing run; otherwise `Test` of the resolved solution, which is `TestSpec` with the flag false |
| Tool.CPTool.CleanCacheDirectory | internal/core/clean.go:9-31 | the new filesystem is `Clean` of the old one, and no error is returned |

## Left out

- Path cleaning: `path.Join` and `filepath.Clean` are modelled as joining with one `/`, except that the trailing separator of `/etc/cptool/` is not doubled (`Paths.JoinClean`). The working directory and the home directory are taken to be clean and not `/`.
- Time: `Duration` in `CompilationResult`, `time.Since` and `time.Now` are left out. Modification times are integers, and the clock is a field the commands only read.
- Cancellation: `context.Context` is left out.
- Logging: the logger, `fmt.Println` and every console message are left out, since they affect no control flow.
- The standard error stream of `Run` (`os.Stderr`) is left out, and so are console streams, which are `NoStream`.
- The input file's read offset is not tracked, since nothing reads it after the run.
- `lang.conf` decoding: the TOML decoder is a foreign library and is an input function. Unknown keys and partial decodes are whatever that function says.
- Output comparison: `equalfile.CompareReader` is byte-sequence equality of what the two handles yield from their current offsets. A capture or expected output that cannot be read is an error.
- Directory walks: their order and contents are an input. Walk errors, and the nil `FileInfo` a walk passes with an error, are not modelled.
- Operating-system filesystem: `GetLanguageFromDirectory` and `checkFileExists`/`checkDirExists` use `os.Stat` on the real disk rather than the tool's afero filesystem. The model runs them on the same modelled filesystem.
- `RemoveAll` never fails in the model, since permissions are not modelled. The ordering "an error removing the compilation root is returned before the output root is examined" is therefore not modelled.
- Languages.Values: Go's map iteration order is random. The model picks keys in an unspecified order, so `GetDefaultLanguage` returns some registered language, not a particular one.
- Languages.GetLanguageByName, Languages.GetLanguageByExtension, Languages.GetDefaultLanguage, Languages.GetDefaultLanguageForExtension: the package-level functions each call `GetAllLanguages()` again (internal/core/lang.go:136, :145, :157, :166). The model takes the registry or the slice as a parameter; `Tool.CPTool.GetLanguageByName` does the lookup in the registry `Bootstrap` loaded.
- Tool.CPTool.Bootstrap: `loadAllLanguages` is not part of this model. `Bootstrap` is modelled as storing the map `GetAllLanguages` builds. Its working and home directories are parameters (`None` for a failed `os.Getwd` or `user.Current`), not the constructor's fields.
- Tool.CPTool.GetTestCaseByName: the contract does not say the first match is returned. `TestCases.DiscoverNamesDistinct` shows there is at most one match over a walk that visits each path once.
- Tool.CPTool.Test: the source's unused `language` parameter is dropped.
- `GetOutputRootDir` is not part of this model. It is taken to be `<wd>/.cptool/outputs`, the prefix `getOutputTarget` uses (internal/core/test.go:15).
- Mixed revisions: `Compile` and `getCompiledTarget` follow the signatures at internal/core/compile.go:34 and :136. `Run` follows the call at internal/core/test.go:38, taking the solution and two standard streams, with the language taken from `solution.Language`. The shown run.go:6 has an older signature.
- `New`: the constructor takes the working directory, the executor, the filesystem and the clock. `user.Current` and `CPTOOL_HOME` are read by no modelled operation, so the tool stores neither; the home directory reaches `GetConfigurationPaths` as a parameter of `Bootstrap`. `New` also ignores the executor it is given and always installs the OS executor (internal/core/main.go:49); the model uses the executor it is given, which stands for whatever runs the scripts.
- Not modelled: `cmd/` (argument parsing and exit codes), `internal/executioner` (replaced by the executor function), `internal/logger` and the version strings.
- Machines.Execute: process start, the standard-error pipe and waiting are one outcome. A failure reading the error stream counts as a start failure.
- Processes.AfterProcess: a script can create and overwrite files, but it cannot delete or rename an entry. The model adds its `writes` to the filesystem and never removes anything.

## Findings

| source | as written | input that shows it | evidently intended | confidence | as-written member | corrected member |
|---|---|---|---|---|---|---|
| internal/core/test.go:27-50 | the capture handle the program printed through is compared without being rewound, so the comparison reads from the end of what was printed | a program that prints `42\n` for a test case whose `.out` file holds `42\n`: nothing is read back, the comparison sees an empty capture, and the test case is reported as differing; with an empty `.out` file every output is reported as matching | compare the whole capture, from offset 0, with the expected output | not executed | Testing.TestOneMatchesIffExpectedEmpty | Testing.TestOneMatchesIffPrinted |
