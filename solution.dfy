/** Solutions (internal/core/solution.go): a source file named after the solution, with the
    language's extension, directly in the working directory. */
module Solutions {
  import opened Wrappers
  import opened Errors
  import opened Paths
  import opened FileSystems
  import opened Languages

  datatype Solution = Solution(name: string, language: Language, path: Path, lastUpdated: Time)

  /** Where the solution `name` in `language` is looked for. */
  function SolutionPath(workingDirectory: Path, name: string, language: Language): (r: Path)
    ensures Under(r, workingDirectory)
    ensures HasSuffix(r, "." + language.extension)
  {
    Join(workingDirectory, name + "." + language.extension)
  }

  /** `GetSolution`: the solution exists when its file is present and is not a directory; it is
      then last updated at that file's modification time. */
  function GetSolution(workingDirectory: Path, fs: FileSystem, name: string, language: Language)
    : (r: Result<Solution, Error>)
    ensures r.Ok? <==> IsFile(fs, SolutionPath(workingDirectory, name, language))
    ensures r.Err? ==> r.error == NoSuchSolution
    ensures r.Ok? ==> r.value.name == name && r.value.language == language
    ensures r.Ok? ==> r.value.path == SolutionPath(workingDirectory, name, language)
    ensures r.Ok? ==> r.value.lastUpdated == fs[r.value.path].mtime
  {
    var solutionPath := Join(workingDirectory, name + "." + language.extension);
    if solutionPath !in fs || fs[solutionPath].Dir? then Err(NoSuchSolution)
    else Ok(Solution(name, language, solutionPath, fs[solutionPath].mtime))
  }
}
