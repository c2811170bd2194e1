/** Language definitions (internal/core/lang.go): a language is a directory holding `compile` and
    `run` scripts, optionally `debugcompile` and a `lang.conf`; the registry keeps, per name, the
    first valid definition met along the configuration paths. */
module Languages {
  import opened Wrappers
  import opened Errors
  import opened Paths
  import opened FileSystems
  import opened Sequences
  import opened Configuration

  datatype Language = Language(
    name: string,
    extension: string,
    verboseName: string,
    compileScript: Path,
    runScript: Path,
    debugScript: Path,
    debuggable: bool)

  /** The two optional fields of `lang.conf`; a field absent from the file decodes as "". */
  datatype LanguageConf = LanguageConf(verboseName: string, extension: string)

  /** The TOML decoder, a foreign library: the decoded fields of a file's contents, or None when
      the contents are not valid TOML for them. */
  type ConfDecoder = Bytes -> Option<LanguageConf>

  function ConfPath(dir: Path): Path { Join(dir, "lang.conf") }
  function CompilePath(dir: Path): Path { Join(dir, "compile") }
  function RunPath(dir: Path): Path { Join(dir, "run") }
  function DebugPath(dir: Path): Path { Join(dir, "debugcompile") }

  /** `lang.conf` exists as a regular file and does not decode. */
  predicate ConfInvalid(fs: FileSystem, decode: ConfDecoder, dir: Path)
  {
    IsFile(fs, ConfPath(dir)) && decode(fs[ConfPath(dir)].contents).None?
  }

  /** The language a directory defines, or why it defines none. */
  function LanguageFromDirectory(fs: FileSystem, decode: ConfDecoder, dir: Path): (r: Result<Language, Error>)
    ensures !IsDir(fs, dir) ==> r == Err(InvalidLanguageDirectory)
    ensures IsDir(fs, dir) && ConfInvalid(fs, decode, dir) ==> r == Err(InvalidLanguageConfigurationFile)
    ensures IsDir(fs, dir) && !ConfInvalid(fs, decode, dir) && !(IsFile(fs, CompilePath(dir)) && IsFile(fs, RunPath(dir))) ==>
      r == Err(InvalidLanguageDirectory)
    ensures r.Ok? <==>
      IsDir(fs, dir) && !ConfInvalid(fs, decode, dir) && IsFile(fs, CompilePath(dir)) && IsFile(fs, RunPath(dir))
    ensures r.Err? ==> r.error in {InvalidLanguageDirectory, InvalidLanguageConfigurationFile}
    ensures r.Ok? ==> r.value.name == BaseName(dir)
    ensures r.Ok? ==> r.value.compileScript == CompilePath(dir) && r.value.runScript == RunPath(dir)
    ensures r.Ok? ==> (r.value.debuggable <==> IsFile(fs, DebugPath(dir)))
    ensures r.Ok? ==> r.value.debugScript == if r.value.debuggable then DebugPath(dir) else ""
    ensures r.Ok? && !IsFile(fs, ConfPath(dir)) ==>
      r.value.verboseName == r.value.name && r.value.extension == r.value.name
    ensures r.Ok? && IsFile(fs, ConfPath(dir)) ==>
      var conf := decode(fs[ConfPath(dir)].contents).value;
      && r.value.verboseName == (if conf.verboseName != "" then conf.verboseName else r.value.name)
      && r.value.extension == (if conf.extension != "" then conf.extension else r.value.name)
  {
    if !IsDir(fs, dir) then Err(InvalidLanguageDirectory)
    else if ConfInvalid(fs, decode, dir) then Err(InvalidLanguageConfigurationFile)
    else if !IsFile(fs, CompilePath(dir)) || !IsFile(fs, RunPath(dir)) then Err(InvalidLanguageDirectory)
    else
      var name := BaseName(dir);
      var conf := if IsFile(fs, ConfPath(dir)) then decode(fs[ConfPath(dir)].contents).value
                  else LanguageConf("", "");
      var debuggable := IsFile(fs, DebugPath(dir));
      Ok(Language(
        name,
        if |conf.extension| > 0 then conf.extension else name,
        if |conf.verboseName| > 0 then conf.verboseName else name,
        CompilePath(dir),
        RunPath(dir),
        if debuggable then DebugPath(dir) else "",
        debuggable))
  }

  /** `GetLanguageFromDirectory`: fills in a `Language` field by field, returning early on the
      first missing piece. */
  method GetLanguageFromDirectory(fs: FileSystem, decode: ConfDecoder, languagePath: Path)
    returns (r: Result<Language, Error>)
    ensures r == LanguageFromDirectory(fs, decode, languagePath)
  {
    if !IsDir(fs, languagePath) {
      return Err(InvalidLanguageDirectory);
    }
    var language := Language("", "", "", "", "", "", false);
    language := language.(name := BaseName(languagePath));
    language := language.(verboseName := language.name);
    language := language.(extension := language.name);

    var configPath := Join(languagePath, "lang.conf");
    if IsFile(fs, configPath) {
      var decoded := decode(fs[configPath].contents);
      if decoded.None? {
        return Err(InvalidLanguageConfigurationFile);
      }
      var languageConf := decoded.value;
      if |languageConf.verboseName| > 0 {
        language := language.(verboseName := languageConf.verboseName);
      }
      if |languageConf.extension| > 0 {
        language := language.(extension := languageConf.extension);
      }
    }

    language := language.(compileScript := Join(languagePath, "compile"));
    if !IsFile(fs, language.compileScript) {
      return Err(InvalidLanguageDirectory);
    }
    language := language.(runScript := Join(languagePath, "run"));
    if !IsFile(fs, language.runScript) {
      return Err(InvalidLanguageDirectory);
    }
    var debugScript := Join(languagePath, "debugcompile");
    if IsFile(fs, debugScript) {
      language := language.(debuggable := true, debugScript := debugScript);
    }
    return Ok(language);
  }

  /** The outcome of loading each of `dirs`, in order. */
  function Loaded(fs: FileSystem, decode: ConfDecoder, dirs: seq<Path>): (r: seq<Result<Language, Error>>)
    ensures |r| == |dirs|
    ensures forall i :: 0 <= i < |dirs| ==> r[i] == LanguageFromDirectory(fs, decode, dirs[i])
  {
    seq(|dirs|, i requires 0 <= i < |dirs| => LanguageFromDirectory(fs, decode, dirs[i]))
  }

  lemma LoadedSnoc(fs: FileSystem, decode: ConfDecoder, dirs: seq<Path>, dir: Path)
    ensures Loaded(fs, decode, dirs + [dir]) == Loaded(fs, decode, dirs) + [LanguageFromDirectory(fs, decode, dir)]
  {
    assert forall i :: 0 <= i < |dirs| ==> (dirs + [dir])[i] == dirs[i];
  }

  /** The registry built from a sequence of load outcomes: a language enters under its name
      unless that name is already taken. */
  function Collect(results: seq<Result<Language, Error>>): (r: map<string, Language>)
    ensures forall k :: k in r ==> r[k].name == k
  {
    if results == [] then map[]
    else
      var registry := Collect(results[..|results| - 1]);
      var lang := results[|results| - 1];
      if lang.Ok? && lang.value.name !in registry then registry[lang.value.name := lang.value]
      else registry
  }

  /** The registry `GetAllLanguages` builds from the directories `dirs`, in order. */
  function Register(fs: FileSystem, decode: ConfDecoder, dirs: seq<Path>): (r: map<string, Language>)
    ensures forall k :: k in r ==> r[k].name == k
  {
    Collect(Loaded(fs, decode, dirs))
  }

  /** The outcome defines a language called `name`. */
  predicate Defines(result: Result<Language, Error>, name: string)
  {
    result.Ok? && result.value.name == name
  }

  /** `results[i]` is the first of `results` to define a language under its name. */
  predicate FirstToDefine(results: seq<Result<Language, Error>>, i: nat)
    requires i < |results|
  {
    results[i].Ok? && forall j :: 0 <= j < i ==> !Defines(results[j], results[i].value.name)
  }

  /** A name is registered exactly when some outcome defines a language by that name. */
  lemma {:induction false} CollectNames(results: seq<Result<Language, Error>>, k: string)
    ensures k in Collect(results) <==> exists i :: 0 <= i < |results| && Defines(results[i], k)
  {
    if results != [] {
      var init := results[..|results| - 1];
      CollectNames(init, k);
      if exists i :: 0 <= i < |results| && Defines(results[i], k) {
        var i :| 0 <= i < |results| && Defines(results[i], k);
        if i < |init| {
          assert init[i] == results[i];
        }
      }
      if exists i :: 0 <= i < |init| && Defines(init[i], k) {
        var i :| 0 <= i < |init| && Defines(init[i], k);
        assert results[i] == init[i];
      }
    }
  }

  /** First wins: under each name the registry holds the language of the first outcome that
      defines it; later duplicates leave no trace. */
  lemma {:induction false} CollectFirstWins(results: seq<Result<Language, Error>>, i: nat)
    requires i < |results| && FirstToDefine(results, i)
    ensures results[i].value.name in Collect(results)
    ensures Collect(results)[results[i].value.name] == results[i].value
  {
    var init := results[..|results| - 1];
    var lang := results[i].value;
    if i < |init| {
      assert init[i] == results[i];
      assert forall j :: 0 <= j < i ==> init[j] == results[j];
      assert FirstToDefine(init, i);
      CollectFirstWins(init, i);
    } else {
      CollectNames(init, lang.name);
      assert forall j :: 0 <= j < |init| ==> init[j] == results[j];
      assert lang.name !in Collect(init);
    }
  }

  /** The registry over directories: a name is registered iff some directory defines it, and
      with the definition of the first directory that does. */
  lemma RegisterFirstWins(fs: FileSystem, decode: ConfDecoder, dirs: seq<Path>, i: nat)
    requires i < |dirs|
    requires FirstToDefine(Loaded(fs, decode, dirs), i)
    ensures var lang := LanguageFromDirectory(fs, decode, dirs[i]).value;
      lang.name in Register(fs, decode, dirs) && Register(fs, decode, dirs)[lang.name] == lang
  {
    CollectFirstWins(Loaded(fs, decode, dirs), i);
  }

  lemma RegisterNames(fs: FileSystem, decode: ConfDecoder, dirs: seq<Path>, k: string)
    ensures k in Register(fs, decode, dirs) <==>
      exists i :: 0 <= i < |dirs| && Defines(LanguageFromDirectory(fs, decode, dirs[i]), k)
  {
    var results := Loaded(fs, decode, dirs);
    CollectNames(results, k);
    assert forall i :: 0 <= i < |dirs| ==> results[i] == LanguageFromDirectory(fs, decode, dirs[i]);
  }

  /** Registering one more directory. */
  lemma RegisterSnoc(fs: FileSystem, decode: ConfDecoder, dirs: seq<Path>, dir: Path)
    ensures Register(fs, decode, dirs + [dir]) ==
      var registry := Register(fs, decode, dirs);
      var lang := LanguageFromDirectory(fs, decode, dir);
      if lang.Ok? && lang.value.name !in registry then registry[lang.value.name := lang.value] else registry
  {
    LoadedSnoc(fs, decode, dirs, dir);
    var loaded := Loaded(fs, decode, dirs + [dir]);
    assert loaded[..|loaded| - 1] == Loaded(fs, decode, dirs);
  }

  /** The directories `GetAllLanguages` offers to `GetLanguageFromDirectory`, in order: everything
      walked under each configuration path's `langs` directory that exists. */
  function Candidates(fs: FileSystem, langPaths: seq<Path>, walks: seq<seq<Path>>): seq<Path>
    requires |walks| == |langPaths|
  {
    if langPaths == [] then []
    else
      var n := |langPaths| - 1;
      Candidates(fs, langPaths[..n], walks[..n]) + (if IsDir(fs, langPaths[n]) then walks[n] else [])
  }

  /** A path is offered exactly when it was walked under a `langs` directory that exists. */
  lemma {:induction false} CandidatesMembers(fs: FileSystem, langPaths: seq<Path>, walks: seq<seq<Path>>, p: Path)
    requires |walks| == |langPaths|
    ensures p in Candidates(fs, langPaths, walks) <==>
      exists i :: 0 <= i < |langPaths| && IsDir(fs, langPaths[i]) && p in walks[i]
  {
    if langPaths != [] {
      var n := |langPaths| - 1;
      CandidatesMembers(fs, langPaths[..n], walks[..n], p);
      assert forall i :: 0 <= i < n ==> langPaths[..n][i] == langPaths[i] && walks[..n][i] == walks[i];
    }
  }

  /** The directories walked under the first `j` `langs` directories come first. */
  lemma {:induction false} CandidatesPrefix(fs: FileSystem, langPaths: seq<Path>, walks: seq<seq<Path>>, j: nat)
    requires |walks| == |langPaths| && j <= |langPaths|
    ensures Candidates(fs, langPaths[..j], walks[..j]) <= Candidates(fs, langPaths, walks)
    decreases |langPaths|
  {
    if j < |langPaths| {
      var n := |langPaths| - 1;
      assert langPaths[..n][..j] == langPaths[..j] && walks[..n][..j] == walks[..j];
      CandidatesPrefix(fs, langPaths[..n], walks[..n], j);
    } else {
      assert langPaths[..j] == langPaths && walks[..j] == walks;
    }
  }

  /** Registering more directories never drops or replaces a registered language. */
  lemma {:induction false} RegisterKeeps(fs: FileSystem, decode: ConfDecoder, front: seq<Path>, back: seq<Path>, k: string)
    requires k in Register(fs, decode, front)
    ensures k in Register(fs, decode, front + back)
    ensures Register(fs, decode, front + back)[k] == Register(fs, decode, front)[k]
    decreases |back|
  {
    if back == [] {
      assert front + back == front;
    } else {
      var init := back[..|back| - 1];
      RegisterKeeps(fs, decode, front, init, k);
      RegisterSnoc(fs, decode, front + init, back[|back| - 1]);
      assert front + init + [back[|back| - 1]] == front + back;
    }
  }

  /** Precedence of configuration directories: a language found under the first `i + 1` `langs`
      directories is the one the full registry holds under its name, whatever later directories
      define. */
  lemma EarlierDirectoryWins(fs: FileSystem, decode: ConfDecoder, langPaths: seq<Path>, walks: seq<seq<Path>>, i: nat, k: string)
    requires |walks| == |langPaths| && i < |langPaths|
    requires k in Register(fs, decode, Candidates(fs, langPaths[..i + 1], walks[..i + 1]))
    ensures k in Register(fs, decode, Candidates(fs, langPaths, walks))
    ensures Register(fs, decode, Candidates(fs, langPaths, walks))[k] ==
      Register(fs, decode, Candidates(fs, langPaths[..i + 1], walks[..i + 1]))[k]
  {
    var front := Candidates(fs, langPaths[..i + 1], walks[..i + 1]);
    var full := Candidates(fs, langPaths, walks);
    CandidatesPrefix(fs, langPaths, walks, i + 1);
    RegisterKeeps(fs, decode, front, full[|front|..], k);
    assert front + full[|front|..] == full;
  }

  /** Walking one more `langs` directory. */
  lemma CandidatesNext(fs: FileSystem, langPaths: seq<Path>, walks: seq<seq<Path>>, p: nat)
    requires |walks| == |langPaths| && p < |langPaths|
    ensures Candidates(fs, langPaths[..p + 1], walks[..p + 1]) ==
      Candidates(fs, langPaths[..p], walks[..p]) + if IsDir(fs, langPaths[p]) then walks[p] else []
  {
    assert langPaths[..p + 1][..p] == langPaths[..p];
    assert walks[..p + 1][..p] == walks[..p];
  }

  /** The `filepath.Walk` callback of `GetAllLanguages` over one `langs` directory: each walked
      directory that defines a language under a name not yet taken is registered. */
  method RegisterWalk(fs: FileSystem, decode: ConfDecoder, ghost visited: seq<Path>, walk: seq<Path>,
                      registry: map<string, Language>)
    returns (langMap: map<string, Language>)
    requires registry == Register(fs, decode, visited)
    ensures langMap == Register(fs, decode, visited + walk)
  {
    langMap := registry;
    assert visited + walk[..0] == visited;
    for w := 0 to |walk|
      invariant langMap == Register(fs, decode, visited + walk[..w])
    {
      var path := walk[w];
      RegisterSnoc(fs, decode, visited + walk[..w], path);
      if IsDir(fs, path) {
        var lang := GetLanguageFromDirectory(fs, decode, path);
        if lang.Ok? && lang.value.name !in langMap {
          langMap := langMap[lang.value.name := lang.value];
        }
      }
      TakeOneMore(walk, w);
      assert visited + walk[..w + 1] == visited + walk[..w] + [path];
    }
    assert walk[..|walk|] == walk;
  }

  /** `GetAllLanguages`: walks every `langs` directory that exists, in precedence order, and
      registers each directory that defines a language under a name not yet taken. */
  method GetAllLanguages(fs: FileSystem, decode: ConfDecoder, cwd: Option<Path>, home: Option<Path>, walks: seq<seq<Path>>)
    returns (languages: seq<Language>, langMap: map<string, Language>)
    requires |walks| == |ConfigurationPaths(cwd, home)|
    requires forall i :: 0 <= i < |walks| && IsDir(fs, LanguagesDirectories(cwd, home)[i]) ==>
      IsWalk(fs, LanguagesDirectories(cwd, home)[i], walks[i])
    ensures langMap == Register(fs, decode, Candidates(fs, LanguagesDirectories(cwd, home), walks))
    ensures |languages| == |langMap|
    ensures forall i :: 0 <= i < |languages| ==>
      languages[i].name in langMap && langMap[languages[i].name] == languages[i]
    ensures forall i, j :: 0 <= i < j < |languages| ==> languages[i].name != languages[j].name
    ensures forall k :: k in langMap ==> langMap[k] in languages
  {
    var langPaths := LanguagesPaths(cwd, home);
    langMap := map[];
    var p := 0;
    while p < |langPaths|
      invariant 0 <= p <= |langPaths|
      invariant langMap == Register(fs, decode, Candidates(fs, langPaths[..p], walks[..p]))
    {
      ghost var visited := Candidates(fs, langPaths[..p], walks[..p]);
      CandidatesNext(fs, langPaths, walks, p);
      if IsDir(fs, langPaths[p]) {
        langMap := RegisterWalk(fs, decode, visited, walks[p], langMap);
      } else {
        assert visited + [] == visited;
      }
      p := p + 1;
    }
    assert langPaths[..p] == langPaths && walks[..p] == walks;

    languages := Values(langMap);
  }

  method Values(langMap: map<string, Language>) returns (languages: seq<Language>)
    requires forall k :: k in langMap ==> langMap[k].name == k
    ensures |languages| == |langMap|
    ensures forall i :: 0 <= i < |languages| ==>
      languages[i].name in langMap && langMap[languages[i].name] == languages[i]
    ensures forall i, j :: 0 <= i < j < |languages| ==> languages[i].name != languages[j].name
    ensures forall k :: k in langMap ==> langMap[k] in languages
  {
    languages := [];
    var keys := langMap.Keys;
    while keys != {}
      invariant keys <= langMap.Keys
      invariant |languages| + |keys| == |langMap|
      invariant forall i :: 0 <= i < |languages| ==>
        languages[i].name in langMap && langMap[languages[i].name] == languages[i] && languages[i].name !in keys
      invariant forall i, j :: 0 <= i < j < |languages| ==> languages[i].name != languages[j].name
      invariant forall k :: k in langMap && k !in keys ==> langMap[k] in languages
      decreases keys
    {
      var k :| k in keys;
      languages := languages + [langMap[k]];
      keys := keys - {k};
    }
  }

  /** `GetLanguageByName` over the registry map. */
  function GetLanguageByName(registry: map<string, Language>, name: string): (r: Result<Language, Error>)
    ensures r.Ok? <==> name in registry
    ensures r.Ok? ==> r.value == registry[name] && r.value.name == name
    ensures r.Err? ==> r.error == NoSuchLanguage
    requires forall k :: k in registry ==> registry[k].name == k
  {
    if name in registry then Ok(registry[name]) else Err(NoSuchLanguage)
  }

  /** The languages of `languages` whose extension is `ext`, in order. */
  function WithExtension(languages: seq<Language>, ext: string): (r: seq<Language>)
    ensures |r| <= |languages|
    ensures forall l :: l in r <==> l in languages && l.extension == ext
    ensures r == [] <==> forall i :: 0 <= i < |languages| ==> languages[i].extension != ext
  {
    if languages == [] then []
    else
      var n := |languages| - 1;
      WithExtension(languages[..n], ext) + (if languages[n].extension == ext then [languages[n]] else [])
  }

  /** Filtering one more element of `languages`. */
  lemma WithExtensionNext(languages: seq<Language>, ext: string, i: nat)
    requires i < |languages|
    ensures WithExtension(languages[..i + 1], ext) ==
      WithExtension(languages[..i], ext) + if languages[i].extension == ext then [languages[i]] else []
  {
    assert languages[..i + 1][..i] == languages[..i];
  }

  /** `GetLanguageByExtension`: a filtering loop over the languages slice. */
  method GetLanguageByExtension(languages: seq<Language>, extension: string) returns (results: seq<Language>)
    ensures results == WithExtension(languages, extension)
  {
    results := [];
    for i := 0 to |languages|
      invariant results == WithExtension(languages[..i], extension)
    {
      WithExtensionNext(languages, extension, i);
      if languages[i].extension == extension {
        results := results + [languages[i]];
      }
    }
    assert languages[..|languages|] == languages;
  }

  /** `GetDefaultLanguage`: the first element of the languages slice. */
  function GetDefaultLanguage(languages: seq<Language>): (r: Result<Language, Error>)
    ensures r.Err? <==> languages == []
    ensures r.Err? ==> r.error == NoSuchLanguage
    ensures r.Ok? ==> r.value in languages
  {
    if |languages| == 0 then Err(NoSuchLanguage) else Ok(languages[0])
  }

  predicate FirstWithExtension(languages: seq<Language>, extension: string, i: nat)
    requires i < |languages|
  {
    languages[i].extension == extension && forall j :: 0 <= j < i ==> languages[j].extension != extension
  }

  /** `GetDefaultLanguageForExtension`: the first language of the slice with that extension. */
  method GetDefaultLanguageForExtension(languages: seq<Language>, extension: string)
    returns (r: Result<Language, Error>)
    ensures r.Err? <==> WithExtension(languages, extension) == []
    ensures r.Err? ==> r.error == NoSuchLanguage
    ensures r.Ok? ==> r.value.extension == extension
    ensures r.Ok? ==> exists i :: 0 <= i < |languages| && languages[i] == r.value && FirstWithExtension(languages, extension, i)
  {
    for i := 0 to |languages|
      invariant forall j :: 0 <= j < i ==> languages[j].extension != extension
    {
      if languages[i].extension == extension {
        return Ok(languages[i]);
      }
    }
    return Err(NoSuchLanguage);
  }
}
