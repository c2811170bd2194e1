/** Where configuration lives (internal/core/common.go) and where language definitions are looked
    up under it (`getLanguagesPaths`, internal/core/lang.go). */
module Configuration {
  import opened Wrappers
  import opened Paths

  /** The system-wide configuration directory, always consulted last. */
  const SystemConfigurationPath: Path := "/etc/cptool/"

  /** The configuration directories in precedence order: `.cptool` under the working directory,
      then under the user's home, each only when the operating system reports it (`None` stands
      for a failed `os.Getwd` or `user.Current`), then the system directory. */
  function ConfigurationPaths(cwd: Option<Path>, home: Option<Path>): (r: seq<Path>)
    ensures |r| == 1 + (if cwd.Some? then 1 else 0) + (if home.Some? then 1 else 0)
    ensures r[|r| - 1] == SystemConfigurationPath
    ensures cwd.Some? ==> r[0] == Join(cwd.value, ".cptool")
    ensures home.Some? ==> r[|r| - 2] == Join(home.value, ".cptool")
  {
    (if cwd.Some? then [Join(cwd.value, ".cptool")] else []) +
    (if home.Some? then [Join(home.value, ".cptool")] else []) +
    [SystemConfigurationPath]
  }

  /** `GetConfigurationPaths`: appends the directories one by one. */
  method GetConfigurationPaths(cwd: Option<Path>, home: Option<Path>) returns (paths: seq<Path>)
    ensures paths == ConfigurationPaths(cwd, home)
  {
    paths := [];
    if cwd.Some? {
      paths := paths + [Join(cwd.value, ".cptool")];
    }
    if home.Some? {
      paths := paths + [Join(home.value, ".cptool")];
    }
    paths := paths + [SystemConfigurationPath];
  }

  /** The `langs` directory of each configuration directory, in the same order. */
  function LangsDirectories(configurationPaths: seq<Path>): (r: seq<Path>)
    ensures |r| == |configurationPaths|
    ensures forall i :: 0 <= i < |r| ==> r[i] == JoinClean(configurationPaths[i], "langs")
  {
    seq(|configurationPaths|, i requires 0 <= i < |configurationPaths| => JoinClean(configurationPaths[i], "langs"))
  }

  /** The directories languages are loaded from, in precedence order; the system one is
      "/etc/cptool/langs", with a single separator. */
  function LanguagesDirectories(cwd: Option<Path>, home: Option<Path>): (r: seq<Path>)
    ensures |r| == |ConfigurationPaths(cwd, home)|
    ensures r[|r| - 1] == "/etc/cptool/langs"
    ensures cwd.Some? ==> r[0] == Join(Join(cwd.value, ".cptool"), "langs")
    ensures home.Some? ==> r[|r| - 2] == Join(Join(home.value, ".cptool"), "langs")
  {
    var r := LangsDirectories(ConfigurationPaths(cwd, home));
    assert r[|r| - 1] == JoinClean("/etc/cptool/", "langs");
    assert "/etc/cptool/"[..11] == "/etc/cptool";
    r
  }

  /** `getLanguagesPaths`: the configuration directories, each joined with `langs` in a loop. */
  method LanguagesPaths(cwd: Option<Path>, home: Option<Path>) returns (langPaths: seq<Path>)
    ensures langPaths == LanguagesDirectories(cwd, home)
  {
    var configurationPaths := GetConfigurationPaths(cwd, home);
    langPaths := [];
    for i := 0 to |configurationPaths|
      invariant |langPaths| == i
      invariant forall j :: 0 <= j < i ==> langPaths[j] == JoinClean(configurationPaths[j], "langs")
    {
      langPaths := langPaths + [JoinClean(configurationPaths[i], "langs")];
    }
  }
}
