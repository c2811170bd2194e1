/** Test-case discovery (internal/core/testcase.go): a test case is an `.in` file below the working
    directory whose path starts with the requested prefix and that has a sibling `.out` file. */
module TestCases {
  import opened Wrappers
  import opened Paths
  import opened FileSystems

  datatype TestCase = TestCase(name: string, inputPath: Path, outputPath: Path)

  /** The `.in` suffix check and the name surgery: for a walked path `p` below `wd`, the name is
      the part after `wd/` with its ".in" cut off. */
  lemma InputPathSplits(wd: Path, p: Path)
    requires Under(p, wd) && HasSuffix(p, ".in")
    ensures |p| >= |wd| + 4 && p[|wd|] == '/'
    ensures p == Join(wd, p[|wd| + 1..|p| - 3] + ".in")
  {
    assert p[..|wd| + 1] == wd + "/";
    assert p[|wd|] == '/';
    assert p[|p| - 3..] == ".in";
    assert p[|p| - 1] == 'n' && p[|p| - 2] == 'i' && p[|p| - 3] == '.';
    assert |p| >= |wd| + 4;
    assert p == p[..|wd| + 1] + p[|wd| + 1..|p| - 3] + p[|p| - 3..];
  }

  /** What the walk callback of `getAllTestCaseWithPrefix` does with one walked path. */
  function Candidate(fs: FileSystem, wd: Path, p: Path, prefix: string): (r: Option<TestCase>)
    requires Within(p, wd)
    ensures r.Some? ==> Under(p, wd) && !IsDir(fs, p) && HasSuffix(p, ".in")
    ensures r.Some? ==> p == Join(wd, r.value.name + ".in") && prefix <= r.value.name + ".in"
    ensures r.Some? ==> r.value.inputPath == p && r.value.outputPath == Join(wd, r.value.name + ".out")
    ensures r.Some? ==> IsFile(fs, r.value.outputPath)
  {
    var relative := p[|wd|..];
    if |relative| == 0 then None
    else
      var relative := if relative[0] == '/' then relative[1..] else relative;
      if !IsDir(fs, p) && prefix <= relative && Ext(p) == ".in" then
        ExtIsInIffSuffix(p);
        assert Under(p, wd);
        InputPathSplits(wd, p);
        assert relative == p[|wd| + 1..];
        var testName := relative[..|relative| - 3];
        assert relative == testName + ".in";
        var outputFilePath := Join(wd, testName + ".out");
        if IsFile(fs, outputFilePath) then
          Some(TestCase(testName, p, outputFilePath))
        else None
      else None
  }

  /** The qualification of one path, stated without the string surgery. */
  lemma CandidateIff(fs: FileSystem, wd: Path, p: Path, prefix: string)
    requires Under(p, wd)
    ensures Candidate(fs, wd, p, prefix).Some? <==>
      && !IsDir(fs, p)
      && HasSuffix(p, ".in")
      && |wd| + 4 <= |p|
      && prefix <= p[|wd| + 1..]
      && IsFile(fs, Join(wd, p[|wd| + 1..|p| - 3] + ".out"))
  {
    ExtIsInIffSuffix(p);
    assert p[..|wd| + 1] == wd + "/";
    assert p[|wd|..][0] == '/';
    assert p[|wd|..][1..] == p[|wd| + 1..];
    if HasSuffix(p, ".in") {
      InputPathSplits(wd, p);
      assert p[|wd| + 1..][..|p[|wd| + 1..]| - 3] == p[|wd| + 1..|p| - 3];
    }
  }

  /** What the walk callback makes of each walked path, in walk order. */
  function Examined(fs: FileSystem, wd: Path, walk: seq<Path>, prefix: string): (r: seq<Option<TestCase>>)
    requires forall i :: 0 <= i < |walk| ==> Within(walk[i], wd)
    ensures |r| == |walk|
    ensures forall i :: 0 <= i < |walk| ==> r[i] == Candidate(fs, wd, walk[i], prefix)
  {
    seq(|walk|, i requires 0 <= i < |walk| => Candidate(fs, wd, walk[i], prefix))
  }

  /** The present values, in order. */
  function Present(found: seq<Option<TestCase>>): (r: seq<TestCase>)
    ensures |r| <= |found|
  {
    if found == [] then []
    else
      Present(found[..|found| - 1]) +
        match found[|found| - 1]
        case Some(tc) => [tc]
        case None => []
  }

  /** The test cases found along `walk`, in walk order. */
  function Discover(fs: FileSystem, wd: Path, walk: seq<Path>, prefix: string): (r: seq<TestCase>)
    requires forall i :: 0 <= i < |walk| ==> Within(walk[i], wd)
    ensures |r| <= |walk|
  {
    Present(Examined(fs, wd, walk, prefix))
  }

  /** Walking one more path adds its test case, if it is one, at the end. */
  lemma DiscoverNext(fs: FileSystem, wd: Path, walk: seq<Path>, prefix: string, i: nat)
    requires forall j :: 0 <= j < |walk| ==> Within(walk[j], wd)
    requires i < |walk|
    ensures Discover(fs, wd, walk[..i + 1], prefix) ==
      Discover(fs, wd, walk[..i], prefix) + match Candidate(fs, wd, walk[i], prefix) case Some(tc) => [tc] case None => []
  {
    var found := Examined(fs, wd, walk[..i + 1], prefix);
    assert found[..i] == Examined(fs, wd, walk[..i], prefix);
  }

  lemma {:induction false} PresentMembers(found: seq<Option<TestCase>>, tc: TestCase)
    ensures tc in Present(found) <==> exists i :: 0 <= i < |found| && found[i] == Some(tc)
  {
    if found != [] {
      var init := found[..|found| - 1];
      var last := found[|found| - 1];
      assert Present(found) == Present(init) + if last.Some? then [last.value] else [];
      PresentMembers(init, tc);
      if exists i :: 0 <= i < |found| && found[i] == Some(tc) {
        var i :| 0 <= i < |found| && found[i] == Some(tc);
        if i < |init| {
          assert init[i] == found[i];
        }
      }
      if exists i :: 0 <= i < |init| && init[i] == Some(tc) {
        var i :| 0 <= i < |init| && init[i] == Some(tc);
        assert found[i] == init[i];
      }
    }
  }

  /** A test case is found exactly when some walked path qualifies as it. */
  lemma DiscoverMembers(fs: FileSystem, wd: Path, walk: seq<Path>, prefix: string, tc: TestCase)
    requires forall i :: 0 <= i < |walk| ==> Within(walk[i], wd)
    ensures tc in Discover(fs, wd, walk, prefix) <==>
      exists i :: 0 <= i < |walk| && Candidate(fs, wd, walk[i], prefix) == Some(tc)
  {
    var found := Examined(fs, wd, walk, prefix);
    PresentMembers(found, tc);
    assert forall i :: 0 <= i < |walk| ==> found[i] == Candidate(fs, wd, walk[i], prefix);
  }

  predicate NamesDistinct(cases: seq<TestCase>)
  {
    forall i, j :: 0 <= i < j < |cases| ==> cases[i].name != cases[j].name
  }

  /** No two present values share a name. */
  predicate PresentNamesDistinct(found: seq<Option<TestCase>>)
  {
    forall i, j :: 0 <= i < j < |found| && found[i].Some? && found[j].Some? ==>
      found[i].value.name != found[j].value.name
  }

  lemma {:induction false} PresentKeepsNamesDistinct(found: seq<Option<TestCase>>)
    requires PresentNamesDistinct(found)
    ensures NamesDistinct(Present(found))
  {
    if found != [] {
      var init := found[..|found| - 1];
      var last := found[|found| - 1];
      assert PresentNamesDistinct(init) by {
        forall i, j | 0 <= i < j < |init| && init[i].Some? && init[j].Some?
          ensures init[i].value.name != init[j].value.name
        {
          assert init[i] == found[i] && init[j] == found[j];
        }
      }
      PresentKeepsNamesDistinct(init);
      var front := Present(init);
      if last.Some? {
        forall k | 0 <= k < |front| ensures front[k].name != last.value.name {
          PresentMembers(init, front[k]);
          var i :| 0 <= i < |init| && init[i] == Some(front[k]);
          assert found[i] == init[i];
        }
        assert Present(found) == front + [last.value];
      } else {
        assert Present(found) == front;
      }
    }
  }

  /** A walk visits each path once, so no two discovered test cases share a name (the name fixes
      the input path). */
  lemma DiscoverNamesDistinct(fs: FileSystem, wd: Path, walk: seq<Path>, prefix: string)
    requires forall i :: 0 <= i < |walk| ==> Within(walk[i], wd)
    requires forall i, j :: 0 <= i < j < |walk| ==> walk[i] != walk[j]
    ensures NamesDistinct(Discover(fs, wd, walk, prefix))
  {
    var found := Examined(fs, wd, walk, prefix);
    forall i, j | 0 <= i < j < |found| && found[i].Some? && found[j].Some?
      ensures found[i].value.name != found[j].value.name
    {
      assert walk[i] == Join(wd, found[i].value.name + ".in");
      assert walk[j] == Join(wd, found[j].value.name + ".in");
    }
    PresentKeepsNamesDistinct(found);
  }

  /** Over a complete walk of the working directory, every qualifying `.in` file is found. */
  lemma DiscoverComplete(fs: FileSystem, wd: Path, walk: seq<Path>, prefix: string, p: Path)
    requires IsWalk(fs, wd, walk)
    requires p in fs && Under(p, wd) && Candidate(fs, wd, p, prefix).Some?
    ensures Candidate(fs, wd, p, prefix).value in Discover(fs, wd, walk, prefix)
  {
    var i :| 0 <= i < |walk| && walk[i] == p;
    DiscoverMembers(fs, wd, walk, prefix, Candidate(fs, wd, p, prefix).value);
  }
}
