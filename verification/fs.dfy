/**
 * The file-system import source of the resolver (class `FS`): it finds the text of an
 * imported file by trying candidate paths, and finds a compiled artifact by scanning a
 * build directory for the artifact whose recorded source path matches.
 */
module FsSource {
  import opened Text
  import opened Host
  import Path = PosixPath

  /** The import of the logging helper that every compilation may use. */
  const CONSOLE_IMPORT: string := "truffle/Console.sol"

  /** What `resolve` hands back: the text and the path it was read from, or neither. */
  datatype ResolvedImport = ResolvedImport(body: Option<string>, filePath: Option<string>)

  // ---------------------------------------------------------------------------
  // The artifact filter: `file.match(".json")`
  // ---------------------------------------------------------------------------

  /** The characters a regular-expression `.` does not match. */
  predicate IsLineTerminator(c: char) {
    c == '\n' || c == '\r' || c == '\U{2028}' || c == '\U{2029}'
  }

  /** The pattern `.json` matches `name` at position `i`: any character but a line terminator, then `json`. */
  predicate JsonPatternAt(name: string, i: int) {
    0 <= i && i + 5 <= |name| && !IsLineTerminator(name[i]) && name[i + 1..i + 5] == "json"
  }

  /**
   * `name.match(".json")` searching from position `from`: the index of the first match, or
   * `None` for `null`.
   */
  function JsonMatchFrom(name: string, from: nat): (r: Option<nat>)
    ensures r.Some? ==> from <= r.value && JsonPatternAt(name, r.value)
    ensures forall i :: from <= i && (r.None? || i < r.value) ==> !JsonPatternAt(name, i)
    decreases |name| - from
  {
    if from + 5 > |name| then None
    else if JsonPatternAt(name, from) then Some(from)
    else JsonMatchFrom(name, from + 1)
  }

  /** `name.match(".json") != null`: an unanchored regular-expression search, not a suffix test. */
  predicate MatchesJsonPattern(name: string) {
    exists i | 0 <= i <= |name| - 5 :: JsonPatternAt(name, i)
  }

  /** The filter keeps a name exactly when the search finds a match, wherever it lies. */
  lemma JsonMatchDecidesFilter(name: string)
    ensures MatchesJsonPattern(name) <==> JsonMatchFrom(name, 0).Some?
    ensures JsonMatchFrom(name, 0).Some? ==> JsonMatchFrom(name, 0).value <= |name| - 5
  {
  }

  /** Every name ending in `.json` passes the filter. */
  lemma JsonSuffixMatches(name: string)
    requires EndsWith(name, ".json")
    ensures MatchesJsonPattern(name)
  {
    assert name[|name| - 5..][1..] == "json";
    assert JsonPatternAt(name, |name| - 5);
  }

  /** Any character other than a line terminator followed by `json`, anywhere in a name, passes the filter. */
  lemma JsonInsideMatches(before: string, c: char, after: string)
    requires !IsLineTerminator(c)
    ensures MatchesJsonPattern(before + [c] + "json" + after)
  {
    var name := before + [c] + "json" + after;
    assert name[|before|] == c && name[|before| + 1..|before| + 5] == "json";
    assert JsonPatternAt(name, |before|);
  }

  /** The filter is not a suffix test: these names pass it although none ends in `.json`. */
  lemma JsonPatternIsUnanchored()
    ensures MatchesJsonPattern("Token.json.bak") && !EndsWith("Token.json.bak", ".json")
    ensures MatchesJsonPattern("notes_json.txt") && !EndsWith("notes_json.txt", ".json")
    ensures !MatchesJsonPattern("json")
  {
    assert JsonPatternAt("Token.json.bak", 5);
    assert JsonPatternAt("notes_json.txt", 5);
  }

  /** The listing entries that pass the filter, in listing order. */
  function JsonArtifacts(names: seq<string>): (r: seq<string>)
    ensures forall f :: f in r <==> f in names && MatchesJsonPattern(f)
    ensures |r| <= |names|
    decreases |names|
  {
    if names == [] then []
    else (if MatchesJsonPattern(names[0]) then [names[0]] else []) + JsonArtifacts(names[1..])
  }

  /** Filtering keeps listing order: it distributes over concatenation of listings. */
  lemma {:induction false} JsonArtifactsKeepsOrder(a: seq<string>, b: seq<string>)
    ensures JsonArtifacts(a + b) == JsonArtifacts(a) + JsonArtifacts(b)
    decreases |a|
  {
    if a != [] {
      JsonArtifactsKeepsOrder(a[1..], b);
      var ab := a + b;
      assert ab != [] && ab[0] == a[0] && ab[1..] == a[1..] + b;
      if MatchesJsonPattern(a[0]) {
        assert JsonArtifacts(ab) == [a[0]] + JsonArtifacts(a[1..] + b);
        assert JsonArtifacts(a) == [a[0]] + JsonArtifacts(a[1..]);
      } else {
        assert JsonArtifacts(ab) == JsonArtifacts(a[1..] + b);
        assert JsonArtifacts(a) == JsonArtifacts(a[1..]);
      }
    } else {
      assert a + b == b;
    }
  }

  // ---------------------------------------------------------------------------
  // The artifact scan of `getContractName`
  // ---------------------------------------------------------------------------

  /**
   * Reading and parsing the listing entry `name` of `dir`, found at `path.resolve(dir, name)`;
   * both failures escape, naming that file.
   */
  function ReadArtifact(env: Env, dir: string, name: string): (r: Outcome<Artifact>)
    ensures var file := Path.Resolve(env.cwd, [dir, name]);
            && (r.Returned? <==> file in env.files && env.parseJson(env.files[file]).Some?)
            && (r.Returned? ==> env.parseJson(env.files[file]) == Some(r.value))
            && (r.Threw? ==> r.failure == (if file in env.files then ParseFailed(file) else ReadFailed(file)))
  {
    var file := Path.Resolve(env.cwd, [dir, name]);
    if file !in env.files then Threw(ReadFailed(file))
    else match env.parseJson(env.files[file])
      case None => Threw(ParseFailed(file))
      case Some(a) => Returned(a)
  }

  /**
   * Scans `names` in order for the artifact recorded for `sourcePath`. A contract name comes
   * from an entry recorded for `sourcePath`, a failure from an entry that fails, and `None`
   * only when every entry reads, parses and records another source path.
   */
  function ScanArtifacts(env: Env, dir: string, names: seq<string>, sourcePath: string): (r: Outcome<Option<string>>)
    ensures r.Returned? && r.value.Some? ==>
              exists name :: name in names && ReadArtifact(env, dir, name) == Returned(Artifact(sourcePath, r.value.value))
    ensures r.Threw? ==> exists name :: name in names && ReadArtifact(env, dir, name) == Threw(r.failure)
    ensures r == Returned(None) ==>
              forall name :: name in names ==>
                ReadArtifact(env, dir, name).Returned? && ReadArtifact(env, dir, name).value.sourcePath != sourcePath
    decreases |names|
  {
    if names == [] then Returned(None)
    else match ReadArtifact(env, dir, names[0])
      case Threw(e) => Threw(e)
      case Returned(a) =>
        if a.sourcePath == sourcePath then Returned(Some(a.contractName))
        else ScanArtifacts(env, dir, names[1..], sourcePath)
  }

  /** Every entry before position `k` reads, parses, and records another source path. */
  predicate PassedOver(env: Env, dir: string, names: seq<string>, sourcePath: string, k: int)
    requires 0 <= k <= |names|
  {
    forall j :: 0 <= j < k ==>
      ReadArtifact(env, dir, names[j]).Returned? && ReadArtifact(env, dir, names[j]).value.sourcePath != sourcePath
  }

  /** The scan stops at `name`: it fails to read or parse, or it is the artifact for `sourcePath`. */
  predicate StopsAt(env: Env, dir: string, name: string, sourcePath: string) {
    ReadArtifact(env, dir, name).Threw? || ReadArtifact(env, dir, name).value.sourcePath == sourcePath
  }

  /** What the scan yields when it stops at `name`. */
  function StopOutcome(env: Env, dir: string, name: string): Outcome<Option<string>> {
    match ReadArtifact(env, dir, name)
    case Threw(e) => Threw(e)
    case Returned(a) => Returned(Some(a.contractName))
  }

  /**
   * The scan is decided by the first entry it stops at: its failure escapes, or its
   * contract name is the answer; if it passes over every entry, nothing matches.
   */
  lemma {:induction false} ScanStopsAtFirst(env: Env, dir: string, names: seq<string>, sourcePath: string, k: int)
    requires 0 <= k <= |names|
    requires PassedOver(env, dir, names, sourcePath, k)
    ensures k < |names| && StopsAt(env, dir, names[k], sourcePath) ==>
              ScanArtifacts(env, dir, names, sourcePath) == StopOutcome(env, dir, names[k])
    ensures k == |names| ==> ScanArtifacts(env, dir, names, sourcePath) == Returned(None)
    decreases k
  {
    if k > 0 {
      assert ReadArtifact(env, dir, names[0]).Returned?;
      var tail := names[1..];
      assert PassedOver(env, dir, tail, sourcePath, k - 1) by {
        forall j | 0 <= j < k - 1
          ensures ReadArtifact(env, dir, tail[j]).Returned? && ReadArtifact(env, dir, tail[j]).value.sourcePath != sourcePath
        {
          assert tail[j] == names[j + 1];
        }
      }
      ScanStopsAtFirst(env, dir, tail, sourcePath, k - 1);
      if k < |names| {
        assert tail[k - 1] == names[k];
      }
    }
  }

  /**
   * What `getContractName` answers: the contract name an artifact of `dir` records for
   * `sourcePath`, or the fallback base name; a failure comes from the listing of `dir` or from
   * one of its filtered entries.
   */
  function ContractName(env: Env, sourcePath: string, dir: string): (r: Outcome<string>)
    ensures dir !in env.listings ==> r == Threw(ListFailed(dir))
    ensures dir in env.listings && r.Returned? ==>
              r.value == Path.Basename(sourcePath, ".sol") ||
              exists name :: name in env.listings[dir] && MatchesJsonPattern(name) &&
                ReadArtifact(env, dir, name) == Returned(Artifact(sourcePath, r.value))
    ensures dir in env.listings && r.Threw? ==>
              exists name :: name in env.listings[dir] && MatchesJsonPattern(name) && ReadArtifact(env, dir, name) == Threw(r.failure)
  {
    if dir !in env.listings then Threw(ListFailed(dir))
    else match ScanArtifacts(env, dir, JsonArtifacts(env.listings[dir]), sourcePath)
      case Threw(e) => Threw(e)
      case Returned(None) => Returned(Path.Basename(sourcePath, ".sol"))
      case Returned(Some(n)) => Returned(n)
  }

  /**
   * A build directory whose filtered listing is the one artifact `entry`, which reads and parses
   * to `a`: the contract name is `a`'s for `a`'s source path and the fallback for any other.
   */
  lemma SingleArtifactContractName(env: Env, dir: string, entry: string, a: Artifact, sourcePath: string)
    requires dir in env.listings && JsonArtifacts(env.listings[dir]) == [entry]
    requires ReadArtifact(env, dir, entry) == Returned(a)
    ensures sourcePath == a.sourcePath ==> ContractName(env, sourcePath, dir) == Returned(a.contractName)
    ensures sourcePath != a.sourcePath ==> ContractName(env, sourcePath, dir) == Returned(Path.Basename(sourcePath, ".sol"))
  {
    var names := [entry];
    assert names[1..] == [];
  }

  /**
   * The file `require` reads for a contract name: absolute for an absolute search directory,
   * and the entry `<contractName>.json` of a canonical search directory other than the root.
   */
  function ArtifactFile(dir: string, contractName: string): (r: string)
    ensures Path.IsAbsolute(dir) ==> Path.IsAbsolute(r)
    ensures Path.Canonical(dir) && dir != "/" && Path.IsName(contractName + ".json") ==>
              r == dir + "/" + contractName + ".json"
  {
    var name := contractName + ".json";
    if Path.Canonical(dir) && dir != "/" && Path.IsName(name) then
      Path.JoinCanonicalName(dir, name);
      Path.Join(dir, name)
    else
      Path.Join(dir, name)
  }

  /**
   * With every filtered artifact read and parsed and none recorded for `sourcePath`,
   * `getContractName` falls back to the base name of `sourcePath` without `.sol`.
   */
  lemma ContractNameFallback(env: Env, sourcePath: string, dir: string)
    requires dir in env.listings
    requires PassedOver(env, dir, JsonArtifacts(env.listings[dir]), sourcePath, |JsonArtifacts(env.listings[dir])|)
    ensures ContractName(env, sourcePath, dir) == Returned(Path.Basename(sourcePath, ".sol"))
  {
    var names := JsonArtifacts(env.listings[dir]);
    ScanStopsAtFirst(env, dir, names, sourcePath, |names|);
  }

  /**
   * `getContractName` answers with the contract name of the first filtered artifact recorded
   * for `sourcePath`, provided every artifact listed before it reads and parses.
   */
  lemma ContractNameFirstMatch(env: Env, sourcePath: string, dir: string, k: int)
    requires dir in env.listings
    requires 0 <= k < |JsonArtifacts(env.listings[dir])|
    requires PassedOver(env, dir, JsonArtifacts(env.listings[dir]), sourcePath, k)
    requires ReadArtifact(env, dir, JsonArtifacts(env.listings[dir])[k]).Returned?
    requires ReadArtifact(env, dir, JsonArtifacts(env.listings[dir])[k]).value.sourcePath == sourcePath
    ensures ContractName(env, sourcePath, dir) ==
              Returned(ReadArtifact(env, dir, JsonArtifacts(env.listings[dir])[k]).value.contractName)
  {
    var names := JsonArtifacts(env.listings[dir]);
    ScanStopsAtFirst(env, dir, names, sourcePath, k);
  }

  /**
   * A filtered artifact that fails to read or parse before any match makes
   * `getContractName` throw that failure.
   */
  lemma ContractNameCorruptArtifact(env: Env, sourcePath: string, dir: string, k: int)
    requires dir in env.listings
    requires 0 <= k < |JsonArtifacts(env.listings[dir])|
    requires PassedOver(env, dir, JsonArtifacts(env.listings[dir]), sourcePath, k)
    requires ReadArtifact(env, dir, JsonArtifacts(env.listings[dir])[k]).Threw?
    ensures ContractName(env, sourcePath, dir) == Threw(ReadArtifact(env, dir, JsonArtifacts(env.listings[dir])[k]).failure)
  {
    var names := JsonArtifacts(env.listings[dir]);
    ScanStopsAtFirst(env, dir, names, sourcePath, k);
  }

  // ---------------------------------------------------------------------------
  // The source itself
  // ---------------------------------------------------------------------------

  class FS {
    const workingDirectory: string
    const contractsBuildDirectory: string
    /** Where the bundled logging helper lives; chosen when the toolchain is built. */
    const shimPath: string

    constructor (workingDirectory: string, contractsBuildDirectory: string, shimPath: string)
      ensures this.workingDirectory == workingDirectory
      ensures this.contractsBuildDirectory == contractsBuildDirectory
      ensures this.shimPath == shimPath
    {
      this.workingDirectory := workingDirectory;
      this.contractsBuildDirectory := contractsBuildDirectory;
      this.shimPath := shimPath;
    }

    /** The search directory after the default parameter `searchPath = this.contractsBuildDirectory`. */
    function SearchDir(searchPath: Option<string>): (r: string)
      ensures searchPath.Some? ==> r == searchPath.value
      ensures searchPath.None? ==> r == contractsBuildDirectory
    {
      match searchPath
      case Some(dir) => dir
      case None => contractsBuildDirectory
    }

    /**
     * The sandbox test of `require`, `indexOf(workingDirectory) !== 0` on an absolute path: it
     * refuses exactly the absolute paths whose text does not start with the working directory.
     */
    predicate OutsideSandbox(normalized: string)
      ensures OutsideSandbox(normalized) <==> Path.IsAbsolute(normalized) && !StartsWith(normalized, workingDirectory)
    {
      IndexOfZeroIsPrefix(normalized, workingDirectory);
      Path.IsAbsolute(normalized) && IndexOf(normalized, workingDirectory) != 0
    }

    /**
     * `require`: the parsed artifact of the contract `importPath` names, or `None`.
     * The contract name is looked up first, so its failures escape even for a path the
     * sandbox refuses; after that, a refused path, a missing artifact file and an
     * unparsable one all give `None`, indistinguishably.
     */
    method Require(env: Env, importPath: string, searchPath: Option<string>) returns (r: Outcome<Option<Artifact>>)
      ensures ContractName(env, Path.Normalize(importPath), SearchDir(searchPath)).Threw? ==>
                r == Threw(ContractName(env, Path.Normalize(importPath), SearchDir(searchPath)).failure)
      ensures r.Threw? ==> ContractName(env, Path.Normalize(importPath), SearchDir(searchPath)).Threw?
      ensures r.Returned? && OutsideSandbox(Path.Normalize(importPath)) ==> r.value == None
      ensures r.Returned? && r.value.Some? ==>
                var file := ArtifactFile(SearchDir(searchPath), ContractName(env, Path.Normalize(importPath), SearchDir(searchPath)).value);
                && !OutsideSandbox(Path.Normalize(importPath))
                && file in env.files && env.parseJson(env.files[file]) == r.value
      ensures r.Returned? && r.value.None? && !OutsideSandbox(Path.Normalize(importPath)) ==>
                var file := ArtifactFile(SearchDir(searchPath), ContractName(env, Path.Normalize(importPath), SearchDir(searchPath)).value);
                file !in env.files || env.parseJson(env.files[file]).None?
    {
      var normalizedImportPath := Path.Normalize(importPath);
      var dir := SearchDir(searchPath);
      var contractName := GetContractName(env, normalizedImportPath, Some(dir));
      if contractName.Threw? {
        return Threw(contractName.failure);
      }

      if Path.IsAbsolute(normalizedImportPath) {
        IndexOfZeroIsPrefix(normalizedImportPath, workingDirectory);
        if IndexOf(normalizedImportPath, workingDirectory) != 0 {
          return Returned(None);
        }
      }

      var file := ArtifactFile(dir, contractName.value);
      if file !in env.files {
        return Returned(None);
      }
      r := Returned(env.parseJson(env.files[file]));
    }

    /**
     * `getContractName`: the contract name recorded by the first filtered artifact of the
     * listing whose source path is `sourcePath`, else the base name without `.sol`.
     * A listing, read or parse failure met before a match escapes.
     */
    method GetContractName(env: Env, sourcePath: string, searchPath: Option<string>) returns (r: Outcome<string>)
      ensures r == ContractName(env, sourcePath, SearchDir(searchPath))
    {
      var dir := SearchDir(searchPath);
      if dir !in env.listings {
        return Threw(ListFailed(dir));
      }
      var filteredBuildArtifacts := JsonArtifacts(env.listings[dir]);

      var i := 0;
      while i < |filteredBuildArtifacts|
        invariant 0 <= i <= |filteredBuildArtifacts|
        invariant ScanArtifacts(env, dir, filteredBuildArtifacts[i..], sourcePath) ==
                  ScanArtifacts(env, dir, filteredBuildArtifacts, sourcePath)
      {
        var buildArtifact := filteredBuildArtifacts[i];
        var file := Path.Resolve(env.cwd, [dir, buildArtifact]);
        if file !in env.files {
          return Threw(ReadFailed(file));
        }
        var artifact := env.parseJson(env.files[file]);
        if artifact.None? {
          return Threw(ParseFailed(file));
        }
        if artifact.value.sourcePath == sourcePath {
          return Returned(artifact.value.contractName);
        }
        assert filteredBuildArtifacts[i..][1..] == filteredBuildArtifacts[i + 1..];
        i := i + 1;
      }

      r := Returned(Path.Basename(sourcePath, ".sol"));
    }

    /**
     * `resolve`: the logging-helper import is read from the bundled helper and never
     * looked up; any other import tries the literal path, then the path relative to the
     * directory of `importedFrom`, and returns the first that reads. Read failures of the
     * candidates are swallowed; only the helper's read failure escapes.
     */
    method Resolve(env: Env, importPath: string, importedFrom: Option<string>) returns (r: Outcome<ResolvedImport>)
      ensures importPath == CONSOLE_IMPORT && shimPath in env.files ==>
                r == Returned(ResolvedImport(Some(env.files[shimPath]), Some(CONSOLE_IMPORT)))
      ensures importPath == CONSOLE_IMPORT && shimPath !in env.files ==> r == Threw(ReadFailed(shimPath))
      ensures importPath != CONSOLE_IMPORT && importPath in env.files ==>
                r == Returned(ResolvedImport(Some(env.files[importPath]), Some(importPath)))
      ensures importPath != CONSOLE_IMPORT && importPath !in env.files &&
              RelativeCandidate(importPath, importedFrom) in env.files ==>
                r == Returned(ResolvedImport(
                       Some(env.files[RelativeCandidate(importPath, importedFrom)]),
                       Some(RelativeCandidate(importPath, importedFrom))))
      ensures importPath != CONSOLE_IMPORT && importPath !in env.files &&
              RelativeCandidate(importPath, importedFrom) !in env.files ==>
                r == Returned(ResolvedImport(None, None))
      ensures r.Threw? ==> importPath == CONSOLE_IMPORT
    {
      var from := match importedFrom case Some(f) => f case None => "";
      var possiblePaths := [importPath, Path.Join(Path.Dirname(from), importPath)];

      var body: Option<string>, filePath: Option<string> := None, None;

      if importPath == CONSOLE_IMPORT {
        if shimPath !in env.files {
          return Threw(ReadFailed(shimPath));
        }
        body := Some(env.files[shimPath]);
        filePath := Some(importPath);
        return Returned(ResolvedImport(body, filePath));
      }

      var i := 0;
      while i < |possiblePaths|
        invariant 0 <= i <= |possiblePaths|
        invariant forall j :: 0 <= j < i ==> possiblePaths[j] !in env.files
        invariant i > 0 ==> importPath !in env.files
        invariant i > 1 ==> RelativeCandidate(importPath, importedFrom) !in env.files
        invariant body == None && filePath == None
      {
        var possiblePath := possiblePaths[i];
        if possiblePath in env.files {
          body := Some(env.files[possiblePath]);
          filePath := Some(possiblePath);
          return Returned(ResolvedImport(body, filePath));
        }
        i := i + 1;
      }

      r := Returned(ResolvedImport(body, filePath));
    }

    /**
     * `resolveDependencyPath`: the dependency's path resolved against the directory of the
     * importing file; canonical and absolute, with no file-system access.
     */
    function ResolveDependencyPath(env: Env, importPath: string, dependencyPath: string): (r: string)
      ensures Path.Canonical(r)
    {
      var dirname := Path.Dirname(importPath);
      Path.ResolveCanonical(env.cwd, [Path.Join(dirname, dependencyPath)]);
      Path.Resolve(env.cwd, [Path.Join(dirname, dependencyPath)])
    }
  }

  /**
   * The second candidate of `resolve`: `importPath` joined to the directory of the importer
   * (`""` when absent). It is absolute exactly when the importer is, and for an importer in a
   * canonical directory other than the root, a plain name is the importer's sibling.
   */
  function RelativeCandidate(importPath: string, importedFrom: Option<string>): (r: string)
    ensures Path.IsAbsolute(r) <==> importedFrom.Some? && Path.IsAbsolute(importedFrom.value)
    ensures importedFrom.Some? && Path.Canonical(Path.Dirname(importedFrom.value)) &&
            Path.Dirname(importedFrom.value) != "/" && Path.IsName(importPath) ==>
              r == Path.Dirname(importedFrom.value) + "/" + importPath
  {
    var from := match importedFrom case Some(f) => f case None => "";
    var dir := Path.Dirname(from);
    if Path.Canonical(dir) && dir != "/" && Path.IsName(importPath) then
      Path.JoinCanonicalName(dir, importPath);
      Path.Join(dir, importPath)
    else
      Path.Join(dir, importPath)
  }

  /** For an absolute importing file the dependency path does not depend on the process working directory. */
  lemma DependencyPathIgnoresCwd(fs: FS, env1: Env, env2: Env, importPath: string, dependencyPath: string)
    requires Path.IsAbsolute(importPath)
    ensures fs.ResolveDependencyPath(env1, importPath, dependencyPath) == fs.ResolveDependencyPath(env2, importPath, dependencyPath)
  {
    var joined := Path.Join(Path.Dirname(importPath), dependencyPath);
    Path.ResolveIgnoresCwd(env1.cwd, env2.cwd, [joined]);
  }

  /**
   * A dependency `name` or `./name` of a file in a canonical directory other than the root is
   * that directory's entry `name`, wherever the process runs.
   */
  lemma DependencyPathSibling(fs: FS, env: Env, importPath: string, name: string)
    requires Path.Canonical(Path.Dirname(importPath)) && Path.Dirname(importPath) != "/" && Path.IsName(name)
    ensures fs.ResolveDependencyPath(env, importPath, name) == Path.Dirname(importPath) + "/" + name
    ensures fs.ResolveDependencyPath(env, importPath, "./" + name) == Path.Dirname(importPath) + "/" + name
  {
    var dir := Path.Dirname(importPath);
    Path.JoinCanonicalName(dir, name);
    Path.JoinDotName(dir, name);
    Path.ResolveCanonicalPath(env.cwd, dir + "/" + name);
  }

  /** The sandbox of `require` is a text prefix test, not a containment test. */
  lemma SandboxIsTextPrefix(fs: FS)
    requires fs.workingDirectory == "/proj"
    ensures !fs.OutsideSandbox("/proj2/x")
    ensures !fs.OutsideSandbox("/proj/contracts/Token.sol")
    ensures fs.OutsideSandbox("/other/Token.sol")
    ensures !fs.OutsideSandbox("contracts/Token.sol")
  {
    assert "/other/Token.sol"[..5][1] != "/proj"[1];
  }

  lemma DirnameOfFooExample()
    ensures Path.Dirname("/a/b/Foo.sol") == "/a/b"
  {
    var importer := "/a/b/Foo.sol";
    assert Path.DirEnd(importer, 4, false) == 4;
    assert Path.DirEnd(importer, 11, true) == 4;
  }

  /** The dependency `./Bar.sol` of `/a/b/Foo.sol` is `/a/b/Bar.sol`, wherever the process runs. */
  lemma DependencyPathExample(fs: FS, env: Env)
    ensures fs.ResolveDependencyPath(env, "/a/b/Foo.sol", "./Bar.sol") == "/a/b/Bar.sol"
  {
    DirnameOfFooExample();
    DependencyInTwoLevelDir(fs, env, "/a/b/Foo.sol", "/a/b", "a", "b", "Bar.sol", "./Bar.sol", "/a/b/Bar.sol");
  }

  lemma DependencyInTwoLevelDir(fs: FS, env: Env, importPath: string, dir: string, a: string, b: string,
                                name: string, dependency: string, expected: string)
    requires Path.IsName(a) && Path.IsName(b) && Path.IsName(name)
    requires dir == "/" + a + "/" + b && Path.Dirname(importPath) == dir
    requires dependency == "./" + name && expected == dir + "/" + name
    ensures fs.ResolveDependencyPath(env, importPath, dependency) == expected
  {
    NormalizeTwo(dir, a, b);
    DependencyPathSibling(fs, env, importPath, name);
  }

  // ---------------------------------------------------------------------------
  // The build-directory scenario: working directory `/proj`, build directory
  // `/proj/build` holding the one artifact `Token.json`.
  // ---------------------------------------------------------------------------

  /** `/a/b/c` is canonical for names `a`, `b`, `c`, so normalizing keeps it. */
  lemma NormalizeThree(p: string, a: string, b: string, c: string)
    requires Path.IsName(a) && Path.IsName(b) && Path.IsName(c)
    requires p == "/" + a + "/" + b + "/" + c
    ensures Path.Canonical(p) && p != "/"
    ensures Path.Normalize(p) == p
  {
    Path.CanonicalRoot(a);
    Path.CanonicalExtend("/" + a, b);
    Path.CanonicalExtend("/" + a + "/" + b, c);
    Path.NormalizeCanonical(p);
  }

  /** `/a/b` is canonical for names `a`, `b`, so normalizing keeps it. */
  lemma NormalizeTwo(p: string, a: string, b: string)
    requires Path.IsName(a) && Path.IsName(b)
    requires p == "/" + a + "/" + b
    ensures Path.Canonical(p) && p != "/"
    ensures Path.Normalize(p) == p
  {
    Path.CanonicalRoot(a);
    Path.CanonicalExtend("/" + a, b);
    Path.NormalizeCanonical(p);
  }

  /** The entry `name` of `/a/b`, as `path.resolve` and `path.join` spell it. */
  lemma EntryOfTwoLevelDir(cwd: Path.AbsolutePath, dir: string, a: string, b: string, name: string, file: string)
    requires Path.IsName(a) && Path.IsName(b) && Path.IsName(name)
    requires dir == "/" + a + "/" + b && file == dir + "/" + name
    ensures Path.Resolve(cwd, [dir, name]) == file
    ensures Path.Join(dir, name) == file
  {
    NormalizeTwo(dir, a, b);
    Path.ResolveCanonicalName(cwd, dir, name);
    Path.JoinCanonicalName(dir, name);
  }

  /** The scenario's one listing entry passes the filter. */
  lemma ScenarioFilter(entry: string)
    requires entry == "Token.json"
    ensures JsonArtifacts([entry]) == [entry]
  {
    JsonInsideMatches("Token", '.', "");
    assert "Token" + ['.'] + "json" + "" == entry;
  }

  /** The scenario's artifact file, as `getContractName` resolves it and as `require` joins it. */
  lemma ScenarioFile(cwd: Path.AbsolutePath, dir: string, entry: string, file: string)
    requires dir == "/proj/build" && entry == "Token.json" && file == "/proj/build/Token.json"
    ensures Path.Resolve(cwd, [dir, entry]) == file
    ensures ArtifactFile(dir, "Token") == file
  {
    assert "/" + "proj" == "/proj";
    assert "/proj" + "/" == "/proj/";
    assert "/proj/" + "build" == dir;
    assert dir + "/" == "/proj/build/";
    assert "/proj/build/" + entry == file;
    assert "Token" + ".json" == entry;
    EntryOfTwoLevelDir(cwd, dir, "proj", "build", entry, file);
  }

  /** The scenario's two source paths are already in normal form. */
  lemma ScenarioNormalForm(source: string)
    requires source == "/proj/contracts/Token.sol" || source == "/other/Token.sol"
    ensures Path.Normalize(source) == source
  {
    if source == "/proj/contracts/Token.sol" {
      assert "/" + "proj" + "/" + "contracts" == "/proj/contracts";
      assert "/proj/contracts" + "/" + "Token.sol" == source;
      NormalizeThree(source, "proj", "contracts", "Token.sol");
    } else {
      assert "/" + "other" + "/" + "Token.sol" == source;
      NormalizeTwo(source, "other", "Token.sol");
    }
  }

  /** The environment of the scenario: the one artifact `entry` of `dir`, stored at `file`. */
  function ScenarioEnv(dir: string, entry: string, file: string, token: Artifact, text: string): (env: Env)
    ensures env.files == map[file := text] && env.listings == map[dir := [entry]]
    ensures env.parseJson(text) == Some(token)
  {
    Env("/proj", map[file := text], map[dir := [entry]], s => if s == text then Some(token) else None)
  }

  /**
   * In the scenario, the facts `require` needs for a source path `source`: its contract name,
   * and the artifact file that name leads to.
   */
  lemma ScenarioFacts(env: Env, token: Artifact, text: string, dir: string, entry: string, file: string, source: string)
    requires dir == "/proj/build" && entry == "Token.json" && file == "/proj/build/Token.json"
    requires env.files == map[file := text] && env.listings == map[dir := [entry]]
    requires env.parseJson(text) == Some(token) && token == Artifact("/proj/contracts/Token.sol", "Token")
    ensures source == token.sourcePath ==> ContractName(env, source, dir) == Returned("Token")
    ensures ContractName(env, source, dir).Returned?
    ensures ArtifactFile(dir, "Token") == file && file in env.files && env.files[file] == text
  {
    ScenarioFilter(entry);
    ScenarioFile(env.cwd, dir, entry, file);
    assert ReadArtifact(env, dir, entry) == Returned(token);
    SingleArtifactContractName(env, dir, entry, token, source);
  }

  /** `require("/proj/contracts/Token.sol")` returns the Token artifact. */
  method TokenScenarioInside() returns (r: Outcome<Option<Artifact>>)
    ensures r == Returned(Some(Artifact("/proj/contracts/Token.sol", "Token")))
  {
    var dir, entry, file := "/proj/build", "Token.json", "/proj/build/Token.json";
    var token := Artifact("/proj/contracts/Token.sol", "Token");
    var text := "{\"sourcePath\":\"/proj/contracts/Token.sol\",\"contractName\":\"Token\"}";
    var env := ScenarioEnv(dir, entry, file, token, text);
    var source := token.sourcePath;
    ScenarioNormalForm(source);
    ScenarioFacts(env, token, text, dir, entry, file, source);
    var fs := new FS("/proj", dir, "/toolchain/logging/Console.sol");
    SandboxIsTextPrefix(fs);
    r := fs.Require(env, source, None);
  }

  /** `require("/other/Token.sol")` returns `None`, although an artifact for that file name exists. */
  method TokenScenarioOutside() returns (r: Outcome<Option<Artifact>>)
    ensures r == Returned(None)
  {
    var dir, entry, file := "/proj/build", "Token.json", "/proj/build/Token.json";
    var token := Artifact("/proj/contracts/Token.sol", "Token");
    var text := "{\"sourcePath\":\"/proj/contracts/Token.sol\",\"contractName\":\"Token\"}";
    var env := ScenarioEnv(dir, entry, file, token, text);
    var source := "/other/Token.sol";
    ScenarioNormalForm(source);
    ScenarioFacts(env, token, text, dir, entry, file, source);
    var fs := new FS("/proj", dir, "/toolchain/logging/Console.sol");
    SandboxIsTextPrefix(fs);
    r := fs.Require(env, source, None);
  }
}
