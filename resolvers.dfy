/**
 * Where mapping files come from: files on the local disk, and archives fetched
 * from the build server with the `fetch_artifact` tool into a per-build
 * directory below the temporary directory. A lazy retracer builds its
 * retracer on first use and keeps it (RetraceWrapper.java:108-172, 847-941).
 *
 * Paths are '/'-separated strings. The file system is a value: its
 * directories, its regular files in the order they were created (which is
 * also the order a walk visits them) and each file's lines.
 */
module Resolvers {
  import opened Wrappers
  import opened JavaString
  import opened Sequences
  import opened MapIdentity
  import opened Console

  /** Path.resolve: an absolute name replaces the directory, an empty one leaves it. */
  function Resolve(dir: string, name: string): string
  {
    if name == [] then dir
    else if name[0] == '/' then name
    else dir + "/" + name
  }

  /** Path.relativize for a path at or below `base`, the only kind a walk of `base` yields. */
  function Relativize(base: string, p: string): string
  {
    if StartsWith(p, base + "/") then p[|base| + 1..]
    else if p == base then ""
    else p
  }

  /** Relativizing a resolved relative name gives the name back. */
  lemma RelativizeResolve(dir: string, name: string)
    requires name != [] && name[0] != '/'
    ensures Relativize(dir, Resolve(dir, name)) == name
  {
    var p := dir + "/" + name;
    assert p[..|dir + "/"|] == dir + "/";
    assert p[|dir| + 1..] == name;
  }

  /** Path.endsWith(name) for a one-component name: the last component of `p` is `name`. */
  predicate EndsWithComponent(p: string, name: string)
  {
    p == name || EndsWith(p, "/" + name)
  }

  /** `p` is `root` itself or lies below it. */
  predicate AtOrBelow(p: string, root: string)
  {
    p == root || StartsWith(p, root + "/")
  }

  /** The paths of `paths` at or below `root`, in order. */
  function Below(paths: seq<string>, root: string): (r: seq<string>)
    ensures |r| <= |paths|
  {
    if paths == [] then []
    else (if AtOrBelow(paths[0], root) then [paths[0]] else []) + Below(paths[1..], root)
  }

  lemma {:induction false} BelowMembers(paths: seq<string>, root: string, p: string)
    ensures p in Below(paths, root) <==> p in paths && AtOrBelow(p, root)
  {
    if paths != [] {
      BelowMembers(paths[1..], root, p);
      assert paths == [paths[0]] + paths[1..];
    }
  }

  datatype FileSystem = FileSystem(dirs: set<string>, paths: seq<string>, contents: map<string, seq<string>>)
  {
    /** Every regular file is listed once in creation order. */
    ghost predicate Valid()
    {
      && (forall p :: p in contents <==> p in paths)
      && (forall i, j :: 0 <= i < j < |paths| ==> paths[i] != paths[j])
    }

    /** Files.exists. */
    predicate Exists(p: string)
    {
      p in dirs || p in contents
    }

    /** The regular files a walk of `root` visits, `root` included when it is a file. */
    function Walk(root: string): seq<string>
    {
      Below(paths, root)
    }

    /** Files.createDirectories when the directory is not there yet. */
    function WithDir(dir: string): FileSystem
    {
      if Exists(dir) then this else this.(dirs := dirs + {dir})
    }

    /** Write a regular file; a new one goes last in the creation order. */
    function AddFile(p: string, lines: seq<string>): (r: FileSystem)
      requires Valid()
      ensures r.Valid()
      ensures r.contents == contents[p := lines] && r.dirs == dirs
    {
      if p in contents then this.(contents := contents[p := lines])
      else
        var r := this.(paths := paths + [p], contents := contents[p := lines]);
        assert forall q :: q in r.paths <==> q in paths || q == p;
        r
    }

    /** Write the files a tool run created, named relative to its working directory. */
    function AddFiles(dir: string, created: seq<(string, seq<string>)>): (r: FileSystem)
      requires Valid()
      ensures r.Valid() && r.dirs == dirs
      decreases |created|
    {
      if created == [] then this
      else AddFile(Resolve(dir, created[0].0), created[0].1).AddFiles(dir, created[1..])
    }
  }

  /** A walk visits exactly the regular files at or below its root. */
  lemma WalkMembers(fs: FileSystem, root: string, p: string)
    requires fs.Valid()
    ensures p in fs.Walk(root) <==> p in fs.contents && AtOrBelow(p, root)
  {
    BelowMembers(fs.paths, root, p);
  }

  /** A file a tool run creates is there afterwards, whatever else it creates. */
  lemma {:induction false} AddFilesCreates(fs: FileSystem, dir: string, created: seq<(string, seq<string>)>, k: nat)
    requires fs.Valid() && k < |created|
    ensures Resolve(dir, created[k].0) in fs.AddFiles(dir, created).contents
    decreases |created|
  {
    var next := fs.AddFile(Resolve(dir, created[0].0), created[0].1);
    if k == 0 {
      KeepsFiles(next, dir, created[1..]);
    } else {
      AddFilesCreates(next, dir, created[1..], k - 1);
    }
  }

  /** Writing files never removes one. */
  lemma {:induction false} KeepsFiles(fs: FileSystem, dir: string, created: seq<(string, seq<string>)>)
    requires fs.Valid()
    ensures fs.contents.Keys <= fs.AddFiles(dir, created).contents.Keys
    decreases |created|
  {
    if created != [] {
      KeepsFiles(fs.AddFile(Resolve(dir, created[0].0), created[0].1), dir, created[1..]);
    }
  }

  /** fetchArtifactCommand: the tool, the build's flags, the optional zip entry, then the artifact. */
  function FetchArtifactCommand(b: BuildInfo, artifact: string, entry: Option<string>): seq<string>
  {
    ["fetch_artifact", "--bid", b.id, "--target", b.target] + OptionalArgs(b.branch, entry) + [artifact]
  }

  /** The branch flag and the zip-entry flag, each only when given. */
  function OptionalArgs(branch: Option<string>, entry: Option<string>): seq<string>
  {
    (if branch.Some? then ["--branch", branch.value] else [])
    + (if entry.Some? then ["--zip_entry", entry.value] else [])
  }

  /** Flag/value pairs read from the front; a flag given twice keeps its first value. */
  function OptionPairs(args: seq<string>): map<string, string>
  {
    if |args| < 2 then map[] else OptionPairs(args[2..])[args[0] := args[1]]
  }

  /**
   * The command names the tool first and the artifact last, and the pairs
   * between them give back the build id, the target, the branch exactly when
   * there is one and the zip entry exactly when there is one.
   */
  lemma FetchArtifactCommandOptions(b: BuildInfo, artifact: string, entry: Option<string>)
    ensures
      var cmd := FetchArtifactCommand(b, artifact, entry);
      var options := OptionPairs(cmd[1..|cmd| - 1]);
      && cmd[0] == "fetch_artifact" && cmd[|cmd| - 1] == artifact
      && options.Keys <= {"--bid", "--target", "--branch", "--zip_entry"}
      && "--bid" in options && options["--bid"] == b.id
      && "--target" in options && options["--target"] == b.target
      && ("--branch" in options <==> b.branch.Some?)
      && (b.branch.Some? ==> options["--branch"] == b.branch.value)
      && ("--zip_entry" in options <==> entry.Some?)
      && (entry.Some? ==> options["--zip_entry"] == entry.value)
  {
    var cmd := FetchArtifactCommand(b, artifact, entry);
    var tail := OptionalArgs(b.branch, entry);
    var args := ["--bid", b.id] + (["--target", b.target] + tail);
    assert cmd == ["fetch_artifact"] + args + [artifact];
    assert cmd[1..|cmd| - 1] == args;
    OptionalOptions(b.branch, entry);
    OptionPairsCons("--target", b.target, tail);
    OptionPairsCons("--bid", b.id, ["--target", b.target] + tail);
  }

  lemma OptionalOptions(branch: Option<string>, entry: Option<string>)
    ensures
      var options := OptionPairs(OptionalArgs(branch, entry));
      && options.Keys <= {"--branch", "--zip_entry"}
      && ("--branch" in options <==> branch.Some?)
      && (branch.Some? ==> options["--branch"] == branch.value)
      && ("--zip_entry" in options <==> entry.Some?)
      && (entry.Some? ==> options["--zip_entry"] == entry.value)
  {
    var entryPart := if entry.Some? then ["--zip_entry", entry.value] else [];
    if entry.Some? {
      OptionPairsCons("--zip_entry", entry.value, []);
    }
    if branch.Some? {
      OptionPairsCons("--branch", branch.value, entryPart);
    } else {
      assert OptionalArgs(branch, entry) == entryPart;
    }
  }

  lemma OptionPairsCons(flag: string, value: string, rest: seq<string>)
    ensures OptionPairs([flag, value] + rest) == OptionPairs(rest)[flag := value]
  {
    assert ([flag, value] + rest)[2..] == rest;
  }

  /** The per-build directory below the temporary directory (getTempBuildDirPath). */
  function TempBuildDirPath(b: BuildInfo, tempDir: string): string
  {
    Resolve(tempDir, b.TempDirName())
  }

  /** The text of the exception a failed fetch raises (its lines joined by a line separator). */
  function FetchFailedMessage(command: seq<string>, stdout: string): string
  {
    JoinWith(["Failed attempt to fetch_artifact.", "Command: " + JoinWith(command, ' '), "Stdout:", stdout], '\n')
  }

  /** The text of the exception a failed glob fetch raises. */
  function GlobFailedMessage(command: seq<string>): string
  {
    JoinWith(["Failed attempt to fetch_artifact.", "Command: " + JoinWith(command, ' ')], '\n')
  }

  /** The text of the exception raised when `fetch_artifact` cannot be started. */
  const NotInstalledMessage: string :=
    JoinWith(["Using build identification flags requires 'fetch_artifact'.",
              "Cannot find 'fetch_artifact' in PATH. Install it using:",
              "  sudo apt install android-fetch-artifact"], '\n')

  /** What running a command does: its exit code, its standard output and the files it writes. */
  datatype ToolRun = ToolRun(exitCode: int, stdout: string, created: seq<(string, seq<string>)>)

  /** What a run whose standard output is inherited adds to ours: its output, when it wrote any. */
  function Echoed(run: ToolRun): seq<string>
  {
    if run.stdout == "" then [] else [run.stdout]
  }

  /** The file system and the `fetch_artifact` tool the retracer works with. */
  class Workspace {
    var fs: FileSystem
    /** The fetch commands run so far, in order. */
    var runs: seq<seq<string>>
    /** Whether `fetch_artifact` is on the PATH. */
    const installed: bool
    /** The outcome of running a fetch command. */
    const tool: seq<string> -> ToolRun

    constructor (fs: FileSystem, installed: bool, tool: seq<string> -> ToolRun)
      requires fs.Valid()
      ensures this.fs == fs && runs == [] && this.installed == installed && this.tool == tool
    {
      this.fs := fs;
      runs := [];
      this.installed := installed;
      this.tool := tool;
    }

    /** ensureFetchArtifactCommand: fail unless the tool can be started. */
    method EnsureFetchArtifactCommand(console: Console) returns (r: Option<Abort>)
      modifies console
      ensures installed ==> r == None && unchanged(console)
      ensures !installed ==> r == Some(Error(NotInstalledMessage))
      ensures !installed ==> console.err == old(console.err) + old(console.pending)
      ensures console.out == old(console.out) && console.pending == old(console.pending)
    {
      if !installed {
        var a := console.Fail(NotInstalledMessage);
        return Some(a);
      }
      return None;
    }

    /** ensureTempBuildDir: create the per-build directory unless something is there already. */
    method EnsureTempBuildDir(b: BuildInfo, tempDir: string) returns (dir: string)
      requires fs.Valid()
      modifies this
      ensures dir == TempBuildDirPath(b, tempDir)
      ensures fs == old(fs).WithDir(dir) && fs.Valid() && runs == old(runs)
    {
      dir := TempBuildDirPath(b, tempDir);
      if !fs.Exists(dir) {
        fs := fs.(dirs := fs.dirs + {dir});
      }
    }

    /** Run a fetch command in `dir`, recording it and writing the files it creates. */
    method Run(command: seq<string>, dir: string) returns (run: ToolRun)
      requires fs.Valid()
      modifies this
      ensures run == tool(command)
      ensures runs == old(runs) + [command]
      ensures fs == old(fs).AddFiles(dir, run.created) && fs.Valid()
    {
      run := tool(command);
      runs := runs + [command];
      fs := fs.AddFiles(dir, run.created);
    }

    /**
     * fetchArtifact: the artifact, or the given entry of it, lands in the
     * per-build directory. A file already there is used as it is and nothing
     * is fetched; otherwise the fetch runs once and a nonzero exit fails.
     * Without the tool on the PATH starting it throws instead, and nothing runs.
     */
    method FetchArtifact(b: BuildInfo, artifact: string, entry: Option<string>, tempDir: string, console: Console)
      returns (r: Result<string, Abort>)
      requires fs.Valid()
      modifies this, console
      ensures fs.Valid()
      ensures
        var dir := TempBuildDirPath(b, tempDir);
        var outFile := Resolve(dir, if entry.Some? then entry.value else artifact);
        var command := FetchArtifactCommand(b, artifact, entry);
        var before := old(fs).WithDir(dir);
        if before.Exists(outFile) then
          && r == Success(outFile) && fs == before && runs == old(runs) && unchanged(console)
        else if !installed then
          && r == Failure(CannotStart) && fs == before && runs == old(runs) && unchanged(console)
        else
          && runs == old(runs) + [command]
          && fs == before.AddFiles(dir, tool(command).created)
          && (tool(command).exitCode == 0 ==> r == Success(outFile) && unchanged(console))
          && (tool(command).exitCode != 0 ==>
                && r == Failure(Error(FetchFailedMessage(command, tool(command).stdout)))
                && console.err == old(console.err) + old(console.pending)
                && console.out == old(console.out) && console.pending == old(console.pending))
    {
      var dir := EnsureTempBuildDir(b, tempDir);
      var outFile := Resolve(dir, if entry.Some? then entry.value else artifact);
      if fs.Exists(outFile) {
        return Success(outFile);
      }
      if !installed {
        return Failure(CannotStart);
      }
      var command := FetchArtifactCommand(b, artifact, entry);
      var run := Run(command, dir);
      if run.exitCode == 0 {
        return Success(outFile);
      }
      var a := console.Fail(FetchFailedMessage(command, run.stdout));
      return Failure(a);
    }

    /**
     * fetchArtifactGlob: fetch every artifact matching the pattern, keeping
     * the directory structure; the command is echoed to standard output
     * first, and the tool writes its own output there too.
     */
    method FetchArtifactGlob(b: BuildInfo, artifact: string, dir: string, console: Console)
      returns (r: Option<Abort>)
      requires fs.Valid()
      modifies this, console
      ensures fs.Valid()
      ensures
        var command := FetchArtifactCommand(b, artifact, None) + ["--preserve_directory_structure"];
        var echoed := old(console.out) + [JoinWith(command, ' ')];
        && console.pending == old(console.pending)
        && (!installed ==>
              r == Some(CannotStart) && fs == old(fs) && runs == old(runs)
              && console.out == echoed && console.err == old(console.err))
        && (installed ==>
              && runs == old(runs) + [command]
              && fs == old(fs).AddFiles(dir, tool(command).created)
              && console.out == echoed + Echoed(tool(command))
              && (tool(command).exitCode == 0 ==> r == None && console.err == old(console.err))
              && (tool(command).exitCode != 0 ==>
                    r == Some(Error(GlobFailedMessage(command))) && console.err == old(console.err) + old(console.pending)))
    {
      var command := FetchArtifactCommand(b, artifact, None) + ["--preserve_directory_structure"];
      console.Println(JoinWith(command, ' '));
      if !installed {
        return Some(CannotStart);
      }
      var run := Run(command, dir);
      console.Echo(run.stdout);
      if run.exitCode != 0 {
        var a := console.Fail(GlobFailedMessage(command));
        return Some(a);
      }
      return None;
    }
  }

  /** What a lazy retracer builds its retracer from. */
  datatype RetracerSource =
    /** LocalLazyRetracer: a map file on disk; the default map given as a file has no map info. */
    | Local(localInfo: Option<MapInfo>, mapPath: string)
    /** RemoteLazyRetracer: an entry of a mapping archive of a build. */
    | Remote(mapInfo: MapInfo, build: BuildInfo, mappingFile: string, zipEntry: string)
  {
    /** getMapLocation: the map path, or the fetch command written out with spaces. */
    function MapLocation(): string
    {
      match this
      case Local(_, mapPath) => mapPath
      case Remote(_, build, mappingFile, zipEntry) =>
        JoinWith(FetchArtifactCommand(build, mappingFile, Some(zipEntry)), ' ')
    }
  }

  /** The map file a lazy retracer builds its retracer from, for a run whose temporary directory is `tempDir`. */
  function MapFile(s: RetracerSource, tempDir: string): string
  {
    match s
    case Local(_, mapPath) => mapPath
    case Remote(_, build, _, zipEntry) => Resolve(TempBuildDirPath(build, tempDir), zipEntry)
  }

  /** A remote map location is the fetch command itself: split at spaces it gives the command back. */
  lemma RemoteLocationIsCommand(s: RetracerSource)
    requires s.Remote?
    requires ' ' !in s.build.id && ' ' !in s.build.target && ' ' !in s.mappingFile && ' ' !in s.zipEntry
    requires s.build.branch.Some? ==> ' ' !in s.build.branch.value
    ensures SplitOn(s.MapLocation(), ' ') == FetchArtifactCommand(s.build, s.mappingFile, Some(s.zipEntry))
  {
    var cmd := FetchArtifactCommand(s.build, s.mappingFile, Some(s.zipEntry));
    forall k | 0 <= k < |cmd| ensures ' ' !in cmd[k] {
      assert cmd[k] in ["fetch_artifact", "--bid", s.build.id, "--target", s.build.target,
                        "--zip_entry", s.zipEntry, s.mappingFile]
          || (s.build.branch.Some? && cmd[k] in ["--branch", s.build.branch.value]);
    }
    SplitJoin(cmd, ' ');
  }

  /**
   * A lazy retracer: the retracer is built on first use and kept. The
   * retracer is identified here by the map file it is built from.
   */
  class LazyRetracer {
    const source: RetracerSource
    /** lazyRetracer: null until first use, then the map file the retracer was built from. */
    var built: Option<string>

    constructor (source: RetracerSource)
      ensures this.source == source && built == None
    {
      this.source := source;
      built := None;
    }

    /**
     * getRetracer: the kept retracer when there is one; otherwise a local map
     * is used where it is, and a remote one is fetched (or found in the
     * per-build directory) first. Only a retracer that could be built is kept.
     */
    method GetRetracer(ws: Workspace, tempDir: string, console: Console) returns (r: Result<string, Abort>)
      requires ws.fs.Valid()
      modifies this, ws, console
      ensures ws.fs.Valid()
      ensures old(built).Some? ==> r == Success(old(built).value) && built == old(built)
      ensures old(built).Some? || source.Local? ==> unchanged(ws) && unchanged(console)
      ensures old(built).None? && source.Local? ==> r == Success(source.mapPath)
      ensures old(built).None? && source.Remote? ==>
        var dir := TempBuildDirPath(source.build, tempDir);
        var outFile := Resolve(dir, source.zipEntry);
        var command := FetchArtifactCommand(source.build, source.mappingFile, Some(source.zipEntry));
        && (old(ws.fs).WithDir(dir).Exists(outFile) ==> r == Success(outFile) && ws.runs == old(ws.runs))
        && (!old(ws.fs).WithDir(dir).Exists(outFile) && !ws.installed ==>
              r == Failure(CannotStart) && ws.runs == old(ws.runs))
        && (!old(ws.fs).WithDir(dir).Exists(outFile) && ws.installed ==>
              && ws.runs == old(ws.runs) + [command]
              && (r.Success? <==> ws.tool(command).exitCode == 0)
              && (r.Success? ==> r.value == outFile))
      ensures r.Success? ==> built == Some(r.value)
      ensures r.Failure? ==> built == old(built) && source.Remote?
      ensures old(built).None? && r.Success? ==> r.value == MapFile(source, tempDir)
      ensures console.out == old(console.out) && console.pending == old(console.pending)
      ensures console.err == old(console.err) + (if r.Failure? && r.error.Error? then old(console.pending) else [])
    {
      if built.Some? {
        return Success(built.value);
      }
      match source
      case Local(_, mapPath) =>
        built := Some(mapPath);
        return Success(mapPath);
      case Remote(_, build, mappingFile, zipEntry) =>
        r := ws.FetchArtifact(build, mappingFile, Some(zipEntry), tempDir, console);
        if r.Success? {
          built := Some(r.value);
        }
    }
  }
}
