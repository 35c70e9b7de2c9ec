/**
 * RETRACERS, the table from mapping id to lazy retracer, and how it is
 * filled: from the dictionaries of a local checkout, or from the meta-mapping
 * files of a build on the build server. Also the lookup of the default map
 * and the printed table (RetraceWrapper.java:329, 706-845, 1020-1085).
 */
module Registry {
  import opened Wrappers
  import opened JavaString
  import opened Sequences
  import opened StringOrder
  import opened MapIdentity
  import opened MetaMapping
  import opened Console
  import opened Resolvers

  /** An id and the retracer to register under it. */
  type Entry = (string, RetracerSource)

  /** RETRACERS.put for each entry in turn. */
  function Register(m: map<string, RetracerSource>, entries: seq<Entry>): map<string, RetracerSource>
    decreases |entries|
  {
    if entries == [] then m else Register(m[entries[0].0 := entries[0].1], entries[1..])
  }

  /** Registering adds exactly the entries' ids. */
  lemma {:induction false} RegisterKeys(m: map<string, RetracerSource>, entries: seq<Entry>)
    ensures Register(m, entries).Keys == m.Keys + set e | e in entries :: e.0
    decreases |entries|
  {
    if entries != [] {
      RegisterKeys(m[entries[0].0 := entries[0].1], entries[1..]);
      assert entries == [entries[0]] + entries[1..];
    }
  }

  /** The last entry of an id wins: a later registration replaces an earlier one. */
  lemma {:induction false} RegisterLastWins(m: map<string, RetracerSource>, entries: seq<Entry>, k: nat)
    requires k < |entries|
    requires forall j :: k < j < |entries| ==> entries[j].0 != entries[k].0
    ensures entries[k].0 in Register(m, entries)
    ensures Register(m, entries)[entries[k].0] == entries[k].1
    decreases |entries|
  {
    if k == 0 {
      RegisterUntouched(m[entries[0].0 := entries[0].1], entries[1..], entries[0].0);
    } else {
      RegisterLastWins(m[entries[0].0 := entries[0].1], entries[1..], k - 1);
    }
  }

  /** An id no entry names keeps what it had. */
  lemma {:induction false} RegisterUntouched(m: map<string, RetracerSource>, entries: seq<Entry>, id: string)
    requires id in m
    requires forall j :: 0 <= j < |entries| ==> entries[j].0 != id
    ensures id in Register(m, entries) && Register(m, entries)[id] == m[id]
    decreases |entries|
  {
    if entries != [] {
      RegisterUntouched(m[entries[0].0 := entries[0].1], entries[1..], id);
    }
  }

  /** Registering two lists is registering their concatenation. */
  lemma {:induction false} RegisterAppend(m: map<string, RetracerSource>, a: seq<Entry>, b: seq<Entry>)
    ensures Register(m, a + b) == Register(Register(m, a), b)
    decreases |a|
  {
    if a != [] {
      assert (a + b)[0] == a[0] && (a + b)[1..] == a[1..] + b;
      RegisterAppend(m[a[0].0 := a[0].1], a[1..], b);
    } else {
      assert a + b == b;
    }
  }

  /** The file name of the dictionaries a build of the checkout leaves behind. */
  const MapFileName: string := "proguard_dictionary"

  /** Where a checkout keeps the map of its prebuilt R8. */
  function PrebuiltMapPath(root: string): string
  {
    Resolve(Resolve(Resolve(root, "prebuilts"), "r8"), "r8.jar.map")
  }

  /** A search path, resolved against the working directory or against the checkout root. */
  function ResolveSearchPath(root: string, path: string, cwdRelative: bool): string
  {
    if cwdRelative then path else Resolve(root, path)
  }

  /** The entry a walked file gives: a dictionary whose header names a map id and hash. */
  function DictionaryEntry(fs: FileSystem, p: string): seq<Entry>
  {
    var info := if p in fs.contents then MapHeaderInfo(fs.contents[p]) else None;
    if EndsWithComponent(p, MapFileName) && info.Some? then [(info.value.id, Local(info, p))] else []
  }

  /** The entries the dictionaries among `files` give, in order. */
  function DictionaryEntries(fs: FileSystem, files: seq<string>): seq<Entry>
  {
    if files == [] then [] else DictionaryEntry(fs, files[0]) + DictionaryEntries(fs, files[1..])
  }

  /**
   * The entries of the search paths in order, up to the first one that does
   * not exist, which is given back resolved.
   */
  function SearchEntries(fs: FileSystem, root: string, searchPaths: seq<string>, cwdRelative: bool)
    : (seq<Entry>, Option<string>)
  {
    if searchPaths == [] then ([], None)
    else
      var resolved := ResolveSearchPath(root, searchPaths[0], cwdRelative);
      if !fs.Exists(resolved) then ([], Some(resolved))
      else
        var rest := SearchEntries(fs, root, searchPaths[1..], cwdRelative);
        (DictionaryEntries(fs, fs.Walk(resolved)) + rest.0, rest.1)
  }

  /** SearchEntries from the `i`-th search path on: that path fails, or its entries come before the later ones. */
  lemma SearchStep(fs: FileSystem, root: string, searchPaths: seq<string>, i: nat, cwdRelative: bool)
    requires i < |searchPaths|
    ensures
      var resolved := ResolveSearchPath(root, searchPaths[i], cwdRelative);
      var next := SearchEntries(fs, root, searchPaths[i + 1..], cwdRelative);
      SearchEntries(fs, root, searchPaths[i..], cwdRelative)
        == if !fs.Exists(resolved) then ([], Some(resolved))
           else (DictionaryEntries(fs, fs.Walk(resolved)) + next.0, next.1)
  {
    assert searchPaths[i..][0] == searchPaths[i] && searchPaths[i..][1..] == searchPaths[i + 1..];
  }

  /** A search path that does not exist ends the search with it, whatever was found before. */
  lemma SearchStopped(fs: FileSystem, root: string, searchPaths: seq<string>, i: nat, cwdRelative: bool,
                      search: (seq<Entry>, Option<string>))
    requires i < |searchPaths| && search.1 == SearchEntries(fs, root, searchPaths[i..], cwdRelative).1
    requires !fs.Exists(ResolveSearchPath(root, searchPaths[i], cwdRelative))
    ensures search.1 == Some(ResolveSearchPath(root, searchPaths[i], cwdRelative))
  {
    SearchStep(fs, root, searchPaths, i, cwdRelative);
  }

  /** A search path that exists adds the entries found below it to those found before. */
  lemma SearchMoved(fs: FileSystem, root: string, searchPaths: seq<string>, i: nat, cwdRelative: bool,
                    search: (seq<Entry>, Option<string>), done: seq<Entry>, found: seq<Entry>)
    requires i < |searchPaths|
    requires search.0 == done + SearchEntries(fs, root, searchPaths[i..], cwdRelative).0
    requires search.1 == SearchEntries(fs, root, searchPaths[i..], cwdRelative).1
    requires fs.Exists(ResolveSearchPath(root, searchPaths[i], cwdRelative))
    requires found == DictionaryEntries(fs, fs.Walk(ResolveSearchPath(root, searchPaths[i], cwdRelative)))
    ensures search.0 == (done + found) + SearchEntries(fs, root, searchPaths[i + 1..], cwdRelative).0
    ensures search.1 == SearchEntries(fs, root, searchPaths[i + 1..], cwdRelative).1
  {
    SearchStep(fs, root, searchPaths, i, cwdRelative);
    AppendAssociative(done, found, SearchEntries(fs, root, searchPaths[i + 1..], cwdRelative).0);
  }

  /** What populating from a checkout does: the messages it holds back, what it registers, how it ends. */
  datatype LocalScan = LocalScan(infos: seq<string>, entries: seq<Entry>, abort: Option<Abort>)

  /**
   * populateLocalMappingFileMap below a checkout root: the prebuilt R8 map
   * first (a missing file fails, a file without both headers only holds back
   * an info message), then every dictionary of every search path; a search
   * path that does not exist fails.
   */
  function LocalPopulation(fs: FileSystem, root: string, searchPaths: seq<string>, cwdRelative: bool): LocalScan
  {
    var prebuilt := PrebuiltMapPath(root);
    if prebuilt !in fs.contents then LocalScan([], [], Some(NoSuchFile(prebuilt)))
    else
      var search := SearchEntries(fs, root, searchPaths, cwdRelative);
      LocalScan(PrebuiltInfos(fs, prebuilt), PrebuiltEntries(fs, prebuilt) + search.0,
                if search.1.Some? then Some(Error("Invalid search path entry: " + search.1.value)) else None)
  }

  /** The prebuilt map is registered under its id when its header names both id and hash. */
  function PrebuiltEntries(fs: FileSystem, prebuilt: string): seq<Entry>
    requires prebuilt in fs.contents
  {
    var info := MapHeaderInfo(fs.contents[prebuilt]);
    if info.Some? then [(info.value.id, Local(info, prebuilt))] else []
  }

  /** A prebuilt map without both headers only holds back an info message. */
  function PrebuiltInfos(fs: FileSystem, prebuilt: string): seq<string>
    requires prebuilt in fs.contents
  {
    if MapHeaderInfo(fs.contents[prebuilt]).None? then ["Info: " + ("Unable to read expected prebuilt R8 map in " + prebuilt)]
    else []
  }

  /** The meta-mapping files of a build already in `dir` (collectMetaMappingFiles). */
  function CollectMetaMappingFiles(fs: FileSystem, b: BuildInfo, dir: string): seq<string>
  {
    if !fs.Exists(dir) then [] else EndingWith(fs.Walk(dir), b.MetaMappingFileSuffix())
  }

  /** Every meta-mapping file collected is a regular file of the file system. */
  lemma CollectedFiles(fs: FileSystem, b: BuildInfo, dir: string)
    requires fs.Valid()
    ensures forall k :: 0 <= k < |CollectMetaMappingFiles(fs, b, dir)| ==> CollectMetaMappingFiles(fs, b, dir)[k] in fs.contents
  {
    var metas := CollectMetaMappingFiles(fs, b, dir);
    forall k | 0 <= k < |metas| ensures metas[k] in fs.contents {
      WalkMembers(fs, dir, metas[k]);
    }
  }

  /**
   * The outcome of a glob fetch of the build's meta-mapping files, from the
   * output and the fetch commands before it: without the tool it fails
   * before running anything; otherwise it runs once, fails on a nonzero
   * exit, and on success has printed the banner, the command, the tool's
   * output and the count.
   */
  ghost predicate GlobFetched(b: BuildInfo, out0: seq<string>, runs0: seq<seq<string>>, ws: Workspace,
                              out: seq<string>, r: Result<seq<string>, Abort>)
    reads ws
  {
    && (!ws.installed ==> r == Failure(Error(NotInstalledMessage)) && ws.runs == runs0 && out == out0)
    && (ws.installed ==>
          && ws.runs == runs0 + [GlobCommand(b)]
          && (r.Success? <==> ws.tool(GlobCommand(b)).exitCode == 0)
          && (r.Failure? ==> r.error == Error(GlobFailedMessage(GlobCommand(b)))))
    && (r.Success? ==> out == out0 + GlobBanner(b, ws.tool(GlobCommand(b)), |r.value|))
  }

  /** The paths of `paths` whose text ends with `suffix`, in order. */
  function EndingWith(paths: seq<string>, suffix: string): (r: seq<string>)
    ensures forall p :: p in r <==> p in paths && EndsWith(p, suffix)
    ensures |r| <= |paths|
  {
    if paths == [] then []
    else (if EndsWith(paths[0], suffix) then [paths[0]] else []) + EndingWith(paths[1..], suffix)
  }

  /**
   * The walk order is kept: filtering two runs of paths one after the other
   * gives the two filtered runs one after the other.
   */
  lemma {:induction false} EndingWithAppend(a: seq<string>, b: seq<string>, suffix: string)
    ensures EndingWith(a + b, suffix) == EndingWith(a, suffix) + EndingWith(b, suffix)
  {
    if a == [] {
      assert a + b == b;
    } else {
      assert (a + b)[0] == a[0] && (a + b)[1..] == a[1..] + b;
      EndingWithAppend(a[1..], b, suffix);
    }
  }

  /** The glob fetch of every meta-mapping file of a build. */
  function GlobCommand(b: BuildInfo): seq<string>
  {
    FetchArtifactCommand(b, "**/*" + b.MetaMappingFileSuffix(), None) + ["--preserve_directory_structure"]
  }

  /** What populateRemoteMappingFileMap prints before a glob fetch. */
  const FetchingBanner: string := "Fetching meta information for mapping files from build server..."

  /** The count of meta-mapping files a glob fetch left. */
  function FoundLine(count: nat): string
  {
    "Meta information files found: " + NatToString(count)
  }

  /**
   * What populateRemoteMappingFileMap prints around a glob fetch of the
   * build's meta-mapping files that ran as `run` and left `count` of them.
   */
  function GlobBanner(b: BuildInfo, run: ToolRun, count: nat): seq<string>
  {
    [FetchingBanner, JoinWith(GlobCommand(b), ' ')]
      + Echoed(run) + [FoundLine(count), ""]
  }

  /** A remote retracer for each accepted block of a meta-mapping file found at `meta` below `base`. */
  function RemoteRetracers(b: BuildInfo, base: string, meta: string, entries: seq<MappingEntry>): (r: seq<Entry>)
    ensures |r| == |entries|
    ensures forall k :: 0 <= k < |r| ==> r[k].0 == entries[k].id
  {
    if entries == [] then []
    else
      var e := entries[0];
      [(e.id, Remote(MapInfo(e.id, e.id), b, DeriveMappingFile(b, Relativize(base, meta)), e.location))]
      + RemoteRetracers(b, base, meta, entries[1..])
  }

  /** The entries of the meta-mapping files in order, or the failure of the first file that does not parse. */
  function RemoteEntries(fs: FileSystem, b: BuildInfo, base: string, metas: seq<string>): Result<seq<Entry>, MetaError>
    requires forall k :: 0 <= k < |metas| ==> metas[k] in fs.contents
  {
    if metas == [] then Success([])
    else
      match ParseMetaMapping(fs.contents[metas[0]])
      case Failure(e) => Failure(e)
      case Success(entries) =>
        match RemoteEntries(fs, b, base, metas[1..])
        case Failure(e) => Failure(e)
        case Success(rest) => Success(RemoteRetracers(b, base, metas[0], entries) + rest)
  }

  /** How a meta-mapping failure ends the run: the two `error` calls, or the exception of a bad substring. */
  function AbortOf(e: MetaError): Abort
  {
    match e
    case NoMatch => Error("no match")
    case InvalidEntry(message) => Error(JoinWith(message, '\n'))
    case Malformed => IndexOutOfBounds
  }

  /** The ids whose map location contains `key`. */
  function MatchingIds(sources: map<string, RetracerSource>, key: string): set<string>
  {
    set id | id in sources && Contains(sources[id].MapLocation(), key)
  }

  function NoMatchMessage(key: string): string
  {
    "--default-map " + key + " did not match a local file or any map location in mapping table."
    + " (Use --print-map-table to view the table)."
  }

  function ManyMatchesMessage(key: string, locations: seq<string>): string
  {
    "--default-map " + key + " matched " + NatToString(|locations|) + " map paths:\n" + Lines(locations)
  }

  /** Each text followed by a newline. */
  function Lines(texts: seq<string>): string
  {
    if texts == [] then "" else texts[0] + "\n" + Lines(texts[1..])
  }

  /** The map location of each id. */
  function Locations(sources: map<string, RetracerSource>, ids: seq<string>): (r: seq<string>)
    requires forall id | id in ids :: id in sources
    ensures |r| == |ids|
    ensures forall k :: 0 <= k < |ids| ==> r[k] == sources[ids[k]].MapLocation()
  {
    if ids == [] then [] else [sources[ids[0]].MapLocation()] + Locations(sources, ids[1..])
  }

  predicate Distinct(xs: seq<string>)
  {
    forall i, j :: 0 <= i < j < |xs| ==> xs[i] != xs[j]
  }

  /** One line of the printed map table. */
  function TableLine(id: string, source: RetracerSource): string
  {
    id + " -> " + source.MapLocation()
  }

  class Registry {
    /** RETRACERS. */
    var retracers: map<string, LazyRetracer>

    constructor ()
      ensures retracers == map[] && Unbuilt()
    {
      retracers := map[];
    }

    /** What each id is registered with. */
    function Sources(): map<string, RetracerSource>
      reads this
    {
      map id | id in retracers :: retracers[id].source
    }

    /** No registered retracer has been built yet: registration happens before any retracing. */
    ghost predicate Unbuilt()
      reads this, retracers.Values
    {
      forall l | l in retracers.Values :: l.built.None?
    }

    /** RETRACERS.put of a new lazy retracer: the id now maps to it, whatever it mapped to before. */
    method Put(id: string, source: RetracerSource)
      modifies this
      requires Unbuilt()
      ensures Unbuilt()
      ensures forall l | l in retracers.Values :: l in old(retracers.Values) || fresh(l)
      ensures id in retracers && fresh(retracers[id])
      ensures retracers[id].source == source && retracers[id].built.None?
      ensures forall k :: k in old(retracers) && k != id ==> k in retracers && retracers[k] == old(retracers)[k]
      ensures retracers.Keys == old(retracers).Keys + {id}
      ensures Sources() == old(Sources())[id := source]
    {
      var r := new LazyRetracer(source);
      retracers := retracers[id := r];
    }

    /** Register each entry in turn. */
    method PutAll(entries: seq<Entry>)
      modifies this
      requires Unbuilt()
      ensures Unbuilt()
      ensures forall l | l in retracers.Values :: l in old(retracers.Values) || fresh(l)
      ensures Sources() == Register(old(Sources()), entries)
    {
      var i := 0;
      while i < |entries|
        invariant Unbuilt()
        invariant forall l | l in retracers.Values :: l in old(retracers.Values) || fresh(l)
        invariant i <= |entries|
        invariant Register(old(Sources()), entries) == Register(Sources(), entries[i..])
      {
        assert entries[i..][1..] == entries[i + 1..];
        Put(entries[i].0, entries[i].1);
        i := i + 1;
      }
    }

    /**
     * populateLocalMappingFileMap: nothing without a checkout root; otherwise
     * the prebuilt map, then the dictionaries found walking each search path.
     */
    method PopulateLocal(fs: FileSystem, root: Option<string>, searchPaths: seq<string>, cwdRelative: bool,
                         console: Console)
      returns (r: Option<Abort>)
      requires fs.Valid()
      modifies this, console
      requires Unbuilt()
      ensures Unbuilt()
      ensures forall l | l in retracers.Values :: l in old(retracers.Values) || fresh(l)
      ensures root.None? ==> r == None && Sources() == old(Sources()) && unchanged(console)
      ensures root.Some? ==>
        var scan := LocalPopulation(fs, root.value, searchPaths, cwdRelative);
        && r == scan.abort
        && (r.None? ==> Sources() == Register(old(Sources()), scan.entries))
        && console.pending == old(console.pending) + scan.infos
        && console.out == old(console.out)
        && console.err == (if r.Some? && r.value.Error? then old(console.err) + console.pending else old(console.err))
    {
      if root.None? {
        return None;
      }
      var prebuilt := PrebuiltMapPath(root.value);
      if prebuilt !in fs.contents {
        return Some(NoSuchFile(prebuilt));
      }
      RegisterPrebuilt(fs, prebuilt, console);
      r := RegisterSearchPaths(fs, root.value, searchPaths, cwdRelative, console);
      RegisterAppend(old(Sources()), PrebuiltEntries(fs, prebuilt), SearchEntries(fs, root.value, searchPaths, cwdRelative).0);
    }

    /** The prebuilt R8 map: registered when identified, otherwise an info message is held back. */
    method RegisterPrebuilt(fs: FileSystem, prebuilt: string, console: Console)
      requires prebuilt in fs.contents
      modifies this, console
      requires Unbuilt()
      ensures Unbuilt()
      ensures forall l | l in retracers.Values :: l in old(retracers.Values) || fresh(l)
      ensures Sources() == Register(old(Sources()), PrebuiltEntries(fs, prebuilt))
      ensures console.pending == old(console.pending) + PrebuiltInfos(fs, prebuilt)
      ensures console.out == old(console.out) && console.err == old(console.err)
    {
      var info := ReadMapHeaderInfo(fs.contents[prebuilt]);
      if info.None? {
        console.Info("Unable to read expected prebuilt R8 map in " + prebuilt);
      } else {
        Put(info.value.id, Local(info, prebuilt));
      }
    }

    /** The walk of each search path in turn; one that does not exist fails. */
    method RegisterSearchPaths(fs: FileSystem, root: string, searchPaths: seq<string>, cwdRelative: bool,
                               console: Console)
      returns (r: Option<Abort>)
      modifies this, console
      requires Unbuilt()
      ensures Unbuilt()
      ensures forall l | l in retracers.Values :: l in old(retracers.Values) || fresh(l)
      ensures var search := SearchEntries(fs, root, searchPaths, cwdRelative);
        && r == (if search.1.Some? then Some(Error("Invalid search path entry: " + search.1.value)) else None)
        && (r.None? ==> Sources() == Register(old(Sources()), search.0))
        && console.out == old(console.out) && console.pending == old(console.pending)
        && console.err == (if r.Some? then old(console.err) + old(console.pending) else old(console.err))
    {
      ghost var start := Sources();
      ghost var search := SearchEntries(fs, root, searchPaths, cwdRelative);
      ghost var done: seq<Entry> := [];
      assert searchPaths[0..] == searchPaths;
      assert done + search.0 == search.0;
      var i := 0;
      while i < |searchPaths|
        invariant Unbuilt()
        invariant forall l | l in retracers.Values :: l in old(retracers.Values) || fresh(l)
        invariant i <= |searchPaths|
        invariant search.0 == done + SearchEntries(fs, root, searchPaths[i..], cwdRelative).0
        invariant search.1 == SearchEntries(fs, root, searchPaths[i..], cwdRelative).1
        invariant Sources() == Register(start, done)
        invariant unchanged(console)
      {
        var resolved := ResolveSearchPath(root, searchPaths[i], cwdRelative);
        var failed, found := RegisterSearchPath(fs, resolved, console);
        if failed.Some? {
          SearchStopped(fs, root, searchPaths, i, cwdRelative, search);
          return failed;
        }
        SearchMoved(fs, root, searchPaths, i, cwdRelative, search, done, found);
        RegisterAppend(start, done, found);
        done := done + found;
        i := i + 1;
      }
      assert searchPaths[i..] == [] && done + [] == done;
      return None;
    }

    /** One search path: one that does not exist fails, otherwise every dictionary below it is registered. */
    method RegisterSearchPath(fs: FileSystem, resolved: string, console: Console)
      returns (r: Option<Abort>, ghost found: seq<Entry>)
      modifies this, console
      requires Unbuilt()
      ensures Unbuilt()
      ensures forall l | l in retracers.Values :: l in old(retracers.Values) || fresh(l)
      ensures fs.Exists(resolved) ==>
                && r == None && found == DictionaryEntries(fs, fs.Walk(resolved))
                && Sources() == Register(old(Sources()), found) && unchanged(console)
      ensures !fs.Exists(resolved) ==>
                && r == Some(Error("Invalid search path entry: " + resolved))
                && console.err == old(console.err) + old(console.pending)
                && console.out == old(console.out) && console.pending == old(console.pending)
    {
      if !fs.Exists(resolved) {
        var a := console.Fail("Invalid search path entry: " + resolved);
        return Some(a), [];
      }
      found := RegisterDictionaries(fs, fs.Walk(resolved));
      r := None;
    }

    /** The visit of each file of a walk: register the dictionaries among them. */
    method RegisterDictionaries(fs: FileSystem, files: seq<string>) returns (ghost found: seq<Entry>)
      modifies this
      requires Unbuilt()
      ensures Unbuilt()
      ensures forall l | l in retracers.Values :: l in old(retracers.Values) || fresh(l)
      ensures found == DictionaryEntries(fs, files)
      ensures Sources() == Register(old(Sources()), found)
    {
      found := DictionaryEntries(fs, files);
      ghost var start := Sources();
      var k := 0;
      while k < |files|
        invariant Unbuilt()
        invariant forall l | l in retracers.Values :: l in old(retracers.Values) || fresh(l)
        invariant k <= |files|
        invariant Sources() == Register(start, DictionaryEntries(fs, files[..k]))
      {
        VisitFile(fs, files[k]);
        DictionaryStep(fs, files, k);
        RegisterAppend(start, DictionaryEntries(fs, files[..k]), DictionaryEntry(fs, files[k]));
        k := k + 1;
      }
      assert files[..k] == files;
    }

    /** visitFile: a dictionary whose header names a map id and hash is registered under that id. */
    method VisitFile(fs: FileSystem, p: string)
      modifies this
      requires Unbuilt()
      ensures Unbuilt()
      ensures forall l | l in retracers.Values :: l in old(retracers.Values) || fresh(l)
      ensures Sources() == Register(old(Sources()), DictionaryEntry(fs, p))
    {
      if EndsWithComponent(p, MapFileName) && p in fs.contents {
        var mapInfo := ReadMapHeaderInfo(fs.contents[p]);
        if mapInfo.Some? {
          Put(mapInfo.value.id, Local(mapInfo, p));
        }
      }
    }

    /**
     * The first half of populateRemoteMappingFileMap: the meta-mapping files
     * already in the per-build directory, or, when there are none, those a glob
     * fetch brings in.
     */
    method FetchMetaMappings(b: BuildInfo, tempDir: string, ws: Workspace, console: Console)
      returns (r: Result<seq<string>, Abort>)
      requires ws.fs.Valid()
      modifies ws, console
      ensures ws.fs.Valid()
      ensures r.Success? ==> r.value == CollectMetaMappingFiles(ws.fs, b, TempBuildDirPath(b, tempDir))
      ensures r.Success? ==> forall k :: 0 <= k < |r.value| ==> r.value[k] in ws.fs.contents
      ensures console.pending == old(console.pending)
      ensures console.err == old(console.err) + (if r.Failure? then old(console.pending) else [])
      ensures r.Failure? ==> r.error.Error?
      ensures CollectMetaMappingFiles(old(ws.fs), b, TempBuildDirPath(b, tempDir)) != [] ==>
                r.Success? && ws.fs == old(ws.fs) && ws.runs == old(ws.runs) && unchanged(console)
      ensures CollectMetaMappingFiles(old(ws.fs), b, TempBuildDirPath(b, tempDir)) == [] ==>
                GlobFetched(b, old(console.out), old(ws.runs), ws, console.out, r)
    {
      var base := TempBuildDirPath(b, tempDir);
      var metas := CollectMetaMappingFiles(ws.fs, b, base);
      if metas == [] {
        r := GlobAndCollect(b, tempDir, ws, console);
      } else {
        CollectedFiles(ws.fs, b, base);
        r := Success(metas);
      }
    }

    /**
     * The fetch half of populateRemoteMappingFileMap when no meta-mapping file
     * is there yet: the glob fetch, then the files it left, counted.
     */
    method GlobAndCollect(b: BuildInfo, tempDir: string, ws: Workspace, console: Console)
      returns (r: Result<seq<string>, Abort>)
      requires ws.fs.Valid()
      modifies ws, console
      ensures ws.fs.Valid()
      ensures r.Success? ==> r.value == CollectMetaMappingFiles(ws.fs, b, TempBuildDirPath(b, tempDir))
      ensures r.Success? ==> forall k :: 0 <= k < |r.value| ==> r.value[k] in ws.fs.contents
      ensures console.pending == old(console.pending)
      ensures console.err == old(console.err) + (if r.Failure? then old(console.pending) else [])
      ensures r.Failure? ==> r.error.Error?
      ensures GlobFetched(b, old(console.out), old(ws.runs), ws, console.out, r)
    {
      var failed := GlobMetaMappings(b, tempDir, ws, console);
      if failed.Some? {
        return Failure(failed.value);
      }
      var base := TempBuildDirPath(b, tempDir);
      ghost var fetched := console.out;
      var metas := CollectMetaMappingFiles(ws.fs, b, base);
      console.Println(FoundLine(|metas|));
      console.Println("");
      assert console.out == fetched + [FoundLine(|metas|), ""];
      CollectedFiles(ws.fs, b, base);
      return Success(metas);
    }

    /**
     * populateRemoteMappingFileMap: the meta-mapping files of the build, fetched
     * only when none are there yet, and a remote retracer for every block. A
     * failed fetch registers nothing; a file that does not parse ends the run
     * with the error of the first one.
     */
    method PopulateRemote(b: BuildInfo, tempDir: string, ws: Workspace, console: Console)
      returns (r: Option<Abort>)
      requires ws.fs.Valid()
      modifies this, ws, console
      requires Unbuilt()
      ensures Unbuilt()
      ensures forall l | l in retracers.Values :: l in old(retracers.Values) || fresh(l)
      ensures ws.fs.Valid() && console.pending == old(console.pending)
      ensures console.err == old(console.err) + (if r.Some? && r.value.Error? then old(console.pending) else [])
      ensures CollectMetaMappingFiles(old(ws.fs), b, TempBuildDirPath(b, tempDir)) != [] ==>
                ws.fs == old(ws.fs) && ws.runs == old(ws.runs) && console.out == old(console.out)
      ensures CollectMetaMappingFiles(old(ws.fs), b, TempBuildDirPath(b, tempDir)) == [] && !ws.installed ==>
                r == Some(Error(NotInstalledMessage)) && ws.runs == old(ws.runs) && Sources() == old(Sources())
      ensures CollectMetaMappingFiles(old(ws.fs), b, TempBuildDirPath(b, tempDir)) == [] && ws.installed ==>
                && ws.runs == old(ws.runs) + [GlobCommand(b)]
                && (ws.tool(GlobCommand(b)).exitCode != 0 ==>
                      r == Some(Error(GlobFailedMessage(GlobCommand(b)))) && Sources() == old(Sources()))
                && (ws.tool(GlobCommand(b)).exitCode == 0 ==>
                      console.out == old(console.out)
                        + GlobBanner(b, ws.tool(GlobCommand(b)), |CollectMetaMappingFiles(ws.fs, b, TempBuildDirPath(b, tempDir))|))
      ensures CollectMetaMappingFiles(old(ws.fs), b, TempBuildDirPath(b, tempDir)) != []
              || (ws.installed && ws.tool(GlobCommand(b)).exitCode == 0) ==>
                var base := TempBuildDirPath(b, tempDir);
                var metas := CollectMetaMappingFiles(ws.fs, b, base);
                && (forall k :: 0 <= k < |metas| ==> metas[k] in ws.fs.contents)
                && (RemoteEntries(ws.fs, b, base, metas).Success? ==>
                      r == None && Sources() == Register(old(Sources()), RemoteEntries(ws.fs, b, base, metas).value))
                && (RemoteEntries(ws.fs, b, base, metas).Failure? ==>
                      r == Some(AbortOf(RemoteEntries(ws.fs, b, base, metas).error)))
    {
      var metas := FetchMetaMappings(b, tempDir, ws, console);
      if metas.Failure? {
        return Some(metas.error);
      }
      assert console.err == old(console.err);
      r := RegisterMetaMappings(b, TempBuildDirPath(b, tempDir), ws.fs, metas.value, console);
    }

    /**
     * Fetch every meta-mapping file of the build into its per-build directory:
     * the tool must be there, the directory is made, the banner and the
     * command are printed, and a nonzero exit fails.
     */
    method GlobMetaMappings(b: BuildInfo, tempDir: string, ws: Workspace, console: Console)
      returns (r: Option<Abort>)
      requires ws.fs.Valid()
      modifies ws, console
      ensures ws.fs.Valid()
      ensures console.pending == old(console.pending)
      ensures !ws.installed ==>
                && r == Some(Error(NotInstalledMessage)) && ws.runs == old(ws.runs) && ws.fs == old(ws.fs)
                && console.out == old(console.out) && console.err == old(console.err) + old(console.pending)
      ensures ws.installed ==>
                var dir := TempBuildDirPath(b, tempDir);
                var run := ws.tool(GlobCommand(b));
                && ws.runs == old(ws.runs) + [GlobCommand(b)]
                && ws.fs == old(ws.fs).WithDir(dir).AddFiles(dir, run.created)
                && ws.fs.Exists(dir)
                && console.out == old(console.out)
                     + [FetchingBanner, JoinWith(GlobCommand(b), ' ')]
                     + Echoed(run)
                && (run.exitCode == 0 ==> r == None && console.err == old(console.err))
                && (run.exitCode != 0 ==>
                      r == Some(Error(GlobFailedMessage(GlobCommand(b)))) && console.err == old(console.err) + old(console.pending))
    {
      var missing := ws.EnsureFetchArtifactCommand(console);
      if missing.Some? {
        return missing;
      }
      var dir := ws.EnsureTempBuildDir(b, tempDir);
      ghost var made := ws.fs;
      console.Println(FetchingBanner);
      r := ws.FetchArtifactGlob(b, "**/*" + b.MetaMappingFileSuffix(), dir, console);
      if dir in made.contents {
        KeepsFiles(made, dir, ws.tool(GlobCommand(b)).created);
      }
    }

    /**
     * The second half of populateRemoteMappingFileMap: a remote retracer for
     * every accepted block of every meta-mapping file, in order; the first
     * file that does not parse ends the run.
     */
    method RegisterMetaMappings(b: BuildInfo, base: string, fs: FileSystem, metas: seq<string>, console: Console)
      returns (r: Option<Abort>)
      requires forall k :: 0 <= k < |metas| ==> metas[k] in fs.contents
      modifies this, console
      requires Unbuilt()
      ensures Unbuilt()
      ensures forall l | l in retracers.Values :: l in old(retracers.Values) || fresh(l)
      ensures RemoteEntries(fs, b, base, metas).Success? ==>
                r == None && Sources() == Register(old(Sources()), RemoteEntries(fs, b, base, metas).value)
                && unchanged(console)
      ensures RemoteEntries(fs, b, base, metas).Failure? ==>
                r == Some(AbortOf(RemoteEntries(fs, b, base, metas).error))
      ensures console.out == old(console.out) && console.pending == old(console.pending)
      ensures console.err == (if r.Some? && r.value.Error? then old(console.err) + old(console.pending) else old(console.err))
    {
      ghost var start := Sources();
      ghost var done: seq<Entry> := [];
      assert metas[0..] == metas;
      assert PrefixEntries(done, RemoteEntries(fs, b, base, metas)) == RemoteEntries(fs, b, base, metas) by {
        if RemoteEntries(fs, b, base, metas).Success? {
          assert done + RemoteEntries(fs, b, base, metas).value == RemoteEntries(fs, b, base, metas).value;
        }
      }
      var i := 0;
      while i < |metas|
        invariant Unbuilt()
        invariant forall l | l in retracers.Values :: l in old(retracers.Values) || fresh(l)
        invariant i <= |metas|
        invariant RemoteEntries(fs, b, base, metas) == PrefixEntries(done, RemoteEntries(fs, b, base, metas[i..]))
        invariant Sources() == Register(start, done)
        invariant unchanged(console)
      {
        assert metas[i..][0] == metas[i] && metas[i..][1..] == metas[i + 1..];
        var parsed := ReadMetaMapping(fs.contents[metas[i]]);
        if parsed.Failure? {
          var a := AbortOf(parsed.error);
          if a.Error? {
            a := console.Fail(a.message);
          }
          return Some(a);
        }
        var found := RemoteRetracers(b, base, metas[i], parsed.value);
        PutAll(found);
        RegisterAppend(start, done, found);
        PrefixEntriesStep(done, found, RemoteEntries(fs, b, base, metas[i + 1..]));
        done := done + found;
        i := i + 1;
      }
      assert metas[i..] == [];
      assert done + [] == done;
      return None;
    }

    /**
     * findDefaultRetracer: no default without a key; a key naming a regular
     * file is a local map of its own; otherwise exactly one registered map
     * location must contain the key.
     */
    method FindDefaultRetracer(key: Option<string>, fs: FileSystem, console: Console)
      returns (r: Result<Option<LazyRetracer>, Abort>)
      modifies console
      ensures key.None? ==> r == Success(None) && unchanged(console)
      ensures key.Some? && key.value in fs.contents ==>
                && r.Success? && r.value.Some? && fresh(r.value.value)
                && r.value.value.source == Local(None, key.value) && r.value.value.built.None?
                && unchanged(console)
      ensures key.Some? && key.value !in fs.contents ==>
                var matching := MatchingIds(Sources(), key.value);
                && (|matching| == 1 ==>
                      && r.Success? && r.value.Some? && unchanged(console)
                      && exists id :: id in matching && retracers[id] == r.value.value)
                && (|matching| == 0 ==> r == Failure(Error(NoMatchMessage(key.value))))
                && (|matching| >= 2 ==>
                      exists ids: seq<string> ::
                        && Distinct(ids) && Elems(ids) == matching
                        && (forall id | id in ids :: id in Sources())
                        && r == Failure(Error(ManyMatchesMessage(key.value, Locations(Sources(), ids)))))
                && (r.Failure? ==> console.err == old(console.err) + old(console.pending))
                && console.out == old(console.out) && console.pending == old(console.pending)
    {
      if key.None? {
        return Success(None);
      }
      if key.value in fs.contents {
        var local := new LazyRetracer(Local(None, key.value));
        return Success(Some(local));
      }
      var sources := Sources();
      var matches := MatchesOf(sources, key.value);
      if |matches| == 1 {
        assert matches[0] in Elems(matches);
        return Success(Some(retracers[matches[0]]));
      }
      var message := if matches == [] then NoMatchMessage(key.value)
                     else ManyMatchesMessage(key.value, Locations(sources, matches));
      var a := console.Fail(message);
      return Failure(a);
    }

    /** The --print-map-table output: one line per id, ids in ascending order. */
    method MapTable() returns (ids: seq<string>, lines: seq<string>)
      ensures StrictlySorted(ids) && Elems(ids) == retracers.Keys
      ensures |lines| == |ids|
      ensures forall k :: 0 <= k < |ids| ==> lines[k] == TableLine(ids[k], Sources()[ids[k]])
    {
      ids := SortedList(retracers.Keys);
      lines := [];
      var i := 0;
      while i < |ids|
        invariant i <= |ids|
        invariant |lines| == i
        invariant forall k :: 0 <= k < i ==> lines[k] == TableLine(ids[k], Sources()[ids[k]])
      {
        assert ids[i] in Elems(ids);
        lines := lines + [TableLine(ids[i], retracers[ids[i]].source)];
        i := i + 1;
      }
    }
  }

  /** The ids whose map location contains `key`, each once, in the order the table yields them. */
  method MatchesOf(sources: map<string, RetracerSource>, key: string) returns (matches: seq<string>)
    ensures Distinct(matches) && Elems(matches) == MatchingIds(sources, key)
    ensures |matches| == |MatchingIds(sources, key)|
    ensures forall k :: 0 <= k < |matches| ==> matches[k] in sources
  {
    matches := Select(sources.Keys, id => id in sources && Contains(sources[id].MapLocation(), key));
    assert Elems(matches) == MatchingIds(sources, key);
    forall k | 0 <= k < |matches| ensures matches[k] in sources {
      assert matches[k] in Elems(matches);
    }
  }

  /** The elements of `ids` that `keep` accepts, each once, in the order the set yields them. */
  method Select(ids: set<string>, keep: string -> bool) returns (selected: seq<string>)
    ensures Distinct(selected) && Elems(selected) == set id | id in ids && keep(id)
    ensures |selected| == |set id | id in ids && keep(id)|
  {
    ghost var kept := set id | id in ids && keep(id);
    selected := [];
    var remaining := ids;
    while remaining != {}
      invariant remaining <= ids
      invariant Distinct(selected)
      invariant Elems(selected) == kept - remaining
      decreases |remaining|
    {
      var id :| id in remaining;
      RemoveStep(kept, remaining, id, keep(id));
      if keep(id) {
        assert id !in Elems(selected);
        ElemsSnoc(selected, id);
        DistinctSnoc(selected, id);
        selected := selected + [id];
      }
      remaining := remaining - {id};
    }
    DistinctCard(selected);
  }

  lemma RemoveStep(matching: set<string>, remaining: set<string>, id: string, found: bool)
    requires id in remaining && (id in matching <==> found)
    ensures matching - (remaining - {id}) == (matching - remaining) + (if found then {id} else {})
  {
  }

  lemma DistinctSnoc(xs: seq<string>, x: string)
    requires Distinct(xs) && x !in Elems(xs)
    ensures Distinct(xs + [x])
  {
  }

  lemma ElemsSnoc(xs: seq<string>, x: string)
    ensures Elems(xs + [x]) == Elems(xs) + {x}
  {
  }

  /** Entries found so far in front of what the rest gives. */
  function PrefixEntries(done: seq<Entry>, r: Result<seq<Entry>, MetaError>): Result<seq<Entry>, MetaError>
  {
    match r
    case Failure(e) => Failure(e)
    case Success(rest) => Success(done + rest)
  }

  lemma PrefixEntriesStep(done: seq<Entry>, found: seq<Entry>, r: Result<seq<Entry>, MetaError>)
    ensures PrefixEntries(done, PrefixEntries(found, r)) == PrefixEntries(done + found, r)
  {
    if r.Success? {
      assert done + (found + r.value) == done + found + r.value;
    }
  }

  /** The dictionary entries of the first k + 1 files. */
  lemma DictionaryStep(fs: FileSystem, files: seq<string>, k: nat)
    requires k < |files|
    ensures DictionaryEntries(fs, files[..k + 1]) == DictionaryEntries(fs, files[..k]) + DictionaryEntry(fs, files[k])
  {
    DictionaryAppend(fs, files[..k], [files[k]]);
    assert files[..k] + [files[k]] == files[..k + 1];
    assert DictionaryEntries(fs, [files[k]]) == DictionaryEntry(fs, files[k]) + DictionaryEntries(fs, []);
  }

  lemma {:induction false} DictionaryAppend(fs: FileSystem, a: seq<string>, b: seq<string>)
    ensures DictionaryEntries(fs, a + b) == DictionaryEntries(fs, a) + DictionaryEntries(fs, b)
  {
    if a != [] {
      assert (a + b)[0] == a[0] && (a + b)[1..] == a[1..] + b;
      DictionaryAppend(fs, a[1..], b);
    } else {
      assert a + b == b;
    }
  }

  /** A list without repeats has as many elements as its set. */
  lemma {:induction false} DistinctCard(xs: seq<string>)
    requires Distinct(xs)
    ensures |Elems(xs)| == |xs|
  {
    if xs != [] {
      DistinctCard(xs[1..]);
      assert Elems(xs) == Elems(xs[1..]) + {xs[0]};
      assert xs[0] !in Elems(xs[1..]);
    }
  }
}
