/**
 * The retrace command line (RetraceWrapper.java:943-1114): the flag loop of
 * `main`, the pairing of --bid with --target, the colon-separated search path,
 * and the run that follows: populate the mapping table, print it or pick the
 * default map, retrace the input and flush the held-back messages.
 */
module RetraceCli {
  import opened Wrappers
  import opened JavaString
  import opened Sequences
  import opened MapIdentity
  import opened Console
  import opened Resolvers
  import opened Registry
  import opened Reconstruction
  import opened Retracing

  /** AOSP_MAP_SEARCH_PATHS: where a checkout keeps its app mapping dictionaries. */
  const AospMapSearchPaths: seq<string> := ["out/target/common/obj/APPS"]

  /** The first line of USAGE; the rest of the help text is not modelled. */
  const UsageHeader: string := "Usage: retrace [<option>]* [<file>]"

  // ---------------------------------------------------------------------
  // --map-search-path
  // ---------------------------------------------------------------------

  /** The trimmed, non-empty parts, in order. */
  function Kept(parts: seq<string>): (r: seq<string>)
    ensures |r| <= |parts|
  {
    if parts == [] then []
    else
      var t := Trim(parts[0]);
      var rest := Kept(parts[1..]);
      if t == [] then rest else [t] + rest
  }

  /** Kept on a first part and the rest. */
  lemma KeptCons(p: string, parts: seq<string>)
    ensures Kept([p] + parts) == if Trim(p) == [] then Kept(parts) else [Trim(p)] + Kept(parts)
  {
    assert ([p] + parts)[1..] == parts;
  }

  /** parseSearchPath: split at ':', trim each part and drop the empty ones. */
  function SearchPathEntries(paths: string): (r: seq<string>)
  {
    Kept(SplitOn(paths, ':'))
  }

  /** A search-path entry that the flag can carry back unchanged. */
  predicate CleanEntry(p: string)
  {
    p != [] && ':' !in p && Trim(p) == p
  }

  /** Every entry that parseSearchPath yields is non-empty, trimmed and free of ':'. */
  lemma {:induction false} KeptClean(parts: seq<string>)
    requires forall k :: 0 <= k < |parts| ==> ':' !in parts[k]
    ensures forall k :: 0 <= k < |Kept(parts)| ==> CleanEntry(Kept(parts)[k])
  {
    if parts != [] {
      KeptClean(parts[1..]);
      var t := Trim(parts[0]);
      if t != [] {
        TrimSpec(parts[0]);
        var i, j :| 0 <= i <= j <= |parts[0]| && t == parts[0][i..j];
        assert forall c :: c in t ==> c in parts[0];
        TrimOfClean(t);
      }
    }
  }

  lemma SearchPathEntriesClean(paths: string)
    ensures forall k :: 0 <= k < |SearchPathEntries(paths)| ==> CleanEntry(SearchPathEntries(paths)[k])
  {
    KeptClean(SplitOn(paths, ':'));
  }

  /** Clean parts are kept as they are. */
  lemma {:induction false} KeptOfClean(parts: seq<string>)
    requires forall k :: 0 <= k < |parts| ==> CleanEntry(parts[k])
    ensures Kept(parts) == parts
  {
    if parts != [] {
      KeptOfClean(parts[1..]);
    }
  }

  /** Joining clean entries with ':' gives a search path that parses back to them. */
  lemma SearchPathRoundTrip(entries: seq<string>)
    requires forall k :: 0 <= k < |entries| ==> CleanEntry(entries[k])
    ensures SearchPathEntries(JoinWith(entries, ':')) == entries
  {
    if entries == [] {
      assert SplitOn([], ':') == [[]];
      assert Trim([]) == [];
    } else {
      SplitJoin(entries, ':');
      KeptOfClean(entries);
    }
  }

  /** What is left of the path from `start` on is one part when it holds no ':'. */
  lemma SplitNone(paths: string, start: nat)
    requires start <= |paths| && IndexOfChar(paths, ':', start) == -1
    ensures SplitOn(paths[start..], ':') == [paths[start..|paths|]]
  {
    var rest := paths[start..];
    assert paths[start..|paths|] == rest;
    assert ':' !in rest by {
      forall k | 0 <= k < |rest| ensures rest[k] != ':' {
        assert rest[k] == paths[start + k];
      }
    }
  }

  /** The two pieces around index `k` of the suffix from `a`, as slices of the whole. */
  lemma SuffixPieces(s: string, a: nat, k: nat)
    requires a + k < |s|
    ensures s[a..][..k] == s[a..a + k] && s[a..][k + 1..] == s[a + k + 1..]
  {
  }

  /** What is left of the path from `start` on splits at its first ':'. */
  lemma SplitAt(paths: string, start: nat, split: int)
    requires start <= |paths| && split == IndexOfChar(paths, ':', start) && split != -1
    ensures start <= split < |paths|
    ensures SplitOn(paths[start..], ':') == [paths[start..split]] + SplitOn(paths[split + 1..], ':')
  {
    var k := split - start;
    SuffixPieces(paths, start, k);
    var before := paths[start..split];
    assert ':' !in before by {
      forall j | 0 <= j < |before| ensures before[j] != ':' {
        assert before[j] == paths[start + j];
      }
    }
    SplitOnAt(paths[start..], ':', k);
  }

  /** The entries parseSearchPath still has to yield once it is at `start`. */
  function EntriesFrom(paths: string, start: nat): seq<string>
  {
    if start <= |paths| then Kept(SplitOn(paths[start..], ':')) else []
  }

  /** The round that finds no more ':' yields the rest of the path, when it is not blank, and ends. */
  lemma EntriesLastStep(paths: string, start: nat, path: string)
    requires start <= |paths| && IndexOfChar(paths, ':', start) == -1
    requires path == Trim(paths[start..|paths|])
    ensures EntriesFrom(paths, start) == if path == [] then [] else [path]
    ensures EntriesFrom(paths, |paths| + 1) == []
  {
    SplitNone(paths, start);
    assert EntriesFrom(paths, start) == Kept([paths[start..|paths|]]);
    KeptCons(paths[start..|paths|], []);
  }

  /** The round that finds a ':' at `split` yields the part before it, when it is not blank, then goes on after it. */
  lemma EntriesColonStep(paths: string, start: nat, split: nat, path: string)
    requires start <= |paths| && IndexOfChar(paths, ':', start) == split
    requires start <= split < |paths| && path == Trim(paths[start..split])
    ensures EntriesFrom(paths, start)
      == if path == [] then EntriesFrom(paths, split + 1) else [path] + EntriesFrom(paths, split + 1)
  {
    SplitAt(paths, start, split);
    var rest := SplitOn(paths[split + 1..], ':');
    assert EntriesFrom(paths, start) == Kept([paths[start..split]] + rest);
    assert EntriesFrom(paths, split + 1) == Kept(rest);
    KeptCons(paths[start..split], rest);
  }

  /** Nothing is left to yield once `start` has reached the end. */
  lemma EntriesDone(paths: string, start: nat)
    requires start >= |paths|
    ensures EntriesFrom(paths, start) == []
  {
    if start == |paths| {
      assert paths[start..] == [];
      assert SplitOn(paths[start..], ':') == [[]];
      assert Trim([]) == [];
    }
  }

  /**
   * The body of parseSearchPath's loop: the trimmed part from `start` up to
   * the next ':' (or the end), and where the next round starts.
   */
  method Round(paths: string, start: nat) returns (path: string, next: nat)
    requires start <= |paths|
    ensures next > start
    ensures EntriesFrom(paths, start) == if path == [] then EntriesFrom(paths, next) else [path] + EntriesFrom(paths, next)
  {
    var split := IndexOfChar(paths, ':', start);
    var end := if split != -1 then split else |paths|;
    path := Trim(paths[start..end]);
    if split == -1 {
      EntriesLastStep(paths, start, path);
    } else {
      EntriesColonStep(paths, start, split, path);
    }
    next := end + 1;
  }

  /** parseSearchPath, with its do-while loop over the colon-separated parts. */
  method ParseSearchPath(paths: string) returns (result: seq<string>)
    ensures result == SearchPathEntries(paths)
  {
    var length := |paths|;
    result := [];
    var start := 0;
    var more := true;
    assert paths[0..] == paths;
    ghost var all := EntriesFrom(paths, 0);
    while more
      invariant all == result + EntriesFrom(paths, start)
      invariant more ==> start <= length
      invariant !more ==> start >= length
      decreases length + 1 - start, more
    {
      var path, next := Round(paths, start);
      if path != [] {
        AppendAssociative(result, [path], EntriesFrom(paths, next));
        result := result + [path];
      }
      start := next;
      more := start < length;
    }
    EntriesDone(paths, start);
  }


  // ---------------------------------------------------------------------
  // The flag loop of main
  // ---------------------------------------------------------------------

  /** What the flags of one run ask for. */
  datatype Options = Options(
    bid: Option<string>,
    target: Option<string>,
    branch: Option<string>,
    stackTraceFile: Option<string>,
    defaultMap: Option<string>,
    printMapTable: bool,
    cwdRelative: bool,
    userTempDir: Option<string>,
    searchPaths: seq<string>)

  /** Nothing given: no build, the local search path of a checkout, input from standard input. */
  const Defaults: Options :=
    Options(None, None, None, None, None, false, false, None, AospMapSearchPaths)

  /** The flags that take the next argument as their value. */
  predicate IsValueFlag(arg: string)
  {
    arg in ["--bid", "--target", "--branch", "--default-map", "--map-search-path", "--temp"]
  }

  /** The options after a value flag and its value: the value replaces any earlier one. */
  function WithValue(o: Options, flag: string, value: string): Options
    requires IsValueFlag(flag)
  {
    if flag == "--bid" then o.(bid := Some(value))
    else if flag == "--target" then o.(target := Some(value))
    else if flag == "--branch" then o.(branch := Some(value))
    else if flag == "--default-map" then o.(defaultMap := Some(value))
    else if flag == "--map-search-path" then o.(searchPaths := SearchPathEntries(value))
    else o.(userTempDir := Some(value))
  }

  /** Where the flag loop ends: a request for help, or the options it collected. */
  datatype Parsed = Help | Parsed(options: Options)

  /** The flag loop of main from the argument list `args` on, with the options `o` so far. */
  function ParseFrom(args: seq<string>, o: Options): Result<Parsed, string>
    decreases |args|
  {
    if args == [] then Success(Parsed(o))
    else
      var arg := args[0];
      if arg == "-h" || arg == "--help" then Success(Help)
      else if IsValueFlag(arg) then
        if |args| == 1 then Failure("No argument given for " + arg)
        else ParseFrom(args[2..], WithValue(o, arg, args[1]))
      else if arg == "--print-map-table" then ParseFrom(args[1..], o.(printMapTable := true))
      else if arg == "--cwd-relative-search-paths" then ParseFrom(args[1..], o.(cwdRelative := true))
      else if StartsWith(arg, "-") then Failure("Unknown option: " + arg)
      else if o.stackTraceFile.Some? then Failure("At most one input file is supported.")
      else ParseFrom(args[1..], o.(stackTraceFile := Some(arg)))
  }

  /** What a run is asked to do once the flags are read. */
  datatype Command = ShowHelp | Run(options: Options, build: Option<BuildInfo>)

  const PairingMessage: string := "Must supply a target together with a build id."

  /** The flags of main, then the check that --bid and --target come together. */
  function Configure(args: seq<string>): Result<Command, string>
  {
    match ParseFrom(args, Defaults)
    case Failure(message) => Failure(message)
    case Success(Help) => Success(ShowHelp)
    case Success(Parsed(o)) =>
      if o.bid.None? && o.target.None? then Success(Run(o, None))
      else if o.bid.None? || o.target.None? then Failure(PairingMessage)
      else Success(Run(o, Some(BuildInfo(o.bid.value, o.target.value, o.branch))))
  }

  /** main's flag loop and the --bid/--target check. */
  method ParseArguments(args: seq<string>) returns (r: Result<Command, string>)
    ensures r == Configure(args)
  {
    var o := Defaults;
    var i := 0;
    while i < |args|
      invariant i <= |args|
      invariant ParseFrom(args, Defaults) == ParseFrom(args[i..], o)
    {
      var arg := args[i];
      assert args[i..][0] == arg;
      if arg == "-h" || arg == "--help" {
        return Success(ShowHelp);
      }
      if IsValueFlag(arg) {
        i := i + 1;
        if i == |args| {
          return Failure("No argument given for " + arg);
        }
        assert args[i - 1..][2..] == args[i + 1..];
        var value := args[i];
        if arg == "--map-search-path" {
          var entries := ParseSearchPath(value);
          o := o.(searchPaths := entries);
        } else {
          o := WithValue(o, arg, value);
        }
      } else if arg == "--print-map-table" {
        assert args[i..][1..] == args[i + 1..];
        o := o.(printMapTable := true);
      } else if arg == "--cwd-relative-search-paths" {
        assert args[i..][1..] == args[i + 1..];
        o := o.(cwdRelative := true);
      } else if StartsWith(arg, "-") {
        return Failure("Unknown option: " + arg);
      } else if o.stackTraceFile.Some? {
        return Failure("At most one input file is supported.");
      } else {
        assert args[i..][1..] == args[i + 1..];
        o := o.(stackTraceFile := Some(arg));
      }
      i := i + 1;
    }
    assert args[i..] == [];
    if o.bid.Some? || o.target.Some? {
      if o.bid.None? || o.target.None? {
        return Failure(PairingMessage);
      }
      return Success(Run(o, Some(BuildInfo(o.bid.value, o.target.value, o.branch))));
    }
    return Success(Run(o, None));
  }

  // ---------------------------------------------------------------------
  // What the flag loop promises
  // ---------------------------------------------------------------------

  /** The switches: flags without a value. */
  predicate IsSwitch(arg: string)
  {
    arg == "--print-map-table" || arg == "--cwd-relative-search-paths"
  }

  predicate IsHelp(arg: string)
  {
    arg == "-h" || arg == "--help"
  }

  /** Reading a whole prefix of flags and then the rest is reading the rest from where the prefix left off. */
  lemma {:induction false} ParseAppend(a: seq<string>, b: seq<string>, o: Options)
    requires ParseFrom(a, o).Success? && ParseFrom(a, o).value.Parsed?
    ensures ParseFrom(a + b, o) == ParseFrom(b, ParseFrom(a, o).value.options)
    decreases |a|
  {
    if a == [] {
      assert a + b == b;
    } else {
      var arg := a[0];
      assert (a + b)[0] == arg;
      if IsValueFlag(arg) {
        assert (a + b)[1] == a[1];
        assert (a + b)[2..] == a[2..] + b;
        ParseAppend(a[2..], b, WithValue(o, arg, a[1]));
      } else if arg == "--print-map-table" {
        assert (a + b)[1..] == a[1..] + b;
        ParseAppend(a[1..], b, o.(printMapTable := true));
      } else if arg == "--cwd-relative-search-paths" {
        assert (a + b)[1..] == a[1..] + b;
        ParseAppend(a[1..], b, o.(cwdRelative := true));
      } else {
        assert (a + b)[1..] == a[1..] + b;
        ParseAppend(a[1..], b, o.(stackTraceFile := Some(arg)));
      }
    }
  }

  /** A value flag given again replaces the earlier value: the last one wins. */
  lemma LastValueWins(args: seq<string>, flag: string, value: string)
    requires IsValueFlag(flag)
    requires ParseFrom(args, Defaults).Success? && ParseFrom(args, Defaults).value.Parsed?
    ensures ParseFrom(args + [flag, value], Defaults)
         == Success(Parsed(WithValue(ParseFrom(args, Defaults).value.options, flag, value)))
  {
    ParseAppend(args, [flag, value], Defaults);
    assert [flag, value][2..] == [];
  }

  /** -h or --help after well-formed flags is answered with the usage, whatever follows it. */
  lemma HelpAnswered(args: seq<string>, help: string, rest: seq<string>)
    requires IsHelp(help)
    requires ParseFrom(args, Defaults).Success? && ParseFrom(args, Defaults).value.Parsed?
    ensures Configure(args + [help] + rest) == Success(ShowHelp)
  {
    assert args + [help] + rest == args + ([help] + rest);
    ParseAppend(args, [help] + rest, Defaults);
  }

  /** How the argument `arg` fails the flag loop, given the options read before it. */
  predicate TokenFails(arg: string, last: bool, o: Options, message: string)
  {
    || (IsValueFlag(arg) && last && message == "No argument given for " + arg)
    || (!IsValueFlag(arg) && !IsSwitch(arg) && !IsHelp(arg) && StartsWith(arg, "-")
        && message == "Unknown option: " + arg)
    || (!StartsWith(arg, "-") && o.stackTraceFile.Some? && message == "At most one input file is supported.")
  }

  /** The flags before `args[i]` read well, and `args[i]` fails with `message`. */
  predicate FailsAt(args: seq<string>, o: Options, i: nat, message: string)
  {
    && i < |args|
    && var before := ParseFrom(args[..i], o);
    && before.Success? && before.value.Parsed?
    && TokenFails(args[i], i + 1 == |args|, before.value.options, message)
  }

  /** A failing argument after well-read flags fails the loop with its message. */
  lemma FailureAt(args: seq<string>, o: Options, i: nat, message: string)
    requires FailsAt(args, o, i, message)
    ensures ParseFrom(args, o) == Failure(message)
  {
    assert args == args[..i] + args[i..];
    ParseAppend(args[..i], args[i..], o);
    assert args[i..][0] == args[i];
  }

  /** Every failure of the flag loop is one of its three errors, at an argument where the flags before read well. */
  lemma {:induction false} FailureLocated(args: seq<string>, o: Options)
    requires ParseFrom(args, o).Failure?
    ensures exists i: nat :: FailsAt(args, o, i, ParseFrom(args, o).error)
    decreases |args|, 1
  {
    if IsValueFlag(args[0]) && |args| > 1 {
      ReadValueStep(args, o);
      FailureLocatedAfter(args, o, 2, WithValue(o, args[0], args[1]));
    } else if ReadsAlone(args[0], o) {
      ReadAloneStep(args, o);
      FailureLocatedAfter(args, o, 1, AfterAlone(args[0], o));
    } else {
      FailsFirst(args, o, ParseFrom(args, o).error);
    }
  }

  /** The first argument fails the loop when it is none of the flags read without failing. */
  lemma FailsFirst(args: seq<string>, o: Options, message: string)
    requires ParseFrom(args, o) == Failure(message)
    requires !(IsValueFlag(args[0]) && |args| > 1) && !ReadsAlone(args[0], o)
    ensures FailsAt(args, o, 0, message)
  {
    assert args[..0] == [];
  }

  /** The argument is read on its own: a switch, or the input file when none was given yet. */
  predicate ReadsAlone(arg: string, o: Options)
  {
    || arg == "--print-map-table" || arg == "--cwd-relative-search-paths"
    || (!IsValueFlag(arg) && !IsHelp(arg) && !StartsWith(arg, "-") && o.stackTraceFile.None?)
  }

  /** The options after reading the argument `arg` on its own. */
  function AfterAlone(arg: string, o: Options): Options
    requires ReadsAlone(arg, o)
  {
    if arg == "--print-map-table" then o.(printMapTable := true)
    else if arg == "--cwd-relative-search-paths" then o.(cwdRelative := true)
    else o.(stackTraceFile := Some(arg))
  }

  /** FailureLocated once the first flag, `n` arguments long, has been read into the options `o'`. */
  lemma {:induction false} FailureLocatedAfter(args: seq<string>, o: Options, n: nat, o': Options)
    requires 1 <= n <= 2 && n <= |args| && ParseFrom(args, o).Failure?
    requires n == 2 ==> IsValueFlag(args[0]) && o' == WithValue(o, args[0], args[1])
    requires n == 1 ==> ReadsAlone(args[0], o) && o' == AfterAlone(args[0], o)
    requires ParseFrom(args, o) == ParseFrom(args[n..], o')
    ensures exists i: nat :: FailsAt(args, o, i, ParseFrom(args, o).error)
    decreases |args|, 0
  {
    var message := ParseFrom(args, o).error;
    FailureLocated(args[n..], o');
    var j: nat :| FailsAt(args[n..], o', j, message);
    Shifted(args, o, n, o', j);
    FailsShifted(args, o, n, o', j, message);
  }

  /** An argument read on its own moves the loop one argument on. */
  lemma ReadAloneStep(args: seq<string>, o: Options)
    requires |args| >= 1 && ReadsAlone(args[0], o)
    ensures ParseFrom(args, o) == ParseFrom(args[1..], AfterAlone(args[0], o))
  {
  }

  /** A value flag followed by its value moves the loop two arguments on. */
  lemma ReadValueStep(args: seq<string>, o: Options)
    requires |args| >= 2 && IsValueFlag(args[0])
    ensures ParseFrom(args, o) == ParseFrom(args[2..], WithValue(o, args[0], args[1]))
  {
  }

  /** A failure `j` arguments after the first `n` is a failure at `n + j` of the whole list. */
  lemma FailsShifted(args: seq<string>, o: Options, n: nat, o': Options, j: nat, message: string)
    requires n + j < |args| && FailsAt(args[n..], o', j, message)
    requires ParseFrom(args[..n + j], o) == ParseFrom(args[n..][..j], o')
    requires args[n + j] == args[n..][j] && (n + j + 1 == |args| <==> j + 1 == |args[n..]|)
    ensures FailsAt(args, o, n + j, message)
  {
  }

  /** Reading the first `n` arguments as one flag and then `j` more is reading `n + j`. */
  lemma Shifted(args: seq<string>, o: Options, n: nat, o': Options, j: nat)
    requires 1 <= n <= 2 && n + j < |args|
    requires n == 2 ==> IsValueFlag(args[0]) && o' == WithValue(o, args[0], args[1])
    requires n == 1 ==> ReadsAlone(args[0], o) && o' == AfterAlone(args[0], o)
    ensures ParseFrom(args[..n + j], o) == ParseFrom(args[n..][..j], o')
    ensures args[n + j] == args[n..][j] && (n + j + 1 == |args| <==> j + 1 == |args[n..]|)
  {
    var p := args[..n + j];
    assert p[0] == args[0];
    assert p[n..] == args[n..][..j];
    if n == 2 {
      assert p[1] == args[1];
    }
  }

  // ---------------------------------------------------------------------
  // The flags that ask for given options
  // ---------------------------------------------------------------------

  /** A value flag with its value, when there is one. */
  function Given(flag: string, value: Option<string>): seq<string>
  {
    if value.Some? then [flag, value.value] else []
  }

  /** A switch, when it is set. */
  function Switch(flag: string, on: bool): seq<string>
  {
    if on then [flag] else []
  }

  /** Flags that ask for the options `o`, one flag per option, the input file last. */
  function Render(o: Options): seq<string>
  {
    Given("--bid", o.bid) + (Given("--target", o.target) + (Given("--branch", o.branch)
      + (Given("--default-map", o.defaultMap) + RenderLocal(o))))
  }

  /** The flags of Render after those about the build and the default map. */
  function RenderLocal(o: Options): seq<string>
  {
    ["--map-search-path", JoinWith(o.searchPaths, ':')] + RenderSwitches(o)
  }

  /** The flags of Render after the search path. */
  function RenderSwitches(o: Options): seq<string>
  {
    Switch("--print-map-table", o.printMapTable) + (Switch("--cwd-relative-search-paths", o.cwdRelative) + RenderLast(o))
  }

  /** The last flags of Render: the temporary directory and the input file. */
  function RenderLast(o: Options): seq<string>
  {
    Given("--temp", o.userTempDir) + (if o.stackTraceFile.Some? then [o.stackTraceFile.value] else [])
  }

  /** Options that flags can ask for: clean search-path entries, an input file that is not read as a flag. */
  predicate Renderable(o: Options)
  {
    && (forall k :: 0 <= k < |o.searchPaths| ==> CleanEntry(o.searchPaths[k]))
    && (o.stackTraceFile.Some? ==> !StartsWith(o.stackTraceFile.value, "-"))
  }

  lemma GivenStep(flag: string, value: Option<string>, rest: seq<string>, o: Options)
    requires IsValueFlag(flag)
    ensures ParseFrom(Given(flag, value) + rest, o)
         == ParseFrom(rest, if value.Some? then WithValue(o, flag, value.value) else o)
  {
    if value.Some? {
      var args := Given(flag, value) + rest;
      assert args[0] == flag && args[1] == value.value && args[2..] == rest;
    } else {
      assert Given(flag, value) + rest == rest;
    }
  }

  lemma SwitchStep(flag: string, on: bool, rest: seq<string>, o: Options)
    requires IsSwitch(flag)
    ensures ParseFrom(Switch(flag, on) + rest, o)
         == ParseFrom(rest, if !on then o else if flag == "--print-map-table" then o.(printMapTable := true)
                            else o.(cwdRelative := true))
  {
    if on {
      var args := Switch(flag, on) + rest;
      assert args[0] == flag && args[1..] == rest;
    } else {
      assert Switch(flag, on) + rest == rest;
    }
  }

  /** The flags that ask for options read back as those options; --bid and --target must come together. */
  lemma RenderRoundTrip(o: Options)
    requires Renderable(o)
    ensures ParseFrom(Render(o), Defaults) == Success(Parsed(o))
    ensures o.bid.Some? == o.target.Some? ==>
      Configure(Render(o)) == Success(Run(o, if o.bid.Some? then Some(BuildInfo(o.bid.value, o.target.value, o.branch)) else None))
    ensures o.bid.Some? != o.target.Some? ==> Configure(Render(o)) == Failure(PairingMessage)
  {
    var r4 := Given("--default-map", o.defaultMap) + RenderLocal(o);
    var r3 := Given("--branch", o.branch) + r4;
    var r2 := Given("--target", o.target) + r3;
    var o1 := Defaults.(bid := o.bid);
    var o2 := o1.(target := o.target);
    var o3 := o2.(branch := o.branch);
    var o4 := o3.(defaultMap := o.defaultMap);
    GivenStep("--bid", o.bid, r2, Defaults);
    GivenStep("--target", o.target, r3, o1);
    GivenStep("--branch", o.branch, r4, o2);
    GivenStep("--default-map", o.defaultMap, RenderLocal(o), o3);
    LocalRoundTrip(o, o4);
  }

  /** The local flags read back as the local options, after any options about the build. */
  lemma LocalRoundTrip(o: Options, before: Options)
    requires Renderable(o)
    requires before == Defaults.(bid := o.bid, target := o.target, branch := o.branch, defaultMap := o.defaultMap)
    ensures ParseFrom(RenderLocal(o), before) == Success(Parsed(o))
  {
    SearchPathRoundTrip(o.searchPaths);
    var local := RenderLocal(o);
    assert local[0] == "--map-search-path" && local[1] == JoinWith(o.searchPaths, ':');
    assert local[2..] == RenderSwitches(o);
    SwitchesRoundTrip(o, before.(searchPaths := o.searchPaths));
  }

  /** The switches, --temp and the input file read back as theirs. */
  lemma SwitchesRoundTrip(o: Options, before: Options)
    requires Renderable(o)
    requires before == Defaults.(bid := o.bid, target := o.target, branch := o.branch, defaultMap := o.defaultMap,
                                 searchPaths := o.searchPaths)
    ensures ParseFrom(RenderSwitches(o), before) == Success(Parsed(o))
  {
    var r8 := RenderLast(o);
    var r7 := Switch("--cwd-relative-search-paths", o.cwdRelative) + r8;
    var o6 := before.(printMapTable := o.printMapTable);
    SwitchStep("--print-map-table", o.printMapTable, r7, before);
    SwitchStep("--cwd-relative-search-paths", o.cwdRelative, r8, o6);
    LastRoundTrip(o, o6.(cwdRelative := o.cwdRelative));
  }

  /** --temp and the input file read back as theirs. */
  lemma LastRoundTrip(o: Options, before: Options)
    requires Renderable(o)
    requires before == o.(userTempDir := None, stackTraceFile := None)
    ensures ParseFrom(RenderLast(o), before) == Success(Parsed(o))
  {
    var input := if o.stackTraceFile.Some? then [o.stackTraceFile.value] else [];
    GivenStep("--temp", o.userTempDir, input, before);
    if o.stackTraceFile.Some? {
      assert input[1..] == [];
    }
  }

  // ---------------------------------------------------------------------
  // The run of main after its flags
  // ---------------------------------------------------------------------

  /**
   * main: read the flags; print the usage or fail on a bad flag; otherwise run.
   * The checkout root (found from where the program is installed), standard
   * input and the fresh temporary directory are given.
   */
  method RunRetrace(args: seq<string>, root: Option<string>, stdin: seq<string>, freshTemp: string,
                    ws: Workspace, engine: string -> Retracer, console: Console)
    returns (abort: Option<Abort>)
    requires ws.fs.Valid()
    modifies ws, console
    ensures Configure(args).Failure? ==>
      && abort == Some(Error(Configure(args).error))
      && console.out == old(console.out) && console.err == old(console.err) + old(console.pending)
    ensures Configure(args) == Success(ShowHelp) ==> abort == None && console.out == old(console.out) + [UsageHeader]
    ensures Configure(args).Success? && Configure(args).value.Run? ==>
      var o := Configure(args).value.options;
      (&& Configure(args).value.build.None? && root.None? && o.defaultMap.None? && !o.printMapTable
       && o.stackTraceFile.None? && Crash !in Segments(Readings(stdin), 0))
      ==> abort == None && console.out == old(console.out) + stdin
  {
    var command := ParseArguments(args);
    if command.Failure? {
      var a := console.Fail(command.error);
      return Some(a);
    }
    if command.value.ShowHelp? {
      console.Println(UsageHeader);
      return None;
    }
    abort := RunWith(command.value.options, command.value.build, root, stdin, freshTemp, ws, engine, console);
  }

  /**
   * The rest of main: fill the mapping table from the build server or from the
   * checkout; print the table, or pick the default map and retrace the input
   * file (or standard input); then print the held-back messages. Removing the
   * temporary directory is not modelled.
   */
  method RunWith(o: Options, build: Option<BuildInfo>, root: Option<string>, stdin: seq<string>, freshTemp: string,
                 ws: Workspace, engine: string -> Retracer, console: Console)
    returns (abort: Option<Abort>)
    requires ws.fs.Valid()
    modifies ws, console
    ensures
      (&& build.None? && root.None? && o.defaultMap.None? && !o.printMapTable
       && o.stackTraceFile.None? && Crash !in Segments(Readings(stdin), 0))
      ==> abort == None && console.out == old(console.out) + stdin
  {
    var tempDir := if o.userTempDir.Some? then o.userTempDir.value else freshTemp;
    var registry;
    registry, abort := Populate(build, o, root, tempDir, ws, console);
    if abort.Some? {
      return;
    }
    if o.printMapTable {
      var ids, table := registry.MapTable();
      PrintLines(table, console);
      return None;
    }
    abort := PickAndRetrace(o, registry, stdin, tempDir, ws, engine, console);
  }

  /**
   * The mapping table, from the build server when a build is named (its
   * meta-mapping files fetched first when there are none), otherwise from
   * the checkout; an empty table when there is neither.
   */
  method Populate(build: Option<BuildInfo>, o: Options, root: Option<string>, tempDir: string,
                  ws: Workspace, console: Console)
    returns (registry: Registry, abort: Option<Abort>)
    requires ws.fs.Valid()
    modifies ws, console
    ensures fresh(registry) && registry.Unbuilt() && ws.fs.Valid()
    ensures forall l | l in registry.retracers.Values :: fresh(l)
    ensures build.Some? ==> console.pending == old(console.pending)
    ensures console.err == old(console.err) + (if abort.Some? && abort.value.Error? then console.pending else [])
    ensures build.None? && root.None? ==>
      abort == None && registry.Sources() == map[] && console.out == old(console.out)
    ensures build.None? && root.Some? ==>
      var scan := LocalPopulation(ws.fs, root.value, o.searchPaths, o.cwdRelative);
      && abort == scan.abort && ws.fs == old(ws.fs) && ws.runs == old(ws.runs)
      && (abort.None? ==> registry.Sources() == Register(map[], scan.entries))
      && console.out == old(console.out) && console.pending == old(console.pending) + scan.infos
    ensures build.Some? ==>
      var b := build.value;
      var base := TempBuildDirPath(b, tempDir);
      var cached := CollectMetaMappingFiles(old(ws.fs), b, base) != [];
      var globbed := ws.installed && ws.tool(GlobCommand(b)).exitCode == 0;
      && (!cached && !ws.installed ==> abort == Some(Error(NotInstalledMessage)))
      && (!cached && ws.installed && !globbed ==> abort == Some(Error(GlobFailedMessage(GlobCommand(b)))))
      && (cached || globbed ==>
            var metas := CollectMetaMappingFiles(ws.fs, b, base);
            && (forall k :: 0 <= k < |metas| ==> metas[k] in ws.fs.contents)
            && (RemoteEntries(ws.fs, b, base, metas).Success? ==>
                  abort == None && registry.Sources() == Register(map[], RemoteEntries(ws.fs, b, base, metas).value))
            && (RemoteEntries(ws.fs, b, base, metas).Failure? ==>
                  abort == Some(AbortOf(RemoteEntries(ws.fs, b, base, metas).error))))
  {
    registry := new Registry();
    if build.Some? {
      abort := registry.PopulateRemote(build.value, tempDir, ws, console);
    } else {
      abort := registry.PopulateLocal(ws.fs, root, o.searchPaths, o.cwdRelative, console);
    }
  }

  /**
   * The default map when one is asked for, then the retrace of the input
   * file, or of standard input when no file is named.
   */
  method PickAndRetrace(o: Options, registry: Registry, stdin: seq<string>, tempDir: string,
                        ws: Workspace, engine: string -> Retracer, console: Console)
    returns (abort: Option<Abort>)
    requires ws.fs.Valid() && registry.Unbuilt()
    modifies ws, console, registry.retracers.Values
    ensures
      (&& registry.Sources() == map[] && o.defaultMap.None? && o.stackTraceFile.None?
       && Crash !in Segments(Readings(stdin), 0))
      ==> abort == None && console.out == old(console.out) + stdin
  {
    var found := registry.FindDefaultRetracer(o.defaultMap, ws.fs, console);
    if found.Failure? {
      return Some(found.error);
    }
    var default := found.value;
    if default.Some? {
      console.Println("Using default mapping: " + default.value.source.MapLocation());
    }
    var lines := stdin;
    if o.stackTraceFile.Some? {
      var file := o.stackTraceFile.value;
      if !ws.fs.Exists(file) {
        var a := console.Fail("Input file does not exist: " + file);
        return Some(a);
      }
      if file !in ws.fs.contents {
        return Some(NoSuchFile(file));
      }
      lines := ws.fs.contents[file];
    }
    DefaultUnbuilt(registry, o.defaultMap, ws.fs, found, tempDir);
    abort := RetraceInput(lines, registry, default, tempDir, ws, engine, console);
  }

  /** Print each line in turn. */
  method PrintLines(lines: seq<string>, console: Console)
    modifies console
    ensures console.out == old(console.out) + lines
    ensures console.err == old(console.err) && console.pending == old(console.pending)
  {
    var k := 0;
    while k < |lines|
      invariant k <= |lines|
      invariant console.out == old(console.out) + lines[..k]
      invariant console.err == old(console.err) && console.pending == old(console.pending)
    {
      console.Println(lines[k]);
      assert lines[..k + 1] == lines[..k] + [lines[k]];
      k := k + 1;
    }
    assert lines[..k] == lines;
  }

  /** Before retracing, neither a registered retracer nor the default one has been built. */
  lemma DefaultUnbuilt(registry: Registry, key: Option<string>, fs: FileSystem,
                       found: Result<Option<LazyRetracer>, Abort>, tempDir: string)
    requires registry.Unbuilt() && found.Success?
    requires found.value.Some? ==> key.Some?
    requires found.value.Some? ==>
      found.value.value.built.None? || exists id :: id in MatchingIds(registry.Sources(), key.value) && registry.retracers[id] == found.value.value
    ensures AllBuilt(Lazies(registry, found.value), tempDir)
  {
  }

  /** retrace on the input lines, then the held-back messages when the run did not end early. */
  method RetraceInput(lines: seq<string>, registry: Registry, default: Option<LazyRetracer>, tempDir: string,
                      ws: Workspace, engine: string -> Retracer, console: Console)
    returns (abort: Option<Abort>)
    requires ws.fs.Valid() && AllBuilt(Lazies(registry, default), tempDir)
    modifies ws, console, Lazies(registry, default)
    ensures registry.Sources() == map[] && default.None? && Crash !in Segments(Readings(lines), 0) ==>
      abort == None && console.out == old(console.out) + lines
  {
    ghost var rs := Readings(lines);
    ReadFromReadings(rs, lines);
    abort := Retrace(lines, rs, registry, default, Lazies(registry, default), tempDir, ws, engine, console);
    if registry.Sources() == map[] && default.None? {
      IdentityWhenUnresolved(lines, map[], None, engine, tempDir);
    }
    if abort.None? {
      console.Flush();
    }
  }
}
