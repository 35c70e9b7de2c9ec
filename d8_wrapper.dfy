/**
 * The D8 wrapper's own flags (D8Wrapper.java:49-52, 105-180): it takes
 * --shard-count, --shard-number, --info and --no-dex-input-jar out of the
 * argument list, passes every other argument on to D8 in order, checks that
 * the shard flags come as a pair backed by at least one no-dex archive, and
 * splits the class files of those archives between the program and the
 * class path of each shard by their hash.
 */
module D8 {
  import opened Wrappers
  import opened JavaString

  const NoDexFlag := "--no-dex-input-jar"
  const InfoFlag := "--info"
  const ShardCountFlag := "--shard-count"
  const ShardNumberFlag := "--shard-number"

  /** The wrapper flags that take the argument after them. */
  predicate TakesValue(arg: string)
  {
    arg == ShardCountFlag || arg == ShardNumberFlag || arg == NoDexFlag
  }

  predicate IsWrapperFlag(arg: string)
  {
    TakesValue(arg) || arg == InfoFlag
  }

  /** The exceptions the wrapper raises. */
  datatype D8Error =
    /** A RuntimeException with this message. */
    | Failed(message: string)
    /** Integer.parseInt's NumberFormatException for this text. */
    | NumberFormat(text: string)
    /** The ArithmeticException of a remainder by zero. */
    | DivideByZero

  /** The wrapper's fields; a null Integer is None. */
  datatype Settings = Settings(
    printInfoDiagnostics: bool,
    noDexArchives: seq<string>,
    shardCount: Option<int>,
    shardNumber: Option<int>)

  const Initial := Settings(false, [], None, None)

  /** The arguments not taken by the wrapper, in front of the remaining outcome. */
  function Prefix(passed: seq<string>, r: Result<(Settings, seq<string>), D8Error>): Result<(Settings, seq<string>), D8Error>
  {
    match r
    case Failure(e) => Failure(e)
    case Success((s, rest)) => Success((s, passed + rest))
  }

  lemma PrefixTwice(a: seq<string>, b: seq<string>, r: Result<(Settings, seq<string>), D8Error>)
    ensures Prefix(a, Prefix(b, r)) == Prefix(a + b, r)
  {
    if r.Success? {
      assert a + (b + r.value.1) == (a + b) + r.value.1;
    }
  }

  /**
   * The flag loop as a recursion: the settings after reading `args` from `s`
   * and the arguments passed on, or the exception that ended the loop.
   * `regularFiles` are the paths Files.isRegularFile accepts.
   */
  function ReadFlags(args: seq<string>, s: Settings, regularFiles: set<string>): Result<(Settings, seq<string>), D8Error>
    decreases |args|
  {
    if args == [] then Success((s, []))
    else if args[0] == ShardCountFlag || args[0] == ShardNumberFlag then
      if |args| < 2 then Failure(Failed("Missing argument to " + args[0]))
      else
        match ParseJavaInt(args[1])
        case None => Failure(NumberFormat(args[1]))
        case Some(n) =>
          var s' := if args[0] == ShardCountFlag then s.(shardCount := Some(n)) else s.(shardNumber := Some(n));
          ReadFlags(args[2..], s', regularFiles)
    else if args[0] == InfoFlag then ReadFlags(args[1..], s.(printInfoDiagnostics := true), regularFiles)
    else if args[0] == NoDexFlag then
      if |args| < 2 then Failure(Failed("Missing argument to " + NoDexFlag))
      else if args[1] !in regularFiles then Failure(Failed("Unexpected argument to " + NoDexFlag + ". Expected an archive"))
      else ReadFlags(args[2..], s.(noDexArchives := s.noDexArchives + [args[1]]), regularFiles)
    else Prefix([args[0]], ReadFlags(args[1..], s, regularFiles))
  }

  /** The checks after the loop: the shard flags come as a pair, and sharding needs a no-dex archive. */
  function ShardCheck(s: Settings): Option<D8Error>
  {
    if s.shardCount.None? != s.shardNumber.None? then
      Some(Failed("You must specify both shard_number and shard_count, or none"))
    else if s.noDexArchives == [] && s.shardCount.Some? then
      Some(Failed("no dex archives not used for sharding"))
    else None
  }

  /** parseWrapperArguments from the settings `s`: the flag loop, then the checks. */
  function ParseArgs(args: seq<string>, s: Settings, regularFiles: set<string>): Result<(Settings, seq<string>), D8Error>
  {
    match ReadFlags(args, s, regularFiles)
    case Failure(e) => Failure(e)
    case Success((s', passed)) =>
      if ShardCheck(s').Some? then Failure(ShardCheck(s').value) else Success((s', passed))
  }

  class D8Wrapper {
    var printInfoDiagnostics: bool
    var noDexArchives: seq<string>
    var shardCount: Option<int>
    var shardNumber: Option<int>

    function State(): Settings
      reads this
    {
      Settings(printInfoDiagnostics, noDexArchives, shardCount, shardNumber)
    }

    constructor ()
      ensures State() == Initial
    {
      printInfoDiagnostics := false;
      noDexArchives := [];
      shardCount := None;
      shardNumber := None;
    }

    /**
     * parseWrapperArguments: the arguments for D8, with the wrapper's own
     * flags recorded in the fields. On an exception the run ends, so the
     * fields are then left unspecified.
     */
    method ParseWrapperArguments(args: seq<string>, regularFiles: set<string>) returns (r: Result<seq<string>, D8Error>)
      modifies this
      ensures r.Success? == ParseArgs(args, old(State()), regularFiles).Success?
      ensures r.Success? ==> (State(), r.value) == ParseArgs(args, old(State()), regularFiles).value
      ensures r.Failure? ==> r.error == ParseArgs(args, old(State()), regularFiles).error
    {
      ghost var start := State();
      var remainingArgs: seq<string> := [];
      var i := 0;
      assert args[i..] == args;
      PrefixEmpty(ReadFlags(args, start, regularFiles));
      while i < |args|
        invariant i <= |args|
        invariant ReadFlags(args, start, regularFiles) == Prefix(remainingArgs, ReadFlags(args[i..], State(), regularFiles))
        decreases |args| - i
      {
        var arg := args[i];
        ghost var rest := args[i..];
        assert rest[0] == arg;
        if arg == ShardCountFlag || arg == ShardNumberFlag {
          i := i + 1;
          if i >= |args| {
            return Failure(Failed("Missing argument to " + arg));
          }
          var n := ParseJavaInt(args[i]);
          if n.None? {
            return Failure(NumberFormat(args[i]));
          }
          assert rest[1] == args[i] && rest[2..] == args[i + 1..];
          if arg == ShardCountFlag {
            shardCount := Some(n.value);
          } else {
            shardNumber := Some(n.value);
          }
        } else if arg == InfoFlag {
          assert rest[1..] == args[i + 1..];
          printInfoDiagnostics := true;
        } else if arg == NoDexFlag {
          i := i + 1;
          if i >= |args| {
            return Failure(Failed("Missing argument to " + NoDexFlag));
          }
          if args[i] !in regularFiles {
            return Failure(Failed("Unexpected argument to " + NoDexFlag + ". Expected an archive"));
          }
          assert rest[1] == args[i] && rest[2..] == args[i + 1..];
          noDexArchives := noDexArchives + [args[i]];
        } else {
          assert rest[1..] == args[i + 1..];
          PrefixTwice(remainingArgs, [arg], ReadFlags(args[i + 1..], State(), regularFiles));
          remainingArgs := remainingArgs + [arg];
        }
        i := i + 1;
      }
      assert args[i..] == [];
      assert ReadFlags(args, start, regularFiles) == Success((State(), remainingArgs)) by {
        assert remainingArgs + [] == remainingArgs;
      }
      if (shardCount == None) != (shardNumber == None) {
        return Failure(Failed("You must specify both shard_number and shard_count, or none"));
      }
      if noDexArchives == [] && shardCount != None {
        return Failure(Failed("no dex archives not used for sharding"));
      }
      r := Success(remainingArgs);
    }
  }

  /** Reading `a` and then `b` is reading `a + b`: the loop never looks back. */
  lemma {:induction false} ReadFlagsAppend(a: seq<string>, b: seq<string>, s: Settings, regularFiles: set<string>)
    requires ReadFlags(a, s, regularFiles).Success?
    ensures ReadFlags(a + b, s, regularFiles)
      == Prefix(ReadFlags(a, s, regularFiles).value.1, ReadFlags(b, ReadFlags(a, s, regularFiles).value.0, regularFiles))
    decreases |a|
  {
    if a == [] {
      assert a + b == b;
      PrefixEmpty(ReadFlags(b, s, regularFiles));
    } else {
      var ab := a + b;
      assert ab[0] == a[0];
      if TakesValue(a[0]) {
        assert |a| >= 2;
        assert ab[1] == a[1] && ab[2..] == a[2..] + b;
      } else {
        assert ab[1..] == a[1..] + b;
      }
      if a[0] == ShardCountFlag || a[0] == ShardNumberFlag {
        var n := ParseJavaInt(a[1]).value;
        var s' := if a[0] == ShardCountFlag then s.(shardCount := Some(n)) else s.(shardNumber := Some(n));
        ReadFlagsAppend(a[2..], b, s', regularFiles);
      } else if a[0] == InfoFlag {
        ReadFlagsAppend(a[1..], b, s.(printInfoDiagnostics := true), regularFiles);
      } else if a[0] == NoDexFlag {
        ReadFlagsAppend(a[2..], b, s.(noDexArchives := s.noDexArchives + [a[1]]), regularFiles);
      } else {
        ReadFlagsAppend(a[1..], b, s, regularFiles);
        var rest := ReadFlags(a[1..], s, regularFiles).value;
        PrefixTwice([a[0]], rest.1, ReadFlags(b, rest.0, regularFiles));
      }
    }
  }

  lemma PrefixEmpty(r: Result<(Settings, seq<string>), D8Error>)
    ensures Prefix([], r) == r
  {
    if r.Success? {
      assert [] + r.value.1 == r.value.1;
    }
  }

  /**
   * A value-taking flag as the last argument is an error naming the flag,
   * whatever was read before it.
   */
  lemma MissingArgument(a: seq<string>, flag: string, s: Settings, regularFiles: set<string>)
    requires TakesValue(flag)
    requires ReadFlags(a, s, regularFiles).Success?
    ensures ReadFlags(a + [flag], s, regularFiles) == Failure(Failed("Missing argument to " + flag))
  {
    ReadFlagsAppend(a, [flag], s, regularFiles);
  }

  /** `args` with every `--info` taken out. */
  function WithoutInfo(args: seq<string>): (r: seq<string>)
    ensures |r| <= |args|
    ensures forall x | x in r :: x in args && x != InfoFlag
  {
    if args == [] then []
    else if args[0] == InfoFlag then WithoutInfo(args[1..])
    else [args[0]] + WithoutInfo(args[1..])
  }

  /**
   * Without value-taking flags, D8 gets exactly the arguments other than
   * `--info`, in their original order, and only the info switch changes.
   */
  lemma {:induction false} PassedInOrder(args: seq<string>, s: Settings, regularFiles: set<string>)
    requires forall x | x in args :: !TakesValue(x)
    ensures ReadFlags(args, s, regularFiles)
      == Success((s.(printInfoDiagnostics := s.printInfoDiagnostics || InfoFlag in args), WithoutInfo(args)))
    decreases |args|
  {
    if args != [] {
      assert forall x | x in args[1..] :: x in args;
      assert args[0] in args;
      if args[0] == InfoFlag {
        PassedInOrder(args[1..], s.(printInfoDiagnostics := true), regularFiles);
      } else {
        PassedInOrder(args[1..], s, regularFiles);
        assert InfoFlag in args <==> InfoFlag in args[1..] by {
          assert args == [args[0]] + args[1..];
        }
        assert WithoutInfo(args) == [args[0]] + WithoutInfo(args[1..]);
      }
    }
  }

  /**
   * The run goes on exactly when the loop ends normally, the shard flags are
   * both given or both absent, and sharding has a no-dex archive to split.
   */
  lemma ShardFlagsChecked(args: seq<string>, s: Settings, regularFiles: set<string>)
    ensures ParseArgs(args, s, regularFiles).Success? <==>
      && ReadFlags(args, s, regularFiles).Success?
      && var t := ReadFlags(args, s, regularFiles).value.0;
      && (t.shardCount.Some? <==> t.shardNumber.Some?)
      && (t.shardCount.Some? ==> t.noDexArchives != [])
  {
  }

  /**
   * Integer `%`: the remainder of truncating division, which takes the sign
   * of the dividend.
   */
  function JavaRem(a: int, b: int): (r: int)
    requires b != 0
    ensures (a - r) % Abs(b) == 0
    ensures -Abs(b) < r < Abs(b)
    ensures a >= 0 ==> r >= 0
    ensures a <= 0 ==> r <= 0
  {
    var m := Abs(b);
    var t := Abs(a) % m;
    RemainderLeavesMultiple(Abs(a), m);
    if a >= 0 then t else NegatedMultiple(Abs(a) - t, m); -t
  }

  function Abs(x: int): int
  {
    if x < 0 then -x else x
  }

  /** Taking away the remainder leaves a multiple. */
  lemma RemainderLeavesMultiple(x: int, m: int)
    requires m > 0
    ensures (x - x % m) % m == 0
  {
    var q := x / m;
    assert x - x % m == q * m;
    MultipleMod(q, m);
  }

  lemma NegatedMultiple(y: int, m: int)
    requires m > 0 && y % m == 0
    ensures (-y) % m == 0
  {
    var q := y / m;
    assert y == q * m;
    assert -y == (-q) * m;
    MultipleMod(-q, m);
  }

  /** A multiple of `m` leaves no remainder. */
  lemma MultipleMod(k: int, m: int)
    requires m > 0
    ensures (k * m) % m == 0
  {
    var y := k * m;
    var q := y / m;
    var t := y % m;
    assert y == q * m + t;
    assert (k - q) * m == t;
    if k - q >= 1 {
      MulAtLeast(k - q, m);
    } else if k - q <= -1 {
      MulAtLeast(q - k, m);
    }
  }

  lemma MulAtLeast(d: int, m: int)
    requires d >= 1 && m > 0
    ensures d * m >= m
  {
    assert d * m == (d - 1) * m + m;
  }

  /**
   * isProgramEntry, as written: with sharding, an entry belongs to the shard
   * whose number equals its hash code `%` the shard count. `hash` is
   * String.hashCode and `classFile` the archive provider's class-file filter.
   */
  function ProgramEntryAsWritten(s: Settings, hash: string -> int, classFile: string -> bool, entry: string): Result<bool, D8Error>
  {
    if s.shardCount.None? then Success(classFile(entry))
    else if s.shardCount.value == 0 then Failure(DivideByZero)
    else Success(Some(JavaRem(hash(entry), s.shardCount.value)) == s.shardNumber && classFile(entry))
  }

  /** isClassPathEntry: with sharding, a class file that belongs to another shard. */
  function ClassPathEntry(s: Settings, hash: string -> int, classFile: string -> bool, entry: string): Result<bool, D8Error>
  {
    if s.shardCount.None? then Success(false)
    else if s.shardCount.value == 0 then Failure(DivideByZero)
    else Success(Some(JavaRem(hash(entry), s.shardCount.value)) != s.shardNumber && classFile(entry))
  }

  /**
   * Without sharding no entry is on the class path and the program entries
   * are the class files; with sharding every class file is exactly one of
   * program and class path, and nothing else is either.
   */
  lemma EntriesPartitioned(s: Settings, hash: string -> int, classFile: string -> bool, entry: string)
    ensures s.shardCount.None? ==>
      ClassPathEntry(s, hash, classFile, entry) == Success(false) &&
      ProgramEntryAsWritten(s, hash, classFile, entry) == Success(classFile(entry))
    ensures s.shardCount.Some? && s.shardCount.value != 0 ==>
      && ProgramEntryAsWritten(s, hash, classFile, entry).Success?
      && ClassPathEntry(s, hash, classFile, entry).Success?
      && (ProgramEntryAsWritten(s, hash, classFile, entry).value || ClassPathEntry(s, hash, classFile, entry).value
          <==> classFile(entry))
      && !(ProgramEntryAsWritten(s, hash, classFile, entry).value && ClassPathEntry(s, hash, classFile, entry).value)
  {
  }

  /** The settings of shard `k` of `count`, with one no-dex archive. */
  function Shard(count: int, k: int): Settings
  {
    Settings(false, ["classes.jar"], Some(count), Some(k))
  }

  /**
   * As written, a class file whose hash code is negative belongs to no shard:
   * with two shards and hash code -1 neither shard 0 nor shard 1 compiles it,
   * and both put it on the class path.
   */
  lemma NegativeHashInNoShard(hash: string -> int, classFile: string -> bool, entry: string)
    requires hash(entry) == -1 && classFile(entry)
    ensures forall k | 0 <= k < 2 :: ProgramEntryAsWritten(Shard(2, k), hash, classFile, entry) == Success(false)
    ensures forall k | 0 <= k < 2 :: ClassPathEntry(Shard(2, k), hash, classFile, entry) == Success(true)
  {
    assert JavaRem(-1, 2) == -1;
  }

  /**
   * isProgramEntry with the floor remainder (Math.floorMod) in place of `%`
   * for a positive shard count: the shard of an entry is its hash code
   * reduced into 0 .. count - 1.
   */
  function ProgramEntry(s: Settings, hash: string -> int, classFile: string -> bool, entry: string): Result<bool, D8Error>
  {
    if s.shardCount.None? then Success(classFile(entry))
    else if s.shardCount.value == 0 then Failure(DivideByZero)
    else Success(Some(hash(entry) % s.shardCount.value) == s.shardNumber && classFile(entry))
  }

  /**
   * With the floor remainder, shards 0 .. count - 1 of a positive count
   * divide the class files between them: each one is compiled by exactly
   * one shard.
   */
  lemma EachClassInOneShard(count: int, hash: string -> int, classFile: string -> bool, entry: string)
    requires count > 0 && classFile(entry)
    ensures exists k :: 0 <= k < count && ProgramEntry(Shard(count, k), hash, classFile, entry) == Success(true)
    ensures forall k, l | 0 <= k < l < count ::
      !(ProgramEntry(Shard(count, k), hash, classFile, entry) == Success(true) &&
        ProgramEntry(Shard(count, l), hash, classFile, entry) == Success(true))
  {
    var k := hash(entry) % count;
    assert ProgramEntry(Shard(count, k), hash, classFile, entry) == Success(true);
  }

  /**
   * Where every hash code is non-negative the two definitions agree, so the
   * correction changes nothing for the entries the source already handles.
   */
  lemma CorrectionAgrees(s: Settings, hash: string -> int, classFile: string -> bool, entry: string)
    requires hash(entry) >= 0
    requires s.shardCount.Some? ==> s.shardCount.value > 0
    ensures ProgramEntry(s, hash, classFile, entry) == ProgramEntryAsWritten(s, hash, classFile, entry)
  {
  }
}
