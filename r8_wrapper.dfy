/**
 * The R8 wrapper's own flags (R8Wrapper.java:98-318). parseWrapperArguments
 * walks the argument list once: wrapper switches set fields, the resource and
 * deps-file flags take the next argument as a path, a few ProGuard options
 * become rules, --multi-dex disappears, and everything else is passed on to
 * R8 in order. applyWrapperArguments then turns the fields into compiler
 * settings, and main sets the default-init system property unless compat
 * mode or --no-implicit-default-init asked otherwise.
 */
module R8 {
  import opened Wrappers
  import opened Sequences

  /** The wrapper flags that only set a boolean field, one per field. */
  datatype Switch =
    | IgnoreLibraryExtendsProgram
    | Info
    | KeepRuntimeInvisibleAnnotations
    | OptimizedResourceShrinking
    | ForceOptimizedResourceShrinking
    | NoImplicitDefaultInit
    | ForceProguardCompatibility
    | ProtectApiSurface
    | StoreStoreFenceConstructorInlining

  /** The command-line spelling of a switch. */
  function SwitchFlag(sw: Switch): string
  {
    match sw
    case IgnoreLibraryExtendsProgram => "--ignore-library-extends-program"
    case Info => "--info"
    case KeepRuntimeInvisibleAnnotations => "--keep-runtime-invisible-annotations"
    case OptimizedResourceShrinking => "--optimized-resource-shrinking"
    case ForceOptimizedResourceShrinking => "--force-optimized-resource-shrinking"
    case NoImplicitDefaultInit => "--no-implicit-default-init"
    case ForceProguardCompatibility => "--force-proguard-compatibility"
    case ProtectApiSurface => "--protect-api-surface"
    case StoreStoreFenceConstructorInlining => "--store-store-fence-constructor-inlining"
  }

  /** What the switch statement does with an argument. */
  datatype ArgKind =
    | SwitchArg(sw: Switch)
    | ResourceInputArg
    | ResourceOutputArg
    | DepsFileArg
    /** Dropped without a trace. */
    | MultiDexArg
    /** A ProGuard option without an argument, kept as a rule. */
    | ZeroArgRule
    /** -dontoptimize: kept as a rule, and sets dontOptimize. */
    | DontOptimizeRule
    /** A ProGuard option that reads the next argument into its rule. */
    | OneArgRule
    /** The default case: passed on to R8. */
    | PassedArg

  const ResourceInputFlag := "--resource-input"
  const ResourceOutputFlag := "--resource-output"
  const MultiDexFlag := "--multi-dex"

  /** How the switch statement treats `arg`: its case labels, in the order they are written. */
  function KindOf(arg: string): ArgKind
  {
    match arg
    case "--ignore-library-extends-program" => SwitchArg(IgnoreLibraryExtendsProgram)
    case "--info" => SwitchArg(Info)
    case "--keep-runtime-invisible-annotations" => SwitchArg(KeepRuntimeInvisibleAnnotations)
    case "--resource-input" => ResourceInputArg
    case "--resource-output" => ResourceOutputArg
    case "--optimized-resource-shrinking" => SwitchArg(OptimizedResourceShrinking)
    case "--force-optimized-resource-shrinking" => SwitchArg(ForceOptimizedResourceShrinking)
    case "--no-implicit-default-init" => SwitchArg(NoImplicitDefaultInit)
    case "--deps-file" => DepsFileArg
    case "--multi-dex" => MultiDexArg
    case "--force-proguard-compatibility" => SwitchArg(ForceProguardCompatibility)
    case "-dontshrink" => ZeroArgRule
    case "-dontobfuscate" => ZeroArgRule
    case "-ignorewarnings" => ZeroArgRule
    case "-dontoptimize" => DontOptimizeRule
    case "-injars" => OneArgRule
    case "-libraryjars" => OneArgRule
    case "-include" => OneArgRule
    case "-printmapping" => OneArgRule
    case "-printconfiguration" => OneArgRule
    case "-printusage" => OneArgRule
    case "-printseeds" => OneArgRule
    case "--protect-api-surface" => SwitchArg(ProtectApiSurface)
    case "--store-store-fence-constructor-inlining" => SwitchArg(StoreStoreFenceConstructorInlining)
    case _ => PassedArg
  }

  /** The labels the lemmas below refer to select their cases. */
  lemma CaseLabels()
    ensures KindOf(ResourceInputFlag) == ResourceInputArg
    ensures KindOf(ResourceOutputFlag) == ResourceOutputArg
    ensures KindOf(MultiDexFlag) == MultiDexArg
    ensures KindOf(SwitchFlag(ForceProguardCompatibility)) == SwitchArg(ForceProguardCompatibility)
    ensures KindOf(SwitchFlag(NoImplicitDefaultInit)) == SwitchArg(NoImplicitDefaultInit)
  {
  }

  /** Only their own flags select the two switches that turn the default-init conversion off. */
  lemma DefaultInitSpelling(arg: string, sw: Switch)
    requires sw == ForceProguardCompatibility || sw == NoImplicitDefaultInit
    requires KindOf(arg) == SwitchArg(sw)
    ensures arg == SwitchFlag(sw)
  {
  }

  /** The flags that read the argument after them. */
  predicate TakesValue(k: ArgKind)
  {
    k == ResourceInputArg || k == ResourceOutputArg || k == DepsFileArg || k == OneArgRule
  }

  /** Every argument the wrapper acts on rather than passing it to R8. */
  predicate IsWrapperArg(arg: string)
  {
    KindOf(arg) != PassedArg
  }

  /** The exceptions parsing and applying can raise. */
  datatype R8Error =
    /** A RuntimeException with this message. */
    | Failed(message: string)
    /** The ArrayIndexOutOfBoundsException of reading past the last argument. */
    | IndexOutOfBounds

  /** The wrapper's fields; a null Path is None. */
  datatype Settings = Settings(
    ignoreLibraryExtendsProgram: bool,
    useCompatPg: bool,
    depsOutput: Option<string>,
    resourceInput: Option<string>,
    resourceOutput: Option<string>,
    pgRules: seq<string>,
    printInfoDiagnostics: bool,
    dontOptimize: bool,
    keepRuntimeInvisibleAnnotations: bool,
    optimizingResourceShrinking: bool,
    forceOptimizingResourceShrinking: bool,
    noImplicitDefaultInit: bool,
    protectApiSurface: bool,
    storeStoreFenceConstructorInlining: bool)

  const Initial := Settings(false, false, None, None, None, [], false, false, false, false, false, false, false, false)

  /** The field a switch sets. */
  function Switched(s: Settings, sw: Switch): bool
  {
    match sw
    case IgnoreLibraryExtendsProgram => s.ignoreLibraryExtendsProgram
    case Info => s.printInfoDiagnostics
    case KeepRuntimeInvisibleAnnotations => s.keepRuntimeInvisibleAnnotations
    case OptimizedResourceShrinking => s.optimizingResourceShrinking
    case ForceOptimizedResourceShrinking => s.forceOptimizingResourceShrinking
    case NoImplicitDefaultInit => s.noImplicitDefaultInit
    case ForceProguardCompatibility => s.useCompatPg
    case ProtectApiSurface => s.protectApiSurface
    case StoreStoreFenceConstructorInlining => s.storeStoreFenceConstructorInlining
  }

  /** Setting the field of a switch. */
  function SwitchOn(s: Settings, sw: Switch): Settings
  {
    match sw
    case IgnoreLibraryExtendsProgram => s.(ignoreLibraryExtendsProgram := true)
    case Info => s.(printInfoDiagnostics := true)
    case KeepRuntimeInvisibleAnnotations => s.(keepRuntimeInvisibleAnnotations := true)
    case OptimizedResourceShrinking => s.(optimizingResourceShrinking := true)
    case ForceOptimizedResourceShrinking => s.(forceOptimizingResourceShrinking := true)
    case NoImplicitDefaultInit => s.(noImplicitDefaultInit := true)
    case ForceProguardCompatibility => s.(useCompatPg := true)
    case ProtectApiSurface => s.(protectApiSurface := true)
    case StoreStoreFenceConstructorInlining => s.(storeStoreFenceConstructorInlining := true)
  }

  /** A switch sets its own field and leaves every other field as it was. */
  lemma SwitchOnSets(s: Settings, sw: Switch, other: Switch)
    ensures Switched(SwitchOn(s, sw), other) == (Switched(s, other) || other == sw)
    ensures SwitchOn(s, sw).resourceInput == s.resourceInput
    ensures SwitchOn(s, sw).resourceOutput == s.resourceOutput
    ensures SwitchOn(s, sw).pgRules == s.pgRules
  {
  }

  /** One turn of the loop: the next settings, how many arguments it read and what it passed on. */
  datatype Step =
    | Next(state: Settings, used: nat, passed: seq<string>)
    | Stop(error: R8Error)

  /** The body of the switch case `kind` for the argument at the head of `args`. */
  function StepFor(kind: ArgKind, args: seq<string>, s: Settings): (r: Step)
    requires args != []
    ensures r.Next? ==> 1 <= r.used <= |args|
    ensures r.Next? ==> (r.passed == [] <==> kind != PassedArg)
  {
    var arg := args[0];
    match kind
    case SwitchArg(sw) => Next(SwitchOn(s, sw), 1, [])
    case ResourceInputArg =>
      if s.resourceInput.Some? then Stop(Failed("Only one --resource-input flag accepted"))
      else if |args| < 2 then Stop(IndexOutOfBounds)
      else Next(s.(resourceInput := Some(args[1])), 2, [])
    case ResourceOutputArg =>
      if s.resourceOutput.Some? then Stop(Failed("Only one --resource-output flag accepted"))
      else if |args| < 2 then Stop(IndexOutOfBounds)
      else Next(s.(resourceOutput := Some(args[1])), 2, [])
    case DepsFileArg =>
      if |args| < 2 then Stop(IndexOutOfBounds)
      else Next(s.(depsOutput := Some(args[1])), 2, [])
    case MultiDexArg => Next(s, 1, [])
    case ZeroArgRule => Next(s.(pgRules := s.pgRules + [arg]), 1, [])
    case DontOptimizeRule => Next(s.(dontOptimize := true, pgRules := s.pgRules + [arg]), 1, [])
    case OneArgRule =>
      if |args| < 2 then Stop(IndexOutOfBounds)
      else Next(s.(pgRules := s.pgRules + [arg + " " + args[1]]), 2, [])
    case PassedArg => Next(s, 1, [arg])
  }

  /** The switch statement for the argument at the head of `args`. */
  function StepAt(args: seq<string>, s: Settings): (r: Step)
    requires args != []
    ensures r.Next? ==> 1 <= r.used <= |args|
    ensures r.Next? ==> (r.passed == [] <==> IsWrapperArg(args[0]))
  {
    StepFor(KindOf(args[0]), args, s)
  }

  /** The arguments passed on before the rest of the outcome. */
  function Prefix(passed: seq<string>, r: Result<(Settings, seq<string>), R8Error>): Result<(Settings, seq<string>), R8Error>
  {
    match r
    case Failure(e) => Failure(e)
    case Success((s, rest)) => Success((s, passed + rest))
  }

  lemma PrefixTwice(a: seq<string>, b: seq<string>, r: Result<(Settings, seq<string>), R8Error>)
    ensures Prefix(a, Prefix(b, r)) == Prefix(a + b, r)
  {
    if r.Success? {
      assert a + (b + r.value.1) == (a + b) + r.value.1;
    }
  }

  lemma PrefixEmpty(r: Result<(Settings, seq<string>), R8Error>)
    ensures Prefix([], r) == r
  {
    if r.Success? {
      assert [] + r.value.1 == r.value.1;
    }
  }

  /**
   * parseWrapperArguments from the settings `s`: the settings after the loop
   * and the arguments for R8, or the exception that ended it.
   */
  function ReadFlags(args: seq<string>, s: Settings): Result<(Settings, seq<string>), R8Error>
    decreases |args|
  {
    if args == [] then Success((s, []))
    else
      match StepAt(args, s)
      case Stop(e) => Failure(e)
      case Next(s', used, passed) => Prefix(passed, ReadFlags(args[used..], s'))
  }

  /** One turn of the loop, as ReadFlags takes it. */
  lemma ReadFlagsStep(args: seq<string>, s: Settings)
    requires args != []
    ensures StepAt(args, s).Stop? ==> ReadFlags(args, s) == Failure(StepAt(args, s).error)
    ensures StepAt(args, s).Next? ==>
      ReadFlags(args, s) == Prefix(StepAt(args, s).passed, ReadFlags(args[StepAt(args, s).used..], StepAt(args, s).state))
  {
  }

  /** A turn of the loop from `args[i]` that stops with an error fails the whole reading. */
  lemma ReadFlagsStopped(args: seq<string>, i: nat, s: Settings, error: R8Error, done: seq<string>,
                         whole: Result<(Settings, seq<string>), R8Error>)
    requires i < |args| && whole == Prefix(done, ReadFlags(args[i..], s))
    requires StepAt(args[i..], s) == Stop(error)
    ensures whole == Failure(error)
  {
    ReadFlagsStep(args[i..], s);
  }

  /**
   * A turn of the loop from `args[i]` that moves on to `args[last + 1]`, with
   * `done` already passed on, passes on `passed` after it.
   */
  lemma ReadFlagsMoved(args: seq<string>, i: nat, s: Settings, last: nat, passed: seq<string>, s': Settings,
                       done: seq<string>, whole: Result<(Settings, seq<string>), R8Error>)
    requires i <= last < |args| && whole == Prefix(done, ReadFlags(args[i..], s))
    requires StepAt(args[i..], s) == Next(s', last - i + 1, passed)
    ensures whole == Prefix(done + passed, ReadFlags(args[last + 1..], s'))
  {
    ReadFlagsStep(args[i..], s);
    DropTwice(args, i, last - i + 1, last + 1);
    PrefixTwice(done, passed, ReadFlags(args[last + 1..], s'));
  }

  class R8Wrapper {
    var ignoreLibraryExtendsProgram: bool
    var useCompatPg: bool
    var depsOutput: Option<string>
    var resourceInput: Option<string>
    var resourceOutput: Option<string>
    var pgRules: seq<string>
    var printInfoDiagnostics: bool
    var dontOptimize: bool
    var keepRuntimeInvisibleAnnotations: bool
    var optimizingResourceShrinking: bool
    var forceOptimizingResourceShrinking: bool
    var noImplicitDefaultInit: bool
    var protectApiSurface: bool
    var storeStoreFenceConstructorInlining: bool

    function State(): Settings
      reads this
    {
      Settings(ignoreLibraryExtendsProgram, useCompatPg, depsOutput, resourceInput, resourceOutput, pgRules,
               printInfoDiagnostics, dontOptimize, keepRuntimeInvisibleAnnotations, optimizingResourceShrinking,
               forceOptimizingResourceShrinking, noImplicitDefaultInit, protectApiSurface,
               storeStoreFenceConstructorInlining)
    }

    constructor ()
      ensures State() == Initial
    {
      ignoreLibraryExtendsProgram := false;
      useCompatPg := false;
      depsOutput := None;
      resourceInput := None;
      resourceOutput := None;
      pgRules := [];
      printInfoDiagnostics := false;
      dontOptimize := false;
      keepRuntimeInvisibleAnnotations := false;
      optimizingResourceShrinking := false;
      forceOptimizingResourceShrinking := false;
      noImplicitDefaultInit := false;
      protectApiSurface := false;
      storeStoreFenceConstructorInlining := false;
    }

    /** The assignment of a switch's case, field by field: its own field becomes true and no other field changes. */
    method AssignSwitch(sw: Switch)
      modifies this
      ensures ignoreLibraryExtendsProgram == (old(ignoreLibraryExtendsProgram) || sw == IgnoreLibraryExtendsProgram)
      ensures printInfoDiagnostics == (old(printInfoDiagnostics) || sw == Info)
      ensures keepRuntimeInvisibleAnnotations == (old(keepRuntimeInvisibleAnnotations) || sw == KeepRuntimeInvisibleAnnotations)
      ensures optimizingResourceShrinking == (old(optimizingResourceShrinking) || sw == OptimizedResourceShrinking)
      ensures forceOptimizingResourceShrinking == (old(forceOptimizingResourceShrinking) || sw == ForceOptimizedResourceShrinking)
      ensures noImplicitDefaultInit == (old(noImplicitDefaultInit) || sw == NoImplicitDefaultInit)
      ensures useCompatPg == (old(useCompatPg) || sw == ForceProguardCompatibility)
      ensures protectApiSurface == (old(protectApiSurface) || sw == ProtectApiSurface)
      ensures storeStoreFenceConstructorInlining == (old(storeStoreFenceConstructorInlining) || sw == StoreStoreFenceConstructorInlining)
      ensures depsOutput == old(depsOutput) && resourceInput == old(resourceInput) && resourceOutput == old(resourceOutput)
      ensures pgRules == old(pgRules) && dontOptimize == old(dontOptimize)
    {
      match sw
      case IgnoreLibraryExtendsProgram => ignoreLibraryExtendsProgram := true;
      case Info => printInfoDiagnostics := true;
      case KeepRuntimeInvisibleAnnotations => keepRuntimeInvisibleAnnotations := true;
      case OptimizedResourceShrinking => optimizingResourceShrinking := true;
      case ForceOptimizedResourceShrinking => forceOptimizingResourceShrinking := true;
      case NoImplicitDefaultInit => noImplicitDefaultInit := true;
      case ForceProguardCompatibility => useCompatPg := true;
      case ProtectApiSurface => protectApiSurface := true;
      case StoreStoreFenceConstructorInlining => storeStoreFenceConstructorInlining := true;
    }

    /** A switch's case: the settings become those of SwitchOn. */
    method SetSwitch(sw: Switch)
      modifies this
      ensures State() == SwitchOn(old(State()), sw)
    {
      AssignSwitch(sw);
    }

    /** The cases that read a path from the next argument. */
    method TakePath(args: seq<string>, i: nat, kind: ArgKind) returns (last: nat, error: Option<R8Error>)
      requires i < |args|
      requires kind == ResourceInputArg || kind == ResourceOutputArg || kind == DepsFileArg
      modifies this
      ensures error.Some? ==> StepFor(kind, args[i..], old(State())) == Stop(error.value)
      ensures error.None? ==> i <= last < |args| && StepFor(kind, args[i..], old(State())) == Next(State(), last - i + 1, [])
    {
      ghost var rest := args[i..];
      if i + 1 < |args| {
        assert rest[1] == args[i + 1];
      }
      last, error := i, None;
      if kind == ResourceInputArg {
        if resourceInput != None {
          return i, Some(Failed("Only one --resource-input flag accepted"));
        }
        if i + 1 >= |args| {
          return i, Some(IndexOutOfBounds);
        }
        last := i + 1;
        resourceInput := Some(args[last]);
      } else if kind == ResourceOutputArg {
        if resourceOutput != None {
          return i, Some(Failed("Only one --resource-output flag accepted"));
        }
        if i + 1 >= |args| {
          return i, Some(IndexOutOfBounds);
        }
        last := i + 1;
        resourceOutput := Some(args[last]);
      } else {
        if i + 1 >= |args| {
          return i, Some(IndexOutOfBounds);
        }
        last := i + 1;
        depsOutput := Some(args[last]);
      }
    }

    /** The ProGuard options kept as rules. */
    method AddRule(args: seq<string>, i: nat, kind: ArgKind) returns (last: nat, error: Option<R8Error>)
      requires i < |args|
      requires kind == ZeroArgRule || kind == DontOptimizeRule || kind == OneArgRule
      modifies this
      ensures error.Some? ==> StepFor(kind, args[i..], old(State())) == Stop(error.value)
      ensures error.None? ==> i <= last < |args| && StepFor(kind, args[i..], old(State())) == Next(State(), last - i + 1, [])
    {
      var arg := args[i];
      ghost var rest := args[i..];
      assert rest[0] == arg;
      if i + 1 < |args| {
        assert rest[1] == args[i + 1];
      }
      last, error := i, None;
      if kind == OneArgRule {
        if i + 1 >= |args| {
          return i, Some(IndexOutOfBounds);
        }
        last := i + 1;
        pgRules := pgRules + [arg + " " + args[last]];
      } else {
        if kind == DontOptimizeRule {
          dontOptimize := true;
        }
        pgRules := pgRules + [arg];
      }
    }

    /**
     * The body of the switch for `args[i]`: the index of the last argument it
     * read, what it passes on, or the exception it raises.
     */
    method Dispatch(args: seq<string>, i: nat) returns (last: nat, passed: seq<string>, error: Option<R8Error>)
      requires i < |args|
      modifies this
      ensures error.Some? ==> StepAt(args[i..], old(State())) == Stop(error.value)
      ensures error.None? ==> i <= last < |args| && StepAt(args[i..], old(State())) == Next(State(), last - i + 1, passed)
    {
      ghost var rest := args[i..];
      assert rest[0] == args[i];
      last, passed, error := i, [], None;
      var kind := KindOf(args[i]);
      match kind
      case SwitchArg(sw) =>
        SetSwitch(sw);
      case ResourceInputArg =>
        last, error := TakePath(args, i, kind);
      case ResourceOutputArg =>
        last, error := TakePath(args, i, kind);
      case DepsFileArg =>
        last, error := TakePath(args, i, kind);
      case MultiDexArg =>
      case ZeroArgRule =>
        last, error := AddRule(args, i, kind);
      case DontOptimizeRule =>
        last, error := AddRule(args, i, kind);
      case OneArgRule =>
        last, error := AddRule(args, i, kind);
      case PassedArg =>
        passed := [args[i]];
    }

    /**
     * parseWrapperArguments: the arguments for R8, with the wrapper's own
     * flags recorded in the fields. On an exception the run ends, so the
     * fields are then left unspecified.
     */
    method ParseWrapperArguments(args: seq<string>) returns (r: Result<seq<string>, R8Error>)
      modifies this
      ensures r.Success? == ReadFlags(args, old(State())).Success?
      ensures r.Success? ==> (State(), r.value) == ReadFlags(args, old(State())).value
      ensures r.Failure? ==> r.error == ReadFlags(args, old(State())).error
    {
      ghost var start := State();
      var remainingArgs: seq<string> := [];
      var i := 0;
      assert args[i..] == args;
      PrefixEmpty(ReadFlags(args, start));
      while i < |args|
        invariant i <= |args|
        invariant ReadFlags(args, start) == Prefix(remainingArgs, ReadFlags(args[i..], State()))
        decreases |args| - i
      {
        ghost var before := State();
        var last, passed, error := Dispatch(args, i);
        if error.Some? {
          ReadFlagsStopped(args, i, before, error.value, remainingArgs, ReadFlags(args, start));
          return Failure(error.value);
        }
        ReadFlagsMoved(args, i, before, last, passed, State(), remainingArgs, ReadFlags(args, start));
        assert ReadFlags(args, start) == Prefix(remainingArgs + passed, ReadFlags(args[last + 1..], State()));
        remainingArgs := remainingArgs + passed;
        i := last + 1;
      }
      assert args[i..] == [];
      assert remainingArgs + [] == remainingArgs;
      r := Success(remainingArgs);
    }
  }

  /** A turn that completes within `a` is the same turn when more arguments follow. */
  lemma StepAtExtends(a: seq<string>, b: seq<string>, s: Settings)
    requires a != [] && StepAt(a, s).Next?
    ensures StepAt(a + b, s) == StepAt(a, s)
  {
    assert (a + b)[0] == a[0];
    if |a| >= 2 {
      assert (a + b)[1] == a[1];
    }
  }

  /** Reading `a` and then `b` is reading `a + b`: the loop never looks back. */
  lemma {:induction false} ReadFlagsAppend(a: seq<string>, b: seq<string>, s: Settings)
    requires ReadFlags(a, s).Success?
    ensures ReadFlags(a + b, s) == Prefix(ReadFlags(a, s).value.1, ReadFlags(b, ReadFlags(a, s).value.0))
    decreases |a|
  {
    if a == [] {
      assert a + b == b;
      PrefixEmpty(ReadFlags(b, s));
    } else {
      var step := StepAt(a, s);
      AppendTurn(a, s, step);
      AppendTurnExtends(a, b, s, step);
      ReadFlagsAppend(a[step.used..], b, step.state);
      var rest := ReadFlags(a[step.used..], step.state).value;
      PrefixTwice(step.passed, rest.1, ReadFlags(b, rest.0));
    }
  }

  /** The first turn over `a`, when `a` reads well, moves on without an error. */
  lemma AppendTurn(a: seq<string>, s: Settings, step: Step)
    requires a != [] && ReadFlags(a, s).Success? && step == StepAt(a, s)
    ensures step.Next? && ReadFlags(a[step.used..], step.state).Success?
    ensures ReadFlags(a, s) == Prefix(step.passed, ReadFlags(a[step.used..], step.state))
  {
    ReadFlagsStep(a, s);
  }

  /** The first turn over `a + b` is the first turn over `a`, when that one moves on. */
  lemma AppendTurnExtends(a: seq<string>, b: seq<string>, s: Settings, step: Step)
    requires a != [] && step == StepAt(a, s) && step.Next?
    ensures ReadFlags(a + b, s) == Prefix(step.passed, ReadFlags(a[step.used..] + b, step.state))
  {
    StepAtExtends(a, b, s);
    ReadFlagsStep(a + b, s);
    DropAppend(a, b, step.used);
  }

  /** Arguments the wrapper does not act on reach R8 unchanged and in order. */
  lemma {:induction false} PassedInOrder(args: seq<string>, s: Settings)
    requires forall x | x in args :: !IsWrapperArg(x)
    ensures ReadFlags(args, s) == Success((s, args))
    decreases |args|
  {
    if args != [] {
      FirstAndRest(args);
      PassedInOrder(args[1..], s);
      PassedStep(args[0], args[1..], s);
    }
  }

  /** An argument the wrapper does not act on is passed on, and the reading goes on with the next. */
  lemma PassedStep(x: string, rest: seq<string>, s: Settings)
    requires !IsWrapperArg(x)
    ensures ReadFlags([x] + rest, s) == Prefix([x], ReadFlags(rest, s))
  {
    assert ([x] + rest)[1..] == rest;
  }

  /**
   * A zero-argument ProGuard option in the middle of the arguments is kept
   * as a rule word for word and not passed on; -dontoptimize also sets
   * dontOptimize.
   */
  lemma ZeroArgRuleKept(a: seq<string>, rule: string, b: seq<string>, s: Settings)
    requires KindOf(rule) == ZeroArgRule || KindOf(rule) == DontOptimizeRule
    requires ReadFlags(a, s).Success?
    ensures var (t, passed) := ReadFlags(a, s).value;
      ReadFlags(a + [rule] + b, s)
        == Prefix(passed, ReadFlags(b, t.(pgRules := t.pgRules + [rule],
                                           dontOptimize := t.dontOptimize || KindOf(rule) == DontOptimizeRule)))
  {
    assert a + [rule] + b == a + ([rule] + b);
    ReadFlagsAppend(a, [rule] + b, s);
    assert ([rule] + b)[1..] == b;
    var t := ReadFlags(a, s).value.0;
    PrefixEmpty(ReadFlags(b, t.(pgRules := t.pgRules + [rule], dontOptimize := t.dontOptimize || KindOf(rule) == DontOptimizeRule)));
  }

  /**
   * A one-argument ProGuard option reads the next argument, and the pair
   * becomes the single rule "<option> <argument>"; without a next argument
   * the read is out of bounds.
   */
  lemma OneArgRuleKept(a: seq<string>, rule: string, value: string, b: seq<string>, s: Settings)
    requires KindOf(rule) == OneArgRule
    requires ReadFlags(a, s).Success?
    ensures var (t, passed) := ReadFlags(a, s).value;
      ReadFlags(a + [rule, value] + b, s)
        == Prefix(passed, ReadFlags(b, t.(pgRules := t.pgRules + [rule + " " + value])))
    ensures ReadFlags(a + [rule], s) == Failure(IndexOutOfBounds)
  {
    assert a + [rule, value] + b == a + ([rule, value] + b);
    ReadFlagsAppend(a, [rule, value] + b, s);
    assert ([rule, value] + b)[2..] == b;
    var t := ReadFlags(a, s).value.0;
    PrefixEmpty(ReadFlags(b, t.(pgRules := t.pgRules + [rule + " " + value])));
    ReadFlagsAppend(a, [rule], s);
  }

  /** --multi-dex leaves no trace: dropping it changes nothing. */
  lemma MultiDexDropped(a: seq<string>, b: seq<string>, s: Settings)
    requires ReadFlags(a, s).Success?
    ensures ReadFlags(a + [MultiDexFlag] + b, s) == ReadFlags(a + b, s)
  {
    CaseLabels();
    assert a + [MultiDexFlag] + b == a + ([MultiDexFlag] + b);
    ReadFlagsAppend(a, [MultiDexFlag] + b, s);
    ReadFlagsAppend(a, b, s);
    assert ([MultiDexFlag] + b)[1..] == b;
    PrefixEmpty(ReadFlags(b, ReadFlags(a, s).value.0));
  }

  /**
   * `t` keeps everything `s` has set: switches stay on, a resource path once
   * given stays the one given, and pgRules only grow at the end.
   */
  predicate Keeps(s: Settings, t: Settings)
  {
    && (forall sw | Switched(s, sw) :: Switched(t, sw))
    && (s.resourceInput.Some? ==> t.resourceInput == s.resourceInput)
    && (s.resourceOutput.Some? ==> t.resourceOutput == s.resourceOutput)
    && |s.pgRules| <= |t.pgRules| && t.pgRules[..|s.pgRules|] == s.pgRules
  }

  lemma KeepsTransitive(s: Settings, t: Settings, u: Settings)
    requires Keeps(s, t) && Keeps(t, u)
    ensures Keeps(s, u)
  {
    assert u.pgRules[..|s.pgRules|] == u.pgRules[..|t.pgRules|][..|s.pgRules|];
  }

  lemma StepKeeps(kind: ArgKind, args: seq<string>, s: Settings)
    requires args != [] && StepFor(kind, args, s).Next?
    ensures Keeps(s, StepFor(kind, args, s).state)
  {
    var t := StepFor(kind, args, s).state;
    forall sw | Switched(s, sw) ensures Switched(t, sw) {
      if kind.SwitchArg? {
        SwitchOnSets(s, kind.sw, sw);
      }
    }
    if kind.SwitchArg? {
      SwitchOnSets(s, kind.sw, kind.sw);
    }
  }

  /** Reading never clears what it has set. */
  lemma {:induction false} ReadKeeps(args: seq<string>, s: Settings)
    requires ReadFlags(args, s).Success?
    ensures Keeps(s, ReadFlags(args, s).value.0)
    decreases |args|
  {
    if args != [] {
      var step := StepAt(args, s);
      StepKeeps(KindOf(args[0]), args, s);
      ReadKeeps(args[step.used..], step.state);
      KeepsTransitive(s, step.state, ReadFlags(args, s).value.0);
    }
  }

  /** A step of any other kind leaves the field of `sw` as it was. */
  lemma StepUntouched(kind: ArgKind, args: seq<string>, s: Settings, sw: Switch)
    requires args != [] && StepFor(kind, args, s).Next?
    requires kind != SwitchArg(sw)
    ensures Switched(StepFor(kind, args, s).state, sw) == Switched(s, sw)
  {
    if kind.SwitchArg? {
      SwitchOnSets(s, kind.sw, sw);
    }
  }

  /** A switch that no argument selects keeps its field as it was. */
  lemma {:induction false} SwitchUntouched(args: seq<string>, s: Settings, sw: Switch)
    requires forall x | x in args :: KindOf(x) != SwitchArg(sw)
    requires ReadFlags(args, s).Success?
    ensures Switched(ReadFlags(args, s).value.0, sw) == Switched(s, sw)
    decreases |args|
  {
    if args != [] {
      var kind := KindOf(args[0]);
      var step := StepFor(kind, args, s);
      assert args[0] in args;
      StepUntouched(kind, args, s, sw);
      assert forall x | x in args[step.used..] :: x in args;
      SwitchUntouched(args[step.used..], step.state, sw);
    }
  }

  /** Concatenation regrouped to the right. */
  lemma Regroup(a: seq<string>, x: seq<string>, m: seq<string>, y: seq<string>, b: seq<string>)
    ensures a + x + m + y + b == a + (x + (m + (y + b)))
  {
  }

  /** --resource-input with its path records the path and reads on. */
  lemma ResourceInputTaken(path: string, rest: seq<string>, t: Settings)
    requires t.resourceInput.None?
    ensures ReadFlags([ResourceInputFlag, path] + rest, t) == ReadFlags(rest, t.(resourceInput := Some(path)))
  {
    CaseLabels();
    var args := [ResourceInputFlag, path] + rest;
    assert args[0] == ResourceInputFlag && args[1] == path && args[2..] == rest;
    PrefixEmpty(ReadFlags(rest, t.(resourceInput := Some(path))));
  }

  /** --resource-input once a path is recorded ends the run. */
  lemma ResourceInputRepeated(rest: seq<string>, u: Settings)
    requires u.resourceInput.Some?
    ensures ReadFlags([ResourceInputFlag] + rest, u) == Failure(Failed("Only one --resource-input flag accepted"))
  {
    CaseLabels();
    assert ([ResourceInputFlag] + rest)[0] == ResourceInputFlag;
  }

  /**
   * A second --resource-input is an error, however far after the first and
   * whatever came between them.
   */
  lemma SecondResourceInput(a: seq<string>, path: string, m: seq<string>, b: seq<string>, s: Settings)
    requires ReadFlags(a, s).Success? && ReadFlags(a, s).value.0.resourceInput.None?
    requires ReadFlags(m, ReadFlags(a, s).value.0.(resourceInput := Some(path))).Success?
    ensures ReadFlags(a + [ResourceInputFlag, path] + m + [ResourceInputFlag] + b, s)
      == Failure(Failed("Only one --resource-input flag accepted"))
  {
    var t := ReadFlags(a, s).value.0;
    var u := t.(resourceInput := Some(path));
    var tail := [ResourceInputFlag] + b;
    ReadKeeps(m, u);
    ResourceInputRepeated(b, ReadFlags(m, u).value.0);
    ReadFlagsAppend(m, tail, u);
    ResourceInputTaken(path, m + tail, t);
    Regroup(a, [ResourceInputFlag, path], m, [ResourceInputFlag], b);
    ReadFlagsAppend(a, [ResourceInputFlag, path] + (m + tail), s);
  }

  /** --resource-output with its path records the path and reads on. */
  lemma ResourceOutputTaken(path: string, rest: seq<string>, t: Settings)
    requires t.resourceOutput.None?
    ensures ReadFlags([ResourceOutputFlag, path] + rest, t) == ReadFlags(rest, t.(resourceOutput := Some(path)))
  {
    CaseLabels();
    var args := [ResourceOutputFlag, path] + rest;
    assert args[0] == ResourceOutputFlag && args[1] == path && args[2..] == rest;
    PrefixEmpty(ReadFlags(rest, t.(resourceOutput := Some(path))));
  }

  /** --resource-output once a path is recorded ends the run. */
  lemma ResourceOutputRepeated(rest: seq<string>, u: Settings)
    requires u.resourceOutput.Some?
    ensures ReadFlags([ResourceOutputFlag] + rest, u) == Failure(Failed("Only one --resource-output flag accepted"))
  {
    CaseLabels();
    assert ([ResourceOutputFlag] + rest)[0] == ResourceOutputFlag;
  }

  /** A second --resource-output is an error in the same way. */
  lemma SecondResourceOutput(a: seq<string>, path: string, m: seq<string>, b: seq<string>, s: Settings)
    requires ReadFlags(a, s).Success? && ReadFlags(a, s).value.0.resourceOutput.None?
    requires ReadFlags(m, ReadFlags(a, s).value.0.(resourceOutput := Some(path))).Success?
    ensures ReadFlags(a + [ResourceOutputFlag, path] + m + [ResourceOutputFlag] + b, s)
      == Failure(Failed("Only one --resource-output flag accepted"))
  {
    var t := ReadFlags(a, s).value.0;
    var u := t.(resourceOutput := Some(path));
    var tail := [ResourceOutputFlag] + b;
    ReadKeeps(m, u);
    ResourceOutputRepeated(b, ReadFlags(m, u).value.0);
    ReadFlagsAppend(m, tail, u);
    ResourceOutputTaken(path, m + tail, t);
    Regroup(a, [ResourceOutputFlag, path], m, [ResourceOutputFlag], b);
    ReadFlagsAppend(a, [ResourceOutputFlag, path] + (m + tail), s);
  }

  const DefaultInitProperty := "com.android.tools.r8.enableEmptyMemberRulesToDefaultInitRuleConversion"

  /** The condition under which main enables the default-init conversion. */
  predicate DefaultInitEnabled(s: Settings)
  {
    !s.useCompatPg && !s.noImplicitDefaultInit
  }

  /** The system properties main sets before handing the arguments to R8. */
  function MainProperties(s: Settings): (r: set<string>)
  {
    {"com.android.tools.r8.disableEnqueuerDeferredTracing",
     "com.android.tools.r8.enableSameFilePolicy",
     "com.android.tools.r8.experimental.enablewhyareyounotinlining",
     "com.android.tools.r8.experimental.enableconvertchecknotnull"}
    + (if DefaultInitEnabled(s) then {DefaultInitProperty} else {})
  }

  /** The default-init conversion is on exactly when neither compat mode nor --no-implicit-default-init is set. */
  lemma DefaultInitCondition(s: Settings)
    ensures DefaultInitProperty in MainProperties(s) <==> DefaultInitEnabled(s)
  {
    assert DefaultInitProperty != "com.android.tools.r8.disableEnqueuerDeferredTracing";
  }

  /** An argument other than the two flags selects neither switch. */
  lemma DefaultInitSwitchesAbsent(x: string)
    requires x != SwitchFlag(ForceProguardCompatibility) && x != SwitchFlag(NoImplicitDefaultInit)
    ensures KindOf(x) != SwitchArg(ForceProguardCompatibility) && KindOf(x) != SwitchArg(NoImplicitDefaultInit)
  {
    if KindOf(x) == SwitchArg(ForceProguardCompatibility) {
      DefaultInitSpelling(x, ForceProguardCompatibility);
    }
    if KindOf(x) == SwitchArg(NoImplicitDefaultInit) {
      DefaultInitSpelling(x, NoImplicitDefaultInit);
    }
  }

  /** Arguments that never mention either flag leave the default-init conversion on. */
  lemma DefaultInitOn(args: seq<string>)
    requires ReadFlags(args, Initial).Success?
    requires SwitchFlag(ForceProguardCompatibility) !in args && SwitchFlag(NoImplicitDefaultInit) !in args
    ensures DefaultInitEnabled(ReadFlags(args, Initial).value.0)
  {
    forall x | x in args
      ensures KindOf(x) != SwitchArg(ForceProguardCompatibility) && KindOf(x) != SwitchArg(NoImplicitDefaultInit)
    {
      DefaultInitSwitchesAbsent(x);
    }
    SwitchUntouched(args, Initial, ForceProguardCompatibility);
    SwitchUntouched(args, Initial, NoImplicitDefaultInit);
  }

  /** Either flag, given as a flag anywhere in the arguments, turns the default-init conversion off. */
  lemma DefaultInitOff(a: seq<string>, sw: Switch, b: seq<string>)
    requires sw == ForceProguardCompatibility || sw == NoImplicitDefaultInit
    requires ReadFlags(a, Initial).Success?
    requires ReadFlags(a + [SwitchFlag(sw)] + b, Initial).Success?
    ensures !DefaultInitEnabled(ReadFlags(a + [SwitchFlag(sw)] + b, Initial).value.0)
  {
    CaseLabels();
    var flag := SwitchFlag(sw);
    assert KindOf(flag) == SwitchArg(sw);
    var t := ReadFlags(a, Initial).value.0;
    assert a + [flag] + b == a + ([flag] + b);
    ReadFlagsAppend(a, [flag] + b, Initial);
    assert ([flag] + b)[1..] == b;
    var u := SwitchOn(t, sw);
    SwitchOnSets(t, sw, sw);
    ReadKeeps(b, u);
  }

  /** How applyWrapperArguments sets up resource shrinking. */
  datatype Resources =
    | NoResources
    /** AOSPResourceProvider on the input, the proto consumer on the output. */
    | ResourceShrinking(input: string, output: string, optimized: bool)

  /** What applyWrapperArguments hands to the R8 command builder. */
  datatype Configuration = Configuration(
    printInfoDiagnostics: bool,
    duplicateTypesWarning: bool,
    /** A DepsFileWriter for (dependent, output file). */
    deps: Option<(string, string)>,
    resources: Resources,
    /** The ProGuard configurations added, in order. */
    proguardConfigurations: seq<seq<string>>,
    properties: set<string>,
    protectApiSurface: bool,
    proguardCompatibility: bool)

  const KeepIdsRule := "-keep class **.R$id {<fields>;}"
  const KeepAttributeRules := [
    "-keepattributes RuntimeInvisibleAnnotations",
    "-keepattributes RuntimeInvisibleParameterAnnotations",
    "-keepattributes RuntimeInvisibleTypeAnnotations"]

  /**
   * applyWrapperArguments. `codeOutput` is the builder's output path and
   * `outputIsDirectory` what Files.isDirectory says of it.
   */
  function Apply(s: Settings, codeOutput: string, outputIsDirectory: bool): Result<Configuration, R8Error>
  {
    if s.resourceInput.Some? != s.resourceOutput.Some? then
      Failure(Failed("Both --resource-input and --resource-output must be specified"))
    else
      var resources := if s.resourceInput.Some? then
        ResourceShrinking(s.resourceInput.value, s.resourceOutput.value, s.optimizingResourceShrinking)
      else NoResources;
      var keepIds := if resources.ResourceShrinking? && s.optimizingResourceShrinking && !s.forceOptimizingResourceShrinking
        then [[KeepIdsRule]] else [];
      var keepAttributes := if s.keepRuntimeInvisibleAnnotations then [KeepAttributeRules] else [];
      var rules := if s.pgRules != [] then [s.pgRules] else [];
      var target := if outputIsDirectory then codeOutput + "/classes.dex" else codeOutput;
      Success(Configuration(
        s.printInfoDiagnostics,
        !s.dontOptimize,
        if s.depsOutput.Some? then Some((target, s.depsOutput.value)) else None,
        resources,
        keepIds + keepAttributes + rules,
        (if s.ignoreLibraryExtendsProgram then {"com.android.tools.r8.allowLibraryExtendsProgramInFullMode"} else {})
          + (if s.storeStoreFenceConstructorInlining then {"com.android.tools.r8.enableConstructorInliningWithFinalFields"} else {}),
        s.protectApiSurface,
        s.useCompatPg))
  }

  /**
   * The resource paths come as a pair or not at all: applying fails, with
   * the message naming both flags, exactly when only one was given.
   */
  lemma ResourcesPaired(s: Settings, codeOutput: string, outputIsDirectory: bool)
    ensures Apply(s, codeOutput, outputIsDirectory).Success? <==> (s.resourceInput.Some? <==> s.resourceOutput.Some?)
    ensures Apply(s, codeOutput, outputIsDirectory).Failure? ==>
      Apply(s, codeOutput, outputIsDirectory).error == Failed("Both --resource-input and --resource-output must be specified")
    ensures Apply(s, codeOutput, outputIsDirectory).Success? ==>
      (Apply(s, codeOutput, outputIsDirectory).value.resources.ResourceShrinking? <==> s.resourceInput.Some?)
  {
  }

  /**
   * The collected ProGuard rules are handed over as one configuration, the
   * last one, and only when there are any; the ids keep rule comes first
   * when resource shrinking is optimized and not forced, and otherwise only
   * the attribute rules and the collected rules are added.
   */
  lemma RulesHandedOver(s: Settings, codeOutput: string, outputIsDirectory: bool)
    requires Apply(s, codeOutput, outputIsDirectory).Success?
    ensures var configs := Apply(s, codeOutput, outputIsDirectory).value.proguardConfigurations;
      && (s.pgRules != [] <==> configs != [] && configs[|configs| - 1] == s.pgRules)
      && (s.resourceInput.Some? && s.optimizingResourceShrinking && !s.forceOptimizingResourceShrinking ==>
            configs[0] == [KeepIdsRule])
      && (!(s.resourceInput.Some? && s.optimizingResourceShrinking && !s.forceOptimizingResourceShrinking) ==>
            forall c | c in configs :: c == KeepAttributeRules || c == s.pgRules)
  {
    var configs := Apply(s, codeOutput, outputIsDirectory).value.proguardConfigurations;
    assert forall c | c in configs :: c != [];
  }
}
