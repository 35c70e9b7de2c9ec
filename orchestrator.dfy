/**
 * The retrace loop (RetraceWrapper.java:528-618): standard input is read line
 * by line; an optional exception line and the run of frame lines that share
 * the source file of the first frame form a block; the block's first source
 * file chooses a lazy retracer (an R8 marker first, then an AOSP marker, then
 * the default); the block is printed rebuilt by that retracer, or as it was
 * read when there is none. Lines that fit no block are printed as they were
 * read.
 *
 * The grouping is stated once, as `Segments`, a function of the input lines;
 * the loop is proved to walk exactly those segments and print exactly their
 * `Output`.
 */
module Retracing {
  import opened Wrappers
  import opened Sequences
  import opened StackLines
  import opened MapIdentity
  import opened Console
  import opened Resolvers
  import opened Registry
  import opened Reconstruction

  /* ---------------------------------------------------------------------- */
  /* determineRetracer (RetraceWrapper.java:391-407, 573-583)               */
  /* ---------------------------------------------------------------------- */

  /** The info getRetracerForR8 records for an R8 marker whose id nothing is registered under. */
  function UnknownR8Message(info: MapInfo): string
  {
    "Could not identify a mapping file for lines with R8 tag: " + info.ToString()
  }

  /**
   * determineRetracer over a table of registered entries: the entry under the
   * id of an R8 marker, else the entry under the hash of an AOSP marker, else
   * the default.
   */
  function Determine<T>(table: map<string, T>, sourceFile: string, default: Option<T>): Option<T>
  {
    var r8 := TryParseSourceFileMarkerForR8(sourceFile);
    if r8.Some? && r8.value.id in table then Some(table[r8.value.id])
    else
      var aosp := TryParseSourceFileMarkerForAosp(sourceFile);
      if aosp.Some? && aosp.value.id in table then Some(table[aosp.value.id])
      else default
  }

  /** The held-back messages determineRetracer adds. */
  function DetermineNotes<T>(table: map<string, T>, sourceFile: string): seq<string>
  {
    var r8 := TryParseSourceFileMarkerForR8(sourceFile);
    if r8.Some? && r8.value.id !in table then ["Info: " + UnknownR8Message(r8.value)] else []
  }

  /**
   * The resolver priority: a registered R8 id wins; an unregistered R8 id
   * leaves an info and falls back to the default (an R8 marker is never an
   * AOSP marker); a registered AOSP hash wins next; anything else takes the
   * default.
   */
  lemma DeterminePriority<T>(table: map<string, T>, sourceFile: string, default: Option<T>)
    ensures
      var r8 := TryParseSourceFileMarkerForR8(sourceFile);
      var aosp := TryParseSourceFileMarkerForAosp(sourceFile);
      var r := Determine(table, sourceFile, default);
      var notes := DetermineNotes(table, sourceFile);
      && (r8.Some? && r8.value.id in table ==> r == Some(table[r8.value.id]) && notes == [])
      && (r8.Some? && r8.value.id !in table ==>
            r == default && notes == ["Info: " + UnknownR8Message(r8.value)])
      && (aosp.Some? && aosp.value.id in table ==> r == Some(table[aosp.value.id]) && notes == [])
      && (aosp.Some? && aosp.value.id !in table ==> r == default && notes == [])
      && (r8.None? && aosp.None? ==> r == default && notes == [])
  {
    MarkersExclusive(sourceFile);
  }

  /** The map location a chosen lazy retracer was built from, if any. */
  function SourceOf(r: Option<LazyRetracer>): Option<RetracerSource>
  {
    if r.None? then None else Some(r.value.source)
  }

  /** Every lazy retracer determineRetracer can hand out. */
  function Lazies(registry: Registry, default: Option<LazyRetracer>): set<LazyRetracer>
    reads registry
  {
    registry.retracers.Values + (if default.Some? then {default.value} else {})
  }

  /** determineRetracer hands out a registered lazy retracer or the default. */
  lemma DetermineLazy(registry: Registry, sourceFile: string, default: Option<LazyRetracer>)
    ensures
      var r := Determine(registry.retracers, sourceFile, default);
      r.Some? ==> r.value in Lazies(registry, default)
  {
    var r8 := TryParseSourceFileMarkerForR8(sourceFile);
    var aosp := TryParseSourceFileMarkerForAosp(sourceFile);
    if r8.Some? && r8.value.id in registry.retracers {
      assert registry.retracers[r8.value.id] in registry.retracers.Values;
    } else if aosp.Some? && aosp.value.id in registry.retracers {
      assert registry.retracers[aosp.value.id] in registry.retracers.Values;
    }
  }

  /** Choosing among lazy retracers is choosing among what they are registered with. */
  lemma DetermineSources(registry: Registry, sourceFile: string, default: Option<LazyRetracer>)
    ensures
      var r := Determine(registry.retracers, sourceFile, default);
      && SourceOf(r) == Determine(registry.Sources(), sourceFile, SourceOf(default))
      && DetermineNotes(registry.retracers, sourceFile) == DetermineNotes(registry.Sources(), sourceFile)
  {
  }

  /** A stack block's output, held-back messages and fallibility, through the retracer its top frame picks. */
  lemma StackSegment(registry: Registry, default: Option<LazyRetracer>, e: Option<ExceptionLine>,
                     frames: seq<FrameLine>, engine: string -> Retracer, tempDir: string)
    requires WellFormed(Stack(e, frames))
    ensures
      var s := Stack(e, frames);
      var r := SourceOf(Determine(registry.retracers, frames[0].sourceFile, default));
      && SegmentOutput(s, registry.Sources(), SourceOf(default), engine, tempDir) == StackOutput(e, frames, r, engine, tempDir)
      && SegmentNotes(s, registry.Sources()) == DetermineNotes(registry.retracers, frames[0].sourceFile)
      && (FetchFallible(s, registry.Sources(), SourceOf(default)) <==> r.Some? && r.value.Remote?)
  {
    DetermineSources(registry, frames[0].sourceFile, default);
  }

  /** determineRetracer, with getRetracerForR8 and getRetracerForAosp written out. */
  method DetermineRetracer(registry: Registry, sourceFile: string, default: Option<LazyRetracer>, console: Console)
    returns (r: Option<LazyRetracer>)
    modifies console
    ensures r == Determine(registry.retracers, sourceFile, default)
    ensures console.pending == old(console.pending) + DetermineNotes(registry.retracers, sourceFile)
    ensures console.out == old(console.out) && console.err == old(console.err)
  {
    var r8 := TryParseSourceFileMarkerForR8(sourceFile);
    if r8.Some? {
      if r8.value.id in registry.retracers {
        return Some(registry.retracers[r8.value.id]);
      }
      console.Info(UnknownR8Message(r8.value));
    }
    var aosp := TryParseSourceFileMarkerForAosp(sourceFile);
    if aosp.Some? && aosp.value.id in registry.retracers {
      return Some(registry.retracers[aosp.value.id]);
    }
    return default;
  }

  /* ---------------------------------------------------------------------- */
  /* The grouping of the input (RetraceWrapper.java:535-571)                */
  /* ---------------------------------------------------------------------- */

  /**
   * What the loop can learn from one input line: how tryParseExceptionLine and
   * tryParseFrameLine read it. Every decision of the loop depends on these two
   * readings only.
   */
  datatype Reading = Reading(line: string, exception: Option<ExceptionLine>, frame: FrameParse)

  function Read(line: string): Reading
  {
    Reading(line, TryParseExceptionLine(line), TryParseFrameLine(line))
  }

  /** The readings of the input, line by line. */
  function Readings(lines: seq<string>): (rs: seq<Reading>)
  {
    seq(|lines|, i requires 0 <= i < |lines| => Read(lines[i]))
  }

  /**
   * `rs` holds the readings of `lines`. A line is only parsed where a proof
   * asks for its reading by name.
   */
  predicate ReadFrom(rs: seq<Reading>, lines: seq<string>)
  {
    |rs| == |lines| && forall i {:trigger Read(lines[i])} | 0 <= i < |lines| :: rs[i] == Read(lines[i])
  }

  /** The readings of the input are the only sequence read from it. */
  lemma ReadFromReadings(rs: seq<Reading>, lines: seq<string>)
    ensures ReadFrom(rs, lines) <==> rs == Readings(lines)
  {
    if ReadFrom(rs, lines) {
      assert forall i | 0 <= i < |lines| :: rs[i] == Read(lines[i]);
    }
    if rs == Readings(lines) {
      assert forall i | 0 <= i < |lines| :: rs[i] == Read(lines[i]);
    }
  }

  /** tryParseFrameLine on line `i`. */
  method ParseFrameAt(lines: seq<string>, ghost rs: seq<Reading>, i: nat) returns (p: FrameParse)
    requires ReadFrom(rs, lines) && i < |lines|
    ensures p == rs[i].frame && lines[i] == rs[i].line
  {
    p := TryParseFrameLine(lines[i]);
    assert rs[i] == Read(lines[i]);
  }

  /** tryParseExceptionLine on line `i`. */
  method ParseExceptionAt(lines: seq<string>, ghost rs: seq<Reading>, i: nat) returns (e: Option<ExceptionLine>)
    requires ReadFrom(rs, lines) && i < |lines|
    ensures e == rs[i].exception && lines[i] == rs[i].line
  {
    e := TryParseExceptionLine(lines[i]);
    assert rs[i] == Read(lines[i]);
  }

  /** A reading whose exception line and frame were read from its line, with holes that can be plugged. */
  predicate Faithful(r: Reading)
  {
    && (r.exception.Some? ==>
          r.exception.value.hole.line == r.line && r.exception.value.hole.Valid()
          && r.exception.value.hole.SpacedPrefix())
    && (r.frame.Frame? ==>
          r.frame.frame.hole.line == r.line && r.frame.frame.hole.Valid() && r.frame.frame.hole.SpacedPrefix())
  }

  predicate AllFaithful(rs: seq<Reading>)
  {
    forall i | 0 <= i < |rs| :: Faithful(rs[i])
  }

  /** The lines readings `a` up to `b` were taken from. */
  function Lines(rs: seq<Reading>, a: nat, b: nat): seq<string>
    requires a <= b <= |rs|
    decreases b - a
  {
    if a == b then [] else [rs[a].line] + Lines(rs, a + 1, b)
  }

  /** The parsers only ever report holes in the line they read. */
  lemma ReadFaithful(line: string)
    ensures Faithful(Read(line))
  {
    ExceptionParseOutcome(line);
    FrameParseOutcome(line);
    var p := TryParseFrameLine(line);
    if p.Frame? {
      assert p.frame.hole.line[p.frame.hole.start - 1] == ' ';
    }
  }

  /** Every reading of the input is faithful to its line, and they give back the input. */
  lemma ReadingsFaithful(rs: seq<Reading>, lines: seq<string>)
    requires ReadFrom(rs, lines)
    ensures AllFaithful(rs) && Lines(rs, 0, |rs|) == lines
  {
    forall i | 0 <= i < |lines| ensures Faithful(rs[i]) {
      assert rs[i] == Read(lines[i]);
      ReadFaithful(lines[i]);
    }
    ReadingsLines(rs, lines, 0);
  }

  /** The readings give back the lines they were taken from. */
  lemma {:induction false} ReadingsLines(rs: seq<Reading>, lines: seq<string>, a: nat)
    requires ReadFrom(rs, lines) && a <= |lines|
    ensures Lines(rs, a, |lines|) == lines[a..]
    decreases |lines| - a
  {
    if a < |lines| {
      assert rs[a] == Read(lines[a]);
      ReadingsLines(rs, lines, a + 1);
      assert lines[a..] == [lines[a]] + lines[a + 1..];
    }
  }

  /** What one pass of the retrace loop takes from the input. */
  datatype Segment =
    /** An exception line that is the last line: printed as it was read, and the loop ends. */
    | Trailing(last: ExceptionLine)
    /** A line that is no frame, after an optional exception line: both printed as they were read. */
    | Unparsed(exceptionLine: Option<ExceptionLine>, line: string)
    /** An optional exception line and a run of frames sharing the source file of the first. */
    | Stack(exceptionLine: Option<ExceptionLine>, frames: seq<FrameLine>)
    /** tryParseFrameLine threw: the run ends here. */
    | Crash

  /**
   * The inner loop: the frames from line `pos` on whose source file is
   * `sourceFile`, and whether parsing the line after them threw. It stops at
   * the end of the input, at a line that is no frame, or at a frame of another
   * source file; that line is not consumed.
   */
  function Run(rs: seq<Reading>, pos: nat, sourceFile: string): (run: (seq<FrameLine>, bool))
    requires pos <= |rs|
    ensures pos + |run.0| <= |rs|
    decreases |rs| - pos
  {
    if pos == |rs| then ([], false)
    else
      match rs[pos].frame
      case OutOfBounds => ([], true)
      case NotFrame => ([], false)
      case Frame(f) =>
        if f.sourceFile != sourceFile then ([], false)
        else
          var rest := Run(rs, pos + 1, sourceFile);
          ([f] + rest.0, rest.1)
  }

  /** A frame of the run's source file joins the run. */
  lemma RunStep(rs: seq<Reading>, pos: nat, sourceFile: string)
    requires pos < |rs| && rs[pos].frame.Frame? && rs[pos].frame.frame.sourceFile == sourceFile
    ensures Run(rs, pos, sourceFile).0 == [rs[pos].frame.frame] + Run(rs, pos + 1, sourceFile).0
    ensures Run(rs, pos, sourceFile).1 == Run(rs, pos + 1, sourceFile).1
  {
  }

  /**
   * One pass of the loop from line `pos`: the segment read and the line the
   * next pass starts at. An exception line is followed by the line after it;
   * whatever that line is, it is only tried as a frame.
   */
  function Next(rs: seq<Reading>, pos: nat): (next: (Segment, nat))
    requires pos < |rs|
    ensures pos < next.1 <= |rs|
  {
    var e := rs[pos].exception;
    if e.Some? && pos + 1 == |rs| then (Trailing(e.value), |rs|)
    else
      var k := if e.Some? then pos + 1 else pos;
      match rs[k].frame
      case OutOfBounds => (Crash, |rs|)
      case NotFrame => (Unparsed(e, rs[k].line), k + 1)
      case Frame(top) =>
        var run := Run(rs, k, top.sourceFile);
        if run.1 then (Crash, |rs|)
        else
          assert run.0 != [];
          (Stack(e, run.0), k + |run.0|)
  }

  /** The segment a pass reads when the exception line is the last line: that line alone. */
  lemma NextTrailing(rs: seq<Reading>, pos: nat)
    requires pos + 1 == |rs| && rs[pos].exception.Some?
    ensures Next(rs, pos) == (Trailing(rs[pos].exception.value), |rs|)
  {
  }

  /** The segment a pass reads when the line after the optional exception line is no frame, or throws. */
  lemma NextNoRun(rs: seq<Reading>, pos: nat, k: nat)
    requires pos <= k < |rs| && k == if rs[pos].exception.Some? then pos + 1 else pos
    requires !rs[k].frame.Frame?
    ensures Next(rs, pos) == if rs[k].frame.OutOfBounds? then (Crash, |rs|)
                             else (Unparsed(rs[pos].exception, rs[k].line), k + 1)
  {
  }

  /** The segment a pass reads when a frame follows the optional exception line: the run from there. */
  lemma NextRun(rs: seq<Reading>, pos: nat, k: nat, top: FrameLine, frames: seq<FrameLine>, crashed: bool, end: nat)
    requires pos <= k < |rs| && k == if rs[pos].exception.Some? then pos + 1 else pos
    requires rs[k].frame == Frame(top) && (frames, crashed) == Run(rs, k, top.sourceFile)
    requires !crashed ==> end == k + |frames|
    ensures Next(rs, pos) == if crashed then (Crash, |rs|) else (Stack(rs[pos].exception, frames), end)
  {
  }

  /** The segments the loop reads from line `pos` to the end of the input. */
  function Segments(rs: seq<Reading>, pos: nat): seq<Segment>
    requires pos <= |rs|
    decreases |rs| - pos
  {
    if pos == |rs| then []
    else
      var next := Next(rs, pos);
      [next.0] + Segments(rs, next.1)
  }

  /** The input lines a segment was read from. */
  function SegmentLines(s: Segment): seq<string>
  {
    match s
    case Trailing(e) => [e.hole.line]
    case Unparsed(e, line) => IdentityLines(e, []) + [line]
    case Stack(e, frames) => IdentityLines(e, frames)
    case Crash => []
  }

  /** The input lines the segments were read from, up to a crash. */
  function Flatten(segs: seq<Segment>): seq<string>
  {
    if segs == [] || segs[0].Crash? then [] else SegmentLines(segs[0]) + Flatten(segs[1..])
  }

  /** An exception line whose hole can be plugged, right after a space. */
  predicate ExceptionValid(e: Option<ExceptionLine>)
  {
    e.Some? ==> e.value.hole.Valid() && e.value.hole.SpacedPrefix()
  }

  /** A block that can be rebuilt: at least one frame, and holes that can be plugged. */
  predicate WellFormed(s: Segment)
  {
    s.Stack? ==> s.frames != [] && ValidFrames(s.frames) && ExceptionValid(s.exceptionLine)
  }

  /** All frames of the run carry the same source file as the first. */
  predicate OneSourceFile(frames: seq<FrameLine>)
  {
    forall j :: 0 <= j < |frames| ==> frames[j].sourceFile == frames[0].sourceFile
  }

  /** What printIdentityStackTrace of a run prints: one line per frame, the line it was read from. */
  lemma {:induction false} FrameTextsLines(frames: seq<FrameLine>)
    ensures |FrameTexts(frames)| == |frames|
    ensures forall j :: 0 <= j < |frames| ==> FrameTexts(frames)[j] == frames[j].hole.line
  {
    if frames != [] {
      FrameTextsLines(frames[1..]);
    }
  }

  /**
   * A run: its frames come from consecutive lines, share the source file,
   * and can be plugged; it ends at the end of the input, at a line that is no
   * frame of that source file, or at the line whose parsing threw.
   */
  lemma {:induction false} RunFrames(rs: seq<Reading>, pos: nat, sourceFile: string)
    requires pos <= |rs| && AllFaithful(rs)
    ensures
      var run := Run(rs, pos, sourceFile);
      && ValidFrames(run.0)
      && (forall j :: 0 <= j < |run.0| ==> run.0[j].sourceFile == sourceFile && run.0[j].hole.line == rs[pos + j].line)
      && (run.1 ==> pos + |run.0| < |rs| && rs[pos + |run.0|].frame.OutOfBounds?)
      && (!run.1 && pos + |run.0| < |rs| ==>
            var after := rs[pos + |run.0|].frame;
            after.NotFrame? || (after.Frame? && after.frame.sourceFile != sourceFile))
    decreases |rs| - pos
  {
    if pos < |rs| {
      var p := rs[pos].frame;
      if p.Frame? && p.frame.sourceFile == sourceFile {
        assert Faithful(rs[pos]);
        RunFrames(rs, pos + 1, sourceFile);
        var rest := Run(rs, pos + 1, sourceFile).0;
        assert Run(rs, pos, sourceFile).0 == [p.frame] + rest;
      }
    }
  }

  /** Every segment read can be rebuilt. */
  lemma NextWellFormed(rs: seq<Reading>, pos: nat)
    requires pos < |rs| && AllFaithful(rs)
    ensures WellFormed(Next(rs, pos).0)
  {
    assert Faithful(rs[pos]);
    var e := rs[pos].exception;
    var k := if e.Some? then pos + 1 else pos;
    if k < |rs| {
      var p := rs[k].frame;
      if p.Frame? {
        RunFrames(rs, k, p.frame.sourceFile);
      }
    }
  }

  /**
   * A block's frames share the source file of its first frame, and the line
   * after the block (re-examined by the next pass) is no frame of that source
   * file.
   */
  lemma NextStackMaximal(rs: seq<Reading>, pos: nat)
    requires pos < |rs| && AllFaithful(rs)
    ensures
      var next := Next(rs, pos);
      next.0.Stack? ==>
        && OneSourceFile(next.0.frames)
        && (next.1 < |rs| ==>
              var after := rs[next.1].frame;
              !(after.Frame? && after.frame.sourceFile == next.0.frames[0].sourceFile))
  {
    var e := rs[pos].exception;
    var k := if e.Some? then pos + 1 else pos;
    if k < |rs| {
      var p := rs[k].frame;
      if p.Frame? {
        RunFrames(rs, k, p.frame.sourceFile);
      }
    }
  }

  /** The lines of readings taken from consecutive stretches. */
  lemma {:induction false} LinesSplit(rs: seq<Reading>, a: nat, b: nat, c: nat)
    requires a <= b <= c <= |rs|
    ensures Lines(rs, a, c) == Lines(rs, a, b) + Lines(rs, b, c)
    decreases b - a
  {
    if a < b {
      LinesSplit(rs, a + 1, b, c);
      AppendAssociative([rs[a].line], Lines(rs, a + 1, b), Lines(rs, b, c));
    }
  }

  /** A run's frames print as the lines they were read from. */
  lemma {:induction false} RunCovers(rs: seq<Reading>, pos: nat, sourceFile: string)
    requires pos <= |rs| && AllFaithful(rs)
    ensures
      var run := Run(rs, pos, sourceFile).0;
      FrameTexts(run) == Lines(rs, pos, pos + |run|)
    decreases |rs| - pos
  {
    if pos < |rs| {
      var p := rs[pos].frame;
      if p.Frame? && p.frame.sourceFile == sourceFile {
        assert Faithful(rs[pos]);
        RunCovers(rs, pos + 1, sourceFile);
        var rest := Run(rs, pos + 1, sourceFile).0;
        var run := [p.frame] + rest;
        assert Run(rs, pos, sourceFile).0 == run;
        assert run[1..] == rest;
      }
    }
  }

  /** A segment is read from exactly the lines between its start and where the next pass starts. */
  lemma NextCovers(rs: seq<Reading>, pos: nat)
    requires pos < |rs| && AllFaithful(rs)
    ensures
      var next := Next(rs, pos);
      !next.0.Crash? ==> SegmentLines(next.0) == Lines(rs, pos, next.1)
  {
    assert Faithful(rs[pos]);
    var e := rs[pos].exception;
    var k := if e.Some? then pos + 1 else pos;
    if e.Some? && pos + 1 == |rs| {
      assert Next(rs, pos) == (Trailing(e.value), |rs|);
      assert Lines(rs, pos + 1, |rs|) == [];
    } else {
      var p := rs[k].frame;
      if p.NotFrame? {
        assert Next(rs, pos) == (Unparsed(e, rs[k].line), k + 1);
        UnparsedCovers(rs, pos, k);
      } else if p.Frame? {
        var run := Run(rs, k, p.frame.sourceFile);
        if !run.1 {
          assert Next(rs, pos) == (Stack(e, run.0), k + |run.0|);
          StackCovers(rs, pos, k, p.frame.sourceFile);
        }
      }
    }
  }

  /** An unparsed pass is read from its optional exception line and the line after it. */
  lemma UnparsedCovers(rs: seq<Reading>, pos: nat, k: nat)
    requires pos <= k < |rs| && AllFaithful(rs)
    requires k == if rs[pos].exception.Some? then pos + 1 else pos
    ensures SegmentLines(Unparsed(rs[pos].exception, rs[k].line)) == Lines(rs, pos, k + 1)
  {
    HeadCovers(rs, pos, k, k + 1);
    assert Lines(rs, k + 1, k + 1) == [];
  }

  /** A stack pass is read from its optional exception line and the lines of its run. */
  lemma StackCovers(rs: seq<Reading>, pos: nat, k: nat, sourceFile: string)
    requires pos <= k < |rs| && AllFaithful(rs)
    requires k == if rs[pos].exception.Some? then pos + 1 else pos
    ensures
      var run := Run(rs, k, sourceFile).0;
      k + |run| <= |rs| && SegmentLines(Stack(rs[pos].exception, run)) == Lines(rs, pos, k + |run|)
  {
    var run := Run(rs, k, sourceFile).0;
    RunCovers(rs, k, sourceFile);
    HeadCovers(rs, pos, k, k + |run|);
  }

  /** The optional exception line of a pass is the line it starts at. */
  lemma HeadCovers(rs: seq<Reading>, pos: nat, k: nat, end: nat)
    requires pos < |rs| && AllFaithful(rs)
    requires k == if rs[pos].exception.Some? then pos + 1 else pos
    requires k <= end <= |rs|
    ensures Lines(rs, pos, end) == IdentityLines(rs[pos].exception, []) + Lines(rs, k, end)
  {
    assert Faithful(rs[pos]);
    LinesSplit(rs, pos, k, end);
  }

  /** Every segment read from line `pos` on can be rebuilt. */
  lemma {:induction false} SegmentsWellFormed(rs: seq<Reading>, pos: nat)
    requires pos <= |rs| && AllFaithful(rs)
    ensures forall s | s in Segments(rs, pos) :: WellFormed(s)
    decreases |rs| - pos
  {
    if pos < |rs| {
      NextWellFormed(rs, pos);
      SegmentsWellFormed(rs, Next(rs, pos).1);
    }
  }

  /** Every block groups frames of one source file. */
  lemma {:induction false} StacksShareSourceFile(rs: seq<Reading>, pos: nat)
    requires pos <= |rs| && AllFaithful(rs)
    ensures forall s | s in Segments(rs, pos) && s.Stack? :: OneSourceFile(s.frames)
    decreases |rs| - pos
  {
    if pos < |rs| {
      NextStackMaximal(rs, pos);
      StacksShareSourceFile(rs, Next(rs, pos).1);
    }
  }

  /**
   * Every input line lands in exactly one segment, in order: the segments
   * read back the input up to a crash, and all of it without one.
   */
  lemma {:induction false} SegmentsCover(rs: seq<Reading>, pos: nat)
    requires pos <= |rs| && AllFaithful(rs)
    ensures Flatten(Segments(rs, pos)) <= Lines(rs, pos, |rs|)
    ensures Crash !in Segments(rs, pos) ==> Flatten(Segments(rs, pos)) == Lines(rs, pos, |rs|)
    decreases |rs| - pos
  {
    if pos < |rs| {
      var next := Next(rs, pos);
      var segs := Segments(rs, pos);
      assert segs[0] == next.0 && segs[1..] == Segments(rs, next.1);
      if !next.0.Crash? {
        NextCovers(rs, pos);
        SegmentsCover(rs, next.1);
        LinesSplit(rs, pos, next.1, |rs|);
        assert Crash !in segs ==> Crash !in Segments(rs, next.1);
      }
    }
  }

  /* ---------------------------------------------------------------------- */
  /* What the loop prints                                                   */
  /* ---------------------------------------------------------------------- */

  /**
   * What one pass prints, and how it ends the run: a block with no retracer
   * is printed as it was read; one with a retracer is rebuilt from the map
   * file it resolves to (retraceStackTrace).
   */
  function SegmentOutput(s: Segment, sources: map<string, RetracerSource>, default: Option<RetracerSource>,
                         engine: string -> Retracer, tempDir: string): (seq<string>, Option<Abort>)
    requires WellFormed(s)
  {
    match s
    case Trailing(e) => ([e.hole.line], None)
    case Unparsed(e, line) => (IdentityLines(e, []) + [line], None)
    case Crash => ([], Some(IndexOutOfBounds))
    case Stack(e, frames) => StackOutput(e, frames, Determine(sources, frames[0].sourceFile, default), engine, tempDir)
  }

  /**
   * What retraceStackTrace prints for a block given the map its retracer is
   * built from: the block as read without one, the rebuilt block with one.
   */
  function StackOutput(e: Option<ExceptionLine>, frames: seq<FrameLine>, r: Option<RetracerSource>,
                       engine: string -> Retracer, tempDir: string): (seq<string>, Option<Abort>)
    requires WellFormed(Stack(e, frames))
  {
    if r.None? then (IdentityLines(e, frames), None)
    else
      var results := Results(engine(MapFile(r.value, tempDir)), e, frames);
      BlockOutput(results, e, frames, r.value.MapLocation())
  }

  /** What the passes print, up to and including the first that ends the run. */
  function Output(segs: seq<Segment>, sources: map<string, RetracerSource>, default: Option<RetracerSource>,
                  engine: string -> Retracer, tempDir: string): (seq<string>, Option<Abort>)
    requires forall s | s in segs :: WellFormed(s)
  {
    if segs == [] then ([], None)
    else
      var first := SegmentOutput(segs[0], sources, default, engine, tempDir);
      if first.1.Some? then first
      else
        var rest := Output(segs[1..], sources, default, engine, tempDir);
        (first.0 + rest.0, rest.1)
  }

  /** A block whose retracer must first be fetched, which can fail. */
  predicate FetchFallible(s: Segment, sources: map<string, RetracerSource>, default: Option<RetracerSource>)
  {
    && s.Stack? && s.frames != []
    && var r := Determine(sources, s.frames[0].sourceFile, default);
    && r.Some? && r.value.Remote?
  }

  /** The message a pass holds back: the info of choosing its block's retracer, if any. */
  function SegmentNotes(s: Segment, sources: map<string, RetracerSource>): seq<string>
  {
    if s.Stack? && s.frames != [] then DetermineNotes(sources, s.frames[0].sourceFile) else []
  }

  /** The messages the passes hold back, up to and including the first that ends the run. */
  function Notes(segs: seq<Segment>, sources: map<string, RetracerSource>, default: Option<RetracerSource>,
                 engine: string -> Retracer, tempDir: string): seq<string>
    requires forall s | s in segs :: WellFormed(s)
  {
    if segs == [] then []
    else if SegmentOutput(segs[0], sources, default, engine, tempDir).1.Some? then SegmentNotes(segs[0], sources)
    else SegmentNotes(segs[0], sources) + Notes(segs[1..], sources, default, engine, tempDir)
  }

  /**
   * What a failed fetch prints to standard error: the held-back messages,
   * unless the tool could not even be started.
   */
  function FlushedBy(a: Abort, pending: seq<string>): seq<string>
  {
    if a.Error? then pending else []
  }

  /**
   * Only a block carrying an R8 marker whose id is not in the table holds
   * back a message: when every R8 id met is registered, nothing is held back.
   */
  lemma {:induction false} NotesWhenRegistered(segs: seq<Segment>, sources: map<string, RetracerSource>,
                                               default: Option<RetracerSource>, engine: string -> Retracer,
                                               tempDir: string)
    requires forall s | s in segs :: WellFormed(s)
    requires forall s | s in segs && s.Stack? && s.frames != [] ::
               var r8 := TryParseSourceFileMarkerForR8(s.frames[0].sourceFile);
               r8.Some? ==> r8.value.id in sources
    ensures Notes(segs, sources, default, engine, tempDir) == []
  {
    if segs != [] {
      assert segs[0] in segs;
      assert SegmentNotes(segs[0], sources) == [];
      if SegmentOutput(segs[0], sources, default, engine, tempDir).1.None? {
        assert forall s | s in segs[1..] :: s in segs;
        NotesWhenRegistered(segs[1..], sources, default, engine, tempDir);
      }
    }
  }

  /** The messages held back by passes that all completed, followed by more passes. */
  lemma {:induction false} NotesAppend(a: seq<Segment>, b: seq<Segment>, sources: map<string, RetracerSource>,
                                       default: Option<RetracerSource>, engine: string -> Retracer, tempDir: string)
    requires forall s | s in a :: WellFormed(s)
    requires forall s | s in b :: WellFormed(s)
    requires Output(a, sources, default, engine, tempDir).1 == None
    ensures forall s | s in a + b :: WellFormed(s)
    ensures Notes(a + b, sources, default, engine, tempDir)
            == Notes(a, sources, default, engine, tempDir) + Notes(b, sources, default, engine, tempDir)
  {
    if a != [] {
      assert (a + b)[0] == a[0] && (a + b)[1..] == a[1..] + b;
      NotesAppend(a[1..], b, sources, default, engine, tempDir);
      AppendAssociative(SegmentNotes(a[0], sources),
                        Notes(a[1..], sources, default, engine, tempDir),
                        Notes(b, sources, default, engine, tempDir));
    } else {
      assert a + b == b;
    }
  }

  /** The output of passes that all completed, followed by more passes. */
  lemma {:induction false} OutputAppend(a: seq<Segment>, b: seq<Segment>, sources: map<string, RetracerSource>,
                                        default: Option<RetracerSource>, engine: string -> Retracer, tempDir: string)
    requires forall s | s in a :: WellFormed(s)
    requires forall s | s in b :: WellFormed(s)
    requires Output(a, sources, default, engine, tempDir).1 == None
    ensures forall s | s in a + b :: WellFormed(s)
    ensures Output(a + b, sources, default, engine, tempDir)
            == (Output(a, sources, default, engine, tempDir).0 + Output(b, sources, default, engine, tempDir).0,
                Output(b, sources, default, engine, tempDir).1)
  {
    if a != [] {
      assert (a + b)[0] == a[0] && (a + b)[1..] == a[1..] + b;
      OutputAppend(a[1..], b, sources, default, engine, tempDir);
      AppendAssociative(SegmentOutput(a[0], sources, default, engine, tempDir).0,
                        Output(a[1..], sources, default, engine, tempDir).0,
                        Output(b, sources, default, engine, tempDir).0);
    } else {
      assert a + b == b;
      assert [] + Output(b, sources, default, engine, tempDir).0 == Output(b, sources, default, engine, tempDir).0;
    }
  }

  /**
   * When no block finds a retracer, every pass prints what it read: the
   * output is the segments' own lines, and only a crash ends the run early.
   */
  lemma {:induction false} UnresolvedOutput(segs: seq<Segment>, sources: map<string, RetracerSource>,
                                            default: Option<RetracerSource>, engine: string -> Retracer,
                                            tempDir: string)
    requires forall s | s in segs :: WellFormed(s)
    requires forall s | s in segs && s.Stack? && s.frames != [] :: Determine(sources, s.frames[0].sourceFile, default).None?
    ensures Output(segs, sources, default, engine, tempDir)
            == (Flatten(segs), if Crash in segs then Some(IndexOutOfBounds) else None)
  {
    if segs != [] {
      assert segs == [segs[0]] + segs[1..];
      UnresolvedOutput(segs[1..], sources, default, engine, tempDir);
      if !segs[0].Crash? {
        assert segs[0] in segs;
        assert SegmentOutput(segs[0], sources, default, engine, tempDir) == (SegmentLines(segs[0]), None);
        assert Crash in segs <==> Crash in segs[1..];
      }
    }
  }

  /**
   * With no retracer for any block, retrace is the identity: the output is
   * exactly the input lines in order, or a prefix of them when a frame line
   * makes tryParseFrameLine throw.
   */
  lemma IdentityWhenUnresolved(lines: seq<string>, sources: map<string, RetracerSource>,
                               default: Option<RetracerSource>, engine: string -> Retracer, tempDir: string)
    requires forall s | s in Segments(Readings(lines), 0) && s.Stack? && s.frames != [] ::
               Determine(sources, s.frames[0].sourceFile, default).None?
    ensures forall s | s in Segments(Readings(lines), 0) :: WellFormed(s)
    ensures
      var out := Output(Segments(Readings(lines), 0), sources, default, engine, tempDir);
      && (Crash !in Segments(Readings(lines), 0) ==> out == (lines, None))
      && (Crash in Segments(Readings(lines), 0) ==> out.1 == Some(IndexOutOfBounds) && out.0 <= lines)
  {
    ReadFromReadings(Readings(lines), lines);
    ReadingsFaithful(Readings(lines), lines);
    SegmentsWellFormed(Readings(lines), 0);
    UnresolvedOutput(Segments(Readings(lines), 0), sources, default, engine, tempDir);
    SegmentsCover(Readings(lines), 0);
  }

  /* ---------------------------------------------------------------------- */
  /* The loop itself                                                        */
  /* ---------------------------------------------------------------------- */

  /** A lazy retracer that either has not been built yet or was built from its map file. */
  ghost predicate Built(l: LazyRetracer, tempDir: string)
    reads l
  {
    l.built.None? || l.built == Some(MapFile(l.source, tempDir))
  }

  ghost predicate AllBuilt(lazies: set<LazyRetracer>, tempDir: string)
    reads lazies
  {
    forall l | l in lazies :: Built(l, tempDir)
  }

  /**
   * retraceStackTrace: choose the retracer from the first frame's source file;
   * without one print the block as read; otherwise build the retracer (which
   * may fetch, and fail), collect every result path and print them.
   */
  method RetraceStackTrace(registry: Registry, default: Option<LazyRetracer>, ghost lazies: set<LazyRetracer>,
                           exceptionLine: Option<ExceptionLine>, frames: seq<FrameLine>, tempDir: string,
                           ws: Workspace, engine: string -> Retracer, console: Console)
    returns (abort: Option<Abort>)
    requires WellFormed(Stack(exceptionLine, frames))
    requires lazies == Lazies(registry, default)
    requires ws.fs.Valid() && AllBuilt(lazies, tempDir)
    modifies console, ws, lazies
    ensures ws.fs.Valid() && AllBuilt(lazies, tempDir)
    ensures
      var r := SourceOf(Determine(registry.retracers, frames[0].sourceFile, default));
      var o := StackOutput(exceptionLine, frames, r, engine, tempDir);
      || (console.out == old(console.out) + o.0 && abort == o.1 && console.err == old(console.err))
      || (&& abort.Some? && console.out == old(console.out) && r.Some? && r.value.Remote?
          && console.err == old(console.err) + FlushedBy(abort.value, console.pending))
    ensures console.pending == old(console.pending) + DetermineNotes(registry.retracers, frames[0].sourceFile)
  {
    var sourceFile := frames[0].sourceFile;
    DetermineLazy(registry, sourceFile, default);
    var lazy := DetermineRetracer(registry, sourceFile, default, console);
    if lazy.None? {
      PrintIdentity(exceptionLine, frames, console);
      forall l | l in lazies ensures Built(l, tempDir) {
        assert l.built == old(l.built);
      }
      return None;
    }
    abort := RetraceWith(lazy.value, lazies, exceptionLine, frames, tempDir, ws, engine, console);
  }

  /** retraceStackTrace once a lazy retracer is chosen: build it, then print the rebuilt block. */
  method RetraceWith(retracer: LazyRetracer, ghost lazies: set<LazyRetracer>, exceptionLine: Option<ExceptionLine>,
                     frames: seq<FrameLine>, tempDir: string, ws: Workspace, engine: string -> Retracer,
                     console: Console)
    returns (abort: Option<Abort>)
    requires WellFormed(Stack(exceptionLine, frames)) && retracer in lazies
    requires ws.fs.Valid() && AllBuilt(lazies, tempDir)
    modifies console, ws, lazies
    ensures ws.fs.Valid() && AllBuilt(lazies, tempDir)
    ensures
      var o := StackOutput(exceptionLine, frames, Some(retracer.source), engine, tempDir);
      || (console.out == old(console.out) + o.0 && abort == o.1 && console.err == old(console.err))
      || (&& abort.Some? && console.out == old(console.out) && retracer.source.Remote?
          && console.err == old(console.err) + FlushedBy(abort.value, old(console.pending)))
    ensures console.pending == old(console.pending)
  {
    var built := BuildRetracer(retracer, lazies, tempDir, ws, console);
    if built.Failure? {
      return Some(built.error);
    }
    abort := PrintRetraced(exceptionLine, frames, retracer.source, built.value, tempDir, engine, console);
  }

  /** The block rebuilt by the retracer read from `mapFile`, and printed. */
  method PrintRetraced(exceptionLine: Option<ExceptionLine>, frames: seq<FrameLine>, source: RetracerSource,
                       mapFile: string, tempDir: string, engine: string -> Retracer, console: Console)
    returns (abort: Option<Abort>)
    requires WellFormed(Stack(exceptionLine, frames)) && mapFile == MapFile(source, tempDir)
    modifies console
    ensures
      var o := StackOutput(exceptionLine, frames, Some(source), engine, tempDir);
      console.out == old(console.out) + o.0 && abort == o.1
    ensures console.err == old(console.err) && console.pending == old(console.pending)
  {
    var results := RetraceOptionalExceptionLine(engine(mapFile), exceptionLine, frames);
    abort := PrintBlock(results, exceptionLine, frames, source.MapLocation(), console);
  }

  /**
   * lazyRetracer.getRetracer(tempDir) as retraceStackTrace sees it: the map
   * file the retracer is built from, or the failure of fetching it, which can
   * only happen for a remote map. Standard output is left alone.
   */
  method BuildRetracer(retracer: LazyRetracer, ghost lazies: set<LazyRetracer>, tempDir: string, ws: Workspace,
                       console: Console)
    returns (built: Result<string, Abort>)
    requires retracer in lazies
    requires ws.fs.Valid() && AllBuilt(lazies, tempDir)
    modifies retracer, ws, console
    ensures ws.fs.Valid() && AllBuilt(lazies, tempDir)
    ensures built.Success? ==> built.value == MapFile(retracer.source, tempDir)
    ensures built.Failure? ==> retracer.source.Remote?
    ensures console.out == old(console.out) && console.pending == old(console.pending)
    ensures console.err == old(console.err) + (if built.Failure? then FlushedBy(built.error, old(console.pending)) else [])
  {
    built := retracer.GetRetracer(ws, tempDir, console);
    forall l | l in lazies ensures Built(l, tempDir) {
      if l != retracer {
        assert l.built == old(l.built);
      }
    }
  }

  /**
   * The inner loop of retrace: starting at the top frame, take frames while
   * they share its source file; the line that stops the run is left for the
   * next pass. Parsing that line can throw.
   */
  method CollectFrames(lines: seq<string>, ghost rs: seq<Reading>, start: nat, top: FrameLine)
    returns (frames: seq<FrameLine>, pos: nat, crashed: bool)
    requires ReadFrom(rs, lines) && start < |lines| && rs[start].frame == Frame(top)
    ensures (frames, crashed) == Run(rs, start, top.sourceFile)
    ensures !crashed ==> pos == start + |frames|
  {
    var sourceFile := top.sourceFile;
    var frame := Frame(top);
    frames := [];
    pos := start;
    assert [] + Run(rs, pos, sourceFile).0 == Run(rs, pos, sourceFile).0;
    while frame.Frame? && frame.frame.sourceFile == sourceFile
      invariant start <= pos <= |lines| && pos == start + |frames|
      invariant frame == if pos == |lines| then NotFrame else rs[pos].frame
      invariant Run(rs, start, sourceFile).0 == frames + Run(rs, pos, sourceFile).0
      invariant Run(rs, start, sourceFile).1 == Run(rs, pos, sourceFile).1
      decreases |lines| - pos
    {
      RunStep(rs, pos, sourceFile);
      AppendAssociative(frames, [frame.frame], Run(rs, pos + 1, sourceFile).0);
      frames := frames + [frame.frame];
      pos := pos + 1;
      if pos == |lines| {
        frame := NotFrame;
      } else {
        frame := ParseFrameAt(lines, rs, pos);
      }
    }
    crashed := frame.OutOfBounds?;
    assert Run(rs, pos, sourceFile) == ([], crashed);
    assert frames + [] == frames;
  }

  /**
   * One pass of the retrace loop from line `pos`: an exception line is
   * followed by the line after it (the pass ends the loop when there is
   * none); a line that is no frame is printed with the exception line before
   * it; a frame starts a run, which is retraced as one block.
   */
  method RetracePass(lines: seq<string>, ghost rs: seq<Reading>, pos: nat, registry: Registry,
                     default: Option<LazyRetracer>, ghost lazies: set<LazyRetracer>,
                     tempDir: string, ws: Workspace, engine: string -> Retracer, console: Console)
    returns (next: nat, abort: Option<Abort>)
    requires ReadFrom(rs, lines) && AllFaithful(rs) && pos < |lines|
    requires lazies == Lazies(registry, default)
    requires ws.fs.Valid() && AllBuilt(lazies, tempDir)
    modifies console, ws, lazies
    ensures ws.fs.Valid() && AllBuilt(lazies, tempDir)
    ensures WellFormed(Next(rs, pos).0)
    ensures
      var s := Next(rs, pos).0;
      var o := SegmentOutput(s, registry.Sources(), SourceOf(default), engine, tempDir);
      || (next == Next(rs, pos).1 && console.out == old(console.out) + o.0 && abort == o.1 && console.err == old(console.err))
      || (&& abort.Some? && console.out == old(console.out) && FetchFallible(s, registry.Sources(), SourceOf(default))
          && console.err == old(console.err) + FlushedBy(abort.value, console.pending))
    ensures console.pending == old(console.pending) + SegmentNotes(Next(rs, pos).0, registry.Sources())
  {
    NextWellFormed(rs, pos);
    var exceptionLine := ParseExceptionAt(lines, rs, pos);
    var k := pos;
    if exceptionLine.Some? {
      k := pos + 1;
      if k == |lines| {
        NextTrailing(rs, pos);
        PrintIdentity(exceptionLine, [], console);
        return |lines|, None;
      }
    }
    var top := ParseFrameAt(lines, rs, k);
    if !top.Frame? {
      NextNoRun(rs, pos, k);
    }
    match top
    case OutOfBounds =>
      return |lines|, Some(IndexOutOfBounds);
    case NotFrame =>
      var current := lines[k];
      PrintIdentity(exceptionLine, [], console);
      console.Println(current);
      return k + 1, None;
    case Frame(topFrame) =>
      next, abort := RetraceRun(lines, rs, pos, k, exceptionLine, topFrame, registry, default, lazies, tempDir, ws, engine, console);
  }

  /** The stack-trace case of a pass: the frames from k on, retraced together. */
  method RetraceRun(lines: seq<string>, ghost rs: seq<Reading>, ghost pos: nat, k: nat,
                    exceptionLine: Option<ExceptionLine>, topFrame: FrameLine, registry: Registry,
                    default: Option<LazyRetracer>, ghost lazies: set<LazyRetracer>,
                    tempDir: string, ws: Workspace, engine: string -> Retracer, console: Console)
    returns (next: nat, abort: Option<Abort>)
    requires ReadFrom(rs, lines) && AllFaithful(rs) && pos <= k < |lines|
    requires exceptionLine == rs[pos].exception && k == (if exceptionLine.Some? then pos + 1 else pos)
    requires rs[k].frame == Frame(topFrame)
    requires lazies == Lazies(registry, default)
    requires ws.fs.Valid() && AllBuilt(lazies, tempDir)
    modifies console, ws, lazies
    ensures WellFormed(Next(rs, pos).0)
    ensures ws.fs.Valid() && AllBuilt(lazies, tempDir)
    ensures
      var s := Next(rs, pos).0;
      var o := SegmentOutput(s, registry.Sources(), SourceOf(default), engine, tempDir);
      || (next == Next(rs, pos).1 && console.out == old(console.out) + o.0 && abort == o.1 && console.err == old(console.err))
      || (&& abort.Some? && console.out == old(console.out) && FetchFallible(s, registry.Sources(), SourceOf(default))
          && console.err == old(console.err) + FlushedBy(abort.value, console.pending))
    ensures console.pending == old(console.pending) + SegmentNotes(Next(rs, pos).0, registry.Sources())
  {
    NextWellFormed(rs, pos);
    var frames, end, crashed := CollectFrames(lines, rs, k, topFrame);
    NextRun(rs, pos, k, topFrame, frames, crashed, end);
    if crashed {
      return |lines|, Some(IndexOutOfBounds);
    }
    ghost var segment := Stack(exceptionLine, frames);
    assert Next(rs, pos) == (segment, end);
    abort := RetraceStackTrace(registry, default, lazies, exceptionLine, frames, tempDir, ws, engine, console);
    StackSegment(registry, default, exceptionLine, frames, engine, tempDir);
    return end, abort;
  }

  /**
   * retrace: pass after pass until the input is used up or a pass ends the
   * run. The output is that of the segments of the input; a run can only end
   * early where a segment's output says so, or where fetching a remote map
   * fails.
   */
  method Retrace(lines: seq<string>, ghost rs: seq<Reading>, registry: Registry, default: Option<LazyRetracer>,
                 ghost lazies: set<LazyRetracer>, tempDir: string,
                 ws: Workspace, engine: string -> Retracer, console: Console)
    returns (abort: Option<Abort>)
    requires ReadFrom(rs, lines)
    requires lazies == Lazies(registry, default)
    requires ws.fs.Valid() && AllBuilt(lazies, tempDir)
    modifies console, ws, lazies
    ensures ws.fs.Valid() && AllBuilt(lazies, tempDir)
    ensures forall s | s in Segments(rs, 0) :: WellFormed(s)
    ensures
      var segs := Segments(rs, 0);
      var sources := registry.Sources();
      var o := Output(segs, sources, SourceOf(default), engine, tempDir);
      || (&& console.out == old(console.out) + o.0 && abort == o.1
          && console.pending == old(console.pending) + Notes(segs, sources, SourceOf(default), engine, tempDir)
          && console.err == old(console.err))
      || (abort.Some? &&
          exists i :: 0 <= i < |segs|
            && Output(segs[..i], sources, SourceOf(default), engine, tempDir).1 == None
            && console.out == old(console.out) + Output(segs[..i], sources, SourceOf(default), engine, tempDir).0
            && FetchFallible(segs[i], sources, SourceOf(default))
            && console.pending == old(console.pending)
                 + Notes(segs[..i], sources, SourceOf(default), engine, tempDir) + SegmentNotes(segs[i], sources)
            && console.err == old(console.err) + FlushedBy(abort.value, console.pending))
  {
    ReadingsFaithful(rs, lines);
    SegmentsWellFormed(rs, 0);
    ghost var sources := registry.Sources();
    ghost var fallback := SourceOf(default);
    ghost var segs := Segments(rs, 0);
    var pos := 0;
    ghost var done: seq<Segment> := [];
    while pos < |lines|
      invariant pos <= |lines|
      invariant segs == done + Segments(rs, pos)
      invariant forall s | s in done :: WellFormed(s)
      invariant Output(done, sources, fallback, engine, tempDir).1 == None
      invariant console.out == old(console.out) + Output(done, sources, fallback, engine, tempDir).0
      invariant console.pending == old(console.pending) + Notes(done, sources, fallback, engine, tempDir)
      invariant console.err == old(console.err)
      invariant ws.fs.Valid() && AllBuilt(lazies, tempDir)
      decreases |lines| - pos
    {
      ghost var s := Next(rs, pos).0;
      ghost var before := console.out;
      var next, passAbort := RetracePass(lines, rs, pos, registry, default, lazies, tempDir, ws, engine, console);
      SegmentsStep(rs, pos, done, segs);
      if passAbort.Some? {
        if && console.out == before + SegmentOutput(s, sources, fallback, engine, tempDir).0
           && passAbort == SegmentOutput(s, sources, fallback, engine, tempDir).1
           && console.err == old(console.err) {
          OutputStop(segs, |done|, sources, fallback, engine, tempDir);
          AppendAssociative(old(console.out), Output(done, sources, fallback, engine, tempDir).0,
                            SegmentOutput(s, sources, fallback, engine, tempDir).0);
          AppendAssociative(old(console.pending), Notes(done, sources, fallback, engine, tempDir),
                            SegmentNotes(s, sources));
        } else {
          assert FetchFallible(segs[|done|], sources, fallback);
        }
        return passAbort;
      }
      OutputStep(done, s, sources, fallback, engine, tempDir);
      NotesStep(done, s, sources, fallback, engine, tempDir);
      AppendAssociative(old(console.out), Output(done, sources, fallback, engine, tempDir).0,
                        SegmentOutput(s, sources, fallback, engine, tempDir).0);
      AppendAssociative(old(console.pending), Notes(done, sources, fallback, engine, tempDir),
                        SegmentNotes(s, sources));
      done := done + [s];
      pos := next;
    }
    assert segs == done by {
      assert done + [] == done;
    }
    abort := None;
  }

  /** One more pass: its segment is the next of the whole run, after those done. */
  lemma SegmentsStep(rs: seq<Reading>, pos: nat, done: seq<Segment>, segs: seq<Segment>)
    requires pos < |rs| && segs == done + Segments(rs, pos)
    ensures
      var next := Next(rs, pos);
      && next.1 <= |rs| && segs == (done + [next.0]) + Segments(rs, next.1)
      && |done| < |segs| && segs[..|done|] == done && segs[|done|] == next.0
  {
    var next := Next(rs, pos);
    assert Segments(rs, pos) == [next.0] + Segments(rs, next.1);
    AppendAssociative(done, [next.0], Segments(rs, next.1));
  }

  /** A completed pass extends the output of those before it. */
  lemma OutputStep(done: seq<Segment>, s: Segment, sources: map<string, RetracerSource>,
                   default: Option<RetracerSource>, engine: string -> Retracer, tempDir: string)
    requires forall x | x in done :: WellFormed(x)
    requires WellFormed(s) && Output(done, sources, default, engine, tempDir).1 == None
    ensures forall x | x in done + [s] :: WellFormed(x)
    ensures
      var o := SegmentOutput(s, sources, default, engine, tempDir);
      Output(done + [s], sources, default, engine, tempDir) == (Output(done, sources, default, engine, tempDir).0 + o.0, o.1)
  {
    OutputAppend(done, [s], sources, default, engine, tempDir);
    var o := SegmentOutput(s, sources, default, engine, tempDir);
    assert [s][1..] == [];
    assert o.0 + [] == o.0;
  }

  /** A completed pass adds what it held back to what those before it held back. */
  lemma NotesStep(done: seq<Segment>, s: Segment, sources: map<string, RetracerSource>,
                  default: Option<RetracerSource>, engine: string -> Retracer, tempDir: string)
    requires forall x | x in done :: WellFormed(x)
    requires WellFormed(s) && Output(done, sources, default, engine, tempDir).1 == None
    ensures forall x | x in done + [s] :: WellFormed(x)
    ensures Notes(done + [s], sources, default, engine, tempDir)
            == Notes(done, sources, default, engine, tempDir) + SegmentNotes(s, sources)
  {
    NotesAppend(done, [s], sources, default, engine, tempDir);
    assert [s][1..] == [];
    assert SegmentNotes(s, sources) + [] == SegmentNotes(s, sources);
  }

  /** The run ends at the first pass that ends it; what came before is printed in full. */
  lemma OutputStop(segs: seq<Segment>, i: nat, sources: map<string, RetracerSource>,
                   default: Option<RetracerSource>, engine: string -> Retracer, tempDir: string)
    requires i < |segs| && forall x | x in segs :: WellFormed(x)
    requires Output(segs[..i], sources, default, engine, tempDir).1 == None
    requires SegmentOutput(segs[i], sources, default, engine, tempDir).1.Some?
    ensures
      var o := SegmentOutput(segs[i], sources, default, engine, tempDir);
      Output(segs, sources, default, engine, tempDir) == (Output(segs[..i], sources, default, engine, tempDir).0 + o.0, o.1)
    ensures Notes(segs, sources, default, engine, tempDir)
            == Notes(segs[..i], sources, default, engine, tempDir) + SegmentNotes(segs[i], sources)
  {
    assert segs == segs[..i] + segs[i..];
    assert segs[i..][0] == segs[i];
    OutputAppend(segs[..i], segs[i..], sources, default, engine, tempDir);
    NotesAppend(segs[..i], segs[i..], sources, default, engine, tempDir);
  }
}
