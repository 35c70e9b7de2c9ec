/**
 * The line classifier of the retracer: a line with a replaceable hole, the
 * parsed frame line `at <class>.<method>(<source>[:<line>])` and the parsed
 * exception header line (RetraceWrapper.java:233-281, 424-502).
 */
module StackLines {
  import opened Wrappers
  import opened JavaString

  const AtMarker: string := "at "
  const EscapingExceptionMarker: string := "Exception in thread \""
  const CausedByExceptionMarker: string := "Caused by: "
  const SuppressedExceptionMarker: string := "Suppressed: "
  /** What follows the thread name of an escaping exception. */
  const QuoteSpace: string := "\" "

  /** A line read as `<prefix><hole><suffix>`, the hole being [start, end). */
  datatype LineWithHole = LineWithHole(line: string, start: nat, end: nat) {

    predicate Valid() {
      start <= end <= |line|
    }

    /** Some space lies in the prefix, so no plugged line is a bare `<OR>` separator. */
    predicate SpacedPrefix() {
      exists k :: 0 <= k < start && k < |line| && line[k] == ' '
    }

    function HoleText(): string
      requires Valid()
    {
      line[start..end]
    }

    /** The line with the hole replaced by `s`. */
    function Plug(s: string): string
      requires Valid()
    {
      line[..start] + s + line[end..]
    }
  }

  /** Plugging keeps the prefix and the suffix as they are and puts `s` between them. */
  lemma PlugSplices(h: LineWithHole, s: string)
    requires h.Valid()
    ensures |h.Plug(s)| == |h.line| - (h.end - h.start) + |s|
    ensures h.Plug(s)[..h.start] == h.line[..h.start]
    ensures h.Plug(s)[h.start..h.start + |s|] == s
    ensures h.Plug(s)[h.start + |s|..] == h.line[h.end..]
    ensures h.SpacedPrefix() ==> ' ' in h.Plug(s)
  {
    var r := h.Plug(s);
    if h.SpacedPrefix() {
      var k :| 0 <= k < h.start && k < |h.line| && h.line[k] == ' ';
      assert r[k] == ' ';
    }
  }

  /** Plugging the hole with its own text gives the line back. */
  lemma PlugHoleText(h: LineWithHole)
    requires h.Valid()
    ensures h.Plug(h.HoleText()) == h.line
  {
  }

  /** Different replacements give different lines. */
  lemma PlugInjective(h: LineWithHole, a: string, b: string)
    requires h.Valid()
    requires h.Plug(a) == h.Plug(b)
    ensures a == b
  {
    PlugSplices(h, a);
    PlugSplices(h, b);
    var ra, rb := h.Plug(a), h.Plug(b);
    assert |a| == |b|;
    assert a == ra[h.start..h.start + |a|] == rb[h.start..h.start + |b|] == b;
  }

  /** A parsed `Caused by: ` / `Suppressed: ` / escaping exception header. */
  datatype ExceptionLine = ExceptionLine(hole: LineWithHole, exception: string)

  /**
   * A parsed stack frame line. The text between the parentheses is kept as
   * `location`; the source file and line number are read from it.
   */
  datatype FrameLine = FrameLine(
    hole: LineWithHole,
    clazz: string,
    methodName: string,
    location: string,
    sourceFile: string,
    lineNumber: Option<int>)

  /**
   * The three outcomes of tryParseFrameLine: not a frame (null), a frame, or the
   * StringIndexOutOfBoundsException thrown when the last '.' before '(' lies
   * before the class start.
   */
  datatype FrameParse = NotFrame | Frame(frame: FrameLine) | OutOfBounds

  /** The source file: the location up to its last ':', or all of it without one. */
  function SourceFileOf(location: string): string
  {
    var c := LastIndexOfBefore(location, ':', |location|);
    if c < 0 then location else location[..c]
  }

  /** The line number: the int after the last ':', absent when there is none or it does not parse. */
  function LineNumberOf(location: string): Option<int>
  {
    var c := LastIndexOfBefore(location, ':', |location|);
    if c < 0 then None else ParseJavaInt(location[c + 1..])
  }

  /**
   * Without a ':' the whole location is the source file and there is no line
   * number; with one, a suffix that is not an int leaves the line number out but
   * still cuts the source file at the ':'.
   */
  lemma LocationSplit(location: string)
    ensures ':' !in location ==> SourceFileOf(location) == location && LineNumberOf(location) == None
    ensures ':' in location ==>
      var c := LastIndexOfBefore(location, ':', |location|);
      && 0 <= c
      && SourceFileOf(location) == location[..c] && ':' !in location[c + 1..]
      && LineNumberOf(location) == ParseJavaInt(location[c + 1..])
  {
    LastIndexSplit(location, ':');
  }

  /** tryParseFrameLine (RetraceWrapper.java:424-470). */
  function TryParseFrameLine(line: string): FrameParse
  {
    var at := IndexOfSub(line, AtMarker, 0);
    if at < 0 then NotFrame
    else
      var open := IndexOfChar(line, '(', at);
      if open < 0 then NotFrame
      else
        var close := IndexOfChar(line, ')', open);
        if close < 0 then NotFrame
        else
          var dot := LastIndexOfBefore(line, '.', open + 1);
          if dot < 0 then NotFrame
          else if dot < at + |AtMarker| then OutOfBounds
          else Frame(FrameOf(line, at + |AtMarker|, dot, open, close))
  }

  /** The frame read from a line cut at the class start, the '.', the '(' and the ')'. */
  function FrameOf(line: string, classStart: nat, dot: nat, open: nat, close: nat): FrameLine
    requires classStart <= dot < open < close < |line|
  {
    var location := line[open + 1..close];
    FrameLine(LineWithHole(line, classStart, close + 1),
      line[classStart..dot], line[dot + 1..open], location, SourceFileOf(location), LineNumberOf(location))
  }

  /**
   * The outcome of tryParseFrameLine: not a frame exactly when "at ", a '('
   * after it, a ')' after that or a '.' before the '(' is missing; out of
   * bounds exactly when that '.' lies before the end of "at "; otherwise a
   * frame whose hole runs from the end of "at " through the ')', right after
   * a space, and whose class, method and location are the text between the
   * cuts.
   */
  lemma FrameParseOutcome(line: string)
    ensures
      var r := TryParseFrameLine(line);
      var at := IndexOfSub(line, AtMarker, 0);
      var open := if at < 0 then -1 else IndexOfChar(line, '(', at);
      var close := if open < 0 then -1 else IndexOfChar(line, ')', open);
      var dot := if open < 0 then -1 else LastIndexOfBefore(line, '.', open + 1);
      && (r.NotFrame? <==> at < 0 || open < 0 || close < 0 || dot < 0)
      && (r.OutOfBounds? <==> 0 <= at && 0 <= open && 0 <= close && 0 <= dot < at + |AtMarker|)
      && (r.Frame? ==>
           && r.frame.hole.line == line && r.frame.hole.Valid()
           && r.frame.hole.start >= |AtMarker| && line[r.frame.hole.start - 1] == ' '
           && r.frame.hole.start == at + |AtMarker| && r.frame.hole.end == close + 1
           && at + |AtMarker| <= dot < open < close
           && r.frame.clazz == line[at + |AtMarker|..dot]
           && r.frame.methodName == line[dot + 1..open]
           && r.frame.location == line[open + 1..close])
  {
    var at := IndexOfSub(line, AtMarker, 0);
    if at >= 0 {
      var open := IndexOfChar(line, '(', at);
      var close := if open < 0 then -1 else IndexOfChar(line, ')', open);
      var dot := if open < 0 then -1 else LastIndexOfBefore(line, '.', open + 1);
      if 0 <= open && 0 <= close && at + |AtMarker| <= dot {
        FrameOfCuts(line, at, dot, open, close);
      }
    }
  }

  /** The frame cut at "at " (found at `at`), the '.', the '(' and the ')'. */
  lemma FrameOfCuts(line: string, at: nat, dot: nat, open: nat, close: nat)
    requires OccursAt(line, AtMarker, at)
    requires at + |AtMarker| <= dot < open < close < |line|
    ensures
      var f := FrameOf(line, at + |AtMarker|, dot, open, close);
      && f.hole.line == line && f.hole.Valid()
      && f.hole.start >= |AtMarker| && line[f.hole.start - 1] == ' '
      && f.hole.start == at + |AtMarker| && f.hole.end == close + 1
      && f.clazz == line[at + |AtMarker|..dot]
      && f.methodName == line[dot + 1..open]
      && f.location == line[open + 1..close]
  {
    assert line[at..at + 3][2] == line[at + 2];
  }

  /** The hole of a parsed frame starts right after the first "at " of the line. */
  lemma FrameAfterFirstAt(line: string)
    requires TryParseFrameLine(line).Frame?
    ensures
      var h := TryParseFrameLine(line).frame.hole;
      && OccursAt(line, AtMarker, h.start - |AtMarker|)
      && forall k: nat :: k < h.start - |AtMarker| ==> !OccursAt(line, AtMarker, k)
  {
  }

  /** `<class>.<method>(<location>)`: the shape of a frame's hole. */
  function HoleShape(clazz: string, methodName: string, location: string): string
  {
    clazz + "." + methodName + "(" + location + ")"
  }

  /**
   * The hole of a parsed frame reads `<class>.<method>(<location>)`, the
   * location holding no ')', the class no '(' and the method neither '(' nor '.'.
   */
  lemma FrameHoleText(line: string)
    requires TryParseFrameLine(line).Frame?
    ensures
      var f := TryParseFrameLine(line).frame;
      && f.hole.Valid()
      && f.hole.HoleText() == HoleShape(f.clazz, f.methodName, f.location)
      && ')' !in f.location
      && '(' !in f.clazz && '(' !in f.methodName && '.' !in f.methodName
  {
    var at := IndexOfSub(line, AtMarker, 0);
    var open := IndexOfChar(line, '(', at);
    var close := IndexOfChar(line, ')', open);
    var dot := LastIndexOfBefore(line, '.', open + 1);
    var classStart := at + |AtMarker|;
    assert TryParseFrameLine(line).frame == FrameOf(line, classStart, dot, open, close);
    FrameOfHoleText(line, classStart, dot, open, close);
    CutClean(line, classStart, dot, open, close);
  }

  /** The hole of a frame cut at the '.', the '(' and the ')' spells its class, method and location. */
  lemma FrameOfHoleText(line: string, classStart: nat, dot: nat, open: nat, close: nat)
    requires classStart <= dot < open < close < |line|
    requires line[dot] == '.' && line[open] == '(' && line[close] == ')'
    ensures
      var f := FrameOf(line, classStart, dot, open, close);
      f.hole.Valid() && f.hole.HoleText() == HoleShape(f.clazz, f.methodName, f.location)
  {
    var f := FrameOf(line, classStart, dot, open, close);
    assert f.hole.HoleText() == line[classStart..close + 1];
    SliceAround(line, classStart, dot, open, close);
  }

  /** The pieces cut at the first '(' , the last '.' before it and the first ')' after it. */
  lemma CutClean(line: string, classStart: nat, dot: nat, open: nat, close: nat)
    requires classStart <= dot < open < close < |line|
    requires forall k :: classStart <= k < open ==> line[k] != '('
    requires forall k :: dot < k < open ==> line[k] != '.'
    requires forall k :: open < k < close ==> line[k] != ')'
    ensures
      var f := FrameOf(line, classStart, dot, open, close);
      ')' !in f.location && '(' !in f.clazz && '(' !in f.methodName && '.' !in f.methodName
  {
    var f := FrameOf(line, classStart, dot, open, close);
    assert forall k :: 0 <= k < |f.location| ==> f.location[k] == line[open + 1 + k];
    assert forall k :: 0 <= k < |f.clazz| ==> f.clazz[k] == line[classStart + k];
    assert forall k :: 0 <= k < |f.methodName| ==> f.methodName[k] == line[dot + 1 + k];
  }

  /** A slice cut at a '.', a '(' and a closing ')'. */
  lemma SliceAround(s: string, a: nat, d: nat, o: nat, c: nat)
    requires a <= d < o < c < |s|
    requires s[d] == '.' && s[o] == '(' && s[c] == ')'
    ensures s[a..c + 1] == HoleShape(s[a..d], s[d + 1..o], s[o + 1..c])
  {
    assert s[a..c + 1] == s[a..d] + [s[d]] + s[d + 1..o] + [s[o]] + s[o + 1..c] + [s[c]];
  }

  /**
   * The text retraceFrameRecursive writes into a frame's hole
   * (RetraceWrapper.java:680-690): `<class>.<method>(<source>[:<line>])`, the
   * line number being written only when it is not negative.
   */
  function FrameText(clazz: string, methodName: string, sourceFile: string, position: int): string
  {
    HoleShape(clazz, methodName, LocationText(sourceFile, position))
  }

  /** `<source>[:<line>]`, the line number written only when it is not negative. */
  function LocationText(sourceFile: string, position: int): string
  {
    sourceFile + (if position >= 0 then ":" + NatToString(position) else "")
  }

  /** Indentation as the JVM prints it before "at ". */
  predicate Indentation(prefix: string) {
    forall k :: 0 <= k < |prefix| ==> prefix[k] == ' ' || prefix[k] == '\t'
  }

  /**
   * A frame line written as `<indentation>at <FrameText><suffix>` parses back to
   * the same class, method, source file and line number, with the hole covering
   * exactly the written frame text.
   */
  lemma FrameRoundTrip(prefix: string, suffix: string, clazz: string, methodName: string,
                       sourceFile: string, position: int)
    requires Indentation(prefix)
    requires '(' !in clazz && '(' !in methodName && '.' !in methodName && ')' !in sourceFile
    requires position <= MaxInt
    requires position < 0 ==> ':' !in sourceFile
    ensures
      var text := FrameText(clazz, methodName, sourceFile, position);
      var line := prefix + AtMarker + text + suffix;
      var r := TryParseFrameLine(line);
      && r == Frame(FrameLine(
           LineWithHole(line, |prefix| + |AtMarker|, |prefix| + |AtMarker| + |text|),
           clazz, methodName, LocationText(sourceFile, position),
           SourceFileOf(LocationText(sourceFile, position)), LineNumberOf(LocationText(sourceFile, position))))
      && r.frame.sourceFile == sourceFile
      && r.frame.lineNumber == if position >= 0 then Some(position) else None
  {
    var text := FrameText(clazz, methodName, sourceFile, position);
    IndentedLayout(prefix, text, suffix);
    FramePlaced(prefix + AtMarker + text + suffix, |prefix|, clazz, methodName, sourceFile, position);
  }

  /** In `<indentation>at <text><suffix>` the first "at " ends where the text begins. */
  lemma IndentedLayout(prefix: string, text: string, suffix: string)
    requires Indentation(prefix)
    ensures
      var line := prefix + AtMarker + text + suffix;
      IndexOfSub(line, AtMarker, 0) == |prefix| && OccursAt(line, text, |prefix| + |AtMarker|)
  {
    var line := prefix + AtMarker + text + suffix;
    var b := |prefix| + |AtMarker|;
    FirstAtAfterIndentation(prefix, text + suffix);
    assert prefix + AtMarker + (text + suffix) == line;
    assert line[b..b + |text|] == text;
  }

  /** tryParseFrameLine on any line holding FrameText right after its first "at ". */
  lemma FramePlaced(line: string, at: nat, clazz: string, methodName: string, sourceFile: string, position: int)
    requires IndexOfSub(line, AtMarker, 0) == at
    requires OccursAt(line, FrameText(clazz, methodName, sourceFile, position), at + |AtMarker|)
    requires '(' !in clazz && '(' !in methodName && '.' !in methodName && ')' !in sourceFile
    requires position <= MaxInt
    requires position < 0 ==> ':' !in sourceFile
    ensures
      var text := FrameText(clazz, methodName, sourceFile, position);
      var b := at + |AtMarker|;
      var r := TryParseFrameLine(line);
      && r == Frame(FrameLine(
           LineWithHole(line, b, b + |text|),
           clazz, methodName, LocationText(sourceFile, position),
           SourceFileOf(LocationText(sourceFile, position)), LineNumberOf(LocationText(sourceFile, position))))
      && r.frame.sourceFile == sourceFile
      && r.frame.lineNumber == if position >= 0 then Some(position) else None
  {
    var location := LocationText(sourceFile, position);
    var b := at + |AtMarker|;
    LocationClean(sourceFile, position);
    PlacedFrameParse(line, at, b, clazz, methodName, location);
    PlacedFrameFields(line, b, clazz, methodName, location);
    LocationOfRendered(sourceFile, position);
  }

  /** The location FrameText writes holds no ')'. */
  lemma LocationClean(sourceFile: string, position: int)
    requires ')' !in sourceFile
    ensures ')' !in LocationText(sourceFile, position)
  {
    if position >= 0 {
      var digits := NatToString(position);
      NatToStringSpec(position);
      assert ')' !in digits by {
        forall j | 0 <= j < |digits| ensures digits[j] != ')' {
          assert IsDigit(digits[j]);
        }
      }
    } else {
      assert LocationText(sourceFile, position) == sourceFile;
    }
  }

  /** After indentation, the first "at " is the one that follows it. */
  lemma FirstAtAfterIndentation(prefix: string, rest: string)
    requires Indentation(prefix)
    ensures IndexOfSub(prefix + AtMarker + rest, AtMarker, 0) == |prefix|
  {
    var line := prefix + AtMarker + rest;
    assert line[|prefix|..|prefix| + 3] == AtMarker;
    forall j: nat | j < |prefix| ensures !OccursAt(line, AtMarker, j) {
      assert line[j] == prefix[j];
      if j + 3 <= |line| {
        assert line[j..j + 3][0] == line[j];
      }
    }
    IndexOfSubIs(line, AtMarker, 0, |prefix|);
  }

  /** Where the '.', '(' and ')' of `<class>.<method>(<location>)` fall. */
  lemma ShapeMarks(clazz: string, methodName: string, location: string)
    requires '(' !in clazz && '(' !in methodName && '.' !in methodName && ')' !in location
    ensures
      var t := HoleShape(clazz, methodName, location);
      var dot := |clazz|;
      var open := dot + 1 + |methodName|;
      var close := open + 1 + |location|;
      && close == |t| - 1
      && t[dot] == '.' && t[open] == '(' && t[close] == ')'
      && (forall j :: 0 <= j < open ==> t[j] != '(')
      && (forall j :: dot < j < open ==> t[j] != '.')
      && (forall j :: open < j < close ==> t[j] != ')')
  {
    var a := clazz + ".";
    var b := methodName + "(";
    var c := location + ")";
    var t := HoleShape(clazz, methodName, location);
    assert t == a + b + c;
    var dot := |clazz|;
    var open := dot + 1 + |methodName|;
    forall j | 0 <= j < open ensures t[j] != '(' {
      if j < dot {
        assert t[j] == clazz[j];
      } else if dot < j {
        assert t[j] == b[j - |a|] == methodName[j - dot - 1];
      }
    }
    forall j | dot < j < open ensures t[j] != '.' {
      assert t[j] == b[j - |a|] == methodName[j - dot - 1];
    }
    forall j | open < j < |t| - 1 ensures t[j] != ')' {
      assert t[j] == c[j - |a| - |b|] == location[j - open - 1];
    }
  }

  /** The class, the method and the location, cut back out of `<class>.<method>(<location>)`. */
  lemma ShapeSlices(clazz: string, methodName: string, location: string)
    ensures
      var t := HoleShape(clazz, methodName, location);
      var dot := |clazz|;
      var open := dot + 1 + |methodName|;
      var close := open + 1 + |location|;
      && close == |t| - 1
      && t[..dot] == clazz
      && t[dot + 1..open] == methodName
      && t[open + 1..close] == location
  {
    var a := clazz + ".";
    var b := methodName + "(";
    var c := location + ")";
    var t := HoleShape(clazz, methodName, location);
    assert t == a + b + c;
    var dot := |clazz|;
    var open := dot + 1 + |methodName|;
    assert t[..dot] == clazz;
    assert t[dot + 1..open] == b[..|methodName|] == methodName;
    assert t[open + 1..|t| - 1] == c[..|location|] == location;
  }

  /**
   * The '.', '(' and ')' at which a frame is cut from the class start `start`
   * on: the '(' is the first after `start`, the '.' the last before it and the
   * ')' the first after it.
   */
  predicate CutsAt(line: string, start: nat, dot: nat, open: nat, close: nat)
  {
    && start <= dot < open < close < |line|
    && line[dot] == '.' && line[open] == '(' && line[close] == ')'
    && (forall j :: start <= j < open ==> line[j] != '(')
    && (forall j :: dot < j < open ==> line[j] != '.')
    && (forall j :: open < j < close ==> line[j] != ')')
  }

  /** Where the '.', '(' and ')' of `<class>.<method>(<location>)` fall in a line holding it at `b`. */
  lemma PlacedMarks(line: string, b: nat, clazz: string, methodName: string, location: string,
                    dot: nat, open: nat, close: nat)
    requires '(' !in clazz && '(' !in methodName && '.' !in methodName && ')' !in location
    requires OccursAt(line, HoleShape(clazz, methodName, location), b)
    requires dot == b + |clazz| && open == dot + 1 + |methodName| && close == open + 1 + |location|
    ensures CutsAt(line, b, dot, open, close)
  {
    var t := HoleShape(clazz, methodName, location);
    ShapeMarks(clazz, methodName, location);
    forall j | b <= j < close + 1 ensures line[j] == t[j - b] {
      assert line[j] == line[b..b + |t|][j - b];
    }
  }

  /**
   * A line holding `<class>.<method>(<location>)` at `b`, right after its first
   * "at ", parses as the frame cut at that '.', '(' and ')'.
   */
  lemma PlacedFrameParse(line: string, at: nat, b: nat, clazz: string, methodName: string, location: string)
    requires '(' !in clazz && '(' !in methodName && '.' !in methodName && ')' !in location
    requires OccursAt(line, HoleShape(clazz, methodName, location), b)
    requires IndexOfSub(line, AtMarker, 0) == at && b == at + |AtMarker|
    ensures
      var dot := b + |clazz|;
      var open := dot + 1 + |methodName|;
      TryParseFrameLine(line) == Frame(FrameOf(line, b, dot, open, open + 1 + |location|))
  {
    var dot := b + |clazz|;
    var open := dot + 1 + |methodName|;
    var close := open + 1 + |location|;
    PlacedMarks(line, b, clazz, methodName, location, dot, open, close);
    assert CutsAt(line, b, dot, open, close);
    FrameParseAt(line, at, b, dot, open, close);
  }

  /** The frame cut from such a line has the written class, method and location. */
  lemma PlacedFrameFields(line: string, b: nat, clazz: string, methodName: string, location: string)
    requires OccursAt(line, HoleShape(clazz, methodName, location), b)
    ensures
      var t := HoleShape(clazz, methodName, location);
      var dot := b + |clazz|;
      var open := dot + 1 + |methodName|;
      FrameOf(line, b, dot, open, open + 1 + |location|)
        == FrameLine(LineWithHole(line, b, b + |t|), clazz, methodName, location,
                     SourceFileOf(location), LineNumberOf(location))
  {
    PlacedSlices(line, b, clazz, methodName, location);
  }

  /** The slices between the separators of such a line are the written class, method and location. */
  lemma PlacedSlices(line: string, b: nat, clazz: string, methodName: string, location: string)
    requires OccursAt(line, HoleShape(clazz, methodName, location), b)
    ensures
      var dot := b + |clazz|;
      var open := dot + 1 + |methodName|;
      var close := open + 1 + |location|;
      && b + |HoleShape(clazz, methodName, location)| == close + 1 && close < |line|
      && line[b..dot] == clazz && line[dot + 1..open] == methodName && line[open + 1..close] == location
  {
    var t := HoleShape(clazz, methodName, location);
    var dot := b + |clazz|;
    var open := dot + 1 + |methodName|;
    var close := open + 1 + |location|;
    ShapeSlices(clazz, methodName, location);
    SliceOfOccurrence(line, t, b, 0, |clazz|);
    SliceOfOccurrence(line, t, b, dot + 1 - b, open - b);
    SliceOfOccurrence(line, t, b, open + 1 - b, close - b);
  }

  /**
   * tryParseFrameLine on a line whose first "at ", the first '(' after it, the
   * last '.' before that and the first ')' after it are known.
   */
  lemma FrameParseAt(line: string, at: nat, start: nat, dot: nat, open: nat, close: nat)
    requires start == at + |AtMarker| && IndexOfSub(line, AtMarker, 0) == at
    requires CutsAt(line, start, dot, open, close)
    ensures TryParseFrameLine(line) == Frame(FrameOf(line, start, dot, open, close))
  {
    OccursAtAvoids(line, AtMarker, at, '(');
    IndexOfCharIs(line, '(', at, open);
    LastIndexOfBeforeIs(line, '.', open + 1, dot);
    IndexOfCharIs(line, ')', open, close);
    FrameFromSearches(line, at, dot, open, close);
  }

  /** tryParseFrameLine once its four searches are known to land on a frame. */
  lemma FrameFromSearches(line: string, at: nat, dot: nat, open: nat, close: nat)
    requires IndexOfSub(line, AtMarker, 0) == at && IndexOfChar(line, '(', at) == open
    requires IndexOfChar(line, ')', open) == close && LastIndexOfBefore(line, '.', open + 1) == dot
    requires at + |AtMarker| <= dot < open < close < |line|
    ensures TryParseFrameLine(line) == Frame(FrameOf(line, at + |AtMarker|, dot, open, close))
  {
  }

  /** The location LocationText writes reads back to its source file and line number. */
  lemma LocationOfRendered(sourceFile: string, position: int)
    requires position <= MaxInt
    requires position < 0 ==> ':' !in sourceFile
    ensures SourceFileOf(LocationText(sourceFile, position)) == sourceFile
    ensures LineNumberOf(LocationText(sourceFile, position))
      == if position >= 0 then Some(position) else None
  {
    if position >= 0 {
      var digits := NatToString(position);
      NatToStringSpec(position);
      var location := sourceFile + ":" + digits;
      assert LocationText(sourceFile, position) == location;
      var c := |sourceFile|;
      assert location[c] == ':';
      forall j | c < j < |location| ensures location[j] != ':' {
        assert location[j] == digits[j - c - 1];
        assert IsDigit(digits[j - c - 1]);
      }
      LastIndexOfBeforeIs(location, ':', |location|, c);
      assert location[..c] == sourceFile;
      assert location[c + 1..] == digits;
      ParseRendered(position);
    } else {
      assert LocationText(sourceFile, position) == sourceFile;
      LocationSplit(sourceFile);
    }
  }

  /** The index where the exception class starts, or -1 (RetraceWrapper.java:472-489). */
  function IndexOfExceptionStart(line: string): (r: int)
    ensures r == -1 || 0 < r <= |line|
  {
    var i := IndexOfSub(line, EscapingExceptionMarker, 0);
    var quote := if i < 0 then -1 else IndexOfSub(line, QuoteSpace, i + |EscapingExceptionMarker|);
    if quote > 0 then quote
    else
      var c := IndexOfSub(line, CausedByExceptionMarker, 0);
      if c >= 0 then c + |CausedByExceptionMarker|
      else
        var s := IndexOfSub(line, SuppressedExceptionMarker, 0);
        if s >= 0 then s + |SuppressedExceptionMarker| else -1
  }

  /** tryParseExceptionLine (RetraceWrapper.java:491-502). */
  function TryParseExceptionLine(line: string): (r: Option<ExceptionLine>)
  {
    ExceptionFrom(line, IndexOfExceptionStart(line))
  }

  /** The exception line whose class starts at `start`: up to the first ':' from there, if any. */
  function ExceptionFrom(line: string, start: int): Option<ExceptionLine>
    requires start <= |line|
  {
    if start < 0 then None
    else
      var end := IndexOfChar(line, ':', start);
      if end < 0 then None
      else Some(ExceptionLine(LineWithHole(line, start, end), line[start..end]))
  }

  /**
   * The outcome of tryParseExceptionLine: nothing exactly when no marker is
   * found or no ':' follows it; otherwise the exception class runs from the
   * end of the marker up to the first ':' after it, right after a space.
   */
  lemma ExceptionParseOutcome(line: string)
    ensures
      var start := IndexOfExceptionStart(line);
      TryParseExceptionLine(line).None? <==> start < 0 || ':' !in line[start..]
    ensures TryParseExceptionLine(line).Some? ==>
      var e := TryParseExceptionLine(line).value;
      && e.hole.line == line && e.hole.Valid() && e.hole.SpacedPrefix()
      && e.hole.start == IndexOfExceptionStart(line)
      && e.hole.end < |line| && line[e.hole.end] == ':'
      && e.exception == line[e.hole.start..e.hole.end]
      && ':' !in e.exception
  {
    var start := IndexOfExceptionStart(line);
    ExceptionFromOutcome(line, start);
    if start >= 0 {
      ExceptionStartSpaced(line);
    }
  }

  /** The exception line read from a given start: up to the first ':' after it, if any. */
  lemma ExceptionFromOutcome(line: string, start: int)
    requires start <= |line|
    ensures ExceptionFrom(line, start).None? <==> start < 0 || ':' !in line[start..]
    ensures ExceptionFrom(line, start).Some? ==>
      var e := ExceptionFrom(line, start).value;
      && e.hole == LineWithHole(line, start, e.hole.end) && e.hole.Valid()
      && e.hole.end < |line| && line[e.hole.end] == ':'
      && e.exception == line[start..e.hole.end]
      && ':' !in e.exception
  {
    if start >= 0 {
      var end := IndexOfChar(line, ':', start);
      if end < 0 {
        assert forall k :: 0 <= k < |line[start..]| ==> line[start..][k] == line[start + k];
      } else {
        assert ':' in line[start..] by { assert line[start..][end - start] == ':'; }
        assert forall k :: 0 <= k < end - start ==> line[start..end][k] == line[start + k];
      }
    }
  }

  /** The exception line of a known start, when the class up to the ':' holds no ':'. */
  lemma ExceptionAt(line: string, start: nat, cls: string)
    requires ':' !in cls && OccursAt(line, cls + ":", start)
    ensures ExceptionFrom(line, start) == Some(ExceptionLine(LineWithHole(line, start, start + |cls|), cls))
  {
    var e := start + |cls|;
    assert line[start..e + 1] == cls + ":";
    assert line[e] == (cls + ":")[|cls|];
    forall j | start <= j < e ensures line[j] != ':' {
      assert line[j] == line[start..e + 1][j - start] == cls[j - start];
    }
    IndexOfCharIs(line, ':', start, e);
    assert line[start..e] == line[start..e + 1][..|cls|];
  }

  /**
   * A line holding `Caused by: <class>:` at `at`, with no escaping-exception
   * marker anywhere and no earlier "Caused by: ", parses to the class written
   * after the marker.
   */
  lemma CausedByRoundTrip(line: string, at: nat, cls: string)
    requires OccursAt(line, CausedByExceptionMarker + cls + ":", at)
    requires forall k: nat :: k < at ==> !OccursAt(line, CausedByExceptionMarker, k)
    requires forall k: nat :: !OccursAt(line, EscapingExceptionMarker, k)
    requires ':' !in cls
    ensures IndexOfExceptionStart(line) == at + |CausedByExceptionMarker|
    ensures
      var start := at + |CausedByExceptionMarker|;
      TryParseExceptionLine(line) == Some(ExceptionLine(LineWithHole(line, start, start + |cls|), cls))
  {
    MarkerThenClass(line, CausedByExceptionMarker, cls, at);
    IndexOfSubIs(line, CausedByExceptionMarker, 0, at);
    ParseAt(line, at + |CausedByExceptionMarker|, cls);
  }

  /**
   * A line holding `Suppressed: <class>:` at `at`, with neither an
   * escaping-exception marker nor "Caused by: " anywhere and no earlier
   * "Suppressed: ", parses to the class written after the marker.
   */
  lemma SuppressedRoundTrip(line: string, at: nat, cls: string)
    requires OccursAt(line, SuppressedExceptionMarker + cls + ":", at)
    requires forall k: nat :: k < at ==> !OccursAt(line, SuppressedExceptionMarker, k)
    requires forall k: nat :: !OccursAt(line, EscapingExceptionMarker, k)
    requires forall k: nat :: !OccursAt(line, CausedByExceptionMarker, k)
    requires ':' !in cls
    ensures IndexOfExceptionStart(line) == at + |SuppressedExceptionMarker|
    ensures
      var start := at + |SuppressedExceptionMarker|;
      TryParseExceptionLine(line) == Some(ExceptionLine(LineWithHole(line, start, start + |cls|), cls))
  {
    MarkerThenClass(line, SuppressedExceptionMarker, cls, at);
    IndexOfSubIs(line, SuppressedExceptionMarker, 0, at);
    ParseAt(line, at + |SuppressedExceptionMarker|, cls);
  }

  /**
   * A line holding the escaping-exception marker first at `i` and the closing
   * `" ` first after it at `quote`, followed by `<class>:`, starts the class at
   * the closing quote: the exception read is `" <class>`.
   */
  lemma EscapingRoundTrip(line: string, i: nat, quote: nat, cls: string)
    requires OccursAt(line, EscapingExceptionMarker, i)
    requires forall k: nat :: k < i ==> !OccursAt(line, EscapingExceptionMarker, k)
    requires i + |EscapingExceptionMarker| <= quote && OccursAt(line, QuoteSpace + cls + ":", quote)
    requires forall k: nat :: i + |EscapingExceptionMarker| <= k < quote ==> !OccursAt(line, QuoteSpace, k)
    requires ':' !in cls
    ensures IndexOfExceptionStart(line) == quote
    ensures
      TryParseExceptionLine(line)
      == Some(ExceptionLine(LineWithHole(line, quote, quote + |QuoteSpace| + |cls|), QuoteSpace + cls))
  {
    EscapingQuoteAt(line, i, quote, cls);
    QuotedHasNoColon(cls);
    ParseAt(line, quote, QuoteSpace + cls);
  }

  /** Where the class of such an escaping-exception line starts: at the closing quote. */
  lemma EscapingQuoteAt(line: string, i: nat, quote: nat, cls: string)
    requires OccursAt(line, EscapingExceptionMarker, i)
    requires forall k: nat :: k < i ==> !OccursAt(line, EscapingExceptionMarker, k)
    requires i + |EscapingExceptionMarker| <= quote && OccursAt(line, QuoteSpace + cls + ":", quote)
    requires forall k: nat :: i + |EscapingExceptionMarker| <= k < quote ==> !OccursAt(line, QuoteSpace, k)
    ensures IndexOfExceptionStart(line) == quote
  {
    MarkerThenClass(line, QuoteSpace, cls, quote);
    IndexOfSubIs(line, EscapingExceptionMarker, 0, i);
    IndexOfSubIs(line, QuoteSpace, i + |EscapingExceptionMarker|, quote);
    EscapingStart(line, i, quote);
  }

  /** `<m><cls>:` at `at` is `m` at `at` followed by `<cls>:`. */
  lemma MarkerThenClass(line: string, m: string, cls: string, at: nat)
    requires OccursAt(line, m + cls + ":", at)
    ensures OccursAt(line, m, at) && OccursAt(line, cls + ":", at + |m|)
  {
    var w := m + cls + ":";
    assert line[at..at + |m|] == line[at..at + |w|][..|m|];
    assert line[at + |m|..at + |w|] == line[at..at + |w|][|m|..];
  }

  /** A line whose class starts at `start` and runs up to the first ':' parses to that class. */
  lemma ParseAt(line: string, start: nat, cls: string)
    requires OccursAt(line, cls + ":", start)
    requires IndexOfExceptionStart(line) == start
    requires ':' !in cls
    ensures TryParseExceptionLine(line) == Some(ExceptionLine(LineWithHole(line, start, start + |cls|), cls))
  {
    ExceptionAt(line, start, cls);
  }

  /** The class read after the closing quote, `" <class>`, holds no ':' when the class holds none. */
  lemma QuotedHasNoColon(cls: string)
    requires ':' !in cls
    ensures ':' !in QuoteSpace + cls
  {
  }

  /** The escaping marker at `i` followed by `" ` at `quote` starts the class at `quote`. */
  lemma EscapingStart(line: string, i: nat, quote: nat)
    requires IndexOfSub(line, EscapingExceptionMarker, 0) == i
    requires i + |EscapingExceptionMarker| <= |line|
    requires IndexOfSub(line, QuoteSpace, i + |EscapingExceptionMarker|) == quote > 0
    ensures IndexOfExceptionStart(line) == quote
  {
  }

  /** Every exception marker holds a space before the point where the class starts. */
  lemma ExceptionStartSpaced(line: string)
    requires IndexOfExceptionStart(line) >= 0
    ensures LineWithHole(line, IndexOfExceptionStart(line), IndexOfExceptionStart(line)).SpacedPrefix()
  {
    var start := IndexOfExceptionStart(line);
    var i := IndexOfSub(line, EscapingExceptionMarker, 0);
    var quote := if i < 0 then -1 else IndexOfSub(line, QuoteSpace, i + |EscapingExceptionMarker|);
    if quote > 0 {
      MarkerSpace(line, EscapingExceptionMarker, i, 9);
    } else {
      var c := IndexOfSub(line, CausedByExceptionMarker, 0);
      if c >= 0 {
        MarkerSpace(line, CausedByExceptionMarker, c, 10);
      } else {
        var s := IndexOfSub(line, SuppressedExceptionMarker, 0);
        MarkerSpace(line, SuppressedExceptionMarker, s, 11);
      }
    }
  }

  /** A marker occurring at `i` puts its own space at `i + k` into the line. */
  lemma MarkerSpace(line: string, marker: string, i: nat, k: nat)
    requires OccursAt(line, marker, i) && k < |marker| && marker[k] == ' '
    ensures i + k < |line| && line[i + k] == ' '
  {
    assert line[i..i + |marker|][k] == line[i + k];
  }
}
