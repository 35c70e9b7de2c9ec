/**
 * How one block of a stack trace (an optional exception line and a run of
 * frames) is rebuilt with a retracer (RetraceWrapper.java:284-299, 585-704).
 * The R8 retracer itself is an oracle: for a thrown class it yields the
 * candidate original classes, each with a context, and for a frame seen in a
 * context it yields the candidate elements, each a chain of rewritten frames
 * and the context for the next frame. Every candidate path becomes a chain of
 * result nodes, printed from the root to the leaf.
 */
module Reconstruction {
  import opened Wrappers
  import opened JavaString
  import opened Sequences
  import opened StackLines
  import opened Console

  /** RetraceStackTraceContext: what the retracer carries from one frame to the next. */
  datatype Context = EmptyContext | Context(tag: nat)

  /** One rewritten frame: holder class, method, source file and original position (-1 when unknown). */
  datatype RetracedFrame = RetracedFrame(holder: string, methodName: string, sourceFile: string, position: int)

  /** One candidate for a frame: the frames it rewrites to, in order, and the context after it. */
  datatype FrameElement = FrameElement(rewritten: seq<RetracedFrame>, next: Context)

  /** One candidate for a thrown class: its original name and the context it starts. */
  datatype ThrownElement = ThrownElement(typeName: string, context: Context)

  /** The retracer built from one mapping file. */
  datatype Retracer = Retracer(
    thrown: string -> seq<ThrownElement>,
    frame: (Context, Option<int>, string, string) -> seq<FrameElement>)

  /** ResultNode: a line and the node printed before it; a missing parent is a root. */
  datatype Node = Node(parent: Option<Node>, line: string)

  /** What printing a node prints: its ancestors from the root, then its own line. */
  function Printed(n: Option<Node>): seq<string>
  {
    if n.None? then [] else Printed(n.value.parent) + [n.value.line]
  }

  /** ResultLinker.link for each line in turn: each new node hangs below the previous one. */
  function Link(parent: Option<Node>, lines: seq<string>): Option<Node>
    decreases |lines|
  {
    if lines == [] then parent else Link(Some(Node(parent, lines[0])), lines[1..])
  }

  /** Frames whose holes can be plugged, each hole right after a space. */
  predicate ValidFrames(frames: seq<FrameLine>)
  {
    forall k :: 0 <= k < |frames| ==> frames[k].hole.Valid() && frames[k].hole.SpacedPrefix()
  }

  /** The frame line with its hole replaced by a rewritten frame. */
  function RenderFrame(f: FrameLine, r: RetracedFrame): string
    requires f.hole.Valid()
  {
    f.hole.Plug(FrameText(r.holder, r.methodName, r.sourceFile, r.position))
  }

  /** One line per rewritten frame, in order. */
  function Rendered(f: FrameLine, rs: seq<RetracedFrame>): (lines: seq<string>)
    requires f.hole.Valid()
  {
    if rs == [] then [] else [RenderFrame(f, rs[0])] + Rendered(f, rs[1..])
  }

  /**
   * retraceFrameRecursive: past the last frame the path ends in its parent;
   * otherwise each element of the frame continues the path, in order.
   */
  function FrameResults(engine: Retracer, context: Context, parent: Option<Node>, i: nat, frames: seq<FrameLine>)
    : seq<Option<Node>>
    requires ValidFrames(frames)
    decreases |frames| - i, 1, 0
  {
    if i >= |frames| then [parent]
    else
      var f := frames[i];
      ElementResults(engine, engine.frame(context, f.lineNumber, f.clazz, f.methodName), parent, i, frames)
  }

  /** The flatMap over the elements of frame i. */
  function ElementResults(engine: Retracer, elements: seq<FrameElement>, parent: Option<Node>, i: nat,
                          frames: seq<FrameLine>): seq<Option<Node>>
    requires ValidFrames(frames) && i < |frames|
    decreases |frames| - i, 0, |elements|
  {
    if elements == [] then []
    else
      FrameResults(engine, elements[0].next, Link(parent, Rendered(frames[i], elements[0].rewritten)), i + 1, frames)
      + ElementResults(engine, elements[1..], parent, i, frames)
  }

  /**
   * retraceOptionalExceptionLine: without an exception line one path starts in
   * the empty context; with one, each candidate class starts a root of its own.
   */
  function Roots(engine: Retracer, exceptionLine: Option<ExceptionLine>): seq<(Context, Option<Node>)>
    requires exceptionLine.Some? ==> exceptionLine.value.hole.Valid()
  {
    if exceptionLine.None? then [(EmptyContext, None)]
    else ThrownRoots(exceptionLine.value, engine.thrown(exceptionLine.value.exception))
  }

  function ThrownRoots(e: ExceptionLine, elements: seq<ThrownElement>): (roots: seq<(Context, Option<Node>)>)
    requires e.hole.Valid()
  {
    if elements == [] then []
    else [(elements[0].context, Some(Node(None, e.hole.Plug(elements[0].typeName))))] + ThrownRoots(e, elements[1..])
  }

  /** The result nodes of every root, root by root. */
  function RootResults(engine: Retracer, roots: seq<(Context, Option<Node>)>, frames: seq<FrameLine>)
    : seq<Option<Node>>
    requires ValidFrames(frames)
  {
    if roots == [] then []
    else FrameResults(engine, roots[0].0, roots[0].1, 0, frames) + RootResults(engine, roots[1..], frames)
  }

  /** finalResultNodes of retraceStackTrace. */
  function Results(engine: Retracer, exceptionLine: Option<ExceptionLine>, frames: seq<FrameLine>)
    : seq<Option<Node>>
    requires ValidFrames(frames)
    requires exceptionLine.Some? ==> exceptionLine.value.hole.Valid()
  {
    RootResults(engine, Roots(engine, exceptionLine), frames)
  }

  /** printIdentityStackTrace: the lines of the block as they were read. */
  function IdentityLines(exceptionLine: Option<ExceptionLine>, frames: seq<FrameLine>): seq<string>
  {
    (if exceptionLine.Some? then [exceptionLine.value.hole.line] else []) + FrameTexts(frames)
  }

  function FrameTexts(frames: seq<FrameLine>): seq<string>
  {
    if frames == [] then [] else [frames[0].hole.line] + FrameTexts(frames[1..])
  }

  /** The line printed before more than one result. */
  function Banner(count: nat, location: string): string
  {
    "Printing " + NatToString(count) + BannerMiddle + location + BannerEnd
  }

  const BannerMiddle: string :=
    " ambiguous stacks separated by <OR>.\n"
    + "If this is unexpected, please file a bug on R8 and attach the "
    + "content of the raw stack trace and the mapping file: "

  const BannerEnd: string := "\nPublic tracker at https://issuetracker.google.com/issues/new?component=326788"

  const Separator: string := "<OR>"

  /**
   * The results from index i on, each after a separator but the first; a
   * missing node fails with a NullPointerException after its separator.
   */
  function Separated(results: seq<Option<Node>>, i: nat): (seq<string>, Option<Abort>)
    decreases |results| - i
  {
    if i >= |results| then ([], None)
    else
      var sep := if i > 0 then [Separator] else [];
      if results[i].None? then (sep, Some(NullPointer))
      else
        var rest := Separated(results, i + 1);
        (sep + Printed(results[i]) + rest.0, rest.1)
  }

  /** What retraceStackTrace prints once it has a retracer, and whether it fails. */
  function BlockOutput(results: seq<Option<Node>>, exceptionLine: Option<ExceptionLine>, frames: seq<FrameLine>,
                       location: string): (seq<string>, Option<Abort>)
  {
    if results == [] then (IdentityLines(exceptionLine, frames), None)
    else
      var banner := if |results| > 1 then [Banner(|results|, location)] else [];
      var printed := Separated(results, 0);
      (banner + printed.0, printed.1)
  }

  /** The lines of each result, in order. */
  function Branches(results: seq<Option<Node>>): (branches: seq<seq<string>>)
    ensures |branches| == |results|
  {
    if results == [] then [] else [Printed(results[0])] + Branches(results[1..])
  }

  /** Every printed line of the node holds a space. */
  predicate Spaced(n: Option<Node>)
  {
    forall k :: 0 <= k < |Printed(n)| ==> ' ' in Printed(n)[k]
  }

  // ---------------------------------------------------------------------------
  // Properties of the reconstruction

  /** Linking appends the lines, in order, below what the parent prints. */
  lemma {:induction false} PrintedLink(parent: Option<Node>, lines: seq<string>)
    ensures Printed(Link(parent, lines)) == Printed(parent) + lines
    decreases |lines|
  {
    if lines != [] {
      PrintedLink(Some(Node(parent, lines[0])), lines[1..]);
      assert Printed(parent) + [lines[0]] + lines[1..] == Printed(parent) + lines;
    }
  }

  /** Linking below a node never gives a missing node. */
  lemma {:induction false} LinkPresent(parent: Option<Node>, lines: seq<string>)
    requires parent.Some? || lines != []
    ensures Link(parent, lines).Some?
    decreases |lines|
  {
    if lines != [] {
      LinkPresent(Some(Node(parent, lines[0])), lines[1..]);
    }
  }

  lemma {:induction false} RenderedLength(f: FrameLine, rs: seq<RetracedFrame>)
    requires f.hole.Valid()
    ensures |Rendered(f, rs)| == |rs|
  {
    if rs != [] {
      RenderedLength(f, rs[1..]);
    }
  }

  /** Each rendered line keeps the frame line's prefix, so it holds a space. */
  lemma {:induction false} RenderedSpaced(f: FrameLine, rs: seq<RetracedFrame>)
    requires f.hole.Valid() && f.hole.SpacedPrefix()
    ensures forall k :: 0 <= k < |Rendered(f, rs)| ==> ' ' in Rendered(f, rs)[k]
  {
    if rs != [] {
      RenderedSpaced(f, rs[1..]);
      PlugSplices(f.hole, FrameText(rs[0].holder, rs[0].methodName, rs[0].sourceFile, rs[0].position));
      var lines := Rendered(f, rs);
      forall k | 0 <= k < |lines| ensures ' ' in lines[k] {
        if k > 0 {
          assert lines[k] == Rendered(f, rs[1..])[k - 1];
        }
      }
    }
  }

  /**
   * Every result of a path extends what its parent prints, and a path that
   * starts below a node never ends in a missing node.
   */
  lemma {:induction false} FrameResultsExtend(engine: Retracer, context: Context, parent: Option<Node>, i: nat,
                                              frames: seq<FrameLine>)
    requires ValidFrames(frames)
    ensures forall k :: 0 <= k < |FrameResults(engine, context, parent, i, frames)| ==>
              && Printed(parent) <= Printed(FrameResults(engine, context, parent, i, frames)[k])
              && (parent.Some? ==> FrameResults(engine, context, parent, i, frames)[k].Some?)
    decreases |frames| - i, 1, 0
  {
    if i < |frames| {
      var f := frames[i];
      ElementResultsExtend(engine, engine.frame(context, f.lineNumber, f.clazz, f.methodName), parent, i, frames);
    }
  }

  lemma {:induction false} ElementResultsExtend(engine: Retracer, elements: seq<FrameElement>, parent: Option<Node>,
                                                i: nat, frames: seq<FrameLine>)
    requires ValidFrames(frames) && i < |frames|
    ensures forall k :: 0 <= k < |ElementResults(engine, elements, parent, i, frames)| ==>
              && Printed(parent) <= Printed(ElementResults(engine, elements, parent, i, frames)[k])
              && (parent.Some? ==> ElementResults(engine, elements, parent, i, frames)[k].Some?)
    decreases |frames| - i, 0, |elements|
  {
    if elements != [] {
      var linked := Link(parent, Rendered(frames[i], elements[0].rewritten));
      PrintedLink(parent, Rendered(frames[i], elements[0].rewritten));
      if parent.Some? {
        LinkPresent(parent, Rendered(frames[i], elements[0].rewritten));
      }
      var first := FrameResults(engine, elements[0].next, linked, i + 1, frames);
      var rest := ElementResults(engine, elements[1..], parent, i, frames);
      FrameResultsExtend(engine, elements[0].next, linked, i + 1, frames);
      ElementResultsExtend(engine, elements[1..], parent, i, frames);
      var all := ElementResults(engine, elements, parent, i, frames);
      assert all == first + rest;
      forall k | 0 <= k < |all|
        ensures Printed(parent) <= Printed(all[k]) && (parent.Some? ==> all[k].Some?)
      {
        if k < |first| {
          assert all[k] == first[k];
          assert Printed(linked) <= Printed(first[k]);
        } else {
          assert all[k] == rest[k - |first|];
        }
      }
    }
  }

  /** Paths starting below lines that hold a space print only such lines. */
  lemma {:induction false} FrameResultsSpaced(engine: Retracer, context: Context, parent: Option<Node>, i: nat,
                                              frames: seq<FrameLine>)
    requires ValidFrames(frames) && Spaced(parent)
    ensures forall k :: 0 <= k < |FrameResults(engine, context, parent, i, frames)| ==>
              Spaced(FrameResults(engine, context, parent, i, frames)[k])
    decreases |frames| - i, 1, 0
  {
    if i < |frames| {
      var f := frames[i];
      ElementResultsSpaced(engine, engine.frame(context, f.lineNumber, f.clazz, f.methodName), parent, i, frames);
    }
  }

  lemma {:induction false} ElementResultsSpaced(engine: Retracer, elements: seq<FrameElement>, parent: Option<Node>,
                                                i: nat, frames: seq<FrameLine>)
    requires ValidFrames(frames) && i < |frames| && Spaced(parent)
    ensures forall k :: 0 <= k < |ElementResults(engine, elements, parent, i, frames)| ==>
              Spaced(ElementResults(engine, elements, parent, i, frames)[k])
    decreases |frames| - i, 0, |elements|
  {
    if elements != [] {
      var lines := Rendered(frames[i], elements[0].rewritten);
      var linked := Link(parent, lines);
      PrintedLink(parent, lines);
      RenderedSpaced(frames[i], elements[0].rewritten);
      assert Spaced(linked) by {
        forall k | 0 <= k < |Printed(linked)| ensures ' ' in Printed(linked)[k] {
          if k < |Printed(parent)| {
            assert Printed(linked)[k] == Printed(parent)[k];
          } else {
            assert Printed(linked)[k] == lines[k - |Printed(parent)|];
          }
        }
      }
      var first := FrameResults(engine, elements[0].next, linked, i + 1, frames);
      var rest := ElementResults(engine, elements[1..], parent, i, frames);
      FrameResultsSpaced(engine, elements[0].next, linked, i + 1, frames);
      ElementResultsSpaced(engine, elements[1..], parent, i, frames);
      var all := ElementResults(engine, elements, parent, i, frames);
      assert all == first + rest;
      forall k | 0 <= k < |all| ensures Spaced(all[k]) {
        if k < |first| {
          assert all[k] == first[k];
        } else {
          assert all[k] == rest[k - |first|];
        }
      }
    }
  }

  /** Every element of every frame rewrites to exactly one frame. */
  ghost predicate OneToOne(engine: Retracer)
  {
    forall c, n, cl, m, k :: 0 <= k < |engine.frame(c, n, cl, m)| ==> |engine.frame(c, n, cl, m)[k].rewritten| == 1
  }

  /** When each frame rewrites to one frame, every path adds exactly one line per remaining frame. */
  lemma {:induction false} OneLinePerFrame(engine: Retracer, context: Context, parent: Option<Node>, i: nat,
                                           frames: seq<FrameLine>)
    requires ValidFrames(frames) && OneToOne(engine) && i <= |frames|
    ensures forall k :: 0 <= k < |FrameResults(engine, context, parent, i, frames)| ==>
              |Printed(FrameResults(engine, context, parent, i, frames)[k])| == |Printed(parent)| + |frames| - i
    decreases |frames| - i, 1, 0
  {
    if i < |frames| {
      var f := frames[i];
      ElementLinePerFrame(engine, engine.frame(context, f.lineNumber, f.clazz, f.methodName),
                          context, f.lineNumber, f.clazz, f.methodName, 0, parent, i, frames);
    }
  }

  lemma {:induction false} ElementLinePerFrame(engine: Retracer, elements: seq<FrameElement>,
                                               c: Context, n: Option<int>, cl: string, m: string, skip: nat,
                                               parent: Option<Node>, i: nat, frames: seq<FrameLine>)
    requires ValidFrames(frames) && OneToOne(engine) && i < |frames|
    requires skip <= |engine.frame(c, n, cl, m)| && elements == engine.frame(c, n, cl, m)[skip..]
    ensures forall k :: 0 <= k < |ElementResults(engine, elements, parent, i, frames)| ==>
              |Printed(ElementResults(engine, elements, parent, i, frames)[k])| == |Printed(parent)| + |frames| - i
    decreases |frames| - i, 0, |elements|
  {
    if elements != [] {
      assert elements[0] == engine.frame(c, n, cl, m)[skip];
      var lines := Rendered(frames[i], elements[0].rewritten);
      var linked := Link(parent, lines);
      PrintedLink(parent, lines);
      RenderedLength(frames[i], elements[0].rewritten);
      var first := FrameResults(engine, elements[0].next, linked, i + 1, frames);
      var rest := ElementResults(engine, elements[1..], parent, i, frames);
      OneLinePerFrame(engine, elements[0].next, linked, i + 1, frames);
      assert elements[1..] == engine.frame(c, n, cl, m)[skip + 1..];
      ElementLinePerFrame(engine, elements[1..], c, n, cl, m, skip + 1, parent, i, frames);
      var all := ElementResults(engine, elements, parent, i, frames);
      assert all == first + rest;
      forall k | 0 <= k < |all| ensures |Printed(all[k])| == |Printed(parent)| + |frames| - i {
        if k < |first| {
          assert all[k] == first[k];
        } else {
          assert all[k] == rest[k - |first|];
        }
      }
    }
  }

  /** A frame the retracer has no element for, in any context, leaves no result at all. */
  lemma {:induction false} UnretraceableFrame(engine: Retracer, context: Context, parent: Option<Node>, i: nat,
                                              frames: seq<FrameLine>, j: nat)
    requires ValidFrames(frames) && i <= j < |frames|
    requires forall c :: engine.frame(c, frames[j].lineNumber, frames[j].clazz, frames[j].methodName) == []
    ensures FrameResults(engine, context, parent, i, frames) == []
    decreases |frames| - i, 1, 0
  {
    var f := frames[i];
    ElementsUnretraceable(engine, engine.frame(context, f.lineNumber, f.clazz, f.methodName), parent, i, frames, j);
  }

  lemma {:induction false} ElementsUnretraceable(engine: Retracer, elements: seq<FrameElement>, parent: Option<Node>,
                                                 i: nat, frames: seq<FrameLine>, j: nat)
    requires ValidFrames(frames) && i <= j < |frames|
    requires forall c :: engine.frame(c, frames[j].lineNumber, frames[j].clazz, frames[j].methodName) == []
    requires i == j ==> elements == []
    ensures ElementResults(engine, elements, parent, i, frames) == []
    decreases |frames| - i, 0, |elements|
  {
    if elements != [] {
      UnretraceableFrame(engine, elements[0].next, Link(parent, Rendered(frames[i], elements[0].rewritten)),
                         i + 1, frames, j);
      ElementsUnretraceable(engine, elements[1..], parent, i, frames, j);
    }
  }

  /** With an exception line every root is a node, so every result is one and prints only spaced lines. */
  lemma ExceptionResultsPresent(engine: Retracer, e: ExceptionLine, frames: seq<FrameLine>)
    requires ValidFrames(frames) && e.hole.Valid() && e.hole.SpacedPrefix()
    ensures forall k :: 0 <= k < |Results(engine, Some(e), frames)| ==>
              Results(engine, Some(e), frames)[k].Some? && Spaced(Results(engine, Some(e), frames)[k])
  {
    var roots := Roots(engine, Some(e));
    var thrown := engine.thrown(e.exception);
    ThrownRootsShape(e, thrown);
    forall k | 0 <= k < |roots| ensures roots[k].1.Some? && Spaced(roots[k].1) {
      PlugSplices(e.hole, thrown[k].typeName);
      assert Printed(roots[k].1) == [e.hole.Plug(thrown[k].typeName)];
    }
    RootResultsPresent(engine, roots, frames);
  }

  /** Each candidate class of the exception starts its own root: a lone node holding the plugged line. */
  lemma {:induction false} ThrownRootsShape(e: ExceptionLine, elements: seq<ThrownElement>)
    requires e.hole.Valid()
    ensures |ThrownRoots(e, elements)| == |elements|
    ensures forall k :: 0 <= k < |elements| ==>
              ThrownRoots(e, elements)[k] == (elements[k].context, Some(Node(None, e.hole.Plug(elements[k].typeName))))
  {
    if elements != [] {
      ThrownRootsShape(e, elements[1..]);
      var roots := ThrownRoots(e, elements);
      forall k | 1 <= k < |elements|
        ensures roots[k] == (elements[k].context, Some(Node(None, e.hole.Plug(elements[k].typeName))))
      {
        assert roots[k] == ThrownRoots(e, elements[1..])[k - 1];
      }
    }
  }

  lemma {:induction false} RootResultsPresent(engine: Retracer, roots: seq<(Context, Option<Node>)>,
                                              frames: seq<FrameLine>)
    requires ValidFrames(frames)
    requires forall k :: 0 <= k < |roots| ==> roots[k].1.Some? && Spaced(roots[k].1)
    ensures forall k :: 0 <= k < |RootResults(engine, roots, frames)| ==>
              RootResults(engine, roots, frames)[k].Some? && Spaced(RootResults(engine, roots, frames)[k])
  {
    if roots != [] {
      var first := FrameResults(engine, roots[0].0, roots[0].1, 0, frames);
      FrameResultsExtend(engine, roots[0].0, roots[0].1, 0, frames);
      FrameResultsSpaced(engine, roots[0].0, roots[0].1, 0, frames);
      RootResultsPresent(engine, roots[1..], frames);
      var all := RootResults(engine, roots, frames);
      forall k | 0 <= k < |all| ensures all[k].Some? && Spaced(all[k]) {
        if k < |first| {
          assert all[k] == first[k];
        } else {
          assert all[k] == RootResults(engine, roots[1..], frames)[k - |first|];
        }
      }
    }
  }

  /** A missing result node makes printing fail, and only then. */
  lemma {:induction false} SeparatedFails(results: seq<Option<Node>>, i: nat)
    ensures Separated(results, i).1.Some? <==> exists k :: i <= k < |results| && results[k].None?
    ensures Separated(results, i).1.Some? ==> Separated(results, i).1 == Some(NullPointer)
    decreases |results| - i
  {
    if i < |results| && results[i].Some? {
      SeparatedFails(results, i + 1);
      if exists k :: i <= k < |results| && results[k].None? {
        var k :| i <= k < |results| && results[k].None?;
        assert k > i;
      }
    }
  }

  /**
   * Results that are all present and print only spaced lines are printed as
   * their branches joined by separator lines: splitting the output at the
   * separators gives the branches back, and there is one separator fewer than
   * branches.
   */
  lemma SeparatedBranches(results: seq<Option<Node>>)
    requires |results| >= 1
    requires forall k :: 0 <= k < |results| ==> results[k].Some? && Spaced(results[k])
    ensures Separated(results, 0) == (JoinWith(Branches(results), Separator), None)
    ensures SplitOn(Separated(results, 0).0, Separator) == Branches(results)
    ensures Count(Separated(results, 0).0, Separator) == |results| - 1
  {
    SeparatedJoin(results, 0);
    assert results[0..] == results;
    assert [] + JoinWith(Branches(results), Separator) == JoinWith(Branches(results), Separator);
    var branches := Branches(results);
    BranchesUnseparated(results);
    SplitJoin(branches, Separator);
    CountJoin(branches, Separator);
  }

  /** Branches of spaced results never hold a bare separator line. */
  lemma {:induction false} BranchesUnseparated(results: seq<Option<Node>>)
    requires forall k :: 0 <= k < |results| ==> Spaced(results[k])
    ensures forall k :: 0 <= k < |results| ==> Separator !in Branches(results)[k]
  {
    if results != [] {
      BranchesUnseparated(results[1..]);
      assert ' ' !in Separator;
      var branches := Branches(results);
      forall k | 0 <= k < |results| ensures Separator !in branches[k] {
        if k == 0 {
          assert Spaced(results[0]);
        } else {
          assert branches[k] == Branches(results[1..])[k - 1];
          assert Spaced(results[1..][k - 1]);
        }
      }
    }
  }

  lemma {:induction false} BranchesAt(results: seq<Option<Node>>, k: nat)
    requires k < |results|
    ensures Branches(results)[k] == Printed(results[k])
  {
    if k > 0 {
      BranchesAt(results[1..], k - 1);
    }
  }

  lemma {:induction false} SeparatedJoin(results: seq<Option<Node>>, i: nat)
    requires i < |results|
    requires forall k :: 0 <= k < |results| ==> results[k].Some?
    ensures Separated(results, i) == ((if i > 0 then [Separator] else []) + JoinWith(Branches(results[i..]), Separator), None)
    decreases |results| - i
  {
    var tail := results[i..];
    assert tail[0] == results[i];
    if i + 1 < |results| {
      SeparatedJoin(results, i + 1);
      assert tail[1..] == results[i + 1..];
      var sep := if i > 0 then [Separator] else [];
      var rest := JoinWith(Branches(results[i + 1..]), Separator);
      assert JoinWith(Branches(tail), Separator) == Printed(results[i]) + [Separator] + rest;
      assert sep + Printed(results[i]) + ([Separator] + rest) == sep + (Printed(results[i]) + [Separator] + rest);
    } else {
      assert tail == [results[i]];
      assert Branches(tail) == [Printed(results[i])];
      assert Separated(results, i + 1) == ([], None);
      assert JoinWith(Branches(tail), Separator) == Printed(results[i]);
      var sep := if i > 0 then [Separator] else [];
      assert sep + Printed(results[i]) + [] == sep + Printed(results[i]);
    }
  }

  /**
   * A block with an exception line never fails while printing; with more than
   * one result it prints the banner and then the results, one per branch,
   * with one separator fewer than results.
   */
  lemma AmbiguousExceptionBlock(engine: Retracer, e: ExceptionLine, frames: seq<FrameLine>, location: string)
    requires ValidFrames(frames) && e.hole.Valid() && e.hole.SpacedPrefix()
    ensures BlockOutput(Results(engine, Some(e), frames), Some(e), frames, location).1 == None
    ensures |Results(engine, Some(e), frames)| > 1 ==>
              var out := BlockOutput(Results(engine, Some(e), frames), Some(e), frames, location).0;
              && out[0] == Banner(|Results(engine, Some(e), frames)|, location)
              && SplitOn(out[1..], Separator) == Branches(Results(engine, Some(e), frames))
              && Count(out[1..], Separator) == |Results(engine, Some(e), frames)| - 1
  {
    var results := Results(engine, Some(e), frames);
    ExceptionResultsPresent(engine, e, frames);
    if results != [] {
      SeparatedBranches(results);
      if |results| > 1 {
        var out := BlockOutput(results, Some(e), frames, location).0;
        assert out == [Banner(|results|, location)] + Separated(results, 0).0;
        assert out[1..] == Separated(results, 0).0;
      }
    }
  }

  // ---------------------------------------------------------------------------
  // The reconstruction as the source runs it

  /** ResultNode.print: the ancestors first, then the node's own line. */
  method PrintNode(node: Node, console: Console)
    modifies console
    ensures console.out == old(console.out) + Printed(Some(node))
    ensures console.err == old(console.err) && console.pending == old(console.pending)
    decreases node
  {
    if node.parent.Some? {
      PrintNode(node.parent.value, console);
    }
    console.Println(node.line);
  }

  /** printIdentityStackTrace. */
  method PrintIdentity(exceptionLine: Option<ExceptionLine>, frames: seq<FrameLine>, console: Console)
    modifies console
    ensures console.out == old(console.out) + IdentityLines(exceptionLine, frames)
    ensures console.err == old(console.err) && console.pending == old(console.pending)
  {
    if exceptionLine.Some? {
      console.Println(exceptionLine.value.hole.line);
    }
    ghost var head := console.out;
    for i := 0 to |frames|
      invariant console.out + FrameTexts(frames[i..]) == head + FrameTexts(frames)
      invariant console.err == old(console.err) && console.pending == old(console.pending)
    {
      assert frames[i..][1..] == frames[i + 1..];
      console.Println(frames[i].hole.line);
    }
    assert frames[|frames|..] == [];
    assert console.out == head + FrameTexts(frames);
  }

  /** The ResultLinker loop of one element: each rewritten frame links one more node. */
  method LinkRewritten(parent: Option<Node>, frameLine: FrameLine, rewritten: seq<RetracedFrame>)
    returns (current: Option<Node>)
    requires frameLine.hole.Valid()
    ensures current == Link(parent, Rendered(frameLine, rewritten))
  {
    current := parent;
    for k := 0 to |rewritten|
      invariant Link(current, Rendered(frameLine, rewritten[k..])) == Link(parent, Rendered(frameLine, rewritten))
    {
      assert rewritten[k..][1..] == rewritten[k + 1..];
      current := Some(Node(current, RenderFrame(frameLine, rewritten[k])));
    }
  }

  /** retraceFrameRecursive. */
  method RetraceFrameRecursive(engine: Retracer, context: Context, parent: Option<Node>, frameIndex: nat,
                               frames: seq<FrameLine>)
    returns (results: seq<Option<Node>>)
    requires ValidFrames(frames)
    ensures results == FrameResults(engine, context, parent, frameIndex, frames)
    decreases |frames| - frameIndex, 1
  {
    if frameIndex >= |frames| {
      return [parent];
    }
    var frameLine := frames[frameIndex];
    var elements := engine.frame(context, frameLine.lineNumber, frameLine.clazz, frameLine.methodName);
    results := RetraceElements(engine, elements, parent, frameIndex, frames);
  }

  /** The forEach over the retraced elements of frame `frameIndex`, concatenating their paths. */
  method RetraceElements(engine: Retracer, elements: seq<FrameElement>, parent: Option<Node>, frameIndex: nat,
                         frames: seq<FrameLine>)
    returns (results: seq<Option<Node>>)
    requires ValidFrames(frames) && frameIndex < |frames|
    ensures results == ElementResults(engine, elements, parent, frameIndex, frames)
    decreases |frames| - frameIndex, 0
  {
    var frameLine := frames[frameIndex];
    results := [];
    for e := 0 to |elements|
      invariant results + ElementResults(engine, elements[e..], parent, frameIndex, frames)
                == ElementResults(engine, elements, parent, frameIndex, frames)
    {
      var current := LinkRewritten(parent, frameLine, elements[e].rewritten);
      var more := RetraceFrameRecursive(engine, elements[e].next, current, frameIndex + 1, frames);
      ElementResultsStep(engine, elements, e, parent, frameIndex, frames);
      AppendAssociative(results, more, ElementResults(engine, elements[e + 1..], parent, frameIndex, frames));
      results := results + more;
    }
    assert elements[|elements|..] == [];
  }

  /** The elements from index e on: the paths of element e, then those of the rest. */
  lemma ElementResultsStep(engine: Retracer, elements: seq<FrameElement>, e: nat, parent: Option<Node>, i: nat,
                           frames: seq<FrameLine>)
    requires ValidFrames(frames) && i < |frames| && e < |elements|
    ensures ElementResults(engine, elements[e..], parent, i, frames)
            == FrameResults(engine, elements[e].next, Link(parent, Rendered(frames[i], elements[e].rewritten)), i + 1, frames)
               + ElementResults(engine, elements[e + 1..], parent, i, frames)
  {
    assert elements[e..][0] == elements[e];
    assert elements[e..][1..] == elements[e + 1..];
  }

  /** retraceOptionalExceptionLine with the callback that collects finalResultNodes. */
  method RetraceOptionalExceptionLine(engine: Retracer, exceptionLine: Option<ExceptionLine>, frames: seq<FrameLine>)
    returns (results: seq<Option<Node>>)
    requires ValidFrames(frames)
    requires exceptionLine.Some? ==> exceptionLine.value.hole.Valid()
    ensures results == Results(engine, exceptionLine, frames)
  {
    var roots := Roots(engine, exceptionLine);
    results := [];
    for r := 0 to |roots|
      invariant results + RootResults(engine, roots[r..], frames) == RootResults(engine, roots, frames)
    {
      var more := RetraceFrameRecursive(engine, roots[r].0, roots[r].1, 0, frames);
      assert roots[r..][1..] == roots[r + 1..];
      results := results + more;
    }
    assert roots[|roots|..] == [];
  }

  /** The printing half of retraceStackTrace once the results are known. */
  method PrintBlock(results: seq<Option<Node>>, exceptionLine: Option<ExceptionLine>, frames: seq<FrameLine>,
                    location: string, console: Console)
    returns (abort: Option<Abort>)
    modifies console
    ensures console.out == old(console.out) + BlockOutput(results, exceptionLine, frames, location).0
    ensures abort == BlockOutput(results, exceptionLine, frames, location).1
    ensures console.err == old(console.err) && console.pending == old(console.pending)
  {
    if results == [] {
      PrintIdentity(exceptionLine, frames, console);
      return None;
    }
    ghost var banner := if |results| > 1 then [Banner(|results|, location)] else [];
    if |results| > 1 {
      console.Println(Banner(|results|, location));
    }
    assert console.out == old(console.out) + banner;
    abort := PrintSeparated(results, console);
    assert console.out == old(console.out) + (banner + Separated(results, 0).0);
  }

  /** Printing the node at `i`, after its separator, leaves the output of the later nodes to come. */
  lemma SeparatedStep(results: seq<Option<Node>>, i: nat, before: seq<string>, out: seq<string>)
    requires i < |results| && results[i].Some?
    requires out == before + (if i > 0 then [Separator] else []) + Printed(results[i])
    ensures out + Separated(results, i + 1).0 == before + Separated(results, i).0
    ensures Separated(results, i + 1).1 == Separated(results, i).1
  {
    var sep := if i > 0 then [Separator] else [];
    var rest := Separated(results, i + 1).0;
    assert Separated(results, i).0 == sep + Printed(results[i]) + rest;
    assert (before + sep + Printed(results[i])) + rest == before + (sep + Printed(results[i]) + rest);
  }

  /** The loop of retraceStackTrace over finalResultNodes. */
  method PrintSeparated(results: seq<Option<Node>>, console: Console) returns (abort: Option<Abort>)
    modifies console
    ensures console.out == old(console.out) + Separated(results, 0).0
    ensures abort == Separated(results, 0).1
    ensures console.err == old(console.err) && console.pending == old(console.pending)
  {
    for i := 0 to |results|
      invariant console.out + Separated(results, i).0 == old(console.out) + Separated(results, 0).0
      invariant Separated(results, i).1 == Separated(results, 0).1
      invariant console.err == old(console.err) && console.pending == old(console.pending)
    {
      ghost var before := console.out;
      ghost var sep := if i > 0 then [Separator] else [];
      if i > 0 {
        console.Println(Separator);
      }
      if results[i].None? {
        assert Separated(results, i) == (sep, Some(NullPointer));
        return Some(NullPointer);
      }
      PrintNode(results[i].value, console);
      SeparatedStep(results, i, before, console.out);
    }
    assert Separated(results, |results|) == ([], None);
    return None;
  }
}
