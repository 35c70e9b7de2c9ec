/**
 * DepsFileWriter: the dependency consumer R8 and D8 report their inputs to.
 * It collects the dependency paths in a set and, when the compilation has
 * finished, writes one make-style rule
 *
 *     <dependent>: <dep 1> <dep 2> ... <dep n>
 *
 * with the dependencies in ascending order and every space in a path
 * escaped with a backslash (DepsFileWriter.java:32-73). Paths are strings;
 * the file write itself is the text `Finished` returns.
 */
module DepsFile {
  import opened Wrappers
  import opened JavaString
  import opened StringOrder
  import Sequences

  /** escape: filepath.replace(" ", "\\ "). */
  function Escape(path: string): string
  {
    ReplaceAll(path, " ", "\\ ")
  }

  /** The escaped form of one character: a space gains a backslash, anything else stays. */
  function EscapedChar(c: char): string
  {
    if c == ' ' then "\\ " else [c]
  }

  /** Escaping character by character, as a reference for `Escape`. */
  function EscapeEach(path: string): string
  {
    if path == [] then [] else EscapedChar(path[0]) + EscapeEach(path[1..])
  }

  /** Escape puts a backslash before every space and changes nothing else. */
  lemma {:induction false} EscapeIsEach(path: string)
    ensures Escape(path) == EscapeEach(path)
    decreases |path|
  {
    if path != [] {
      assert StartsWith(path, " ") <==> path[0] == ' ';
      assert path[|" "|..] == path[1..];
      EscapeIsEach(path[1..]);
    }
  }

  /** Reading an escaped path back: a backslash before a space stands for the space. */
  function Unescape(text: string): string
    decreases |text|
  {
    if text == [] then []
    else if |text| >= 2 && text[0] == '\\' && text[1] == ' ' then " " + Unescape(text[2..])
    else [text[0]] + Unescape(text[1..])
  }

  /** An escaped path that is not empty never starts with a space. */
  lemma EscapeEachHead(path: string)
    requires path != []
    ensures EscapeEach(path) != [] && EscapeEach(path)[0] != ' '
  {
  }

  lemma {:induction false} UnescapeEscapeEach(path: string)
    ensures Unescape(EscapeEach(path)) == path
    decreases |path|
  {
    if path != [] {
      var t := EscapeEach(path[1..]);
      assert EscapeEach(path) == EscapedChar(path[0]) + t;
      UnescapeEscapeEach(path[1..]);
      if path[0] == ' ' {
        assert (EscapedChar(path[0]) + t)[2..] == t;
      } else {
        if path[0] == '\\' && t != [] {
          EscapeEachHead(path[1..]);
        }
        assert (EscapedChar(path[0]) + t)[1..] == t;
      }
      assert path == [path[0]] + path[1..];
    }
  }

  /** Escaping loses nothing: every path is read back from its escaped form. */
  lemma UnescapeEscape(path: string)
    ensures Unescape(Escape(path)) == path
  {
    EscapeIsEach(path);
    UnescapeEscapeEach(path);
  }

  /** What follows the colon: " " and the escaped path, for each dependency in turn. */
  function DepsTail(deps: seq<string>): string
  {
    if deps == [] then [] else " " + Escape(deps[0]) + DepsTail(deps[1..])
  }

  /** The text `finished` writes for `dependent` and the dependency list `deps`. */
  function DepsLine(dependent: string, deps: seq<string>): string
  {
    Escape(dependent) + ":" + DepsTail(deps) + "\n"
  }

  lemma {:induction false} DepsTailSnoc(deps: seq<string>, d: string)
    ensures DepsTail(deps + [d]) == DepsTail(deps) + (" " + Escape(d))
    decreases |deps|
  {
    if deps != [] {
      assert (deps + [d])[1..] == deps[1..] + [d];
      DepsTailSnoc(deps[1..], d);
    } else {
      assert DepsTail([d]) == " " + Escape(d) + DepsTail([]);
    }
  }

  /**
   * The ascending list of a set of paths: the list `finished` copies out
   * of the hash set and sorts.
   */
  ghost function Ascending(xs: set<string>): (r: seq<string>)
    ensures StrictlySorted(r) && Elems(r) == xs
  {
    AscendingExists(xs);
    var r :| StrictlySorted(r) && Elems(r) == xs; r
  }

  lemma {:induction false} AscendingExists(xs: set<string>)
    ensures exists r :: StrictlySorted(r) && Elems(r) == xs
    decreases |xs|
  {
    if xs == {} {
      assert StrictlySorted([]) && Elems([]) == xs;
    } else {
      var x :| x in xs;
      AscendingExists(xs - {x});
      var r :| StrictlySorted(r) && Elems(r) == xs - {x};
      var r' := Insert(r, x);
      forall y ensures y in Elems(r') <==> y in xs {
        assert y in r' <==> y in multiset(r');
        assert y in r <==> y in multiset(r);
        assert y in Elems(r) <==> y in xs - {x};
      }
      assert StrictlySorted(r') && Elems(r') == xs;
    }
  }

  /** The rule written for a dependent file and a set of dependencies. */
  ghost function DepsText(dependent: string, deps: set<string>): string
  {
    DepsLine(dependent, Ascending(deps))
  }

  class DepsFileWriter {
    const dependentFile: string
    const dependencyOutput: string
    /** The dependencies reported so far; a hash set, so order and repeats are lost. */
    var dependencies: set<string>

    constructor (dependentFile: string, dependencyOutput: string)
      ensures this.dependentFile == dependentFile && this.dependencyOutput == dependencyOutput
      ensures dependencies == {}
    {
      this.dependentFile := dependentFile;
      this.dependencyOutput := dependencyOutput;
      dependencies := {};
    }

    /** accept: record `dependency`; the origin that depends on it plays no part. */
    method Accept(dependent: string, dependency: string)
      modifies this
      ensures dependencies == old(dependencies) + {dependency}
    {
      dependencies := dependencies + {dependency};
    }

    /**
     * finished: the text written to `dependencyOutput`. It depends only on the
     * set of dependencies, not on the order or the number of times they were reported.
     */
    method Finished() returns (text: string)
      ensures text == DepsText(dependentFile, dependencies)
    {
      var sorted := SortedList(dependencies);
      StrictlySortedUnique(sorted, Ascending(dependencies));
      text := Escape(dependentFile) + ":";
      var i := 0;
      while i < |sorted|
        invariant i <= |sorted|
        invariant text == Escape(dependentFile) + ":" + DepsTail(sorted[..i])
      {
        DepsTailSnoc(sorted[..i], sorted[i]);
        assert sorted[..i + 1] == sorted[..i] + [sorted[i]];
        text := text + " " + Escape(sorted[i]);
        i := i + 1;
      }
      assert sorted[..i] == sorted;
      text := text + "\n";
    }
  }

  /**
   * Reading one escaped path out of a rule: up to the next space that is not
   * escaped, or the end. Returns the path and the text after it.
   */
  function ReadPath(text: string): (r: (string, string))
    ensures |r.1| <= |text|
    decreases |text|
  {
    if text == [] || text[0] == ' ' then ([], text)
    else if |text| >= 2 && text[0] == '\\' && text[1] == ' ' then
      var (p, rest) := ReadPath(text[2..]); (" " + p, rest)
    else
      var (p, rest) := ReadPath(text[1..]); ([text[0]] + p, rest)
  }

  /** Reading the dependency list after the colon: each entry is a space and an escaped path. */
  function ReadPaths(text: string): (r: Option<seq<string>>)
    decreases |text|
  {
    if text == [] then Some([])
    else if text[0] != ' ' then None
    else
      var (p, rest) := ReadPath(text[1..]);
      match ReadPaths(rest)
      case Some(ps) => Some([p] + ps)
      case None => None
  }

  /** The path does not end in a backslash, which would escape the separator after it. */
  predicate NoTrailingBackslash(path: string)
  {
    path == [] || path[|path| - 1] != '\\'
  }

  lemma {:induction false} ReadEscaped(path: string, rest: string)
    requires NoTrailingBackslash(path)
    requires rest == [] || rest[0] == ' '
    ensures ReadPath(EscapeEach(path) + rest) == (path, rest)
    decreases |path|
  {
    if path != [] {
      var t := EscapeEach(path[1..]);
      var text := EscapeEach(path) + rest;
      assert text == EscapedChar(path[0]) + (t + rest);
      assert NoTrailingBackslash(path[1..]);
      ReadEscaped(path[1..], rest);
      if path[0] == ' ' {
        assert text[2..] == t + rest;
      } else {
        if path[0] == '\\' {
          assert path[1..] != [];
          EscapeEachHead(path[1..]);
          assert text[1] == t[0];
        }
        assert text[0] != ' ' && !(|text| >= 2 && text[0] == '\\' && text[1] == ' ');
        assert text[1..] == t + rest;
      }
      assert path == [path[0]] + path[1..];
    } else {
      assert EscapeEach(path) + rest == rest;
    }
  }

  lemma {:induction false} ReadDepsTail(deps: seq<string>)
    requires forall d | d in deps :: NoTrailingBackslash(d)
    ensures ReadPaths(DepsTail(deps)) == Some(deps)
    decreases |deps|
  {
    if deps != [] {
      var rest := DepsTail(deps[1..]);
      EscapeIsEach(deps[0]);
      assert DepsTail(deps) == " " + (EscapeEach(deps[0]) + rest);
      assert rest == [] || rest[0] == ' ';
      ReadEscaped(deps[0], rest);
      ReadDepsTail(deps[1..]);
      assert deps == [deps[0]] + deps[1..];
    }
  }

  /**
   * Reading a whole rule back: the dependent file before the first colon,
   * then the dependency list up to the closing newline.
   */
  function ReadRule(line: string): (r: Option<(string, seq<string>)>)
  {
    if line == [] || line[|line| - 1] != '\n' || ':' !in line then None
    else
      var body := line[..|line| - 1];
      if ':' !in body then None
      else
        var k := Sequences.FirstIndex(body, ':');
        match ReadPaths(body[k + 1..])
        case Some(deps) => Some((Unescape(body[..k]), deps))
        case None => None
  }

  /**
   * The rule reads back to its dependent file and dependency list, as long
   * as the dependent has no colon and no dependency ends in a backslash.
   */
  lemma RuleRoundTrip(dependent: string, deps: seq<string>)
    requires ':' !in dependent
    requires forall d | d in deps :: NoTrailingBackslash(d)
    ensures ReadRule(DepsLine(dependent, deps)) == Some((dependent, deps))
  {
    var e := Escape(dependent);
    EscapeIsEach(dependent);
    assert ':' !in e by {
      EscapeEachNoColon(dependent);
    }
    var line := DepsLine(dependent, deps);
    var body := e + ":" + DepsTail(deps);
    assert line == body + "\n";
    assert line[..|line| - 1] == body;
    assert body[|e|] == ':' && body[..|e|] == e;
    assert Sequences.FirstIndex(body, ':') == |e|;
    assert body[|e| + 1..] == DepsTail(deps);
    ReadDepsTail(deps);
    UnescapeEscape(dependent);
  }

  lemma {:induction false} EscapeEachNoColon(path: string)
    requires ':' !in path
    ensures ':' !in EscapeEach(path)
    decreases |path|
  {
    if path != [] {
      assert ':' !in path[1..];
      EscapeEachNoColon(path[1..]);
    }
  }

  /**
   * What `finished` writes lists every recorded dependency exactly once, in
   * ascending order: reading the rule back gives a strictly ascending list
   * whose elements are the recorded set.
   */
  lemma RecordedOnceAscending(dependent: string, deps: set<string>)
    requires ':' !in dependent
    requires forall d | d in deps :: NoTrailingBackslash(d)
    ensures ReadRule(DepsText(dependent, deps)).Some?
    ensures var listed := ReadRule(DepsText(dependent, deps)).value.1;
      StrictlySorted(listed) && Elems(listed) == deps && |listed| == |deps|
  {
    var listed := Ascending(deps);
    RuleRoundTrip(dependent, listed);
    DistinctCard(listed);
  }

  lemma {:induction false} DistinctCard(s: seq<string>)
    requires StrictlySorted(s)
    ensures |Elems(s)| == |s|
    decreases |s|
  {
    if s != [] {
      LessIrreflexive(s[0]);
      assert s[0] !in s[1..];
      assert Elems(s) == Elems(s[1..]) + {s[0]};
      DistinctCard(s[1..]);
    }
  }

  /**
   * Without the trailing-backslash condition the rule is ambiguous: the
   * dependency lists ["a\", "b"] and ["a b"] give the same text.
   */
  lemma TrailingBackslashAmbiguous()
    ensures DepsLine("t", ["a\\", "b"]) == DepsLine("t", ["a b"])
    ensures ["a\\", "b"] != ["a b"]
  {
    EscapeIsEach("a\\");
    EscapeIsEach("b");
    EscapeIsEach("a b");
    EscapeIsEach("t");
    assert EscapeEach("a\\") == "a\\";
    assert EscapeEach("a b") == "a\\ b";
  }
}
