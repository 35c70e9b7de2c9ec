/**
 * Splitting a sequence at a separator element and joining parts back with it.
 * The search-path flag is split at ':' this way, and ambiguous stack traces are
 * printed joined by a "<OR>" line.
 */
module Sequences {

  /** The first index of `x` in `xs`. */
  function FirstIndex<T(==)>(xs: seq<T>, x: T): (r: nat)
    requires x in xs
    ensures r < |xs| && xs[r] == x && x !in xs[..r]
  {
    if xs[0] == x then 0
    else
      var r := 1 + FirstIndex(xs[1..], x);
      assert xs[..r] == [xs[0]] + xs[1..][..r - 1];
      r
  }

  /** The maximal runs of `xs` free of `sep`, in order; always at least one (possibly empty). */
  function SplitOn<T(==)>(xs: seq<T>, sep: T): (parts: seq<seq<T>>)
    ensures |parts| >= 1
    ensures forall k :: 0 <= k < |parts| ==> sep !in parts[k]
    decreases |xs|
  {
    if sep !in xs then [xs]
    else
      var k := FirstIndex(xs, sep);
      [xs[..k]] + SplitOn(xs[k + 1..], sep)
  }

  /** The split of `xs` at the first `sep`, at `k`: the run before it, then the split of the rest. */
  lemma SplitOnAt<T>(xs: seq<T>, sep: T, k: nat)
    requires k < |xs| && xs[k] == sep && sep !in xs[..k]
    ensures SplitOn(xs, sep) == [xs[..k]] + SplitOn(xs[k + 1..], sep)
  {
    assert FirstIndex(xs, sep) == k;
  }

  /** The parts laid end to end with one `sep` between neighbours. */
  function JoinWith<T>(parts: seq<seq<T>>, sep: T): seq<T>
  {
    if |parts| == 0 then []
    else if |parts| == 1 then parts[0]
    else parts[0] + [sep] + JoinWith(parts[1..], sep)
  }

  /** How many times `x` occurs in `xs`. */
  function Count<T(==)>(xs: seq<T>, x: T): nat
  {
    if xs == [] then 0 else (if xs[0] == x then 1 else 0) + Count(xs[1..], x)
  }

  lemma {:induction false} CountAppend<T>(a: seq<T>, b: seq<T>, x: T)
    ensures Count(a + b, x) == Count(a, x) + Count(b, x)
  {
    if a != [] {
      assert (a + b)[0] == a[0];
      assert (a + b)[1..] == a[1..] + b;
      CountAppend(a[1..], b, x);
    } else {
      assert a + b == b;
    }
  }

  lemma {:induction false} CountAbsent<T>(a: seq<T>, x: T)
    requires x !in a
    ensures Count(a, x) == 0
  {
    if a != [] {
      CountAbsent(a[1..], x);
    }
  }

  /** Joining the parts of a split gives the sequence back. */
  lemma {:induction false} JoinSplit<T>(xs: seq<T>, sep: T)
    ensures JoinWith(SplitOn(xs, sep), sep) == xs
    decreases |xs|
  {
    if sep in xs {
      var k := FirstIndex(xs, sep);
      var rest := SplitOn(xs[k + 1..], sep);
      JoinSplit(xs[k + 1..], sep);
      assert SplitOn(xs, sep)[1..] == rest;
      assert xs == xs[..k] + [sep] + xs[k + 1..];
    }
  }

  /** Splitting a join of separator-free parts gives the parts back. */
  lemma {:induction false} SplitJoin<T>(parts: seq<seq<T>>, sep: T)
    requires |parts| >= 1
    requires forall k :: 0 <= k < |parts| ==> sep !in parts[k]
    ensures SplitOn(JoinWith(parts, sep), sep) == parts
  {
    if |parts| > 1 {
      var xs := JoinWith(parts, sep);
      var tail := JoinWith(parts[1..], sep);
      assert xs == parts[0] + [sep] + tail;
      assert xs[|parts[0]|] == sep;
      var k := FirstIndex(xs, sep);
      assert xs[..|parts[0]|] == parts[0];
      assert k == |parts[0]|;
      assert xs[k + 1..] == tail;
      SplitJoin(parts[1..], sep);
    }
  }

  /** A join of k separator-free parts holds exactly k - 1 separators. */
  lemma {:induction false} CountJoin<T>(parts: seq<seq<T>>, sep: T)
    requires |parts| >= 1
    requires forall k :: 0 <= k < |parts| ==> sep !in parts[k]
    ensures Count(JoinWith(parts, sep), sep) == |parts| - 1
  {
    CountAbsent(parts[0], sep);
    if |parts| > 1 {
      CountJoin(parts[1..], sep);
      CountAppend(parts[0] + [sep], JoinWith(parts[1..], sep), sep);
      CountAppend(parts[0], [sep], sep);
    }
  }

  /** Regrouping a concatenation of three sequences. */
  lemma AppendAssociative<T>(a: seq<T>, b: seq<T>, c: seq<T>)
    ensures (a + b) + c == a + (b + c)
  {
  }

  /** Dropping a prefix of the first part of a concatenation. */
  lemma DropAppend<T>(a: seq<T>, b: seq<T>, k: nat)
    requires k <= |a|
    ensures (a + b)[k..] == a[k..] + b
  {
  }

  /** Dropping `k` elements after dropping `i` is dropping `i + k`. */
  lemma DropTwice<T>(xs: seq<T>, i: nat, k: nat, j: nat)
    requires i <= |xs| && k <= |xs| - i && j == i + k
    ensures xs[i..][k..] == xs[j..]
  {
  }

  /** A non-empty sequence is its first element followed by the rest, both taken from it. */
  lemma FirstAndRest<T>(xs: seq<T>)
    requires xs != []
    ensures xs == [xs[0]] + xs[1..] && xs[0] in xs
    ensures forall x | x in xs[1..] :: x in xs
  {
  }
}
