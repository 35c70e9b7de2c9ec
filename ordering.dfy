/**
 * String.compareTo as a strict order on strings, and the copy-then-sort step
 * both the dependency writer and the map-table printer use: the elements of a
 * hash set listed in ascending order.
 */
module StringOrder {

  /** a.compareTo(b) < 0: the first differing character decides, else the shorter string is smaller. */
  predicate Less(a: string, b: string)
  {
    if a == [] then b != []
    else if b == [] then false
    else if a[0] != b[0] then a[0] < b[0]
    else Less(a[1..], b[1..])
  }

  lemma {:induction false} LessIrreflexive(a: string)
    ensures !Less(a, a)
  {
    if a != [] {
      LessIrreflexive(a[1..]);
    }
  }

  lemma {:induction false} LessAsymmetric(a: string, b: string)
    requires Less(a, b)
    ensures !Less(b, a)
  {
    if a != [] && b != [] && a[0] == b[0] {
      LessAsymmetric(a[1..], b[1..]);
    }
  }

  lemma {:induction false} LessTransitive(a: string, b: string, c: string)
    requires Less(a, b) && Less(b, c)
    ensures Less(a, c)
  {
    if a != [] && a[0] == b[0] && b[0] == c[0] {
      LessTransitive(a[1..], b[1..], c[1..]);
    }
  }

  lemma {:induction false} LessTotal(a: string, b: string)
    requires a != b
    ensures Less(a, b) || Less(b, a)
  {
    if a != [] && b != [] && a[0] == b[0] {
      assert a == [a[0]] + a[1..] && b == [b[0]] + b[1..];
      LessTotal(a[1..], b[1..]);
    }
  }

  /** The elements of a list, as a set. */
  function Elems(s: seq<string>): set<string>
  {
    set x | x in s
  }

  lemma ElemsOfNonEmpty(s: seq<string>)
    ensures s != [] ==> s[0] in Elems(s)
  {
  }

  /** Strictly ascending, hence also free of duplicates. */
  predicate StrictlySorted(s: seq<string>)
  {
    forall i, j :: 0 <= i < j < |s| ==> Less(s[i], s[j])
  }

  /** Insert `x` into its place in an ascending list that does not hold it. */
  function Insert(s: seq<string>, x: string): (r: seq<string>)
    requires StrictlySorted(s) && x !in s
    ensures StrictlySorted(r)
    ensures multiset(r) == multiset(s) + multiset{x}
  {
    if s == [] then [x]
    else if Less(x, s[0]) then
      forall j | 0 < j < |s| ensures Less(x, s[j]) {
        LessTransitive(x, s[0], s[j]);
      }
      [x] + s
    else
      LessTotal(x, s[0]);
      var tail := Insert(s[1..], x);
      assert multiset(tail) == multiset(s[1..]) + multiset{x};
      forall j | 0 <= j < |tail| ensures Less(s[0], tail[j]) {
        assert tail[j] in multiset(tail);
        assert tail[j] == x || tail[j] in s[1..];
      }
      assert s == [s[0]] + s[1..];
      [s[0]] + tail
  }

  /** Two ascending lists of the same elements are the same list. */
  lemma {:induction false} StrictlySortedUnique(a: seq<string>, b: seq<string>)
    requires StrictlySorted(a) && StrictlySorted(b)
    requires Elems(a) == Elems(b)
    ensures a == b
  {
    if a != [] {
      assert a[0] in Elems(b);
      assert b != [];
      assert b[0] in Elems(a);
      if a[0] != b[0] {
        var i :| 0 <= i < |a| && a[i] == b[0];
        var j :| 0 <= j < |b| && b[j] == a[0];
        LessAsymmetric(a[0], a[i]);
      }
      assert Elems(a[1..]) == Elems(b[1..]) by {
        forall y | y in a[1..] ensures y in b[1..] {
          var i :| 1 <= i < |a| && a[i] == y;
          assert Less(a[0], y);
          LessIrreflexive(y);
          assert y in Elems(a);
          var j :| 0 <= j < |b| && b[j] == y;
        }
        forall y | y in b[1..] ensures y in a[1..] {
          var j :| 1 <= j < |b| && b[j] == y;
          assert Less(b[0], y);
          LessIrreflexive(y);
          assert y in Elems(b);
          var i :| 0 <= i < |a| && a[i] == y;
        }
      }
      StrictlySortedUnique(a[1..], b[1..]);
    } else {
      ElemsOfNonEmpty(b);
    }
  }

  /**
   * new ArrayList<>(set) followed by sort: the elements of `xs` in ascending
   * order. The set's iteration order is left open; the result does not depend on it.
   */
  method SortedList(xs: set<string>) returns (r: seq<string>)
    ensures StrictlySorted(r)
    ensures Elems(r) == xs
    ensures |r| == |xs|
  {
    r := [];
    var remaining := xs;
    while remaining != {}
      invariant StrictlySorted(r)
      invariant remaining <= xs
      invariant Elems(r) == xs - remaining
      invariant |r| + |remaining| == |xs|
      decreases |remaining|
    {
      var x :| x in remaining;
      assert x !in r;
      var r' := Insert(r, x);
      assert Elems(r') == Elems(r) + {x} by {
        forall y ensures y in r' <==> y in r || y == x {
          assert y in r' <==> y in multiset(r');
          assert y in r <==> y in multiset(r);
        }
      }
      r := r';
      remaining := remaining - {x};
    }
    assert xs - remaining == xs;
  }
}
