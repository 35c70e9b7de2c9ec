/**
 * The java.lang.String and java.lang.Integer operations the wrappers rely on,
 * written out over `seq<char>`: indexOf, lastIndexOf, startsWith, endsWith,
 * trim, replace, Integer.parseInt and the decimal rendering of an int.
 */
module JavaString {
  import opened Wrappers

  const MinInt: int := -0x8000_0000
  const MaxInt: int := 0x7fff_ffff

  /** `pat` occurs in `s` at index `k`. */
  predicate OccursAt(s: string, pat: string, k: nat) {
    k + |pat| <= |s| && s[k..k + |pat|] == pat
  }

  predicate StartsWith(s: string, prefix: string) {
    |prefix| <= |s| && s[..|prefix|] == prefix
  }

  predicate EndsWith(s: string, suffix: string) {
    |suffix| <= |s| && s[|s| - |suffix|..] == suffix
  }

  /** String.contains: `pat` occurs somewhere in `s`. */
  predicate Contains(s: string, pat: string) {
    exists k: nat | k <= |s| :: OccursAt(s, pat, k)
  }

  /** s.indexOf(c, from): the first index at or after `from` holding `c`, or -1. */
  function IndexOfChar(s: string, c: char, from: nat): (r: int)
    ensures r == -1 || (from <= r < |s| && s[r] == c)
    ensures forall k :: from <= k < |s| && (r == -1 || k < r) ==> s[k] != c
    decreases |s| - from
  {
    if from >= |s| then -1
    else if s[from] == c then from
    else IndexOfChar(s, c, from + 1)
  }

  /**
   * The last index strictly below `end` holding `c`, or -1; s.lastIndexOf(c, i)
   * is LastIndexOfBefore(s, c, i + 1) and s.lastIndexOf(c) is LastIndexOfBefore(s, c, |s|).
   */
  function LastIndexOfBefore(s: string, c: char, end: nat): (r: int)
    requires end <= |s|
    ensures r == -1 || (0 <= r < end && s[r] == c)
    ensures forall k :: r < k < end ==> s[k] != c
  {
    if end == 0 then -1
    else if s[end - 1] == c then end - 1
    else LastIndexOfBefore(s, c, end - 1)
  }

  /** An occurrence of a pattern without `c` puts no `c` in the stretch it covers. */
  lemma OccursAtAvoids(s: string, pat: string, k: nat, c: char)
    requires OccursAt(s, pat, k) && c !in pat
    ensures forall j :: k <= j < k + |pat| ==> s[j] != c
  {
    forall j | k <= j < k + |pat| ensures s[j] != c {
      assert s[j] == s[k..k + |pat|][j - k];
    }
  }

  /** The last `c` of `s` is there exactly when `s` holds a `c`, and no `c` follows it. */
  lemma LastIndexSplit(s: string, c: char)
    ensures var r := LastIndexOfBefore(s, c, |s|);
      && (r < 0 <==> c !in s)
      && (r >= 0 ==> c !in s[r + 1..])
  {
    var r := LastIndexOfBefore(s, c, |s|);
    if r >= 0 {
      var rest := s[r + 1..];
      forall k | 0 <= k < |rest| ensures rest[k] != c {
        assert rest[k] == s[r + 1 + k];
      }
    }
  }

  /** s.indexOf(pat, from): the first occurrence of `pat` at or after `from`, or -1. */
  function IndexOfSub(s: string, pat: string, from: nat): (r: int)
    requires from <= |s|
    ensures r == -1 || (from <= r && OccursAt(s, pat, r))
    ensures forall k: nat :: from <= k && (r == -1 || k < r) ==> !OccursAt(s, pat, k)
    decreases |s| - from
  {
    if from + |pat| > |s| then -1
    else if s[from..from + |pat|] == pat then from
    else IndexOfSub(s, pat, from + 1)
  }

  /** indexOf(c, from) is `k` when `k` holds `c` and nothing between `from` and `k` does. */
  lemma IndexOfCharIs(s: string, c: char, from: nat, k: nat)
    requires from <= k < |s| && s[k] == c
    requires forall j :: from <= j < k ==> s[j] != c
    ensures IndexOfChar(s, c, from) == k
  {
  }

  /** lastIndexOf(c) below `end` is `k` when `k` holds `c` and nothing after it below `end` does. */
  lemma LastIndexOfBeforeIs(s: string, c: char, end: nat, k: nat)
    requires k < end <= |s| && s[k] == c
    requires forall j :: k < j < end ==> s[j] != c
    ensures LastIndexOfBefore(s, c, end) == k
  {
  }

  /** indexOf(pat, from) is `k` when `pat` occurs at `k` and nowhere between `from` and `k`. */
  lemma IndexOfSubIs(s: string, pat: string, from: nat, k: nat)
    requires from <= k && OccursAt(s, pat, k)
    requires forall j: nat :: from <= j < k ==> !OccursAt(s, pat, j)
    ensures IndexOfSub(s, pat, from) == k
  {
  }

  /** A slice of an occurrence of `t` is the matching slice of `t`. */
  lemma SliceOfOccurrence(line: string, t: string, b: nat, i: nat, k: nat)
    requires OccursAt(line, t, b) && i <= k <= |t|
    ensures line[b + i..b + k] == t[i..k]
  {
    forall j | 0 <= j < k - i ensures line[b + i..b + k][j] == t[i..k][j] {
      assert line[b + i + j] == line[b..b + |t|][i + j];
    }
  }

  /** The characters String.trim removes: every char up to and including the space. */
  predicate IsTrimmed(c: char) {
    c <= ' '
  }

  function TrimStart(s: string): string
  {
    if |s| > 0 && IsTrimmed(s[0]) then TrimStart(s[1..]) else s
  }

  function TrimEnd(s: string): string
  {
    if |s| > 0 && IsTrimmed(s[|s| - 1]) then TrimEnd(s[..|s| - 1]) else s
  }

  /** String.trim: drop leading and trailing control characters and spaces. */
  function Trim(s: string): string
  {
    TrimEnd(TrimStart(s))
  }

  /** TrimStart drops exactly the longest prefix of trimmed characters. */
  lemma {:induction false} TrimStartSpec(s: string)
    ensures |TrimStart(s)| <= |s| && TrimStart(s) == s[|s| - |TrimStart(s)|..]
    ensures forall k :: 0 <= k < |s| - |TrimStart(s)| ==> IsTrimmed(s[k])
    ensures TrimStart(s) == [] || !IsTrimmed(TrimStart(s)[0])
  {
    if |s| > 0 && IsTrimmed(s[0]) {
      TrimStartSpec(s[1..]);
    }
  }

  /** TrimEnd drops exactly the longest suffix of trimmed characters. */
  lemma {:induction false} TrimEndSpec(s: string)
    ensures |TrimEnd(s)| <= |s| && TrimEnd(s) == s[..|TrimEnd(s)|]
    ensures forall k :: |TrimEnd(s)| <= k < |s| ==> IsTrimmed(s[k])
    ensures TrimEnd(s) == [] || !IsTrimmed(TrimEnd(s)[|TrimEnd(s)| - 1])
  {
    if |s| > 0 && IsTrimmed(s[|s| - 1]) {
      TrimEndSpec(s[..|s| - 1]);
    }
  }

  /** The result of trim is a slice of its input that neither starts nor ends with a trimmed character. */
  lemma TrimSpec(s: string)
    ensures exists i, j :: 0 <= i <= j <= |s| && Trim(s) == s[i..j]
    ensures Trim(s) == [] || (!IsTrimmed(Trim(s)[0]) && !IsTrimmed(Trim(s)[|Trim(s)| - 1]))
  {
    var t := TrimStart(s);
    TrimStartSpec(s);
    TrimEndSpec(t);
    var i := |s| - |t|;
    var j := i + |TrimEnd(t)|;
    assert Trim(s) == s[i..j];
    if TrimEnd(t) != [] {
      assert TrimEnd(t)[0] == t[0];
    }
  }

  /** Trimming a string with no trimmed character at either end leaves it as it is. */
  lemma TrimOfClean(s: string)
    requires s != [] && !IsTrimmed(s[0]) && !IsTrimmed(s[|s| - 1])
    ensures Trim(s) == s
  {
  }

  /**
   * String.replace(pat, rep): every occurrence of `pat`, scanned left to right
   * without overlap, is replaced by `rep`.
   */
  function ReplaceAll(s: string, pat: string, rep: string): string
    requires |pat| > 0
    decreases |s|
  {
    if |s| == 0 then []
    else if StartsWith(s, pat) then rep + ReplaceAll(s[|pat|..], pat, rep)
    else [s[0]] + ReplaceAll(s[1..], pat, rep)
  }

  /** Replacing a pattern that does not occur changes nothing. */
  lemma {:induction false} ReplaceAbsent(s: string, pat: string, rep: string)
    requires |pat| > 0
    requires forall k: nat :: !OccursAt(s, pat, k)
    ensures ReplaceAll(s, pat, rep) == s
    decreases |s|
  {
    if |s| > 0 {
      assert !OccursAt(s, pat, 0);
      forall k: nat ensures !OccursAt(s[1..], pat, k) {
        assert !OccursAt(s, pat, k + 1);
        if k + |pat| <= |s[1..]| {
          assert s[k + 1..k + 1 + |pat|] == s[1..][k..k + |pat|];
        }
      }
      ReplaceAbsent(s[1..], pat, rep);
    }
  }

  /**
   * When `pat` occurs in `p + pat` only at its end, replacing it rewrites
   * exactly that trailing occurrence.
   */
  lemma {:induction false} ReplaceTrailing(p: string, pat: string, rep: string)
    requires |pat| > 0
    requires forall k: nat :: k < |p| ==> !OccursAt(p + pat, pat, k)
    ensures ReplaceAll(p + pat, pat, rep) == p + rep
    decreases |p|
  {
    var s := p + pat;
    if |p| == 0 {
      assert s == pat;
      assert s[|pat|..] == [];
    } else {
      assert !OccursAt(s, pat, 0);
      assert !StartsWith(s, pat);
      assert s[1..] == p[1..] + pat;
      forall k: nat | k < |p[1..]| ensures !OccursAt(p[1..] + pat, pat, k) {
        assert !OccursAt(s, pat, k + 1);
        if k + |pat| <= |p[1..] + pat| {
          assert s[k + 1..k + 1 + |pat|] == (p[1..] + pat)[k..k + |pat|];
        }
      }
      ReplaceTrailing(p[1..], pat, rep);
      assert [s[0]] + (p[1..] + rep) == p + rep;
    }
  }

  predicate IsDigit(c: char) {
    '0' <= c <= '9'
  }

  predicate AllDigits(d: string) {
    forall k :: 0 <= k < |d| ==> IsDigit(d[k])
  }

  function DigitOf(c: char): nat
    requires IsDigit(c)
  {
    c as int - '0' as int
  }

  function CharOf(d: nat): char
    requires d < 10
  {
    ('0' as int + d) as char
  }

  /** The value of a run of decimal digits, most significant first. */
  function DigitsValue(d: string): nat
    requires AllDigits(d)
  {
    if d == [] then 0 else DigitsValue(d[..|d| - 1]) * 10 + DigitOf(d[|d| - 1])
  }

  /**
   * Integer.parseInt(s): an optional sign and at least one digit, with the
   * value inside the 32-bit range; anything else is a NumberFormatException.
   */
  function ParseJavaInt(s: string): (r: Option<int>)
    ensures r.Some? ==> MinInt <= r.value <= MaxInt
    ensures r.Some? ==> s != [] && (IsDigit(s[0]) || s[0] == '-' || s[0] == '+')
  {
    if |s| == 0 then None
    else
      var digits := if s[0] == '-' || s[0] == '+' then s[1..] else s;
      if |digits| == 0 || !AllDigits(digits) then None
      else
        var v: int := if s[0] == '-' then 0 - DigitsValue(digits) as int else DigitsValue(digits);
        if MinInt <= v <= MaxInt then Some(v) else None
  }

  /** The value of a digit run under a sign: negated for "-", as it is otherwise. */
  function SignedValue(sign: string, d: string): int
    requires AllDigits(d)
  {
    if sign == "-" then 0 - DigitsValue(d) as int else DigitsValue(d) as int
  }

  /**
   * Every text is read by Integer.parseInt as a sign ("", "+" or "-") and the
   * rest: it is accepted exactly when the rest is a non-empty run of digits
   * whose signed value fits in 32 bits, and then it is that value.
   */
  lemma ParseSigned(sign: string, d: string)
    requires sign == "" || sign == "+" || sign == "-"
    requires sign == "" && d != [] ==> d[0] != '+' && d[0] != '-'
    ensures ParseJavaInt(sign + d)
      == if d != [] && AllDigits(d) && MinInt <= SignedValue(sign, d) <= MaxInt
         then Some(SignedValue(sign, d)) else None
  {
    var s := sign + d;
    if sign != "" {
      assert s[0] == sign[0];
      assert s[1..] == d;
    } else {
      assert s == d;
    }
  }

  /** Leading zeros do not change the value of a digit run. */
  lemma {:induction false} LeadingZero(d: string)
    requires AllDigits(d)
    ensures AllDigits("0" + d) && DigitsValue("0" + d) == DigitsValue(d)
    decreases |d|
  {
    var z := "0" + d;
    if d == [] {
      assert z[..0] == [];
    } else {
      var init := d[..|d| - 1];
      LeadingZero(init);
      assert z[..|z| - 1] == "0" + init;
      assert z[|z| - 1] == d[|d| - 1];
    }
  }

  /** Integer.parseInt on a sign, leading zeros and a stray letter. */
  lemma ParseExamples()
    ensures ParseJavaInt("+7") == Some(7)
    ensures ParseJavaInt("007") == Some(7)
    ensures ParseJavaInt("12a") == None
    ensures ParseJavaInt("") == None && ParseJavaInt("-") == None
  {
    ParseSigned("+", "7");
    LeadingZero("07");
    LeadingZero("7");
    assert "0" + "07" == "007" && "0" + "7" == "07";
    ParseSigned("", "007");
    assert !IsDigit("12a"[2]);
    ParseSigned("", "12a");
  }

  /** One more digit at the end multiplies the value by ten and adds the digit. */
  lemma DigitsSnoc(d: string, c: char)
    requires AllDigits(d) && IsDigit(c)
    ensures AllDigits(d + [c]) && DigitsValue(d + [c]) == DigitsValue(d) * 10 + DigitOf(c)
  {
    assert (d + [c])[..|d|] == d;
  }

  /** The digits of MaxInt without its last one. */
  lemma MaxIntPrefix()
    ensures AllDigits("214748364") && DigitsValue("214748364") == 214748364
  {
    var d: string := [];
    var v := 0;
    var digits := "214748364";
    var k := 0;
    while k < |digits|
      invariant k <= |digits| && d == digits[..k] && AllDigits(d) && DigitsValue(d) == v
      invariant v == [0, 2, 21, 214, 2147, 21474, 214748, 2147483, 21474836, 214748364][k]
    {
      assert digits[..k + 1] == d + [digits[k]];
      DigitsSnoc(d, digits[k]);
      d := d + [digits[k]];
      v := v * 10 + DigitOf(digits[k]);
      k := k + 1;
    }
    assert d == digits;
  }

  /** Integer.parseInt at the edges of the 32-bit range. */
  lemma ParseRangeEdges()
    ensures ParseJavaInt("2147483647") == Some(MaxInt)
    ensures ParseJavaInt("2147483648") == None
    ensures ParseJavaInt("-2147483648") == Some(MinInt)
  {
    ParseMaxInt();
    ParseMaxIntPlusOne();
    ParseMinInt();
  }

  /** The largest int reads back. */
  lemma ParseMaxInt()
    ensures ParseJavaInt("2147483647") == Some(MaxInt)
  {
    var d := "214748364";
    MaxIntPrefix();
    ParseAfter(d, '7');
    assert d + ['7'] == "2147483647";
  }

  /** One past the largest int is refused. */
  lemma ParseMaxIntPlusOne()
    ensures ParseJavaInt("2147483648") == None
  {
    var d := "214748364";
    MaxIntPrefix();
    ParseAfter(d, '8');
    assert d + ['8'] == "2147483648";
  }

  /** The smallest int reads back. */
  lemma ParseMinInt()
    ensures ParseJavaInt("-2147483648") == Some(MinInt)
  {
    var d := "214748364";
    MaxIntPrefix();
    DigitsSnoc(d, '8');
    ParseNegated(d + ['8']);
    assert "-" + (d + ['8']) == "-2147483648";
  }

  /** Integer.parseInt of `d` and one more digit. */
  lemma ParseAfter(d: string, c: char)
    requires AllDigits(d) && IsDigit(c)
    ensures
      var v: int := DigitsValue(d) * 10 + DigitOf(c);
      ParseJavaInt(d + [c]) == if v <= MaxInt then Some(v) else None
  {
    var e := d + [c];
    DigitsSnoc(d, c);
    assert IsDigit(e[0]);
    ParseSigned("", e);
  }

  /** Integer.parseInt of a negated digit run. */
  lemma ParseNegated(e: string)
    requires AllDigits(e) && e != []
    ensures
      var v: int := DigitsValue(e);
      ParseJavaInt("-" + e) == if -v >= MinInt then Some(-v) else None
  {
    ParseSigned("-", e);
    assert SignedValue("-", e) == -(DigitsValue(e) as int);
  }

  /** Integer.toString for a non-negative value. */
  function NatToString(n: nat): string
  {
    if n < 10 then [CharOf(n)] else NatToString(n / 10) + [CharOf(n % 10)]
  }

  /** The text is decimal digits without a leading zero, and they read back as the value. */
  lemma {:induction false} NatToStringSpec(n: nat)
    ensures NatToString(n) != [] && AllDigits(NatToString(n))
    ensures |NatToString(n)| > 1 ==> NatToString(n)[0] != '0'
    ensures DigitsValue(NatToString(n)) == n
  {
    if n >= 10 {
      NatToStringSpec(n / 10);
      var r := NatToString(n);
      assert r[..|r| - 1] == NatToString(n / 10);
    }
  }

  /** Integer.parseInt reads back what Integer.toString writes, for every int. */
  lemma ParseRendered(n: int)
    requires MinInt <= n <= MaxInt
    ensures n >= 0 ==> ParseJavaInt(NatToString(n)) == Some(n)
    ensures n < 0 ==> ParseJavaInt("-" + NatToString(-n)) == Some(n)
  {
    if n < 0 {
      NatToStringSpec(-n);
      var s := "-" + NatToString(-n);
      assert s[1..] == NatToString(-n);
    } else {
      NatToStringSpec(n);
    }
  }

  /** Distinct values render to distinct strings. */
  lemma NatToStringInjective(m: nat, n: nat)
    requires NatToString(m) == NatToString(n)
    ensures m == n
  {
    NatToStringSpec(m);
    NatToStringSpec(n);
  }
}
