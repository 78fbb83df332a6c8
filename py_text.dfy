/**
  The Python 2 `str` operations the scripts rely on, over byte strings
  (`seq<char>` whose characters stand for bytes): whitespace and digit tests,
  ASCII lower-casing, `strip`, `split` and `join` on one separator character,
  `startswith`, the substring test `w in s`, `replace`, `str(int)` and `int(str)`.
  The same character classes serve the regular expressions of the scripts:
  `\s` in Python 2, and in PHP's PCRE from release 8.34 on (earlier
  releases leave out the vertical tab), is the set tested by IsSpace.
*/
module PyText {
  import opened Results

  /** Space, tab, line feed, vertical tab, form feed, carriage return. */
  predicate IsSpace(c: char) {
    c == ' ' || ('\t' <= c <= '\r')
  }

  predicate IsDigit(c: char) {
    '0' <= c <= '9'
  }

  predicate AllDigits(s: string) {
    forall i :: 0 <= i < |s| ==> IsDigit(s[i])
  }

  predicate IsAscii(s: string) {
    forall i :: 0 <= i < |s| ==> s[i] < 128 as char
  }

  function LowerChar(c: char): char {
    if 'A' <= c <= 'Z' then (c as int + 32) as char else c
  }

  /** `s.lower()` on a byte string: only ASCII letters change. */
  function Lower(s: string): (r: string)
    ensures |r| == |s|
    ensures forall i :: 0 <= i < |s| ==> r[i] == LowerChar(s[i])
  {
    seq(|s|, i requires 0 <= i < |s| => LowerChar(s[i]))
  }

  lemma LowerIdempotent(s: string)
    ensures Lower(Lower(s)) == Lower(s)
  {
  }

  // ---------------------------------------------------------------------------
  // strip()

  /** Number of leading whitespace characters. */
  function LeadingSpace(s: string): (k: nat)
    ensures k <= |s|
    ensures forall i :: 0 <= i < k ==> IsSpace(s[i])
    ensures k == |s| || !IsSpace(s[k])
  {
    if |s| > 0 && IsSpace(s[0]) then 1 + LeadingSpace(s[1..]) else 0
  }

  /** Number of trailing whitespace characters. */
  function TrailingSpace(s: string): (k: nat)
    ensures k <= |s|
    ensures forall i :: |s| - k <= i < |s| ==> IsSpace(s[i])
    ensures k == |s| || !IsSpace(s[|s| - 1 - k])
  {
    if |s| > 0 && IsSpace(s[|s| - 1]) then 1 + TrailingSpace(s[..|s| - 1]) else 0
  }

  /** `s.strip()`: whitespace removed from both ends. */
  function Strip(s: string): (r: string)
    ensures |r| <= |s|
    ensures r == [] || (!IsSpace(r[0]) && !IsSpace(r[|r| - 1]))
  {
    var i := LeadingSpace(s);
    var j := |s| - TrailingSpace(s[i..]);
    TrailingOfSuffix(s, i);
    s[i..j]
  }

  /** What strip removes is whitespace, and only at the two ends. */
  lemma StripTrims(s: string)
    ensures exists i, j :: 0 <= i <= j <= |s| && Strip(s) == s[i..j]
              && (forall k :: 0 <= k < i ==> IsSpace(s[k]))
              && (forall k :: j <= k < |s| ==> IsSpace(s[k]))
  {
    var i := LeadingSpace(s);
    var j := |s| - TrailingSpace(s[i..]);
    TrailingOfSuffix(s, i);
    assert Strip(s) == s[i..j];
  }

  /** The trailing whitespace of a suffix, located in the whole text. */
  lemma TrailingOfSuffix(s: string, i: nat)
    requires i <= |s|
    ensures var j := |s| - TrailingSpace(s[i..]);
            i <= j && (forall k :: j <= k < |s| ==> IsSpace(s[k])) && (j == i || !IsSpace(s[j - 1]))
  {
    var t := s[i..];
    var j := |s| - TrailingSpace(t);
    forall k | j <= k < |s| ensures IsSpace(s[k]) {
      assert s[k] == t[k - i];
    }
    if j > i {
      assert s[j - 1] == t[|t| - 1 - TrailingSpace(t)];
    }
  }

  // ---------------------------------------------------------------------------
  // split(c) and c.join(parts)

  function Count(s: string, c: char): nat {
    if s == [] then 0 else (if s[0] == c then 1 else 0) + Count(s[1..], c)
  }

  /** `s.split(c)` for a one-character separator `c`. */
  function Split(s: string, c: char): (r: seq<string>)
    ensures |r| >= 1
  {
    if s == [] then [""]
    else
      var rest := Split(s[1..], c);
      if s[0] == c then [""] + rest else [[s[0]] + rest[0]] + rest[1..]
  }

  /** `c.join(parts)` (PHP's `implode(c, parts)` alike). */
  function Join(parts: seq<string>, c: char): string {
    if parts == [] then ""
    else if |parts| == 1 then parts[0]
    else parts[0] + [c] + Join(parts[1..], c)
  }

  /** `''.join(parts)`. */
  function Concat(parts: seq<string>): string {
    if parts == [] then "" else Concat(parts[..|parts| - 1]) + parts[|parts| - 1]
  }

  /** Appending a part appends its text. */
  lemma ConcatSnoc(parts: seq<string>, last: string)
    ensures Concat(parts + [last]) == Concat(parts) + last
  {
    assert (parts + [last])[..|parts|] == parts;
  }

  predicate Free(s: string, c: char) {
    forall i :: 0 <= i < |s| ==> s[i] != c
  }

  /** `s.split(c)` yields one more part than `s` has separators. */
  lemma {:induction false} SplitCount(s: string, c: char)
    ensures |Split(s, c)| == Count(s, c) + 1
  {
    if s != [] {
      SplitCount(s[1..], c);
    }
  }

  /** No part of `s.split(c)` contains `c`. */
  lemma {:induction false} SplitPartsFree(s: string, c: char)
    ensures forall k :: 0 <= k < |Split(s, c)| ==> Free(Split(s, c)[k], c)
  {
    if s != [] {
      SplitPartsFree(s[1..], c);
    }
  }

  /** Joining the parts of a split gives back the string. */
  lemma {:induction false} JoinSplit(s: string, c: char)
    ensures Join(Split(s, c), c) == s
  {
    if s != [] {
      JoinSplit(s[1..], c);
      var rest := Split(s[1..], c);
      if s[0] == c {
        JoinSeparatorHead(rest, c);
      } else {
        JoinGlueHead(s[0], rest, c);
      }
      assert [s[0]] + s[1..] == s;
    }
  }

  lemma JoinSeparatorHead(rest: seq<string>, c: char)
    requires |rest| >= 1
    ensures Join([""] + rest, c) == [c] + Join(rest, c)
  {
    assert ([""] + rest)[1..] == rest;
  }

  lemma JoinGlueHead(x: char, rest: seq<string>, c: char)
    requires |rest| >= 1
    ensures Join([[x] + rest[0]] + rest[1..], c) == [x] + Join(rest, c)
  {
    var parts := [[x] + rest[0]] + rest[1..];
    if |rest| > 1 {
      assert parts[1..] == rest[1..];
    }
  }

  /** Splitting a join of separator-free parts gives back the parts. */
  lemma {:induction false} SplitJoin(parts: seq<string>, c: char)
    requires |parts| >= 1
    requires forall k :: 0 <= k < |parts| ==> Free(parts[k], c)
    ensures Split(Join(parts, c), c) == parts
  {
    if |parts| == 1 {
      SplitFree(parts[0], c);
    } else {
      SplitJoin(parts[1..], c);
      SplitPrefix(parts[0], Join(parts[1..], c), c);
    }
  }

  lemma {:induction false} SplitFree(s: string, c: char)
    requires Free(s, c)
    ensures Split(s, c) == [s]
  {
    if s != [] {
      SplitFree(s[1..], c);
      assert [s[0]] + s[1..] == s;
    }
  }

  /** A separator-free head followed by `c` becomes its own part. */
  lemma {:induction false} SplitPrefix(a: string, t: string, c: char)
    requires Free(a, c)
    ensures Split(a + [c] + t, c) == [a] + Split(t, c)
  {
    if a == [] {
      assert a + [c] + t == [c] + t;
      assert ([c] + t)[1..] == t;
    } else {
      assert (a + [c] + t)[1..] == a[1..] + [c] + t;
      SplitPrefix(a[1..], t, c);
      assert [a[0]] + a[1..] == a;
    }
  }

  // ---------------------------------------------------------------------------
  // startswith, `in`, first and last occurrence

  predicate IsPrefix(p: string, s: string) {
    |p| <= |s| && s[..|p|] == p
  }

  /** `w in s`: the substring test (true for the empty `w`). */
  predicate Contains(s: string, w: string)
    decreases |s|
  {
    IsPrefix(w, s) || (|s| > 0 && Contains(s[1..], w))
  }

  predicate OccursAt(s: string, w: string, i: int) {
    0 <= i && i + |w| <= |s| && s[i..i + |w|] == w
  }

  /** The substring test holds exactly when `w` occurs at some position of `s`. */
  lemma {:induction false} ContainsIff(s: string, w: string)
    ensures Contains(s, w) <==> exists i :: OccursAt(s, w, i)
    decreases |s|
  {
    if IsPrefix(w, s) {
      assert OccursAt(s, w, 0);
    }
    if |s| > 0 {
      ContainsIff(s[1..], w);
      if exists i :: OccursAt(s, w, i) {
        var i :| OccursAt(s, w, i);
        if i > 0 {
          assert s[1..][i - 1..i - 1 + |w|] == s[i..i + |w|];
          assert OccursAt(s[1..], w, i - 1);
        }
      }
      if Contains(s[1..], w) && !IsPrefix(w, s) {
        var i :| OccursAt(s[1..], w, i);
        assert s[i + 1..i + 1 + |w|] == s[1..][i..i + |w|];
        assert OccursAt(s, w, i + 1);
      }
    } else {
      if exists i :: OccursAt(s, w, i) {
        var i :| OccursAt(s, w, i);
        assert s[..|w|] == w;
      }
    }
  }

  /** Index of the first `c` in `s`, or |s| when there is none. */
  function FirstIndex(s: string, c: char): (k: nat)
    ensures k <= |s|
    ensures k < |s| ==> s[k] == c
    ensures Free(s[..k], c)
  {
    if s == [] then 0
    else if s[0] == c then 0
    else
      var k := 1 + FirstIndex(s[1..], c);
      assert s[..k] == [s[0]] + s[1..][..k - 1];
      k
  }

  /** The first `c` is the one with no `c` before it. */
  lemma {:induction false} FirstIndexAt(s: string, c: char, k: nat)
    requires k < |s| && s[k] == c && Free(s[..k], c)
    ensures FirstIndex(s, c) == k
  {
    if k > 0 {
      assert s[0] == s[..k][0];
      assert s[1..][..k - 1] == s[..k][1..];
      FirstIndexAt(s[1..], c, k - 1);
    }
  }

  /** No `c` comes before the first one. */
  lemma FirstIndexAtMost(s: string, c: char, m: nat)
    requires m < |s| && s[m] == c
    ensures FirstIndex(s, c) <= m
  {
    var k := FirstIndex(s, c);
    forall x | 0 <= x < k ensures s[x] != c {
      assert s[..k][x] == s[x];
    }
  }

  /** `s.rfind(c)`: index of the last `c`, or -1 when there is none. */
  function RFind(s: string, c: char): (k: int)
    ensures -1 <= k < |s|
    ensures k >= 0 ==> s[k] == c
    ensures forall i :: k < i < |s| ==> s[i] != c
  {
    if s == [] then -1
    else if s[|s| - 1] == c then |s| - 1
    else RFind(s[..|s| - 1], c)
  }

  // ---------------------------------------------------------------------------
  // replace(pat, repl)

  /** `s.replace(old, new)`: every non-overlapping occurrence of `pat`, scanning
      from the left, becomes `repl`; an empty `pat` inserts `repl` before every
      character and at the end. */
  function Replace(s: string, pat: string, repl: string): string
    decreases |s|
  {
    if pat == [] then
      (if s == [] then repl else repl + [s[0]] + Replace(s[1..], pat, repl))
    else if |s| < |pat| then s
    else if s[..|pat|] == pat then repl + Replace(s[|pat|..], pat, repl)
    else [s[0]] + Replace(s[1..], pat, repl)
  }

  /** A string without an occurrence of a non-empty `pat` is left alone. */
  lemma {:induction false} ReplaceAbsent(s: string, pat: string, repl: string)
    requires pat != []
    requires !Contains(s, pat)
    ensures Replace(s, pat, repl) == s
    decreases |s|
  {
    if |s| >= |pat| {
      ReplaceAbsent(s[1..], pat, repl);
    }
  }

  /** A string starting with `pat` starts with `repl` after the replacement;
      with no further occurrence the rest is kept: the prefix is re-rooted. */
  lemma ReplaceRoot(pat: string, t: string, repl: string)
    requires pat != []
    requires !Contains(t, pat)
    ensures Replace(pat + t, pat, repl) == repl + t
  {
    assert (pat + t)[..|pat|] == pat;
    assert (pat + t)[|pat|..] == t;
    ReplaceAbsent(t, pat, repl);
  }

  // ---------------------------------------------------------------------------
  // str(int) and int(str)

  function DigitChar(d: nat): char
    requires d < 10
  {
    (48 + d) as char
  }

  function DigitValue(c: char): nat
    requires IsDigit(c)
  {
    c as int - 48
  }

  /** `str(n)` for a natural number: decimal digits, no leading zero. */
  function NatToDecimal(n: nat): (r: string)
    ensures |r| >= 1 && AllDigits(r)
    ensures r[0] == '0' ==> n == 0
    decreases n
  {
    if n < 10 then [DigitChar(n)] else NatToDecimal(n / 10) + [DigitChar(n % 10)]
  }

  /** `str(i)`: a minus sign before the digits of a negative number. */
  function IntToDecimal(i: int): (r: string)
    ensures |r| >= 1
    ensures r[0] == '-' <==> i < 0
    ensures AllDigits(if i < 0 then r[1..] else r)
  {
    if i < 0 then "-" + NatToDecimal(-i) else NatToDecimal(i)
  }

  /** The number a run of decimal digits denotes. */
  function DigitsValue(s: string): nat
    requires AllDigits(s)
  {
    if s == [] then 0 else DigitsValue(s[..|s| - 1]) * 10 + DigitValue(s[|s| - 1])
  }

  /** Reading the decimal rendering of `n` gives back `n`. */
  lemma {:induction false} DecimalRoundTrip(n: nat)
    ensures DigitsValue(NatToDecimal(n)) == n
    decreases n
  {
    if n >= 10 {
      DecimalRoundTrip(n / 10);
      var r := NatToDecimal(n);
      assert r[..|r| - 1] == NatToDecimal(n / 10);
    }
  }

  /** Python 2's `int(s)` in base 10: surrounding whitespace, an optional sign
      and one or more decimal digits; anything else raises ValueError (None). */
  function PyInt(s: string): Option<int> {
    SignedDigits(Strip(s))
  }

  /** An optional sign, then one or more decimal digits. */
  function SignedDigits(t: string): Option<int> {
    if |t| > 0 && (t[0] == '-' || t[0] == '+') then
      (if |t| > 1 && AllDigits(t[1..])
       then var v: int := DigitsValue(t[1..]); Some(if t[0] == '-' then -v else v)
       else None)
    else if |t| > 0 && AllDigits(t) then Some(DigitsValue(t))
    else None
  }

  lemma StripNoSpace(s: string)
    requires s != [] && !IsSpace(s[0]) && !IsSpace(s[|s| - 1])
    ensures Strip(s) == s
  {
  }

  /** `int()` of text without whitespace at either end reads it as it is. */
  lemma PyIntOfStripped(s: string)
    requires s != [] && !IsSpace(s[0]) && !IsSpace(s[|s| - 1])
    ensures PyInt(s) == SignedDigits(s)
  {
    StripNoSpace(s);
  }

  lemma PyIntOfDigits(d: string)
    requires |d| >= 1 && AllDigits(d)
    ensures PyInt(d) == Some(DigitsValue(d))
  {
    PyIntOfStripped(d);
    assert d[0] != '-' && d[0] != '+';
  }

  lemma SignedDigitsNegated(s: string, d: string)
    requires s == "-" + d && |d| >= 1 && AllDigits(d)
    ensures SignedDigits(s) == Some(-(DigitsValue(d) as int))
  {
    assert s[1..] == d;
  }

  /** `int('-' + d)` is minus the value of the digits `d`. */
  lemma PyIntOfNegated(s: string, d: string, n: nat)
    requires s == "-" + d && |d| >= 1 && AllDigits(d) && DigitsValue(d) == n
    ensures PyInt(s) == Some(-(n as int))
  {
    NegatedEnds(s, d);
    SignedDigitsNegated(s, d);
    PyIntOfStrippedIs(s, Some(-(n as int)));
  }

  lemma PyIntOfStrippedIs(s: string, v: Option<int>)
    requires s != [] && !IsSpace(s[0]) && !IsSpace(s[|s| - 1]) && SignedDigits(s) == v
    ensures PyInt(s) == v
  {
    PyIntOfStripped(s);
  }

  lemma NegatedEnds(s: string, d: string)
    requires s == "-" + d && |d| >= 1 && AllDigits(d)
    ensures s != [] && !IsSpace(s[0]) && !IsSpace(s[|s| - 1])
  {
    assert IsDigit(d[|d| - 1]);
    assert s[|s| - 1] == d[|d| - 1];
  }

  /** `int(str(i)) == i`. */
  lemma PyIntRoundTrip(i: int)
    ensures PyInt(IntToDecimal(i)) == Some(i)
  {
    if i < 0 {
      var n: nat := -i;
      var d := NatToDecimal(n);
      assert IntToDecimal(i) == "-" + d;
      DecimalRoundTrip(n);
      PyIntOfNegated(IntToDecimal(i), d, n);
    } else {
      DecimalRoundTrip(i);
      PyIntOfDigits(NatToDecimal(i));
    }
  }

  // ---------------------------------------------------------------------------
  // filter(f, list)

  /** `a` is `b` with some elements dropped, the rest in the same order. */
  predicate Subsequence<T(==)>(a: seq<T>, b: seq<T>)
    decreases |b|
  {
    a == [] || (b != [] && ((a[0] == b[0] && Subsequence(a[1..], b[1..])) || Subsequence(a, b[1..])))
  }

  /** Python 2's `filter(keep, xs)` on a list: the elements `keep` accepts, in order. */
  function Filter<T(==,!new)>(xs: seq<T>, keep: T -> bool): (r: seq<T>)
    ensures forall x :: x in r <==> x in xs && keep(x)
  {
    if xs == [] then []
    else
      var rest := Filter(xs[1..], keep);
      if keep(xs[0]) then [xs[0]] + rest else rest
  }

  /** Filtering keeps every copy of what it keeps and drops every copy of the rest. */
  lemma {:induction false} FilterMultiset<T(!new)>(xs: seq<T>, keep: T -> bool)
    ensures forall x :: multiset(Filter(xs, keep))[x] == if keep(x) then multiset(xs)[x] else 0
  {
    if xs != [] {
      FilterMultiset(xs[1..], keep);
      assert xs == [xs[0]] + xs[1..];
    }
  }

  /** Filtering keeps the order of what it keeps. */
  lemma {:induction false} FilterSubsequence<T(!new)>(xs: seq<T>, keep: T -> bool)
    ensures Subsequence(Filter(xs, keep), xs)
  {
    if xs != [] {
      FilterSubsequence(xs[1..], keep);
      var rest := Filter(xs[1..], keep);
      if !keep(xs[0]) {
        SubsequenceOfTail(rest, xs);
      }
    }
  }

  lemma SubsequenceOfTail<T>(a: seq<T>, b: seq<T>)
    requires b != [] && Subsequence(a, b[1..])
    ensures Subsequence(a, b)
  {
  }

  /** Filtering distributes over concatenation. */
  lemma {:induction false} FilterAppend<T(!new)>(a: seq<T>, b: seq<T>, keep: T -> bool)
    ensures Filter(a + b, keep) == Filter(a, keep) + Filter(b, keep)
  {
    if a != [] {
      var ab := a + b;
      assert ab[0] == a[0] && ab[1..] == a[1..] + b;
      FilterAppend(a[1..], b, keep);
      var head := if keep(a[0]) then [a[0]] else [];
      assert Filter(ab, keep) == head + Filter(ab[1..], keep);
      assert Filter(a, keep) == head + Filter(a[1..], keep);
    } else {
      assert a + b == b;
    }
  }
}
