/**
  The two `os.path` functions the post-processor relies on, with POSIX
  semantics (`posixpath`): `basename` and `splitext`.
*/
module PosixPath {
  import opened PyText

  predicate IsSuffix(t: string, s: string) {
    |t| <= |s| && s[|s| - |t|..] == t
  }

  /** `os.path.basename`: the text after the last '/'. */
  function Basename(p: string): (r: string)
    ensures IsSuffix(r, p) && Free(r, '/')
    ensures |r| < |p| ==> p[|p| - |r| - 1] == '/'
  {
    p[RFind(p, '/') + 1..]
  }

  predicate AllDots(s: string) {
    forall i :: 0 <= i < |s| ==> s[i] == '.'
  }

  /** `os.path.splitext`: the extension runs from the last '.' of the final
      path component, provided that dot is preceded in the component by
      something other than dots; otherwise it is empty. */
  function Splitext(p: string): (r: (string, string))
    ensures r.0 + r.1 == p
  {
    var sep := RFind(p, '/');
    var dot := RFind(p, '.');
    if dot > sep && !AllDots(p[sep + 1..dot]) then (p[..dot], p[dot..]) else (p, "")
  }

  /** The extension of `p`: the second half of `splitext`. */
  function Ext(p: string): string {
    Splitext(p).1
  }

  /** The root of `p`: the first half of `splitext`. */
  function Root(p: string): string {
    Splitext(p).0
  }

  /** The final component of p[..dot] starts just after the last '/' before it. */
  lemma BasenameBefore(p: string, sep: int, dot: int)
    requires -1 <= sep < dot < |p|
    requires forall i :: sep < i < |p| ==> p[i] != '/'
    requires sep >= 0 ==> p[sep] == '/'
    ensures Basename(p[..dot]) == p[sep + 1..dot]
  {
  }

  /** A non-empty extension is a '.' followed by neither '.' nor '/', and the
      component it ends has something other than dots before it. */
  lemma ExtShape(p: string)
    requires Ext(p) != ""
    ensures Ext(p)[0] == '.' && Free(Ext(p)[1..], '.') && Free(Ext(p), '/')
    ensures !AllDots(Basename(Root(p)))
  {
    var sep := RFind(p, '/');
    var dot := RFind(p, '.');
    BasenameBefore(p, sep, dot);
    var e := p[dot..];
    assert Ext(p) == e;
    forall i | 0 <= i < |e[1..]| ensures e[1..][i] != '.' {
      assert e[1..][i] == p[dot + 1 + i];
    }
    forall i | 0 <= i < |e| ensures e[i] != '/' {
      assert e[i] == p[dot + i];
    }
  }

  /** A dot at `i` could start the extension: no '.' after it and no '/' from it on. */
  predicate LastDotOfComponent(p: string, i: int) {
    0 <= i < |p| && p[i] == '.' && Free(p[i + 1..], '.') && Free(p[i..], '/')
  }

  /** Only the last dot can be that dot, and only when it follows the last '/'. */
  lemma LastDotOfComponentIs(p: string, i: int)
    requires LastDotOfComponent(p, i)
    ensures i == RFind(p, '.') && RFind(p, '/') < i
  {
  }

  /** The extension is empty exactly when no dot qualifies: the dot that
      could start it has only dots before it in its path component. */
  lemma ExtEmptyIff(p: string)
    ensures Ext(p) == "" <==>
              forall i :: LastDotOfComponent(p, i) ==> AllDots(Basename(p[..i]))
  {
    if Ext(p) == "" {
      forall i | LastDotOfComponent(p, i) ensures AllDots(Basename(p[..i])) {
        ExtEmptyAt(p, i);
      }
    } else {
      ExtNonEmptyAt(p);
    }
  }

  /** With no extension, a dot that could start one has only dots before it. */
  lemma ExtEmptyAt(p: string, i: int)
    requires Ext(p) == "" && LastDotOfComponent(p, i)
    ensures AllDots(Basename(p[..i]))
  {
    LastDotOfComponentIs(p, i);
    BasenameBefore(p, RFind(p, '/'), i);
  }

  /** A non-empty extension starts at a dot that qualifies. */
  lemma ExtNonEmptyAt(p: string)
    requires Ext(p) != ""
    ensures LastDotOfComponent(p, RFind(p, '.')) && !AllDots(Basename(p[..RFind(p, '.')]))
  {
    var sep, dot := RFind(p, '/'), RFind(p, '.');
    ExtNonEmptyCondition(p);
    BasenameBefore(p, sep, dot);
    NotAllDotsSame(Basename(p[..dot]), p[sep + 1..dot]);
    FreeAfter(p, dot + 1, '.');
    FreeAfter(p, dot, '/');
  }

  lemma NotAllDotsSame(b: string, s: string)
    requires b == s && !AllDots(s)
    ensures !AllDots(b)
  {
  }

  /** The text from `i` on is free of `c` when every index from `i` on is. */
  lemma FreeAfter(p: string, i: int, c: char)
    requires 0 <= i <= |p|
    requires forall k :: i <= k < |p| ==> p[k] != c
    ensures Free(p[i..], c)
  {
    forall k | 0 <= k < |p| - i ensures p[i..][k] != c {
      assert p[i..][k] == p[i + k];
    }
  }

  /** A non-empty extension means the split took its first branch. */
  lemma ExtNonEmptyCondition(p: string)
    requires Ext(p) != ""
    ensures RFind(p, '.') > RFind(p, '/') && !AllDots(p[RFind(p, '/') + 1..RFind(p, '.')])
  {
  }
}
