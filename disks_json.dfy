/**
  disks.json.php: the file server's report of its disks. Each line of
  `df -P` output is matched against six whitespace-separated groups (device,
  size, used, available, use, mount); every matching line other than the
  header becomes a JSON object with those six keys, and the objects are
  printed as a JSON array, in line order.

  The pattern is unanchored and its groups are greedy `[^\s]+` separated by
  `\s*`, so a match exists as soon as a line holds six non-space characters:
  the groups then split the tokens as the backtracking search leaves them.
*/
module DisksJson {
  import opened Results
  import opened PyText

  // ---------------------------------------------------------------------------
  // Tokens

  predicate NoSpace(s: string) {
    forall i :: 0 <= i < |s| ==> !IsSpace(s[i])
  }

  /** The text from the first non-space character on. */
  function SkipSpace(s: string): (r: string)
    ensures |r| <= |s| && r == s[|s| - |r|..]
    ensures r == [] || !IsSpace(r[0])
    ensures forall i :: 0 <= i < |s| - |r| ==> IsSpace(s[i])
  {
    s[LeadingSpace(s)..]
  }

  /** Length of the run of non-space characters at the front. */
  function TokenLength(s: string): (k: nat)
    ensures k <= |s|
    ensures NoSpace(s[..k])
    ensures k == |s| || IsSpace(s[k])
  {
    if s == [] || IsSpace(s[0]) then 0
    else
      var k := 1 + TokenLength(s[1..]);
      assert s[..k] == [s[0]] + s[1..][..k - 1];
      k
  }

  function NonSpaceCount(s: string): nat {
    if s == [] then 0 else (if IsSpace(s[0]) then 0 else 1) + NonSpaceCount(s[1..])
  }

  /** The whitespace-separated tokens of `s`, in order. */
  function Words(s: string): (w: seq<string>)
    ensures forall k :: 0 <= k < |w| ==> w[k] != "" && NoSpace(w[k])
    decreases |s|
  {
    var t := SkipSpace(s);
    if t == [] then []
    else
      var n := TokenLength(t);
      var rest := Words(t[n..]);
      WordsCons(t[..n], rest);
      [t[..n]] + rest
  }

  lemma WordsCons(word: string, rest: seq<string>)
    requires word != [] && NoSpace(word)
    requires forall k :: 0 <= k < |rest| ==> rest[k] != "" && NoSpace(rest[k])
    ensures forall k :: 0 <= k < |rest| + 1 ==> ([word] + rest)[k] != "" && NoSpace(([word] + rest)[k])
  {
  }

  lemma {:induction false} NonSpaceOfSpaces(s: string, k: nat)
    requires k <= |s| && forall i :: 0 <= i < k ==> IsSpace(s[i])
    ensures NonSpaceCount(s[k..]) == NonSpaceCount(s)
  {
    if k > 0 {
      NonSpaceOfSpaces(s[1..], k - 1);
      assert s[1..][k - 1..] == s[k..];
    }
  }

  lemma {:induction false} NonSpaceOfToken(s: string, k: nat)
    requires k <= |s| && NoSpace(s[..k])
    ensures NonSpaceCount(s[k..]) + k == NonSpaceCount(s)
  {
    if k > 0 {
      assert !IsSpace(s[..k][0]);
      assert s[1..][..k - 1] == s[..k][1..];
      NonSpaceOfToken(s[1..], k - 1);
      assert s[1..][k - 1..] == s[k..];
    }
  }

  /** Every token holds at least one non-space character. */
  lemma {:induction false} WordsBound(s: string)
    ensures |Words(s)| <= NonSpaceCount(s)
    decreases |s|
  {
    var t := SkipSpace(s);
    NonSpaceOfSpaces(s, |s| - |t|);
    if t != [] {
      var n := TokenLength(t);
      WordsBound(t[n..]);
      NonSpaceOfToken(t, n);
    }
  }

  // ---------------------------------------------------------------------------
  // The match

  /** `s` starts with the groups, each followed by optional whitespace
      before the next: `g0 \s* g1 \s* ... gN`. */
  predicate Follows(s: string, gs: seq<string>)
    decreases |gs|
  {
    |gs| >= 1 && IsPrefix(gs[0], s) && (|gs| == 1 || Follows(SkipSpace(s[|gs[0]|..]), gs[1..]))
  }

  function Min(a: int, b: int): int {
    if a <= b then a else b
  }

  /** The captures of `n` greedy groups from the front of `s`: each group
      takes the rest of its token, but leaves at least one non-space
      character for every group after it. */
  function Groups(s: string, n: nat): (gs: seq<string>)
    requires 1 <= n <= NonSpaceCount(s)
    requires !IsSpace(s[0])
    ensures |gs| == n
    decreases n
  {
    if n == 1 then [s[..TokenLength(s)]]
    else
      var len := FirstGroupLength(s, n);
      [s[..len]] + Groups(SkipSpace(s[len..]), n - 1)
  }

  /** Length of the first of `n >= 2` groups: the rest of its token, but no
      more than leaves one non-space character for every later group. */
  function FirstGroupLength(s: string, n: nat): (len: nat)
    requires 2 <= n <= NonSpaceCount(s) && !IsSpace(s[0])
    ensures 1 <= len <= |s| && NoSpace(s[..len])
    ensures var rest := SkipSpace(s[len..]);
            rest != [] && 1 <= n - 1 <= NonSpaceCount(rest) && !IsSpace(rest[0])
  {
    var len := Min(TokenLength(s), NonSpaceCount(s) - (n - 1));
    GroupRest(s, n, len);
    len
  }

  /** No group is empty or holds a space. */
  lemma {:induction false} GroupsShape(s: string, n: nat)
    requires 1 <= n <= NonSpaceCount(s) && !IsSpace(s[0])
    ensures forall k :: 0 <= k < n ==> Groups(s, n)[k] != "" && NoSpace(Groups(s, n)[k])
    decreases n
  {
    if n > 1 {
      var len, rest := GroupSplit(s, n);
      GroupsShape(rest, n - 1);
      GroupsUnfold(s, n, len, rest);
      GroupsCons(s[..len], Groups(rest, n - 1));
    } else {
      var t := TokenLength(s);
      assert t != 0;
      assert Groups(s, 1) == [s[..t]];
    }
  }

  /** The first of `n` groups is a non-empty run of non-space characters and
      leaves at least `n - 1` of them, starting with one, after the spaces. */
  lemma GroupRest(s: string, n: nat, len: int)
    requires 2 <= n <= NonSpaceCount(s) && s != [] && !IsSpace(s[0])
    requires len == Min(TokenLength(s), NonSpaceCount(s) - (n - 1))
    ensures 1 <= len <= |s| && NoSpace(s[..len])
    ensures var rest := SkipSpace(s[len..]);
            n - 1 <= NonSpaceCount(rest) && rest != [] && !IsSpace(rest[0])
  {
    var t := TokenLength(s);
    assert NoSpace(s[..len]) by {
      assert forall i :: 0 <= i < len ==> s[..len][i] == s[..t][i];
    }
    NonSpaceOfToken(s, len);
    var rest := SkipSpace(s[len..]);
    NonSpaceOfSpaces(s[len..], |s[len..]| - |rest|);
  }

  /** Where the first of `n` groups ends, and the rest after the spaces that follow it. */
  lemma GroupSplit(s: string, n: nat) returns (len: nat, rest: string)
    requires 2 <= n <= NonSpaceCount(s) && !IsSpace(s[0])
    ensures len == FirstGroupLength(s, n)
    ensures 1 <= len <= |s| && rest == SkipSpace(s[len..])
    ensures 1 <= n - 1 <= NonSpaceCount(rest) && !IsSpace(rest[0])
  {
    len := FirstGroupLength(s, n);
    rest := SkipSpace(s[len..]);
  }

  /** A group in front of groups that are all non-empty runs of non-space
      characters. */
  lemma GroupsCons(g: string, gs: seq<string>)
    requires g != "" && NoSpace(g)
    requires forall k :: 0 <= k < |gs| ==> gs[k] != "" && NoSpace(gs[k])
    ensures forall k :: 0 <= k < |gs| + 1 ==> ([g] + gs)[k] != "" && NoSpace(([g] + gs)[k])
  {
    forall k | 0 <= k < |gs| + 1 ensures ([g] + gs)[k] != "" && NoSpace(([g] + gs)[k]) {
      if k > 0 {
        assert ([g] + gs)[k] == gs[k - 1];
      }
    }
  }

  /** The captures are a match of the pattern at the front of `s`. */
  lemma {:induction false} GroupsFollow(s: string, n: nat)
    requires 1 <= n <= NonSpaceCount(s) && !IsSpace(s[0])
    ensures Follows(s, Groups(s, n))
    decreases n
  {
    if n > 1 {
      var len, rest := GroupSplit(s, n);
      GroupsFollow(rest, n - 1);
      GroupsFollowStep(s, n, len, rest);
    } else {
      GroupsFollowOne(s);
    }
  }

  lemma GroupsFollowOne(s: string)
    requires 1 <= NonSpaceCount(s) && !IsSpace(s[0])
    ensures Follows(s, Groups(s, 1))
  {
    assert Groups(s, 1) == [s[..TokenLength(s)]];
  }

  /** The first group in front of a match of the others is a match. */
  lemma GroupsFollowStep(s: string, n: nat, len: int, rest: string)
    requires 2 <= n <= NonSpaceCount(s) && !IsSpace(s[0])
    requires len == FirstGroupLength(s, n)
    requires 0 <= len <= |s| && rest == SkipSpace(s[len..])
    requires 1 <= n - 1 <= NonSpaceCount(rest) && !IsSpace(rest[0])
    requires Follows(rest, Groups(rest, n - 1))
    ensures Follows(s, Groups(s, n))
  {
    FollowsCons(s, s[..len], Groups(rest, n - 1));
    GroupsUnfold(s, n, len, rest);
  }

  /** The groups after the first are the groups of what follows it and the spaces. */
  lemma GroupsUnfold(s: string, n: nat, len: int, rest: string)
    requires 2 <= n <= NonSpaceCount(s) && !IsSpace(s[0])
    requires len == FirstGroupLength(s, n)
    requires 0 <= len <= |s| && rest == SkipSpace(s[len..])
    requires 1 <= n - 1 <= NonSpaceCount(rest) && !IsSpace(rest[0])
    ensures Groups(s, n) == [s[..len]] + Groups(rest, n - 1)
  {
  }

  /** A group at the front of `s`, then groups that follow the spaces after it. */
  lemma FollowsCons(s: string, g: string, gs: seq<string>)
    requires IsPrefix(g, s) && Follows(SkipSpace(s[|g|..]), gs)
    ensures Follows(s, [g] + gs)
  {
    assert ([g] + gs)[1..] == gs;
  }

  /** The six groups of one line. */
  datatype DfFields = DfFields(device: string, size: string, used: string, available: string,
                               use: string, mount: string)

  function FieldList(f: DfFields): seq<string> {
    [f.device, f.size, f.used, f.available, f.use, f.mount]
  }

  function Fields(g: seq<string>): (f: DfFields)
    requires |g| == 6
    ensures FieldList(f) == g
  {
    DfFields(g[0], g[1], g[2], g[3], g[4], g[5])
  }

  /** preg_match of the six-group pattern: the leftmost match starts at the
      first non-space character; there is none with fewer than six non-space
      characters in the line. */
  function Capture(line: string): (m: Option<DfFields>)
    ensures m.Some? <==> NonSpaceCount(line) >= 6
  {
    var t := SkipSpace(line);
    NonSpaceOfSpaces(line, |line| - |t|);
    if NonSpaceCount(t) < 6 then None
    else
      Some(Fields(Groups(t, 6)))
  }

  /** A match is the six groups of the pattern, in order, from the first
      non-space character of the line; none is empty or holds a space. */
  lemma CaptureIsMatch(line: string)
    requires Capture(line).Some?
    ensures Follows(SkipSpace(line), FieldList(Capture(line).value))
    ensures forall k :: 0 <= k < 6 ==> FieldList(Capture(line).value)[k] != ""
    ensures forall k :: 0 <= k < 6 ==> NoSpace(FieldList(Capture(line).value)[k])
  {
    var t := SkipSpace(line);
    NonSpaceOfSpaces(line, |line| - |t|);
    GroupsFollow(t, 6);
    GroupsShape(t, 6);
  }

  lemma SkipSpaceOfWord(s: string)
    requires s != [] && !IsSpace(s[0])
    ensures SkipSpace(s) == s
  {
  }

  lemma WordsOfSkip(s: string)
    ensures Words(SkipSpace(s)) == Words(s)
  {
    var t := SkipSpace(s);
    if t != [] {
      SkipSpaceOfWord(t);
    }
  }

  /** The first group, when it is a whole token, leaves the rest to the
      other groups. */
  lemma GroupsStep(s: string, n: nat)
    requires 2 <= n <= NonSpaceCount(s) && !IsSpace(s[0])
    requires TokenLength(s) + (n - 1) <= NonSpaceCount(s)
    ensures var t := TokenLength(s);
            var rest := SkipSpace(s[t..]);
            NonSpaceCount(rest) >= n - 1 && rest != [] && !IsSpace(rest[0])
            && Groups(s, n) == [s[..t]] + Groups(rest, n - 1)
  {
    var t := TokenLength(s);
    NonSpaceOfToken(s, t);
    var rest := SkipSpace(s[t..]);
    NonSpaceOfSpaces(s[t..], |s[t..]| - |rest|);
    assert FirstGroupLength(s, n) == t;
  }

  /** With enough tokens each group is a whole token. */
  lemma {:induction false} GroupsOfWords(s: string, n: nat)
    requires 1 <= n <= |Words(s)| && s != [] && !IsSpace(s[0])
    ensures n <= NonSpaceCount(s)
    ensures Groups(s, n) == Words(s)[..n]
    decreases n
  {
    WordsBound(s);
    var t := TokenLength(s);
    SkipSpaceOfWord(s);
    var w := Words(s);
    assert w == [s[..t]] + Words(s[t..]);
    TakeCons(w, n);
    if n > 1 {
      WordsBound(s[t..]);
      NonSpaceOfToken(s, t);
      GroupsStep(s, n);
      var rest := SkipSpace(s[t..]);
      WordsOfSkip(s[t..]);
      GroupsOfWords(rest, n - 1);
    }
  }

  lemma TakeCons<T>(w: seq<T>, n: nat)
    requires 1 <= n <= |w|
    ensures w[..n] == [w[0]] + w[1..][..n - 1]
  {
  }

  /** A line of at least six tokens yields its first six tokens; the rest of
      the line, such as the remainder of a mount point holding a space, is
      dropped. */
  lemma SixTokens(line: string)
    requires |Words(line)| >= 6
    ensures Capture(line).Some? && FieldList(Capture(line).value) == Words(line)[..6]
  {
    var t := SkipSpace(line);
    WordsOfSkip(line);
    SixGroups(t);
    CaptureOfSix(line, t);
  }

  lemma SixGroups(t: string)
    requires |Words(t)| >= 6 && (t == [] || !IsSpace(t[0]))
    ensures t != [] && 6 <= NonSpaceCount(t) && !IsSpace(t[0]) && Groups(t, 6) == Words(t)[..6]
  {
    WordsBound(t);
    GroupsOfWords(t, 6);
  }

  lemma CaptureOfSix(line: string, t: string)
    requires t == SkipSpace(line) && 6 <= NonSpaceCount(t) && !IsSpace(t[0])
    ensures Capture(line) == Some(Fields(Groups(t, 6)))
  {
    NonSpaceOfSpaces(line, |line| - |t|);
  }

  // ---------------------------------------------------------------------------
  // The JSON text

  /** A JSON string token written as the script writes it: the text between
      double quotes, unescaped. */
  function Quoted(s: string): string {
    "\"" + s + "\""
  }

  /** The six `"key" : value` members, in the order they are appended;
      device, use and mount are quoted, the three numbers are not. */
  function MemberTexts(f: DfFields): seq<string> {
    [Quoted("device") + " : " + Quoted(f.device),
     Quoted("size") + " : " + f.size,
     Quoted("used") + " : " + f.used,
     Quoted("available") + " : " + f.available,
     Quoted("use") + " : " + Quoted(f.use),
     Quoted("mount") + " : " + Quoted(f.mount)]
  }

  /** One object: the members joined by commas inside braces. */
  function RecordJson(f: DfFields): string {
    "{" + Join(MemberTexts(f), ',') + "}"
  }

  /** Joining six parts: each part, then the separator, then the join of the rest. */
  lemma Join6(a: string, b: string, c: string, d: string, e: string, f: string, sep: char)
    ensures Join([a, b, c, d, e, f], sep) == a + [sep] + (b + [sep] + (c + [sep] + (d + [sep] + (e + [sep] + f))))
  {
    var j5 := e + [sep] + f;
    assert Join([e, f], sep) == j5 by {
      assert [e, f][1..] == [f];
    }
    var j4 := d + [sep] + j5;
    assert Join([d, e, f], sep) == j4 by {
      assert [d, e, f][1..] == [e, f];
    }
    var j3 := c + [sep] + j4;
    assert Join([c, d, e, f], sep) == j3 by {
      assert [c, d, e, f][1..] == [d, e, f];
    }
    var j2 := b + [sep] + j3;
    assert Join([b, c, d, e, f], sep) == j2 by {
      assert [b, c, d, e, f][1..] == [c, d, e, f];
    }
    assert [a, b, c, d, e, f][1..] == [b, c, d, e, f];
  }

  /** The exact text of an object: keys in order, separated by commas,
      field text verbatim. */
  lemma RecordLayout(f: DfFields)
    ensures RecordJson(f) ==
              "{" + ((Quoted("device") + " : " + Quoted(f.device))
                     + "," + ((Quoted("size") + " : " + f.size)
                     + "," + ((Quoted("used") + " : " + f.used)
                     + "," + ((Quoted("available") + " : " + f.available)
                     + "," + ((Quoted("use") + " : " + Quoted(f.use))
                     + "," + (Quoted("mount") + " : " + Quoted(f.mount))))))) + "}"
  {
    var m := MemberTexts(f);
    Join6(m[0], m[1], m[2], m[3], m[4], m[5], ',');
    assert m == [m[0], m[1], m[2], m[3], m[4], m[5]];
  }

  /** The object a line contributes, if any: a match whose device is not the
      header's "Filesystem" (a matched device is never empty). */
  function LineRecord(line: string): (r: Option<string>)
    ensures r.Some? <==> Capture(line).Some? && Capture(line).value.device != "Filesystem"
    ensures r.Some? ==> r.value == RecordJson(Capture(line).value)
  {
    match Capture(line)
    case None => None
    case Some(f) => if f.device != "" && f.device != "Filesystem" then Some(RecordJson(f)) else None
  }

  /** What one line contributes: its object, or nothing. */
  function Emitted(line: string): seq<string> {
    if LineRecord(line).Some? then [LineRecord(line).value] else []
  }

  /** What each element contributes, in order. */
  function FlatMap(xs: seq<string>, f: string -> seq<string>): seq<string> {
    if xs == [] then [] else FlatMap(xs[..|xs| - 1], f) + f(xs[|xs| - 1])
  }

  lemma {:induction false} FlatMapAppend(a: seq<string>, b: seq<string>, f: string -> seq<string>)
    ensures FlatMap(a + b, f) == FlatMap(a, f) + FlatMap(b, f)
    decreases |b|
  {
    if b == [] {
      assert a + b == a;
    } else {
      var b', last := b[..|b| - 1], b[|b| - 1];
      assert (a + b)[..|a + b| - 1] == a + b' && (a + b)[|a + b| - 1] == last;
      FlatMapAppend(a, b', f);
      AppendStep(FlatMap(a, f), FlatMap(b', f), f(last), FlatMap(a + b', f), FlatMap(a + b, f), FlatMap(b, f));
    }
  }

  /** Appending the same objects to both sides keeps them equal. */
  lemma AppendStep(ra: seq<string>, rb': seq<string>, e: seq<string>, rab': seq<string>, rab: seq<string>, rb: seq<string>)
    requires rab' == ra + rb' && rab == rab' + e && rb == rb' + e
    ensures rab == ra + rb
  {
  }

  /** The objects of all lines, in line order. */
  function Records(lines: seq<string>): seq<string> {
    FlatMap(lines, Emitted)
  }

  /** Each part of the output contributes its own objects, in order. */
  lemma RecordsAppend(a: seq<string>, b: seq<string>)
    ensures Records(a + b) == Records(a) + Records(b)
  {
    FlatMapAppend(a, b, Emitted);
  }

  /** One more line adds what it contributes. */
  lemma RecordsSnoc(lines: seq<string>, line: string)
    ensures Records(lines + [line]) == Records(lines) + Emitted(line)
  {
    assert (lines + [line])[..|lines|] == lines;
  }

  /** A line of the header's shape, "Filesystem" then at least five more
      tokens, contributes nothing. */
  lemma HeaderSkipped(line: string)
    requires |Words(line)| >= 6 && Words(line)[0] == "Filesystem"
    ensures LineRecord(line).None?
  {
    SixTokens(line);
  }

  /** A qualifying line of six tokens contributes one object, its tokens in order. */
  lemma DataLine(line: string)
    requires |Words(line)| >= 6 && Words(line)[0] != "Filesystem"
    ensures var w := Words(line);
            Records([line]) == [RecordJson(DfFields(w[0], w[1], w[2], w[3], w[4], w[5]))]
  {
    SixTokens(line);
    var w := Words(line);
    var f := Capture(line).value;
    assert f == Fields(FieldList(f));
    assert FieldList(f) == w[..6];
    var r := LineRecord(line);
    assert r == Some(RecordJson(f));
    RecordsSnoc([], line);
    assert [] + [line] == [line];
  }

  /** The body of the loop for a qualifying line: the members appended one
      by one, then joined inside braces. */
  method BuildRecord(f: DfFields) returns (record: string)
    ensures record == RecordJson(f)
  {
    var df: seq<string> := [];
    df := df + [Quoted("device") + " : " + Quoted(f.device)];
    df := df + [Quoted("size") + " : " + f.size];
    df := df + [Quoted("used") + " : " + f.used];
    df := df + [Quoted("available") + " : " + f.available];
    df := df + [Quoted("use") + " : " + Quoted(f.use)];
    df := df + [Quoted("mount") + " : " + Quoted(f.mount)];
    assert df == MemberTexts(f);
    record := "{" + Join(df, ',') + "}";
  }

  /** disks.json.php: the objects of the qualifying lines of `output`, in
      order, joined by commas inside brackets. */
  method DisksJson(output: seq<string>) returns (json: string)
    ensures json == "[" + Join(Records(output), ',') + "]"
  {
    var ln: seq<string> := [];
    for i := 0 to |output|
      invariant ln == Records(output[..i])
    {
      var emitted := LineObjects(output[i]);
      RecordsPrefixStep(output, i);
      ln := ln + emitted;
    }
    assert output[..|output|] == output;
    json := "[" + Join(ln, ',') + "]";
  }

  /** The body of the loop for one line: the object it appends, if any. */
  method LineObjects(line: string) returns (emitted: seq<string>)
    ensures emitted == Emitted(line)
  {
    var matches := Capture(line);
    if matches.Some? && matches.value.device != "" && matches.value.device != "Filesystem" {
      var record := BuildRecord(matches.value);
      EmittedMatch(line, matches.value);
      emitted := [record];
    } else {
      EmittedNone(line);
      emitted := [];
    }
  }

  lemma RecordsPrefixStep(output: seq<string>, i: nat)
    requires i < |output|
    ensures Records(output[..i + 1]) == Records(output[..i]) + Emitted(output[i])
  {
    assert output[..i + 1] == output[..i] + [output[i]];
    RecordsSnoc(output[..i], output[i]);
  }

  /** A line whose match names a device other than the header's contributes its object. */
  lemma EmittedMatch(line: string, f: DfFields)
    requires Capture(line) == Some(f) && f.device != "Filesystem"
    ensures Emitted(line) == [RecordJson(f)]
  {
  }

  /** A line without such a match contributes nothing. */
  lemma EmittedNone(line: string)
    requires Capture(line).None? || Capture(line).value.device == "" || Capture(line).value.device == "Filesystem"
    ensures Emitted(line) == []
  {
  }

  /** Output without a qualifying line prints an empty array. */
  lemma {:induction false} NoRecordsEmptyArray(output: seq<string>)
    requires forall k :: 0 <= k < |output| ==> LineRecord(output[k]).None?
    ensures "[" + Join(Records(output), ',') + "]" == "[]"
  {
    NoRecords(output);
  }

  lemma {:induction false} NoRecords(output: seq<string>)
    requires forall k :: 0 <= k < |output| ==> LineRecord(output[k]).None?
    ensures Records(output) == []
  {
    if output != [] {
      var init := output[..|output| - 1];
      NoRecords(init);
      RecordsSnoc(init, output[|output| - 1]);
      assert init + [output[|output| - 1]] == output;
    }
  }

  /** No escaping: a double quote in a field ends its JSON string early, so
      a reader that takes the string token up to the next quote gets only
      the text before it. */
  lemma QuoteEndsString(field: string, before: string, after: string)
    requires field == before + "\"" + after && Free(before, '"')
    ensures Quoted(field)[0] == '"'
    ensures FirstIndex(Quoted(field)[1..], '"') == |before| < |field|
  {
    var rest := Quoted(field)[1..];
    assert rest == before + "\"" + after + "\"";
    assert rest[..|before|] == before;
    FirstIndexAt(rest, '"', |before|);
  }
}
