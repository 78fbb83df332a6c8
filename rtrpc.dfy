/**
  rtorrent-daemon/rtrpc.py: an XML-RPC client for rtorrent that talks SCGI.

  A request body (the XML document xmlrpclib produces, opaque here) is framed
  as an SCGI request: a netstring holding the header fields CONTENT_LENGTH
  and SCGI=1, then the body. The reply is read in chunks until end of stream,
  and its SCGI header block is cut off at the first blank line. Integers are
  written with the `i8` tag above the 32-bit range. The proxy accepts a URI
  whose scheme is a substring of "scgi" and talks TCP to a host, or to a Unix
  socket at the path when the host is empty.
*/
module Rtrpc {
  import opened Results
  import opened PyText

  const NUL: char := '\0'

  datatype TransportError =
    | EncodeError   // `.encode()` (ASCII codec) of a payload holding a character >= 128
    | DecodeError   // `u''.join(parts)` of a reply holding a byte >= 128
    | EmptyReply    // OSError(EPIPE, "Server closed the connection without responding.")

  // ---------------------------------------------------------------------------
  // Request framing (single_request)

  /** The SCGI header fields, in the order of the OrderedDict. */
  function HeaderParams(contentLength: nat): seq<(string, string)> {
    [("CONTENT_LENGTH", NatToDecimal(contentLength)), ("SCGI", "1")]
  }

  /** `'%s\x00%s' % item` for each header field. */
  function FieldTexts(params: seq<(string, string)>): (r: seq<string>)
    ensures |r| == |params|
    ensures forall k :: 0 <= k < |params| ==> r[k] == params[k].0 + [NUL] + params[k].1
  {
    if params == [] then [] else [params[0].0 + [NUL] + params[0].1] + FieldTexts(params[1..])
  }

  /** The header block: the field texts joined by NUL, then one closing NUL. */
  function HeaderBlock(contentLength: nat): (h: string)
    ensures h == "CONTENT_LENGTH" + [NUL] + NatToDecimal(contentLength) + [NUL] + "SCGI" + [NUL] + "1" + [NUL]
  {
    var texts := FieldTexts(HeaderParams(contentLength));
    assert Join(texts, NUL) == texts[0] + [NUL] + texts[1] by {
      assert texts[1..] == [texts[1]];
    }
    Join(texts, NUL) + [NUL]
  }

  /** The SCGI request: the header block as a netstring `<len>:<header>,`,
      then the request body. */
  function Frame(request: string): string {
    var h := HeaderBlock(|request|);
    NatToDecimal(|h|) + ":" + h + "," + request
  }

  /** The bytes handed to `sendall`: Python 2's `.encode()` of the frame uses
      the ASCII codec, so a body holding a byte >= 128 raises instead. */
  function SendPayload(request: string): (r: Result<string, TransportError>)
    ensures r.Ok? <==> IsAscii(request)
    ensures r.Ok? ==> r.value == Frame(request)
    ensures r.Err? ==> r.error == EncodeError
  {
    var payload := Frame(request);
    FrameAscii(request);
    if IsAscii(payload) then Ok(payload) else Err(EncodeError)
  }

  /** The frame is ASCII exactly when the body is: the length digits and the
      header block always are. */
  lemma FrameAscii(request: string)
    ensures IsAscii(Frame(request)) <==> IsAscii(request)
  {
    var h := HeaderBlock(|request|);
    var d := NatToDecimal(|h|);
    HeaderAscii(NatToDecimal(|request|), h);
    NetstringFrontAscii(d, h);
    AsciiAfter(d + ":" + h + ",", request);
  }

  lemma HeaderAscii(c: string, h: string)
    requires AllDigits(c)
    requires h == "CONTENT_LENGTH" + [NUL] + c + [NUL] + "SCGI" + [NUL] + "1" + [NUL]
    ensures IsAscii(h)
  {
    forall i | 0 <= i < |h| ensures h[i] < 128 as char {
      if 15 <= i < 15 + |c| {
        assert h[i] == c[i - 15];
      }
    }
  }

  lemma NetstringFrontAscii(d: string, h: string)
    requires AllDigits(d) && IsAscii(h)
    ensures IsAscii(d + ":" + h + ",")
  {
    var f := d + ":" + h + ",";
    forall i | 0 <= i < |f| ensures f[i] < 128 as char {
      if i < |d| {
        assert f[i] == d[i];
      } else if |d| < i < |d| + 1 + |h| {
        assert f[i] == h[i - |d| - 1];
      }
    }
  }

  lemma AsciiAfter(front: string, rest: string)
    requires IsAscii(front)
    ensures IsAscii(front + rest) <==> IsAscii(rest)
  {
    var s := front + rest;
    if IsAscii(s) {
      forall i | 0 <= i < |rest| ensures rest[i] < 128 as char {
        assert rest[i] == s[|front| + i];
      }
    }
  }

  // ---------------------------------------------------------------------------
  // How an SCGI server reads the frame back (the partner of Frame)

  datatype ScgiRequest = ScgiRequest(headers: seq<(string, string)>, body: string)

  /** Reads the netstring `<len>:<data>,` at the front of `s`: the data and what follows. */
  function ReadNetstring(s: string): Option<(string, string)> {
    var k := FirstIndex(s, ':');
    if k == 0 || k == |s| || !AllDigits(s[..k]) then None
    else
      var n := DigitsValue(s[..k]);
      if k + 1 + n < |s| && s[k + 1 + n] == ',' then Some((s[k + 1..k + 1 + n], s[k + 2 + n..]))
      else None
  }

  /** Pairs up alternating names and values. */
  function Pairs(parts: seq<string>): Option<seq<(string, string)>> {
    if parts == [] then Some([])
    else if |parts| == 1 then None
    else
      match Pairs(parts[2..])
      case None => None
      case Some(rest) => Some([(parts[0], parts[1])] + rest)
  }

  /** The header fields of a block of NUL-terminated names and values. */
  function ReadHeaderFields(h: string): Option<seq<(string, string)>> {
    if h == [] || h[|h| - 1] != NUL then None else Pairs(Split(h[..|h| - 1], NUL))
  }

  /** An SCGI server's reading of a request: the netstring of headers, whose
      first field must be a decimal CONTENT_LENGTH, then that many body bytes. */
  function ParseFrame(payload: string): Option<ScgiRequest> {
    match ReadNetstring(payload)
    case None => None
    case Some((h, rest)) =>
      match ReadHeaderFields(h)
      case None => None
      case Some(fields) =>
        if |fields| >= 1 && fields[0].0 == "CONTENT_LENGTH" && |fields[0].1| >= 1 && AllDigits(fields[0].1)
           && DigitsValue(fields[0].1) <= |rest|
        then Some(ScgiRequest(fields, rest[..DigitsValue(fields[0].1)]))
        else None
  }

  /** Reading a netstring whose length prefix ends at `k`. */
  lemma ReadNetstringAt(s: string, k: nat, n: nat)
    requires 0 < k && k + 1 + n < |s|
    requires AllDigits(s[..k]) && DigitsValue(s[..k]) == n
    requires s[k] == ':' && s[k + 1 + n] == ','
    ensures ReadNetstring(s) == Some((s[k + 1..k + 1 + n], s[k + 2 + n..]))
  {
    assert Free(s[..k], ':') by {
      forall i | 0 <= i < k ensures s[..k][i] != ':' {
        assert IsDigit(s[..k][i]);
      }
    }
    FirstIndexAt(s, ':', k);
  }

  /** A netstring written with the decimal length of its data reads back as
      that data and the rest. */
  lemma ReadNetstringOf(s: string, h: string, rest: string)
    requires s == NatToDecimal(|h|) + ":" + h + "," + rest
    ensures ReadNetstring(s) == Some((h, rest))
  {
    var d := NatToDecimal(|h|);
    DecimalRoundTrip(|h|);
    NetstringSlices(s, d, h, rest);
    ReadNetstringWith(s, d, h, rest);
  }

  /** A netstring whose length prefix `d` is the decimal length of `h`. */
  lemma ReadNetstringWith(s: string, d: string, h: string, rest: string)
    requires |d| > 0 && AllDigits(d) && DigitsValue(d) == |h|
    requires |s| == |d| + |h| + 2 + |rest|
    requires s[..|d|] == d && s[|d|] == ':' && s[|d| + 1 + |h|] == ','
    requires s[|d| + 1..|d| + 1 + |h|] == h && s[|d| + 2 + |h|..] == rest
    ensures ReadNetstring(s) == Some((h, rest))
  {
    var k := |d|;
    assert AllDigits(s[..k]) && DigitsValue(s[..k]) == |h|;
    ReadNetstringAt(s, k, |h|);
  }

  /** Where the parts of `d:h,rest` sit. */
  lemma NetstringSlices(s: string, d: string, h: string, rest: string)
    requires s == d + ":" + h + "," + rest
    ensures |s| == |d| + |h| + 2 + |rest|
    ensures s[..|d|] == d && s[|d|] == ':' && s[|d| + 1 + |h|] == ','
    ensures s[|d| + 1..|d| + 1 + |h|] == h && s[|d| + 2 + |h|..] == rest
  {
    var k := |d|;
    assert s[..k] == d;
    assert s[k + 1..k + 1 + |h|] == h;
    assert s[k + 2 + |h|..] == rest;
  }

  /** The header block splits back into the two fields it was built from. */
  lemma HeaderFieldsOf(n: nat)
    ensures ReadHeaderFields(HeaderBlock(n)) == Some(HeaderParams(n))
  {
    var d := NatToDecimal(n);
    var h := HeaderBlock(n);
    var parts := ["CONTENT_LENGTH", d, "SCGI", "1"];
    var j3 := Join(parts[3..], NUL);
    assert j3 == "1";
    var j2 := Join(parts[2..], NUL);
    assert j2 == "SCGI" + [NUL] + "1";
    var j1 := Join(parts[1..], NUL);
    assert j1 == d + [NUL] + j2;
    assert Join(parts, NUL) == "CONTENT_LENGTH" + [NUL] + j1;
    assert h[..|h| - 1] == Join(parts, NUL);
    forall k | 0 <= k < |parts| ensures Free(parts[k], NUL) {
      if k == 1 {
        assert AllDigits(d);
      }
    }
    SplitJoin(parts, NUL);
    var tail := parts[2..];
    assert tail[0] == "SCGI" && tail[1] == "1" && tail[2..] == [];
    assert Pairs(tail[2..]) == Some([]);
    assert |tail| == 2;
    assert Pairs(tail) == Some([(tail[0], tail[1])] + []);
    assert [(tail[0], tail[1])] + [] == [(tail[0], tail[1])];
    assert parts[0] == "CONTENT_LENGTH" && parts[1] == d && |parts| == 4;
    assert Pairs(parts) == Some([(parts[0], parts[1])] + [(tail[0], tail[1])]);
    assert HeaderParams(n) == [(parts[0], parts[1])] + [(tail[0], tail[1])];
  }

  /** An SCGI server reads back exactly the two header fields, in order, and a
      body equal to the request: CONTENT_LENGTH agrees with the body's length. */
  lemma FrameRoundTrip(request: string)
    ensures ParseFrame(Frame(request)) == Some(ScgiRequest(HeaderParams(|request|), request))
    ensures DigitsValue(HeaderParams(|request|)[0].1) == |request|
  {
    var h := HeaderBlock(|request|);
    ReadNetstringOf(Frame(request), h, request);
    HeaderFieldsOf(|request|);
    DecimalRoundTrip(|request|);
    var fields := HeaderParams(|request|);
    assert fields[0].0 == "CONTENT_LENGTH";
    assert DigitsValue(fields[0].1) == |request|;
    assert request[..|request|] == request;
  }

  // ---------------------------------------------------------------------------
  // Reading the reply (readall)

  /** The prefix of `chunks` before the first empty chunk. */
  function Delivered(chunks: seq<string>): (d: seq<string>)
    ensures |d| <= |chunks| && d == chunks[..|d|]
    ensures forall k :: 0 <= k < |d| ==> d[k] != ""
    ensures |d| < |chunks| ==> chunks[|d|] == ""
  {
    if chunks == [] || chunks[0] == "" then []
    else [chunks[0]] + Delivered(chunks[1..])
  }

  /** The socket file the reply is read from: its reads return `chunks` in
      order, and the empty string of end of stream after the last one. */
  class ReplyStream {
    const chunks: seq<string>
    var position: nat

    constructor (chunks: seq<string>)
      ensures this.chunks == chunks && position == 0
    {
      this.chunks := chunks;
      position := 0;
    }

    /** The chunks not read yet. */
    function Unread(): seq<string>
      reads this
    {
      if position <= |chunks| then chunks[position..] else []
    }

    method Read() returns (chunk: string)
      modifies this
      ensures old(position) < |chunks| ==> chunk == chunks[old(position)] && position == old(position) + 1
      ensures old(position) >= |chunks| ==> chunk == "" && position == old(position)
    {
      if position < |chunks| {
        chunk := chunks[position];
        position := position + 1;
      } else {
        chunk := "";
      }
    }
  }

  /** `u''.join(parts)`: Python 2 decodes every byte string part as ASCII. */
  function DecodeAscii(s: string): (r: Result<string, TransportError>)
    ensures r.Ok? <==> IsAscii(s)
    ensures r.Ok? ==> r.value == s
    ensures r.Err? ==> r.error == DecodeError
  {
    if IsAscii(s) then Ok(s) else Err(DecodeError)
  }

  /** readall: reads until the first empty chunk and joins what came before it;
      no chunk after the empty one is read. */
  method ReadAll(fd: ReplyStream) returns (r: Result<string, TransportError>)
    modifies fd
    ensures r == DecodeAscii(Concat(Delivered(old(fd.Unread()))))
    ensures var d := Delivered(old(fd.Unread()));
            fd.position == old(fd.position) + |d| + (if |d| < |old(fd.Unread())| then 1 else 0)
  {
    ghost var unread := fd.Unread();
    ghost var start := fd.position;
    var parts: seq<string> := [];
    while true
      invariant fd.position == start + |parts|
      invariant |parts| <= |unread| && parts == unread[..|parts|]
      invariant forall k :: 0 <= k < |parts| ==> parts[k] != ""
      decreases |fd.chunks| - fd.position
    {
      var chunk := fd.Read();
      if chunk == "" {
        break;
      }
      parts := parts + [chunk];
    }
    DeliveredIs(unread, parts);
    r := DecodeAscii(Concat(parts));
  }

  lemma {:induction false} DeliveredIs(unread: seq<string>, parts: seq<string>)
    requires |parts| <= |unread| && parts == unread[..|parts|]
    requires forall k :: 0 <= k < |parts| ==> parts[k] != ""
    requires |parts| < |unread| ==> unread[|parts|] == ""
    ensures Delivered(unread) == parts
  {
    if parts != [] {
      assert unread[0] == parts[0] != "";
      assert parts[1..] == unread[1..][..|parts| - 1];
      DeliveredIs(unread[1..], parts[1..]);
      assert parts == [parts[0]] + parts[1..];
    }
  }

  // ---------------------------------------------------------------------------
  // Cutting the SCGI header block off the reply (parse_response)

  /** A match of `\n\s*?\n` at s[i..j+1]: two line feeds with only whitespace between. */
  predicate BlankLineAt(s: string, i: int, j: int) {
    0 <= i < j < |s| && s[i] == '\n' && s[j] == '\n' && forall k :: i < k < j ==> IsSpace(s[k])
  }

  /** The end of the match starting at `i`, if any: the lazy `\s*?` stops at
      the first line feed after `i`. */
  function MatchEnd(s: string, i: nat): (r: Option<nat>)
    requires i < |s| && s[i] == '\n'
    ensures r.Some? ==> BlankLineAt(s, i, r.value)
    ensures r.Some? ==> forall j :: BlankLineAt(s, i, j) ==> r.value <= j
    ensures r.None? ==> forall j :: !BlankLineAt(s, i, j)
  {
    var j := i + 1 + FirstIndex(s[i + 1..], '\n');
    if j < |s| && forall k :: i < k < j ==> IsSpace(s[k]) then Some(j)
    else
      forall j' ensures !BlankLineAt(s, i, j') {
        if i < j' < |s| && s[j'] == '\n' {
          assert s[i + 1..][j' - i - 1] == s[j'];
          FirstIndexAtMost(s[i + 1..], '\n', j' - i - 1);
        }
      }
      None
  }

  /** The leftmost match at or after `from`. */
  function FindBlankLine(s: string, from: nat): (r: Option<(nat, nat)>)
    requires from <= |s|
    ensures r.Some? ==> from <= r.value.0 && BlankLineAt(s, r.value.0, r.value.1)
    ensures r.Some? ==> forall i, j :: from <= i < r.value.0 ==> !BlankLineAt(s, i, j)
    ensures r.Some? ==> forall j :: BlankLineAt(s, r.value.0, j) ==> r.value.1 <= j
    ensures r.None? ==> forall i, j :: from <= i ==> !BlankLineAt(s, i, j)
    decreases |s| - from
  {
    if from == |s| then None
    else if s[from] == '\n' && MatchEnd(s, from).Some? then Some((from, MatchEnd(s, from).value))
    else FindBlankLine(s, from + 1)
  }

  datatype ReplySplit = ReplySplit(header: string, body: string)

  /** `re.split(r'\n\s*?\n', payload, maxsplit=1)`: two pieces around the
      leftmost, shortest match; without a match the header is the whole
      payload and the body is empty. */
  function SplitReply(s: string): (r: ReplySplit)
    ensures (forall i, j :: !BlankLineAt(s, i, j)) <==> r == ReplySplit(s, "")
    ensures r.header != s ==>
              exists i, j :: BlankLineAt(s, i, j) && r.header == s[..i] && r.body == s[j + 1..]
                          && r.header + s[i..j + 1] + r.body == s
                          && (forall i', j' :: 0 <= i' < i ==> !BlankLineAt(s, i', j'))
                          && (forall j' :: BlankLineAt(s, i, j') ==> j <= j')
  {
    match FindBlankLine(s, 0)
    case Some((i, j)) =>
      assert s[..i] + s[i..j + 1] + s[j + 1..] == s;
      assert |s[..i]| < |s|;
      ReplySplit(s[..i], s[j + 1..])
    case None => ReplySplit(s, "")
  }

  /** What parse_response hands to the XML parser: an empty reply raises
      EPIPE; otherwise the body after the SCGI header block. */
  function ReplyBody(received: string): (r: Result<string, TransportError>)
    ensures r.Err? <==> received == []
    ensures r.Err? ==> r.error == EmptyReply
    ensures r.Ok? ==> r.value == SplitReply(received).body
  {
    if |received| == 0 then Err(EmptyReply) else Ok(SplitReply(received).body)
  }

  /** The received text as readall produces it, before the split. */
  function Received(unread: seq<string>): Result<string, TransportError> {
    DecodeAscii(Concat(Delivered(unread)))
  }

  /** parse_response up to the XML parser: read everything, refuse an empty
      reply, cut off the header block. */
  method ParseResponse(fd: ReplyStream) returns (r: Result<string, TransportError>)
    modifies fd
    ensures var got := Received(old(fd.Unread()));
            r == if got.Err? then Err(got.error) else ReplyBody(got.value)
  {
    var received := ReadAll(fd);
    if received.Err? {
      return Err(received.error);
    }
    r := ReplyBody(received.value);
  }

  // ---------------------------------------------------------------------------
  // Writing integers (dump_long)

  /** The sink `write` appends to. */
  class Output {
    var pieces: seq<string>

    constructor ()
      ensures pieces == []
    {
      pieces := [];
    }

    method Write(s: string)
      modifies this
      ensures pieces == old(pieces) + [s]
    {
      pieces := pieces + [s];
    }
  }

  /** `i8` above 2**31-1, `i4` for everything else, negative values of any size included. */
  function IntTag(v: int): string {
    if v > 0x7FFF_FFFF then "i8" else "i4"
  }

  /** The element dump_long writes for `v`. */
  function IntElement(v: int): string {
    "<value><" + IntTag(v) + ">" + IntToDecimal(v) + "</" + IntTag(v) + "></value>\n"
  }

  /** dump_long: writes the element for `value` to `out` in three pieces. */
  method DumpLong(value: int, out: Output)
    modifies out
    ensures out.pieces == old(out.pieces) + ["<value><" + IntTag(value) + ">", IntToDecimal(value),
                                             "</" + IntTag(value) + "></value>\n"]
    ensures Concat(out.pieces) == Concat(old(out.pieces)) + IntElement(value)
  {
    ghost var p0 := out.pieces;
    var tag := if value > 0x7FFF_FFFF then "i8" else "i4";
    var text := IntToDecimal(value);
    out.Write("<value><" + tag + ">");
    out.Write(text);
    out.Write("</" + tag + "></value>\n");
    ConcatThree(p0, "<value><" + tag + ">", text, "</" + tag + "></value>\n");
    ElementPieces(tag, text);
  }

  /** Writing three pieces appends their text. */
  lemma ConcatThree(p0: seq<string>, a: string, b: string, c: string)
    ensures Concat(p0 + [a, b, c]) == Concat(p0) + (a + b + c)
  {
    ConcatSnoc(p0, a);
    ConcatSnoc(p0 + [a], b);
    ConcatSnoc(p0 + [a] + [b], c);
    assert p0 + [a] + [b] + [c] == p0 + [a, b, c];
  }

  /** The element is the three written pieces, one after the other. */
  lemma ElementPieces(tag: string, text: string)
    ensures "<value><" + tag + ">" + text + "</" + tag + "></value>\n"
            == ("<value><" + tag + ">") + text + ("</" + tag + "></value>\n")
  {
  }

  /** A reader of `<value><iN>…</iN></value>\n` elements, as the XML-RPC
      parser reads them: the tag, and `int()` of the text between the tags. */
  function ReadIntElement(s: string): Option<(string, int)> {
    if |s| < 25 || s[..8] != "<value><" || s[10] != '>' then None
    else
      var tag := s[8..10];
      if (tag != "i4" && tag != "i8") || s[|s| - 14..] != "</" + tag + "></value>\n" then None
      else
        match PyInt(s[11..|s| - 14])
        case None => None
        case Some(v) => Some((tag, v))
  }

  /** Where the fields of an element sit. */
  lemma ElementParts(s: string, tag: string, text: string)
    requires |tag| == 2
    requires s == "<value><" + tag + ">" + text + "</" + tag + "></value>\n"
    ensures |s| == 25 + |text|
    ensures s[..8] == "<value><" && s[8..10] == tag && s[10] == '>'
    ensures s[|s| - 14..] == "</" + tag + "></value>\n"
    ensures s[11..|s| - 14] == text
  {
  }

  /** Reading back what dump_long writes gives the tag it chose and the value. */
  lemma IntElementRoundTrip(v: int)
    ensures ReadIntElement(IntElement(v)) == Some((IntTag(v), v))
  {
    ElementParts(IntElement(v), IntTag(v), IntToDecimal(v));
    PyIntRoundTrip(v);
  }

  /** The tag boundary: `i8` exactly above 2**31-1; a value below -2**31 still
      gets `i4`, outside the four-byte range that tag stands for. */
  lemma IntTagBoundary(v: int)
    ensures IntTag(v) == "i8" <==> v >= 0x8000_0000
    ensures IntTag(0x7FFF_FFFF) == "i4" && IntTag(0x8000_0000) == "i8" && IntTag(-0x8000_0001) == "i4"
  {
  }

  // ---------------------------------------------------------------------------
  // The proxy's URI and the endpoint (SCGIServerProxy.__init__, connect)

  datatype UriError =
    | TypeError             // no scheme: `None in 'scgi'` raises
    | UnsupportedProtocol   // IOError('Unsupported XML-RPC protocol')

  /** urllib.splittype: the scheme is the text before the first ':' when it is
      non-empty and holds no '/', lower-cased; otherwise there is none. */
  function SplitType(uri: string): (r: (Option<string>, string))
  {
    var k := FirstIndex(uri, ':');
    if 0 < k < |uri| && Free(uri[..k], '/') then
      (Some(Lower(uri[..k])), uri[k + 1..])
    else (None, uri)
  }

  /** Length of the host part: the characters before the first '/' or '?'. */
  function HostLength(s: string): (n: nat)
    ensures n <= |s|
    ensures forall k :: 0 <= k < n ==> s[k] != '/' && s[k] != '?'
    ensures n < |s| ==> s[n] == '/' || s[n] == '?'
  {
    if s == [] || s[0] == '/' || s[0] == '?' then 0 else 1 + HostLength(s[1..])
  }

  /** urllib.splithost of Python 2.7.13 and earlier, `^//([^/?]*)(.*)$`: after "//" the host runs to the
      first '/' or '?', the path is the rest; `.` does not match a line feed
      and `$` also matches before a final one. */
  function SplitHost(url: string): (Option<string>, string) {
    if !IsPrefix("//", url) then (None, url)
    else
      var rest := url[2..];
      var n := HostLength(rest);
      var path := rest[n..];
      if Free(path, '\n') then (Some(rest[..n]), path)
      else if path[|path| - 1] == '\n' && Free(path[..|path| - 1], '\n') then (Some(rest[..n]), path[..|path| - 1])
      else (None, url)
  }

  datatype ProxyTarget = ProxyTarget(host: Option<string>, handler: string)

  /** SCGIServerProxy.__init__: the scheme must be a substring of "scgi" (the
      `in` test against the string `('scgi')`); the handler defaults to "/". */
  function ParseUri(uri: string): (r: Result<ProxyTarget, UriError>)
    ensures r.Ok? ==> r.value.handler != ""
    ensures SplitType(uri).0.None? <==> r == Err(TypeError)
    ensures r.Ok? <==> SplitType(uri).0.Some? && Contains("scgi", SplitType(uri).0.value)
  {
    var (scheme, rest) := SplitType(uri);
    if scheme.None? then Err(TypeError)
    else if !Contains("scgi", scheme.value) then Err(UnsupportedProtocol)
    else
      var (host, path) := SplitHost(rest);
      Ok(ProxyTarget(host, if path == "" then "/" else path))
  }

  datatype Endpoint = Tcp(hostPort: string) | UnixSocket(path: string)

  /** connect: TCP to the host when it is non-empty, otherwise the Unix socket at the handler. */
  function ChooseEndpoint(host: Option<string>, handler: string): (e: Endpoint)
    ensures e.UnixSocket? <==> host.None? || host.value == ""
    ensures e.UnixSocket? ==> e.path == handler
    ensures e.Tcp? ==> host == Some(e.hostPort)
  {
    if host.Some? && host.value != "" then Tcp(host.value) else UnixSocket(handler)
  }

  /** splittype on a URI with a well-formed scheme. */
  lemma SplitTypeOf(uri: string, scheme: string, rest: string)
    requires |scheme| > 0 && Free(scheme, ':') && Free(scheme, '/')
    requires uri == scheme + ":" + rest
    ensures SplitType(uri) == (Some(Lower(scheme)), rest)
  {
    assert uri[..|scheme|] == scheme;
    FirstIndexAt(uri, ':', |scheme|);
    assert uri[|scheme| + 1..] == rest;
  }

  /** The non-empty substrings of "i", "gi", "cgi" and "scgi", one suffix
      at a time: a substring is a prefix of the word or a substring of its tail. */
  lemma SubstringsI(l: string)
    requires |l| > 0
    ensures Contains("i", l) <==> l == "i"
  {
    assert "i"[1..] == "";
    assert !Contains("", l);
    if IsPrefix(l, "i") {
      assert l == "i"[..|l|];
    }
  }

  lemma SubstringsGi(l: string)
    requires |l| > 0
    ensures Contains("gi", l) <==> l in {"g", "gi", "i"}
  {
    SubstringsI(l);
    assert "gi"[1..] == "i";
    assert "gi"[..1] == "g" && "gi"[..2] == "gi";
    if IsPrefix(l, "gi") {
      assert l == "gi"[..|l|];
    }
  }

  lemma SubstringsCgi(l: string)
    requires |l| > 0
    ensures Contains("cgi", l) <==> l in {"c", "cg", "cgi", "g", "gi", "i"}
  {
    SubstringsGi(l);
    assert "cgi"[1..] == "gi";
    assert "cgi"[..1] == "c" && "cgi"[..2] == "cg" && "cgi"[..3] == "cgi";
    if IsPrefix(l, "cgi") {
      assert l == "cgi"[..|l|];
    }
  }

  /** The non-empty substrings of "scgi". */
  lemma ScgiSubstrings(l: string)
    requires |l| > 0
    ensures Contains("scgi", l) <==> l in {"s", "c", "g", "i", "sc", "cg", "gi", "scg", "cgi", "scgi"}
  {
    var heads := {"s", "sc", "scg", "scgi"};
    var tails := {"c", "cg", "cgi", "g", "gi", "i"};
    assert {"s", "c", "g", "i", "sc", "cg", "gi", "scg", "cgi", "scgi"} == heads + tails;
    SubstringsCgi(l);
    assert "scgi"[1..] == "cgi";
    PrefixesOfScgi(l);
  }

  lemma PrefixesOfScgi(l: string)
    requires |l| > 0
    ensures IsPrefix(l, "scgi") <==> l in {"s", "sc", "scg", "scgi"}
  {
    assert "scgi"[..1] == "s" && "scgi"[..2] == "sc" && "scgi"[..3] == "scg" && "scgi"[..4] == "scgi";
    if IsPrefix(l, "scgi") {
      assert l == "scgi"[..|l|];
    }
  }

  /** The scheme test accepts exactly the ten non-empty substrings of "scgi",
      in any letter case. */
  lemma SchemeAccepted(uri: string, scheme: string, rest: string)
    requires |scheme| > 0 && Free(scheme, ':') && Free(scheme, '/')
    requires uri == scheme + ":" + rest
    ensures ParseUri(uri).Ok? <==>
              Lower(scheme) in {"s", "c", "g", "i", "sc", "cg", "gi", "scg", "cgi", "scgi"}
  {
    SplitTypeOf(uri, scheme, rest);
    ScgiSubstrings(Lower(scheme));
  }

  /** `scgi://host:port` talks TCP to host:port with handler "/";
      `scgi://` followed by an absolute path talks to the Unix socket there. */
  lemma UriEndpoints(hostPort: string, path: string)
    requires Free(hostPort, '/') && Free(hostPort, '?') && Free(hostPort, '\n')
    requires |path| > 0 && path[0] == '/' && Free(path, '\n')
    ensures var t := ParseUri("scgi://" + hostPort);
            t == Ok(ProxyTarget(Some(hostPort), "/"))
            && (hostPort != "" ==> ChooseEndpoint(t.value.host, t.value.handler) == Tcp(hostPort))
    ensures var t := ParseUri("scgi://" + path);
            t == Ok(ProxyTarget(Some(""), path))
            && ChooseEndpoint(t.value.host, t.value.handler) == UnixSocket(path)
  {
    ScgiUri(hostPort);
    SplitHostTcp(hostPort);
    ScgiUri(path);
    SplitHostPath(path);
  }

  /** A URI with the scheme "scgi" is accepted, and what follows the ':'
      goes to splithost. */
  lemma ScgiUri(after: string)
    ensures var (host, path) := SplitHost("//" + after);
            ParseUri("scgi://" + after) == Ok(ProxyTarget(host, if path == "" then "/" else path))
  {
    assert Lower("scgi") == "scgi";
    assert Contains("scgi", "scgi") by {
      assert IsPrefix("scgi", "scgi");
    }
    assert "scgi://" + after == "scgi" + ":" + ("//" + after);
    SplitTypeOf("scgi://" + after, "scgi", "//" + after);
  }

  /** splithost on "//" and a host and port: all of it is the host. */
  lemma SplitHostTcp(hostPort: string)
    requires Free(hostPort, '/') && Free(hostPort, '?') && Free(hostPort, '\n')
    ensures SplitHost("//" + hostPort) == (Some(hostPort), "")
  {
    assert ("//" + hostPort)[2..] == hostPort;
    HostLengthFree(hostPort);
    assert hostPort[|hostPort|..] == "";
    assert hostPort[..|hostPort|] == hostPort;
  }

  /** splithost on "//" and an absolute path: the host is empty. */
  lemma SplitHostPath(path: string)
    requires |path| > 0 && path[0] == '/' && Free(path, '\n')
    ensures SplitHost("//" + path) == (Some(""), path)
  {
    assert ("//" + path)[2..] == path;
    assert HostLength(path) == 0;
    assert path[0..] == path;
  }

  lemma HostLengthFree(s: string)
    requires Free(s, '/') && Free(s, '?')
    ensures HostLength(s) == |s|
  {
  }

  /** The proxy as constructed: the host and handler are set once. */
  class ServerProxy {
    const host: Option<string>
    const handler: string

    constructor (target: ProxyTarget)
      ensures host == target.host && handler == target.handler
    {
      host := target.host;
      handler := target.handler;
    }
  }

  /** SCGIServerProxy(uri): raises for a URI the scheme test refuses. */
  method NewServerProxy(uri: string) returns (r: Result<ServerProxy, UriError>)
    ensures r.Err? <==> ParseUri(uri).Err?
    ensures r.Err? ==> r.error == ParseUri(uri).error
    ensures r.Ok? ==> r.value.host == ParseUri(uri).value.host && r.value.handler == ParseUri(uri).value.handler
  {
    var target := ParseUri(uri);
    if target.Err? {
      return Err(target.error);
    }
    var proxy := new ServerProxy(target.value);
    r := Ok(proxy);
  }

  // ---------------------------------------------------------------------------
  // One call (single_request and __request)

  /** single_request: frame the request (raising before any connection when
      it cannot be encoded), send it to the chosen endpoint, parse the reply.
      `sent` is what reaches `sendall`, with the endpoint it goes to. */
  method SingleRequest(host: Option<string>, handler: string, request: string, fd: ReplyStream)
      returns (r: Result<string, TransportError>, sent: Option<(Endpoint, string)>)
    modifies fd
    ensures SendPayload(request).Err? ==> r == Err(EncodeError) && sent == None && fd.position == old(fd.position)
    ensures SendPayload(request).Ok? ==>
              sent == Some((ChooseEndpoint(host, handler), Frame(request)))
              && var got := Received(old(fd.Unread()));
                 r == if got.Err? then Err(got.error) else ReplyBody(got.value)
  {
    var payload := SendPayload(request);
    if payload.Err? {
      return Err(payload.error), None;
    }
    sent := Some((ChooseEndpoint(host, handler), payload.value));
    r := ParseResponse(fd);
  }

  /** The value __request returns for a parsed response. */
  datatype Unwrapped<T> = Single(value: T) | Tuple(values: seq<T>)

  /** __request: a one-element response is unwrapped to its element; any
      other length is returned as it is. */
  function Unwrap<T>(response: seq<T>): (r: Unwrapped<T>)
    ensures r.Single? <==> |response| == 1
    ensures r.Single? ==> r.value == response[0]
    ensures r.Tuple? ==> r.values == response
  {
    if |response| == 1 then Single(response[0]) else Tuple(response)
  }

  /** The tuple a caller sees back from an unwrapped response. */
  function AsTuple<T>(u: Unwrapped<T>): seq<T> {
    match u
    case Single(v) => [v]
    case Tuple(vs) => vs
  }

  /** Unwrapping loses nothing: the response can always be rebuilt. */
  lemma UnwrapLossless<T>(response: seq<T>)
    ensures AsTuple(Unwrap(response)) == response
  {
    if |response| == 1 {
      assert [response[0]] == response;
    }
  }
}
