/**
  arbiter.py: a cron job that enables uTorrent's bandwidth schedule while
  SABnzbd is downloading and disables it while SABnzbd is idle. It reads
  SABnzbd's queue status, fetches uTorrent's CSRF token from `token.html`,
  and sets the `sched_enable` setting through uTorrent's web API.

  The HTTP exchanges are not modelled: decoded JSON replies and the token
  page text are parameters, and `urllib.urlencode` is a function parameter.
*/
module Arbiter {
  import opened Results
  import opened PyText

  /** A decoded JSON value (`json.load`); objects are dictionaries. */
  datatype Json =
    | JNull
    | JBool(b: bool)
    | JNum(n: int)
    | JStr(s: string)
    | JArr(items: seq<Json>)
    | JObj(fields: map<string, Json>)

  /** The exceptions the decision logic can raise. */
  datatype PyError =
    | KeyError          // a dictionary without the key
    | TypeError         // indexing a value that does not support it
    | IndexError        // a list or string index past the end
    | StopIteration     // `next` on a generator that yields nothing
    | AttributeError    // `match.group` on the None of a failed search
    | AssertionError    // the setter's check of the reply

  // ---------------------------------------------------------------------------
  // Python indexing on decoded JSON

  /** `v[key]` with a string key. */
  function Lookup(v: Json, key: string): (r: Result<Json, PyError>)
    ensures r.Ok? <==> v.JObj? && key in v.fields
    ensures r.Ok? ==> r.value == v.fields[key]
    ensures r.Err? ==> r.error == (if v.JObj? then KeyError else TypeError)
  {
    match v
    case JObj(fields) => if key in fields then Ok(fields[key]) else Err(KeyError)
    case _ => Err(TypeError)
  }

  /** `v[i]` with a non-negative integer index: a list's element, a string's
      one-character string; a dictionary has no integer keys. */
  function Subscript(v: Json, i: nat): Result<Json, PyError> {
    match v
    case JArr(items) => if i < |items| then Ok(items[i]) else Err(IndexError)
    case JStr(s) => if i < |s| then Ok(JStr([s[i]])) else Err(IndexError)
    case JObj(_) => Err(KeyError)
    case _ => Err(TypeError)
  }

  // ---------------------------------------------------------------------------
  // The state decision (line 197)

  /** `'0' if sabnzbd_json['state'] == 'IDLE' else '1'`. */
  function SchedEnableFor(sabnzbd: Json): (r: Result<string, PyError>)
    ensures r == Ok("0") <==> sabnzbd.JObj? && "state" in sabnzbd.fields && sabnzbd.fields["state"] == JStr("IDLE")
    ensures r == Ok("1") <==> sabnzbd.JObj? && "state" in sabnzbd.fields && sabnzbd.fields["state"] != JStr("IDLE")
    ensures r == Err(KeyError) <==> sabnzbd.JObj? && "state" !in sabnzbd.fields
    ensures r == Err(TypeError) <==> !sabnzbd.JObj?
  {
    match Lookup(sabnzbd, "state")
    case Err(e) => Err(e)
    case Ok(state) => Ok(if state == JStr("IDLE") then "0" else "1")
  }

  // ---------------------------------------------------------------------------
  // The getter (lines 180-181)

  /** `setting[0] == name` for one item of the settings list; raises where
      the item cannot be indexed. */
  function NamedAs(setting: Json, name: string): Result<bool, PyError> {
    match Subscript(setting, 0)
    case Err(e) => Err(e)
    case Ok(first) => Ok(first == JStr(name))
  }

  /** `next(setting for setting in items if setting[0] == name)`, scanning
      the items in order. */
  function FindSetting(items: seq<Json>, name: string): (r: Result<Json, PyError>)
    ensures r.Ok? ==> r.value in items && NamedAs(r.value, name) == Ok(true)
  {
    if items == [] then Err(StopIteration)
    else
      match NamedAs(items[0], name)
      case Err(e) => Err(e)
      case Ok(found) => if found then Ok(items[0]) else FindSetting(items[1..], name)
  }

  /** The generator over `settings`: a list yields its items, a string its
      characters, whose `[0]` is never a name of more than one character; a
      dictionary yields its keys, in no fixed order, but only an empty key
      can raise and no key is ever a list. */
  function FindIn(settings: Json, name: string): (r: Result<Json, PyError>)
    requires |name| > 1
    ensures r.Ok? ==> settings.JArr?
  {
    match settings
    case JArr(items) => FindSetting(items, name)
    case JStr(_) => Err(StopIteration)
    case JObj(fields) => if "" in fields then Err(IndexError) else Err(StopIteration)
    case _ => Err(TypeError)
  }

  /** The `sched_enable` property: the reply body's settings list, its first
      entry named "sched_enable", and '1' iff that entry's third element is
      the string "true". */
  function GetSchedEnable(body: Json): (r: Result<string, PyError>)
    ensures r.Ok? ==> r.value == "0" || r.value == "1"
  {
    match Lookup(body, "settings")
    case Err(e) => Err(e)
    case Ok(settings) =>
      match FindIn(settings, "sched_enable")
      case Err(e) => Err(e)
      case Ok(element) =>
        match Subscript(element, 2)
        case Err(e) => Err(e)
        case Ok(value) => Ok(if value == JStr("true") then "1" else "0")
  }

  /** The settings list uTorrent sends: every entry a non-empty list. */
  predicate WellFormedSettings(items: seq<Json>) {
    forall i :: 0 <= i < |items| ==> items[i].JArr? && |items[i].items| >= 1
  }

  /** On a well-formed list the first entry with the name is found, and
      nothing after it is looked at. */
  lemma {:induction false} FindSettingFirst(items: seq<Json>, name: string, i: nat)
    requires WellFormedSettings(items)
    requires i < |items| && items[i].items[0] == JStr(name)
    requires forall j :: 0 <= j < i ==> items[j].items[0] != JStr(name)
    ensures FindSetting(items, name) == Ok(items[i])
  {
    if i > 0 {
      FindSettingFirst(items[1..], name, i - 1);
    }
  }

  /** On a well-formed list without the name the generator is exhausted. */
  lemma {:induction false} FindSettingNone(items: seq<Json>, name: string)
    requires WellFormedSettings(items)
    requires forall j :: 0 <= j < |items| ==> items[j].items[0] != JStr(name)
    ensures FindSetting(items, name) == Err(StopIteration)
  {
    if items != [] {
      FindSettingNone(items[1..], name);
    }
  }

  /** The getter's answer on a reply with a well-formed settings list: the
      first "sched_enable" entry decides, an entry of fewer than three
      elements raises IndexError, and without such an entry StopIteration. */
  lemma GetSchedEnableOfSettings(body: Json, items: seq<Json>)
    requires body.JObj? && "settings" in body.fields && body.fields["settings"] == JArr(items)
    requires WellFormedSettings(items)
    ensures (forall j :: 0 <= j < |items| ==> items[j].items[0] != JStr("sched_enable"))
              ==> GetSchedEnable(body) == Err(StopIteration)
    ensures forall i :: 0 <= i < |items| && items[i].items[0] == JStr("sched_enable")
                          && (forall j :: 0 <= j < i ==> items[j].items[0] != JStr("sched_enable")) ==>
              GetSchedEnable(body) ==
                (if |items[i].items| < 3 then Err(IndexError)
                 else if items[i].items[2] == JStr("true") then Ok("1") else Ok("0"))
  {
    if forall j :: 0 <= j < |items| ==> items[j].items[0] != JStr("sched_enable") {
      FindSettingNone(items, "sched_enable");
    }
    forall i | 0 <= i < |items| && items[i].items[0] == JStr("sched_enable")
                 && (forall j :: 0 <= j < i ==> items[j].items[0] != JStr("sched_enable"))
      ensures GetSchedEnable(body) ==
                (if |items[i].items| < 3 then Err(IndexError)
                 else if items[i].items[2] == JStr("true") then Ok("1") else Ok("0"))
    {
      FindSettingFirst(items, "sched_enable", i);
    }
  }

  /** A reply whose body is not a dictionary with a settings list raises. */
  lemma GetSchedEnableNeedsList(body: Json)
    requires !(body.JObj? && "settings" in body.fields && body.fields["settings"].JArr?)
    ensures GetSchedEnable(body).Err?
  {
  }

  // ---------------------------------------------------------------------------
  // The setter's check (line 187)

  /** `json_response is None or len(json_response) < 1 or json_response[0]
      is not 200` raises; `is` on the small integer 200 is equality. */
  function CheckSetReply(reply: Option<seq<Json>>): (r: Result<(), PyError>)
    ensures r.Ok? <==> reply.Some? && |reply.value| >= 1 && reply.value[0] == JNum(200)
    ensures r.Err? ==> r.error == AssertionError
  {
    if reply.None? || |reply.value| < 1 || reply.value[0] != JNum(200) then Err(AssertionError)
    else Ok(())
  }

  /** `_action` replies with the pair (HTTP status, decoded body), so the
      check passes exactly on status 200, whatever the body. */
  lemma CheckActionReply(code: int, body: Json)
    ensures CheckSetReply(Some([JNum(code), body])).Ok? <==> code == 200
  {
  }

  // ---------------------------------------------------------------------------
  // URLs (lines 144, 192, 199)

  /** `_action`'s URL: the base, the token and the url-encoded parameters. */
  function ActionUrl(baseUrl: string, token: string, params: seq<(string, string)>,
                     urlencode: seq<(string, string)> -> string): string
  {
    baseUrl + "?token=" + token + "&" + urlencode(params)
  }

  /** The URL reads back: after the base and "?token=", the token runs to
      the first '&' (when it holds none) and the query follows it. */
  lemma ActionUrlParts(baseUrl: string, token: string, params: seq<(string, string)>,
                       urlencode: seq<(string, string)> -> string)
    requires Free(token, '&')
    ensures var url := ActionUrl(baseUrl, token, params, urlencode);
            var rest := url[|baseUrl + "?token="|..];
            IsPrefix(baseUrl + "?token=", url)
            && FirstIndex(rest, '&') == |token|
            && rest[..|token|] == token
            && rest[|token| + 1..] == urlencode(params)
  {
    var url := ActionUrl(baseUrl, token, params, urlencode);
    var rest := url[|baseUrl + "?token="|..];
    assert rest == token + "&" + urlencode(params);
    assert rest[..|token|] == token;
    FirstIndexAt(rest, '&', |token|);
  }

  /** The SABnzbd queue-status URL, joined from its pieces. */
  function SabnzbdUrl(host: string, port: string, apikey: string): string {
    Concat(["http://", host, ":", port, "/sabnzbd/api?", "apikey=", apikey, "&mode=qstatus&output=json"])
  }

  /** The SABnzbd API path with the key parameter's name, and the fixed
      parameters after the key. */
  const SabnzbdQuery: string := "/sabnzbd/api?apikey="
  const SabnzbdStatus: string := "&mode=qstatus&output=json"

  /** The uTorrent web UI base URL, joined from its pieces. */
  function UtorrentUrl(host: string, port: string): string {
    Concat(["http://", host, ":", port, "/gui/"])
  }

  /** `''.join` of five pieces. */
  lemma ConcatFive(a: string, b: string, c: string, d: string, e: string)
    ensures Concat([a, b, c, d, e]) == a + b + c + d + e
  {
    assert Concat([a]) == a by {
      assert [a][..0] == [];
    }
    assert Concat([a, b]) == a + b by {
      assert [a, b][..1] == [a];
    }
    assert Concat([a, b, c]) == a + b + c by {
      assert [a, b, c][..2] == [a, b];
    }
    assert Concat([a, b, c, d]) == a + b + c + d by {
      assert [a, b, c, d][..3] == [a, b, c];
    }
    assert [a, b, c, d, e][..4] == [a, b, c, d];
  }

  /** `''.join` of eight pieces. */
  lemma ConcatEight(a: string, b: string, c: string, d: string, e: string, f: string, g: string, h: string)
    ensures Concat([a, b, c, d, e, f, g, h]) == a + b + c + d + e + f + g + h
  {
    ConcatFive(a, b, c, d, e);
    assert Concat([a, b, c, d, e, f]) == a + b + c + d + e + f by {
      assert [a, b, c, d, e, f][..5] == [a, b, c, d, e];
    }
    assert Concat([a, b, c, d, e, f, g]) == a + b + c + d + e + f + g by {
      assert [a, b, c, d, e, f, g][..6] == [a, b, c, d, e, f];
    }
    assert [a, b, c, d, e, f, g, h][..7] == [a, b, c, d, e, f, g];
  }

  /** The uTorrent base URL as one text. */
  lemma UtorrentUrlText(host: string, port: string)
    ensures UtorrentUrl(host, port) == "http://" + host + ":" + port + "/gui/"
  {
    ConcatFive("http://", host, ":", port, "/gui/");
  }

  /** The SABnzbd URL as one text. */
  lemma SabnzbdUrlText(host: string, port: string, apikey: string)
    ensures SabnzbdUrl(host, port, apikey) ==
              "http://" + host + ":" + port + SabnzbdQuery + apikey + SabnzbdStatus
  {
    var api, key := "/sabnzbd/api?", "apikey=";
    ConcatEight("http://", host, ":", port, api, key, apikey, "&mode=qstatus&output=json");
    assert api + key == SabnzbdQuery;
  }

  /** After "http://", the host runs to the first ':' and the port from
      there to the next '/', when neither holds its terminator. */
  predicate HostPortAt(url: string, host: string, port: string) {
    IsPrefix("http://", url)
    && var rest := url[7..];
       FirstIndex(rest, ':') == |host| < |rest| && rest[..|host|] == host
       && var tail := rest[|host| + 1..];
          FirstIndex(tail, '/') == |port| < |tail| && tail[..|port|] == port
  }

  lemma HostPortOf(host: string, port: string, path: string)
    requires Free(host, ':') && Free(port, '/') && |path| >= 1 && path[0] == '/'
    ensures HostPortAt("http://" + host + ":" + port + path, host, port)
  {
    var url := "http://" + host + ":" + port + path;
    var front := "http://" + host + ":" + port;
    assert url[..|front|] == front;
    assert url[|front|] == path[0];
    HostPortFromFront(url, host, port, |front|);
  }

  /** The uTorrent URL reads back: its host and port, then the path "/gui/". */
  lemma UtorrentUrlParts(host: string, port: string)
    requires Free(host, ':') && Free(port, '/')
    ensures HostPortAt(UtorrentUrl(host, port), host, port)
    ensures var url := UtorrentUrl(host, port);
            url[|url| - 5..] == "/gui/" && |url| == 7 + |host| + 1 + |port| + 5
  {
    UtorrentUrlText(host, port);
    HostPortOf(host, port, "/gui/");
  }

  /** The SABnzbd URL reads back its host and port. */
  lemma SabnzbdUrlHostPort(host: string, port: string, apikey: string)
    requires Free(host, ':') && Free(port, '/')
    ensures HostPortAt(SabnzbdUrl(host, port, apikey), host, port)
  {
    SabnzbdUrlText(host, port, apikey);
    UrlHostPort(SabnzbdUrl(host, port, apikey), host, port, SabnzbdQuery, apikey, SabnzbdStatus);
  }

  /** The SABnzbd URL reads back its key: after the API path and "apikey=",
      up to the next '&', which starts the fixed mode and output parameters. */
  lemma SabnzbdUrlKey(host: string, port: string, apikey: string)
    requires Free(apikey, '&')
    ensures var url := SabnzbdUrl(host, port, apikey);
            var start := 7 + |host| + 1 + |port| + |SabnzbdQuery|;
            start <= |url|
            && url[start - |SabnzbdQuery|..start] == SabnzbdQuery
            && FirstIndex(url[start..], '&') == |apikey|
            && url[start..][..|apikey|] == apikey
            && url[start..][|apikey|..] == SabnzbdStatus
  {
    SabnzbdUrlText(host, port, apikey);
    UrlKey(SabnzbdUrl(host, port, apikey), host, port, SabnzbdQuery, apikey, SabnzbdStatus);
  }

  /** A URL made of host and port, then a path that starts with '/', reads
      back its host and port. */
  lemma UrlHostPort(url: string, host: string, port: string, api: string, key: string, tail: string)
    requires url == "http://" + host + ":" + port + api + key + tail
    requires Free(host, ':') && Free(port, '/') && |api| > 0 && api[0] == '/'
    ensures HostPortAt(url, host, port)
  {
    var front := "http://" + host + ":" + port;
    assert url[..|front|] == front;
    assert url[|front|] == api[0];
    HostPortFromFront(url, host, port, |front|);
  }

  /** In such a URL the key follows the path and runs to the first '&',
      which starts the tail. */
  lemma UrlKey(url: string, host: string, port: string, api: string, key: string, tail: string)
    requires url == "http://" + host + ":" + port + api + key + tail
    requires Free(key, '&') && |tail| > 0 && tail[0] == '&'
    ensures var start := 7 + |host| + 1 + |port| + |api|;
            start <= |url|
            && url[start - |api|..start] == api
            && FirstIndex(url[start..], '&') == |key|
            && url[start..][..|key|] == key
            && url[start..][|key|..] == tail
  {
    var start := 7 + |host| + 1 + |port| + |api|;
    assert url[start - |api|..start] == api;
    assert url[start..] == key + tail;
    KeyFromQuery(url[start..], key, tail);
  }

  /** The host and port read back from a URL that starts with
      "http://" host ":" port, followed by a '/'. */
  lemma HostPortFromFront(url: string, host: string, port: string, n: nat)
    requires Free(host, ':') && Free(port, '/')
    requires n == 7 + |host| + 1 + |port| < |url| && url[n] == '/'
    requires url[..n] == "http://" + host + ":" + port
    ensures HostPortAt(url, host, port)
  {
    var front := url[..n];
    assert url[..7] == front[..7];
    var rest := url[7..];
    assert rest[..|host|] == front[7..7 + |host|] == host;
    assert rest[|host|] == front[7 + |host|] == ':';
    FirstIndexAt(rest, ':', |host|);
    var tail := rest[|host| + 1..];
    assert tail[..|port|] == front[7 + |host| + 1..] == port;
    assert tail[|port|] == url[n];
    FirstIndexAt(tail, '/', |port|);
  }

  /** The key runs to the first '&', which starts the tail. */
  lemma KeyFromQuery(query: string, key: string, tail: string)
    requires query == key + tail
    requires Free(key, '&') && |tail| > 0 && tail[0] == '&'
    ensures FirstIndex(query, '&') == |key|
    ensures query[..|key|] == key && query[|key|..] == tail
  {
    assert query[..|key|] == key;
    assert query[|key|..] == tail;
    FirstIndexAt(query, '&', |key|);
  }

  // ---------------------------------------------------------------------------
  // The token (lines 138-140)

  const TokenOpen: string := "<div id='token' style='display:none;'>"
  const TokenClose: string := "</div>"

  predicate NotAngle(c: char) {
    c != '<' && c != '>'
  }

  /** Length of the run of characters other than '<' and '>' at the front. */
  function AngleFreeRun(s: string): (k: nat)
    ensures k <= |s|
    ensures forall i :: 0 <= i < k ==> NotAngle(s[i])
    ensures k == |s| || !NotAngle(s[k])
  {
    if s == [] || !NotAngle(s[0]) then 0 else 1 + AngleFreeRun(s[1..])
  }

  /** The pattern matched at position `p`: the opening tag, a non-empty
      greedy run without '<' or '>', then the closing tag. The run cannot
      give characters back, since the closing tag starts with '<'. */
  function TokenAt(page: string, p: nat): (r: Option<string>)
    requires p <= |page|
  {
    if !IsPrefix(TokenOpen, page[p..]) then None
    else
      var q := p + |TokenOpen|;
      var n := AngleFreeRun(page[q..]);
      if n >= 1 && IsPrefix(TokenClose, page[q + n..]) then Some(page[q..q + n]) else None
  }

  /** `re.search` from position `p` on: the leftmost match and its group. */
  function SearchFrom(page: string, p: nat): (r: Option<(nat, string)>)
    requires p <= |page|
    ensures r.Some? ==> p <= r.value.0 <= |page| && TokenAt(page, r.value.0) == Some(r.value.1)
    decreases |page| - p
  {
    match TokenAt(page, p)
    case Some(t) => Some((p, t))
    case None => if p == |page| then None else SearchFrom(page, p + 1)
  }

  /** The search finds the leftmost match: a match at any `q` from `p` on
      means the search succeeds, at `q` or before it. */
  lemma {:induction false} SearchLeftmost(page: string, p: nat, q: nat)
    requires p <= q <= |page| && TokenAt(page, q).Some?
    ensures SearchFrom(page, p).Some? && SearchFrom(page, p).value.0 <= q
    decreases q - p
  {
    if TokenAt(page, p).None? {
      SearchLeftmost(page, p + 1, q);
    }
  }

  /** A failed search means no position matches. */
  lemma NoMatch(page: string)
    requires SearchFrom(page, 0).None?
    ensures forall q :: 0 <= q <= |page| ==> TokenAt(page, q).None?
  {
    forall q | 0 <= q <= |page| ensures TokenAt(page, q).None? {
      if TokenAt(page, q).Some? {
        SearchLeftmost(page, 0, q);
      }
    }
  }

  /** `_get_token` on the text of token.html; AttributeError when nothing
      matches. */
  function GetToken(page: string): (r: Result<string, PyError>)
    ensures r.Err? <==> forall q :: 0 <= q <= |page| ==> TokenAt(page, q).None?
    ensures r.Err? ==> r.error == AttributeError
    ensures r.Ok? ==> |r.value| >= 1 && forall i :: 0 <= i < |r.value| ==> NotAngle(r.value[i])
  {
    match SearchFrom(page, 0)
    case None => NoMatch(page); Err(AttributeError)
    case Some((p, t)) => TokenShape(page, p); Ok(t)
  }

  /** A group is a non-empty run without '<' or '>'. */
  lemma TokenShape(page: string, p: nat)
    requires p <= |page| && TokenAt(page, p).Some?
    ensures var t := TokenAt(page, p).value;
            |t| >= 1 && forall i :: 0 <= i < |t| ==> NotAngle(t[i])
  {
    var q := p + |TokenOpen|;
    var n := AngleFreeRun(page[q..]);
    assert forall i :: 0 <= i < n ==> page[q..q + n][i] == page[q..][i];
  }

  /** The token reads back from a page that holds it in the tag, after text
      without a '<' (so no earlier match can start). */
  lemma GetTokenOf(before: string, token: string, after: string)
    requires Free(before, '<')
    requires |token| >= 1 && forall i :: 0 <= i < |token| ==> NotAngle(token[i])
    ensures GetToken(before + TokenOpen + token + TokenClose + after) == Ok(token)
  {
    var page := before + TokenOpen + token + TokenClose + after;
    var p := |before|;
    assert page[..p] == before;
    NoEarlyMatch(page, before);
    assert page[p..] == TokenOpen + token + TokenClose + after;
    TokenAtTag(page, p, token, after);
    SearchFirst(page, 0, p);
  }

  /** No match starts inside text without a '<'. */
  lemma NoEarlyMatch(page: string, before: string)
    requires |before| <= |page| && page[..|before|] == before && Free(before, '<')
    ensures forall q :: 0 <= q < |before| ==> TokenAt(page, q).None?
  {
    forall q | 0 <= q < |before| ensures TokenAt(page, q).None? {
      assert page[q] == before[q];
      assert page[q..][0] != TokenOpen[0];
    }
  }

  /** The tag holding `token` at `p` matches there, with `token` as its group. */
  lemma TokenAtTag(page: string, p: nat, token: string, after: string)
    requires p <= |page| && page[p..] == TokenOpen + token + TokenClose + after
    requires |token| >= 1 && forall i :: 0 <= i < |token| ==> NotAngle(token[i])
    ensures TokenAt(page, p) == Some(token)
  {
    var q := p + |TokenOpen|;
    var closed := TokenClose + after;
    assert page[p..] == TokenOpen + (token + closed);
    FrontAndBack(page, p, TokenOpen, token + closed);
    RunOf(page[q..], token, closed);
    FrontAndBack(page, q, token, closed);
    assert page[q + |token|..][..|TokenClose|] == TokenClose;
    TokenAtParts(page, p, |token|);
  }

  /** `page[from..] == front + back` puts `front` and `back` at known places. */
  lemma FrontAndBack(page: string, from: nat, front: string, back: string)
    requires from <= |page| && page[from..] == front + back
    ensures from + |front| <= |page|
    ensures page[from..][..|front|] == front && page[from..from + |front|] == front
    ensures page[from + |front|..] == back
  {
    assert page[from + |front|..] == page[from..][|front|..];
  }

  /** The match at `p`, once the opening tag, the run and the closing tag are known. */
  lemma TokenAtParts(page: string, p: nat, n: nat)
    requires p + |TokenOpen| + n <= |page|
    requires IsPrefix(TokenOpen, page[p..])
    requires n >= 1 && n == AngleFreeRun(page[p + |TokenOpen|..])
    requires IsPrefix(TokenClose, page[p + |TokenOpen| + n..])
    ensures TokenAt(page, p) == Some(page[p + |TokenOpen|..p + |TokenOpen| + n])
  {
  }

  /** The run over `token` stops at the '<' that follows it. */
  lemma {:induction false} RunOf(s: string, token: string, rest: string)
    requires s == token + rest && |rest| >= 1 && rest[0] == '<'
    requires forall i :: 0 <= i < |token| ==> NotAngle(token[i])
    ensures AngleFreeRun(s) == |token|
    decreases |token|
  {
    if token != [] {
      assert s[0] == token[0];
      assert s[1..] == token[1..] + rest;
      RunOf(s[1..], token[1..], rest);
    }
  }

  /** The search from `from` finds the first matching position `p`. */
  lemma {:induction false} SearchFirst(page: string, from: nat, p: nat)
    requires from <= p <= |page| && TokenAt(page, p).Some?
    requires forall q :: from <= q < p ==> TokenAt(page, q).None?
    ensures SearchFrom(page, from) == Some((p, TokenAt(page, p).value))
    decreases p - from
  {
    if from < p {
      SearchFirst(page, from + 1, p);
    }
  }

  // ---------------------------------------------------------------------------
  // The script (lines 197-201)

  /** The request the script ends with: the flag for SABnzbd's state, set
      through `_action` with the token of the uTorrent page. */
  function SetRequestUrl(sabnzbd: Json, baseUrl: string, tokenPage: string,
                         urlencode: seq<(string, string)> -> string): (r: Result<string, PyError>)
    ensures r.Ok? ==> SchedEnableFor(sabnzbd).Ok? && GetToken(tokenPage).Ok?
    ensures r.Ok? ==> r.value == ActionUrl(baseUrl, GetToken(tokenPage).value,
                                           SetParams(SchedEnableFor(sabnzbd).value), urlencode)
  {
    match SchedEnableFor(sabnzbd)
    case Err(e) => Err(e)
    case Ok(flag) =>
      match GetToken(tokenPage)
      case Err(e) => Err(e)
      case Ok(token) => Ok(ActionUrl(baseUrl, token, SetParams(flag), urlencode))
  }

  /** The setter's parameters. */
  function SetParams(v: string): seq<(string, string)> {
    [("action", "setsetting"), ("s", "sched_enable"), ("v", v)]
  }

  /** An idle SABnzbd turns the schedule off: the request sets "0". */
  lemma IdleDisablesSchedule(fields: map<string, Json>, baseUrl: string, before: string, token: string,
                             after: string, urlencode: seq<(string, string)> -> string)
    requires "state" in fields && fields["state"] == JStr("IDLE")
    requires Free(before, '<')
    requires |token| >= 1 && forall i :: 0 <= i < |token| ==> NotAngle(token[i])
    ensures SetRequestUrl(JObj(fields), baseUrl, before + TokenOpen + token + TokenClose + after, urlencode)
              == Ok(baseUrl + "?token=" + token + "&" + urlencode(SetParams("0")))
  {
    GetTokenOf(before, token, after);
  }
}
