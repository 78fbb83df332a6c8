# Media-pipeline scripts, modelled in Dafny

This project models the decision and formatting logic of three scripts from a home
media-download pipeline. It proves properties of that model.

- **rtorrent-daemon/rtrpc.py** is an XML-RPC client that talks to rTorrent over SCGI.
  - The model frames a request as an SCGI netstring. An SCGI server reads that frame back to the same header fields and body.
  - It reads the reply until the first empty chunk.
  - It cuts the SCGI header block off the reply at the first blank line.
  - It writes integers with the `i4`/`i8` tag.
  - It checks the `scgi:` URI scheme and chooses the TCP or Unix-socket endpoint.
  - It unwraps one-element responses.
- **postprocess/postprocess.py** is a torrent post-processor.
  - The model covers the extension filters, the ignore-word test and the archive-fileset filter.
  - It covers the configuration lookups (`_get_property`, `as_array`, `as_boolean`, the `StorageMap` setting) and the storage-folder choice.
  - It covers the `Storage` class:
    - the UNC mapping of each mount point;
    - the cached list sorted longest mount first (`Initialize`);
    - the free-space lookup by UNC prefix.
- **disks.json.php** is the file server's disk report.
  - It matches each `df -P` line against a six-group pattern and skips the header line.
  - It writes each remaining line as a JSON object and joins the objects into an array.
  - The model is imperative: a loop appends to the list of objects and builds each object's members by appending.
- **arbiter.py** switches uTorrent's bandwidth schedule.
  - The flag is `"0"` exactly when SABnzbd reports `IDLE`.
  - The getter looks up `sched_enable` in the settings list, and the setter checks the reply.
  - The model builds the request URLs and extracts the CSRF token from `token.html`.

Modules:
- `Results`: Option and Result.
- `PyText`: the Python 2 string builtins the scripts use.
- `PosixPath`: `basename` and `splitext`.
- One module for each of `Rtrpc`, `Postprocess`, `Storage`, `DisksJson` and `Arbiter`.

Two behaviours of the code that a reader might not expect, modelled as written:
- **Reply without a blank line.** When the reply has no blank line, `parse_response` keeps the whole payload as the header, so the body is empty.
- **Integers below -2**31.** `dump_long` chooses `i8` only above 2**31-1, so it writes values below -2**31 with `i4`, outside the 32-bit range of that tag.

## Model

| member | source | states |
|---|---|---|
| Rtrpc.FieldTexts | rtorrent-daemon/rtrpc.py:99 | each header field is written as its name, a NUL, then its value, in field order |
| Rtrpc.HeaderBlock | rtorrent-daemon/rtrpc.py:97-99 | the header block is exactly `CONTENT_LENGTH` NUL decimal(len(request)) NUL `SCGI` NUL `1` NUL |
| Rtrpc.SendPayload | rtorrent-daemon/rtrpc.py:100-101 | `.encode()` succeeds exactly on an ASCII request and then yields the netstring frame followed by the request; otherwise it raises the encode error |
| Rtrpc.FrameAscii | rtorrent-daemon/rtrpc.py:97-101 | the frame is ASCII exactly when the request is, since the length digits and the header block always are |
| Rtrpc.HeaderFieldsOf | rtorrent-daemon/rtrpc.py:97-99 | the header block splits back into exactly the two fields (CONTENT_LENGTH, SCGI) in order |
| Rtrpc.ReadNetstringOf | rtorrent-daemon/rtrpc.py:100 | a `<decimal length>:<data>,` prefix reads back as the data and the text after the comma |
| Rtrpc.FrameRoundTrip | rtorrent-daemon/rtrpc.py:97-101 | an SCGI server reading the frame recovers the two header fields and exactly the request as body; the CONTENT_LENGTH value parses back to len(request) |
| Rtrpc.Delivered | rtorrent-daemon/rtrpc.py:89-92 | the chunks read: a prefix of the stream, every one non-empty, followed by an empty chunk or the end of the stream |
| Rtrpc.DeliveredIs | rtorrent-daemon/rtrpc.py:89-92 | any prefix with those three properties is the delivered one |
| Rtrpc.ReplyStream.Read | rtorrent-daemon/rtrpc.py:90 | a read returns the next chunk and advances, or returns "" at the end without advancing |
| Rtrpc.DecodeAscii | rtorrent-daemon/rtrpc.py:93 | `u''.join` of byte strings succeeds exactly on ASCII text and then leaves it unchanged; otherwise it raises the decode error |
| Rtrpc.ReadAll | rtorrent-daemon/rtrpc.py:87-93 | the result is the in-order join of the chunks before the first empty one; the reads stop at that empty chunk and nothing after it is read |
| Rtrpc.MatchEnd | rtorrent-daemon/rtrpc.py:118 | the lazy `\s*?` ends a match at the nearest second line feed with only whitespace before it, or there is no match at that line feed |
| Rtrpc.FindBlankLine | rtorrent-daemon/rtrpc.py:118 | the leftmost match of `\n\s*?\n` and its shortest end; none exists when the result is None |
| Rtrpc.SplitReply | rtorrent-daemon/rtrpc.py:118-119 | without a match the header is the payload and the body is empty; otherwise header + separator + body == payload, split at the leftmost, shortest match |
| Rtrpc.ReplyBody | rtorrent-daemon/rtrpc.py:112-119 | an empty reply raises EPIPE and never reaches the split; otherwise the body is the split's body |
| Rtrpc.ParseResponse | rtorrent-daemon/rtrpc.py:111-119 | reads the whole reply, propagates the decode error, and returns the body as ReplyBody gives it |
| Rtrpc.Output.Write | rtorrent-daemon/rtrpc.py:174 | the `write` callback appends one piece to the sink |
| Rtrpc.DumpLong | rtorrent-daemon/rtrpc.py:174-182 | writes exactly three pieces (open tag, decimal value, close tag), which together are the element for the value |
| Rtrpc.IntElementRoundTrip | rtorrent-daemon/rtrpc.py:174-182 | reading back the written element yields the chosen tag and the original value, negatives included |
| Rtrpc.IntTagBoundary | rtorrent-daemon/rtrpc.py:175 | the tag is `i8` iff the value exceeds 2**31-1: 2147483647 gets i4, 2147483648 gets i8, and -2147483649 gets i4 |
| Rtrpc.SplitTypeOf | rtorrent-daemon/rtrpc.py:129 | splittype of `scheme:rest` gives the lower-cased scheme and the rest |
| Rtrpc.ParseUri | rtorrent-daemon/rtrpc.py:129-134 | a URI without a scheme raises TypeError; it is accepted iff the scheme is a substring of "scgi", otherwise IOError; the handler is never empty ("/" by default) |
| Rtrpc.SchemeAccepted | rtorrent-daemon/rtrpc.py:129-131 | the accepted schemes are exactly the ten non-empty substrings of "scgi", ignoring case |
| Rtrpc.ChooseEndpoint | rtorrent-daemon/rtrpc.py:74-84 | connects over TCP to the host when it is non-empty; otherwise uses the Unix socket at the handler path |
| Rtrpc.UriEndpoints | rtorrent-daemon/rtrpc.py:74-84 | `scgi://host:port` goes over TCP to host:port with handler "/"; `scgi:///path` goes to the Unix socket at /path |
| Rtrpc.ServerProxy.constructor | rtorrent-daemon/rtrpc.py:132-137 | the proxy holds the host and handler it was given |
| Rtrpc.NewServerProxy | rtorrent-daemon/rtrpc.py:127-137 | construction fails exactly when the URI check fails, with the same error; otherwise the proxy holds the parsed host and handler |
| Rtrpc.SingleRequest | rtorrent-daemon/rtrpc.py:95-109 | a request that cannot be encoded raises before anything is sent or read; otherwise the frame is sent to the chosen endpoint and the reply is parsed |
| Rtrpc.Unwrap | rtorrent-daemon/rtrpc.py:153-155 | a one-element response becomes its element; any other length is returned as it is |
| Rtrpc.UnwrapLossless | rtorrent-daemon/rtrpc.py:153-155 | the response can always be rebuilt from the unwrapped value |
| PyText.Lower | postprocess/postprocess.py:319 | lower-casing keeps the length and leaves no upper-case ASCII letter |
| PyText.LowerIdempotent | postprocess/postprocess.py:319 | lower-casing twice is lower-casing once |
| PyText.Strip | postprocess/postprocess.py:181 | the result is no longer than the input and has no whitespace at either end |
| PyText.StripTrims | postprocess/postprocess.py:181 | the result is a slice of the input, and everything cut from either end is whitespace |
| PyText.SplitCount | postprocess/postprocess.py:181 | `split(c)` yields one more part than there are separators |
| PyText.SplitJoin | postprocess/postprocess.py:181 | splitting a join of separator-free parts gives the parts back |
| PyText.JoinSplit | postprocess/postprocess.py:181 | joining the parts of a split gives the text back |
| PyText.ReplaceRoot | postprocess/postprocess.py:279 | replacing a prefix occurring nowhere else re-roots the text |
| PyText.ReplaceAbsent | postprocess/postprocess.py:279 | replacing a pattern that does not occur leaves the text unchanged |
| PyText.DecimalRoundTrip | rtorrent-daemon/rtrpc.py:97 | the decimal digits `str(n)` writes for a length n read back as n |
| PyText.PyIntRoundTrip | postprocess/postprocess.py:289 | `int(str(v))` == v for every integer v, negatives included |
| PosixPath.Basename | postprocess/postprocess.py:325 | the base name is the suffix after the last '/' and holds no '/' |
| PosixPath.Splitext | postprocess/postprocess.py:319 | root + extension == the path |
| PosixPath.ExtShape | postprocess/postprocess.py:319 | a non-empty extension is one '.' followed by neither '.' nor '/'; the component before it is not all dots |
| PosixPath.ExtEmptyIff | postprocess/postprocess.py:319 | the extension is empty iff every dot that could start it has only dots before it in its component |
| Postprocess.ExtensionInList | postprocess/postprocess.py:316-320 | an absent list raises TypeError; otherwise true iff the extension of the lower-cased name is in the list |
| Postprocess.ExtensionCaseInsensitive | postprocess/postprocess.py:319 | the test gives the same answer for the lower-cased name |
| Postprocess.ExtensionIsSuffix | postprocess/postprocess.py:316-320 | a name passes only through a listed extension that it ends with and that starts with '.' |
| Postprocess.AnyContained | postprocess/postprocess.py:325 | `any(...)` is true iff some word occurs in the name |
| Postprocess.Ignored | postprocess/postprocess.py:322-325 | an absent word list raises TypeError; otherwise true iff some ignore word occurs in the lower-cased base name |
| Postprocess.EmptyWordIgnoresAll | postprocess/postprocess.py:325 | an empty ignore word ignores every file |
| Postprocess.ChainContains | postprocess/postprocess.py:337-339 | the lazy chain finds the name iff some list reached in order holds it, and raises TypeError iff the scan reaches an absent list |
| Postprocess.ReachesShift | postprocess/postprocess.py:337-339 | skipping a list that exists and misses the name shifts the scan by one |
| Postprocess.MediaFilter | postprocess/postprocess.py:332-339 | without the `['*']` wildcard this is the media-list test; with it, true iff the extension is in none of the meta, subtitle and archive lists; an absent meta list raises |
| Postprocess.WildcardChain | postprocess/postprocess.py:337-339 | with all three lists present, the chain holds the extension iff one of the lists does |
| Postprocess.MetaFilter | postprocess/postprocess.py:341-344 | absent list raises; otherwise true iff the extension is a meta extension |
| Postprocess.SubtitleFilter | postprocess/postprocess.py:346-349 | absent list raises; otherwise true iff the extension is a subtitle extension |
| Postprocess.BasenameOfJoin | postprocess/postprocess.py:363-364 | the base name of `dir/name` is `name` |
| Postprocess.FilesetOfJoins | postprocess/postprocess.py:357-367 | fileset membership of `dir1/a` and `dir2/f` is path equality, or the stem/extension tests on `a` and `f` alone |
| Postprocess.FilesetIgnoresDirectories | postprocess/postprocess.py:363-367 | apart from equality with the archive, membership does not depend on the directory |
| Postprocess.SplitextOf | postprocess/postprocess.py:363-364 | `splitext(stem.ext)` is (stem, .ext) for a plain stem and a dot-free extension |
| Postprocess.FilesetSameStem | postprocess/postprocess.py:366 | `stem.<ext ending in a digit>` belongs to the set of `stem.rar` (of `stem.<any dot-free extension>`), in any directory |
| Postprocess.FilesetSameExtension | postprocess/postprocess.py:361-367 | any file with the archive's extension and a stem ending in a digit is taken into the set, in any directory |
| Postprocess.GetNumber | postprocess/postprocess.py:288-289 | `int()` of the attribute the search set, or of the default when there is none; None when it does not parse |
| Postprocess.GetNumberValues | postprocess/postprocess.py:288-289 | a missing volume count reads as 0; a captured decimal count reads back as itself |
| Postprocess.ArchiveFilesetFilter | postprocess/postprocess.py:382-386 | an unparsable volume count raises ValueError; above one volume the fileset members are removed, otherwise only the archive itself |
| Postprocess.ArchiveFilesetRemovesExactly | postprocess/postprocess.py:382-386 | the result keeps the list's order and removes the archive; every kept name occurs as often as before and every removed name is gone |
| Postprocess.NoVolumesRemovesOnlyArchive | postprocess/postprocess.py:385-386 | with no volume count captured, only the archive itself is removed |
| Postprocess.GetPropertyPrecedence | postprocess/postprocess.py:171-177 | the label's own section wins, then [DEFAULT] through that section; otherwise the `Default` section's own value, then [DEFAULT] through `Default` when the label's section is absent; with neither section, or the option set nowhere, the caller's default |
| Postprocess.AsArray | postprocess/postprocess.py:179-181 | None iff the setting is absent or empty; otherwise one lower-cased, stripped item per comma-separated part |
| Postprocess.AsArrayRoundTrip | postprocess/postprocess.py:181 | normalised comma-free items joined by commas read back as the same list |
| Postprocess.AsArrayTrailingComma | postprocess/postprocess.py:181 | a trailing comma adds an empty item |
| Postprocess.AsBoolean | postprocess/postprocess.py:183-185 | true exactly for the nine listed spellings |
| Postprocess.AsBooleanExact | postprocess/postprocess.py:183-185 | no stripping and no case folding: a true setting has no whitespace at either end and no upper-case letter after the first, so " yes" and "TRUE" are false |
| Postprocess.ReadListsPrecedence | postprocess/postprocess.py:130-134 | each of the five lists is `as_array` of the label section's value when that section sets it, else of the `Default` section's value when the label has no section; None when neither section exists |
| Postprocess.ParseStorageMap | postprocess/postprocess.py:153-157 | ValueError unless there is exactly one space; otherwise remote + " " + local == the setting, both space-free |
| Postprocess.StorageMapRoundTrip | postprocess/postprocess.py:153-157 | two space-free paths read back from their setting |
| Postprocess.MaxSpace | postprocess/postprocess.py:162 | `max` returns an element that is at least every element, with None below every number |
| Postprocess.IndexOf | postprocess/postprocess.py:163 | `index` returns the first position holding the value |
| Postprocess.ChooseStorageFolder | postprocess/postprocess.py:160-164 | an empty candidate list raises ValueError; otherwise the first folder with the most free space |
| Storage.NewStorage | postprocess/postprocess.py:274-279 | the object keeps the record's mount and free space |
| Storage.UncOfMount | postprocess/postprocess.py:279 | a mount under the remote prefix is re-rooted under the local prefix |
| Storage.UncOutsideMap | postprocess/postprocess.py:279 | a mount without the remote prefix keeps its text as its UNC path |
| Storage.NewStorages | postprocess/postprocess.py:251 | one object per record, in order |
| Storage.Insert | postprocess/postprocess.py:252 | inserting into a list sorted by mount length keeps it sorted and adds exactly that element |
| Storage.SortByMount | postprocess/postprocess.py:252 | the result is sorted longest mount first and is a permutation of the input |
| Storage.SortStable | postprocess/postprocess.py:252 | the sort is stable: records with mounts of equal length keep their order |
| Storage.FirstMatch | postprocess/postprocess.py:263 | the first record whose UNC path is a prefix of the path |
| Storage.FreeSpaceOf | postprocess/postprocess.py:263-264 | StopIteration iff no UNC path is a prefix of the path; otherwise the free space of the first matching record, the one FirstMatch finds |
| Storage.LongestMountWins | postprocess/postprocess.py:252-263 | on the sorted list, the matching record found has the longest mount of all matches |
| Storage.StorageCache.constructor | postprocess/postprocess.py:222 | the cache starts empty |
| Storage.StorageCache.Initialize | postprocess/postprocess.py:245-254 | the fetched records are used (mapped and sorted) only while the cache is empty; otherwise the cached list is returned unchanged |
| Storage.StorageCache.GetFreeStorageSpace | postprocess/postprocess.py:257-264 | the lookup runs on the list Initialize leaves |
| Storage.StorageCache.GetFreeSpace | postprocess/postprocess.py:267-272 | with no storage service (None or empty), the local free space and the cache untouched; otherwise the service's figure from the initialised cache, and None where the lookup raises |
| DisksJson.Capture | disks.json.php:2-13 | the pattern matches iff the line has at least six non-space characters |
| DisksJson.GroupsShape | disks.json.php:2-13 | none of the greedy groups is empty or holds a space |
| DisksJson.GroupsFollow | disks.json.php:2-13 | the groups sit at the front of the text in order, separated only by whitespace |
| DisksJson.CaptureIsMatch | disks.json.php:2-13 | a match is six non-empty, space-free groups in order from the line's first non-space character, separated only by whitespace |
| DisksJson.SixTokens | disks.json.php:2-13 | a line of six or more tokens yields its first six tokens, and the rest of the line is dropped |
| DisksJson.RecordLayout | disks.json.php:16-22 | an object is `{`, then the six members in key order separated by commas, then `}`; device, use and mount are quoted and the others are bare |
| DisksJson.QuoteEndsString | disks.json.php:16-21 | field text is inserted without escaping, so a double quote in it ends the JSON string early |
| DisksJson.LineRecord | disks.json.php:13-23 | a line gives an object iff it matches and its device is not "Filesystem" |
| DisksJson.HeaderSkipped | disks.json.php:14 | the `df -P` header line gives no object |
| DisksJson.DataLine | disks.json.php:13-23 | a data line of six tokens gives one object holding those tokens |
| DisksJson.RecordsSnoc | disks.json.php:11-24 | one more line of output adds exactly the object that line contributes, after the others |
| DisksJson.RecordsAppend | disks.json.php:11-24 | the objects of concatenated output are the objects of each part, in order |
| DisksJson.BuildRecord | disks.json.php:15-22 | the members appended one by one and joined in braces are the line's object |
| DisksJson.LineObjects | disks.json.php:13-23 | one turn of the loop yields exactly what its line contributes: the line's object, or nothing for a non-matching or header line |
| DisksJson.DisksJson | disks.json.php:11-25 | the printed text is the objects of the qualifying lines, in line order, joined by commas in brackets |
| DisksJson.NoRecordsEmptyArray | disks.json.php:25 | output without a qualifying line prints `[]` |
| Arbiter.Lookup | arbiter.py:180 | `v[key]` on a dictionary gives the value or raises KeyError; on anything else it raises TypeError |
| Arbiter.SchedEnableFor | arbiter.py:197 | "0" iff the state is the string IDLE, "1" for any other state; KeyError without a state, TypeError when the reply is not a dictionary |
| Arbiter.FindSetting | arbiter.py:180 | a found entry is in the list and named as asked |
| Arbiter.FindIn | arbiter.py:180 | only a list of settings can yield an entry |
| Arbiter.GetSchedEnable | arbiter.py:180-181 | the getter answers "0" or "1" |
| Arbiter.FindSettingFirst | arbiter.py:180 | the first entry with the name is the one used; later entries are not looked at |
| Arbiter.FindSettingNone | arbiter.py:180 | without such an entry the generator is exhausted (StopIteration) |
| Arbiter.GetSchedEnableOfSettings | arbiter.py:180-181 | on a well-formed settings list: "1" iff the first sched_enable entry's third element is "true"; IndexError if that entry is shorter than three; StopIteration if there is none |
| Arbiter.GetSchedEnableNeedsList | arbiter.py:180 | a reply without a settings list raises |
| Arbiter.CheckSetReply | arbiter.py:187-188 | the check passes iff the reply exists, is non-empty and starts with 200; otherwise AssertionError |
| Arbiter.CheckActionReply | arbiter.py:185-188 | on `_action`'s (status, body) pair the check passes iff the status is 200 |
| Arbiter.ActionUrlParts | arbiter.py:144 | for a token without '&', the action URL is the base and `?token=`, then the token up to the first '&', then the url-encoded parameters |
| Arbiter.UtorrentUrlText | arbiter.py:199 | the uTorrent base is `http://`host`:`port`/gui/` |
| Arbiter.UtorrentUrlParts | arbiter.py:199 | the host and port read back from the uTorrent URL, which ends in `/gui/` |
| Arbiter.SabnzbdUrlText | arbiter.py:192 | the SABnzbd URL is `http://`host`:`port`/sabnzbd/api?apikey=`key`&mode=qstatus&output=json` |
| Arbiter.SabnzbdUrlHostPort | arbiter.py:192 | the host and port read back from the SABnzbd URL: the host up to the first `:`, the port up to the next `/` |
| Arbiter.SabnzbdUrlKey | arbiter.py:192 | the API key reads back from the SABnzbd URL: it follows `/sabnzbd/api?apikey=` and runs to the first `&`, which starts `&mode=qstatus&output=json` |
| Arbiter.SearchFrom | arbiter.py:138-139 | a match found is at or after the start and is the pattern there |
| Arbiter.SearchLeftmost | arbiter.py:138-139 | a match at any position q from p on means the search from p succeeds, at q or before it, so the match found is the leftmost |
| Arbiter.GetToken | arbiter.py:138-140 | AttributeError iff no position matches; otherwise the token is a non-empty run without '<' or '>' |
| Arbiter.GetTokenOf | arbiter.py:138-140 | a token written in the div tag reads back from the page when no '<' precedes the tag |
| Arbiter.SetRequestUrl | arbiter.py:197-201 | the set request carries the token of the page and the flag for SABnzbd's state |
| Arbiter.IdleDisablesSchedule | arbiter.py:197-201 | an idle SABnzbd yields a request that sets sched_enable to "0" |

## Left out

- Sockets are left out: `connect`'s socket calls, `sendall`, `makefile` and `close`. The reply is a sequence of chunks, and the endpoint is only chosen, not opened.
- Rtrpc.SplitHost follows `urllib.splithost` as in Python 2.7.13 and earlier (`^//([^/?]*)(.*)$`). Later 2.7 releases, with the fix for Python issue 30500, change it: the host also ends at '#', a line feed no longer stops the match, and '/' is put before a path that lacks one. That later form is not modelled.
- `urllib.splitport` is left out. The TCP endpoint is the `host:port` text.
- The `xmlrpclib` internals are left out: `dumps`, the response parser and `_Method` dispatch. The XML request is an opaque string.
- The process-wide `Marshaller.dispatch` patch is left out. `dump_long` is a standalone method.
- The command-line front ends and logging are left out: `CommandLine`, the argparse blocks and `logging.debug` calls in all three Python files.
- `os.path` is modelled as `posixpath`. Windows `ntpath` splitting is left out.
- Python `str.lower` is modelled on ASCII letters only. Unicode case mapping is left out.
- ConfigParser interpolation is left out. Section and option names are taken as already normalised.
- Postprocess.GetNumber: `int()` is modelled on an optional sign and ASCII digits with surrounding whitespace. Other whitespace forms and Unicode digits are left out.
- Filesystem walking and copying are left out: `handle_storage`, `handle_folder`, `handle_media`, `listdir`, `isfile` in `ignore_filter`, `makedirs` and `shutil`.
- `glob` and `isdir` at lines 159-160 are left out. The candidate folders and their free space are inputs to the storage-folder choice.
- The 7-Zip calls are left out: `commandline`, `archive_context`, `archive_test`, `extract_archive`, `extract_and_sandbox`. `archive_filter` depends on them. The context is the map of captured attributes.
- `get_stack`, `set_stack`, `make_parent` and `Context.search` are left out. They depend on regexes from the configuration file.
- `Storage.GetFreeDiskSpaceEx` (ctypes or `statvfs`) is left out. The local free space is a parameter.
- The HTTP fetch and `json.load` in `Storage.Initialize` are left out. The fetched records are a parameter.
- Storage records that lack `mount` or `available` are not modelled. Such records would raise in `__init__` or in the lookup.
- Storage.StorageCache.GetFreeSpace: the bare `except:` is modelled only for the StopIteration the lookup raises. Failures of the fetch itself are outside the model.
- `exec('df -P')` is left out. Its output lines are the input of `DisksJson`.
- PHP's undefined-index notice for a non-matching line is left out. Its only effect is that no object is emitted.
- All HTTP in arbiter.py is left out: openers, cookie and basic-auth handlers, and the replies. Decoded replies and the token page text are parameters.
- `urllib.urlencode` is a function parameter. Its key order for a dictionary is not modelled.
- `urlparse.urljoin(base, 'token.html')` is left out. The token page text is the input.
- JSON numbers in arbiter.py are modelled as integers. A float status such as 200.0 would fail the `is not 200` test, and that case is not modelled.
