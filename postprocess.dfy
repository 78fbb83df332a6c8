/**
  postprocess/postprocess.py: the selection logic of the download
  post-processor. File names are classified by extension (media, meta,
  subtitle, archive), skipped when they hold an ignore word, and the volumes
  of a multi-part archive are recognised and taken out of a file list.
  Settings come from an INI file, a torrent label's section first, then the
  `Default` section. The storage folder is the one with the most free space.

  The configured lists are `None` when the setting is absent; using one of
  them then raises TypeError, which the model carries as an error result.
*/
module Postprocess {
  import opened Results
  import opened PyText
  import opened PosixPath

  /** The exceptions the modelled code can raise. */
  datatype PyError =
    | TypeError      // `x in None`, iterating None
    | ValueError     // int() of a non-number, max() of an empty list, a bad StorageMap
    | StopIteration  // next() of an exhausted generator

  /** The lists Configuration reads with as_array. */
  datatype ExtensionLists = ExtensionLists(
    archive: Option<seq<string>>,
    media: Option<seq<string>>,
    meta: Option<seq<string>>,
    subtitle: Option<seq<string>>,
    ignoreWords: Option<seq<string>>)

  // ---------------------------------------------------------------------------
  // Name predicates

  /** extension_in_list: the `splitext` extension of the lower-cased name, dot
      included, is one of the listed extensions. */
  function ExtensionInList(fullname: string, extList: Option<seq<string>>): (r: Result<bool, PyError>)
    ensures r.Err? <==> extList.None?
    ensures r.Err? ==> r.error == TypeError
    ensures r.Ok? ==> (r.value <==> Ext(Lower(fullname)) in extList.value)
  {
    match extList
    case None => Err(TypeError)
    case Some(exts) => Ok(Ext(Lower(fullname)) in exts)
  }

  /** The test ignores letter case. */
  lemma ExtensionCaseInsensitive(fullname: string, extList: Option<seq<string>>)
    ensures ExtensionInList(Lower(fullname), extList) == ExtensionInList(fullname, extList)
  {
    LowerIdempotent(fullname);
  }

  /** A name passes only through a listed extension it really ends with: a
      dot, then neither dots nor slashes. */
  lemma ExtensionIsSuffix(fullname: string, exts: seq<string>)
    requires "" !in exts
    requires ExtensionInList(fullname, Some(exts)) == Ok(true)
    ensures exists e :: e in exts && IsSuffix(e, Lower(fullname)) && e[0] == '.'
                        && Free(e[1..], '.') && Free(e, '/')
  {
    var n := Lower(fullname);
    var e := Ext(n);
    ExtShape(n);
    assert Splitext(n).0 + e == n;
    assert IsSuffix(e, n);
  }

  /** `any(word in name for word in words)`. */
  function AnyContained(words: seq<string>, name: string): (r: bool)
    ensures r <==> exists k :: 0 <= k < |words| && Contains(name, words[k])
  {
    if words == [] then false
    else if Contains(name, words[0]) then true
    else
      var rest := AnyContained(words[1..], name);
      assert rest <==> exists k :: 1 <= k < |words| && Contains(name, words[k]) by {
        if rest {
          var k :| 0 <= k < |words[1..]| && Contains(name, words[1..][k]);
          assert Contains(name, words[k + 1]);
        }
        if exists k :: 1 <= k < |words| && Contains(name, words[k]) {
          var k :| 1 <= k < |words| && Contains(name, words[k]);
          assert Contains(name, words[1..][k - 1]);
        }
      }
      rest
  }

  /** ignored: some ignore word occurs in the lower-cased base name. */
  function Ignored(fullname: string, ignoreWords: Option<seq<string>>): (r: Result<bool, PyError>)
    ensures r.Err? <==> ignoreWords.None?
    ensures r.Err? ==> r.error == TypeError
    ensures r.Ok? ==> (r.value <==> exists w :: w in ignoreWords.value && Contains(Basename(Lower(fullname)), w))
  {
    match ignoreWords
    case None => Err(TypeError)
    case Some(words) =>
      var r := AnyContained(words, Basename(Lower(fullname)));
      assert r ==> exists w :: w in words && Contains(Basename(Lower(fullname)), w);
      Ok(r)
  }

  /** An empty ignore word (a list setting with a trailing comma) ignores every file. */
  lemma EmptyWordIgnoresAll(fullname: string, words: seq<string>)
    requires "" in words
    ensures Ignored(fullname, Some(words)) == Ok(true)
  {
    var b := Basename(Lower(fullname));
    assert Contains(b, "") by {
      assert IsPrefix("", b);
    }
  }

  /** `ext in chain(lists...)`: the lists are scanned in order and the scan
      stops at the first hit; a None list reached by the scan raises. */
  function ChainContains(x: string, lists: seq<Option<seq<string>>>): (r: Result<bool, PyError>)
    ensures r == Ok(true) <==>
              exists k :: 0 <= k < |lists| && Reaches(x, lists, k) && lists[k].Some? && x in lists[k].value
    ensures r.Err? <==> exists k :: 0 <= k < |lists| && Reaches(x, lists, k) && lists[k].None?
    ensures r.Err? ==> r.error == TypeError
  {
    if lists == [] then Ok(false)
    else
      assert Reaches(x, lists, 0);
      if lists[0].None? then Err(TypeError)
      else if x in lists[0].value then Ok(true)
      else
        var r := ChainContains(x, lists[1..]);
        ReachesShift(x, lists);
        r
  }

  /** The scan reaches list `k`: every earlier list exists and misses `x`. */
  predicate Reaches(x: string, lists: seq<Option<seq<string>>>, k: int) {
    forall j :: 0 <= j < k && j < |lists| ==> lists[j].Some? && x !in lists[j].value
  }

  lemma ReachesShift(x: string, lists: seq<Option<seq<string>>>)
    requires lists != [] && lists[0].Some? && x !in lists[0].value
    ensures forall k :: 1 <= k <= |lists| ==> (Reaches(x, lists, k) <==> Reaches(x, lists[1..], k - 1))
  {
    forall k | 1 <= k <= |lists| ensures Reaches(x, lists, k) <==> Reaches(x, lists[1..], k - 1) {
      if Reaches(x, lists[1..], k - 1) {
        forall j | 0 <= j < k && j < |lists| ensures lists[j].Some? && x !in lists[j].value {
          if j > 0 {
            assert lists[j] == lists[1..][j - 1];
          }
        }
      }
      if Reaches(x, lists, k) {
        forall j | 0 <= j < k - 1 && j < |lists[1..]| ensures lists[1..][j].Some? && x !in lists[1..][j].value {
          assert lists[1..][j] == lists[j + 1];
        }
      }
    }
  }

  /** media_filter: with the media list exactly ['*'], any extension that is
      not a meta, subtitle or archive extension; otherwise a media extension. */
  function MediaFilter(fullname: string, lists: ExtensionLists): (r: Result<bool, PyError>)
    ensures lists.media != Some(["*"]) ==> r == ExtensionInList(fullname, lists.media)
    ensures lists.media == Some(["*"]) && lists.meta.Some? && lists.subtitle.Some? && lists.archive.Some? ==>
              r == Ok(Ext(Lower(fullname)) !in lists.meta.value + lists.subtitle.value + lists.archive.value)
    ensures lists.media == Some(["*"]) && lists.meta.None? ==> r == Err(TypeError)
  {
    if lists.media != Some(["*"]) then ExtensionInList(fullname, lists.media)
    else
      var ext := Ext(Lower(fullname));
      WildcardChain(ext, lists);
      match ChainContains(ext, [lists.meta, lists.subtitle, lists.archive])
      case Err(e) => Err(e)
      case Ok(found) => Ok(!found)
  }

  /** The chain of meta, subtitle and archive lists, read as one list. */
  lemma WildcardChain(ext: string, lists: ExtensionLists)
    ensures var found := ChainContains(ext, [lists.meta, lists.subtitle, lists.archive]);
            (lists.meta.Some? && lists.subtitle.Some? && lists.archive.Some? ==>
               found == Ok(ext in lists.meta.value + lists.subtitle.value + lists.archive.value))
            && (lists.meta.None? ==> found == Err(TypeError))
  {
    var chain := [lists.meta, lists.subtitle, lists.archive];
    var found := ChainContains(ext, chain);
    if lists.meta.Some? && lists.subtitle.Some? && lists.archive.Some? {
      var all := lists.meta.value + lists.subtitle.value + lists.archive.value;
      assert found.Ok? by {
        forall k | 0 <= k < 3 ensures chain[k].Some? { }
      }
      assert |chain| == 3 && chain[0] == lists.meta && chain[1] == lists.subtitle && chain[2] == lists.archive;
      if ext in all {
        if ext in lists.meta.value {
          assert Reaches(ext, chain, 0);
        } else if ext in lists.subtitle.value {
          assert Reaches(ext, chain, 1);
        } else {
          assert ext in lists.archive.value;
          assert Reaches(ext, chain, 2);
        }
        assert found == Ok(true);
      } else {
        assert found != Ok(true) by {
          forall k | 0 <= k < 3 && chain[k].Some? ensures ext !in chain[k].value { }
        }
        assert found.Ok? && !found.value;
      }
    }
    if lists.meta.None? {
      assert Reaches(ext, chain, 0);
    }
  }

  /** meta_filter: a meta extension. */
  function MetaFilter(fullname: string, lists: ExtensionLists): (r: Result<bool, PyError>)
    ensures r.Ok? <==> lists.meta.Some?
    ensures r.Ok? ==> (r.value <==> Ext(Lower(fullname)) in lists.meta.value)
  {
    ExtensionInList(fullname, lists.meta)
  }

  /** subtitle_filter: a subtitle extension. */
  function SubtitleFilter(fullname: string, lists: ExtensionLists): (r: Result<bool, PyError>)
    ensures r.Ok? <==> lists.subtitle.Some?
    ensures r.Ok? ==> (r.value <==> Ext(Lower(fullname)) in lists.subtitle.value)
  {
    ExtensionInList(fullname, lists.subtitle)
  }

  // ---------------------------------------------------------------------------
  // Multi-part archive filesets

  /** `s[-1:].isdigit()`: the last character exists and is a digit. */
  predicate EndsInDigit(s: string) {
    |s| > 0 && IsDigit(s[|s| - 1])
  }

  /** fileset_filter: `fullname` belongs to the fileset of `archive` when it is
      the archive itself, when the stems of the base names agree and its
      extension ends in a digit (`movie.r00`), or when the extensions agree
      and its stem ends in a digit (`movie.part2.rar`). */
  predicate FilesetFilter(archive: string, fullname: string) {
    var a := Splitext(Basename(archive));
    var f := Splitext(Basename(fullname));
    archive == fullname || (a.0 == f.0 && EndsInDigit(f.1)) || (a.1 == f.1 && EndsInDigit(f.0))
  }

  /** The base name of `dir/name` is `name`. */
  lemma BasenameOfJoin(dir: string, name: string)
    requires Free(name, '/')
    ensures Basename(dir + "/" + name) == name
  {
    var p := dir + "/" + name;
    assert p[|dir|] == '/';
    assert p[|dir| + 1..] == name;
  }

  /** fileset_filter on `dir1/a` and `dir2/f`: the directories matter only
      through the first test. */
  lemma FilesetOfJoins(dir1: string, a: string, dir2: string, f: string)
    requires Free(a, '/') && Free(f, '/')
    ensures FilesetFilter(dir1 + "/" + a, dir2 + "/" + f) <==>
              dir1 + "/" + a == dir2 + "/" + f
              || (Root(a) == Root(f) && EndsInDigit(Ext(f)))
              || (Ext(a) == Ext(f) && EndsInDigit(Root(f)))
  {
    BasenameOfJoin(dir1, a);
    BasenameOfJoin(dir2, f);
  }

  /** Only the first test looks at directories: any other member of a
      fileset is recognised in every directory. */
  lemma FilesetIgnoresDirectories(archive: string, dir1: string, dir2: string, name: string)
    requires Free(name, '/')
    requires archive != dir1 + "/" + name && archive != dir2 + "/" + name
    ensures FilesetFilter(archive, dir1 + "/" + name) == FilesetFilter(archive, dir2 + "/" + name)
  {
    BasenameOfJoin(dir1, name);
    BasenameOfJoin(dir2, name);
  }

  /** `splitext(stem + "." + ext)` for a stem not starting with a dot and an
      extension with no dot: the split falls at that dot. */
  lemma SplitextOf(stem: string, ext: string)
    requires Free(stem, '/') && stem != "" && stem[0] != '.'
    requires Free(ext, '/') && Free(ext, '.')
    ensures Free(stem + "." + ext, '/')
    ensures Root(stem + "." + ext) == stem && Ext(stem + "." + ext) == "." + ext
  {
    var p := stem + "." + ext;
    var dot := |stem|;
    assert p[dot] == '.';
    assert p[dot + 1..] == ext;
    var s := RFind(p, '/');
    assert p[s + 1..dot][0] == stem[0];
    assert p[..dot] == stem && p[dot..] == "." + ext;
  }

  /** The volumes of an old-style set: `stem.r07` next to `stem.rar`, in any
      directory, for any extension ending in a digit (and for any archive
      extension, not only `rar`). */
  lemma FilesetSameStem(dir1: string, dir2: string, stem: string, archiveExt: string, ext: string)
    requires Free(stem, '/') && stem != "" && stem[0] != '.'
    requires Free(archiveExt, '/') && Free(archiveExt, '.')
    requires Free(ext, '/') && Free(ext, '.') && EndsInDigit(ext)
    ensures FilesetFilter(dir1 + "/" + stem + "." + archiveExt, dir2 + "/" + stem + "." + ext)
  {
    SplitextOf(stem, archiveExt);
    SplitextOf(stem, ext);
    assert dir1 + "/" + stem + "." + archiveExt == dir1 + "/" + (stem + "." + archiveExt);
    assert dir2 + "/" + stem + "." + ext == dir2 + "/" + (stem + "." + ext);
    assert ("." + ext)[|ext|] == ext[|ext| - 1];
    FilesetOfJoins(dir1, stem + "." + archiveExt, dir2, stem + "." + ext);
  }

  /** The overreach the source's own comment warns about: any file whose stem
      ends in a digit and whose extension is the archive's, in any directory
      and of any name (`other.part2.rar` next to `show.part1.rar`), is taken
      for a member of the fileset. */
  lemma FilesetSameExtension(dir1: string, archiveStem: string, dir2: string, stem: string, ext: string)
    requires Free(archiveStem, '/') && archiveStem != "" && archiveStem[0] != '.'
    requires Free(stem, '/') && stem != "" && stem[0] != '.' && EndsInDigit(stem)
    requires Free(ext, '/') && Free(ext, '.')
    ensures FilesetFilter(dir1 + "/" + archiveStem + "." + ext, dir2 + "/" + stem + "." + ext)
  {
    SplitextOf(archiveStem, ext);
    SplitextOf(stem, ext);
    assert dir1 + "/" + archiveStem + "." + ext == dir1 + "/" + (archiveStem + "." + ext);
    assert dir2 + "/" + stem + "." + ext == dir2 + "/" + (stem + "." + ext);
    FilesetOfJoins(dir1, archiveStem + "." + ext, dir2, stem + "." + ext);
  }

  /** Context.getNumber: `int()` of the attribute the search set, or of the
      default when it is absent; None where int() raises ValueError. */
  function GetNumber(attributes: map<string, string>, attribute: string, default: string): (r: Option<int>)
    ensures attribute !in attributes ==> r == PyInt(default)
    ensures attribute in attributes ==> r == PyInt(attributes[attribute])
  {
    PyInt(if attribute in attributes then attributes[attribute] else default)
  }

  /** A count a pattern captured as decimal digits reads back as that count;
      an absent one reads as the default "0". */
  lemma GetNumberValues(attributes: map<string, string>, attribute: string, n: nat)
    ensures attribute !in attributes ==> GetNumber(attributes, attribute, "0") == Some(0)
    ensures attributes == map[attribute := NatToDecimal(n)] ==> GetNumber(attributes, attribute, "0") == Some(n)
  {
    PyIntRoundTrip(0);
    assert IntToDecimal(0) == "0";
    PyIntRoundTrip(n);
  }

  /** archive_fileset_filter: with more than one volume, the file list without
      the fileset members; otherwise without the entries equal to the archive. */
  function ArchiveFilesetFilter(context: map<string, string>, fileList: seq<string>, archive: string)
    : (r: Result<seq<string>, PyError>)
    ensures r.Err? <==> GetNumber(context, "volumes", "0").None?
    ensures r.Err? ==> r.error == ValueError
    ensures r.Ok? && GetNumber(context, "volumes", "0").value > 1 ==>
              r.value == Filter(fileList, f => !FilesetFilter(archive, f))
    ensures r.Ok? && GetNumber(context, "volumes", "0").value <= 1 ==>
              r.value == Filter(fileList, f => f != archive)
  {
    match GetNumber(context, "volumes", "0")
    case None => Err(ValueError)
    case Some(volumes) =>
      if volumes > 1 then Ok(Filter(fileList, f => !FilesetFilter(archive, f)))
      else Ok(Filter(fileList, f => f != archive))
  }

  /** The result keeps the order of the list, removes every fileset member
      (every copy of the archive when there is one volume or none) and keeps
      every copy of every other entry. */
  lemma ArchiveFilesetRemovesExactly(context: map<string, string>, fileList: seq<string>, archive: string)
    requires ArchiveFilesetFilter(context, fileList, archive).Ok?
    ensures var kept := ArchiveFilesetFilter(context, fileList, archive).value;
            Subsequence(kept, fileList)
            && archive !in kept
            && forall f :: multiset(kept)[f] ==
                 if f == archive || (GetNumber(context, "volumes", "0").value > 1 && FilesetFilter(archive, f))
                 then 0 else multiset(fileList)[f]
  {
    if GetNumber(context, "volumes", "0").value > 1 {
      FilterSubsequence(fileList, f => !FilesetFilter(archive, f));
      FilterMultiset(fileList, f => !FilesetFilter(archive, f));
    } else {
      FilterSubsequence(fileList, f => f != archive);
      FilterMultiset(fileList, f => f != archive);
    }
  }

  /** With no volume count captured, only the archive itself is removed. */
  lemma NoVolumesRemovesOnlyArchive(context: map<string, string>, fileList: seq<string>, archive: string)
    requires "volumes" !in context
    ensures ArchiveFilesetFilter(context, fileList, archive) == Ok(Filter(fileList, f => f != archive))
  {
    GetNumberValues(context, "volumes", 0);
  }

  // ---------------------------------------------------------------------------
  // Configuration

  /** An INI file as SafeConfigParser holds it: the named sections and the
      [DEFAULT] section, option names lower-cased. */
  datatype Ini = Ini(sections: map<string, map<string, string>>, defaults: map<string, string>)

  /** has_option: [DEFAULT] options are seen through every existing section. */
  predicate HasOption(ini: Ini, section: string, name: string) {
    var option := Lower(name);
    if section == "" || section == "DEFAULT" then option in ini.defaults
    else section in ini.sections && (option in ini.sections[section] || option in ini.defaults)
  }

  /** get: the section's own value, else the [DEFAULT] one (interpolation left out). */
  function IniGet(ini: Ini, section: string, name: string): string
    requires section in ini.sections && HasOption(ini, section, name)
    requires section != "" && section != "DEFAULT"
  {
    var option := Lower(name);
    if option in ini.sections[section] then ini.sections[section][option] else ini.defaults[option]
  }

  /** _get_property: the label's section, then the `Default` section, then the default. */
  function GetProperty(ini: Ini, torrentLabel: string, name: string, default: Option<string>): Option<string> {
    if torrentLabel in ini.sections && torrentLabel != "" && torrentLabel != "DEFAULT" && HasOption(ini, torrentLabel, name) then
      Some(IniGet(ini, torrentLabel, name))
    else if "Default" in ini.sections && HasOption(ini, "Default", name) then
      Some(IniGet(ini, "Default", name))
    else default
  }

  /** Precedence, for a parser that keeps [DEFAULT] out of the named sections:
      the label's section wins, then [DEFAULT] through that section, then the
      `Default` section, then [DEFAULT] through it, then the caller's default.
      [DEFAULT] alone, with neither section present, is never consulted. */
  lemma GetPropertyPrecedence(ini: Ini, torrentLabel: string, name: string, default: Option<string>)
    requires "" !in ini.sections && "DEFAULT" !in ini.sections
    ensures var o := Lower(name);
            var r := GetProperty(ini, torrentLabel, name, default);
            (torrentLabel in ini.sections && o in ini.sections[torrentLabel] ==> r == Some(ini.sections[torrentLabel][o]))
            && (torrentLabel in ini.sections && o !in ini.sections[torrentLabel] && o in ini.defaults ==> r == Some(ini.defaults[o]))
            && (((torrentLabel !in ini.sections || (o !in ini.sections[torrentLabel] && o !in ini.defaults))
                 && "Default" in ini.sections && o in ini.sections["Default"]) ==>
                  r == Some(ini.sections["Default"][o]))
            && ((torrentLabel !in ini.sections && "Default" in ini.sections && o !in ini.sections["Default"]
                 && o in ini.defaults) ==> r == Some(ini.defaults[o]))
            && (torrentLabel !in ini.sections && "Default" !in ini.sections ==> r == default)
            && ((o !in ini.defaults && (torrentLabel !in ini.sections || o !in ini.sections[torrentLabel])
                 && ("Default" !in ini.sections || o !in ini.sections["Default"])) ==> r == default)
  {
  }

  /** One item of a list setting: lower-cased, then stripped. */
  function Item(part: string): string {
    Strip(Lower(part))
  }

  /** as_array: None for an absent or empty value, otherwise the comma
      separated items, each lower-cased and stripped. */
  function AsArray(value: Option<string>): (r: Option<seq<string>>)
    ensures r.None? <==> value.None? || value.value == ""
    ensures r.Some? ==> |r.value| == |Split(value.value, ',')| == Count(value.value, ',') + 1
    ensures r.Some? ==> forall k :: 0 <= k < |r.value| ==> r.value[k] == Item(Split(value.value, ',')[k])
  {
    if value.None? || value.value == "" then None
    else
      var parts := Split(value.value, ',');
      SplitCount(value.value, ',');
      Some(seq(|parts|, k requires 0 <= k < |parts| => Item(parts[k])))
  }

  /** An item as as_array leaves it: lower case, no surrounding whitespace. */
  predicate Normalised(item: string) {
    Item(item) == item
  }

  /** Writing normalised comma-free items joined by commas and reading the
      setting back gives the items. */
  lemma AsArrayRoundTrip(value: string, items: seq<string>)
    requires |items| >= 1 && value == Join(items, ',') && value != ""
    requires forall k :: 0 <= k < |items| ==> Normalised(items[k]) && Free(items[k], ',')
    ensures AsArray(Some(value)) == Some(items)
  {
    SplitJoin(items, ',');
    AsArrayOfParts(value, items);
  }

  lemma AsArrayOfParts(value: string, items: seq<string>)
    requires value != "" && Split(value, ',') == items
    requires forall k :: 0 <= k < |items| ==> Normalised(items[k])
    ensures AsArray(Some(value)) == Some(items)
  {
    var r := AsArray(Some(value)).value;
    assert |r| == |items|;
    forall k | 0 <= k < |items| ensures r[k] == items[k] {
      assert Normalised(items[k]);
    }
    assert r == items;
  }

  /** A trailing comma yields an empty last item. */
  lemma AsArrayTrailingComma(value: string)
    requires Free(value, ',')
    ensures AsArray(Some(value + ",")) == Some([Item(value), ""])
  {
    SplitPrefix(value, "", ',');
    assert value + [','] + "" == value + ",";
    var r := AsArray(Some(value + ","));
    assert Split(value + ",", ',') == [value, ""];
    assert |r.value| == 2;
    assert r.value[0] == Item(value);
    assert r.value[1] == Item("");
    assert Item("") == "";
    assert r.value == [r.value[0], r.value[1]];
  }

  const TrueSpellings: seq<string> := ["Yes", "yes", "True", "true", "Y", "y", "T", "t", "1"]

  /** as_boolean: true exactly for the nine listed spellings. */
  function AsBoolean(value: Option<string>): (r: bool)
    ensures r <==> value.Some? && value.value in TrueSpellings
  {
    value.Some? && value.value in TrueSpellings
  }

  /** Unlike as_array, as_boolean neither strips nor lower-cases: a true
      setting has no whitespace at either end and no upper-case letter
      after its first character, so " yes", "yes " and "TRUE" read as false. */
  lemma AsBooleanExact(value: string)
    ensures AsBoolean(Some(value)) ==>
              value != [] && !IsSpace(value[0]) && !IsSpace(value[|value| - 1])
              && forall k :: 1 <= k < |value| ==> LowerChar(value[k]) == value[k]
    ensures !AsBoolean(Some(" yes")) && !AsBoolean(Some("yes ")) && !AsBoolean(Some("TRUE"))
  {
  }

  /** The lists Configuration.__init__ reads for a label. */
  function ReadLists(ini: Ini, torrentLabel: string): (r: ExtensionLists)
    ensures r.archive == AsArray(GetProperty(ini, torrentLabel, "ArchiveExtensions", None))
    ensures r.media == AsArray(GetProperty(ini, torrentLabel, "MediaExtensions", None))
    ensures r.meta == AsArray(GetProperty(ini, torrentLabel, "MetaExtensions", None))
    ensures r.subtitle == AsArray(GetProperty(ini, torrentLabel, "SubtitleExtensions", None))
    ensures r.ignoreWords == AsArray(GetProperty(ini, torrentLabel, "IgnoreWords", None))
  {
    ExtensionLists(
      AsArray(GetProperty(ini, torrentLabel, "ArchiveExtensions", None)),
      AsArray(GetProperty(ini, torrentLabel, "MediaExtensions", None)),
      AsArray(GetProperty(ini, torrentLabel, "MetaExtensions", None)),
      AsArray(GetProperty(ini, torrentLabel, "SubtitleExtensions", None)),
      AsArray(GetProperty(ini, torrentLabel, "IgnoreWords", None)))
  }

  /** The lists follow the precedence of _get_property, each read through
      as_array: the label's own section first, else the `Default` section. */
  lemma ReadListsPrecedence(ini: Ini, torrentLabel: string)
    requires "" !in ini.sections && "DEFAULT" !in ini.sections
    ensures var r := ReadLists(ini, torrentLabel);
            var o := Lower("MediaExtensions");
            (torrentLabel in ini.sections && o in ini.sections[torrentLabel] ==>
               r.media == AsArray(Some(ini.sections[torrentLabel][o])))
            && (torrentLabel !in ini.sections && "Default" in ini.sections && o in ini.sections["Default"] ==>
               r.media == AsArray(Some(ini.sections["Default"][o])))
            && (torrentLabel !in ini.sections && "Default" !in ini.sections ==> r.media.None?)
    ensures var r := ReadLists(ini, torrentLabel);
            var o := Lower("ArchiveExtensions");
            (torrentLabel in ini.sections && o in ini.sections[torrentLabel] ==>
               r.archive == AsArray(Some(ini.sections[torrentLabel][o])))
            && (torrentLabel !in ini.sections && "Default" in ini.sections && o in ini.sections["Default"] ==>
               r.archive == AsArray(Some(ini.sections["Default"][o])))
            && (torrentLabel !in ini.sections && "Default" !in ini.sections ==> r.archive.None?)
    ensures var r := ReadLists(ini, torrentLabel);
            var o := Lower("MetaExtensions");
            (torrentLabel in ini.sections && o in ini.sections[torrentLabel] ==>
               r.meta == AsArray(Some(ini.sections[torrentLabel][o])))
            && (torrentLabel !in ini.sections && "Default" in ini.sections && o in ini.sections["Default"] ==>
               r.meta == AsArray(Some(ini.sections["Default"][o])))
            && (torrentLabel !in ini.sections && "Default" !in ini.sections ==> r.meta.None?)
    ensures var r := ReadLists(ini, torrentLabel);
            var o := Lower("SubtitleExtensions");
            (torrentLabel in ini.sections && o in ini.sections[torrentLabel] ==>
               r.subtitle == AsArray(Some(ini.sections[torrentLabel][o])))
            && (torrentLabel !in ini.sections && "Default" in ini.sections && o in ini.sections["Default"] ==>
               r.subtitle == AsArray(Some(ini.sections["Default"][o])))
            && (torrentLabel !in ini.sections && "Default" !in ini.sections ==> r.subtitle.None?)
    ensures var r := ReadLists(ini, torrentLabel);
            var o := Lower("IgnoreWords");
            (torrentLabel in ini.sections && o in ini.sections[torrentLabel] ==>
               r.ignoreWords == AsArray(Some(ini.sections[torrentLabel][o])))
            && (torrentLabel !in ini.sections && "Default" in ini.sections && o in ini.sections["Default"] ==>
               r.ignoreWords == AsArray(Some(ini.sections["Default"][o])))
            && (torrentLabel !in ini.sections && "Default" !in ini.sections ==> r.ignoreWords.None?)
  {
    GetPropertyPrecedence(ini, torrentLabel, "MediaExtensions", None);
    GetPropertyPrecedence(ini, torrentLabel, "ArchiveExtensions", None);
    GetPropertyPrecedence(ini, torrentLabel, "MetaExtensions", None);
    GetPropertyPrecedence(ini, torrentLabel, "SubtitleExtensions", None);
    GetPropertyPrecedence(ini, torrentLabel, "IgnoreWords", None);
  }

  /** The StorageMap setting: exactly two space-separated paths, remote then local. */
  function ParseStorageMap(property: string): (r: Result<(string, string), PyError>)
    ensures r.Err? <==> Count(property, ' ') != 1
    ensures r.Err? ==> r.error == ValueError
    ensures r.Ok? ==> r.value.0 + " " + r.value.1 == property && Free(r.value.0, ' ') && Free(r.value.1, ' ')
  {
    var parts := Split(property, ' ');
    SplitCount(property, ' ');
    if |parts| != 2 then Err(ValueError)
    else
      JoinSplit(property, ' ');
      SplitPartsFree(property, ' ');
      assert parts[1..] == [parts[1]];
      assert Join(parts, ' ') == parts[0] + [' '] + parts[1];
      Ok((parts[0], parts[1]))
  }

  /** Two space-free paths read back from their StorageMap setting. */
  lemma StorageMapRoundTrip(remote: string, local: string)
    requires Free(remote, ' ') && Free(local, ' ')
    ensures ParseStorageMap(remote + " " + local) == Ok((remote, local))
  {
    SplitJoin([remote, local], ' ');
    assert [remote, local][1..] == [local];
    assert Join([remote, local], ' ') == remote + " " + local;
  }

  // ---------------------------------------------------------------------------
  // Choosing the storage folder

  /** Python 2's ordering of the free-space values: None below every number. */
  predicate SpaceLe(a: Option<int>, b: Option<int>) {
    a.None? || (b.Some? && a.value <= b.value)
  }

  /** `max(space_list)`. */
  function MaxSpace(spaces: seq<Option<int>>): (m: Option<int>)
    requires |spaces| > 0
    ensures m in spaces
    ensures forall k :: 0 <= k < |spaces| ==> SpaceLe(spaces[k], m)
  {
    if |spaces| == 1 then spaces[0]
    else
      var m := MaxSpace(spaces[1..]);
      assert forall k :: 1 <= k < |spaces| ==> spaces[k] == spaces[1..][k - 1];
      if SpaceLe(m, spaces[0]) then spaces[0] else m
  }

  /** `space_list.index(x)`: the first position holding `x`. */
  function IndexOf(xs: seq<Option<int>>, x: Option<int>): (i: nat)
    requires x in xs
    ensures i < |xs| && xs[i] == x && x !in xs[..i]
  {
    if xs[0] == x then 0
    else
      var i := 1 + IndexOf(xs[1..], x);
      assert xs[..i] == [xs[0]] + xs[1..][..i - 1];
      i
  }

  /** The storage folder: the first of the candidate folders whose free space
      is the largest; ValueError when there are none. */
  function ChooseStorageFolder(paths: seq<string>, spaces: seq<Option<int>>): (r: Result<string, PyError>)
    requires |spaces| == |paths|
    ensures r.Err? <==> paths == []
    ensures r.Err? ==> r.error == ValueError
    ensures r.Ok? ==> exists i :: 0 <= i < |paths| && r.value == paths[i]
                        && (forall k :: 0 <= k < |spaces| ==> SpaceLe(spaces[k], spaces[i]))
                        && (forall k :: 0 <= k < i ==> spaces[k] != spaces[i])
  {
    if spaces == [] then Err(ValueError)
    else
      var largest := MaxSpace(spaces);
      var i := IndexOf(spaces, largest);
      assert forall k :: 0 <= k < i ==> spaces[k] == spaces[..i][k];
      Ok(paths[i])
  }
}
