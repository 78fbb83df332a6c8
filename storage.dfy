/**
  The Storage class of postprocess/postprocess.py: the disk records a file
  server reports (see DisksJson) mapped to local UNC paths, kept sorted by
  mount-point length, longest first, in a class-level cache filled on first
  use, and the free-space lookup for a path by the first record whose UNC
  path is a prefix of it.
*/
module Storage {
  import opened Results
  import opened PyText
  import opened Postprocess

  /** The keys of a reported disk record the post-processor reads. */
  datatype DiskRecord = DiskRecord(mount: string, available: int)

  /** A Storage object: the record and its mount point as a local UNC path. */
  datatype StorageObject = StorageObject(mount: string, available: int, unc: string)

  /** Storage.__init__: every occurrence of the remote prefix in the mount
      point is replaced by the local one. */
  function NewStorage(record: DiskRecord, storageMap: (string, string)): (s: StorageObject)
    ensures s.mount == record.mount && s.available == record.available
  {
    StorageObject(record.mount, record.available, Replace(record.mount, storageMap.0, storageMap.1))
  }

  /** A mount point under the remote prefix is re-rooted under the local one. */
  lemma UncOfMount(record: DiskRecord, remote: string, local: string, rest: string)
    requires remote != [] && record.mount == remote + rest && !Contains(rest, remote)
    ensures NewStorage(record, (remote, local)).unc == local + rest
  {
    ReplaceRoot(remote, rest, local);
  }

  /** A mount point without the remote prefix in it keeps its text. */
  lemma UncOutsideMap(record: DiskRecord, remote: string, local: string)
    requires remote != [] && !Contains(record.mount, remote)
    ensures NewStorage(record, (remote, local)).unc == record.mount
  {
    ReplaceAbsent(record.mount, remote, local);
  }

  /** `map(lambda jd: Storage(jd, storage_map), json_data)`. */
  function NewStorages(records: seq<DiskRecord>, storageMap: (string, string)): (r: seq<StorageObject>)
    ensures |r| == |records|
    ensures forall k :: 0 <= k < |r| ==> r[k] == NewStorage(records[k], storageMap)
  {
    seq(|records|, k requires 0 <= k < |records| => NewStorage(records[k], storageMap))
  }

  // ---------------------------------------------------------------------------
  // sorted(..., cmp = lambda a, b: len(b.mount) - len(a.mount))

  predicate SortedByMount(xs: seq<StorageObject>) {
    forall i, j :: 0 <= i < j < |xs| ==> |xs[i].mount| >= |xs[j].mount|
  }

  /** The records whose mount point has length `n`. */
  function HasMountLength(n: nat): StorageObject -> bool {
    (s: StorageObject) => |s.mount| == n
  }

  /** Places `x`, which came before every element of `xs`, ahead of the
      first element whose mount point is no longer than its own. */
  function Insert(x: StorageObject, xs: seq<StorageObject>): (r: seq<StorageObject>)
    requires SortedByMount(xs)
    ensures SortedByMount(r)
    ensures multiset(r) == multiset(xs) + multiset{x}
    ensures r[0] == x || (xs != [] && r[0] == xs[0])
  {
    if xs == [] then [x]
    else if |xs[0].mount| <= |x.mount| then
      SortedCons(x, xs);
      [x] + xs
    else
      var rest := Insert(x, xs[1..]);
      assert rest[0] == x || rest[0] == xs[1];
      SortedCons(xs[0], rest);
      ConsMultiset(xs, rest, x);
      [xs[0]] + rest
  }

  /** Putting the head back in front of the tail with `x` inserted gives the
      list with `x` added. */
  lemma ConsMultiset(xs: seq<StorageObject>, rest: seq<StorageObject>, x: StorageObject)
    requires xs != [] && multiset(rest) == multiset(xs[1..]) + multiset{x}
    ensures multiset([xs[0]] + rest) == multiset(xs) + multiset{x}
  {
    assert xs == [xs[0]] + xs[1..];
  }

  /** A list stays sorted when an element at least as long as its head goes in front. */
  lemma SortedCons(y: StorageObject, rest: seq<StorageObject>)
    requires SortedByMount(rest)
    requires rest != [] ==> |rest[0].mount| <= |y.mount|
    ensures SortedByMount([y] + rest)
  {
    var r := [y] + rest;
    forall i, j | 0 <= i < j < |r|
      ensures |r[i].mount| >= |r[j].mount|
    {
      if i == 0 {
        assert r[j] == rest[j - 1];
        assert |rest[0].mount| >= |rest[j - 1].mount|;
      } else {
        assert r[i] == rest[i - 1] && r[j] == rest[j - 1];
      }
    }
  }

  /** Python's `sorted` with that comparison: a stable sort, longest mount first. */
  function SortByMount(xs: seq<StorageObject>): (r: seq<StorageObject>)
    ensures SortedByMount(r)
    ensures multiset(r) == multiset(xs)
  {
    if xs == [] then []
    else
      assert xs == [xs[0]] + xs[1..];
      Insert(xs[0], SortByMount(xs[1..]))
  }

  /** Two adjacent elements of different lengths can swap without changing
      any one-length filter. */
  lemma SwapFilter(a: StorageObject, b: StorageObject, rest: seq<StorageObject>, n: nat)
    requires |a.mount| != |b.mount|
    ensures Filter([a, b] + rest, HasMountLength(n)) == Filter([b, a] + rest, HasMountLength(n))
  {
    FilterAppend([a, b], rest, HasMountLength(n));
    FilterAppend([b, a], rest, HasMountLength(n));
    FilterAppend([a], [b], HasMountLength(n));
    FilterAppend([b], [a], HasMountLength(n));
    assert [a] + [b] == [a, b] && [b] + [a] == [b, a];
  }

  /** One step of the insertion: the head of `xs`, longer than `x`, stays
      ahead of it. */
  lemma StableStep(x: StorageObject, xs: seq<StorageObject>, inserted: seq<StorageObject>,
                   whole: seq<StorageObject>, n: nat)
    requires xs != [] && |xs[0].mount| != |x.mount| && whole == [xs[0]] + inserted
    requires Filter(inserted, HasMountLength(n)) == Filter([x] + xs[1..], HasMountLength(n))
    ensures Filter(whole, HasMountLength(n)) == Filter([x] + xs, HasMountLength(n))
  {
    PassStep(x, xs[0], xs[1..], inserted, n);
    assert [x, xs[0]] + xs[1..] == [x] + xs;
  }

  /** `y`, of a length other than x's, can go ahead of `x` in front of any
      list with x's filter. */
  lemma PassStep(x: StorageObject, y: StorageObject, tail: seq<StorageObject>, inserted: seq<StorageObject>, n: nat)
    requires |y.mount| != |x.mount|
    requires Filter(inserted, HasMountLength(n)) == Filter([x] + tail, HasMountLength(n))
    ensures Filter([y] + inserted, HasMountLength(n)) == Filter([x, y] + tail, HasMountLength(n))
  {
    var keep := HasMountLength(n);
    FilterAppend([y], inserted, keep);
    FilterAppend([y], [x] + tail, keep);
    assert [y] + ([x] + tail) == [y, x] + tail;
    SwapFilter(y, x, tail, n);
  }

  /** Inserting keeps `x` ahead of every element of the same length. */
  lemma {:induction false} InsertStable(x: StorageObject, xs: seq<StorageObject>, n: nat)
    requires SortedByMount(xs)
    ensures Filter(Insert(x, xs), HasMountLength(n)) == Filter([x] + xs, HasMountLength(n))
  {
    if xs != [] && |xs[0].mount| > |x.mount| {
      InsertStable(x, xs[1..], n);
      InsertPasses(x, xs);
      StableStep(x, xs, Insert(x, xs[1..]), Insert(x, xs), n);
    } else {
      InsertStops(x, xs);
    }
  }

  /** Insertion passes over a longer head. */
  lemma InsertPasses(x: StorageObject, xs: seq<StorageObject>)
    requires SortedByMount(xs) && xs != [] && |xs[0].mount| > |x.mount|
    ensures Insert(x, xs) == [xs[0]] + Insert(x, xs[1..])
  {
  }

  /** Insertion stops in front of a head no longer than `x`, or at the end. */
  lemma InsertStops(x: StorageObject, xs: seq<StorageObject>)
    requires SortedByMount(xs) && (xs == [] || |xs[0].mount| <= |x.mount|)
    ensures Insert(x, xs) == [x] + xs
  {
  }

  /** The sort is stable: the records of each mount length keep their order. */
  lemma {:induction false} SortStable(xs: seq<StorageObject>, n: nat)
    ensures Filter(SortByMount(xs), HasMountLength(n)) == Filter(xs, HasMountLength(n))
  {
    if xs != [] {
      var keep := HasMountLength(n);
      SortStable(xs[1..], n);
      InsertStable(xs[0], SortByMount(xs[1..]), n);
      FilterAppend([xs[0]], SortByMount(xs[1..]), keep);
      FilterAppend([xs[0]], xs[1..], keep);
      assert [xs[0]] + xs[1..] == xs;
    }
  }

  // ---------------------------------------------------------------------------
  // The lookup (GetFreeStorageSpace)

  /** Position of the first record whose UNC path is a prefix of `path`, or |list|. */
  function FirstMatch(list: seq<StorageObject>, path: string): (i: nat)
    ensures i <= |list|
    ensures i < |list| ==> IsPrefix(list[i].unc, path)
    ensures forall j :: 0 <= j < i ==> !IsPrefix(list[j].unc, path)
  {
    if list == [] then 0
    else if IsPrefix(list[0].unc, path) then 0
    else
      var i := 1 + FirstMatch(list[1..], path);
      assert forall j :: 1 <= j < i ==> list[j] == list[1..][j - 1];
      i
  }

  /** `next(so for so in list if path.startswith(so.unc)).available`;
      StopIteration when no record matches. */
  function FreeSpaceOf(list: seq<StorageObject>, path: string): (r: Result<int, PyError>)
    ensures r.Err? <==> forall k :: 0 <= k < |list| ==> !IsPrefix(list[k].unc, path)
    ensures r.Err? ==> r.error == StopIteration
    ensures r.Ok? ==> exists k :: 0 <= k < |list| && IsPrefix(list[k].unc, path) && r.value == list[k].available
                          && forall j :: 0 <= j < k ==> !IsPrefix(list[j].unc, path)
    ensures r.Ok? ==> FirstMatch(list, path) < |list| && r.value == list[FirstMatch(list, path)].available
  {
    var i := FirstMatch(list, path);
    if i == |list| then Err(StopIteration) else Ok(list[i].available)
  }

  /** On a list sorted by mount length, the matching record with the longest
      mount point wins. */
  lemma LongestMountWins(list: seq<StorageObject>, path: string)
    requires SortedByMount(list)
    requires FirstMatch(list, path) < |list|
    ensures forall j :: 0 <= j < |list| && IsPrefix(list[j].unc, path) ==>
              |list[j].mount| <= |list[FirstMatch(list, path)].mount|
  {
  }

  // ---------------------------------------------------------------------------
  // The class-level cache (Initialize) and GetFreeSpace

  /** Storage._storage_list: empty until a fetch yields records. */
  class StorageCache {
    var storageList: seq<StorageObject>

    constructor ()
      ensures storageList == []
    {
      storageList := [];
    }

    /** Storage.Initialize: `fetched` is what the service would return. It is
        used, mapped and sorted, only while the cache is empty; otherwise
        the cached list is returned unchanged. */
    method Initialize(fetched: seq<DiskRecord>, storageMap: (string, string))
        returns (r: seq<StorageObject>, fetchedUsed: bool)
      modifies this
      ensures fetchedUsed <==> old(storageList) == []
      ensures storageList == if fetchedUsed then SortByMount(NewStorages(fetched, storageMap)) else old(storageList)
      ensures r == storageList
    {
      if storageList == [] {
        storageList := SortByMount(NewStorages(fetched, storageMap));
        fetchedUsed := true;
      } else {
        fetchedUsed := false;
      }
      r := storageList;
    }

    /** Storage.GetFreeStorageSpace. */
    method GetFreeStorageSpace(fetched: seq<DiskRecord>, storageMap: (string, string), path: string)
        returns (r: Result<int, PyError>, fetchedUsed: bool)
      modifies this
      ensures fetchedUsed <==> old(storageList) == []
      ensures storageList == if fetchedUsed then SortByMount(NewStorages(fetched, storageMap)) else old(storageList)
      ensures r == FreeSpaceOf(storageList, path)
    {
      var list;
      list, fetchedUsed := Initialize(fetched, storageMap);
      r := FreeSpaceOf(list, path);
    }

    /** Storage.GetFreeSpace: the local free space (`localFree`, what
        GetFreeDiskSpaceEx reports) without a storage service; otherwise the
        service's figure, and None where the lookup raises. */
    method GetFreeSpace(storageService: Option<string>, storageMap: (string, string), path: string,
                        localFree: Option<int>, fetched: seq<DiskRecord>)
        returns (r: Option<int>)
      modifies this
      ensures storageService.None? || storageService.value == "" ==> r == localFree && storageList == old(storageList)
      ensures storageService.Some? && storageService.value != "" ==>
                storageList == (if old(storageList) == [] then SortByMount(NewStorages(fetched, storageMap))
                                else old(storageList))
                && r == (var found := FreeSpaceOf(storageList, path); if found.Ok? then Some(found.value) else None)
    {
      if storageService.None? || storageService.value == "" {
        return localFree;
      }
      var found, _ := GetFreeStorageSpace(fetched, storageMap, path);
      r := if found.Ok? then Some(found.value) else None;
    }
  }
}
