/**
 * The two-tier image cache (src/logic/cache/imageCache.js).
 *
 * RAM tier: a Map from key to {buffer, contentType, size, lastAccess} with a
 * byte counter and a limit.  Disk tier: a Map from key to metadata
 * {url, filePath, contentType, size, lastAccess, created} for files in the
 * cache directory, a byte counter and a limit, and cache_metadata.json,
 * which mirrors the Map.  Each Map, its insertion order and its counter
 * form one `Store` value (module CacheTier).  Keys are the MD5 of the URL,
 * a function given to the constructor; `now` stands for Date.now().
 *
 * Each operation on tier values is a function here, with lemmas about it;
 * the class's methods change its fields as the source does and are
 * specified by those functions.
 */
module ImageCache {
  import opened Common
  import opened Lru
  import opened CacheTier

  const DEFAULT_RAM_CACHE_SIZE: int := 256 * 1024 * 1024
  const DEFAULT_DISK_CACHE_SIZE: int := 1024 * 1024 * 1024
  const IMAGE_EXTENSIONS: seq<string> := [".jpg", ".jpeg", ".png", ".gif", ".webp", ".svg", ".bmp", ".ico", ".tiff"]

  datatype RamEntry = RamEntry(buffer: Bytes, contentType: string, size: int, lastAccess: int)

  datatype DiskMeta = DiskMeta(url: string, filePath: string, contentType: string, size: int, lastAccess: int, created: int)

  /** cache_metadata.json: absent, unparseable, or its `totalSize` and its
      `entries` object (whose keys a JSON object cannot repeat). */
  datatype MetadataFile =
    | NoMetadataFile
    | CorruptMetadata
    | MetadataJson(totalSize: int, entries: seq<(string, DiskMeta)>)

  /** The cache directory: image files by path, and the metadata file. */
  datatype Dir = Dir(files: map<string, Bytes>, metadata: MetadataFile)

  datatype TierStats = TierStats(entries: int, size: int, maxSize: int)
  datatype CacheStats = CacheStats(ram: TierStats, disk: TierStats)

  function RamSize(e: RamEntry): int { e.size }
  function RamStamp(e: RamEntry): int { e.lastAccess }
  function DiskSize(e: DiskMeta): int { e.size }
  function DiskStamp(e: DiskMeta): int { e.lastAccess }

  /** The file an entry keeps on disk: none for a RAM entry. */
  function NoFile(e: RamEntry): Option<string> { None }
  function DiskFile(e: DiskMeta): Option<string> { Some(e.filePath) }

  /** Each RAM entry's recorded size is its buffer's length. */
  ghost predicate SizesExact(m: map<string, RamEntry>) {
    forall k :: k in m ==> m[k].size == |m[k].buffer|
  }

  ghost predicate RamOk(s: Store<RamEntry>) {
    Kept(s, RamSize) && SizesExact(s.entries)
  }

  ghost predicate DiskOk(s: Store<DiskMeta>) {
    Kept(s, DiskSize)
  }

  // ---------------------------------------------------------------------
  // Pure helpers
  // ---------------------------------------------------------------------

  /** _getExtFromContentType: the known image types map to their extension,
      everything else to ".jpg". */
  function ExtFromContentType(contentType: string): (ext: string)
    ensures ext in IMAGE_EXTENSIONS
    ensures ext != ".jpeg"
    ensures ext == ".jpg" <==>
      contentType !in ["image/png", "image/gif", "image/webp", "image/svg+xml", "image/bmp", "image/ico", "image/tiff"]
  {
    match contentType
    case "image/jpeg" => ".jpg"
    case "image/jpg" => ".jpg"
    case "image/png" => ".png"
    case "image/gif" => ".gif"
    case "image/webp" => ".webp"
    case "image/svg+xml" => ".svg"
    case "image/bmp" => ".bmp"
    case "image/ico" => ".ico"
    case "image/tiff" => ".tiff"
    case _ => ".jpg"
  }

  /** exts.some(ext => s.endsWith(ext)) */
  function SomeEndsWith(s: string, exts: seq<string>): (b: bool)
    ensures b <==> exists e :: e in exts && EndsWith(s, e)
  {
    if exts == [] then false
    else
      assert forall e :: e in exts <==> e == exts[0] || e in exts[1..];
      EndsWith(s, exts[0]) || SomeEndsWith(s, exts[1..])
  }

  /** isImageUrl: the URL's path, lower-cased, ends with a known image
      extension; `pathname` is None when the URL does not parse. */
  function IsImageUrl(pathname: Option<string>): (b: bool)
    ensures b <==> pathname.Some? && exists ext :: ext in IMAGE_EXTENSIONS && EndsWith(ToLower(pathname.value), ext)
  {
    pathname.Some? && SomeEndsWith(ToLower(pathname.value), IMAGE_EXTENSIONS)
  }

  /** The cache directory init() chooses: under Electron's userData when
      there is one, else under the temporary directory. */
  function CacheDir(userData: Option<string>, tmpDir: string): string {
    if userData.Some? then JoinPath(userData.value, "imageCache") else JoinPath(tmpDir, "hornylink_imageCache")
  }

  // ---------------------------------------------------------------------
  // RAM tier
  // ---------------------------------------------------------------------

  /** _addToRamCache with the counter kept equal to the bytes held: an item
      larger than the limit is refused; otherwise the tier is evicted for
      it and the entry is set. */
  function RamAdd(s: Store<RamEntry>, key: string, buffer: Bytes, contentType: string, now: int, max: int)
    : (bool, Store<RamEntry>)
  {
    if |buffer| > max then (false, s)
    else
      var e := Evicted(s, |buffer|, max, RamSize, RamStamp);
      (true, StorePut(e, key, RamEntry(buffer, contentType, |buffer|, now), RamSize))
  }

  lemma RamEvictedOk(s: Store<RamEntry>, required: int, max: int)
    requires RamOk(s)
    ensures var r := Evicted(s, required, max, RamSize, RamStamp);
      && RamOk(r) && SubMap(r.entries, s.entries)
      && (s.size + required <= max ==> r == s)
      && (r.size + required <= max || r == Empty())
  {
    EvictedKept(s, required, max, RamSize, RamStamp);
  }

  /** What an add does: it succeeds exactly when the item fits the limit;
      then the entry is there, the tier is within its limit and no other
      entry changed; a refused add changes nothing. */
  lemma RamAddSpec(s: Store<RamEntry>, key: string, buffer: Bytes, contentType: string, now: int, max: int)
    requires RamOk(s)
    ensures var (added, r) := RamAdd(s, key, buffer, contentType, now, max);
      && RamOk(r)
      && (added <==> |buffer| <= max)
      && (!added ==> r == s)
      && (added ==> key in r.entries && r.entries[key] == RamEntry(buffer, contentType, |buffer|, now))
      && (added ==> r.size <= max)
      && (forall k :: k in r.entries && k != key ==> k in s.entries && r.entries[k] == s.entries[k])
      && (added && key !in s.entries && s.size + |buffer| <= max ==>
            r.order == s.order + [key] && r.size == s.size + |buffer|)
  {
    if |buffer| <= max {
      var e := Evicted(s, |buffer|, max, RamSize, RamStamp);
      var entry := RamEntry(buffer, contentType, |buffer|, now);
      RamEvictedOk(s, |buffer|, max);
      StorePutKept(e, key, entry, RamSize);
    }
  }

  /** Setting an already cached key again through `ramCacheSize += size`:
      with 3 bytes stored twice the counter says 6 while the tier holds 3. */
  lemma RamCounterDriftExample()
    ensures var e := RamEntry([1, 2, 3], "image/png", 3, 0);
      var s := StorePut(Empty(), "k", e, RamSize);
      var r := StorePutAsWritten(s, "k", e, RamSize);
      r.size == 6 && SizeSum(r.order, SizeAt(r.entries, RamSize)) == 3
  {
    var e := RamEntry([1, 2, 3], "image/png", 3, 0);
    var s := StorePut(Empty(), "k", e, RamSize);
    StorePutKept(Empty(), "k", e, RamSize);
    CounterDrift(s, "k", e, RamSize);
    StorePutKept(s, "k", e, RamSize);
  }

  // ---------------------------------------------------------------------
  // Disk tier
  // ---------------------------------------------------------------------

  /** The `entries` object _saveDiskCacheMetadata writes: the Map's entries
      in insertion order. */
  function MetaEntries(order: seq<string>, m: map<string, DiskMeta>): seq<(string, DiskMeta)>
    requires forall k :: k in order ==> k in m
  {
    seq(|order|, i requires 0 <= i < |order| => (order[i], m[order[i]]))
  }

  /** The saved entries list the keys in the Map's order. */
  lemma MetaEntriesKeys(order: seq<string>, m: map<string, DiskMeta>)
    requires forall k :: k in order ==> k in m
    ensures EntryKeys(MetaEntries(order, m)) == order
  {
  }

  function EntryKeys(entries: seq<(string, DiskMeta)>): seq<string> {
    seq(|entries|, i requires 0 <= i < |entries| => entries[i].0)
  }

  /** The JSON _saveDiskCacheMetadata writes for a tier. */
  function MetadataOf(s: Store<DiskMeta>): MetadataFile
    requires forall k :: k in s.order ==> k in s.entries
  {
    MetadataJson(s.size, MetaEntries(s.order, s.entries))
  }

  /** _saveDiskCacheMetadata: nothing without a cache directory. */
  function Saved(path: Option<string>, s: Store<DiskMeta>, d: Dir): Dir
    requires forall k :: k in s.order ==> k in s.entries
  {
    if path.None? then d else d.(metadata := MetadataOf(s))
  }

  /** The tier _loadDiskCacheMetadata builds from the file's entries: each
      entry whose file exists is set, in the file's order, and its size
      added to the counter. */
  function Loaded(s: Store<DiskMeta>, entries: seq<(string, DiskMeta)>, files: map<string, Bytes>): Store<DiskMeta>
    decreases |entries|
  {
    if entries == [] then s
    else
      var prev := Loaded(s, entries[..|entries| - 1], files);
      var (key, meta) := entries[|entries| - 1];
      if meta.filePath in files then StorePutAsWritten(prev, key, meta, DiskSize) else prev
  }

  /** What loading gives: a consistent tier holding exactly the listed
      entries whose files exist, each with the metadata the file lists. */
  lemma {:induction false} LoadedSpec(entries: seq<(string, DiskMeta)>, files: map<string, Bytes>)
    requires NoDuplicates(EntryKeys(entries))
    ensures var r := Loaded(Empty(), entries, files);
      && DiskOk(r)
      && (forall k :: k in r.entries ==> r.entries[k].filePath in files)
      && (forall i :: 0 <= i < |entries| && entries[i].1.filePath in files ==>
            entries[i].0 in r.entries && r.entries[entries[i].0] == entries[i].1)
      && (forall k :: k in r.entries ==> k in EntryKeys(entries))
    decreases |entries|
  {
    if entries != [] {
      var n := |entries|;
      var init := entries[..n - 1];
      assert EntryKeys(init) == EntryKeys(entries)[..n - 1];
      LoadedSpec(init, files);
      LoadedStep(entries, files);
    }
  }

  /** Loading one more entry, after the others have loaded as LoadedSpec says. */
  lemma LoadedStep(entries: seq<(string, DiskMeta)>, files: map<string, Bytes>)
    requires entries != [] && NoDuplicates(EntryKeys(entries))
    requires var init := entries[..|entries| - 1];
      var r := Loaded(Empty(), init, files);
      && DiskOk(r)
      && (forall k :: k in r.entries ==> r.entries[k].filePath in files)
      && (forall i :: 0 <= i < |init| && init[i].1.filePath in files ==>
            init[i].0 in r.entries && r.entries[init[i].0] == init[i].1)
      && (forall k :: k in r.entries ==> k in EntryKeys(init))
    ensures var r := Loaded(Empty(), entries, files);
      && DiskOk(r)
      && (forall k :: k in r.entries ==> r.entries[k].filePath in files)
      && (forall i :: 0 <= i < |entries| && entries[i].1.filePath in files ==>
            entries[i].0 in r.entries && r.entries[entries[i].0] == entries[i].1)
      && (forall k :: k in r.entries ==> k in EntryKeys(entries))
  {
    var n := |entries|;
    var init := entries[..n - 1];
    var prev := Loaded(Empty(), init, files);
    var key, meta := entries[n - 1].0, entries[n - 1].1;
    assert EntryKeys(init) == EntryKeys(entries)[..n - 1];
    assert key == EntryKeys(entries)[n - 1];
    assert key !in prev.entries;
    var r := if meta.filePath in files then StorePut(prev, key, meta, DiskSize) else prev;
    assert Loaded(Empty(), entries, files) == r;
    if meta.filePath in files {
      StorePutKept(prev, key, meta, DiskSize);
    }
    forall i | 0 <= i < n - 1
      ensures entries[i].0 != key && entries[i] == init[i]
    {
      assert EntryKeys(entries)[i] == entries[i].0;
    }
  }

  /** Saving a tier and loading it back, with every file still there,
      gives the same tier. */
  lemma {:induction false} SaveLoadRoundTrip(s: Store<DiskMeta>, files: map<string, Bytes>)
    requires DiskOk(s)
    requires forall k :: k in s.entries ==> s.entries[k].filePath in files
    ensures Loaded(Empty(), MetaEntries(s.order, s.entries), files) == s
  {
    PrefixLoaded(s, files, |s.order|);
    assert s.order[..|s.order|] == s.order;
    assert s.entries == Prefix(s, |s.order|).entries;
  }

  /** The first n entries of a consistent tier. */
  function Prefix(s: Store<DiskMeta>, n: nat): Store<DiskMeta>
    requires n <= |s.order| && forall k :: k in s.order ==> k in s.entries
  {
    Store(map k | k in s.order[..n] :: s.entries[k], s.order[..n], SizeSum(s.order[..n], SizeAt(s.entries, DiskSize)))
  }

  lemma {:induction false} PrefixLoaded(s: Store<DiskMeta>, files: map<string, Bytes>, n: nat)
    requires DiskOk(s) && n <= |s.order|
    requires forall k :: k in s.entries ==> s.entries[k].filePath in files
    ensures Loaded(Empty(), MetaEntries(s.order[..n], s.entries), files) == Prefix(s, n)
  {
    if n == 0 {
      assert MetaEntries(s.order[..0], s.entries) == [];
      assert Prefix(s, 0).entries == map[];
    } else {
      PrefixLoaded(s, files, n - 1);
      PrefixLoadedStep(s, files, n);
    }
  }

  lemma PrefixLoadedStep(s: Store<DiskMeta>, files: map<string, Bytes>, n: nat)
    requires DiskOk(s) && 0 < n <= |s.order|
    requires forall k :: k in s.entries ==> s.entries[k].filePath in files
    requires Loaded(Empty(), MetaEntries(s.order[..n - 1], s.entries), files) == Prefix(s, n - 1)
    ensures Loaded(Empty(), MetaEntries(s.order[..n], s.entries), files) == Prefix(s, n)
  {
    var es := MetaEntries(s.order[..n], s.entries);
    var key := s.order[n - 1];
    assert es[n - 1] == (key, s.entries[key]);
    assert s.entries[key].filePath in files;
    assert Loaded(Empty(), es, files) == StorePutAsWritten(Loaded(Empty(), es[..n - 1], files), key, s.entries[key], DiskSize);
    assert es[..n - 1] == MetaEntries(s.order[..n - 1], s.entries);
    PrefixStep(s, n);
  }

  /** Setting the n-th entry of a consistent tier after the first n - 1. */
  lemma PrefixStep(s: Store<DiskMeta>, n: nat)
    requires DiskOk(s) && 0 < n <= |s.order|
    ensures var key := s.order[n - 1];
      StorePutAsWritten(Prefix(s, n - 1), key, s.entries[key], DiskSize) == Prefix(s, n)
  {
    var key := s.order[n - 1];
    var prev := Prefix(s, n - 1);
    assert key !in s.order[..n - 1] by {
      forall i | 0 <= i < n - 1
        ensures s.order[i] != key
      {
      }
    }
    assert key !in prev.entries;
    assert s.order[..n] == s.order[..n - 1] + [key];
    SizeSumAppend(s.order[..n - 1], [key], SizeAt(s.entries, DiskSize));
    assert SizeSum([key], SizeAt(s.entries, DiskSize)) == s.entries[key].size by {
      assert [key][1..] == [];
    }
    assert prev.entries[key := s.entries[key]] == Prefix(s, n).entries;
  }

  /** The metadata file lists each key once. */
  ghost predicate MetadataOk(d: Dir) {
    d.metadata.MetadataJson? ==> NoDuplicates(EntryKeys(d.metadata.entries))
  }

  /** The disk tier keeps its bookkeeping, holds nothing before a cache
      directory is chosen, and its metadata file lists each key once. */
  ghost predicate DiskTierOk(path: Option<string>, s: Store<DiskMeta>, d: Dir) {
    DiskOk(s) && (path.None? ==> s == Empty()) && MetadataOk(d)
  }

  lemma SavedOk(path: Option<string>, s: Store<DiskMeta>, d: Dir)
    requires DiskOk(s) && MetadataOk(d)
    ensures MetadataOk(Saved(path, s, d))
  {
    MetaEntriesKeys(s.order, s.entries);
  }

  /** _evictDiskCache: the tier is evicted, each evicted entry's file is
      deleted, and the metadata file is saved when the loop ran. */
  function DiskEvict(path: Option<string>, s: Store<DiskMeta>, d: Dir, required: int, max: int): (Store<DiskMeta>, Dir)
    requires DiskOk(s)
  {
    if s.size + required <= max then (s, d)
    else
      var r := Evicted(s, required, max, DiskSize, DiskStamp);
      EvictedKept(s, required, max, DiskSize, DiskStamp);
      var v := VictimsOf(s, required, max, DiskSize, DiskStamp);
      (r, Saved(path, r, d.(files := d.files - FilesOf(v, s.entries, DiskFile))))
  }

  /** Eviction keeps the disk tier's invariant. */
  lemma DiskEvictOk(path: Option<string>, s: Store<DiskMeta>, d: Dir, required: int, max: int)
    requires DiskTierOk(path, s, d)
    ensures var (r, d') := DiskEvict(path, s, d, required, max);
      DiskTierOk(path, r, d')
  {
    EvictedKept(s, required, max, DiskSize, DiskStamp);
    if s == Empty() {
      EvictedEmpty(required, max, DiskSize, DiskStamp);
    }
    if s.size + required > max {
      var r := Evicted(s, required, max, DiskSize, DiskStamp);
      SavedOk(path, r, d.(files := d.files - FilesOf(VictimsOf(s, required, max, DiskSize, DiskStamp), s.entries, DiskFile)));
    }
  }

  /** What eviction does to the tier: it stays consistent, loses entries
      only, is untouched when the item fits, and ends within its limit or
      empty. */
  lemma DiskEvictSpec(path: Option<string>, s: Store<DiskMeta>, d: Dir, required: int, max: int)
    requires DiskOk(s)
    ensures var (r, d') := DiskEvict(path, s, d, required, max);
      && DiskOk(r) && SubMap(r.entries, s.entries)
      && (s.size + required <= max ==> r == s && d' == d)
      && (r.size + required <= max || r == Empty())
      && (DiskTierOk(path, s, d) ==> DiskTierOk(path, r, d'))
  {
    EvictedKept(s, required, max, DiskSize, DiskStamp);
    if DiskTierOk(path, s, d) {
      DiskEvictOk(path, s, d, required, max);
    }
  }

  /** What eviction does to the directory: the evicted entries' files are
      deleted, no other file changes, and the metadata file is rewritten
      when the loop ran and there is a cache directory. */
  lemma DiskEvictDir(path: Option<string>, s: Store<DiskMeta>, d: Dir, required: int, max: int)
    requires DiskOk(s)
    ensures var (r, d') := DiskEvict(path, s, d, required, max);
      && DiskOk(r)
      && (forall k :: k in s.entries && k !in r.entries ==> s.entries[k].filePath !in d'.files)
      && (forall p :: p in d'.files ==> p in d.files && d'.files[p] == d.files[p])
      && (path.Some? && s.size + required > max ==> d'.metadata == MetadataOf(r))
      && (path.None? ==> d'.metadata == d.metadata)
  {
    EvictedKept(s, required, max, DiskSize, DiskStamp);
    DiskEvictFiles(s, d.files, required, max);
  }

  /** The files of the evicted entries are the ones deleted. */
  lemma DiskEvictFiles(s: Store<DiskMeta>, files: map<string, Bytes>, required: int, max: int)
    ensures var v := VictimsOf(s, required, max, DiskSize, DiskStamp);
      var r := Evicted(s, required, max, DiskSize, DiskStamp);
      forall k :: k in s.entries && k !in r.entries ==> s.entries[k].filePath !in files - FilesOf(v, s.entries, DiskFile)
  {
    var v := VictimsOf(s, required, max, DiskSize, DiskStamp);
    RemoveKeysSpec(s.entries, v);
    forall k | k in s.entries && k !in Evicted(s, required, max, DiskSize, DiskStamp).entries
      ensures s.entries[k].filePath in FilesOf(v, s.entries, DiskFile)
    {
      FilesOfHas(v, s.entries, DiskFile, k);
    }
  }

  /** _addToDiskCache with the counter kept equal to the sum of the
      recorded sizes: refused without a cache directory or for an item
      larger than the limit; otherwise the tier is evicted for it, the file
      is written, the entry set and the metadata file saved. */
  function DiskAdd(path: Option<string>, s: Store<DiskMeta>, d: Dir, key: string, url: string,
                   buffer: Bytes, contentType: string, now: int, max: int): (bool, Store<DiskMeta>, Dir)
    requires DiskOk(s)
  {
    if path.None? || |buffer| > max then (false, s, d)
    else
      var ed := DiskEvict(path, s, d, |buffer|, max);
      EvictedKept(s, |buffer|, max, DiskSize, DiskStamp);
      var w := DiskWrite(path.value, ed.0, ed.1, key, url, buffer, contentType, now);
      (true, w.0, w.1)
  }

  /** The part of _addToDiskCache after eviction: the file is written
      under the key and the extension of its type, the entry set and the
      metadata file saved. */
  function DiskWrite(dirPath: string, s: Store<DiskMeta>, d: Dir, key: string, url: string,
                     buffer: Bytes, contentType: string, now: int): (Store<DiskMeta>, Dir)
    requires DiskOk(s)
  {
    var filePath := JoinPath(dirPath, key + ExtFromContentType(contentType));
    var meta := DiskMeta(url, filePath, contentType, |buffer|, now, now);
    StorePutKept(s, key, meta, DiskSize);
    var r := StorePut(s, key, meta, DiskSize);
    (r, Saved(Some(dirPath), r, d.(files := d.files[filePath := buffer])))
  }

  /** Adding keeps the disk tier's invariant. */
  lemma DiskAddOk(path: Option<string>, s: Store<DiskMeta>, d: Dir, key: string, url: string,
                  buffer: Bytes, contentType: string, now: int, max: int)
    requires DiskTierOk(path, s, d)
    ensures var (_, r, d') := DiskAdd(path, s, d, key, url, buffer, contentType, now, max);
      DiskTierOk(path, r, d')
  {
    if path.Some? && |buffer| <= max {
      DiskEvictOk(path, s, d, |buffer|, max);
      var ed := DiskEvict(path, s, d, |buffer|, max);
      var filePath := JoinPath(path.value, key + ExtFromContentType(contentType));
      var meta := DiskMeta(url, filePath, contentType, |buffer|, now, now);
      StorePutKept(ed.0, key, meta, DiskSize);
      SavedOk(path, StorePut(ed.0, key, meta, DiskSize), ed.1.(files := ed.1.files[filePath := buffer]));
    }
  }

  lemma DiskAddSpec(path: Option<string>, s: Store<DiskMeta>, d: Dir, key: string, url: string,
                    buffer: Bytes, contentType: string, now: int, max: int)
    requires DiskOk(s)
    ensures var (added, r, d') := DiskAdd(path, s, d, key, url, buffer, contentType, now, max);
      && DiskOk(r)
      && (added <==> path.Some? && |buffer| <= max)
      && (!added ==> r == s && d' == d)
      && (added ==> key in r.entries && r.entries[key].filePath in d'.files
                    && d'.files[r.entries[key].filePath] == buffer
                    && r.entries[key] == DiskMeta(url, JoinPath(path.value, key + ExtFromContentType(contentType)),
                                                  contentType, |buffer|, now, now)
                    && d'.metadata == MetadataOf(r))
      && (added && (key in s.entries ==> s.entries[key].size >= 0) ==> r.size <= max)
      && (forall k :: k in r.entries && k != key ==> k in s.entries && r.entries[k] == s.entries[k])
      && (DiskTierOk(path, s, d) ==> DiskTierOk(path, r, d'))
  {
    if DiskTierOk(path, s, d) {
      DiskAddOk(path, s, d, key, url, buffer, contentType, now, max);
    }
    if path.Some? && |buffer| <= max {
      DiskEvictSpec(path, s, d, |buffer|, max);
      var ed := DiskEvict(path, s, d, |buffer|, max);
      var filePath := JoinPath(path.value, key + ExtFromContentType(contentType));
      StorePutKept(ed.0, key, DiskMeta(url, filePath, contentType, |buffer|, now, now), DiskSize);
    }
  }

  /** _getFromDisk: no entry gives null; an entry whose file is gone is
      deleted from the tier; otherwise the file is read and the entry's
      lastAccess set. */
  function DiskGet(s: Store<DiskMeta>, d: Dir, key: string, now: int): (Option<(Bytes, string)>, Store<DiskMeta>) {
    if key !in s.entries then (None, s)
    else
      var meta := s.entries[key];
      if meta.filePath !in d.files then (None, StoreDelete(s, key, DiskSize))
      else (Some((d.files[meta.filePath], meta.contentType)), StorePut(s, key, meta.(lastAccess := now), DiskSize))
  }

  lemma DiskGetSpec(s: Store<DiskMeta>, d: Dir, key: string, now: int)
    requires DiskOk(s)
    ensures var (res, r) := DiskGet(s, d, key, now);
      && DiskOk(r)
      && (res.Some? <==> key in s.entries && s.entries[key].filePath in d.files)
      && (res.Some? ==> res.value.0 == d.files[s.entries[key].filePath]
                        && key in r.entries && r.entries[key].lastAccess == now && r.order == s.order && r.size == s.size)
      && (res.None? ==> key !in r.entries)
      && (key !in s.entries ==> r == s)
      && (forall k :: k != key ==> (k in r.entries <==> k in s.entries))
  {
    if key in s.entries {
      var meta := s.entries[key];
      StoreDeleteKept(s, key, DiskSize);
      StorePutKept(s, key, meta.(lastAccess := now), DiskSize);
    }
  }

  // ---------------------------------------------------------------------
  // Both tiers
  // ---------------------------------------------------------------------

  /** What get(url) returns: the RAM copy first, then the disk file. */
  function Lookup(ram: Store<RamEntry>, disk: Store<DiskMeta>, d: Dir, key: string): Option<Bytes> {
    if key in ram.entries then Some(ram.entries[key].buffer)
    else if key in disk.entries && disk.entries[key].filePath in d.files then Some(d.files[disk.entries[key].filePath])
    else None
  }

  /** get(url) on the tiers: a RAM hit updates lastAccess; a disk hit is
      loaded into RAM. */
  function CacheGet(ram: Store<RamEntry>, disk: Store<DiskMeta>, d: Dir, key: string, now: int, maxRam: int)
    : (Option<Bytes>, Store<RamEntry>, Store<DiskMeta>)
  {
    if key in ram.entries then
      var e := ram.entries[key];
      (Some(e.buffer), StorePut(ram, key, e.(lastAccess := now), RamSize), disk)
    else
      var (got, disk') := DiskGet(disk, d, key, now);
      if got.Some? then (Some(got.value.0), RamAdd(ram, key, got.value.0, got.value.1, now, maxRam).1, disk')
      else (None, ram, disk')
  }

  lemma CacheGetSpec(ram: Store<RamEntry>, disk: Store<DiskMeta>, d: Dir, key: string, now: int, maxRam: int)
    requires RamOk(ram) && DiskOk(disk)
    ensures var (res, ram', disk') := CacheGet(ram, disk, d, key, now, maxRam);
      && res == Lookup(ram, disk, d, key)
      && RamOk(ram') && DiskOk(disk')
      && (res.Some? ==> key in ram'.entries || key in disk'.entries)
  {
    if key in ram.entries {
      var e := ram.entries[key];
      StorePutKept(ram, key, e.(lastAccess := now), RamSize);
    } else {
      DiskGetSpec(disk, d, key, now);
      var (got, disk') := DiskGet(disk, d, key, now);
      if got.Some? {
        RamAddSpec(ram, key, got.value.0, got.value.1, now, maxRam);
      }
    }
  }

  /** set(url, buffer, contentType): add to RAM, then to disk. */
  function CacheSet(path: Option<string>, ram: Store<RamEntry>, disk: Store<DiskMeta>, d: Dir, key: string, url: string,
                    buffer: Bytes, contentType: string, now: int, maxRam: int, maxDisk: int)
    : (Store<RamEntry>, Store<DiskMeta>, Dir)
    requires DiskOk(disk)
  {
    var (_, ram') := RamAdd(ram, key, buffer, contentType, now, maxRam);
    var (_, disk', d') := DiskAdd(path, disk, d, key, url, buffer, contentType, now, maxDisk);
    (ram', disk', d')
  }

  /** A get after a set returns the buffer set, when either tier took it
      and no older RAM copy can shadow the new one. */
  lemma SetGetRoundTrip(path: Option<string>, ram: Store<RamEntry>, disk: Store<DiskMeta>, d: Dir, key: string,
                        url: string, buffer: Bytes, contentType: string, now: int, maxRam: int, maxDisk: int)
    requires RamOk(ram) && DiskOk(disk)
    requires |buffer| <= maxRam || (key !in ram.entries && path.Some? && |buffer| <= maxDisk)
    ensures var (ram', disk', d') := CacheSet(path, ram, disk, d, key, url, buffer, contentType, now, maxRam, maxDisk);
      Lookup(ram', disk', d', key) == Some(buffer)
  {
    RamAddSpec(ram, key, buffer, contentType, now, maxRam);
    DiskAddSpec(path, disk, d, key, url, buffer, contentType, now, maxDisk);
  }

  /** delete(url): the key leaves both tiers; the disk entry's file is
      deleted and the metadata file saved. */
  function CacheDelete(path: Option<string>, ram: Store<RamEntry>, disk: Store<DiskMeta>, d: Dir, key: string)
    : (Store<RamEntry>, Store<DiskMeta>, Dir)
    requires DiskOk(disk)
  {
    var ram' := StoreDelete(ram, key, RamSize);
    if key in disk.entries then
      var disk' := StoreDelete(disk, key, DiskSize);
      StoreDeleteKept(disk, key, DiskSize);
      (ram', disk', Saved(path, disk', d.(files := d.files - {disk.entries[key].filePath})))
    else (ram', disk, d)
  }

  lemma CacheDeleteSpec(path: Option<string>, ram: Store<RamEntry>, disk: Store<DiskMeta>, d: Dir, key: string)
    requires RamOk(ram) && DiskOk(disk)
    ensures var (ram', disk', d') := CacheDelete(path, ram, disk, d, key);
      && RamOk(ram') && DiskOk(disk')
      && key !in ram'.entries && key !in disk'.entries
      && (key in ram.entries ==> ram'.size == ram.size - ram.entries[key].size)
      && (key in disk.entries ==> disk'.size == disk.size - disk.entries[key].size)
      && (forall k :: k != key ==> (k in ram'.entries <==> k in ram.entries) && (k in disk'.entries <==> k in disk.entries))
      && (key in disk.entries ==> disk.entries[key].filePath !in d'.files)
      && (forall p :: p in d'.files ==> p in d.files && d'.files[p] == d.files[p])
      && (DiskTierOk(path, disk, d) ==> DiskTierOk(path, disk', d'))
  {
    StoreDeleteKept(ram, key, RamSize);
    StoreDeleteKept(disk, key, DiskSize);
    if key in disk.entries && MetadataOk(d) {
      SavedOk(path, StoreDelete(disk, key, DiskSize), d.(files := d.files - {disk.entries[key].filePath}));
    }
  }

  /** clear(): both tiers emptied, every disk entry's file deleted, and the
      metadata file saved. */
  function Cleared(path: Option<string>, disk: Store<DiskMeta>, d: Dir): Dir {
    Saved(path, Empty(), d.(files := d.files - FilesOf(disk.order, disk.entries, DiskFile)))
  }

  lemma ClearedSpec(path: Option<string>, disk: Store<DiskMeta>, d: Dir)
    requires DiskOk(disk)
    ensures var d' := Cleared(path, disk, d);
      && (forall k :: k in disk.entries ==> disk.entries[k].filePath !in d'.files)
      && (path.Some? ==> d'.metadata == MetadataJson(0, []))
      && (MetadataOk(d) ==> MetadataOk(d'))
  {
    forall k | k in disk.entries
      ensures disk.entries[k].filePath in FilesOf(disk.order, disk.entries, DiskFile)
    {
      FilesOfHas(disk.order, disk.entries, DiskFile, k);
    }
  }

  /** The `for` loop of clear(): unlinks the file of each disk entry, in
      Map order. */
  method UnlinkAll(order: seq<string>, m: map<string, DiskMeta>, files0: map<string, Bytes>)
    returns (files: map<string, Bytes>)
    ensures files == files0 - FilesOf(order, m, DiskFile)
  {
    files := files0;
    var i := 0;
    assert order[..0] == [];
    assert files0 - {} == files0;
    while i < |order|
      invariant 0 <= i <= |order|
      invariant files == files0 - FilesOf(order[..i], m, DiskFile)
    {
      assert order[..i + 1][..i] == order[..i];
      var k := order[i];
      if k in m {
        files := files - {m[k].filePath};
      }
      i := i + 1;
    }
    assert order[..|order|] == order;
  }

  /** _loadDiskCacheMetadata: nothing without a cache directory or without
      the file; an unparseable file empties the tier. */
  function LoadMetadata(path: Option<string>, s: Store<DiskMeta>, d: Dir): Store<DiskMeta> {
    if path.None? then s
    else
      match d.metadata
      case NoMetadataFile => s
      case CorruptMetadata => Empty()
      case MetadataJson(_, entries) => Loaded(s, entries, d.files)
  }

  /** The `for` loop of _loadDiskCacheMetadata. */
  method LoadEntries(s0: Store<DiskMeta>, entries: seq<(string, DiskMeta)>, files: map<string, Bytes>)
    returns (s: Store<DiskMeta>)
    ensures s == Loaded(s0, entries, files)
  {
    s := s0;
    var i := 0;
    assert entries[..0] == [];
    while i < |entries|
      invariant 0 <= i <= |entries|
      invariant s == Loaded(s0, entries[..i], files)
    {
      assert entries[..i + 1][..i] == entries[..i];
      var (key, meta) := entries[i];
      if meta.filePath in files {
        s := StorePutAsWritten(s, key, meta, DiskSize);
      }
      i := i + 1;
    }
    assert entries[..|entries|] == entries;
  }

  class ImageCache {
    const md5: string -> string

    var ram: Store<RamEntry>
    var maxRamCacheSize: int

    var diskCachePath: Option<string>
    var disk: Store<DiskMeta>
    var maxDiskCacheSize: int
    var initialized: bool

    var dir: Dir

    /** Both tiers keep their bookkeeping; there is no disk entry before
        init() has chosen a directory; the metadata file lists each key once. */
    ghost predicate Valid()
      reads this
    {
      && RamOk(ram)
      && DiskTierOk(diskCachePath, disk, dir)
      && (!initialized ==> diskCachePath.None?)
    }

    constructor(md5: string -> string, dir: Dir)
      requires MetadataOk(dir)
      ensures Valid()
      ensures this.md5 == md5 && this.dir == dir
      ensures ram == Empty() && maxRamCacheSize == DEFAULT_RAM_CACHE_SIZE
      ensures disk == Empty() && maxDiskCacheSize == DEFAULT_DISK_CACHE_SIZE
      ensures diskCachePath.None? && !initialized
    {
      this.md5 := md5;
      ram := Empty();
      maxRamCacheSize := DEFAULT_RAM_CACHE_SIZE;
      diskCachePath := None;
      disk := Empty();
      maxDiskCacheSize := DEFAULT_DISK_CACHE_SIZE;
      initialized := false;
      this.dir := dir;
      assert SizeSum([], SizeAt(map[], RamSize)) == 0;
      assert SizeSum([], SizeAt(map[], DiskSize)) == 0;
    }

    /** init(settings): a limit given as a non-zero number replaces the
        default; the directory is chosen and the metadata loaded, once. */
    method Init(ramLimit: Option<int>, diskLimit: Option<int>, userData: Option<string>, tmpDir: string)
      requires Valid()
      modifies this`maxRamCacheSize, this`maxDiskCacheSize, this`diskCachePath, this`disk, this`initialized
      ensures Valid()
      ensures old(initialized) ==> unchanged(this)
      ensures !old(initialized) ==>
        && initialized
        && diskCachePath == Some(CacheDir(userData, tmpDir))
        && maxRamCacheSize == (if ramLimit.Some? && ramLimit.value != 0 then ramLimit.value else old(maxRamCacheSize))
        && maxDiskCacheSize == (if diskLimit.Some? && diskLimit.value != 0 then diskLimit.value else old(maxDiskCacheSize))
        && disk == LoadMetadata(diskCachePath, Empty(), dir)
    {
      if initialized {
        return;
      }
      if ramLimit.Some? && ramLimit.value != 0 {
        maxRamCacheSize := ramLimit.value;
      }
      if diskLimit.Some? && diskLimit.value != 0 {
        maxDiskCacheSize := diskLimit.value;
      }
      diskCachePath := Some(CacheDir(userData, tmpDir));
      LoadDiskCacheMetadata();
      initialized := true;
    }

    /** _loadDiskCacheMetadata(), on an empty tier as init() calls it. */
    method LoadDiskCacheMetadata()
      requires disk == Empty() && DiskOk(disk)
      requires MetadataOk(dir)
      modifies this`disk
      ensures disk == LoadMetadata(diskCachePath, Empty(), dir)
      ensures DiskOk(disk)
    {
      if diskCachePath.None? {
        return;
      }
      match dir.metadata {
        case NoMetadataFile =>
        case CorruptMetadata =>
          disk := Empty();
        case MetadataJson(_, entries) =>
          disk := LoadEntries(disk, entries, dir.files);
          LoadedSpec(entries, dir.files);
      }
    }

    /** _saveDiskCacheMetadata() */
    method SaveDiskCacheMetadata()
      requires DiskOk(disk)
      modifies this`dir
      ensures dir == Saved(diskCachePath, disk, old(dir))
    {
      if diskCachePath.None? {
        return;
      }
      dir := dir.(metadata := MetadataOf(disk));
    }

    /** has(url) */
    predicate Has(url: string)
      reads this
    {
      md5(url) in ram.entries || md5(url) in disk.entries
    }

    /** get(url) */
    method Get(url: string, now: int) returns (r: Option<Bytes>)
      requires Valid()
      modifies this`ram, this`disk
      ensures Valid()
      ensures (r, ram, disk) == CacheGet(old(ram), old(disk), dir, md5(url), now, maxRamCacheSize)
    {
      var key := md5(url);
      CacheGetSpec(ram, disk, dir, key, now, maxRamCacheSize);
      if key in ram.entries {
        var cached := ram.entries[key];
        ram := StorePut(ram, key, cached.(lastAccess := now), RamSize);
        return Some(cached.buffer);
      }
      var diskData := GetFromDisk(key, now);
      if diskData.Some? {
        var _ := AddToRamCache(key, diskData.value.0, diskData.value.1, now);
        return Some(diskData.value.0);
      }
      return None;
    }

    /** set(url, buffer, contentType) */
    method Set(url: string, buffer: Bytes, contentType: string, now: int) returns (ok: bool)
      requires Valid()
      modifies this`ram, this`disk, this`dir
      ensures Valid() && ok
      ensures (ram, disk, dir) == CacheSet(diskCachePath, old(ram), old(disk), old(dir), md5(url), url, buffer, contentType,
                                           now, maxRamCacheSize, maxDiskCacheSize)
    {
      var key := md5(url);
      ghost var ram0, disk0, dir0 := ram, disk, dir;
      var _ := AddToRamCache(key, buffer, contentType, now);
      ghost var ram1 := ram;
      var _ := AddToDiskCache(key, url, buffer, contentType, now);
      assert ram == ram1;
      assert (ram, disk, dir) == CacheSet(diskCachePath, ram0, disk0, dir0, key, url, buffer, contentType,
                                          now, maxRamCacheSize, maxDiskCacheSize);
      return true;
    }

    /** _addToRamCache(key, buffer, contentType), with the replaced entry's
        size taken off the counter. */
    method AddToRamCache(key: string, buffer: Bytes, contentType: string, now: int) returns (added: bool)
      requires RamOk(ram)
      modifies this`ram
      ensures RamOk(ram)
      ensures (added, ram) == RamAdd(old(ram), key, buffer, contentType, now, maxRamCacheSize)
    {
      RamAddSpec(ram, key, buffer, contentType, now, maxRamCacheSize);
      var size := |buffer|;
      if size > maxRamCacheSize {
        return false;
      }
      EvictRamCache(size);
      ram := StorePut(ram, key, RamEntry(buffer, contentType, size, now), RamSize);
      return true;
    }

    /** _evictRamCache(requiredSize) */
    method EvictRamCache(required: int)
      requires RamOk(ram)
      modifies this`ram
      ensures RamOk(ram)
      ensures ram == Evicted(old(ram), required, maxRamCacheSize, RamSize, RamStamp)
    {
      RamEvictedOk(ram, required, maxRamCacheSize);
      var _, r, _ := EvictTier(ram, required, maxRamCacheSize, RamSize, RamStamp, NoFile, map[]);
      ram := r;
    }

    /** _addToDiskCache(key, url, buffer, contentType), with the replaced
        entry's size taken off the counter. */
    method AddToDiskCache(key: string, url: string, buffer: Bytes, contentType: string, now: int) returns (added: bool)
      requires DiskTierOk(diskCachePath, disk, dir)
      modifies this`disk, this`dir
      ensures DiskTierOk(diskCachePath, disk, dir)
      ensures (added, disk, dir) == DiskAdd(diskCachePath, old(disk), old(dir), key, url, buffer, contentType, now, maxDiskCacheSize)
    {
      DiskAddOk(diskCachePath, disk, dir, key, url, buffer, contentType, now, maxDiskCacheSize);
      if diskCachePath.None? {
        return false;
      }
      var size := |buffer|;
      if size > maxDiskCacheSize {
        return false;
      }
      EvictDiskCache(size);
      ghost var e, d1 := disk, dir;
      var filePath := JoinPath(diskCachePath.value, key + ExtFromContentType(contentType));
      var meta := DiskMeta(url, filePath, contentType, size, now, now);
      dir := dir.(files := dir.files[filePath := buffer]);
      StorePutKept(disk, key, meta, DiskSize);
      disk := StorePut(disk, key, meta, DiskSize);
      SaveDiskCacheMetadata();
      assert (disk, dir) == DiskWrite(diskCachePath.value, e, d1, key, url, buffer, contentType, now);
      return true;
    }

    /** _getFromDisk(key) */
    method GetFromDisk(key: string, now: int) returns (r: Option<(Bytes, string)>)
      requires DiskTierOk(diskCachePath, disk, dir)
      modifies this`disk
      ensures DiskTierOk(diskCachePath, disk, dir)
      ensures (r, disk) == DiskGet(old(disk), dir, key, now)
    {
      DiskGetSpec(disk, dir, key, now);
      if key !in disk.entries {
        return None;
      }
      var meta := disk.entries[key];
      if meta.filePath !in dir.files {
        disk := StoreDelete(disk, key, DiskSize);
        return None;
      }
      var buffer := dir.files[meta.filePath];
      disk := StorePut(disk, key, meta.(lastAccess := now), DiskSize);
      return Some((buffer, meta.contentType));
    }

    /** _evictDiskCache(requiredSize) */
    method EvictDiskCache(required: int)
      requires DiskTierOk(diskCachePath, disk, dir)
      modifies this`disk, this`dir
      ensures DiskTierOk(diskCachePath, disk, dir)
      ensures (disk, dir) == DiskEvict(diskCachePath, old(disk), old(dir), required, maxDiskCacheSize)
    {
      DiskEvictOk(diskCachePath, disk, dir, required, maxDiskCacheSize);
      ghost var s0 := disk;
      var swept, r, files := EvictTier(disk, required, maxDiskCacheSize, DiskSize, DiskStamp, DiskFile, dir.files);
      if !swept {
        return;
      }
      assert DiskOk(r) by {
        EvictedKept(s0, required, maxDiskCacheSize, DiskSize, DiskStamp);
      }
      disk := r;
      dir := dir.(files := files);
      SaveDiskCacheMetadata();
    }

    /** delete(url) */
    method Delete(url: string)
      requires Valid()
      modifies this`ram, this`disk, this`dir
      ensures Valid() && !Has(url)
      ensures (ram, disk, dir) == CacheDelete(diskCachePath, old(ram), old(disk), old(dir), md5(url))
    {
      var key := md5(url);
      CacheDeleteSpec(diskCachePath, ram, disk, dir, key);
      ram := StoreDelete(ram, key, RamSize);
      if key in disk.entries {
        var meta := disk.entries[key];
        dir := dir.(files := dir.files - {meta.filePath});
        StoreDeleteKept(disk, key, DiskSize);
        disk := StoreDelete(disk, key, DiskSize);
        SaveDiskCacheMetadata();
      }
    }

    /** clear() */
    method Clear()
      requires Valid()
      modifies this`ram, this`disk, this`dir
      ensures Valid()
      ensures ram == Empty() && disk == Empty()
      ensures dir == Cleared(diskCachePath, old(disk), old(dir))
    {
      ram := Empty();
      var files := UnlinkAll(disk.order, disk.entries, dir.files);
      dir := dir.(files := files);
      disk := Empty();
      assert SizeSum([], SizeAt(map[], RamSize)) == 0;
      assert SizeSum([], SizeAt(map[], DiskSize)) == 0;
      SaveDiskCacheMetadata();
    }

    /** getStats(), without the formatted strings and percentages. */
    function GetStats(): CacheStats
      reads this
    {
      CacheStats(TierStats(|ram.entries|, ram.size, maxRamCacheSize),
                 TierStats(|disk.entries|, disk.size, maxDiskCacheSize))
    }

    /** The entry counts getStats() reports are the number of keys in each
        tier's order. */
    lemma StatsCount()
      requires Valid()
      ensures GetStats().ram.entries == |ram.order| && GetStats().disk.entries == |disk.order|
    {
      KeptCount(ram, RamSize);
      KeptCount(disk, DiskSize);
    }

    /** setMaxDiskCacheSize(sizeInBytes) */
    method SetMaxDiskCacheSize(sizeInBytes: int)
      requires Valid()
      modifies this`maxDiskCacheSize, this`disk, this`dir
      ensures Valid()
      ensures maxDiskCacheSize == sizeInBytes
      ensures (disk, dir) == DiskEvict(diskCachePath, old(disk), old(dir), 0, sizeInBytes)
    {
      maxDiskCacheSize := sizeInBytes;
      if disk.size > maxDiskCacheSize {
        EvictDiskCache(0);
      }
    }

    /** setMaxRamCacheSize(sizeInBytes) */
    method SetMaxRamCacheSize(sizeInBytes: int)
      requires Valid()
      modifies this`maxRamCacheSize, this`ram
      ensures Valid()
      ensures maxRamCacheSize == sizeInBytes
      ensures ram == Evicted(old(ram), 0, sizeInBytes, RamSize, RamStamp)
    {
      maxRamCacheSize := sizeInBytes;
      if ram.size > maxRamCacheSize {
        EvictRamCache(0);
      } else {
        assert ram == Evicted(ram, 0, sizeInBytes, RamSize, RamStamp) by {
          RamEvictedOk(ram, 0, sizeInBytes);
        }
      }
    }
  }
}
