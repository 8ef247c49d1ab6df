/**
 * Resumable, chunked, hash-verified download of one file
 * (src/logic/other/download.js).
 *
 * A file of `totalSize` bytes is cut into CHUNK_SIZE pieces.  Each piece is
 * fetched with an HTTP Range request into its own temporary file; the list
 * of finished pieces is persisted in a state file so that a later run can
 * resume; the pieces are finally concatenated in index order and the result
 * is accepted only when its SHA-256 equals the expected hash.
 *
 * The temporary directory and the output directory are the maps of a
 * `TempDir` object; the network is a function from (batch, chunk id,
 * attempt number) to the outcome of that attempt; SHA-256 is a function
 * parameter.
 */
module Download {
  import opened Common

  const CHUNK_SIZE: nat := 4 * 1024 * 1024
  const PARALLEL_CHUNKS: nat := 5
  const DEFAULT_RETRIES: nat := 3
  const RETRY_DELAY_MS: nat := 1000

  // ---------------------------------------------------------------------
  // File names
  // ---------------------------------------------------------------------

  predicate IsSafeChar(c: char) {
    ('a' <= c <= 'z') || ('A' <= c <= 'Z') || ('0' <= c <= '9') || c == '.' || c == '_' || c == '-'
  }

  /** getSafeFileName: every UTF-16 code unit outside [a-zA-Z0-9._-] becomes
      '_' (the regular expression has no `u` flag, so a character outside the
      Basic Multilingual Plane becomes two underscores). */
  function SafeFileName(key: string): (r: string)
    ensures |r| == Utf16Length(key)
    ensures forall i :: 0 <= i < |r| ==> IsSafeChar(r[i])
  {
    if key == [] then []
    else
      (if IsSafeChar(key[0]) then [key[0]] else if key[0] as int > 0xFFFF then "__" else "_")
      + SafeFileName(key[1..])
  }

  /** Each code unit is replaced on its own: the safe name of a
      concatenation is the concatenation of the safe names. */
  lemma {:induction false} SafeFileNameConcat(a: string, b: string)
    ensures SafeFileName(a + b) == SafeFileName(a) + SafeFileName(b)
    decreases |a|
  {
    if a == [] {
      assert a + b == b;
    } else {
      assert (a + b)[0] == a[0] && (a + b)[1..] == a[1..] + b;
      SafeFileNameConcat(a[1..], b);
    }
  }

  /** One character: a safe one is kept, any other becomes one '_' per
      UTF-16 code unit. */
  lemma SafeFileNameChar(c: char)
    ensures IsSafeChar(c) ==> SafeFileName([c]) == [c]
    ensures !IsSafeChar(c) && c as int <= 0xFFFF ==> SafeFileName([c]) == "_"
    ensures !IsSafeChar(c) && c as int > 0xFFFF ==> SafeFileName([c]) == "__"
  {
    assert [c][1..] == [];
  }

  /** For a key inside the Basic Multilingual Plane the safe name keeps
      every safe character in place and puts '_' at every other position. */
  lemma {:induction false} SafeFileNameInPlace(key: string)
    requires forall i :: 0 <= i < |key| ==> key[i] as int <= 0xFFFF
    ensures |SafeFileName(key)| == |key|
    ensures forall i :: 0 <= i < |key| ==>
      SafeFileName(key)[i] == if IsSafeChar(key[i]) then key[i] else '_'
    decreases |key|
  {
    if key != [] {
      SafeFileNameInPlace(key[1..]);
      var head := if IsSafeChar(key[0]) then [key[0]] else "_";
      assert SafeFileName(key) == head + SafeFileName(key[1..]);
      forall i | 0 <= i < |key|
        ensures SafeFileName(key)[i] == if IsSafeChar(key[i]) then key[i] else '_'
      {
        if i > 0 {
          assert key[i] == key[1..][i - 1];
        }
      }
    }
  }

  /** A key that is already safe is its own safe name. */
  lemma {:induction false} SafeFileNameKeepsSafeKeys(key: string)
    requires forall i :: 0 <= i < |key| ==> IsSafeChar(key[i])
    ensures SafeFileName(key) == key
    decreases |key|
  {
    if key != [] {
      SafeFileNameKeepsSafeKeys(key[1..]);
    }
  }

  /** Files of the temporary directory `downloads/.temp`: the piece
      `<safe>.chunk<i>`; the state file `<safe>.state.json` is keyed by the
      safe name alone. */
  datatype ChunkPath = ChunkPath(safeName: string, index: nat)

  /** What the state file holds once parsed; a field missing from the JSON
      is None. */
  datatype PersistedState = PersistedState(
    fileKey: string,
    expectedHash: Option<string>,
    totalSize: int,
    completed: Option<seq<int>>)

  datatype StateContent = Parsed(data: PersistedState) | Corrupt

  /** The file-system part the downloader touches. */
  class TempDir {
    var chunkFiles: map<ChunkPath, Bytes>
    var stateFiles: map<string, StateContent>
    var outputs: map<string, Bytes>

    constructor()
      ensures chunkFiles == map[] && stateFiles == map[] && outputs == map[]
    {
      chunkFiles := map[];
      stateFiles := map[];
      outputs := map[];
    }
  }

  // ---------------------------------------------------------------------
  // The chunk plan
  // ---------------------------------------------------------------------

  datatype Chunk = Chunk(id: nat, start: int, end: int, downloaded: bool, tempFile: ChunkPath)

  /** Math.ceil(totalSize / CHUNK_SIZE). */
  function ChunkCount(totalSize: nat): nat {
    (totalSize + CHUNK_SIZE - 1) / CHUNK_SIZE
  }

  /** The i-th piece as the constructor lays it out. */
  function PlannedChunk(safeName: string, totalSize: nat, i: nat): Chunk {
    Chunk(i, i * CHUNK_SIZE, Min(i * CHUNK_SIZE + CHUNK_SIZE - 1, totalSize - 1), false, ChunkPath(safeName, i))
  }

  function ChunkLength(c: Chunk): int { c.end - c.start + 1 }

  /** The number of pieces is the ceiling of size / CHUNK_SIZE. */
  lemma ChunkCountIsCeiling(totalSize: nat)
    ensures ChunkCount(totalSize) * CHUNK_SIZE >= totalSize
    ensures ChunkCount(totalSize) == 0 || (ChunkCount(totalSize) - 1) * CHUNK_SIZE < totalSize
    ensures ChunkCount(totalSize) == 0 <==> totalSize == 0
  {
    var n := ChunkCount(totalSize);
    var q := totalSize + CHUNK_SIZE - 1;
    assert q == n * CHUNK_SIZE + q % CHUNK_SIZE;
  }

  /** Every piece is a non-empty range inside the file, at most CHUNK_SIZE
      long; all but the last are exactly CHUNK_SIZE long and are followed
      immediately by the next one; the last one ends at the last byte. */
  lemma PlanShape(safeName: string, totalSize: nat, i: nat)
    requires i < ChunkCount(totalSize)
    ensures var c := PlannedChunk(safeName, totalSize, i);
      && 0 <= c.start <= c.end < totalSize
      && ChunkLength(c) <= CHUNK_SIZE
      && (i + 1 < ChunkCount(totalSize) ==>
            ChunkLength(c) == CHUNK_SIZE && PlannedChunk(safeName, totalSize, i + 1).start == c.end + 1)
      && (i + 1 == ChunkCount(totalSize) ==> c.end == totalSize - 1)
  {
    ChunkCountIsCeiling(totalSize);
    var n := ChunkCount(totalSize);
    assert i * CHUNK_SIZE <= (n - 1) * CHUNK_SIZE;
    if i + 1 < n {
      assert (i + 1) * CHUNK_SIZE <= (n - 1) * CHUNK_SIZE;
    }
    if i + 1 == n {
      assert (i + 1) * CHUNK_SIZE >= totalSize;
    }
  }

  /** Each byte of the file lies in exactly one piece: the one numbered
      byte / CHUNK_SIZE. */
  lemma ByteInExactlyOneChunk(safeName: string, totalSize: nat, b: int, i: nat)
    requires 0 <= b < totalSize && i < ChunkCount(totalSize)
    ensures var c := PlannedChunk(safeName, totalSize, i);
      c.start <= b <= c.end <==> i == b / CHUNK_SIZE
  {
    var q := b / CHUNK_SIZE;
    assert b == q * CHUNK_SIZE + b % CHUNK_SIZE;
    if i < q {
      assert i * CHUNK_SIZE + CHUNK_SIZE <= q * CHUNK_SIZE;
    } else if i > q {
      assert i * CHUNK_SIZE >= q * CHUNK_SIZE + CHUNK_SIZE;
    }
  }

  function PlanLengthUpTo(safeName: string, totalSize: nat, k: nat): int
    requires k <= ChunkCount(totalSize)
  {
    if k == 0 then 0 else PlanLengthUpTo(safeName, totalSize, k - 1) + ChunkLength(PlannedChunk(safeName, totalSize, k - 1))
  }

  /** The pieces' lengths add up to the file size. */
  lemma {:induction false} PlanCoversFile(safeName: string, totalSize: nat)
    ensures PlanLengthUpTo(safeName, totalSize, ChunkCount(totalSize)) == totalSize
  {
    var n := ChunkCount(totalSize);
    var k := 0;
    while k < n
      invariant 0 <= k <= n
      invariant PlanLengthUpTo(safeName, totalSize, k) == (if k == n then totalSize else k * CHUNK_SIZE)
    {
      PlanShape(safeName, totalSize, k);
      k := k + 1;
    }
  }

  // ---------------------------------------------------------------------
  // Helpers on chunk lists
  // ---------------------------------------------------------------------

  /** Chunks not downloaded yet, in order. */
  function Pending(cs: seq<Chunk>): (r: seq<Chunk>)
    ensures |r| <= |cs|
    ensures forall c :: c in r <==> c in cs && !c.downloaded
  {
    if cs == [] then []
    else
      var rest := Pending(cs[1..]);
      assert forall c :: c in rest ==> c in cs[1..];
      (if cs[0].downloaded then [] else [cs[0]]) + rest
  }

  predicate IdsIncreasing(cs: seq<Chunk>) {
    forall i, j :: 0 <= i < j < |cs| ==> cs[i].id < cs[j].id
  }

  /** Filtering keeps the chunks in their original (id) order. */
  lemma {:induction false} PendingIncreasing(cs: seq<Chunk>)
    requires IdsIncreasing(cs)
    ensures IdsIncreasing(Pending(cs))
  {
    if cs != [] {
      var rest := Pending(cs[1..]);
      PendingIncreasing(cs[1..]);
      forall c | c in rest ensures cs[0].id < c.id {
        var m :| 0 <= m < |cs[1..]| && cs[1..][m] == c;
        assert cs[m + 1] == c;
      }
    }
  }

  /** completed.push(id) unless already present. */
  function AddOnce(s: seq<int>, x: int): (r: seq<int>)
    ensures x in r
    ensures forall y :: y in r <==> y in s || y == x
    ensures NoDuplicates(s) ==> NoDuplicates(r)
    ensures s <= r
  {
    if x in s then s else s + [x]
  }

  function TempFilesUpTo(cs: seq<Chunk>, k: nat): set<ChunkPath>
    requires k <= |cs|
  {
    set i | 0 <= i < k :: cs[i].tempFile
  }

  /** The chunks after resuming: a chunk becomes downloaded when its id is
      listed as completed and its temporary file exists; none is reset. */
  function Restore(cs: seq<Chunk>, completed: seq<int>, files: map<ChunkPath, Bytes>): seq<Chunk> {
    seq(|cs|, i requires 0 <= i < |cs| =>
      cs[i].(downloaded := cs[i].downloaded || (cs[i].id in completed && cs[i].tempFile in files)))
  }

  /** The first chunk whose temporary file is missing. */
  function FirstMissing(cs: seq<Chunk>, files: map<ChunkPath, Bytes>): (r: Option<nat>)
    ensures r.Some? ==> r.value < |cs| && cs[r.value].tempFile !in files
    ensures forall i :: 0 <= i < |cs| && (r.None? || i < r.value) ==> cs[i].tempFile in files
  {
    if cs == [] then None
    else if cs[0].tempFile !in files then Some(0)
    else match FirstMissing(cs[1..], files)
      case None => None
      case Some(k) => Some(k + 1)
  }

  /** The pieces' contents written one after the other. */
  function Concat(cs: seq<Chunk>, files: map<ChunkPath, Bytes>): Bytes
    requires forall i :: 0 <= i < |cs| ==> cs[i].tempFile in files
  {
    if cs == [] then [] else Concat(cs[..|cs| - 1], files) + files[cs[|cs| - 1].tempFile]
  }

  /** The chunk list has the constructor's layout; only the `downloaded`
      flags may differ. */
  predicate LaidOut(safeName: string, totalSize: nat, cs: seq<Chunk>) {
    && |cs| == ChunkCount(totalSize)
    && forall i :: 0 <= i < |cs| ==> cs[i] == PlannedChunk(safeName, totalSize, i).(downloaded := cs[i].downloaded)
  }

  /** Every piece file exists and has its piece's length. */
  predicate PiecesOnDisk(cs: seq<Chunk>, files: map<ChunkPath, Bytes>) {
    forall i :: 0 <= i < |cs| ==> cs[i].tempFile in files && |files[cs[i].tempFile]| == ChunkLength(cs[i])
  }

  lemma {:induction false} ConcatPrefix(cs: seq<Chunk>, files: map<ChunkPath, Bytes>, k: nat, m: nat)
    requires k <= m <= |cs|
    requires forall i :: 0 <= i < |cs| ==> cs[i].tempFile in files
    ensures Concat(cs[..k], files) <= Concat(cs[..m], files)
    decreases m - k
  {
    if k < m {
      ConcatPrefix(cs, files, k, m - 1);
      assert cs[..m][..m - 1] == cs[..m - 1];
    }
  }

  lemma {:induction false} ConcatLength(safeName: string, totalSize: nat, cs: seq<Chunk>, files: map<ChunkPath, Bytes>, k: nat)
    requires LaidOut(safeName, totalSize, cs) && PiecesOnDisk(cs, files) && k <= |cs|
    ensures |Concat(cs[..k], files)| == (if k == |cs| then totalSize else k * CHUNK_SIZE)
  {
    if k == 0 {
      ChunkCountIsCeiling(totalSize);
    } else {
      ConcatLength(safeName, totalSize, cs, files, k - 1);
      assert cs[..k][..k - 1] == cs[..k - 1];
      PlanShape(safeName, totalSize, k - 1);
    }
  }

  /** With every piece file of its planned length, the merged file has
      exactly the file's size, and the bytes from a piece's start to its end
      are that piece's file. */
  lemma MergedLayout(safeName: string, totalSize: nat, cs: seq<Chunk>, files: map<ChunkPath, Bytes>, i: nat)
    requires LaidOut(safeName, totalSize, cs) && PiecesOnDisk(cs, files) && i < |cs|
    ensures |Concat(cs, files)| == totalSize
    ensures cs[i].end < totalSize
    ensures Concat(cs, files)[cs[i].start..cs[i].end + 1] == files[cs[i].tempFile]
  {
    assert cs[..|cs|] == cs;
    ConcatLength(safeName, totalSize, cs, files, |cs|);
    ConcatLength(safeName, totalSize, cs, files, i);
    PlanShape(safeName, totalSize, i);
    ConcatPrefix(cs, files, i + 1, |cs|);
    assert cs[..i + 1][..i] == cs[..i];
    var pre := Concat(cs[..i], files);
    var piece := files[cs[i].tempFile];
    assert Concat(cs[..i + 1], files) == pre + piece;
    assert |pre| == cs[i].start;
  }

  function TakePending(cs: seq<Chunk>, count: nat): seq<Chunk> {
    var p := Pending(cs);
    if |p| <= count then p else p[..count]
  }

  lemma TakePendingFacts(cs: seq<Chunk>, count: nat)
    requires IdsIncreasing(cs)
    ensures var r := TakePending(cs, count);
      && |r| <= count
      && (forall c :: c in r ==> c in cs && !c.downloaded)
      && IdsIncreasing(r)
  {
    PendingIncreasing(cs);
    var r := TakePending(cs, count);
    assert r <= Pending(cs);
  }

  /** A non-empty request comes back empty exactly when every piece is in. */
  lemma TakePendingEmpty(cs: seq<Chunk>, count: nat)
    ensures count > 0 ==>
      (TakePending(cs, count) == [] <==> forall i :: 0 <= i < |cs| ==> cs[i].downloaded)
  {
    var p := Pending(cs);
    if p == [] {
      forall i | 0 <= i < |cs| ensures cs[i].downloaded {
        assert cs[i] in cs;
      }
    } else {
      assert p[0] in p;
      var m :| 0 <= m < |cs| && cs[m] == p[0];
      assert !cs[m].downloaded;
    }
  }

  /** A pending chunk is left out only when the batch is full of earlier ones. */
  lemma TakePendingSkipped(cs: seq<Chunk>, count: nat)
    requires IdsIncreasing(cs)
    ensures var r := TakePending(cs, count);
      forall c :: c in cs && !c.downloaded && c !in r ==>
        |r| == count && forall d :: d in r ==> d.id < c.id
  {
    var p := Pending(cs);
    PendingIncreasing(cs);
    var r := TakePending(cs, count);
    forall c | c in cs && !c.downloaded && c !in r
      ensures |r| == count && forall d :: d in r ==> d.id < c.id
    {
      assert c in p;
      var m :| 0 <= m < |p| && p[m] == c;
      assert m >= count;
      forall d | d in r ensures d.id < c.id {
        var j :| 0 <= j < |r| && r[j] == d;
        assert p[j] == d;
      }
    }
  }

  /** Every piece is in. */
  predicate AllDownloaded(cs: seq<Chunk>) {
    forall i :: 0 <= i < |cs| ==> cs[i].downloaded
  }

  /** Every piece flagged downloaded has its file on disk. */
  predicate Backed(cs: seq<Chunk>, files: map<ChunkPath, Bytes>) {
    forall i :: 0 <= i < |cs| && cs[i].downloaded ==> cs[i].tempFile in files
  }

  /** Every piece flagged downloaded is listed among the completed ids. */
  predicate Listed(cs: seq<Chunk>, completed: seq<int>) {
    forall i :: 0 <= i < |cs| && cs[i].downloaded ==> cs[i].id in completed
  }

  /** The number of pieces flagged downloaded. */
  function DownloadedCount(cs: seq<Chunk>): nat {
    if cs == [] then 0
    else DownloadedCount(cs[..|cs| - 1]) + (if cs[|cs| - 1].downloaded then 1 else 0)
  }

  ghost function DownloadedIds(cs: seq<Chunk>): set<int> {
    set i | 0 <= i < |cs| && cs[i].downloaded :: cs[i].id
  }

  lemma {:induction false} DownloadedCountIsCard(cs: seq<Chunk>)
    requires forall i :: 0 <= i < |cs| ==> cs[i].id == i
    ensures DownloadedCount(cs) == |DownloadedIds(cs)|
  {
    if cs != [] {
      var n := |cs| - 1;
      var init := cs[..n];
      DownloadedCountIsCard(init);
      assert n !in DownloadedIds(init);
      assert DownloadedIds(cs) == DownloadedIds(init) + (if cs[n].downloaded then {n} else {});
    }
  }

  lemma {:induction false} ElementsBound(s: seq<int>)
    ensures |set y | y in s| <= |s|
  {
    if s != [] {
      var n := |s| - 1;
      ElementsBound(s[..n]);
      assert (set y | y in s) == (set y | y in s[..n]) + {s[n]} by {
        assert s == s[..n] + [s[n]];
      }
    }
  }

  lemma SubsetBound(a: set<int>, b: set<int>)
    requires a <= b
    ensures |a| <= |b|
  {
    assert b == a + (b - a);
  }

  /** When every downloaded piece is listed, the listed count bounds the
      pieces actually in. */
  lemma ProgressBound(cs: seq<Chunk>, completed: seq<int>)
    requires forall i :: 0 <= i < |cs| ==> cs[i].id == i
    requires Listed(cs, completed)
    ensures DownloadedCount(cs) <= |completed|
  {
    DownloadedCountIsCard(cs);
    ElementsBound(completed);
    SubsetBound(DownloadedIds(cs), set y | y in completed);
  }

  /** Resuming a fresh plan flags only listed pieces whose files exist. */
  lemma RestoreListedBacked(cs: seq<Chunk>, completed: seq<int>, files: map<ChunkPath, Bytes>)
    requires forall i :: 0 <= i < |cs| ==> !cs[i].downloaded
    ensures Listed(Restore(cs, completed, files), completed)
    ensures Backed(Restore(cs, completed, files), files)
  {
  }

  // ---------------------------------------------------------------------
  // Download state
  // ---------------------------------------------------------------------

  class DownloadState {
    const fileKey: string
    const totalSize: nat
    const expectedHash: string
    var chunks: seq<Chunk>
    var completed: seq<int>

    /** Name of the state file and prefix of the piece files. */
    function StateKey(): string {
      SafeFileName(fileKey)
    }

    /** The chunk list keeps the constructor's layout; only the
        `downloaded` flags change. */
    predicate Valid()
      reads this
    {
      LaidOut(StateKey(), totalSize, chunks)
    }

    predicate IsComplete()
      reads this
    {
      AllDownloaded(chunks)
    }

    /** What saveState writes (the timestamp is not modelled). */
    function Snapshot(): PersistedState
      reads this
    {
      PersistedState(fileKey, Some(expectedHash), totalSize, Some(completed))
    }

    constructor(fileKey: string, size: nat, hash: string)
      ensures this.fileKey == fileKey && totalSize == size && expectedHash == hash
      ensures Valid() && completed == []
      ensures forall i :: 0 <= i < |chunks| ==> !chunks[i].downloaded
    {
      this.fileKey := fileKey;
      totalSize := size;
      expectedHash := hash;
      var name := SafeFileName(fileKey);
      var n := ChunkCount(size);
      var cs: seq<Chunk> := [];
      var i := 0;
      while i < n
        invariant 0 <= i <= n && |cs| == i
        invariant forall k :: 0 <= k < i ==> cs[k] == PlannedChunk(name, size, k)
      {
        cs := cs + [PlannedChunk(name, size, i)];
        i := i + 1;
      }
      chunks := cs;
      completed := [];
    }

    /** getNextChunks(count): the first `count` pieces still to fetch. */
    function GetNextChunks(count: nat): (r: seq<Chunk>)
      requires Valid()
      reads this
      ensures |r| <= count
      ensures forall c :: c in r ==> c in chunks && !c.downloaded
      ensures IdsIncreasing(r)
      ensures count > 0 ==> (r == [] <==> IsComplete())
      ensures forall c :: c in chunks && !c.downloaded && c !in r ==>
                |r| == count && forall d :: d in r ==> d.id < c.id
    {
      TakePendingFacts(chunks, count);
      TakePendingEmpty(chunks, count);
      TakePendingSkipped(chunks, count);
      TakePending(chunks, count)
    }

    /** getProgress without the percentage: the count is that of the
        completed list, which bounds the pieces actually in as long as every
        one of them is listed (after a resume it may exceed them, see
        ProgressOverCount). */
    function GetProgress(): (r: (nat, nat))
      reads this
      ensures r.1 == |chunks|
      ensures r.0 == |completed|
      ensures Valid() && Listed(chunks, completed) ==> DownloadedCount(chunks) <= r.0
    {
      if Valid() && Listed(chunks, completed) then
        ProgressBound(chunks, completed);
        (|completed|, |chunks|)
      else
        (|completed|, |chunks|)
    }

    /** clearState: removes this download's piece files and its state file
        and empties `completed`; `downloaded` flags are left as they are. */
    method ClearState(dir: TempDir)
      modifies this`completed, dir`chunkFiles, dir`stateFiles
      ensures completed == []
      ensures dir.chunkFiles == old(dir.chunkFiles) - TempFilesUpTo(chunks, |chunks|)
      ensures dir.stateFiles == old(dir.stateFiles) - {StateKey()}
    {
      var i := 0;
      while i < |chunks|
        invariant 0 <= i <= |chunks|
        invariant dir.chunkFiles == old(dir.chunkFiles) - TempFilesUpTo(chunks, i)
        invariant dir.stateFiles == old(dir.stateFiles)
      {
        var f := chunks[i].tempFile;
        if f in dir.chunkFiles {
          dir.chunkFiles := dir.chunkFiles - {f};
        }
        assert TempFilesUpTo(chunks, i + 1) == TempFilesUpTo(chunks, i) + {f};
        i := i + 1;
      }
      if StateKey() in dir.stateFiles {
        dir.stateFiles := dir.stateFiles - {StateKey()};
      }
      completed := [];
    }

    /** loadState: resumes from the state file when it exists, parses and
        was written for the same expected hash; on a different hash or a
        parse failure the download starts over. */
    method LoadState(dir: TempDir) returns (restored: bool)
      requires Valid()
      modifies this`chunks, this`completed, dir`chunkFiles, dir`stateFiles
      ensures Valid()
      ensures StateKey() !in old(dir.stateFiles) ==>
                && !restored && chunks == old(chunks) && completed == old(completed)
                && dir.chunkFiles == old(dir.chunkFiles) && dir.stateFiles == old(dir.stateFiles)
      ensures StateKey() in old(dir.stateFiles) && !SameDownload(old(dir.stateFiles[StateKey()])) ==>
                && !restored && chunks == old(chunks) && completed == []
                && dir.chunkFiles == old(dir.chunkFiles) - TempFilesUpTo(chunks, |chunks|)
                && dir.stateFiles == old(dir.stateFiles) - {StateKey()}
      ensures StateKey() in old(dir.stateFiles) && SameDownload(old(dir.stateFiles[StateKey()])) ==>
                && restored
                && completed == old(dir.stateFiles[StateKey()]).data.completed.GetOr([])
                && chunks == Restore(old(chunks), completed, dir.chunkFiles)
                && dir.chunkFiles == old(dir.chunkFiles) && dir.stateFiles == old(dir.stateFiles)
    {
      if StateKey() !in dir.stateFiles {
        return false;
      }
      var content := dir.stateFiles[StateKey()];
      if !SameDownload(content) {
        ClearState(dir);
        return false;
      }
      completed := content.data.completed.GetOr([]);
      chunks := Restore(chunks, completed, dir.chunkFiles);
      return true;
    }

    /** The state file parsed and names this download's expected hash. */
    predicate SameDownload(content: StateContent) {
      content.Parsed? && content.data.expectedHash == Some(expectedHash)
    }

    /** markComplete(chunkId): flags the piece, records its id once and
        saves the state; an unknown id changes nothing. */
    method MarkComplete(chunkId: int, dir: TempDir)
      requires Valid()
      modifies this`chunks, this`completed, dir`stateFiles
      ensures Valid()
      ensures !(0 <= chunkId < |old(chunks)|) ==>
                chunks == old(chunks) && completed == old(completed) && dir.stateFiles == old(dir.stateFiles)
      ensures 0 <= chunkId < |old(chunks)| ==>
                && chunks == old(chunks)[chunkId := old(chunks)[chunkId].(downloaded := true)]
                && completed == AddOnce(old(completed), chunkId)
                && dir.stateFiles == old(dir.stateFiles)[StateKey() := Parsed(Snapshot())]
      ensures Listed(old(chunks), old(completed)) ==> Listed(chunks, completed)
    {
      // Piece ids are their positions (Valid), so `find` by id is an index.
      if 0 <= chunkId < |chunks| {
        chunks := chunks[chunkId := chunks[chunkId].(downloaded := true)];
        completed := AddOnce(completed, chunkId);
        dir.stateFiles := dir.stateFiles[StateKey() := Parsed(Snapshot())];
      }
    }
  }

  // ---------------------------------------------------------------------
  // Fetching one piece with retries
  // ---------------------------------------------------------------------

  /** One attempt: the balancer refused or the request failed, or the
      piece request answered with a status and a body. */
  datatype Attempt = BalancerRefused | RequestFailed | Response(status: int, body: Bytes, server: string)

  predicate Succeeds(a: Attempt) {
    a.Response? && (a.status == 206 || a.status == 200)
  }

  datatype ChunkOutcome =
    | Fetched(chunkId: nat, size: nat, server: string)
    | GaveUp(chunkId: nat, attempts: nat)
    | NoAttempt   // retries == 0: the loop never runs and nothing is returned

  /** The first attempt number in from..retries that succeeds. */
  function FirstSuccess(attempt: nat -> Attempt, retries: nat, from: nat): (r: Option<nat>)
    ensures r.Some? ==> from <= r.value <= retries && Succeeds(attempt(r.value))
    ensures forall k :: from <= k <= retries && (r.None? || k < r.value) ==> !Succeeds(attempt(k))
    decreases retries + 1 - from
  {
    if from > retries then None
    else if Succeeds(attempt(from)) then Some(from)
    else FirstSuccess(attempt, retries, from + 1)
  }

  /** The pauses after failed attempts 1..failures: 1000 ms times the
      attempt number. */
  function RetryDelays(failures: nat): (r: seq<nat>)
    ensures |r| == failures
    ensures forall k :: 0 <= k < failures ==> r[k] == RETRY_DELAY_MS * (k + 1)
  {
    seq(failures, k requires 0 <= k => RETRY_DELAY_MS * (k + 1))
  }

  function Sum(s: seq<nat>): nat {
    if s == [] then 0 else Sum(s[..|s| - 1]) + s[|s| - 1]
  }

  /** The pauses grow linearly, so n failures cost 500 n (n + 1) ms in
      total; the default three retries wait at most 3 seconds. */
  lemma {:induction false} TotalRetryDelay(n: nat)
    ensures Sum(RetryDelays(n)) == 500 * n * (n + 1)
  {
    if n > 0 {
      TotalRetryDelay(n - 1);
      assert RetryDelays(n)[..n - 1] == RetryDelays(n - 1);
    }
  }

  /** downloadChunk(fileKey, chunk, retries): tries up to `retries` times,
      pausing after each failed attempt but the last; the first successful
      attempt's body is written to the piece file. */
  method DownloadChunk(chunk: Chunk, retries: nat, attempt: nat -> Attempt, dir: TempDir)
    returns (outcome: ChunkOutcome, delays: seq<nat>)
    modifies dir`chunkFiles
    ensures match FirstSuccess(attempt, retries, 1)
      case Some(k) =>
        && outcome == Fetched(chunk.id, |attempt(k).body|, attempt(k).server)
        && delays == RetryDelays(k - 1)
        && dir.chunkFiles == old(dir.chunkFiles)[chunk.tempFile := attempt(k).body]
      case None =>
        && outcome == (if retries == 0 then NoAttempt else GaveUp(chunk.id, retries))
        && delays == RetryDelays(if retries == 0 then 0 else retries - 1)
        && dir.chunkFiles == old(dir.chunkFiles)
  {
    delays := [];
    var a := 1;
    while a <= retries
      invariant 1 <= a <= retries + 1
      invariant retries > 0 ==> a <= retries
      invariant FirstSuccess(attempt, retries, 1) == FirstSuccess(attempt, retries, a)
      invariant delays == RetryDelays(a - 1)
      invariant dir.chunkFiles == old(dir.chunkFiles)
    {
      var r := attempt(a);
      if Succeeds(r) {
        dir.chunkFiles := dir.chunkFiles[chunk.tempFile := r.body];
        return Fetched(chunk.id, |r.body|, r.server), delays;
      }
      if a == retries {
        return GaveUp(chunk.id, retries), delays;
      }
      delays := delays + [RETRY_DELAY_MS * a];
      a := a + 1;
    }
    outcome := NoAttempt;
  }

  // ---------------------------------------------------------------------
  // Merging and the whole download
  // ---------------------------------------------------------------------

  /** How mergeChunks ends. A hash mismatch is a thrown Error with a fixed
      message: the computed hash is only logged, so the outcome carries no
      data. */
  datatype MergeOutcome = Merged | MissingChunk(index: nat) | HashMismatch

  /** mergeChunks(state, outputPath): writes the pieces in index order to
      the output file, hashing them on the way; a missing piece aborts; the
      temporary files are removed only when the hash matches exactly. */
  method MergeChunks(state: DownloadState, outputPath: string, sha256: Bytes -> string, dir: TempDir)
    returns (r: MergeOutcome)
    modifies state`completed, dir
    ensures state.chunks == old(state.chunks)
    ensures FirstMissing(state.chunks, old(dir.chunkFiles)).Some? ==>
              && r == MissingChunk(FirstMissing(state.chunks, old(dir.chunkFiles)).value)
              && dir.outputs == old(dir.outputs)[outputPath :=
                   Concat(state.chunks[..FirstMissing(state.chunks, old(dir.chunkFiles)).value], old(dir.chunkFiles))]
              && dir.chunkFiles == old(dir.chunkFiles) && dir.stateFiles == old(dir.stateFiles)
              && state.completed == old(state.completed)
    ensures FirstMissing(state.chunks, old(dir.chunkFiles)).None? ==>
              var data := Concat(state.chunks, old(dir.chunkFiles));
              && dir.outputs == old(dir.outputs)[outputPath := data]
              && (sha256(data) == state.expectedHash ==>
                    && r == Merged && state.completed == []
                    && dir.chunkFiles == old(dir.chunkFiles) - TempFilesUpTo(state.chunks, |state.chunks|)
                    && dir.stateFiles == old(dir.stateFiles) - {state.StateKey()})
              && (sha256(data) != state.expectedHash ==>
                    && r == HashMismatch
                    && state.completed == old(state.completed)
                    && dir.chunkFiles == old(dir.chunkFiles) && dir.stateFiles == old(dir.stateFiles))
  {
    var cs := state.chunks;
    var files := dir.chunkFiles;
    ghost var missing := FirstMissing(cs, files);
    dir.outputs := dir.outputs[outputPath := []];
    var written: Bytes := [];
    var i := 0;
    while i < |cs|
      invariant 0 <= i <= |cs|
      invariant missing.None? || i <= missing.value
      invariant written == Concat(cs[..i], files)
      invariant dir.outputs == old(dir.outputs)[outputPath := written]
      invariant dir.chunkFiles == files && dir.stateFiles == old(dir.stateFiles)
      invariant state.completed == old(state.completed)
    {
      if cs[i].tempFile !in files {
        return MissingChunk(i);
      }
      assert cs[..i + 1][..i] == cs[..i];
      written := written + files[cs[i].tempFile];
      dir.outputs := dir.outputs[outputPath := written];
      i := i + 1;
    }
    assert cs[..|cs|] == cs;
    var finalHash := sha256(written);
    if finalHash != state.expectedHash {
      return HashMismatch;
    }
    state.ClearState(dir);
    return Merged;
  }

  datatype FileInfo = FileInfo(size: nat, hash: string)

  datatype DownloadError = FileNotFound | BatchLimitReached | MergeFailed(reason: MergeOutcome)

  /** The default output path `downloads/<basename of the key>`.
      `path.join` also normalises its result, which is not modelled: an
      empty key gives "downloads/" here where the source gives "downloads",
      and a last segment ".." gives "downloads/.." where the source gives
      "."; each pair names the same location. */
  function DefaultOutputPath(fileKey: string): string {
    "downloads/" + LastSegment(StripTrailingSlashes(fileKey))
  }

  /** The attempts at piece `id` in batch `batch`. */
  function NetAttempts(net: (nat, nat, nat) -> Attempt, batch: nat, id: nat): nat -> Attempt {
    (k: nat) => net(batch, id, k)
  }

  /** Some attempt at the piece, within the retry budget, succeeds. */
  predicate PieceFetched(net: (nat, nat, nat) -> Attempt, batch: nat, id: nat) {
    FirstSuccess(NetAttempts(net, batch, id), DEFAULT_RETRIES, 1).Some?
  }

  /** The body of the first successful attempt at the piece; empty when
      every attempt fails. */
  function FetchedBody(net: (nat, nat, nat) -> Attempt, batch: nat, id: nat): Bytes {
    match FirstSuccess(NetAttempts(net, batch, id), DEFAULT_RETRIES, 1)
    case Some(k) => net(batch, id, k).body
    case None => []
  }

  /** The ids of the pieces of a batch that some attempt fetched. */
  function FetchedIds(next: seq<Chunk>, net: (nat, nat, nat) -> Attempt, batch: nat): set<nat> {
    set c | c in next && PieceFetched(net, batch, c.id) :: c.id
  }

  /** The piece files a batch writes: each fetched piece's file holds the
      body of its first successful attempt. */
  function BatchFiles(next: seq<Chunk>, net: (nat, nat, nat) -> Attempt, batch: nat): map<ChunkPath, Bytes> {
    if next == [] then map[]
    else
      var c := next[|next| - 1];
      var written := BatchFiles(next[..|next| - 1], net, batch);
      if PieceFetched(net, batch, c.id) then written[c.tempFile := FetchedBody(net, batch, c.id)] else written
  }

  /** A batch writes exactly the files of its fetched pieces, each holding
      its piece's first successful body. */
  lemma {:induction false} BatchFilesSpec(next: seq<Chunk>, net: (nat, nat, nat) -> Attempt, batch: nat)
    requires forall c :: c in next ==> c.tempFile.index == c.id
    ensures forall c :: c in next && PieceFetched(net, batch, c.id) ==> c.tempFile in BatchFiles(next, net, batch)
    ensures forall p :: p in BatchFiles(next, net, batch) ==>
              && (exists c :: c in next && PieceFetched(net, batch, c.id) && c.tempFile == p)
              && BatchFiles(next, net, batch)[p] == FetchedBody(net, batch, p.index)
  {
    if next != [] {
      var init := next[..|next| - 1];
      assert next == init + [next[|next| - 1]];
      BatchFilesSpec(init, net, batch);
    }
  }

  /** One piece of a batch: fetched with retries, then marked complete.
      Only this piece's flag, its file, the completed list and the state
      file may change, and only when an attempt succeeds. */
  method FetchPiece(state: DownloadState, c: Chunk, batch: nat,
                    net: (nat, nat, nat) -> Attempt, dir: TempDir)
    requires state.Valid()
    requires c.id < |state.chunks| && c.tempFile == ChunkPath(state.StateKey(), c.id)
    modifies state`chunks, state`completed, dir`chunkFiles, dir`stateFiles
    ensures state.Valid()
    ensures |state.chunks| == |old(state.chunks)|
    ensures forall i :: 0 <= i < |state.chunks| ==>
              state.chunks[i].downloaded == (old(state.chunks[i].downloaded) || (i == c.id && PieceFetched(net, batch, c.id)))
    ensures PieceFetched(net, batch, c.id) ==>
              && state.completed == AddOnce(old(state.completed), c.id)
              && dir.chunkFiles == old(dir.chunkFiles)[c.tempFile := FetchedBody(net, batch, c.id)]
              && dir.stateFiles == old(dir.stateFiles)[state.StateKey() := Parsed(state.Snapshot())]
    ensures !PieceFetched(net, batch, c.id) ==>
              && state.completed == old(state.completed)
              && dir.chunkFiles == old(dir.chunkFiles) && dir.stateFiles == old(dir.stateFiles)
  {
    var outcome, _ := DownloadChunk(c, DEFAULT_RETRIES, NetAttempts(net, batch, c.id), dir);
    if outcome.Fetched? {
      state.MarkComplete(outcome.chunkId, dir);
    }
  }

  /** One batch of the download loop: each piece of `next` is fetched and,
      when fetched, marked complete.  The source starts the batch's fetches
      together and waits for all of them; here they run one after the
      other, so the order in which fetched ids join `completed` is one of
      the orders the source allows. */
  method FetchBatch(state: DownloadState, next: seq<Chunk>, batch: nat,
                    net: (nat, nat, nat) -> Attempt, dir: TempDir)
    requires state.Valid()
    requires forall c :: c in next ==> c.id < |state.chunks| && c.tempFile == ChunkPath(state.StateKey(), c.id)
    modifies state`chunks, state`completed, dir`chunkFiles, dir`stateFiles
    ensures state.Valid()
    ensures BatchEffect(old(state.chunks), old(state.completed), old(dir.chunkFiles), old(dir.stateFiles),
                        state.chunks, state.completed, dir.chunkFiles, dir.stateFiles,
                        state.StateKey(), state.Snapshot(), next, net, batch)
  {
    ghost var chunks0, completed0, files0, states0 := state.chunks, state.completed, dir.chunkFiles, dir.stateFiles;
    var j := 0;
    while j < |next|
      invariant 0 <= j <= |next|
      invariant state.Valid()
      invariant BatchEffect(chunks0, completed0, files0, states0,
                            state.chunks, state.completed, dir.chunkFiles, dir.stateFiles,
                            state.StateKey(), state.Snapshot(), next[..j], net, batch)
    {
      var c := next[j];
      ghost var chunksBefore, completedBefore, filesBefore, statesBefore, snapBefore :=
        state.chunks, state.completed, dir.chunkFiles, dir.stateFiles, state.Snapshot();
      FetchPiece(state, c, batch, net, dir);
      BatchEffectStep(chunks0, completed0, files0, states0,
                      chunksBefore, completedBefore, filesBefore, statesBefore, snapBefore,
                      state.chunks, state.completed, dir.chunkFiles, dir.stateFiles, state.Snapshot(),
                      state.StateKey(), next, j, net, batch);
      j := j + 1;
    }
    assert next[..j] == next;
  }

  /** What a batch does, from the flags, completed list, piece files and
      state files before it to those after it: exactly the fetched pieces
      become downloaded and join the completed list (which only grows and
      stays free of repeats), the fetched pieces' files are written, and the
      state file is saved when at least one piece was fetched. */
  ghost predicate BatchEffect(chunks0: seq<Chunk>, completed0: seq<int>,
                              files0: map<ChunkPath, Bytes>, states0: map<string, StateContent>,
                              chunks: seq<Chunk>, completed: seq<int>,
                              files: map<ChunkPath, Bytes>, states: map<string, StateContent>,
                              key: string, snap: PersistedState,
                              next: seq<Chunk>, net: (nat, nat, nat) -> Attempt, batch: nat)
  {
    var fetched := FetchedIds(next, net, batch);
    && |chunks| == |chunks0|
    && (forall i :: 0 <= i < |chunks| ==> chunks[i].downloaded == (chunks0[i].downloaded || i in fetched))
    && completed0 <= completed
    && (forall y :: y in completed <==> y in completed0 || y in fetched)
    && (NoDuplicates(completed0) ==> NoDuplicates(completed))
    && files == files0 + BatchFiles(next, net, batch)
    && (fetched == {} ==> states == states0)
    && (fetched != {} ==> states == states0[key := Parsed(snap)])
  }

  lemma BatchEffectStep(chunks0: seq<Chunk>, completed0: seq<int>,
                        files0: map<ChunkPath, Bytes>, states0: map<string, StateContent>,
                        chunks1: seq<Chunk>, completed1: seq<int>,
                        files1: map<ChunkPath, Bytes>, states1: map<string, StateContent>, snap1: PersistedState,
                        chunks2: seq<Chunk>, completed2: seq<int>,
                        files2: map<ChunkPath, Bytes>, states2: map<string, StateContent>, snap2: PersistedState,
                        key: string, next: seq<Chunk>, j: nat, net: (nat, nat, nat) -> Attempt, batch: nat)
    requires j < |next|
    requires BatchEffect(chunks0, completed0, files0, states0, chunks1, completed1, files1, states1,
                         key, snap1, next[..j], net, batch)
    requires |chunks2| == |chunks1|
    requires forall i :: 0 <= i < |chunks2| ==>
               chunks2[i].downloaded == (chunks1[i].downloaded || (i == next[j].id && PieceFetched(net, batch, next[j].id)))
    requires PieceFetched(net, batch, next[j].id) ==>
               && completed2 == AddOnce(completed1, next[j].id)
               && files2 == files1[next[j].tempFile := FetchedBody(net, batch, next[j].id)]
               && states2 == states1[key := Parsed(snap2)]
    requires !PieceFetched(net, batch, next[j].id) ==>
               completed2 == completed1 && files2 == files1 && states2 == states1 && snap2 == snap1
    ensures BatchEffect(chunks0, completed0, files0, states0, chunks2, completed2, files2, states2,
                        key, snap2, next[..j + 1], net, batch)
  {
    FlagsStep(chunks0, chunks1, chunks2, next, j, net, batch);
    CompletedStep(completed0, completed1, completed2, next, j, net, batch);
    FilesStep(files0, files1, files2, next, j, net, batch);
    StatesStep(states0, states1, states2, key, snap1, snap2, next, j, net, batch);
  }

  lemma IdsStep(next: seq<Chunk>, j: nat, net: (nat, nat, nat) -> Attempt, batch: nat)
    requires j < |next|
    ensures FetchedIds(next[..j + 1], net, batch) ==
              FetchedIds(next[..j], net, batch) + (if PieceFetched(net, batch, next[j].id) then {next[j].id} else {})
  {
    assert next[..j + 1] == next[..j] + [next[j]];
  }

  /** The flags after piece j of a batch. */
  lemma FlagsStep(chunks0: seq<Chunk>, prev: seq<Chunk>, cur: seq<Chunk>, next: seq<Chunk>, j: nat,
                  net: (nat, nat, nat) -> Attempt, batch: nat)
    requires j < |next| && |prev| == |chunks0| && |cur| == |prev|
    requires forall i :: 0 <= i < |prev| ==>
               prev[i].downloaded == (chunks0[i].downloaded || i in FetchedIds(next[..j], net, batch))
    requires forall i :: 0 <= i < |cur| ==>
               cur[i].downloaded == (prev[i].downloaded || (i == next[j].id && PieceFetched(net, batch, next[j].id)))
    ensures forall i :: 0 <= i < |cur| ==>
              cur[i].downloaded == (chunks0[i].downloaded || i in FetchedIds(next[..j + 1], net, batch))
  {
    IdsStep(next, j, net, batch);
  }

  /** The completed list after piece j of a batch. */
  lemma CompletedStep(completed0: seq<int>, prev: seq<int>, cur: seq<int>, next: seq<Chunk>, j: nat,
                      net: (nat, nat, nat) -> Attempt, batch: nat)
    requires j < |next|
    requires completed0 <= prev
    requires forall y :: y in prev <==> y in completed0 || y in FetchedIds(next[..j], net, batch)
    requires NoDuplicates(completed0) ==> NoDuplicates(prev)
    requires PieceFetched(net, batch, next[j].id) ==> cur == AddOnce(prev, next[j].id)
    requires !PieceFetched(net, batch, next[j].id) ==> cur == prev
    ensures completed0 <= cur
    ensures forall y :: y in cur <==> y in completed0 || y in FetchedIds(next[..j + 1], net, batch)
    ensures NoDuplicates(completed0) ==> NoDuplicates(cur)
  {
    IdsStep(next, j, net, batch);
  }

  /** The piece files after piece j of a batch. */
  lemma FilesStep(files0: map<ChunkPath, Bytes>, prev: map<ChunkPath, Bytes>, cur: map<ChunkPath, Bytes>,
                  next: seq<Chunk>, j: nat, net: (nat, nat, nat) -> Attempt, batch: nat)
    requires j < |next|
    requires prev == files0 + BatchFiles(next[..j], net, batch)
    requires PieceFetched(net, batch, next[j].id) ==>
               cur == prev[next[j].tempFile := FetchedBody(net, batch, next[j].id)]
    requires !PieceFetched(net, batch, next[j].id) ==> cur == prev
    ensures cur == files0 + BatchFiles(next[..j + 1], net, batch)
  {
    assert next[..j + 1][..j] == next[..j];
  }

  /** The state files after piece j of a batch. */
  lemma StatesStep(states0: map<string, StateContent>, prev: map<string, StateContent>, cur: map<string, StateContent>,
                   key: string, snapPrev: PersistedState, snapCur: PersistedState,
                   next: seq<Chunk>, j: nat, net: (nat, nat, nat) -> Attempt, batch: nat)
    requires j < |next|
    requires FetchedIds(next[..j], net, batch) == {} ==> prev == states0
    requires FetchedIds(next[..j], net, batch) != {} ==> prev == states0[key := Parsed(snapPrev)]
    requires PieceFetched(net, batch, next[j].id) ==> cur == prev[key := Parsed(snapCur)]
    requires !PieceFetched(net, batch, next[j].id) ==> cur == prev && snapCur == snapPrev
    ensures FetchedIds(next[..j + 1], net, batch) == {} ==> cur == states0
    ensures FetchedIds(next[..j + 1], net, batch) != {} ==> cur == states0[key := Parsed(snapCur)]
  {
    IdsStep(next, j, net, batch);
  }

  /** What the download loop keeps, from the state before it to the state
      after it: no piece loses its flag, the completed list only grows and
      stays free of repeats, no piece file is removed and another
      download's files are untouched, and a flagged piece keeps having its
      file and its id listed. */
  ghost predicate KeepsProgress(chunks0: seq<Chunk>, completed0: seq<int>, files0: map<ChunkPath, Bytes>,
                                chunks: seq<Chunk>, completed: seq<int>, files: map<ChunkPath, Bytes>, key: string)
  {
    && |chunks| == |chunks0|
    && (forall i :: 0 <= i < |chunks| && chunks0[i].downloaded ==> chunks[i].downloaded)
    && completed0 <= completed
    && (NoDuplicates(completed0) ==> NoDuplicates(completed))
    && files0.Keys <= files.Keys
    && (forall p :: p in files0 && p.safeName != key ==> files[p] == files0[p])
    && (Backed(chunks0, files0) ==> Backed(chunks, files))
    && (Listed(chunks0, completed0) ==> Listed(chunks, completed))
  }

  lemma KeepsProgressStep(chunks0: seq<Chunk>, completed0: seq<int>, files0: map<ChunkPath, Bytes>,
                          chunks1: seq<Chunk>, completed1: seq<int>, files1: map<ChunkPath, Bytes>,
                          states1: map<string, StateContent>,
                          chunks2: seq<Chunk>, completed2: seq<int>, files2: map<ChunkPath, Bytes>,
                          states2: map<string, StateContent>, snap2: PersistedState,
                          key: string, next: seq<Chunk>, net: (nat, nat, nat) -> Attempt, batch: nat)
    requires KeepsProgress(chunks0, completed0, files0, chunks1, completed1, files1, key)
    requires BatchEffect(chunks1, completed1, files1, states1, chunks2, completed2, files2, states2,
                         key, snap2, next, net, batch)
    requires Numbered(chunks1, key) && Numbered(chunks2, key)
    requires forall c :: c in next ==> c.tempFile == ChunkPath(key, c.id)
    ensures KeepsProgress(chunks0, completed0, files0, chunks2, completed2, files2, key)
  {
    BatchFilesOwned(next, net, batch, key);
    if Backed(chunks0, files0) {
      BackedStep(chunks1, files1, chunks2, files2, key, next, net, batch);
    }
    if Listed(chunks0, completed0) {
      ListedStep(chunks1, completed1, chunks2, completed2, next, net, batch);
    }
  }

  /** A batch writes only files of its own download. */
  lemma {:induction false} BatchFilesOwned(next: seq<Chunk>, net: (nat, nat, nat) -> Attempt, batch: nat, key: string)
    requires forall c :: c in next ==> c.tempFile == ChunkPath(key, c.id)
    ensures forall p :: p in BatchFiles(next, net, batch) ==> p.safeName == key
  {
    if next != [] {
      var init := next[..|next| - 1];
      assert forall c :: c in init ==> c in next;
      BatchFilesOwned(init, net, batch, key);
    }
  }

  /** Piece i is numbered i and its file is the i-th piece file of `key`. */
  predicate Numbered(cs: seq<Chunk>, key: string) {
    forall i :: 0 <= i < |cs| ==> cs[i].id == i && cs[i].tempFile == ChunkPath(key, i)
  }

  lemma LaidOutNumbered(safeName: string, totalSize: nat, cs: seq<Chunk>)
    requires LaidOut(safeName, totalSize, cs)
    ensures Numbered(cs, safeName)
  {
    forall i | 0 <= i < |cs| ensures cs[i].id == i && cs[i].tempFile == ChunkPath(safeName, i) {
      assert cs[i] == PlannedChunk(safeName, totalSize, i).(downloaded := cs[i].downloaded);
    }
  }

  lemma BackedStep(chunks1: seq<Chunk>, files1: map<ChunkPath, Bytes>,
                   chunks2: seq<Chunk>, files2: map<ChunkPath, Bytes>,
                   key: string, next: seq<Chunk>, net: (nat, nat, nat) -> Attempt, batch: nat)
    requires Backed(chunks1, files1)
    requires Numbered(chunks1, key) && Numbered(chunks2, key) && |chunks2| == |chunks1|
    requires forall c :: c in next ==> c.tempFile == ChunkPath(key, c.id)
    requires forall i :: 0 <= i < |chunks2| ==>
               chunks2[i].downloaded == (chunks1[i].downloaded || i in FetchedIds(next, net, batch))
    requires files2 == files1 + BatchFiles(next, net, batch)
    ensures Backed(chunks2, files2)
  {
    BatchFilesSpec(next, net, batch);
    forall i | 0 <= i < |chunks2| && chunks2[i].downloaded ensures chunks2[i].tempFile in files2 {
      if !chunks1[i].downloaded {
        var c :| c in next && PieceFetched(net, batch, c.id) && c.id == i;
      }
    }
  }

  lemma ListedStep(chunks1: seq<Chunk>, completed1: seq<int>, chunks2: seq<Chunk>, completed2: seq<int>,
                   next: seq<Chunk>, net: (nat, nat, nat) -> Attempt, batch: nat)
    requires Listed(chunks1, completed1)
    requires |chunks2| == |chunks1|
    requires forall i :: 0 <= i < |chunks2| ==> chunks2[i].id == i && chunks1[i].id == i
    requires forall i :: 0 <= i < |chunks2| ==>
               chunks2[i].downloaded == (chunks1[i].downloaded || i in FetchedIds(next, net, batch))
    requires forall y :: y in completed2 <==> y in completed1 || y in FetchedIds(next, net, batch)
    ensures Listed(chunks2, completed2)
  {
  }

  /** The loop `while (!state.isComplete())` of downloadFile, cut off after
      `maxBatches` batches.  The loop stops early only when every piece is
      in: a batch is never empty while a piece is pending, so the source's
      `if (nextChunks.length === 0) break` is never taken. */
  method FetchPending(state: DownloadState, net: (nat, nat, nat) -> Attempt, dir: TempDir, maxBatches: nat)
    returns (complete: bool, batches: nat)
    requires state.Valid()
    modifies state`chunks, state`completed, dir`chunkFiles, dir`stateFiles
    ensures state.Valid()
    ensures complete <==> state.IsComplete()
    ensures batches <= maxBatches
    ensures !complete ==> batches == maxBatches
    ensures KeepsProgress(old(state.chunks), old(state.completed), old(dir.chunkFiles),
                          state.chunks, state.completed, dir.chunkFiles, state.StateKey())
  {
    ghost var chunks0, completed0, files0 := state.chunks, state.completed, dir.chunkFiles;
    batches := 0;
    while !state.IsComplete() && batches < maxBatches
      invariant state.Valid()
      invariant 0 <= batches <= maxBatches
      invariant KeepsProgress(chunks0, completed0, files0, state.chunks, state.completed, dir.chunkFiles, state.StateKey())
      decreases maxBatches - batches
    {
      var next := state.GetNextChunks(PARALLEL_CHUNKS);
      // The source breaks out on an empty batch; that never happens here.
      assert next != [];
      forall c | c in next ensures c.id < |state.chunks| && c.tempFile == ChunkPath(state.StateKey(), c.id) {
        var m :| 0 <= m < |state.chunks| && state.chunks[m] == c;
      }
      ghost var chunks1, completed1, files1, states1 := state.chunks, state.completed, dir.chunkFiles, dir.stateFiles;
      LaidOutNumbered(state.StateKey(), state.totalSize, chunks1);
      FetchBatch(state, next, batches, net, dir);
      LaidOutNumbered(state.StateKey(), state.totalSize, state.chunks);
      KeepsProgressStep(chunks0, completed0, files0, chunks1, completed1, files1, states1,
                        state.chunks, state.completed, dir.chunkFiles, dir.stateFiles, state.Snapshot(),
                        state.StateKey(), next, net, batches);
      batches := batches + 1;
    }
    complete := state.IsComplete();
  }

  /** With every piece in and every downloaded piece backed by its file,
      the merge finds no piece missing. */
  lemma NoneMissing(cs: seq<Chunk>, files: map<ChunkPath, Bytes>)
    requires AllDownloaded(cs) && Backed(cs, files)
    ensures FirstMissing(cs, files).None?
    ensures forall i :: 0 <= i < |cs| ==> cs[i].tempFile in files
  {
  }

  /** The output path: the given one, or `downloads/<basename of the key>`
      when none is given. */
  function OutputPathFor(fileKey: string, outputPath: string): string {
    if outputPath == "" then DefaultOutputPath(fileKey) else outputPath
  }

  /** downloadFile(fileKey, outputPath): looks the file up, resumes from the
      state file, fetches the pending pieces five at a time until none is
      left, then merges and verifies.  `info` is the lookup's answer (None
      when the server reports the file missing); `net(b, id, k)` is attempt
      k at piece id in batch b; `maxBatches` bounds the loop, which in the
      source has no bound.  The ghost results `pieces` and `files` are the
      chunk list and the piece files when the loop ends.  Once every piece
      is in, the output file is the pieces' contents in index order, and
      the download succeeds exactly when that content has the expected
      hash, in which case the state file and the piece files are gone. */
  method DownloadFile(fileKey: string, outputPath: string, info: Option<FileInfo>,
                      net: (nat, nat, nat) -> Attempt, sha256: Bytes -> string,
                      dir: TempDir, maxBatches: nat)
    returns (r: Result<string, DownloadError>, ghost pieces: seq<Chunk>, ghost files: map<ChunkPath, Bytes>)
    modifies dir
    ensures info.None? <==> r == Err(FileNotFound)
    ensures r.Ok? ==> r.value == OutputPathFor(fileKey, outputPath)
    ensures r.Ok? ==> r.value in dir.outputs && sha256(dir.outputs[r.value]) == info.value.hash
    ensures r == Err(FileNotFound) || r == Err(BatchLimitReached) ==> dir.outputs == old(dir.outputs)
    ensures info.Some? ==> LaidOut(SafeFileName(fileKey), info.value.size, pieces)
    ensures info.Some? ==> (r == Err(BatchLimitReached) <==> !AllDownloaded(pieces))
    ensures info.Some? && AllDownloaded(pieces) ==>
              && (forall i :: 0 <= i < |pieces| ==> pieces[i].tempFile in files)
              && (var data := Concat(pieces, files);
                  && dir.outputs == old(dir.outputs)[OutputPathFor(fileKey, outputPath) := data]
                  && (sha256(data) == info.value.hash ==>
                        && r == Ok(OutputPathFor(fileKey, outputPath))
                        && SafeFileName(fileKey) !in dir.stateFiles
                        && dir.chunkFiles == files - TempFilesUpTo(pieces, |pieces|))
                  && (sha256(data) != info.value.hash ==>
                        r == Err(MergeFailed(HashMismatch)) && dir.chunkFiles == files))
  {
    var path := OutputPathFor(fileKey, outputPath);
    if info.None? {
      r, pieces, files := Err(FileNotFound), [], map[];
    } else {
      var state := new DownloadState(fileKey, info.value.size, info.value.hash);
      ghost var planned := state.chunks;
      var restored := state.LoadState(dir);
      if restored {
        RestoreListedBacked(planned, state.completed, dir.chunkFiles);
      }
      assert Backed(state.chunks, dir.chunkFiles);
      var complete, _ := FetchPending(state, net, dir, maxBatches);
      pieces, files := state.chunks, dir.chunkFiles;
      if !complete {
        r := Err(BatchLimitReached);
      } else {
        NoneMissing(state.chunks, dir.chunkFiles);
        var merged := MergeChunks(state, path, sha256, dir);
        r := if merged == Merged then Ok(path) else Err(MergeFailed(merged));
      }
    }
  }

  /** After a resume the progress count can exceed the pieces actually in:
      the state file of a one-piece download lists piece 0 while piece 0's
      file is gone, so the count reads 1 of 1 while no piece is in. */
  method ProgressOverCount() returns (progress: (nat, nat), inHand: nat)
    ensures progress == (1, 1) && inHand == 0
  {
    var dir := new TempDir();
    var state := new DownloadState("g", 1, "h");
    SafeFileNameKeepsSafeKeys("g");
    dir.stateFiles := map["g" := Parsed(PersistedState("g", Some("h"), 1, Some([0])))];
    assert state.StateKey() == "g" && |state.chunks| == 1;
    var _ := state.LoadState(dir);
    assert state.completed == [0] && !state.chunks[0].downloaded;
    progress := state.GetProgress();
    assert state.chunks == [state.chunks[0]];
    assert DownloadedCount([state.chunks[0]]) == 0 by {
      assert [state.chunks[0]][..0] == [];
    }
    inHand := DownloadedCount(state.chunks);
  }
}
