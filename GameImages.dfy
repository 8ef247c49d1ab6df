/**
 * Local game images (src/logic/cache/gameImagesManager.js).
 *
 * For every installed game the manager keeps its downloaded images in
 * `<drive>/HornyLibrary/gameImages/<gameId>/` together with a
 * metadata.json, and an in-memory Map from game id to the game's images,
 * logo, icon, server hashes and last update.  The drives' files are one map
 * from path to content; a JS Map is its key map plus its insertion order.
 * HTTP downloads, MD5 and URL parsing are inputs: one optional buffer per
 * URL (None when the download fails), and functions for the hash and for
 * the URL's pathname (None when `new URL` throws).
 */
module GameImages {
  import opened Common
  import opened Lru
  import opened CacheTier

  datatype ImageRecord = ImageRecord(originalUrl: string, localPath: string, hash: string, isLogo: bool, isIcon: bool)

  /** The content of a game's metadata.json; a field JSON leaves out reads
      as its default (no images, no logo, no hashes, time 0). */
  datatype GameMetadata = GameMetadata(
    gameId: int, images: seq<ImageRecord>, logo: Option<string>, icon: Option<string>,
    serverHashes: map<string, string>, lastUpdate: int)

  /** A file on the drives: image bytes, a metadata.json that parses, or
      anything JSON.parse rejects. */
  datatype FileEntry = Blob(data: Bytes) | MetadataJson(meta: GameMetadata) | Unparseable

  type Files = map<string, FileEntry>

  /** The Map value kept for one game. */
  datatype CachedImages = CachedImages(
    drivePath: string, images: seq<ImageRecord>, logo: Option<string>, icon: Option<string>,
    serverHashes: map<string, string>, lastUpdate: int)

  /** The manager's state: the Map (keys and insertion order) and the drives. */
  datatype Manager = Manager(cache: map<int, CachedImages>, order: seq<int>, files: Files)

  ghost predicate ManagerOk(g: Manager) {
    NoDuplicates(g.order) && forall k :: k in g.cache <==> k in g.order
  }

  /** Map.set keeps an existing key's position and appends a new one. */
  function PutOrder(order: seq<int>, k: int): (r: seq<int>)
    ensures forall x :: x in r <==> x in order || x == k
    ensures NoDuplicates(order) ==> NoDuplicates(r)
  {
    if k in order then order else order + [k]
  }

  // ---------------------------------------------------------------------
  // Paths
  // ---------------------------------------------------------------------

  function GameImagesPath(drivePath: string, gameId: int): string {
    JoinPath(JoinPath(JoinPath(drivePath, "HornyLibrary"), "gameImages"), IntToString(gameId))
  }

  /** metadata.json lies inside the game's image folder. */
  function MetadataPath(drivePath: string, gameId: int): (p: string)
    ensures Within(p, GameImagesPath(drivePath, gameId))
  {
    var dir := GameImagesPath(drivePath, gameId);
    assert (dir + "/" + "metadata.json")[..|dir + "/"|] == dir + "/";
    JoinPath(dir, "metadata.json")
  }

  /** Two games never share a folder, and one game's metadata.json never
      lies inside another game's folder. */
  lemma GameFoldersDisjoint(drivePath: string, a: int, b: int)
    requires a != b
    ensures GameImagesPath(drivePath, a) != GameImagesPath(drivePath, b)
    ensures !Within(MetadataPath(drivePath, a), GameImagesPath(drivePath, b))
  {
    var q := JoinPath(JoinPath(drivePath, "HornyLibrary"), "gameImages") + "/";
    var sa, sb := IntToString(a), IntToString(b);
    IntToStringSpec(a, b);
    IntToStringSpec(b, a);
    var fa, fb := q + sa, q + sb;
    assert fa == GameImagesPath(drivePath, a) && fb == GameImagesPath(drivePath, b);
    assert fa[|q|..] == sa && fb[|q|..] == sb;
    var m := fa + "/" + "metadata.json";
    assert m == MetadataPath(drivePath, a);
    assert m[|q| + |sa|] == '/';
    if m == fb {
      assert false;
    }
    SlashPrefix(q, sa, sb, "metadata.json");
  }

  /** A path continuing one slash-free component after q is not inside the
      folder named by a different slash-free component after q. */
  lemma SlashPrefix(q: string, sa: string, sb: string, rest: string)
    requires '/' !in sa && '/' !in sb && sa != sb
    ensures !StartsWith(q + sa + "/" + rest, q + sb + "/")
  {
    var m, f := q + sa + "/" + rest, q + sb + "/";
    if |sb| < |sa| {
      assert m[|q| + |sb|] == sa[|sb|] && f[|q| + |sb|] == '/';
    } else if |sb| > |sa| {
      assert m[|q| + |sa|] == '/' && f[|q| + |sa|] == sb[|sa|];
    } else {
      var i :| 0 <= i < |sa| && sa[i] != sb[i];
      assert m[|q| + i] == sa[i] && f[|q| + i] == sb[i];
    }
  }

  /** _getExtFromUrl: the lower-cased pathname's extension, else ".jpg". */
  function ExtFromUrl(pathname: Option<string>): (ext: string)
    ensures |ext| > 0 && ext[0] == '.' && '/' !in ext
    ensures forall k :: 0 < k < |ext| ==> ext[k] != '.'
    ensures pathname.None? ==> ext == ".jpg"
    ensures pathname.Some? && Extname(ToLower(pathname.value)) != "" ==> ext == Extname(ToLower(pathname.value))
    ensures pathname.Some? && Extname(ToLower(pathname.value)) == "" ==> ext == ".jpg"
  {
    if pathname.None? then ".jpg"
    else
      var e := Extname(ToLower(pathname.value));
      if e == "" then ".jpg"
      else
        assert e[0] == '.';
        e
  }

  /** `image_<i><ext>` inside the game's folder. */
  function ImagePath(imagesPath: string, i: nat, ext: string): (p: string)
    ensures StartsWith(p, imagesPath + "/") && p != ""
  {
    assert (imagesPath + "/" + ("image_" + NatToString(i) + ext))[..|imagesPath + "/"|] == imagesPath + "/";
    JoinPath(imagesPath, "image_" + NatToString(i) + ext)
  }

  /** The record pushed for URL number i once its buffer is written. */
  function MakeRecord(imagesPath: string, url: string, i: nat, buffer: Bytes,
                      md5: Bytes -> string, pathnameOf: string -> Option<string>): ImageRecord
  {
    ImageRecord(url, ImagePath(imagesPath, i, ExtFromUrl(pathnameOf(url))), md5(buffer),
                Includes(ToLower(url), "logo"), Includes(ToLower(url), "icon"))
  }

  /** The record keeps its URL, hashes the bytes, lies in the game's folder,
      and flags 'logo' and 'icon' in the lower-cased URL. */
  lemma MakeRecordSpec(imagesPath: string, url: string, i: nat, buffer: Bytes,
                       md5: Bytes -> string, pathnameOf: string -> Option<string>)
    ensures var rec := MakeRecord(imagesPath, url, i, buffer, md5, pathnameOf);
      && rec.originalUrl == url && rec.hash == md5(buffer)
      && StartsWith(rec.localPath, imagesPath + "/") && rec.localPath != ""
      && (rec.isLogo <==> exists k :: OccursAt(ToLower(url), "logo", k))
      && (rec.isIcon <==> exists k :: OccursAt(ToLower(url), "icon", k))
  {
  }

  function LocalPaths(images: seq<ImageRecord>): (r: seq<string>)
    ensures |r| == |images| && forall j :: 0 <= j < |r| ==> r[j] == images[j].localPath
  {
    if images == [] then [] else LocalPaths(images[..|images| - 1]) + [images[|images| - 1].localPath]
  }

  function OriginalUrls(images: seq<ImageRecord>): (r: seq<string>)
    ensures |r| == |images| && forall j :: 0 <= j < |r| ==> r[j] == images[j].originalUrl
  {
    if images == [] then [] else OriginalUrls(images[..|images| - 1]) + [images[|images| - 1].originalUrl]
  }

  // ---------------------------------------------------------------------
  // Logo and icon
  // ---------------------------------------------------------------------

  /** The if / else-if that picks the logo and the icon as records come in. */
  function Pick(logo: Option<string>, icon: Option<string>, rec: ImageRecord): (Option<string>, Option<string>) {
    if rec.isLogo && logo.None? then (Some(rec.localPath), icon)
    else if rec.isIcon && icon.None? then (logo, Some(rec.localPath))
    else (logo, icon)
  }

  /** Record j is taken as logo: it is the first logo record, and no logo
      was taken before the list started (`taken`). */
  predicate LogoAt(s: seq<ImageRecord>, j: int, taken: bool)
    requires 0 <= j < |s|
  {
    !taken && s[j].isLogo && forall k :: 0 <= k < j ==> !s[k].isLogo
  }

  /** Record j may become the icon: its URL names an icon and it was not
      taken as logo in the same step. */
  predicate IconAt(s: seq<ImageRecord>, j: int, taken: bool)
    requires 0 <= j < |s|
  {
    s[j].isIcon && !LogoAt(s, j, taken)
  }

  /** The path of the first logo record. */
  function FirstLogo(s: seq<ImageRecord>): Option<string> {
    if s == [] then None
    else if s[0].isLogo then Some(s[0].localPath)
    else FirstLogo(s[1..])
  }

  /** FirstLogo finds the record taken as logo, and finds one whenever
      some URL names a logo. */
  lemma {:induction false} FirstLogoSpec(s: seq<ImageRecord>)
    ensures var r := FirstLogo(s);
      && (r.Some? <==> exists j :: 0 <= j < |s| && s[j].isLogo)
      && (r.Some? ==> exists j :: 0 <= j < |s| && LogoAt(s, j, false) && r.value == s[j].localPath)
  {
    if s != [] {
      if s[0].isLogo {
        assert LogoAt(s, 0, false);
      } else {
        FirstLogoSpec(s[1..]);
        var r := FirstLogo(s[1..]);
        assert forall j :: 0 <= j < |s[1..]| ==> s[1..][j] == s[j + 1];
        if r.Some? {
          var j :| 0 <= j < |s[1..]| && LogoAt(s[1..], j, false) && r.value == s[1..][j].localPath;
          assert LogoAt(s, j + 1, false);
        }
      }
    }
  }

  /** The path of the first record that may become the icon. */
  function IconFrom(s: seq<ImageRecord>, taken: bool): Option<string> {
    if s == [] then None
    else if s[0].isLogo && !taken then IconFrom(s[1..], true)
    else if s[0].isIcon then Some(s[0].localPath)
    else IconFrom(s[1..], taken)
  }

  lemma IconAtShift(s: seq<ImageRecord>, j: int, taken: bool)
    requires 0 < j < |s|
    ensures IconAt(s, j, taken) <==> IconAt(s[1..], j - 1, taken || s[0].isLogo)
  {
    assert s[1..][j - 1] == s[j];
    assert forall k :: 0 <= k < j - 1 ==> s[1..][k] == s[k + 1];
  }

  /** IconFrom finds the first record that may become the icon. */
  lemma {:induction false} IconFromSpec(s: seq<ImageRecord>, taken: bool)
    ensures var r := IconFrom(s, taken);
      && (r.Some? <==> exists j :: 0 <= j < |s| && IconAt(s, j, taken))
      && (r.Some? ==> exists j :: 0 <= j < |s| && IconAt(s, j, taken) && r.value == s[j].localPath
                               && forall k :: 0 <= k < j ==> !IconAt(s, k, taken))
  {
    if s != [] {
      var t := taken || s[0].isLogo;
      IconFromSpec(s[1..], t);
      forall j | 0 < j < |s| ensures IconAt(s, j, taken) <==> IconAt(s[1..], j - 1, t) {
        IconAtShift(s, j, taken);
      }
      if s[0].isLogo && !taken {
        assert !IconAt(s, 0, taken);
        assert IconFrom(s, taken) == IconFrom(s[1..], t);
        var r := IconFrom(s, taken);
        if r.Some? {
          var j :| 0 <= j < |s[1..]| && IconAt(s[1..], j, t) && r.value == s[1..][j].localPath
                 && forall k :: 0 <= k < j ==> !IconAt(s[1..], k, t);
          assert IconAt(s, j + 1, taken);
          forall k | 0 <= k < j + 1 ensures !IconAt(s, k, taken) {
            if k > 0 { assert !IconAt(s[1..], k - 1, t); }
          }
        } else {
          forall j | 0 <= j < |s| ensures !IconAt(s, j, taken) {
            if j > 0 { assert !IconAt(s[1..], j - 1, t); }
          }
        }
      } else if s[0].isIcon {
        assert IconAt(s, 0, taken);
      } else {
        assert !IconAt(s, 0, taken);
        assert t == taken;
        var r := IconFrom(s, taken);
        if r.Some? {
          var j :| 0 <= j < |s[1..]| && IconAt(s[1..], j, t) && r.value == s[1..][j].localPath
                 && forall k :: 0 <= k < j ==> !IconAt(s[1..], k, t);
          assert IconAt(s, j + 1, taken);
          forall k | 0 <= k < j + 1 ensures !IconAt(s, k, taken) {
            if k > 0 { assert !IconAt(s[1..], k - 1, t); }
          }
        } else {
          forall j | 0 <= j < |s| ensures !IconAt(s, j, taken) {
            if j > 0 { assert !IconAt(s[1..], j - 1, t); }
          }
        }
      }
    }
  }

  lemma {:induction false} FirstLogoAppend(s: seq<ImageRecord>, rec: ImageRecord)
    ensures FirstLogo(s + [rec]) ==
      if FirstLogo(s).Some? then FirstLogo(s) else if rec.isLogo then Some(rec.localPath) else None
  {
    if s == [] {
      assert [rec][1..] == [];
    } else {
      assert (s + [rec])[1..] == s[1..] + [rec];
      FirstLogoAppend(s[1..], rec);
    }
  }

  lemma {:induction false} IconFromAppend(s: seq<ImageRecord>, rec: ImageRecord, taken: bool)
    ensures IconFrom(s + [rec], taken) ==
      if IconFrom(s, taken).Some? then IconFrom(s, taken)
      else if rec.isLogo && !(taken || FirstLogo(s).Some?) then None
      else if rec.isIcon then Some(rec.localPath)
      else None
  {
    if s == [] {
      assert [rec][1..] == [];
    } else {
      assert (s + [rec])[1..] == s[1..] + [rec];
      IconFromAppend(s[1..], rec, true);
      IconFromAppend(s[1..], rec, taken);
    }
  }

  // ---------------------------------------------------------------------
  // saveGameImages
  // ---------------------------------------------------------------------

  /** What iteration i of the download loop yields: nothing when the
      download failed, else the record and the bytes written. */
  type Outcome = Option<(ImageRecord, Bytes)>

  function Outcomes(imagesPath: string, urls: seq<string>, downloads: seq<Option<Bytes>>,
                    md5: Bytes -> string, pathnameOf: string -> Option<string>): seq<Outcome>
    requires |urls| == |downloads|
  {
    seq(|urls|, i requires 0 <= i < |urls| =>
      if downloads[i].Some? then Some((MakeRecord(imagesPath, urls[i], i, downloads[i].value, md5, pathnameOf),
                                       downloads[i].value))
      else None)
  }

  /** The loop's variables: savedImages, logoPath, iconPath, serverHashes,
      and the files written so far. */
  datatype SaveState = SaveState(saved: seq<ImageRecord>, logo: Option<string>, icon: Option<string>,
                                 hashes: map<string, string>, files: Files)

  /** One successful download: write the file, pick, push, record the hash. */
  function SaveStep(st: SaveState, rec: ImageRecord, buffer: Bytes): SaveState {
    var p := Pick(st.logo, st.icon, rec);
    SaveState(st.saved + [rec], p.0, p.1, st.hashes[rec.originalUrl := rec.hash],
              st.files[rec.localPath := Blob(buffer)])
  }

  /** The state after the first n iterations. */
  function SaveLoop(outs: seq<Outcome>, n: nat, files0: Files): SaveState
    requires n <= |outs|
  {
    if n == 0 then SaveState([], None, None, map[], files0)
    else
      var st := SaveLoop(outs, n - 1, files0);
      match outs[n - 1]
      case None => st
      case Some(o) => SaveStep(st, o.0, o.1)
  }

  lemma SaveLoopUnfold(outs: seq<Outcome>, n: nat, files0: Files)
    requires 0 < n <= |outs|
    ensures SaveLoop(outs, n, files0) ==
      if outs[n - 1].None? then SaveLoop(outs, n - 1, files0)
      else SaveStep(SaveLoop(outs, n - 1, files0), outs[n - 1].value.0, outs[n - 1].value.1)
  {
  }

  /** The indices below n whose download succeeded, ascending. */
  function Fetched(outs: seq<Outcome>, n: nat): seq<nat>
    requires n <= |outs|
  {
    if n == 0 then []
    else
      var prev := Fetched(outs, n - 1);
      if outs[n - 1].Some? then prev + [n - 1] else prev
  }

  /** Fetched lists exactly the successful indices below n, ascending. */
  lemma {:induction false} FetchedSpec(outs: seq<Outcome>, n: nat)
    requires n <= |outs|
    ensures var idx := Fetched(outs, n);
      && (forall j :: 0 <= j < |idx| ==> idx[j] < n && outs[idx[j]].Some?)
      && (forall j, k :: 0 <= j < k < |idx| ==> idx[j] < idx[k])
      && (forall i :: 0 <= i < n && outs[i].Some? ==> i in idx)
  {
    if n > 0 {
      FetchedSpec(outs, n - 1);
    }
  }

  /** saved[j] is the record of iteration idx[j], for every j. */
  ghost predicate SavedAt(saved: seq<ImageRecord>, idx: seq<nat>, outs: seq<Outcome>) {
    && |saved| == |idx|
    && forall j :: 0 <= j < |idx| ==> idx[j] < |outs| && outs[idx[j]].Some? && saved[j] == outs[idx[j]].value.0
  }

  /** Failed downloads are skipped; the saved records are those of the
      fetched URLs, in input order. */
  lemma {:induction false} SaveLoopSaved(outs: seq<Outcome>, n: nat, files0: Files)
    requires n <= |outs|
    ensures SavedAt(SaveLoop(outs, n, files0).saved, Fetched(outs, n), outs)
  {
    if n > 0 {
      SaveLoopSaved(outs, n - 1, files0);
      SaveLoopUnfold(outs, n, files0);
    }
  }

  /** The files are the old ones plus one image per saved record. */
  ghost predicate FilesWritten(st: SaveState, files0: Files) {
    && (forall p :: p in st.files <==> p in files0 || p in LocalPaths(st.saved))
    && (forall p :: p in LocalPaths(st.saved) ==> st.files[p].Blob?)
    && (forall p :: p in files0 && p !in LocalPaths(st.saved) ==> st.files[p] == files0[p])
  }

  lemma FilesWrittenStep(st: SaveState, rec: ImageRecord, buffer: Bytes, files0: Files)
    requires FilesWritten(st, files0)
    ensures FilesWritten(SaveStep(st, rec, buffer), files0)
  {
    assert LocalPaths(st.saved + [rec]) == LocalPaths(st.saved) + [rec.localPath];
  }

  /** The loop writes one image file per saved record and nothing else. */
  lemma {:induction false} SaveLoopFiles(outs: seq<Outcome>, n: nat, files0: Files)
    requires n <= |outs|
    ensures FilesWritten(SaveLoop(outs, n, files0), files0)
  {
    if n > 0 {
      SaveLoopFiles(outs, n - 1, files0);
      SaveLoopUnfold(outs, n, files0);
      if outs[n - 1].Some? {
        FilesWrittenStep(SaveLoop(outs, n - 1, files0), outs[n - 1].value.0, outs[n - 1].value.1, files0);
      }
    }
  }

  /** serverHashes maps each saved URL, and nothing else, to the hash of
      one of its saved images. */
  ghost predicate HashesOk(st: SaveState) {
    && (forall u :: u in st.hashes <==> u in OriginalUrls(st.saved))
    && (forall u :: u in st.hashes ==>
          exists j :: 0 <= j < |st.saved| && st.saved[j].originalUrl == u && st.hashes[u] == st.saved[j].hash)
  }

  lemma HashesStep(st: SaveState, rec: ImageRecord, buffer: Bytes)
    requires HashesOk(st)
    ensures HashesOk(SaveStep(st, rec, buffer))
  {
    var st' := SaveStep(st, rec, buffer);
    assert OriginalUrls(st'.saved) == OriginalUrls(st.saved) + [rec.originalUrl];
    forall u | u in st'.hashes
      ensures exists j :: 0 <= j < |st'.saved| && st'.saved[j].originalUrl == u && st'.hashes[u] == st'.saved[j].hash
    {
      if u == rec.originalUrl {
        assert st'.saved[|st.saved|] == rec;
      } else {
        var j :| 0 <= j < |st.saved| && st.saved[j].originalUrl == u && st.hashes[u] == st.saved[j].hash;
        assert st'.saved[j] == st.saved[j];
      }
    }
  }

  lemma {:induction false} SaveLoopHashes(outs: seq<Outcome>, n: nat, files0: Files)
    requires n <= |outs|
    ensures HashesOk(SaveLoop(outs, n, files0))
  {
    if n > 0 {
      SaveLoopHashes(outs, n - 1, files0);
      SaveLoopUnfold(outs, n, files0);
      if outs[n - 1].Some? {
        HashesStep(SaveLoop(outs, n - 1, files0), outs[n - 1].value.0, outs[n - 1].value.1);
      }
    }
  }

  /** logoPath and iconPath are the first logo record and the first record
      that may become the icon. */
  ghost predicate PicksOk(st: SaveState) {
    st.logo == FirstLogo(st.saved) && st.icon == IconFrom(st.saved, false)
  }

  lemma PicksStep(st: SaveState, rec: ImageRecord, buffer: Bytes)
    requires PicksOk(st)
    ensures PicksOk(SaveStep(st, rec, buffer))
  {
    FirstLogoAppend(st.saved, rec);
    IconFromAppend(st.saved, rec, false);
  }

  lemma {:induction false} SaveLoopPicks(outs: seq<Outcome>, n: nat, files0: Files)
    requires n <= |outs|
    ensures PicksOk(SaveLoop(outs, n, files0))
  {
    if n > 0 {
      SaveLoopPicks(outs, n - 1, files0);
      SaveLoopUnfold(outs, n, files0);
      if outs[n - 1].Some? {
        PicksStep(SaveLoop(outs, n - 1, files0), outs[n - 1].value.0, outs[n - 1].value.1);
      }
    }
  }

  /** The game's logo: the first logo record, else the first image. */
  function LogoOf(saved: seq<ImageRecord>): Option<string> {
    var l := FirstLogo(saved);
    if l.None? && |saved| > 0 then Some(saved[0].localPath) else l
  }

  /** The game's icon: `iconPath || logoPath`. */
  function IconOf(saved: seq<ImageRecord>): Option<string> {
    var i := IconFrom(saved, false);
    if i.Some? then i else LogoOf(saved)
  }

  /** The loop of saveGameImages over the whole URL list. */
  function SaveAll(g: Manager, drivePath: string, gameId: int, urls: seq<string>, downloads: seq<Option<Bytes>>,
                   md5: Bytes -> string, pathnameOf: string -> Option<string>): SaveState
    requires |urls| == |downloads|
  {
    var outs := Outcomes(GameImagesPath(drivePath, gameId), urls, downloads, md5, pathnameOf);
    SaveLoop(outs, |outs|, g.files)
  }

  /** saveGameImages: the returned records (None for `undefined`) and the
      new state. `savedAt` and `cachedAt` are the two Date.now() reads. */
  function SaveGame(g: Manager, drivePath: string, gameId: int, imageUrls: Option<seq<string>>,
                    downloads: seq<Option<Bytes>>, savedAt: int, cachedAt: int,
                    md5: Bytes -> string, pathnameOf: string -> Option<string>): (Option<seq<ImageRecord>>, Manager)
    requires imageUrls.Some? ==> |imageUrls.value| == |downloads|
  {
    if imageUrls.None? || |imageUrls.value| == 0 then (None, g)
    else
      var st := SaveAll(g, drivePath, gameId, imageUrls.value, downloads, md5, pathnameOf);
      var logo := if st.logo.None? && |st.saved| > 0 then Some(st.saved[0].localPath) else st.logo;
      var icon := if st.icon.Some? then st.icon else logo;
      var meta := GameMetadata(gameId, st.saved, logo, icon, st.hashes, savedAt);
      var entry := CachedImages(drivePath, st.saved, logo, icon, st.hashes, cachedAt);
      (Some(st.saved),
       Manager(g.cache[gameId := entry], PutOrder(g.order, gameId),
               st.files[MetadataPath(drivePath, gameId) := MetadataJson(meta)]))
  }

  /** The game's logo: the first record whose URL names a logo, else the
      first saved image; none only when nothing was saved. */
  lemma LogoOfSpec(saved: seq<ImageRecord>)
    ensures var l := LogoOf(saved);
      && (l.Some? <==> |saved| > 0)
      && ((exists j :: 0 <= j < |saved| && saved[j].isLogo) ==>
            exists j :: 0 <= j < |saved| && LogoAt(saved, j, false) && l.value == saved[j].localPath)
      && ((forall j :: 0 <= j < |saved| ==> !saved[j].isLogo) && |saved| > 0 ==> l.value == saved[0].localPath)
  {
    FirstLogoSpec(saved);
  }

  /** The game's icon: the first record that may become the icon, else the
      logo. */
  lemma IconOfSpec(saved: seq<ImageRecord>)
    ensures var i := IconOf(saved);
      && ((exists j :: 0 <= j < |saved| && IconAt(saved, j, false)) ==>
            exists j :: 0 <= j < |saved| && IconAt(saved, j, false) && i.value == saved[j].localPath
                        && forall k :: 0 <= k < j ==> !IconAt(saved, k, false))
      && ((forall j :: 0 <= j < |saved| ==> !IconAt(saved, j, false)) ==> i == LogoOf(saved))
  {
    IconFromSpec(saved, false);
  }

  /** With a non-empty URL list, saveGameImages returns the records of the
      fetched URLs in input order, skipping failed downloads, and caches
      them with the logo and icon chosen as above. */
  lemma SaveGameSaved(g: Manager, drivePath: string, gameId: int, urls: seq<string>,
                      downloads: seq<Option<Bytes>>, savedAt: int, cachedAt: int,
                      md5: Bytes -> string, pathnameOf: string -> Option<string>)
    requires 0 < |urls| == |downloads|
    ensures var res := SaveGame(g, drivePath, gameId, Some(urls), downloads, savedAt, cachedAt, md5, pathnameOf);
      var outs := Outcomes(GameImagesPath(drivePath, gameId), urls, downloads, md5, pathnameOf);
      var idx := Fetched(outs, |urls|);
      && res.0.Some? && SavedAt(res.0.value, idx, outs)
      && (forall j, k :: 0 <= j < k < |idx| ==> idx[j] < idx[k])
      && (forall i :: 0 <= i < |urls| ==> (downloads[i].Some? <==> i in idx))
      && gameId in res.1.cache
      && res.1.cache[gameId].images == res.0.value
      && res.1.cache[gameId].logo == LogoOf(res.0.value)
      && res.1.cache[gameId].icon == IconOf(res.0.value)
  {
    var outs := Outcomes(GameImagesPath(drivePath, gameId), urls, downloads, md5, pathnameOf);
    SaveLoopSaved(outs, |outs|, g.files);
    SaveLoopPicks(outs, |outs|, g.files);
    FetchedSpec(outs, |outs|);
  }

  /** saveGameImages with a null or empty URL list changes nothing;
      otherwise it sets this game's entry, keeps every other game, writes
      only image files and the metadata, and keeps the Map well formed. */
  lemma SaveGameState(g: Manager, drivePath: string, gameId: int, imageUrls: Option<seq<string>>,
                      downloads: seq<Option<Bytes>>, savedAt: int, cachedAt: int,
                      md5: Bytes -> string, pathnameOf: string -> Option<string>)
    requires imageUrls.Some? ==> |imageUrls.value| == |downloads|
    requires ManagerOk(g)
    ensures var res := SaveGame(g, drivePath, gameId, imageUrls, downloads, savedAt, cachedAt, md5, pathnameOf);
      && ManagerOk(res.1)
      && (imageUrls.None? || |imageUrls.value| == 0 ==> res == (None, g))
      && (imageUrls.Some? && |imageUrls.value| > 0 ==>
            && res.1.cache.Keys == g.cache.Keys + {gameId}
            && (forall k :: k in g.cache && k != gameId ==> res.1.cache[k] == g.cache[k])
            && MetadataPath(drivePath, gameId) in res.1.files
            && (forall p :: p in res.1.files <==>
                  (p in g.files || p in LocalPaths(res.0.value) || p == MetadataPath(drivePath, gameId)))
            && (forall p :: p in g.files && p !in LocalPaths(res.0.value) && p != MetadataPath(drivePath, gameId)
                  ==> res.1.files[p] == g.files[p]))
  {
    if imageUrls.Some? && |imageUrls.value| > 0 {
      var outs := Outcomes(GameImagesPath(drivePath, gameId), imageUrls.value, downloads, md5, pathnameOf);
      SaveLoopFiles(outs, |outs|, g.files);
    }
  }

  // ---------------------------------------------------------------------
  // _loadGameImages
  // ---------------------------------------------------------------------

  /** The images whose files exist, in stored order. */
  function Existing(images: seq<ImageRecord>, files: Files): seq<ImageRecord> {
    if images == [] then []
    else
      var rest := Existing(images[..|images| - 1], files);
      var last := images[|images| - 1];
      if last.localPath in files then rest + [last] else rest
  }

  /** The test of the filter: the image's file exists. */
  function FileExists(files: Files): ImageRecord -> bool {
    (x: ImageRecord) => x.localPath in files
  }

  /** Existing keeps exactly the images whose files exist, in stored order,
      and all of them when every file exists. */
  lemma {:induction false} ExistingSpec(images: seq<ImageRecord>, files: Files)
    ensures var r := Existing(images, files);
      && |r| <= |images|
      && (forall x :: x in r <==> x in images && x.localPath in files)
      && KeptInOrder(r, images, FileExists(files))
      && ((forall j :: 0 <= j < |images| ==> images[j].localPath in files) ==> r == images)
  {
    if images != [] {
      var init := images[..|images| - 1];
      var last := images[|images| - 1];
      assert images == init + [last];
      ExistingSpec(init, files);
      MapsInOrderSnoc(Existing(init, files), init, FileExists(files), Id, last);
    }
    if forall j :: 0 <= j < |images| ==> images[j].localPath in files {
      ExistingAll(images, files);
    }
  }

  /** When every file exists nothing is dropped. */
  lemma {:induction false} ExistingAll(images: seq<ImageRecord>, files: Files)
    requires forall j :: 0 <= j < |images| ==> images[j].localPath in files
    ensures Existing(images, files) == images
  {
    if images != [] {
      ExistingAll(images[..|images| - 1], files);
    }
  }

  /** `x && fs.existsSync(x) ? x : null` */
  function ExistingPath(p: Option<string>, files: Files): Option<string> {
    if Truthy(p) && p.value in files then p else None
  }

  /** The entry _loadGameImages caches for a game, if any. */
  function LoadEntry(files: Files, drivePath: string, gameId: int): Option<CachedImages> {
    var mp := MetadataPath(drivePath, gameId);
    if mp !in files || !files[mp].MetadataJson? then None
    else
      var m := files[mp].meta;
      var valid := Existing(m.images, files);
      if |valid| > 0 || Truthy(m.logo) || Truthy(m.icon) then
        Some(CachedImages(drivePath, valid, ExistingPath(m.logo, files), ExistingPath(m.icon, files),
                          m.serverHashes, m.lastUpdate))
      else None
  }

  /** _loadGameImages: Map.set when there is an entry, else nothing. */
  function LoadInto(g: Manager, drivePath: string, gameId: int): Manager {
    match LoadEntry(g.files, drivePath, gameId)
    case None => g
    case Some(e) => g.(cache := g.cache[gameId := e], order := PutOrder(g.order, gameId))
  }

  /** A game is cached only from a metadata.json that parses and names an
      existing image, a logo or an icon; the cached images are the stored
      ones whose files exist, and a cached logo or icon exists. */
  lemma LoadEntrySpec(files: Files, drivePath: string, gameId: int)
    ensures var e := LoadEntry(files, drivePath, gameId);
      var mp := MetadataPath(drivePath, gameId);
      && (e.Some? <==>
            (mp in files && files[mp].MetadataJson? &&
             ((exists x :: x in files[mp].meta.images && x.localPath in files)
              || Truthy(files[mp].meta.logo) || Truthy(files[mp].meta.icon))))
      && (e.Some? ==>
            && e.value.drivePath == drivePath
            && (forall x :: x in e.value.images <==> x in files[mp].meta.images && x.localPath in files)
            && KeptInOrder(e.value.images, files[mp].meta.images, FileExists(files))
            && (e.value.logo.Some? <==> Truthy(files[mp].meta.logo) && files[mp].meta.logo.value in files)
            && (e.value.logo.Some? ==> e.value.logo == files[mp].meta.logo)
            && (e.value.icon.Some? <==> Truthy(files[mp].meta.icon) && files[mp].meta.icon.value in files)
            && (e.value.icon.Some? ==> e.value.icon == files[mp].meta.icon)
            && e.value.serverHashes == files[mp].meta.serverHashes
            && e.value.lastUpdate == files[mp].meta.lastUpdate)
  {
    var mp := MetadataPath(drivePath, gameId);
    if mp in files && files[mp].MetadataJson? {
      var m := files[mp].meta;
      ExistingSpec(m.images, files);
      var valid := Existing(m.images, files);
      if |valid| > 0 {
        assert valid[0] in valid;
      }
    }
  }

  /** LoadInto keeps the Map well formed and touches at most this game. */
  lemma LoadIntoOk(g: Manager, drivePath: string, gameId: int)
    requires ManagerOk(g)
    ensures var g' := LoadInto(g, drivePath, gameId);
      && ManagerOk(g') && g'.files == g.files
      && (forall k :: k != gameId ==> (k in g'.cache <==> k in g.cache))
      && (forall k :: k in g.cache && k != gameId ==> g'.cache[k] == g.cache[k])
  {
  }

  /** Every saved record lies in the game's folder under a non-empty path. */
  lemma OutcomesInFolder(imagesPath: string, urls: seq<string>, downloads: seq<Option<Bytes>>,
                         md5: Bytes -> string, pathnameOf: string -> Option<string>)
    requires |urls| == |downloads|
    ensures var outs := Outcomes(imagesPath, urls, downloads, md5, pathnameOf);
      forall i :: 0 <= i < |outs| && outs[i].Some? ==>
        outs[i].value.0.localPath != "" && StartsWith(outs[i].value.0.localPath, imagesPath + "/")
  {
    var outs := Outcomes(imagesPath, urls, downloads, md5, pathnameOf);
    forall i | 0 <= i < |outs| && outs[i].Some?
      ensures outs[i].value.0.localPath != "" && StartsWith(outs[i].value.0.localPath, imagesPath + "/")
    {
      MakeRecordSpec(imagesPath, urls[i], i, downloads[i].value, md5, pathnameOf);
    }
  }

  /** The chosen logo and icon are paths of saved records. */
  lemma PicksSaved(saved: seq<ImageRecord>)
    ensures LogoOf(saved).Some? ==> LogoOf(saved).value in LocalPaths(saved)
    ensures IconOf(saved).Some? ==> IconOf(saved).value in LocalPaths(saved)
  {
    LogoOfSpec(saved);
    IconOfSpec(saved);
    FirstLogoSpec(saved);
    IconFromSpec(saved, false);
    if |saved| > 0 {
      assert LocalPaths(saved)[0] == saved[0].localPath;
    }
    if FirstLogo(saved).Some? {
      var j :| 0 <= j < |saved| && LogoAt(saved, j, false) && FirstLogo(saved).value == saved[j].localPath;
      assert LocalPaths(saved)[j] == saved[j].localPath;
    }
    if IconFrom(saved, false).Some? {
      var j :| 0 <= j < |saved| && IconAt(saved, j, false) && IconFrom(saved, false).value == saved[j].localPath
               && forall k :: 0 <= k < j ==> !IconAt(saved, k, false);
      assert LocalPaths(saved)[j] == saved[j].localPath;
    }
  }

  /** Every saved image's file exists after the loop, under a non-empty
      path in the game's folder. */
  lemma SavedPaths(g: Manager, drivePath: string, gameId: int, urls: seq<string>, downloads: seq<Option<Bytes>>,
                   md5: Bytes -> string, pathnameOf: string -> Option<string>)
    requires |urls| == |downloads|
    ensures var st := SaveAll(g, drivePath, gameId, urls, downloads, md5, pathnameOf);
      forall p :: p in LocalPaths(st.saved) ==>
        p in st.files && p != "" && StartsWith(p, GameImagesPath(drivePath, gameId) + "/")
  {
    var imagesPath := GameImagesPath(drivePath, gameId);
    var outs := Outcomes(imagesPath, urls, downloads, md5, pathnameOf);
    var st := SaveLoop(outs, |outs|, g.files);
    SaveLoopFiles(outs, |outs|, g.files);
    SaveLoopSaved(outs, |outs|, g.files);
    OutcomesInFolder(imagesPath, urls, downloads, md5, pathnameOf);
    forall p | p in LocalPaths(st.saved) ensures p != "" && StartsWith(p, imagesPath + "/") {
      var j :| 0 <= j < |st.saved| && LocalPaths(st.saved)[j] == p;
      var idx := Fetched(outs, |outs|);
      assert st.saved[j] == outs[idx[j]].value.0;
    }
  }

  /** Loading a metadata.json whose images, logo and icon all exist gives
      them back unchanged. */
  lemma LoadWritten(files: Files, drivePath: string, gameId: int, meta: GameMetadata)
    requires MetadataPath(drivePath, gameId) in files && files[MetadataPath(drivePath, gameId)] == MetadataJson(meta)
    requires forall p :: p in LocalPaths(meta.images) ==> p in files
    requires meta.logo.Some? ==> meta.logo.value in files && meta.logo.value != ""
    requires meta.icon.Some? ==> meta.icon.value in files && meta.icon.value != ""
    requires |meta.images| == 0 ==> meta.logo.None? && meta.icon.None?
    ensures LoadEntry(files, drivePath, gameId) ==
      if |meta.images| > 0 then Some(CachedImages(drivePath, meta.images, meta.logo, meta.icon, meta.serverHashes, meta.lastUpdate))
      else None
  {
    forall j | 0 <= j < |meta.images| ensures meta.images[j].localPath in files {
      assert LocalPaths(meta.images)[j] == meta.images[j].localPath;
    }
    ExistingAll(meta.images, files);
  }

  /** Reading back what saveGameImages wrote gives the entry it cached
      (with the metadata's own timestamp), or nothing when every download
      failed. */
  lemma SaveThenLoad(g: Manager, drivePath: string, gameId: int, urls: seq<string>,
                     downloads: seq<Option<Bytes>>, savedAt: int, cachedAt: int,
                     md5: Bytes -> string, pathnameOf: string -> Option<string>)
    requires 0 < |urls| == |downloads|
    ensures var res := SaveGame(g, drivePath, gameId, Some(urls), downloads, savedAt, cachedAt, md5, pathnameOf);
      LoadEntry(res.1.files, drivePath, gameId) ==
        if |res.0.value| > 0 then Some(res.1.cache[gameId].(lastUpdate := savedAt)) else None
  {
    var outs := Outcomes(GameImagesPath(drivePath, gameId), urls, downloads, md5, pathnameOf);
    var st := SaveAll(g, drivePath, gameId, urls, downloads, md5, pathnameOf);
    var saved := st.saved;
    var mp := MetadataPath(drivePath, gameId);
    var meta := GameMetadata(gameId, saved, LogoOf(saved), IconOf(saved), st.hashes, savedAt);
    var files' := st.files[mp := MetadataJson(meta)];
    SaveLoopPicks(outs, |outs|, g.files);
    assert SaveGame(g, drivePath, gameId, Some(urls), downloads, savedAt, cachedAt, md5, pathnameOf).1.files == files';
    SavedPaths(g, drivePath, gameId, urls, downloads, md5, pathnameOf);
    PicksSaved(saved);
    LoadWritten(files', drivePath, gameId, meta);
  }

  // ---------------------------------------------------------------------
  // deleteGameImages
  // ---------------------------------------------------------------------

  /** fs.rmSync(dir, {recursive: true}): the folder and all below it go. */
  function RemoveWithin(files: Files, dir: string): (r: Files)
    ensures forall p :: p in r <==> p in files && !Within(p, dir)
    ensures forall p :: p in r ==> r[p] == files[p]
  {
    map p | p in files && !Within(p, dir) :: files[p]
  }

  /** deleteGameImages; `drivePath` is None for the one-argument form,
      which takes the drive from the cached entry. */
  function DeleteGame(g: Manager, drivePath: Option<string>, gameId: int): (bool, Manager) {
    if drivePath.None? && gameId !in g.cache then (false, g)
    else
      var drive := if drivePath.Some? then drivePath.value else g.cache[gameId].drivePath;
      (true, Manager(g.cache - {gameId}, Without(g.order, [gameId]),
                     RemoveWithin(g.files, GameImagesPath(drive, gameId))))
  }

  /** The drive whose folder deleteGameImages removes. */
  function DeleteDrive(g: Manager, drivePath: Option<string>, gameId: int): string
    requires drivePath.Some? || gameId in g.cache
  {
    if drivePath.Some? then drivePath.value else g.cache[gameId].drivePath
  }

  /** The one-argument form fails for an uncached game and changes nothing;
      otherwise the game leaves the Map, every other game stays, and the
      game's folder, metadata included, is removed, so the game would not
      be loaded again. */
  lemma DeleteGameSpec(g: Manager, drivePath: Option<string>, gameId: int)
    requires ManagerOk(g)
    ensures var res := DeleteGame(g, drivePath, gameId);
      && ManagerOk(res.1)
      && (res.0 <==> drivePath.Some? || gameId in g.cache)
      && (!res.0 ==> res.1 == g)
      && (res.0 ==>
            && res.1.cache.Keys == g.cache.Keys - {gameId}
            && (forall k :: k in res.1.cache ==> res.1.cache[k] == g.cache[k])
            && (forall p :: p in res.1.files <==> p in g.files && !Within(p, GameImagesPath(DeleteDrive(g, drivePath, gameId), gameId)))
            && LoadEntry(res.1.files, DeleteDrive(g, drivePath, gameId), gameId).None?)
  {
    if drivePath.Some? || gameId in g.cache {
      var drive := DeleteDrive(g, drivePath, gameId);
      assert Within(MetadataPath(drive, gameId), GameImagesPath(drive, gameId));
    }
  }

  // ---------------------------------------------------------------------
  // getStats
  // ---------------------------------------------------------------------

  /** The sum of the image counts over the given games. */
  function TotalImages(order: seq<int>, cache: map<int, CachedImages>): nat
    requires forall k :: k in order ==> k in cache
  {
    if order == [] then 0
    else
      var last := order[|order| - 1];
      assert last in order;
      TotalImages(order[..|order| - 1], cache) + |cache[last].images|
  }

  /** The Map's size is the number of keys in its order. */
  lemma GamesCount(g: Manager)
    requires ManagerOk(g)
    ensures |g.cache| == |g.order|
  {
    assert forall k :: k in g.cache.Keys <==> k in SeqSet(g.order);
    assert g.cache.Keys == SeqSet(g.order);
    DistinctCard(g.order);
  }

  /** Each game's images are part of the total, and the total is 0 exactly
      when no game has an image. */
  lemma {:induction false} TotalImagesBound(order: seq<int>, cache: map<int, CachedImages>)
    requires forall k :: k in order ==> k in cache
    ensures forall k :: k in order ==> |cache[k].images| <= TotalImages(order, cache)
    ensures TotalImages(order, cache) == 0 <==> forall k :: k in order ==> |cache[k].images| == 0
  {
    if order != [] {
      var init := order[..|order| - 1];
      var last := order[|order| - 1];
      TotalImagesBound(init, cache);
      assert order == init + [last];
      assert TotalImages(order, cache) == TotalImages(init, cache) + |cache[last].images|;
    }
  }

  // ---------------------------------------------------------------------
  // updateGameImagesIfNeeded
  // ---------------------------------------------------------------------

  /** `new Set(urls)` of a list that may be null. */
  function UrlList(urls: Option<seq<string>>): seq<string> {
    if urls.Some? then urls.value else []
  }

  /** updateGameImagesIfNeeded: save when the game is not cached or the
      server's URL set differs from the cached one, else return the cached
      images. */
  function UpdateIfNeeded(g: Manager, drivePath: string, gameId: int, serverImageUrls: Option<seq<string>>,
                          downloads: seq<Option<Bytes>>, savedAt: int, cachedAt: int,
                          md5: Bytes -> string, pathnameOf: string -> Option<string>): (Option<seq<ImageRecord>>, Manager)
    requires serverImageUrls.Some? ==> |serverImageUrls.value| == |downloads|
  {
    if gameId !in g.cache
       || SeqSet(UrlList(serverImageUrls)) != SeqSet(OriginalUrls(g.cache[gameId].images)) then
      SaveGame(g, drivePath, gameId, serverImageUrls, downloads, savedAt, cachedAt, md5, pathnameOf)
    else
      (Some(g.cache[gameId].images), g)
  }

  /** The two loops with `break`: is some server URL not cached, or some
      cached URL not on the server? */
  method UrlSetsDiffer(server: seq<string>, local: seq<string>) returns (needsUpdate: bool)
    ensures needsUpdate <==> SeqSet(server) != SeqSet(local)
  {
    needsUpdate := false;
    var i := 0;
    while i < |server|
      invariant 0 <= i <= |server|
      invariant forall k :: 0 <= k < i ==> server[k] in local
    {
      if server[i] !in local {
        assert server[i] in SeqSet(server) && server[i] !in SeqSet(local);
        needsUpdate := true;
        break;
      }
      i := i + 1;
    }
    if !needsUpdate {
      var j := 0;
      while j < |local|
        invariant 0 <= j <= |local|
        invariant forall k :: 0 <= k < j ==> local[k] in server
      {
        if local[j] !in server {
          assert local[j] in SeqSet(local) && local[j] !in SeqSet(server);
          needsUpdate := true;
          break;
        }
        j := j + 1;
      }
      if !needsUpdate {
        assert forall x :: x in SeqSet(server) <==> x in SeqSet(local);
      }
    }
  }

  // ---------------------------------------------------------------------
  // Path lists for the getters
  // ---------------------------------------------------------------------

  /** The test of the getters: the file exists and, when `skipLogos`
      holds, the record is not the logo. */
  function Listed(files: Files, skipLogos: bool): ImageRecord -> bool {
    (x: ImageRecord) => x.localPath in files && !(skipLogos && x.isLogo)
  }

  function LocalPath(x: ImageRecord): string {
    x.localPath
  }

  lemma PathsWhereStep(rest: seq<string>, images: seq<ImageRecord>, files: Files, skipLogos: bool)
    requires images != [] && MapsInOrder(rest, images[..|images| - 1], Listed(files, skipLogos), LocalPath)
    ensures var last := images[|images| - 1];
      MapsInOrder(if last.localPath in files && !(skipLogos && last.isLogo) then rest + [last.localPath] else rest,
                  images, Listed(files, skipLogos), LocalPath)
  {
    MapsInOrderLast(rest, images, Listed(files, skipLogos), LocalPath);
    assert rest + [] == rest;
  }

  /** The paths of the images whose files exist, in stored order; logo
      records are skipped when `skipLogos` holds. */
  function PathsWhere(images: seq<ImageRecord>, files: Files, skipLogos: bool): (r: seq<string>)
    ensures |r| <= |images|
    ensures forall p :: p in r <==>
      exists j :: 0 <= j < |images| && images[j].localPath == p && p in files && !(skipLogos && images[j].isLogo)
    ensures MapsInOrder(r, images, Listed(files, skipLogos), LocalPath)
  {
    if images == [] then []
    else
      var init := images[..|images| - 1];
      var last := images[|images| - 1];
      var rest := PathsWhere(init, files, skipLogos);
      var r := if last.localPath in files && !(skipLogos && last.isLogo) then rest + [last.localPath] else rest;
      PathsWhereStep(rest, images, files, skipLogos);
      MapsInOrderMembers(r, images, Listed(files, skipLogos), LocalPath);
      r
  }

  /** The (drive, id) pairs _scanAllDisks finds, loaded in order. */
  function LoadAll(g: Manager, found: seq<(string, int)>): Manager {
    if found == [] then g
    else
      var last := found[|found| - 1];
      LoadInto(LoadAll(g, found[..|found| - 1]), last.0, last.1)
  }

  lemma {:induction false} LoadAllOk(g: Manager, found: seq<(string, int)>)
    requires ManagerOk(g)
    ensures ManagerOk(LoadAll(g, found)) && LoadAll(g, found).files == g.files
  {
    if found != [] {
      LoadAllOk(g, found[..|found| - 1]);
      var last := found[|found| - 1];
      LoadIntoOk(LoadAll(g, found[..|found| - 1]), last.0, last.1);
    }
  }

  /** The loop of _loadGameImages that keeps the images whose files exist. */
  method FilterExisting(images: seq<ImageRecord>, files: Files) returns (valid: seq<ImageRecord>)
    ensures valid == Existing(images, files)
  {
    valid := [];
    var i := 0;
    while i < |images|
      invariant 0 <= i <= |images|
      invariant valid == Existing(images[..i], files)
    {
      assert images[..i + 1][..i] == images[..i];
      if images[i].localPath in files {
        valid := valid + [images[i]];
      }
      i := i + 1;
    }
    assert images[..i] == images;
  }

  // ---------------------------------------------------------------------
  // The manager
  // ---------------------------------------------------------------------

  class GameImagesManager {
    const md5: Bytes -> string
    const pathnameOf: string -> Option<string>
    var cache: map<int, CachedImages>
    var order: seq<int>
    var files: Files
    var initialized: bool

    function State(): Manager
      reads this
    {
      Manager(cache, order, files)
    }

    ghost predicate Valid()
      reads this
    {
      ManagerOk(State())
    }

    constructor(md5: Bytes -> string, pathnameOf: string -> Option<string>, files: Files)
      ensures Valid() && !initialized
      ensures State() == Manager(map[], [], files)
      ensures this.md5 == md5 && this.pathnameOf == pathnameOf
    {
      this.md5 := md5;
      this.pathnameOf := pathnameOf;
      cache := map[];
      order := [];
      this.files := files;
      initialized := false;
    }

    /** Map.set(gameId, entry). */
    method Put(gameId: int, entry: CachedImages)
      requires Valid()
      modifies this`cache, this`order
      ensures Valid()
      ensures cache == old(cache)[gameId := entry] && order == PutOrder(old(order), gameId)
    {
      cache := cache[gameId := entry];
      if gameId !in order {
        order := order + [gameId];
      }
    }

    /** init: `found` lists what _scanAllDisks finds (drive with separator,
        numeric folder name) in scan order. */
    method Init(found: seq<(string, int)>)
      requires Valid()
      modifies this`cache, this`order, this`initialized
      ensures Valid() && initialized
      ensures State() == if old(initialized) then old(State()) else LoadAll(old(State()), found)
    {
      if initialized {
        return;
      }
      var i := 0;
      while i < |found|
        invariant 0 <= i <= |found|
        invariant Valid()
        invariant State() == LoadAll(old(State()), found[..i])
      {
        assert found[..i + 1][..i] == found[..i];
        LoadGameImages(found[i].0, found[i].1);
        i := i + 1;
      }
      assert found[..i] == found;
      initialized := true;
    }

    method LoadGameImages(drivePath: string, gameId: int)
      requires Valid()
      modifies this`cache, this`order
      ensures Valid()
      ensures State() == LoadInto(old(State()), drivePath, gameId)
    {
      var mp := MetadataPath(drivePath, gameId);
      if mp in files && files[mp].MetadataJson? {
        var m := files[mp].meta;
        var valid := FilterExisting(m.images, files);
        if |valid| > 0 || Truthy(m.logo) || Truthy(m.icon) {
          var logo := if Truthy(m.logo) && m.logo.value in files then m.logo else None;
          var icon := if Truthy(m.icon) && m.icon.value in files then m.icon else None;
          Put(gameId, CachedImages(drivePath, valid, logo, icon, m.serverHashes, m.lastUpdate));
        }
      }
    }

    /** saveGameImages. `downloads[i]` is the body fetched for URL i, None
        when downloadImage rejects; `savedAt` and `cachedAt` are the two
        Date.now() reads. */
    method SaveGameImages(drivePath: string, gameId: int, imageUrls: Option<seq<string>>,
                          downloads: seq<Option<Bytes>>, savedAt: int, cachedAt: int)
      returns (r: Option<seq<ImageRecord>>)
      requires Valid()
      requires imageUrls.Some? ==> |imageUrls.value| == |downloads|
      modifies this`cache, this`order, this`files
      ensures Valid()
      ensures (r, State()) == SaveGame(old(State()), drivePath, gameId, imageUrls, downloads, savedAt, cachedAt, md5, pathnameOf)
    {
      if imageUrls.None? || |imageUrls.value| == 0 {
        return None;
      }
      var urls := imageUrls.value;
      var imagesPath := GameImagesPath(drivePath, gameId);
      var saved, logoPath, iconPath, serverHashes := DownloadAll(imagesPath, urls, downloads);
      if logoPath.None? && |saved| > 0 {
        logoPath := Some(saved[0].localPath);
      }
      var icon := if iconPath.Some? then iconPath else logoPath;
      files := files[MetadataPath(drivePath, gameId) :=
                       MetadataJson(GameMetadata(gameId, saved, logoPath, icon, serverHashes, savedAt))];
      cache := cache[gameId := CachedImages(drivePath, saved, logoPath, icon, serverHashes, cachedAt)];
      order := PutOrder(order, gameId);
      return Some(saved);
    }

    /** The loop of saveGameImages: each URL whose download succeeded is
        written and recorded, in order. */
    method DownloadAll(imagesPath: string, urls: seq<string>, downloads: seq<Option<Bytes>>)
      returns (saved: seq<ImageRecord>, logoPath: Option<string>, iconPath: Option<string>,
               serverHashes: map<string, string>)
      requires |urls| == |downloads|
      modifies this`files
      ensures SaveState(saved, logoPath, iconPath, serverHashes, files) ==
              SaveLoop(Outcomes(imagesPath, urls, downloads, md5, pathnameOf), |urls|, old(files))
    {
      ghost var outs := Outcomes(imagesPath, urls, downloads, md5, pathnameOf);
      ghost var files0 := files;
      saved, logoPath, iconPath, serverHashes := [], None, None, map[];
      var i := 0;
      while i < |urls|
        invariant 0 <= i <= |urls|
        invariant SaveState(saved, logoPath, iconPath, serverHashes, files) == SaveLoop(outs, i, files0)
      {
        SaveLoopUnfold(outs, i + 1, files0);
        ghost var st := SaveState(saved, logoPath, iconPath, serverHashes, files);
        if downloads[i].Some? {
          var rec := SaveImage(imagesPath, urls[i], i, downloads[i].value);
          assert outs[i] == Some((rec, downloads[i].value));
          if rec.isLogo && logoPath.None? {
            logoPath := Some(rec.localPath);
          } else if rec.isIcon && iconPath.None? {
            iconPath := Some(rec.localPath);
          }
          saved := saved + [rec];
          serverHashes := serverHashes[rec.originalUrl := rec.hash];
          assert SaveState(saved, logoPath, iconPath, serverHashes, files) == SaveStep(st, rec, downloads[i].value);
        }
        i := i + 1;
      }
    }

    /** One iteration's work once the download succeeded: hash the
        bytes, write image_<i><ext>, and build the record. */
    method SaveImage(imagesPath: string, url: string, i: nat, buffer: Bytes) returns (rec: ImageRecord)
      modifies this`files
      ensures rec == MakeRecord(imagesPath, url, i, buffer, md5, pathnameOf)
      ensures files == old(files)[rec.localPath := Blob(buffer)]
    {
      var hash := md5(buffer);
      var ext := ExtFromUrl(pathnameOf(url));
      var localPath := ImagePath(imagesPath, i, ext);
      files := files[localPath := Blob(buffer)];
      var lower := ToLower(url);
      rec := ImageRecord(url, localPath, hash, Includes(lower, "logo"), Includes(lower, "icon"));
    }

    method UpdateGameImagesIfNeeded(drivePath: string, gameId: int, serverImageUrls: Option<seq<string>>,
                                    downloads: seq<Option<Bytes>>, savedAt: int, cachedAt: int)
      returns (r: Option<seq<ImageRecord>>)
      requires Valid()
      requires serverImageUrls.Some? ==> |serverImageUrls.value| == |downloads|
      modifies this`cache, this`order, this`files
      ensures Valid()
      ensures (r, State()) == UpdateIfNeeded(old(State()), drivePath, gameId, serverImageUrls, downloads,
                                             savedAt, cachedAt, md5, pathnameOf)
    {
      if gameId !in cache {
        r := SaveGameImages(drivePath, gameId, serverImageUrls, downloads, savedAt, cachedAt);
        return;
      }
      var cached := cache[gameId];
      var needsUpdate := UrlSetsDiffer(UrlList(serverImageUrls), OriginalUrls(cached.images));
      if needsUpdate {
        r := SaveGameImages(drivePath, gameId, serverImageUrls, downloads, savedAt, cachedAt);
        return;
      }
      return Some(cached.images);
    }

    /** getLocalLogo: the cached logo when it is set and its file exists. */
    function GetLocalLogo(gameId: int): (r: Option<string>)
      reads this
      ensures r.Some? <==> gameId in cache && Truthy(cache[gameId].logo) && cache[gameId].logo.value in files
      ensures r.Some? ==> r == cache[gameId].logo
    {
      if gameId in cache then ExistingPath(cache[gameId].logo, files) else None
    }

    /** getLocalIcon: the cached icon when it is set and exists, else the
        logo. */
    function GetLocalIcon(gameId: int): (r: Option<string>)
      reads this
      ensures gameId in cache && Truthy(cache[gameId].icon) && cache[gameId].icon.value in files ==>
                r == cache[gameId].icon
      ensures !(gameId in cache && Truthy(cache[gameId].icon) && cache[gameId].icon.value in files) ==>
                r == GetLocalLogo(gameId)
      ensures r.Some? ==> r.value in files && r.value != ""
    {
      if gameId in cache && ExistingPath(cache[gameId].icon, files).Some? then cache[gameId].icon
      else GetLocalLogo(gameId)
    }

    /** getLocalScreenshots: the existing non-logo images' paths, in stored
        order. */
    function GetLocalScreenshots(gameId: int): (r: seq<string>)
      reads this
      ensures gameId !in cache ==> r == []
      ensures gameId in cache ==> |r| <= |cache[gameId].images| && forall p :: p in r <==>
        exists j :: 0 <= j < |cache[gameId].images| && cache[gameId].images[j].localPath == p
                    && !cache[gameId].images[j].isLogo && p in files
      ensures gameId in cache ==> MapsInOrder(r, cache[gameId].images, Listed(files, true), LocalPath)
    {
      if gameId in cache then PathsWhere(cache[gameId].images, files, true) else []
    }

    /** getLocalImages: the existing images' paths, in stored order. */
    function GetLocalImages(gameId: int): (r: seq<string>)
      reads this
      ensures gameId !in cache ==> r == []
      ensures gameId in cache ==> |r| <= |cache[gameId].images| && forall p :: p in r <==>
        exists j :: 0 <= j < |cache[gameId].images| && cache[gameId].images[j].localPath == p && p in files
      ensures gameId in cache ==> MapsInOrder(r, cache[gameId].images, Listed(files, false), LocalPath)
    {
      if gameId in cache then PathsWhere(cache[gameId].images, files, false) else []
    }

    function HasLocalImages(gameId: int): bool
      reads this
    {
      gameId in cache
    }

    /** deleteGameImages; `drivePath` is None for the one-argument form. */
    method DeleteGameImages(drivePath: Option<string>, gameId: int) returns (ok: bool)
      requires Valid()
      modifies this`cache, this`order, this`files
      ensures Valid()
      ensures (ok, State()) == DeleteGame(old(State()), drivePath, gameId)
    {
      DeleteGameSpec(State(), drivePath, gameId);
      var drive: string;
      if drivePath.None? {
        if gameId !in cache {
          return false;
        }
        drive := cache[gameId].drivePath;
      } else {
        drive := drivePath.value;
      }
      var imagesPath := GameImagesPath(drive, gameId);
      files := RemoveWithin(files, imagesPath);
      cache := cache - {gameId};
      order := Without(order, [gameId]);
      return true;
    }

    /** getStats. */
    method GetStats() returns (gamesWithImages: nat, totalImages: nat)
      requires Valid()
      ensures gamesWithImages == |cache| && totalImages == TotalImages(order, cache)
    {
      GamesCount(State());
      assert State().order == order && State().cache == cache;
      assert forall k :: k in order ==> k in cache;
      gamesWithImages := |cache|;
      totalImages := 0;
      var i := 0;
      while i < |order|
        invariant 0 <= i <= |order|
        invariant totalImages == TotalImages(order[..i], cache)
      {
        assert order[i] in order;
        assert order[..i + 1][..i] == order[..i];
        totalImages := totalImages + |cache[order[i]].images|;
        i := i + 1;
      }
      assert order[..i] == order;
    }
  }
}
