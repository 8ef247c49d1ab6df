# HornyLink_v2 core, modelled in Dafny

HornyLink_v2 is an Electron desktop client for a game library. This project
models the parts of it that decide what happens to data. Network, disk,
processes and the DOM are left to their callers.

- **Download** (`src/logic/other/download.js`): the resumable chunked
  downloader.
  - `DownloadState` splits a file into pieces of `CHUNK_SIZE` bytes.
  - It persists which pieces are complete and restores them on restart.
  - `downloadChunk` retries a piece with a linearly growing pause.
  - `mergeChunks` concatenates the pieces and checks the SHA-256 hash.
  - `downloadFile` loops over batches of pending pieces.
  - The temporary directory (piece files, state files, outputs) is a class
    holding maps.
- **Lru / CacheTier / ImageCache** (`src/logic/cache/imageCache.js`): the
  two-tier image cache.
  - It has a RAM tier and a disk tier. Each tier is a Map of entries, an
    insertion order and a byte counter.
  - Each tier evicts entries by ascending `lastAccess` until the new item
    fits.
  - The disk tier's metadata.json is saved and reloaded.
  - `Lru` holds the sort and the eviction walk over plain sequences.
  - `CacheTier` holds one tier's bookkeeping.
  - `ImageCache` holds the class with its methods.
- **GameImages** (`src/logic/cache/gameImagesManager.js`): the per-game
  image folders.
  - It saves the downloaded images of a game and picks its logo and icon.
  - It writes and reloads `metadata.json`.
  - It re-saves only when the server's URL set changed.
  - It answers the local logo, icon, screenshot and image queries.
  - It deletes a game's folder.
- **Games** (`src/logic/games/games.js`):
  - `createSafeFolderName`;
  - the selection phase of `findMainExecutable` over a scanned exe list;
  - `addComment` validation;
  - `saveGameInfo` field stripping;
  - the running-games Map kept by `launchGame`/`closeGame`.
- **Library** (`src/public/scripts/library.js`), the renderer's pure logic:
  - grouping games by play period;
  - the play-date sort;
  - the watcher's new/updated diff;
  - the search filter;
  - role classes;
  - comment-age buckets;
  - the comment counter and submit.
- **OsUtils** (`src/utils/osUtils.js`): `getDisks`, which parses `wmic`
  output on Windows and `/proc/mounts` elsewhere.
- **State** (`src/state.js`):
  - the settings merge and update;
  - the translation cache of `getMessage`;
  - the language listing;
  - the user record.
- **StaticTranslations** (`src/public/scripts/modules/staticTranslations.js`):
  how a `data-i18n` key or a key passed to `window.t` becomes a
  (namespace, key) request, and the fallbacks of `t`.
- **Common**: string, sequence and path helpers shared by the modules. It
  covers JavaScript's `trim`, `split`/`join`, `toLowerCase` on ASCII and
  Cyrillic letters, UTF-16 length, and `path.basename`/`extname`.

Inputs that the source obtains from the outside world are parameters:

- network replies and download attempts;
- MD5 and SHA-256;
- `Date.now()`;
- JSON parsing;
- command output and file text.

A filesystem is a `map` from paths to contents.

## Model

| member | source | states |
|---|---|---|
| Common.TrimSpec | src/public/scripts/library.js:464 | `trim()` gives a slice of the input with no JS whitespace at either end, empty exactly when the input is all whitespace |
| Common.TrimIdempotent | src/public/scripts/library.js:464 | trimming twice is trimming once |
| Common.TrimShorter | src/logic/games/games.js:557-565 | trimming never makes the UTF-16 length grow, so a comment within 256 code units stays within it after trimming |
| Common.JoinSplit | src/public/scripts/modules/staticTranslations.js:14-19 | `split(sep).join(sep)` gives back the input |
| Common.SplitSingleIffNoSep | src/public/scripts/modules/staticTranslations.js:14-19 | `split` gives one piece exactly when the separator does not occur |
| Common.Dedup | src/utils/osUtils.js:39-42 | `[...new Set(list)]`: no repeats, the same members, never longer, and each kept element in the order of its first occurrence in the input |
| Common.Filter | src/logic/games/games.js:999-1004 | `Array.prototype.filter`: exactly the elements that pass, never more than the input, in input order (the i-th kept element is the input element at the i-th passing position) |
| Common.FilterAll | src/public/scripts/library.js:115-117 | filtering with a test every element passes gives the input back |
| Common.MapsInOrderMembers | src/logic/cache/gameImagesManager.js:320-339 | `filter(p).map(g)` holds exactly the images of the passing elements and is never longer than the input |
| Common.DedupKeepsHead | src/utils/osUtils.js:39-42 | deduplicating keeps the first element first |
| Common.NatToStringInjective | src/logic/games/games.js:441-459 | different ids give different decimal strings (and so different file names) |
| Common.PlainName | src/state.js:135-140 | a name without '/' is its own last path segment |
| Download.SafeFileName | src/logic/other/download.js:40-42 | one output character per UTF-16 unit of the key, each a letter, digit, '.', '_' or '-' |
| Download.SafeFileNameConcat | src/logic/other/download.js:40-42 | the replacement works unit by unit: the safe name of a concatenation is the concatenation of the safe names |
| Download.SafeFileNameChar | src/logic/other/download.js:40-42 | a safe character is kept, another BMP character becomes '_', a character above U+FFFF becomes '__' |
| Download.SafeFileNameInPlace | src/logic/other/download.js:40-42 | for a key inside the BMP, each position keeps its safe character or holds '_' |
| Download.SafeFileNameKeepsSafeKeys | src/logic/other/download.js:40-42 | a key made only of safe characters is unchanged |
| Download.ChunkCountIsCeiling | src/logic/other/download.js:26 | the number of pieces is `ceil(totalSize / CHUNK_SIZE)`, zero only for an empty file |
| Download.PlanShape | src/logic/other/download.js:26-37 | piece i lies inside the file, is `CHUNK_SIZE` long except possibly the last, the next piece starts right after it, and the last ends at the last byte |
| Download.ByteInExactlyOneChunk | src/logic/other/download.js:26-37 | byte b lies in piece i exactly when i = b / CHUNK_SIZE, so the pieces do not overlap and cover every byte |
| Download.PlanCoversFile | src/logic/other/download.js:26-37 | the pieces' lengths add up to the file size |
| Download.Pending | src/logic/other/download.js:101-105 | the pending list holds exactly the chunks not yet downloaded |
| Download.PendingIncreasing | src/logic/other/download.js:101-105 | filtering keeps the chunks in ascending id order |
| Download.AddOnce | src/logic/other/download.js:112-114 | recording an id keeps the old ids as a prefix, adds the id, and never introduces a repeat |
| Download.FirstMissing | src/logic/other/download.js:195-200 | the first piece whose file is missing; every earlier piece's file exists |
| Download.MergedLayout | src/logic/other/download.js:195-207 | with every piece file present at its length, the merged output is `totalSize` long and its bytes start..end are piece i's file |
| Download.TakePendingFacts | src/logic/other/download.js:101-105 | a batch has at most `count` pieces, all pending chunks of the list, in ascending id order |
| Download.TakePendingEmpty | src/logic/other/download.js:101-105 | for count > 0 the batch is empty exactly when every piece is downloaded (`isComplete`, lines 120-122) |
| Download.TakePendingSkipped | src/logic/other/download.js:101-105 | a pending piece is left out of a batch only when the batch is full of pieces with smaller ids |
| Download.DownloadState.constructor | src/logic/other/download.js:16-38 | the state starts with the planned pieces, none downloaded, and nothing completed |
| Download.DownloadState.GetNextChunks | src/logic/other/download.js:101-105 | at most `count` pending pieces, ascending, the first ones pending, empty exactly when complete |
| Download.DownloadState.GetProgress | src/logic/other/download.js:125-133 | progress counts the recorded completed ids against the number of pieces; while every downloaded piece is listed, that count is at least the number of pieces actually in |
| Download.ProgressBound | src/logic/other/download.js:125-133 | when every downloaded piece's id is listed, the downloaded pieces are no more than the listed ids |
| Download.RestoreListedBacked | src/logic/other/download.js:58-63 | resuming a fresh plan flags only pieces whose id is listed and whose file exists |
| Download.ProgressOverCount | src/logic/other/download.js:58-63 | a resumed one-piece download whose state lists piece 0 while its file is gone reports 1 of 1 with no piece in |
| Download.DownloadState.ClearState | src/logic/other/download.js:88-98 | every piece file and the state file are removed and `completed` is emptied; nothing else is touched |
| Download.DownloadState.LoadState | src/logic/other/download.js:45-74 | no state file: nothing changes. A file for another hash (or unparsable): everything is cleared and false returned. The same download: `completed` is restored and a piece counts as downloaded only when its id is listed and its file exists |
| Download.DownloadState.MarkComplete | src/logic/other/download.js:108-117 | a known id flags its piece, is recorded once and the state is saved; an unknown id changes nothing; every downloaded piece stays listed |
| Download.FirstSuccess | src/logic/other/download.js:138-185 | the first attempt number that succeeds, every earlier one having failed |
| Download.RetryDelays | src/logic/other/download.js:183 | the pause after failed attempt k is 1000·k ms |
| Download.TotalRetryDelay | src/logic/other/download.js:183 | n failed attempts pause 500·n·(n+1) ms in total |
| Download.DownloadChunk | src/logic/other/download.js:137-186 | on the first successful attempt k the piece file holds its body after k−1 pauses; if every one of the `retries` attempts fails the directory is unchanged and the piece is given up |
| Download.MergeChunks | src/logic/other/download.js:189-234 | a missing piece stops the merge with the pieces before it written; otherwise the output is the in-order concatenation, and on a matching hash the temporary files and the state are cleared, on a mismatch the merge fails with the hash-mismatch error and keeps the pieces |
| Download.FetchPiece | src/logic/other/download.js:331-338 | only this piece's flag changes, and it ends set exactly when it was set or some attempt succeeds; on success the piece file holds the first successful body, the id is recorded once and the state saved; otherwise the completed list and both file maps are unchanged |
| Download.BatchFilesSpec | src/logic/other/download.js:330-345 | a batch writes exactly the files of its fetched pieces, each holding that piece's first successful body |
| Download.FetchBatch | src/logic/other/download.js:330-345 | exactly the batch's fetched pieces become downloaded, every other flag is kept; the completed list only grows, by exactly the fetched ids, without repeats; the piece files gain exactly the fetched bodies; the state file is saved exactly when something was fetched |
| Download.KeepsProgressStep | src/logic/other/download.js:321-346 | one more batch keeps every flag, the completed list's prefix, every file, and the fact that downloaded pieces have their files and listed ids |
| Download.FetchPending | src/logic/other/download.js:321-350 | the loop reports completion exactly when every piece is downloaded and stops short only after the full `maxBatches` (so the empty-batch exit is never taken); no flag, listed id or piece file is lost, other downloads' files are untouched, and downloaded pieces keep their files and listed ids |
| Download.NoneMissing | src/logic/other/download.js:195-200 | with every piece in and every downloaded piece backed by its file, the merge finds no piece missing |
| Download.DownloadFile | src/logic/other/download.js:277-376 | an unknown file fails with "not found" and only then; the loop's limit error occurs exactly when a piece is still pending; once every piece is in, the output is the pieces' files in index order, the result is Ok with the chosen path exactly when that content has the server's hash (and then the state file and piece files are gone), and otherwise the hash-mismatch error, the piece files kept |
| Lru.SortBy | src/logic/cache/imageCache.js:184-186 | the sort by `lastAccess` is a permutation ordered ascending |
| Lru.SortStable | src/logic/cache/imageCache.js:277-279 | entries with equal `lastAccess` keep their Map order |
| Lru.TakeVictims | src/logic/cache/imageCache.js:187-193 | the walk removes a prefix of the sorted entries: nothing when the item already fits, and it stops at the first point where it fits (or runs out) |
| Lru.VictimsLeastRecent | src/logic/cache/imageCache.js:280-296 | no evicted entry was accessed later than an entry that stays |
| Lru.SizeSumWithout | src/logic/cache/imageCache.js:187-193 | deleting distinct keys takes exactly their sizes off the total |
| Lru.RemoveKeysSpec | src/logic/cache/imageCache.js:187-193 | deleting keys removes exactly those keys and leaves the other entries as they were |
| CacheTier.StorePutKept | src/logic/cache/imageCache.js:164-170 | the corrected put keeps the counter equal to the sum of entry sizes, sets the key, leaves the other entries alone, and appends a new key to the order only once |
| CacheTier.CounterDrift | src/logic/cache/imageCache.js:164-170 | as written, re-setting a cached key leaves the counter too high by the old entry's size, breaking the counter invariant |
| CacheTier.StoreDeleteKept | src/logic/cache/imageCache.js:383-405 | subtracting the entry's size and deleting the key keeps the counter invariant and removes only that key |
| CacheTier.KeptCount | src/logic/cache/imageCache.js:434-453 | the Map's size is the length of its order |
| CacheTier.VictimsFacts | src/logic/cache/imageCache.js:178-194 | the victims are distinct keys of the tier, a prefix of the sorted keys |
| CacheTier.EvictedKept | src/logic/cache/imageCache.js:178-194 | eviction keeps the counter invariant, only removes entries, does nothing when the item fits, and afterwards the item fits or the tier is empty |
| CacheTier.EvictedLeastRecent | src/logic/cache/imageCache.js:271-298 | every evicted entry was accessed no later than every kept entry |
| CacheTier.EvictTier | src/logic/cache/imageCache.js:271-298 | the loop sweeps exactly when the item does not fit, ends in the evicted tier, and deletes exactly the victims' files |
| ImageCache.ExtFromContentType | src/logic/cache/imageCache.js:303-316 | a known image type maps to its extension, every other type to '.jpg'; the result is always one of the image extensions |
| ImageCache.IsImageUrl | src/logic/cache/imageCache.js:99-107 | true exactly when the URL parses and its lower-cased path ends in an image extension |
| ImageCache.SomeEndsWith | src/logic/cache/imageCache.js:105-106 | `some(endsWith)`: true exactly when one of the extensions ends the text |
| ImageCache.RamAddSpec | src/logic/cache/imageCache.js:153-173 | an item larger than the limit is refused with the tier unchanged; otherwise it is stored, other entries stay, and the tier ends within its limit; a fresh key that fits raises the counter by exactly its length |
| ImageCache.RamCounterDriftExample | src/logic/cache/imageCache.js:164-170 | setting a 3-byte item twice leaves the counter at 6 while the entries hold 3 bytes |
| ImageCache.MetaEntriesKeys | src/logic/cache/imageCache.js:350-370 | the saved metadata lists the keys in the Map's order |
| ImageCache.LoadedSpec | src/logic/cache/imageCache.js:321-345 | loading gives a consistent tier holding exactly the listed entries whose files still exist |
| ImageCache.SaveLoadRoundTrip | src/logic/cache/imageCache.js:321-370 | saving a consistent tier and loading it back, with every file present, gives the same tier |
| ImageCache.SavedOk | src/logic/cache/imageCache.js:350-370 | the saved metadata lists each key once |
| ImageCache.DiskEvictOk | src/logic/cache/imageCache.js:271-298 | disk eviction keeps the disk tier's invariant |
| ImageCache.DiskEvictSpec | src/logic/cache/imageCache.js:271-298 | disk eviction only removes entries, does nothing when the item fits, and afterwards it fits or the tier is empty |
| ImageCache.DiskEvictDir | src/logic/cache/imageCache.js:271-298 | each evicted entry's file is deleted, no other file changes, and the metadata is rewritten after a sweep |
| ImageCache.DiskEvictFiles | src/logic/cache/imageCache.js:280-294 | the files deleted are exactly those of the evicted entries |
| ImageCache.DiskAddOk | src/logic/cache/imageCache.js:199-236 | adding keeps the disk tier's invariant |
| ImageCache.DiskAddSpec | src/logic/cache/imageCache.js:199-236 | refused without a cache directory or when larger than the limit (tier unchanged); otherwise the file `<key><ext>` holds the buffer, the entry records it, other entries stay, and the metadata is saved |
| ImageCache.DiskGetSpec | src/logic/cache/imageCache.js:241-266 | a hit returns the file's bytes and stamps `lastAccess`; an entry whose file vanished is dropped; no other key changes |
| ImageCache.CacheGetSpec | src/logic/cache/imageCache.js:113-132 | get returns the RAM copy first, then the disk file, and keeps both tiers consistent |
| ImageCache.SetGetRoundTrip | src/logic/cache/imageCache.js:137-148 | after a set that one of the tiers accepts, get returns the buffer set |
| ImageCache.CacheDeleteSpec | src/logic/cache/imageCache.js:383-405 | the key leaves both tiers with its sizes subtracted, its disk file is deleted, and nothing else changes |
| ImageCache.ClearedSpec | src/logic/cache/imageCache.js:410-429 | clear deletes every entry's file and saves empty metadata |
| ImageCache.UnlinkAll | src/logic/cache/imageCache.js:416-424 | the loop deletes exactly the files of the disk entries |
| ImageCache.LoadEntries | src/logic/cache/imageCache.js:331-340 | the loading loop computes the loaded tier |
| ImageCache.ImageCache.constructor | src/logic/cache/imageCache.js:24-38 | empty tiers with the default limits, not initialised |
| ImageCache.ImageCache.Init | src/logic/cache/imageCache.js:43-74 | the first call sets the cache directory, applies non-zero limits and loads the metadata; later calls change nothing |
| ImageCache.ImageCache.LoadDiskCacheMetadata | src/logic/cache/imageCache.js:321-345 | the disk tier becomes the loaded metadata and is consistent |
| ImageCache.ImageCache.SaveDiskCacheMetadata | src/logic/cache/imageCache.js:350-370 | the directory gains the tier's metadata file |
| ImageCache.ImageCache.Get | src/logic/cache/imageCache.js:113-132 | get on the tiers, keeping the cache valid |
| ImageCache.ImageCache.Set | src/logic/cache/imageCache.js:137-148 | set adds to RAM and then to disk, keeping the cache valid |
| ImageCache.ImageCache.AddToRamCache | src/logic/cache/imageCache.js:153-173 | the RAM add with the corrected counter, keeping the RAM tier consistent |
| ImageCache.ImageCache.EvictRamCache | src/logic/cache/imageCache.js:178-194 | the RAM tier becomes its evicted form and stays consistent |
| ImageCache.ImageCache.AddToDiskCache | src/logic/cache/imageCache.js:199-236 | the disk add with the corrected counter, keeping the disk tier's invariant |
| ImageCache.ImageCache.GetFromDisk | src/logic/cache/imageCache.js:241-266 | the disk lookup, keeping the disk tier's invariant |
| ImageCache.ImageCache.EvictDiskCache | src/logic/cache/imageCache.js:271-298 | the disk tier and directory become their evicted forms |
| ImageCache.ImageCache.Delete | src/logic/cache/imageCache.js:375-405 | afterwards `has(url)` is false and the cache is valid |
| ImageCache.ImageCache.Clear | src/logic/cache/imageCache.js:410-429 | both tiers are empty with zero counters and the files are gone |
| ImageCache.ImageCache.StatsCount | src/logic/cache/imageCache.js:434-453 | the reported entry counts are the number of keys in each tier |
| ImageCache.ImageCache.SetMaxDiskCacheSize | src/logic/cache/imageCache.js:458-467 | the new limit is set and the disk tier is evicted down to it |
| ImageCache.ImageCache.SetMaxRamCacheSize | src/logic/cache/imageCache.js:472-481 | the new limit is set and the RAM tier is evicted down to it |
| GameImages.PutOrder | src/logic/cache/gameImagesManager.js:140 | `Map.set` keeps an existing key's position and appends a new one, without repeats |
| GameImages.MetadataPath | src/logic/cache/gameImagesManager.js:86-88 | metadata.json lies inside the game's image folder |
| GameImages.GameFoldersDisjoint | src/logic/cache/gameImagesManager.js:79-88 | two games never share a folder, and one game's metadata is never inside another game's folder |
| GameImages.ExtFromUrl | src/logic/cache/gameImagesManager.js:386-395 | the extension of the lower-cased pathname when it has one, '.jpg' when it has none or the URL does not parse; always a '.' followed by no other '.' or '/' |
| GameImages.ImagePath | src/logic/cache/gameImagesManager.js:188-190 | an image file lies inside the game's folder |
| GameImages.MakeRecordSpec | src/logic/cache/gameImagesManager.js:186-209 | the record keeps its URL, hashes the bytes, lies in the game's folder, and is a logo (icon) exactly when the lower-cased URL contains 'logo' ('icon') |
| GameImages.FirstLogoSpec | src/logic/cache/gameImagesManager.js:195-200 | a logo is found exactly when some record is a logo, and it is the first one |
| GameImages.IconFromSpec | src/logic/cache/gameImagesManager.js:195-202 | the icon is the first record naming an icon that was not taken as the logo in the same step |
| GameImages.FetchedSpec | src/logic/cache/gameImagesManager.js:181-218 | the successful indices, ascending |
| GameImages.SaveLoopSaved | src/logic/cache/gameImagesManager.js:181-218 | failed downloads are skipped and the saved records are those of the successful indices, in order |
| GameImages.SaveLoopFiles | src/logic/cache/gameImagesManager.js:181-218 | the loop writes one image file per saved record and nothing else |
| GameImages.SaveLoopHashes | src/logic/cache/gameImagesManager.js:181-218 | `serverHashes` maps exactly the saved URLs to their hashes |
| GameImages.SaveLoopPicks | src/logic/cache/gameImagesManager.js:181-218 | logo and icon are the first logo record and the first eligible icon record |
| GameImages.LogoOfSpec | src/logic/cache/gameImagesManager.js:220-222 | the logo is the first logo record, else the first saved image, and exists exactly when something was saved |
| GameImages.IconOfSpec | src/logic/cache/gameImagesManager.js:220-242 | the icon is the first eligible icon record, else the logo |
| GameImages.PicksSaved | src/logic/cache/gameImagesManager.js:195-242 | the chosen logo and icon are paths of saved images |
| GameImages.SavedPaths | src/logic/cache/gameImagesManager.js:181-218 | every saved image's file exists under a non-empty path in the game's folder |
| GameImages.SaveGameSaved | src/logic/cache/gameImagesManager.js:161-250 | for a non-empty URL list, the result holds the records of the successful downloads in order, and the cache entry holds them with their logo and icon |
| GameImages.SaveGameState | src/logic/cache/gameImagesManager.js:161-250 | a null or empty list changes nothing; otherwise only this game's entry changes, and the files gain exactly the images and metadata.json |
| GameImages.ExistingSpec | src/logic/cache/gameImagesManager.js:133-137 | keeps exactly the images whose files exist, in stored order (the i-th kept image is the stored image at the i-th position whose file exists) |
| GameImages.ExistingAll | src/logic/cache/gameImagesManager.js:133-137 | when every file exists, every image is kept |
| GameImages.LoadEntrySpec | src/logic/cache/gameImagesManager.js:124-153 | a game is cached exactly when its metadata exists and keeps an existing image, a logo or an icon; the entry holds the existing images in stored order, has a logo exactly when the metadata's logo is set and its file exists (and then that logo), the same for the icon, and the metadata's server hashes and update time |
| GameImages.LoadIntoOk | src/logic/cache/gameImagesManager.js:124-153 | loading one game keeps the Map consistent and touches no other game |
| GameImages.LoadWritten | src/logic/cache/gameImagesManager.js:124-153 | metadata whose files all exist loads back as written |
| GameImages.SaveThenLoad | src/logic/cache/gameImagesManager.js:161-250 | what `saveGameImages` writes, `_loadGameImages` reads back as the cached entry (with the save time) |
| GameImages.RemoveWithin | src/logic/cache/gameImagesManager.js:369 | removing a folder deletes exactly the files inside it |
| GameImages.DeleteGameSpec | src/logic/cache/gameImagesManager.js:353-381 | with a known drive, the game's entry and its folder go and nothing else; otherwise nothing changes and false is returned |
| GameImages.GamesCount | src/logic/cache/gameImagesManager.js:400-412 | the Map's size is the number of cached games |
| GameImages.TotalImagesBound | src/logic/cache/gameImagesManager.js:400-412 | each game's images count towards the total, which is 0 exactly when no game has an image |
| GameImages.UrlSetsDiffer | src/logic/cache/gameImagesManager.js:266-285 | an update is needed exactly when the server's URL set differs from the cached one |
| GameImages.PathsWhere | src/logic/cache/gameImagesManager.js:320-339 | the paths of the existing images, leaving out logos for screenshots, in stored order |
| GameImages.LoadAllOk | src/logic/cache/gameImagesManager.js:93-119 | loading everything found keeps the Map consistent and writes no file |
| GameImages.FilterExisting | src/logic/cache/gameImagesManager.js:133-137 | the loop keeps the images whose files exist |
| GameImages.GameImagesManager.constructor | src/logic/cache/gameImagesManager.js:57-61 | an empty cache, not initialised |
| GameImages.GameImagesManager.Put | src/logic/cache/gameImagesManager.js:140 | `Map.set` on the cache |
| GameImages.GameImagesManager.Init | src/logic/cache/gameImagesManager.js:66-74 | the first call loads everything found on the disks; later calls change nothing |
| GameImages.GameImagesManager.LoadGameImages | src/logic/cache/gameImagesManager.js:124-153 | `_loadGameImages` on the manager |
| GameImages.GameImagesManager.SaveGameImages | src/logic/cache/gameImagesManager.js:161-250 | `saveGameImages` on the manager |
| GameImages.GameImagesManager.DownloadAll | src/logic/cache/gameImagesManager.js:181-218 | the loop computes the saved records, picks, hashes and files |
| GameImages.GameImagesManager.SaveImage | src/logic/cache/gameImagesManager.js:186-209 | writes the buffer to the record's path and returns the record |
| GameImages.GameImagesManager.UpdateGameImagesIfNeeded | src/logic/cache/gameImagesManager.js:255-293 | re-saves exactly when the URL sets differ, else returns the cached images |
| GameImages.GameImagesManager.GetLocalLogo | src/logic/cache/gameImagesManager.js:298-304 | the cached logo when it is set and its file exists |
| GameImages.GameImagesManager.GetLocalIcon | src/logic/cache/gameImagesManager.js:309-315 | the cached icon when it is set and exists, else the local logo; always an existing file |
| GameImages.GameImagesManager.GetLocalScreenshots | src/logic/cache/gameImagesManager.js:320-327 | the existing non-logo images' paths, in stored order; nothing for an uncached game |
| GameImages.GameImagesManager.GetLocalImages | src/logic/cache/gameImagesManager.js:332-339 | the existing images' paths, in stored order; nothing for an uncached game |
| GameImages.GameImagesManager.DeleteGameImages | src/logic/cache/gameImagesManager.js:353-381 | `deleteGameImages` on the manager |
| GameImages.GameImagesManager.GetStats | src/logic/cache/gameImagesManager.js:400-412 | games with images is the Map's size; total images is the sum of the per-game counts |
| Games.KeepAllowed | src/logic/games/games.js:1068 | keeps exactly the folder characters and whitespace, in order |
| Games.CollapseSpec | src/logic/games/games.js:1069 | collapsing leaves no whitespace and never lengthens the text |
| Games.SafeFolderNameSpec | src/logic/games/games.js:1066-1071 | at most 100 characters, all from `[a-zA-Z0-9а-яА-Я_-]`, no whitespace, a prefix of the collapsed filtered title |
| Games.CollapseRun | src/logic/games/games.js:1069 | a maximal whitespace run becomes one '_' |
| Games.SafeFolderNameIdempotent | src/logic/games/games.js:1066-1071 | a folder name is its own folder name |
| Games.AlnumOnlyMembers | src/logic/games/games.js:1000 | the replace keeps exactly the ASCII letters and digits |
| Games.Matches | src/logic/games/games.js:999-1004 | the exes whose stripped name contains a keyword and whose name contains no avoid pattern, in scan order |
| Games.BestIndexSpec | src/logic/games/games.js:1006 | the pick is outranked by no exe (larger size, then smaller depth) and outranks every earlier one |
| Games.FindExeByKeywordsSpec | src/logic/games/games.js:998-1007 | none exactly when nothing matches; otherwise a matching exe no other match outranks, and which strictly outranks every match found before it in the scan |
| Games.BestFirstInScan | src/logic/games/games.js:998-1007 | the pick sits at a scan position before which every match is strictly outranked by it |
| Games.FindIndex | src/logic/games/games.js:988 | `find` as an index: the first exe satisfying the test, or none |
| Games.LargestIndexSpec | src/logic/games/games.js:1052-1057 | the reduce keeps the first of the largest |
| Games.RootExes | src/logic/games/games.js:1050 | exactly the exes at depth 0, in scan order |
| Games.Find | src/logic/games/games.js:1020-1035 | `find`: the first satisfying exe of the list, or none when no exe satisfies the test |
| Games.DbIndex | src/logic/games/games.js:987-988 | the first exe named like `db_exe` ignoring case; none when no exe is |
| Games.CandidatesListed | src/logic/games/games.js:1009-1043 | every engine candidate is a scanned exe |
| Games.ByEngineListed | src/logic/games/games.js:1009-1047 | an engine pick is one of the scanned paths; Flash picks the first exe |
| Games.ByEngineLabels | src/logic/games/games.js:1009-1047 | an engine is named only when its indicator was found; RPG Maker wins whenever its indicator and keyword match |
| Games.FallbackSpec | src/logic/games/games.js:1049-1058 | 'Unknown' with the largest root exe when there is one, else the largest exe; on a tie the first in scan order |
| Games.FallbackRoot | src/logic/games/games.js:1049-1057 | the chosen root exe is the largest root, strictly larger than every root before it in the scan |
| Games.SelectSpec | src/logic/games/games.js:982-1058 | an empty list gives no exe; a `db_exe` match wins with `engine` or 'Unknown'; otherwise the engine checks, then the fallback; a non-empty list always yields one of its own paths |
| Games.RpgRtNeverMatches | src/logic/games/games.js:1000-1011 | as written, no stripped name contains 'rpg_rt' |
| Games.RpgRtMissed | src/logic/games/games.js:1000-1011 | as written, RPG_RT.exe matches no RPG keyword |
| Games.RpgRtExample | src/logic/games/games.js:1000-1012 | as written, a lone RPG_RT.exe is labelled 'Unknown'; corrected, 'RPG Maker' |
| Games.RpgRtName | src/logic/games/games.js:1000 | the stripped name of RPG_RT.exe starts with 'rpgrt' |
| Games.RpgRtMatches | src/logic/games/games.js:1010-1011 | with the keyword 'rpgrt', RPG_RT.exe matches |
| Games.CommentBody | src/logic/games/games.js:551-575 | accepted exactly when online, non-blank and within 256 UTF-16 units, and then the body is the trimmed text; offline and blank give their own errors |
| Games.AddComment | src/logic/games/games.js:551-589 | a comment refused by the checks is refused with that error before any request; otherwise the trimmed text is posted, a failed request is refused with its message, a successful reply gives its comment id, and an unsuccessful one its error or 'Неизвестная ошибка' when it has none |
| Games.AddCommentPostsTrimmed | src/logic/games/games.js:567-583 | a valid comment's outcome depends only on the answer to its trimmed text; an answer without success or error gives 'Неизвестная ошибка' |
| Games.AddCommentNoRequest | src/logic/games/games.js:557-567 | an invalid comment gets the same refusal whatever the server would answer |
| Games.StripInstallFields | src/logic/games/games.js:452-454 | the object loses exactly `isInstalled`, `installPath` and `executablePath`; every other field is kept |
| Games.GameInfoPathsDistinct | src/logic/games/games.js:445-447 | different games have different info files on a drive |
| Games.PlayTime | src/logic/games/games.js:229-231 | the whole seconds since launch, 0 for a game not running |
| Games.Games.constructor | src/logic/games/games.js:134-138 | no running game and no download in progress |
| Games.Games.LaunchGame | src/logic/games/games.js:157-262 | a process starts exactly when the game is not running, installed with an exe that exists; it is then recorded with its start time, else nothing changes |
| Games.Games.ProcessEnded | src/logic/games/games.js:229-245 | the 'close' handler removes the game and reports its play time |
| Games.Games.CloseGame | src/logic/games/games.js:269-308 | true exactly when the game runs and `kill()` reports success; only a throwing kill removes the entry |
| Games.Games.SaveGameInfo | src/logic/games/games.js:441-459 | the info file holds the game object without the install fields |
| Games.Games.ClearDownloadingData | src/logic/games/games.js:1277-1282 | every download flag and object is reset |
| Library.SortDescSpec | src/public/scripts/library.js:53 | the sort orders by date, descending, and is a permutation |
| Library.InGroupMembers | src/public/scripts/library.js:24-46 | a group holds exactly the games whose key is its own |
| Library.CollectSpec | src/public/scripts/library.js:24-46 | the forEach puts each game in the list of its key, in list order, with one month entry per month that has games |
| Library.CollectByPeriod | src/public/scripts/library.js:24-46 | the loop computes the collected groups |
| Library.AddMonthGroups | src/public/scripts/library.js:54-56 | the loop appends one group per sorted month |
| Library.GroupGamesByPeriod | src/public/scripts/library.js:17-60 | the method returns the assembled groups |
| Library.SortedEntriesSpec | src/public/scripts/library.js:52-53 | the month entries sorted by date, descending, one per month |
| Library.CollectedGroups | src/public/scripts/library.js:24-46 | the collected state is well formed |
| Library.GroupsContents | src/public/scripts/library.js:17-60 | every group is non-empty and holds exactly the games of its key |
| Library.GroupsDistinct | src/public/scripts/library.js:17-60 | no key appears twice |
| Library.GroupsCover | src/public/scripts/library.js:17-60 | every game is in the group of its own key and in no other |
| Library.GroupsTitles | src/public/scripts/library.js:17-60 | fixed titles for 'recent' and 'no-data', the month's title for a month |
| Library.GroupsOrder | src/public/scripts/library.js:48-60 | 'recent' first, 'no-data' last, the months by descending date between them |
| Library.SortByLastPlay | src/public/scripts/library.js:1053-1057 | a permutation ordered by play date, latest first, a missing date counting as epoch 0 |
| Library.FindById | src/public/scripts/library.js:1121-1126 | the first game with that id, none when no game has it |
| Library.NewGames | src/public/scripts/library.js:1121-1123 | exactly the games whose id is not known |
| Library.UpdatedGames | src/public/scripts/library.js:1125-1132 | exactly the known games whose play date, playtime or install flag changed |
| Library.NewAndUpdatedDisjoint | src/public/scripts/library.js:1121-1132 | no game is both new and updated |
| Library.WatcherQuiet | src/public/scripts/library.js:1121-1134 | the watcher stays quiet exactly when every game is known and unchanged |
| Library.RemovalNotNoticed | src/public/scripts/library.js:1121-1134 | a removed game alone does not trigger a refresh |
| Library.FilterGames | src/public/scripts/library.js:115-117 | the games whose lower-cased title contains the lower-cased term, in list order; every game for an empty term |
| Library.EmptySearchShowsAll | src/public/scripts/library.js:115-117 | an empty term shows the whole list in order |
| Library.SearchIgnoresCase | src/public/scripts/library.js:190-192 | the result does not depend on the case of the term or of the title |
| Library.UserRoleClass | src/public/scripts/library.js:1171-1184 | '' for no string or no role; else the class of the highest role found ignoring case |
| Library.AgeBucket | src/public/scripts/library.js:307-324 | the buckets partition the age at 1 minute, 1 hour, 1 day and 1 week, each count being the floor of the age in its unit |
| Library.CommentAgeOf | src/public/scripts/library.js:307-324 | unknown exactly for a missing or empty date, otherwise the bucket of its age |
| Library.AgeMonotone | src/public/scripts/library.js:307-324 | an older comment never lands in a more recent bucket or shows a smaller count |
| Library.CommentCounter | src/public/scripts/library.js:446-461 | the count is the UTF-16 length; 'warning' exactly above 230 and 'limit' exactly above 250; the button is enabled exactly for 1..256 |
| Library.SubmitContent | src/public/scripts/library.js:463-466 | sends the trimmed text for the current game, nothing for blank text or when there is no game or its id is 0 (falsy) |
| Library.EnabledSubmitAccepted | src/public/scripts/library.js:446-466 | online, a comment sent from an enabled button passes `addComment`'s checks |
| Library.CounterAgreesWithAddComment | src/public/scripts/library.js:446-461 | for text without surrounding whitespace, the button is disabled exactly when `addComment` would refuse it online |
| OsUtils.TrimmedLines | src/utils/osUtils.js:13-14 | the trims of the non-blank lines, one per such line, in line order |
| OsUtils.TrimmedLinesHead | src/utils/osUtils.js:13-15 | the first entry, which `slice(1)` drops, is the first non-blank line trimmed |
| OsUtils.TrimmedLinesMembers | src/utils/osUtils.js:13-14 | exactly the non-blank trims of the lines |
| OsUtils.DriveRoots | src/utils/osUtils.js:15 | each kept line is a drive root such as `C:\` |
| OsUtils.DriveRootsMembers | src/utils/osUtils.js:15 | a drive root is listed exactly when its name is a line that looks like a drive |
| OsUtils.WindowsDisksSpec | src/utils/osUtils.js:12-18 | every disk is a drive root, and a drive is reported exactly when its name is a line after the header |
| OsUtils.WindowsHeaderDropped | src/utils/osUtils.js:15 | the first non-blank line is never reported |
| OsUtils.KeptMounts | src/utils/osUtils.js:25-37 | only disk mount points are kept |
| OsUtils.KeptMountsMembers | src/utils/osUtils.js:25-37 | exactly the second fields that look like disk mount points |
| OsUtils.UnixDisksSpec | src/utils/osUtils.js:21-42 | the result starts with '/', has no repeats, holds exactly '/' and the disk mount points, in the order the forEach first pushed them; only '/' when the file cannot be read |
| OsUtils.CollectMounts | src/utils/osUtils.js:24-37 | the loop collects '/' and the kept mount points |
| OsUtils.GetDisks | src/utils/osUtils.js:7-44 | each platform's branch result |
| State.LocalUserBase.constructor | src/state.js:8-10 | every field starts null |
| State.LocalUserBase.SetUserData | src/state.js:12-16 | every field is replaced, an omitted one by null |
| State.Merge | src/state.js:35 | the saved keys win and every other default key keeps its default |
| State.Store | src/state.js:54-62 | the key gets the new value, every other setting and the key set stay, the saved object is the new settings, and the translation cache is untouched |
| State.Lookup | src/state.js:98-105 | the message when present and non-empty, else `section.code` |
| State.GetMessageKeepsDefaults | src/state.js:84-106 | getMessage keeps every setting key |
| State.GetMessageCached | src/state.js:84-106 | a cached current language is answered without reading a file or changing state |
| State.GetMessageCurrent | src/state.js:84-120 | after a successful load the language is current and answered from the cache, and the setting is saved |
| State.GetMessageLoadFails | src/state.js:87-96 | a failed load answers the error text and leaves the cache alone |
| State.SwitchBackRereads | src/state.js:87-96 | a cached language that was not the last one loaded is read again |
| State.UpdateSettingSpecProps | src/state.js:54-62 | true and saved exactly for an existing key; an unknown key leaves the settings unchanged |
| State.LoadSettingsProps | src/state.js:28-43 | the saved text parsed merges over the defaults; a missing, empty or unparsable file leaves the settings unchanged |
| State.ClearedReloads | src/state.js:122-126 | after clearCache no language is current |
| State.ApplicationSettings.constructor | src/state.js:21-26 | the settings start as the defaults |
| State.ApplicationSettings.SaveSettings | src/state.js:45-52 | the settings file holds the settings |
| State.ApplicationSettings.UpdateSetting | src/state.js:54-62 | `updateSetting` on the static state |
| State.ApplicationSettings.LoadSettings | src/state.js:28-43 | `loadSettings` on the static state |
| State.LanguageVariables.constructor | src/state.js:66-67 | empty cache, no language loaded |
| State.LanguageVariables.GetMessage | src/state.js:84-120 | `getMessage` on the static state |
| State.LanguageVariables.ClearCache | src/state.js:122-126 | the cache is emptied and no language is loaded |
| State.JsonFileCode | src/state.js:137-140 | a '.json' file's code with the extension put back is its name |
| State.LanguagesOf | src/state.js:135-153 | at most one entry per file |
| State.LanguagesOfMembers | src/state.js:135-153 | one entry per readable '.json' file, and no other |
| State.EntryShape | src/state.js:135-153 | each entry comes from a '.json' file and its code is that file's name without '.json' |
| State.LanguagesOfCodesDistinct | src/state.js:128-161 | distinct file names give distinct language codes |
| State.GetAllLanguagesWithTag | src/state.js:128-161 | no entries when the directory cannot be listed, else the entries of the listed files |
| StaticTranslations.SplitKey | src/public/scripts/modules/staticTranslations.js:14-19 | a dotted input is namespace + '.' + key with a dot-free namespace; an undotted one is the key in the default namespace |
| StaticTranslations.SplitAtFirstDot | src/public/scripts/modules/staticTranslations.js:86-91 | the cut is at the first '.', the key keeping any later dots |
| StaticTranslations.ElementNamespace | src/public/scripts/modules/staticTranslations.js:20-23 | a non-empty namespace attribute, else 'ui' |
| StaticTranslations.ElementRequest | src/public/scripts/modules/staticTranslations.js:9-23 | skipped exactly for a missing or empty attribute; a dotted attribute is cut at its first '.'; an undotted one is the key in the element's namespace |
| StaticTranslations.ElementText | src/public/scripts/modules/staticTranslations.js:9-42 | nothing for a skipped element; otherwise exactly the answer to the element's request |
| StaticTranslations.TFallbacks | src/public/scripts/modules/staticTranslations.js:82-104 | '' for an empty or non-string key; the message on success; the key itself on failure |
| StaticTranslations.TFailureVisible | src/public/scripts/modules/staticTranslations.js:100-103 | an unresolvable usable key shows as itself, never as '' |
| StaticTranslations.ElementAgreesWithT | src/public/scripts/modules/staticTranslations.js:14-23 | an element and `t` ask for the same message for a dotted key, and for an undotted one exactly when the element's namespace is 'ui' |

## Left out

- Network I/O is not modelled. This covers the axios requests of the downloader, `downloadImage`, `fetch` in `addComment`, and `internetUtils.js`. Each reply or attempt is a parameter.
- Filesystem calls are not modelled. Files are maps from paths to contents, and `path.join` only concatenates with '/' (no normalisation). `mkdirSync`, file modes and partial writes are not modelled.
- MD5 and SHA-256 are function parameters, so nothing is claimed about their values. `auth.js` (the cookie and its AES encryption) is not part of this model.
- Time is not modelled. `Date.now()` is a `now` parameter. `setTimeout` (the SIGKILL after 5 s) and `setInterval` (the game watcher's polling) are left out.
- The retry pauses are modelled as the list of delays they would wait, not as waiting.
- Floating point and formatting are not modelled. This covers `_formatSize`, the `getStats` percentages, `getFileSize`/`formatFileSize` and the download progress percentage.
- Processes and the OS are not modelled. This covers `spawn`/`kill`, shortcut creation, the `execSync` of `wmic`, the reading of /proc/mounts, and the directory scan of `findMainExecutable`.
  - The scan's result (the exe list and the engine indicators) is a parameter.
  - `CloseGame` takes the result of `kill()` as an input.
- DOM work is not modelled: writing the text into elements, the MutationObserver, rendering of groups and comments, and the dropdowns.
- Pause, resume, stop, hybrid sources and the circuit breaker are not modelled. `games.js` imports these download features, but `download.js` does not export them.
- `games.js:1138` calls `downloadFile(fileKey, archivePath, tempDir, game.storage_url)` with four arguments, while `download.js:277` declares two; Download.DownloadFile models the two-parameter function, so the extra directory and URL have no counterpart.
- Games.CommentBody, Games.AddComment and Games.Games.LaunchGame take the online flag and the installed game record as inputs. In the source they come from `AppVariables` and `GameCollection`, which `games.js:1` takes from `state.js`, but `state.js` exports only `LocalUserBase`, `LanguageVariables` and `ApplicationSettings` (likewise `GameCollection` in `ipcHandlers_games.js:2`, `AppVariables` in `ipcHandlers_os.js:2` and `internetConnection` in `main.js:5`). As written, `AppVariables.isOnline` throws, so addComment answers every comment with the TypeError's message (games.js:585-587), and `GameCollection.getInstalledGameById` throws into launchGame's catch, so no game is spawned. The model follows the evidently intended wiring.
- Promise concurrency is not modelled. `Promise.all` over a batch is a sequential pass, so an interleaving of two downloads of the same piece is not covered.
- Download.FetchPending: the `while (!isComplete())` loop stops after `maxBatches` batches, and Download.DownloadFile then returns an error that the source has no counterpart for. In the source the loop has no bound: a piece that always fails is retried in every batch forever. That endless retrying is not modelled. The contract shows the loop ends early only when every piece is in, so the source's 'not all chunks' throw (download.js:348-350) is reached only through this bound.
- Download.FetchBatch: the order in which fetched ids join `completed` is not stated; in the source it is the order in which the parallel requests finish.
- Download.DownloadFile: the progress messages, the set of servers used and the timings are left out.
- Download.DownloadState.GetProgress: the percentage is left out. The model keeps the source's count of `completed` ids, which after a resume may include ids whose files are missing (Download.ProgressOverCount).
- JSON parsing is a parameter `parse` returning an optional value. Malformed JSON is `None`, and JSON of the wrong shape is not distinguished.
- `changeLanguage` (state.js:69-82) is not modelled. It is not called by the modelled core, and it refers to an undefined variable `code`.
- `getCurrentLanguage` and the IPC handlers are not modelled.
- Setting values are strings in the model, so non-string JSON values are not modelled.
- A throw of `readFileSync` in `loadSettings` is modelled like a missing file. A failure of `writeFileSync` in `saveSettings` is not modelled.
- JavaScript's distinction between `null` and `undefined`, and invalid dates (`NaN`), are not modelled. A date string is parsed by a parameter `parse`.
- Games.Games.LaunchGame: the update of `lastPlayDate` and the total playtime in the game info file is not modelled, and neither is its failure. When `updateGameField` or `getInstalledGameById` throws after `spawn` (games.js:207-209), the catch at games.js:247-260 deletes the `runningGames` entry and returns null while the spawned process keeps running; the model returns the process and keeps the entry. `downloadAndInstallGame` is not modelled either.
- Library.SortByLastPlay: stability of the sort for equal dates is not stated. `Array.prototype.sort` guarantees it, but the UI does not depend on it.
- Library.UserRoleClass and Common.ToLower: `toLowerCase` is modelled on ASCII and Cyrillic letters only.
- Common.Utf16Length: a character beyond the Basic Multilingual Plane counts as two units. Unpaired surrogates are not distinguished.

## Findings

| source | as written | input that shows it | evidently intended | confidence | as-written member | corrected member |
|---|---|---|---|---|---|---|
| src/logic/cache/imageCache.js:164-170 (and :218-226) | `Map.set(key, …)` then `ramCacheSize += size` (likewise `diskCacheSize`), without subtracting the size of an entry already stored under `key` | set the same 3-byte image twice: the counter reads 6 while the cache holds 3 bytes, and eviction then runs too early | the counter equals the sum of the stored entries' sizes, so re-setting a key first takes off the old size | not executed | CacheTier.CounterDrift, ImageCache.RamCounterDriftExample | CacheTier.StorePutKept |
| src/logic/games/games.js:1000-1011 | RPG Maker keywords `['game', 'rpg_rt']`, matched against `name.replace(/[^a-zA-Z0-9]/g, '')` | a folder whose only exe is `RPG_RT.exe`, with the RPG indicator set: the stripped name is `rpgrtexe`, no keyword matches, and the result is 'Unknown' | the engine's own runtime `RPG_RT.exe` is recognised, i.e. the keyword is compared in its stripped form `rpgrt` | not executed | Games.RpgRtMissed, Games.RpgRtNeverMatches, Games.RpgRtExample | Games.RpgRtMatches |
