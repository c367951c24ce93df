# Asset sync and cache of the Counter-Strike web client

This project models how the browser client in `docker/cs-web-server/src/client/main.ts` gets the game data (`valve.zip`) into the engine's in-memory filesystem under `/rodir`, and proves properties of that model. The client works in these steps:

1. It resolves a version tag for the remote bundle. The tag is the entity tag of a HEAD probe, else the probe's `last-modified` header, else the trimmed text of a `valve.version` sidecar, else `null`.
2. It compares that tag with the one stored in IndexedDB.
3. If the tags match, it restores the cached generation from the FILES object store into `/rodir/`.
4. Otherwise it downloads the bundle with byte progress and expands every file entry into `/rodir/` with per-entry progress. When IndexedDB is available, it then replaces the cached generation and the stored byte count, and the stored tag when one resolved.
5. It enters `/rodir`.

Every step reports records on a progress channel. The model keeps those records in a log.

Modules, one per part of the source:

- `Common`: bytes, `Option`/`Result` and the failures the pipeline can throw.
- `Progress`: the progress records. `reportProgress` is a `Bus` whose `log` grows by one record per post.
- `Paths`: the directory computation `'/rodir/' + p.split('/').slice(0, -1).join('/')`, and the file path `'/rodir/' + p`.
- `Download`: `fetchArrayBufferWithProgress`. It handles streamed and buffered bodies, the error record and the final concatenation.
- `Cache`: the IndexedDB layer, as a `Store` class with a FILES map and a META map. It covers `idbGet`, `idbSet`, `idbClear` and `idbPutMany`.
- `TargetFs`: the engine filesystem as `main` uses it (`mkdir`/`mkdirTree`, `writeFile`, `chdir`).
- `Version`: `getRemoteValveTag`, with `String.prototype.trim` written out.
- `Restore`: `idbRestoreToFS`, the cursor replay into the filesystem.
- `Unzip`: the expand pass of the download branch: filtering, the size table, the entry loop, staging and the progress records. `UnzipFacts` holds the facts about its records.
- `Sync`: `main` from `FS.mkdir('/rodir')` to `FS.chdir('/rodir')`. It covers the restore/download decision, both branches and the persistence step.

Inputs that the source gets from the outside world are parameters of the model:

- the HEAD probe and the sidecar response (`Probe`, `Sidecar`);
- the bundle response, with its body given as the sequence of values `reader.read()` returns (`Response`);
- whether IndexedDB is available (`canIDB`);
- the order in which the FILES cursor visits the stored paths (`order`);
- what `loadAsync` makes of the downloaded bytes (`unpack`);
- for each zip entry: its declared size, the `percent` values the library passes to `onUpdate`, and whether it inflates.

## Model

| member | source | states |
|---|---|---|
| Progress.Bus.Report | docker/cs-web-server/src/client/main.ts:18-20 | a post appends exactly that record to the channel's log and never fails |
| Download.Concatenate | docker/cs-web-server/src/client/main.ts:56-58 | copying the chunks at running offsets into a buffer of the summed length gives exactly the chunks' concatenation |
| Download.FetchWithProgress | docker/cs-web-server/src/client/main.ts:23-61 | the records posted and the value returned or thrown are those of the response, for every kind of response (no response, bad status, buffered body, streamed body that ends or breaks) |
| Download.StreamedSuccess | docker/cs-web-server/src/client/main.ts:36-60 | a stream that ends posts `start` at 0, then one `progress` per value read with the running total, then `done` with the sum; `loaded` never decreases; no `error` record; the buffer returned is the chunks in order and its length is the final `loaded` |
| Download.StreamedFailure | docker/cs-web-server/src/client/main.ts:41-54 | a rejected read posts `start` at 0 and then one `progress` per value read before it, the k-th with the length of the first k chunks, so `loaded` never decreases; then exactly one trailing `error` record and no `done`; the failure propagates |
| Download.BufferedFailure | docker/cs-web-server/src/client/main.ts:28-30 | when reading the whole body rejects, only `start` has been posted, with no `error` or `done` record, and the failure propagates |
| Download.FailsBeforeAnyRecord | docker/cs-web-server/src/client/main.ts:24-25 | a failed request or a status outside 200-299 throws before any record is posted |
| Download.BufferedBody | docker/cs-web-server/src/client/main.ts:28-34 | without a readable body: `start` at 0, then `progress` and `done` with the whole length, and the bytes are returned unchanged |
| Download.RunningTotalsRise | docker/cs-web-server/src/client/main.ts:40-59 | starting at 0, the running totals and then the full length form a non-decreasing `loaded` sequence |
| Download.OpenSteps | docker/cs-web-server/src/client/main.ts:36-49 | the records before a failing read are `start` followed by the running-total `progress` records, with no `done` among them and `loaded` non-decreasing |
| Download.StepsShape | docker/cs-web-server/src/client/main.ts:43-49 | one `progress` record per read that returned a value, the k-th carrying the length of the first k chunks |
| Cache.Store.GetMeta | docker/cs-web-server/src/client/main.ts:86-94 | the stored value when the key is present, `null` (None) exactly when it is absent |
| Cache.Store.SetMeta | docker/cs-web-server/src/client/main.ts:96-104 | upserts one META key and leaves the rest of META and all of FILES unchanged |
| Cache.Store.ClearFiles | docker/cs-web-server/src/client/main.ts:106-114 | empties FILES and leaves META unchanged |
| Cache.Store.PutMany | docker/cs-web-server/src/client/main.ts:116-134 | puts every entry in order into FILES and resolves with the sum of the entries' byte lengths; META is untouched |
| Cache.UpsertedLookup | docker/cs-web-server/src/client/main.ts:122-127 | after the puts, a key holds the data of the last entry with that path, keys no entry names keep their old value, and no other key appears |
| Cache.GenerationKeys | docker/cs-web-server/src/client/main.ts:328-329 | clearing and then putting a batch leaves exactly the batch's paths in FILES |
| Cache.EntryBytesAppend | docker/cs-web-server/src/client/main.ts:120-125 | the byte count `idbPutMany` resolves with is additive over concatenated batches |
| Paths.JoinSplit | docker/cs-web-server/src/client/main.ts:154 | `join('/')` undoes `split('/')` |
| Paths.JoinDropLastSplit | docker/cs-web-server/src/client/main.ts:154 | `p.split('/').slice(0, -1).join('/')` is everything before the last '/', or "" when there is none |
| Paths.DirPathIsParent | docker/cs-web-server/src/client/main.ts:284-285 | the directory created is `/rodir/` plus the parent of the name; the written file is that directory, '/', and a last segment without '/' (or `/rodir/` plus the name when it has no '/') |
| Paths.SameParentSameDir | docker/cs-web-server/src/client/main.ts:154-155 | names with the same parent get the same directory |
| Paths.FilePathInjective | docker/cs-web-server/src/client/main.ts:156 | distinct stored paths land on distinct files under `/rodir/` |
| Version.Trim | docker/cs-web-server/src/client/main.ts:193 | `trim()` returns a slice of the input with no white space at either end, and everything cut off on either side is white space |
| Version.TrimEmptyIffAllSpace | docker/cs-web-server/src/client/main.ts:193 | the trimmed text is empty exactly when the text is all white space |
| Version.ResolveRemoteTag | docker/cs-web-server/src/client/main.ts:181-196 | a resolved tag is never the empty string |
| Version.PrefersEntityTag | docker/cs-web-server/src/client/main.ts:184-187 | on an ok probe a non-empty entity tag wins over everything else |
| Version.ThenLastModified | docker/cs-web-server/src/client/main.ts:186-188 | without an entity tag, a non-empty `last-modified` wins over the sidecar |
| Version.ThenSidecar | docker/cs-web-server/src/client/main.ts:182-193 | a probe that rejects, fails or has neither header defers to the sidecar |
| Version.SidecarTag | docker/cs-web-server/src/client/main.ts:191-194 | the sidecar gives its trimmed text, and `null` exactly when the request rejects, the status is not ok, the body cannot be read or the text is all white space |
| Version.AllFailuresGiveNull | docker/cs-web-server/src/client/main.ts:181-196 | when every step fails the result is `null`; the resolver never throws |
| Version.SidecarScenario | docker/cs-web-server/src/client/main.ts:191-193 | a failed probe and a sidecar holding "v7\n" resolve to "v7" |
| Restore.RestoreToFS | docker/cs-web-server/src/client/main.ts:136-178 | posts `unzip-start`, one record per visited path, then `unzip-done`; writes every visited path under `/rodir/` in cursor order and creates each one's directory; leaves the working directory alone |
| Restore.ReplayCursor | docker/cs-web-server/src/client/main.ts:148-171 | the cursor loop's counter is the running byte count, and its records, writes and directories are those of the visited paths in order |
| Restore.RestoreEntry | docker/cs-web-server/src/client/main.ts:153-165 | one callback: makes the directory, writes the bytes, adds their length to `loaded` and posts the record for the new counter |
| Restore.RestoreRecordsBounded | docker/cs-web-server/src/client/main.ts:143-175 | `unzip-start` first and `unzip-done` last; one record per stored file with percent 100; `totalBytes` is at least 1 and equals the hint when there is one; `loadedBytes` never exceeds `totalBytes`, is the running count when there is no hint, and never decreases |
| Restore.WrittenIsImage | docker/cs-web-server/src/client/main.ts:148-171 | whatever the cursor order, a restore leaves the old files overlaid with every stored file at `'/rodir/' + path` |
| Restore.RestoreIdempotent | docker/cs-web-server/src/client/main.ts:148-171 | restoring the same generation again, or in another cursor order, changes nothing |
| Unzip.Clamp | docker/cs-web-server/src/client/main.ts:291 | the clamped percent lies in [0, 100] and equals the input when the input already does |
| Unzip.SizeTable | docker/cs-web-server/src/client/main.ts:269-274 | one size per entry, 0 when the declared size is not a number, and `totalUnc` is their sum |
| Unzip.ExpandArchive | docker/cs-web-server/src/client/main.ts:267-324 | under either scaling rule (`AsWritten` is line 288 as it stands), the pass runs over exactly the non-directory members |
| Unzip.ExpandFiles | docker/cs-web-server/src/client/main.ts:276-324 | posts `unzip-start` with the entry count and `totalUnc`, the entry loop's records under the given scaling rule, and `unzip-done` only when every entry inflates; writes and stages the entries before the first one that fails; returns the staged batch or that entry's failure |
| Unzip.ExpandEntries | docker/cs-web-server/src/client/main.ts:281-322 | for the given scaling rule, the entry loop stops at the first entry that fails to inflate, after making its directory and posting its update records; every earlier entry is written, staged and closed |
| Unzip.RunEntries | docker/cs-web-server/src/client/main.ts:281-322 | the iterations end at the first failing entry or after the last, with records, writes, directories and `doneBytes` those of the iterations run |
| Unzip.ExpandEntry | docker/cs-web-server/src/client/main.ts:282-321 | one iteration under the given scaling rule: on success the loop state advances by exactly one entry; on failure it stops at this entry having made its directory and posted its update records |
| Unzip.OpenEntry | docker/cs-web-server/src/client/main.ts:284-305 | makes the entry's directory and posts one `onUpdate` record per percent the library reports, scaled by the given rule |
| Unzip.StopsAt | docker/cs-web-server/src/client/main.ts:305 | an entry that fails to inflate is the first failure of the pass; the loop's writes, directories and records are those of the entries before it plus its own directory and updates |
| Unzip.CloseEntry | docker/cs-web-server/src/client/main.ts:308-321 | writes the inflated bytes at `'/rodir/' + name`, adds the entry's size to `doneBytes` and posts the entry's closing record at 100 percent |
| Unzip.FirstCorruptStays | docker/cs-web-server/src/client/main.ts:305 | the first entry that fails to inflate is the same in every prefix that contains it |
| UnzipFacts.FileEntriesFilter | docker/cs-web-server/src/client/main.ts:267 | the filter keeps exactly the non-directory members, and only members of the archive |
| UnzipFacts.FileEntriesAppend | docker/cs-web-server/src/client/main.ts:267 | the filter keeps the archive's order: filtering a concatenation concatenates the filtered parts |
| UnzipFacts.FileEntriesSingle | docker/cs-web-server/src/client/main.ts:267 | one member is kept exactly when it is no directory |
| UnzipFacts.UpdateBetween | docker/cs-web-server/src/client/main.ts:290-319 | under either scaling rule, the value `onUpdate` posts for entry i (lines 292-294, `Unzip.UpdateLoaded`) lies between where the entry starts on its own scale and the value of its closing record (line 319, `Unzip.ClosingLoaded`); at 0 percent it is that start and at 100 percent exactly the closing value |
| UnzipFacts.BytesBetween | docker/cs-web-server/src/client/main.ts:293 | `round(doneBytes + thisSize * pct / 100)` lies between `doneBytes` and `doneBytes + thisSize` |
| UnzipFacts.IndexBetween | docker/cs-web-server/src/client/main.ts:294 | the index-scaled position lies between those of entries i and i + 1 |
| UnzipFacts.UpdateMono | docker/cs-web-server/src/client/main.ts:291-294 | under either scaling rule, a larger percent never reports fewer bytes |
| UnzipFacts.ClampMono | docker/cs-web-server/src/client/main.ts:291 | clamping preserves the order of percents |
| UnzipFacts.OpeningAndClosingEnds | docker/cs-web-server/src/client/main.ts:278-319 | under the corrected rule, the first entry opens at 0 and the last closes at `totalUnc || 1000` |
| UnzipFacts.ClosingIsNextOpening | docker/cs-web-server/src/client/main.ts:313-319 | under the corrected rule, each entry closes exactly where the next one opens |
| UnzipFacts.EntryStartCorrected | docker/cs-web-server/src/client/main.ts:287-294 | under the corrected rule an entry's own starting point is where the previous entry closed |
| UnzipFacts.LoopRecordsRise | docker/cs-web-server/src/client/main.ts:281-322 | when the library's percents never go back, `loadedBytes` never decreases over the whole loop and stays within [0, `totalUnc || 1000`]; a loop that inflates every entry ends exactly at `totalUnc || 1000` |
| UnzipFacts.LoopClamped | docker/cs-web-server/src/client/main.ts:290-321 | under either scaling rule, every loop record is `unzip-progress` for an entry of this pass, with a percent in [0, 100] and `totalBytes == totalUnc || 1000` |
| UnzipFacts.PassEventsFrame | docker/cs-web-server/src/client/main.ts:276-324 | under either scaling rule, exactly one `unzip-start` first, then only clamped `unzip-progress` records, then `unzip-done` last exactly when every entry inflates; every progress record carries `totalBytes == totalUnc || 1000` |
| UnzipFacts.RulesAgreeWhenUniform | docker/cs-web-server/src/client/main.ts:287-319 | when no size is known or every size is positive, the rule as written and the corrected rule post identical records |
| UnzipFacts.AsWrittenClosingRegresses | docker/cs-web-server/src/client/main.ts:288 | on entries of size 5000 and 0, the rule as written closes at 5000 and then at 1000; the corrected rule closes at 5000 twice |
| UnzipFacts.AsWrittenLoopRegresses | docker/cs-web-server/src/client/main.ts:281-322 | on the same archive the entry loop as written posts `loadedBytes` 5000 then 1000, so its records do not rise, while the corrected loop's do |
| UnzipFacts.LoopRecordsAgreeWhenUniform | docker/cs-web-server/src/client/main.ts:281-324 | when no size is known or every size is positive, the loop as written and the corrected loop post the same loop and pass records |
| Sync.HintOf | docker/cs-web-server/src/client/main.ts:259 | the hint is the stored value exactly when that value is a number, otherwise `null` |
| Sync.RestoreDecision | docker/cs-web-server/src/client/main.ts:238-252 | restore is chosen exactly when IndexedDB is available, a tag resolved and META holds that tag as a string; a missing tag or no IndexedDB always downloads |
| Sync.DownloadOutcome | docker/cs-web-server/src/client/main.ts:261-333 | the download branch completes exactly when the bundle is fetched, readable and every entry inflates |
| Sync.PassOutcome | docker/cs-web-server/src/client/main.ts:281-322 | the expand pass completes exactly when no entry fails to inflate |
| Sync.Persist | docker/cs-web-server/src/client/main.ts:326-332 | FILES becomes exactly the staged batch; META gets the tag when it is truthy, then the written byte count |
| Sync.PersistedMetaKeys | docker/cs-web-server/src/client/main.ts:328-331 | the byte count is always set, the tag only when truthy (otherwise the old tag stays), and every other key is kept |
| Sync.NextLaunchRestores | docker/cs-web-server/src/client/main.ts:238-259 | after a download has re-cached the bundle under a resolved tag, a launch that resolves the same tag restores, with the written byte count as its hint |
| Sync.RestoreBranch | docker/cs-web-server/src/client/main.ts:252-259 | posts the fake `start`/`progress`/`done` at 0/1/2 of 2, then the restore's records; leaves the old files overlaid with the image of the cached generation |
| Sync.DownloadBranch | docker/cs-web-server/src/client/main.ts:261-333 | posts the download's and the pass's records under the given scaling rule; a fetch or unpack failure touches neither the filesystem nor the cache; the cache is replaced only when IndexedDB is available and the pass completes |
| Sync.ExpandAndPersist | docker/cs-web-server/src/client/main.ts:266-332 | the pass writes the entries, and only a completed pass with IndexedDB replaces FILES and META |
| Sync.Launch | docker/cs-web-server/src/client/main.ts:233-336 | for the given scaling rule, `/rodir` is created; on the restore decision the cached generation is replayed and the cache is untouched; otherwise the download branch runs; the working directory becomes `/rodir` exactly when start-up succeeds |
| Sync.DownloadMatchesCache | docker/cs-web-server/src/client/main.ts:281-332 | what the pass writes under `/rodir/` is the old files overlaid with the image of the generation it stages for the cache |
| Sync.RestoreReproducesDownload | docker/cs-web-server/src/client/main.ts:148-171 | restoring the generation a complete download cached, in any cursor order, leaves the files exactly as the download left them |
| Sync.RodirImageUpdate | docker/cs-web-server/src/client/main.ts:156 | storing one more file moves exactly one file of the image under `/rodir/` |

## Left out

- Failures of IndexedDB requests and transactions (`req.onerror`, `tx.onerror`), including a rejected `openDB`. The store and the filesystem never fail in the model, so `db` is open exactly when `canIDB` holds.
- IndexedDB request and transaction mechanics (callbacks, `onupgradeneeded`, `oncomplete`). Each request is modelled by its effect on the FILES and META maps.
- The FILES cursor order: it is a parameter (`order`), and the restore's file image is proved independent of it.
- Restore.RestoreToFS: requires only that the visited paths are stored, not that the cursor visits every stored path. The full-visit property (`Restore.Enumerates`) is required where the image of the whole generation is stated.
- JSZip. `loadAsync` is the `unpack` parameter. Each entry's inflation outcome and the `percent` values passed to `onUpdate` are given as data.
- Floating point. Percents and scaled positions are exact reals. `meta.percent || 0` (including NaN) is not modelled: the percent values are given as reals, then clamped.
- The `content-length` header is given already parsed, as an `Option<nat>`. `Number(...) || 0` maps a missing or unreadable header to 0.
- META numbers are modelled as `nat`: the client only ever stores byte counts there.
- The expand pass, `Sync.DownloadBranch`, `Sync.ExpandAndPersist` and `Sync.Launch` take the scaling rule as a parameter: `AsWritten` is line 288 as it stands (`hasBytes = totalUnc > 0 && thisSize > 0`), and `Corrected` is the rule of the Findings (`hasBytes = totalUnc > 0`). Every fact about the pass holds for both rules, except the ones listed next.
- UnzipFacts.LoopRecordsRise: stated for the corrected rule only, because under the rule as written `loadedBytes` can go back (`UnzipFacts.AsWrittenLoopRegresses`). On archives where no size is known or every size is positive, the two rules post the same records (`UnzipFacts.LoopRecordsAgreeWhenUniform`).
- UnzipFacts.ClosingIsNextOpening: stated for the corrected rule only. Under the rule as written an empty entry after a sized one closes on the index scale, not where the previous entry closed (`UnzipFacts.AsWrittenClosingRegresses`).
- UnzipFacts.EntryStartCorrected: stated for the corrected rule only. Under the rule as written an empty entry after a sized one starts on the index scale, not where the previous entry closed (on sizes 5000 and 0 the second entry starts at 500, see `UnzipFacts.AsWrittenClosingRegresses`).
- UnzipFacts.OpeningAndClosingEnds: stated for the corrected rule only, for the same reason. Under either rule each entry's updates still lie between its own start and its closing value (`UnzipFacts.UpdateBetween`).
- The inflated bytes are the whole of each entry's `Uint8Array`. `idbPutMany` stores `data.buffer` (main.ts:125-126) and `idbRestoreToFS` writes `new Uint8Array(buffer)` (main.ts:156); the model assumes the array spans its whole buffer, so its byte count and the restored bytes equal the entry's data.
- The order of the persistence step's requests (`idbClear`, then `idbPutMany`, then the tag, then `totalBytes`) is not stated apart from its end state. Each request is modelled by its effect on the maps, store failures are left out, so no step in between can be observed.
- Delivery on the BroadcastChannel: posts that fail are swallowed, so the model logs every record.
- Everything in `main` outside the sync path: the engine set-up, the heap pre-grow, `navigator.storage.persist`, the username handshake, the DOM animation and the rest of the start-up after `FS.chdir`.
- `FS.mkdir('/rodir')` may throw because the directory already exists; that error is ignored. The model records the directory as existing either way.

Where the code and its description differ, the model follows the code:

- A `progress` record is posted for every read that returns a value, including an empty chunk, because `if (value)` is true for an empty `Uint8Array`.
- When the whole-body read `res.arrayBuffer()` rejects, `start` has been posted but no `error` record follows (lines 28-30); only the streamed path posts `error` (`Download.BufferedFailure`).
- Errors from IndexedDB and from `file.async` are not caught by `main`; they end start-up before `FS.chdir`.

## Findings

| source | as written | input that shows it | evidently intended | confidence | as-written member | corrected member |
|---|---|---|---|---|---|---|
| docker/cs-web-server/src/client/main.ts:288 | `hasBytes = totalUnc > 0 && thisSize > 0` chooses the scale of each entry separately, so an archive that mixes sized and empty entries switches between bytes and the index scale out of 1000 | two file entries: `a` with size 5000 and `b` with size 0; `a` closes at `loadedBytes` 5000, `b` at 1000 | `loadedBytes` never decreases during the pass (`hasBytes = totalUnc > 0`: an empty entry adds 0 bytes) | not executed | UnzipFacts.AsWrittenLoopRegresses | UnzipFacts.LoopRecordsRise |
