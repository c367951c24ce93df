/**
 * The start-up synchronisation in `main`: resolve the remote version tag, restore the
 * cached generation when it is current, otherwise download, expand and re-cache the
 * bundle, then enter `/rodir`.
 */
module Sync {
  import opened Common
  import opened Progress
  import opened Paths
  import opened Cache
  import opened TargetFs
  import opened Download
  import opened Version
  import opened Restore
  import opened Unzip

  const BundleUrl: string := "valve.zip"
  const RodirDir: string := "/rodir"

  /** What `loadAsync` makes of the downloaded bytes. */
  datatype Archive = Unreadable(message: string) | Readable(entries: seq<ZipEntry>)

  /** Which branch a successful start-up took. */
  datatype Mode = Restored | Downloaded

  // ----- the decision -----

  /** `remoteTag === localTag`: only a stored string can equal the tag. */
  predicate SameTag(remote: string, local: Option<MetaValue>) {
    local.Some? && local.value.Text? && local.value.text == remote
  }

  /** `!!remoteTag && remoteTag === localTag`. */
  predicate UpToDate(remote: Option<string>, local: Option<MetaValue>) {
    Truthy(remote) && SameTag(remote.value, local)
  }

  /** `canIDB && db && upToDate`: restore from the cache instead of downloading. */
  predicate ChoosesRestore(canIDB: bool, dbOpen: bool, remote: Option<string>, local: Option<MetaValue>) {
    canIDB && dbOpen && UpToDate(remote, local)
  }

  /** `typeof totalBytesHint === 'number' ? totalBytesHint : null`. */
  function HintOf(v: Option<MetaValue>): (hint: Option<nat>)
    ensures hint.Some? <==> v.Some? && v.value.Number?
    ensures hint.Some? ==> v.value == Number(hint.value)
  {
    if v.Some? && v.value.Number? then Some(v.value.n) else None
  }

  /** The META value under `key`, as `idbGet` resolves it (`undefined` as `None`). */
  function MetaAt(meta: map<string, MetaValue>, key: string): Option<MetaValue> {
    if key in meta then Some(meta[key]) else None
  }

  /** The local tag `main` compares against: read only when IndexedDB is available. */
  function LocalTag(canIDB: bool, meta: map<string, MetaValue>): Option<MetaValue> {
    if canIDB then MetaAt(meta, VersionKey) else None
  }

  /** The size hint handed to the restore: read only when IndexedDB is available. */
  function Hint(canIDB: bool, meta: map<string, MetaValue>): Option<nat> {
    if canIDB then HintOf(MetaAt(meta, TotalBytesKey)) else None
  }

  /** The decision `main` takes on a given environment. */
  predicate Restores(canIDB: bool, probe: Probe, sidecar: Sidecar, meta: map<string, MetaValue>) {
    ChoosesRestore(canIDB, canIDB, ResolveRemoteTag(probe, sidecar), LocalTag(canIDB, meta))
  }

  // ----- the download branch -----

  /** The records of the "fake" download posted before a restore. */
  function FakeDownload(): seq<Event> {
    [Event.Start(BundleUrl, 0, 2), Step(BundleUrl, 1, 2), Done(BundleUrl, 2, 2)]
  }

  /** The file entries of the downloaded archive, or why the download or `loadAsync` failed. */
  function Fetched(bundle: Response, unpack: Bytes -> Archive): Result<seq<ZipEntry>> {
    match FetchOutcome(BundleUrl, bundle)
    case Err(f) => Err(f)
    case Ok(bytes) =>
      match unpack(bytes)
      case Unreadable(message) => Err(ArchiveError(message))
      case Readable(all) => Ok(FileEntries(all))
  }

  /** Everything the download branch posts. */
  function DownloadEvents(rule: ScaleRule, bundle: Response, unpack: Bytes -> Archive): seq<Event> {
    FetchEvents(BundleUrl, bundle) + (if Fetched(bundle, unpack).Ok? then PassEvents(rule, Fetched(bundle, unpack).value) else [])
  }

  /** The download branch completes: fetched, readable, and every entry inflated. */
  predicate DownloadSucceeds(bundle: Response, unpack: Bytes -> Archive) {
    Fetched(bundle, unpack).Ok? && FirstCorrupt(Fetched(bundle, unpack).value) < 0
  }

  /** The failure the download branch throws, if it does not complete. */
  function DownloadOutcome(bundle: Response, unpack: Bytes -> Archive): (r: Result<Mode>)
    ensures r.Ok? <==> DownloadSucceeds(bundle, unpack)
    ensures r.Ok? ==> r.value == Downloaded
  {
    match Fetched(bundle, unpack)
    case Err(f) => Err(f)
    case Ok(files) => PassOutcome(files)
  }

  /** What the expand pass leaves `main` with: done, or the first inflation failure. */
  function PassOutcome(files: seq<ZipEntry>): (r: Result<Mode>)
    ensures r.Ok? <==> FirstCorrupt(files) < 0
    ensures r.Ok? ==> r.value == Downloaded
  {
    match LoopOutcome(files, true)
    case Err(f) => Err(f)
    case Ok(_) => Ok(Downloaded)
  }

  /** The META map after the persistence step: the tag when truthy, then the byte count. */
  function PersistedMeta(meta: map<string, MetaValue>, remote: Option<string>, written: nat): map<string, MetaValue> {
    (if Truthy(remote) then meta[VersionKey := Text(remote.value)] else meta)[TotalBytesKey := Number(written)]
  }

  /** `idbClear`, `idbPutMany`, then the version tag (if any) and `valve.totalBytes = writtenBytes`. */
  method Persist(store: Store, batch: seq<Entry>, remote: Option<string>)
    modifies store
    ensures store.files == Upserted(map[], batch)
    ensures store.meta == PersistedMeta(old(store.meta), remote, EntryBytes(batch))
  {
    store.ClearFiles();
    var written := store.PutMany(batch);
    if Truthy(remote) {
      store.SetMeta(VersionKey, Text(remote.value));
    }
    store.SetMeta(TotalBytesKey, Number(written));
  }

  /**
   * Fetch `valve.zip`, open it, expand it into `/rodir/` and, with IndexedDB, replace the
   * cached generation. A failure at any step throws before the cache is touched.
   */
  method DownloadBranch(bus: Bus, fs: FileSystem, store: Store, rule: ScaleRule, canIDB: bool, remote: Option<string>,
                        bundle: Response, unpack: Bytes -> Archive)
    returns (r: Result<Mode>)
    modifies bus, fs, store
    ensures r == DownloadOutcome(bundle, unpack)
    ensures bus.log == old(bus.log) + DownloadEvents(rule, bundle, unpack)
    ensures Fetched(bundle, unpack).Err? ==> fs.files == old(fs.files) && fs.dirs == old(fs.dirs)
    ensures Fetched(bundle, unpack).Ok? ==> var files := Fetched(bundle, unpack).value;
              && fs.files == WrittenFiles(old(fs.files), files, WrittenCount(files))
              && fs.dirs == old(fs.dirs) + NameDirs(files, DirCount(files))
    ensures fs.cwd == old(fs.cwd)
    ensures canIDB && r.Ok? ==> var files := Fetched(bundle, unpack).value;
              && store.files == Upserted(map[], Staged(files, |files|))
              && store.meta == PersistedMeta(old(store.meta), remote, EntryBytes(Staged(files, |files|)))
    ensures !(canIDB && r.Ok?) ==> store.files == old(store.files) && store.meta == old(store.meta)
  {
    ghost var log0 := bus.log;
    var bytes := FetchWithProgress(bus, BundleUrl, bundle);
    if bytes.Err? {
      assert DownloadEvents(rule, bundle, unpack) == FetchEvents(BundleUrl, bundle) + [];
      return Err(bytes.failure);
    }
    var archive := unpack(bytes.value);
    if archive.Unreadable? {
      assert DownloadEvents(rule, bundle, unpack) == FetchEvents(BundleUrl, bundle) + [];
      return Err(ArchiveError(archive.message));
    }
    var files := FileEntries(archive.entries);
    assert Fetched(bundle, unpack) == Ok(files);
    r := ExpandAndPersist(bus, fs, store, rule, canIDB, remote, files);
    Regroup(log0, FetchEvents(BundleUrl, bundle), PassEvents(rule, files));
  }

  /** Expand the file entries into `/rodir/`; once all are written, replace the cached generation. */
  method ExpandAndPersist(bus: Bus, fs: FileSystem, store: Store, rule: ScaleRule, canIDB: bool, remote: Option<string>,
                          files: seq<ZipEntry>)
    returns (r: Result<Mode>)
    modifies bus, fs, store
    ensures r == PassOutcome(files)
    ensures bus.log == old(bus.log) + PassEvents(rule, files)
    ensures fs.files == WrittenFiles(old(fs.files), files, WrittenCount(files))
    ensures fs.dirs == old(fs.dirs) + NameDirs(files, DirCount(files))
    ensures fs.cwd == old(fs.cwd)
    ensures canIDB && r.Ok? ==>
              && store.files == Upserted(map[], Staged(files, |files|))
              && store.meta == PersistedMeta(old(store.meta), remote, EntryBytes(Staged(files, |files|)))
    ensures !(canIDB && r.Ok?) ==> store.files == old(store.files) && store.meta == old(store.meta)
  {
    var batch := ExpandFiles(bus, fs, rule, files, canIDB);
    if batch.Err? {
      return Err(batch.failure);
    }
    if canIDB {
      Persist(store, batch.value, remote);
    }
    r := Ok(Downloaded);
  }

  /** The restore branch: the "fake" download records, then `idbRestoreToFS`. */
  method RestoreBranch(bus: Bus, fs: FileSystem, store: Store, order: seq<string>, hint: Option<nat>)
    requires Enumerates(order, store.files.Keys)
    modifies bus, fs
    ensures bus.log == old(bus.log) + FakeDownload() + RestoreEvents(order, store.files, HintTotal(hint))
    ensures fs.files == old(fs.files) + RodirImage(store.files)
    ensures fs.dirs == old(fs.dirs) + DirsOf(order)
    ensures fs.cwd == old(fs.cwd)
  {
    bus.ReportAll(FakeDownload());
    RestoreToFS(bus, fs, store, order, hint);
    WrittenIsImage(old(fs.files), order, store.files);
  }

  /**
   * `main` up to `FS.chdir('/rodir')`. `order` is the order in which the FILES cursor
   * visits the cached paths; `unpack` stands for `loadAsync`; `rule` is how the unzip
   * pass scales its progress (`AsWritten` is the client as it stands).
   */
  method Launch(bus: Bus, fs: FileSystem, store: Store, rule: ScaleRule, canIDB: bool, probe: Probe, sidecar: Sidecar,
               order: seq<string>, bundle: Response, unpack: Bytes -> Archive)
    returns (r: Result<Mode>)
    requires canIDB ==> Enumerates(order, store.files.Keys)
    modifies bus, fs, store
    ensures Restores(canIDB, probe, sidecar, old(store.meta)) ==>
              && r == Ok(Restored)
              && bus.log == old(bus.log) + FakeDownload()
                              + RestoreEvents(order, old(store.files), HintTotal(Hint(canIDB, old(store.meta))))
              && fs.files == old(fs.files) + RodirImage(old(store.files))
              && fs.dirs == old(fs.dirs) + {RodirDir} + DirsOf(order)
              && store.files == old(store.files) && store.meta == old(store.meta)
    ensures !Restores(canIDB, probe, sidecar, old(store.meta)) ==>
              && r == DownloadOutcome(bundle, unpack)
              && bus.log == old(bus.log) + DownloadEvents(rule, bundle, unpack)
              && (canIDB && r.Ok? ==> var files := Fetched(bundle, unpack).value;
                    && store.files == Upserted(map[], Staged(files, |files|))
                    && store.meta == PersistedMeta(old(store.meta), ResolveRemoteTag(probe, sidecar),
                                                   EntryBytes(Staged(files, |files|))))
              && (!(canIDB && r.Ok?) ==> store.files == old(store.files) && store.meta == old(store.meta))
              && (Fetched(bundle, unpack).Err? ==> fs.files == old(fs.files) && fs.dirs == old(fs.dirs) + {RodirDir})
              && (Fetched(bundle, unpack).Ok? ==> var files := Fetched(bundle, unpack).value;
                    && fs.files == WrittenFiles(old(fs.files), files, WrittenCount(files))
                    && fs.dirs == old(fs.dirs) + {RodirDir} + NameDirs(files, DirCount(files)))
    ensures fs.cwd == if r.Ok? then RodirDir else old(fs.cwd)
  {
    fs.MkdirTree(RodirDir);   // `try { FS.mkdir('/rodir') } catch {}`: the directory exists afterwards either way
    var remote := ResolveRemoteTag(probe, sidecar);
    var local: Option<MetaValue> := None;
    var hint: Option<nat> := None;
    if canIDB {
      local := store.GetMeta(VersionKey);
      var stored := store.GetMeta(TotalBytesKey);
      hint := HintOf(stored);
    }
    if ChoosesRestore(canIDB, canIDB, remote, local) {
      RestoreBranch(bus, fs, store, order, hint);
      r := Ok(Restored);
    } else {
      r := DownloadBranch(bus, fs, store, rule, canIDB, remote, bundle, unpack);
    }
    if r.Ok? {
      fs.Chdir(RodirDir);
    }
  }

  // ----- properties -----

  /**
   * Restore is chosen exactly when IndexedDB is available and META holds, as a string,
   * the tag the resolver returned; a missing tag or no IndexedDB always downloads.
   */
  lemma RestoreDecision(canIDB: bool, probe: Probe, sidecar: Sidecar, meta: map<string, MetaValue>)
    ensures Restores(canIDB, probe, sidecar, meta) <==>
              && canIDB
              && ResolveRemoteTag(probe, sidecar).Some?
              && VersionKey in meta && meta[VersionKey] == Text(ResolveRemoteTag(probe, sidecar).value)
    ensures !canIDB || ResolveRemoteTag(probe, sidecar).None? ==> !Restores(canIDB, probe, sidecar, meta)
  {
    var remote := ResolveRemoteTag(probe, sidecar);
    if canIDB && remote.Some? && VersionKey in meta && meta[VersionKey] == Text(remote.value) {
      assert remote.value != "";
      assert Truthy(remote);
    }
  }

  /** The persistence step sets `valve.totalBytes`, sets the tag only when truthy, and keeps every other key. */
  lemma PersistedMetaKeys(meta: map<string, MetaValue>, remote: Option<string>, written: nat, key: string)
    ensures MetaAt(PersistedMeta(meta, remote, written), TotalBytesKey) == Some(Number(written))
    ensures Truthy(remote) ==> MetaAt(PersistedMeta(meta, remote, written), VersionKey) == Some(Text(remote.value))
    ensures !Truthy(remote) ==> MetaAt(PersistedMeta(meta, remote, written), VersionKey) == MetaAt(meta, VersionKey)
    ensures key != VersionKey && key != TotalBytesKey ==>
              MetaAt(PersistedMeta(meta, remote, written), key) == MetaAt(meta, key)
  {
    assert VersionKey != TotalBytesKey by {
      assert VersionKey[6] != TotalBytesKey[6];
    }
  }

  /**
   * After a download has re-cached the bundle under the resolved tag, a launch that
   * resolves the same tag restores, with the written byte count as its hint.
   */
  lemma NextLaunchRestores(probe: Probe, sidecar: Sidecar, meta: map<string, MetaValue>, written: nat)
    requires ResolveRemoteTag(probe, sidecar).Some?
    ensures var after := PersistedMeta(meta, ResolveRemoteTag(probe, sidecar), written);
      Restores(true, probe, sidecar, after) && Hint(true, after) == Some(written)
  {
    var remote := ResolveRemoteTag(probe, sidecar);
    var after := PersistedMeta(meta, remote, written);
    PersistedMetaKeys(meta, remote, written, VersionKey);
    RestoreDecision(true, probe, sidecar, after);
  }

  /** Writing one more stored file moves one file of the image under the root. */
  lemma RodirImageUpdate(files: map<string, Bytes>, p: string, d: Bytes)
    ensures RodirImage(files[p := d]) == RodirImage(files)[FilePath(p) := d]
  {
    var lhs := RodirImage(files[p := d]);
    var rhs := RodirImage(files)[FilePath(p) := d];
    forall q ensures (q in lhs <==> q in rhs) && (q in lhs ==> lhs[q] == rhs[q]) {
      ImageUpdateAt(files, p, d, q);
    }
    SameMaps(lhs, rhs);
  }

  /** One path of the image after one more stored file. */
  lemma ImageUpdateAt(files: map<string, Bytes>, p: string, d: Bytes, q: string)
    ensures q in RodirImage(files[p := d]) <==> q in RodirImage(files)[FilePath(p) := d]
    ensures q in RodirImage(files[p := d]) ==> RodirImage(files[p := d])[q] == RodirImage(files)[FilePath(p) := d][q]
  {
    assert FilePath(p)[|Root|..] == p;
    RodirImageLookup(files[p := d], q);
    RodirImageLookup(files, q);
  }

  /** Two maps with the same keys and the same value at every key are equal. */
  lemma SameMaps(a: map<string, Bytes>, b: map<string, Bytes>)
    requires forall q :: (q in a <==> q in b) && (q in a ==> a[q] == b[q])
    ensures a == b
  {
  }

  lemma OverlayUpdate(m: map<string, Bytes>, a: map<string, Bytes>, k: string, v: Bytes)
    ensures m + a[k := v] == (m + a)[k := v]
  {
  }

  /**
   * What a complete download writes under the root is exactly the image of the
   * generation it caches: the target after the pass is the old target overlaid with it.
   */
  lemma DownloadMatchesCache(m: map<string, Bytes>, files: seq<ZipEntry>, n: nat)
    requires n <= |files|
    ensures WrittenFiles(m, files, n) == m + RodirImage(Upserted(map[], Staged(files, n)))
  {
    EmptyImage(m);
    for k := 0 to n
      invariant WrittenFiles(m, files, k) == m + RodirImage(Upserted(map[], Staged(files, k)))
    {
      DownloadStep(m, files, k);
    }
  }

  lemma DownloadStep(m: map<string, Bytes>, files: seq<ZipEntry>, k: nat)
    requires k < |files|
    requires WrittenFiles(m, files, k) == m + RodirImage(Upserted(map[], Staged(files, k)))
    ensures WrittenFiles(m, files, k + 1) == m + RodirImage(Upserted(map[], Staged(files, k + 1)))
  {
    var f := files[k];
    var u := Upserted(map[], Staged(files, k));
    RodirImageUpdate(u, f.name, DataOf(f));
    StagedStep(files, k + 1);
    OverlayStep(WrittenFiles(m, files, k), m, RodirImage(u), FilePath(f.name), DataOf(f),
                RodirImage(Upserted(map[], Staged(files, k + 1))));
  }

  lemma OverlayStep(w: map<string, Bytes>, m: map<string, Bytes>, img: map<string, Bytes>, k: string, v: Bytes,
                    img': map<string, Bytes>)
    requires w == m + img && img' == img[k := v]
    ensures w[k := v] == m + img'
  {
    OverlayUpdate(m, img, k, v);
  }

  lemma EmptyImage(m: map<string, Bytes>)
    ensures m + RodirImage(map[]) == m
  {
    assert RodirImage(map[]) == map[];
  }

  lemma StagedStep(files: seq<ZipEntry>, n: nat)
    requires 0 < n <= |files|
    ensures Upserted(map[], Staged(files, n))
            == Upserted(map[], Staged(files, n - 1))[files[n - 1].name := DataOf(files[n - 1])]
  {
    assert Staged(files, n)[..n - 1] == Staged(files, n - 1);
  }

  /**
   * Restoring the generation a complete download cached, in any cursor order, leaves
   * the target exactly as the download left it.
   */
  lemma RestoreReproducesDownload(m: map<string, Bytes>, files: seq<ZipEntry>, order: seq<string>)
    requires Enumerates(order, Upserted(map[], Staged(files, |files|)).Keys)
    ensures Written(m, order, Upserted(map[], Staged(files, |files|))) == WrittenFiles(m, files, |files|)
  {
    WrittenIsImage(m, order, Upserted(map[], Staged(files, |files|)));
    DownloadMatchesCache(m, files, |files|);
  }
}
