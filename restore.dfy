/**
 * `idbRestoreToFS`: replays the cached generation from FILES into the target
 * filesystem under `/rodir/`, reporting progress against the stored size hint.
 */
module Restore {
  import opened Common
  import opened Progress
  import opened Paths
  import opened Cache
  import opened TargetFs

  /** A cursor over FILES visits every stored path exactly once, in some order. */
  ghost predicate Enumerates(order: seq<string>, keys: set<string>) {
    && (forall i, j :: 0 <= i < j < |order| ==> order[i] != order[j])
    && (forall k :: 0 <= k < |order| ==> order[k] in keys)
    && (forall p :: p in keys ==> p in order)
  }

  /** `totalBytesHint || 0`: a missing hint and a hint of 0 both mean "unknown". */
  function HintTotal(hint: Option<nat>): nat {
    if hint.Some? then hint.value else 0
  }

  function Size(files: map<string, Bytes>, p: string): nat {
    if p in files then |files[p]| else 0
  }

  /** The `loaded` counter after visiting `order`. */
  function LoadedAfter(order: seq<string>, files: map<string, Bytes>): nat {
    if order == [] then 0 else LoadedAfter(order[..|order| - 1], files) + Size(files, order[|order| - 1])
  }

  /** The record posted after writing `path`, with the running counter `loaded`. */
  function EntryRecord(path: string, loaded: nat, total: nat): Event {
    UnzipProgress(path, 0, 100.0,
                  if total > 0 then (if loaded < total then loaded else total) else loaded,
                  if total > 0 then total else (if loaded < 1 then 1 else loaded))
  }

  /** One record per visited path. */
  function EntryRecords(order: seq<string>, files: map<string, Bytes>, total: nat): seq<Event> {
    if order == [] then []
    else
      EntryRecords(order[..|order| - 1], files, total)
        + [EntryRecord(order[|order| - 1], LoadedAfter(order, files), total)]
  }

  /** Everything one restore posts: `unzip-start`, the entry records, `unzip-done`. */
  function RestoreEvents(order: seq<string>, files: map<string, Bytes>, total: nat): seq<Event> {
    [UnzipStart(0, total)] + EntryRecords(order, files, total) + [UnzipDone(0, total)]
  }

  /** The target files after writing each visited path under the root, in order. */
  function Written(m: map<string, Bytes>, order: seq<string>, files: map<string, Bytes>): map<string, Bytes> {
    if order == [] then m
    else
      var p := order[|order| - 1];
      Written(m, order[..|order| - 1], files)[FilePath(p) := if p in files then files[p] else []]
  }

  /** The directories created while visiting `order`. */
  function DirsOf(order: seq<string>): set<string> {
    if order == [] then {} else DirsOf(order[..|order| - 1]) + {DirPath(order[|order| - 1])}
  }

  /** The generation as it appears under the root, independent of visiting order. */
  function RodirImage(files: map<string, Bytes>): map<string, Bytes> {
    FilePathsDistinct();
    map p | p in files :: FilePath(p) := files[p]
  }

  lemma FilePathsDistinct()
    ensures forall p, q :: FilePath(p) == FilePath(q) ==> p == q
  {
    forall p, q | FilePath(p) == FilePath(q) ensures p == q {
      FilePathInjective(p, q);
    }
  }

  method RestoreToFS(bus: Bus, fs: FileSystem, store: Store, order: seq<string>, hint: Option<nat>)
    requires forall k :: 0 <= k < |order| ==> order[k] in store.files
    modifies bus, fs
    ensures bus.log == old(bus.log) + RestoreEvents(order, store.files, HintTotal(hint))
    ensures fs.files == Written(old(fs.files), order, store.files)
    ensures fs.dirs == old(fs.dirs) + DirsOf(order)
    ensures fs.cwd == old(fs.cwd)
  {
    var total := HintTotal(hint);
    ghost var log0 := bus.log;
    bus.Report(UnzipStart(0, total));
    var loaded := ReplayCursor(bus, fs, store.files, order, total);
    bus.Report(UnzipDone(0, total));
    Regroup(log0, [UnzipStart(0, total)], EntryRecords(order, store.files, total));
    Regroup(log0, [UnzipStart(0, total)] + EntryRecords(order, store.files, total), [UnzipDone(0, total)]);
  }

  /** The cursor loop: one callback per stored file, in cursor order. */
  method ReplayCursor(bus: Bus, fs: FileSystem, files: map<string, Bytes>, order: seq<string>, total: nat)
    returns (loaded: nat)
    requires forall k :: 0 <= k < |order| ==> order[k] in files
    modifies bus, fs
    ensures loaded == LoadedAfter(order, files)
    ensures bus.log == old(bus.log) + EntryRecords(order, files, total)
    ensures fs.files == Written(old(fs.files), order, files)
    ensures fs.dirs == old(fs.dirs) + DirsOf(order)
    ensures fs.cwd == old(fs.cwd)
  {
    loaded := 0;
    var k := 0;
    while k < |order|
      invariant 0 <= k <= |order|
      invariant Replayed(order[..k], files, total, loaded, old(bus.log), bus.log,
                         old(fs.files), fs.files, old(fs.dirs), fs.dirs)
      invariant fs.cwd == old(fs.cwd)
    {
      var path := order[k];
      VisitStep(old(fs.files), order, files, total, k);
      loaded := RestoreEntry(bus, fs, path, files[path], loaded, total);
      k := k + 1;
    }
    assert order[..k] == order;
  }

  /** The state after the cursor has visited `visited`: counter, records, files and directories. */
  ghost predicate Replayed(visited: seq<string>, files: map<string, Bytes>, total: nat, loaded: nat,
                           log0: seq<Event>, log: seq<Event>, m0: map<string, Bytes>, m: map<string, Bytes>,
                           dirs0: set<string>, dirs: set<string>)
  {
    && loaded == LoadedAfter(visited, files)
    && log == log0 + EntryRecords(visited, files, total)
    && m == Written(m0, visited, files)
    && dirs == dirs0 + DirsOf(visited)
  }

  /** The body of the cursor callback for one stored file. */
  method RestoreEntry(bus: Bus, fs: FileSystem, path: string, data: Bytes, loaded: nat, total: nat)
    returns (loaded': nat)
    modifies bus, fs
    ensures loaded' == loaded + |data|
    ensures fs.files == old(fs.files)[FilePath(path) := data]
    ensures fs.dirs == old(fs.dirs) + {DirPath(path)}
    ensures fs.cwd == old(fs.cwd)
    ensures bus.log == old(bus.log) + [EntryRecord(path, loaded', total)]
  {
    fs.MkdirTree(DirPath(path));
    fs.WriteFile(FilePath(path), data);
    loaded' := loaded + |data|;
    bus.Report(EntryRecord(path, loaded', total));
  }

  /** How each function of the visited prefix grows by one visited path. */
  lemma VisitStep(m: map<string, Bytes>, order: seq<string>, files: map<string, Bytes>, total: nat, k: nat)
    requires k < |order| && order[k] in files
    ensures var p := order[k];
      && LoadedAfter(order[..k + 1], files) == LoadedAfter(order[..k], files) + |files[p]|
      && EntryRecords(order[..k + 1], files, total)
         == EntryRecords(order[..k], files, total) + [EntryRecord(p, LoadedAfter(order[..k + 1], files), total)]
      && DirsOf(order[..k + 1]) == DirsOf(order[..k]) + {DirPath(p)}
      && Written(m, order[..k + 1], files) == Written(m, order[..k], files)[FilePath(p) := files[p]]
  {
    assert order[..k + 1][..k] == order[..k];
  }

  // ----- properties -----

  lemma {:induction false} LoadedAfterMono(order: seq<string>, files: map<string, Bytes>, i: nat, j: nat)
    requires i <= j <= |order|
    ensures LoadedAfter(order[..i], files) <= LoadedAfter(order[..j], files)
    decreases j - i
  {
    if i < j {
      LoadedAfterMono(order, files, i, j - 1);
      assert order[..j][..j - 1] == order[..j - 1];
    }
  }

  lemma {:induction false} EntryRecordAt(order: seq<string>, files: map<string, Bytes>, total: nat, k: nat)
    requires k < |order|
    ensures |EntryRecords(order, files, total)| == |order|
    ensures EntryRecords(order, files, total)[k] == EntryRecord(order[k], LoadedAfter(order[..k + 1], files), total)
  {
    var init := order[..|order| - 1];
    if k < |init| {
      EntryRecordAt(init, files, total, k);
      assert init[..k + 1] == order[..k + 1];
    } else {
      assert order[..k + 1] == order;
      if init != [] { EntryRecordAt(init, files, total, 0); }
    }
  }

  /**
   * The shape of a restore's records: `unzip-start` first, `unzip-done` last, and in
   * between one record per stored file whose `loadedBytes` is the running byte count
   * (capped at the hint when there is one), never more than its `totalBytes`,
   * which is at least 1, and never decreasing.
   */
  lemma RestoreRecordsBounded(order: seq<string>, files: map<string, Bytes>, total: nat)
    ensures var es := RestoreEvents(order, files, total);
      && |es| == |order| + 2
      && es[0] == UnzipStart(0, total)
      && es[|es| - 1] == UnzipDone(0, total)
      && (forall k :: 1 <= k <= |order| ==>
            es[k].UnzipProgress? && es[k].file == order[k - 1] && es[k].filePercent == 100.0
            && es[k].totalBytes >= 1
            && 0 <= es[k].loadedBytes <= es[k].totalBytes
            && (total > 0 ==> es[k].totalBytes == total)
            && (total == 0 ==> es[k].loadedBytes == LoadedAfter(order[..k], files)))
      && (forall i, j :: 1 <= i < j <= |order| ==> es[i].loadedBytes <= es[j].loadedBytes)
  {
    var es := RestoreEvents(order, files, total);
    if order != [] { EntryRecordAt(order, files, total, 0); }
    forall k | 1 <= k <= |order|
      ensures es[k] == EntryRecord(order[k - 1], LoadedAfter(order[..k], files), total)
    {
      EntryRecordAt(order, files, total, k - 1);
    }
    forall i, j | 1 <= i < j <= |order| ensures es[i].loadedBytes <= es[j].loadedBytes {
      LoadedAfterMono(order, files, i, j);
    }
  }

  /** The target file for `p` after the writes holds the stored bytes of `p`. */
  lemma {:induction false} WrittenLookup(m: map<string, Bytes>, order: seq<string>, files: map<string, Bytes>, q: string)
    ensures q in Written(m, order, files) <==>
      q in m || (|q| >= |Root| && q[..|Root|] == Root && q[|Root|..] in order)
    ensures |q| >= |Root| && q[..|Root|] == Root && q[|Root|..] in order && q[|Root|..] in files ==>
      Written(m, order, files)[q] == files[q[|Root|..]]
    ensures !(|q| >= |Root| && q[..|Root|] == Root && q[|Root|..] in order) && q in m ==>
      Written(m, order, files)[q] == m[q]
  {
    if order != [] {
      var init := order[..|order| - 1];
      var p := order[|order| - 1];
      WrittenLookup(m, init, files, q);
      assert order == init + [p];
      assert FilePath(p)[|Root|..] == p;
      if |q| >= |Root| && q[..|Root|] == Root && q[|Root|..] == p {
        assert q == Root + q[|Root|..];
      }
    }
  }

  lemma RodirImageLookup(files: map<string, Bytes>, q: string)
    ensures q in RodirImage(files) <==> |q| >= |Root| && q[..|Root|] == Root && q[|Root|..] in files
    ensures q in RodirImage(files) ==> RodirImage(files)[q] == files[q[|Root|..]]
  {
    if |q| >= |Root| && q[..|Root|] == Root && q[|Root|..] in files {
      assert q == FilePath(q[|Root|..]);
    }
    if q in RodirImage(files) {
      var p :| p in files && q == FilePath(p);
      assert q[|Root|..] == p;
    }
  }

  /**
   * Whatever the cursor order, a restore leaves the old target files overlaid with
   * every stored file at `'/rodir/' + path`.
   */
  lemma WrittenIsImage(m: map<string, Bytes>, order: seq<string>, files: map<string, Bytes>)
    requires Enumerates(order, files.Keys)
    ensures Written(m, order, files) == m + RodirImage(files)
  {
    forall q ensures q in Written(m, order, files) <==> q in m + RodirImage(files) {
      WrittenLookup(m, order, files, q);
      RodirImageLookup(files, q);
    }
    forall q | q in Written(m, order, files) ensures Written(m, order, files)[q] == (m + RodirImage(files))[q] {
      WrittenLookup(m, order, files, q);
      RodirImageLookup(files, q);
    }
  }

  /** Restoring the same generation twice, in any two cursor orders, leaves the same files. */
  lemma RestoreIdempotent(m: map<string, Bytes>, o1: seq<string>, o2: seq<string>, files: map<string, Bytes>)
    requires Enumerates(o1, files.Keys) && Enumerates(o2, files.Keys)
    ensures Written(Written(m, o1, files), o2, files) == Written(m, o1, files)
    ensures Written(m, o1, files) == Written(m, o2, files)
  {
    WrittenIsImage(m, o1, files);
    WrittenIsImage(m, o2, files);
    WrittenIsImage(Written(m, o1, files), o2, files);
    var img := RodirImage(files);
    assert (m + img) + img == m + img;
  }
}
