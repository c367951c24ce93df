/**
 * The download branch's expand loop: skip directory entries, sum the declared sizes,
 * inflate each entry in order, write it under `/rodir/`, stage it for the cache and
 * report per-entry progress.
 */
module Unzip {
  import opened Common
  import opened Progress
  import opened Paths
  import opened Cache
  import opened TargetFs

  /** What inflating one entry (`file.async('uint8array', onUpdate)`) gives. */
  datatype Inflation = Inflated(data: Bytes) | Corrupt(message: string)

  /**
   * One member of `zip.files`: its name, whether it is a directory, the uncompressed
   * size the archive declares (`None` when `_data.uncompressedSize` is not a number),
   * the `percent` values the library passes to `onUpdate`, and the inflation outcome.
   */
  datatype ZipEntry = ZipEntry(name: string, dir: bool, size: Option<nat>, updates: seq<real>, inflation: Inflation)

  /**
   * How an entry's progress is scaled: by bytes, or by entry index against 1000. The
   * pass is modelled under both rules: the one the client uses, and the one that keeps
   * its progress from going back.
   */
  datatype ScaleRule =
    | AsWritten      // by bytes when `totalUnc > 0 && thisSize > 0`
    | Corrected      // by bytes whenever `totalUnc > 0`

  /** `Object.values(zip.files).filter(f => !f.dir)`. */
  function FileEntries(all: seq<ZipEntry>): seq<ZipEntry> {
    if all == [] then []
    else
      var last := all[|all| - 1];
      FileEntries(all[..|all| - 1]) + (if last.dir then [] else [last])
  }

  function SizeOf(e: ZipEntry): nat {
    if e.size.Some? then e.size.value else 0
  }

  /** The sum of the declared sizes of entries 0 .. n-1. */
  function SizeSum(files: seq<ZipEntry>, n: nat): nat
    requires n <= |files|
  {
    if n == 0 then 0 else SizeSum(files, n - 1) + SizeOf(files[n - 1])
  }

  /** `totalUnc`: the sum of the declared sizes. */
  function TotalSize(files: seq<ZipEntry>): nat {
    SizeSum(files, |files|)
  }

  /** `Math.max(0, Math.min(100, percent))`. */
  function Clamp(p: real): (r: real)
    ensures 0.0 <= r <= 100.0
    ensures 0.0 <= p <= 100.0 ==> r == p
  {
    if p < 0.0 then 0.0 else if p > 100.0 then 100.0 else p
  }

  /** `Math.round` on non-negative values: the nearest integer, halves rounded up. */
  function Round(x: real): int {
    (x + 0.5).Floor
  }

  /** `totalBytes` in the per-entry records: `totalUnc || 1000`. */
  function ReportedTotal(totalUnc: nat): nat {
    if totalUnc > 0 then totalUnc else 1000
  }

  /** `hasBytes` for one entry. */
  predicate ByBytes(rule: ScaleRule, totalUnc: nat, thisSize: nat) {
    match rule
    case AsWritten => totalUnc > 0 && thisSize > 0
    case Corrected => totalUnc > 0
  }

  /** `doneBytes` when entry i starts: the sizes of the earlier entries that were scaled by bytes. */
  function DoneBytes(rule: ScaleRule, files: seq<ZipEntry>, i: nat): nat
    requires i <= |files|
  {
    if i == 0 then 0
    else
      var s := SizeOf(files[i - 1]);
      DoneBytes(rule, files, i - 1) + (if ByBytes(rule, TotalSize(files), s) then s else 0)
  }

  /** `((i + pct / 100) / n) * 1000`, the index-scaled position. */
  function IndexScaled(i: real, n: nat): real
    requires n > 0
  {
    i / (n as real) * 1000.0
  }

  /** `thisSize * (pct / 100)`: the bytes of an entry of `size` bytes that `pct` percent stands for. */
  function Portion(size: nat, pct: real): real {
    size as real * (pct / 100.0)
  }

  /** `loadedBytes` reported by `onUpdate` while entry i is at (clamped) percent `pct`. */
  function UpdateLoaded(rule: ScaleRule, files: seq<ZipEntry>, i: nat, pct: real): int
    requires i < |files|
  {
    var thisSize := SizeOf(files[i]);
    if ByBytes(rule, TotalSize(files), thisSize)
    then Round(DoneBytes(rule, files, i) as real + Portion(thisSize, pct))
    else Round(IndexScaled(i as real + pct / 100.0, |files|))
  }

  /** `loadedBytes` of the record posted once entry i is written. */
  function ClosingLoaded(rule: ScaleRule, files: seq<ZipEntry>, i: nat): int
    requires i < |files|
  {
    if ByBytes(rule, TotalSize(files), SizeOf(files[i])) then DoneBytes(rule, files, i + 1)
    else Round(IndexScaled((i + 1) as real, |files|))
  }

  /** The record `onUpdate` posts when the library reports percent `p` for entry i. */
  function UpdateRecord(rule: ScaleRule, files: seq<ZipEntry>, i: nat, p: real): Event
    requires i < |files|
  {
    UnzipProgress(files[i].name, i, Clamp(p), UpdateLoaded(rule, files, i, Clamp(p)), ReportedTotal(TotalSize(files)))
  }

  /** The records posted for the first k percent updates of entry i. */
  function UpdatesUpTo(rule: ScaleRule, files: seq<ZipEntry>, i: nat, k: nat): (r: seq<Event>)
    requires i < |files| && k <= |files[i].updates|
    ensures |r| == k
  {
    if k == 0 then [] else UpdatesUpTo(rule, files, i, k - 1) + [UpdateRecord(rule, files, i, files[i].updates[k - 1])]
  }

  /** The records `onUpdate` posts while entry i inflates. */
  function UpdateRecords(rule: ScaleRule, files: seq<ZipEntry>, i: nat): seq<Event>
    requires i < |files|
  {
    UpdatesUpTo(rule, files, i, |files[i].updates|)
  }

  function ClosingRecord(rule: ScaleRule, files: seq<ZipEntry>, i: nat): Event
    requires i < |files|
  {
    UnzipProgress(files[i].name, i, 100.0, ClosingLoaded(rule, files, i), ReportedTotal(TotalSize(files)))
  }

  /** The records of entry i once it is written: its updates, then its closing record. */
  function EntryRecords(rule: ScaleRule, files: seq<ZipEntry>, i: nat): seq<Event>
    requires i < |files|
  {
    UpdateRecords(rule, files, i) + [ClosingRecord(rule, files, i)]
  }

  /** All records of entries 0 .. k-1. */
  function PassRecords(rule: ScaleRule, files: seq<ZipEntry>, k: nat): seq<Event>
    requires k <= |files|
  {
    if k == 0 then [] else PassRecords(rule, files, k - 1) + EntryRecords(rule, files, k - 1)
  }

  /** Index of the first of entries 0 .. n-1 that fails to inflate, or -1. */
  function CorruptBefore(files: seq<ZipEntry>, n: nat): (k: int)
    requires n <= |files|
    ensures -1 <= k < n
    ensures k >= 0 ==> files[k].inflation.Corrupt?
  {
    if n == 0 then -1
    else
      var k := CorruptBefore(files, n - 1);
      if k >= 0 then k
      else if files[n - 1].inflation.Corrupt? then n - 1
      else -1
  }

  /** Index of the first entry that fails to inflate, or -1. */
  function FirstCorrupt(files: seq<ZipEntry>): (k: int)
    ensures -1 <= k < |files|
    ensures k >= 0 ==> files[k].inflation.Corrupt?
  {
    CorruptBefore(files, |files|)
  }

  /** The bytes an entry inflates to; a corrupt entry has none. */
  function DataOf(f: ZipEntry): Bytes {
    if f.inflation.Inflated? then f.inflation.data else []
  }

  /** The (path, bytes) pairs staged for the cache from entries 0 .. n-1, in order. */
  function Staged(files: seq<ZipEntry>, n: nat): (es: seq<Entry>)
    requires n <= |files|
    ensures |es| == n
  {
    if n == 0 then []
    else Staged(files, n - 1) + [Entry(files[n - 1].name, DataOf(files[n - 1]))]
  }

  /** The target files after `FS.writeFile('/rodir/' + name, data)` for entries 0 .. n-1 in order. */
  function WrittenFiles(m: map<string, Bytes>, files: seq<ZipEntry>, n: nat): map<string, Bytes>
    requires n <= |files|
  {
    if n == 0 then m
    else WrittenFiles(m, files, n - 1)[FilePath(files[n - 1].name) := DataOf(files[n - 1])]
  }

  /** The directories created for entries 0 .. n-1. */
  function NameDirs(files: seq<ZipEntry>, n: nat): set<string>
    requires n <= |files|
  {
    if n == 0 then {} else NameDirs(files, n - 1) + {DirPath(files[n - 1].name)}
  }

  /** The records of the entry loop: those of every entry until the first that fails to inflate. */
  function LoopRecords(rule: ScaleRule, files: seq<ZipEntry>): seq<Event> {
    var f := FirstCorrupt(files);
    if f < 0 then PassRecords(rule, files, |files|)
    else PassRecords(rule, files, f) + UpdateRecords(rule, files, f)
  }

  /** Everything the pass posts, given its file entries. */
  function PassEvents(rule: ScaleRule, files: seq<ZipEntry>): seq<Event> {
    [UnzipStart(|files|, TotalSize(files))] + LoopRecords(rule, files)
      + (if FirstCorrupt(files) < 0 then [UnzipDone(|files|, TotalSize(files))] else [])
  }

  /** What the loop returns: the staged batch, or the first inflation failure. */
  function LoopOutcome(files: seq<ZipEntry>, stage: bool): Result<seq<Entry>> {
    var f := FirstCorrupt(files);
    if f >= 0 then Err(ArchiveError(files[f].inflation.message))
    else Ok(if stage then Staged(files, |files|) else [])
  }

  /** How many entries the pass writes before it stops. */
  function WrittenCount(files: seq<ZipEntry>): (n: nat)
    ensures n <= |files|
  {
    var f := FirstCorrupt(files);
    if f < 0 then |files| else f
  }

  /** How many entries get their directory before the pass stops. */
  function DirCount(files: seq<ZipEntry>): (n: nat)
    ensures n <= |files|
  {
    var f := FirstCorrupt(files);
    if f < 0 then |files| else f + 1
  }

  /** `entries.map(f => { totalUnc += s; return s })`: the size table and its sum. */
  method SizeTable(files: seq<ZipEntry>) returns (sizes: seq<nat>, totalUnc: nat)
    ensures |sizes| == |files|
    ensures forall k :: 0 <= k < |files| ==> sizes[k] == SizeOf(files[k])
    ensures totalUnc == TotalSize(files)
  {
    sizes := [];
    totalUnc := 0;
    for i := 0 to |files|
      invariant |sizes| == i
      invariant forall k :: 0 <= k < i ==> sizes[k] == SizeOf(files[k])
      invariant totalUnc == SizeSum(files, i)
    {
      var s := SizeOf(files[i]);
      totalUnc := totalUnc + s;
      sizes := sizes + [s];
    }
  }

  method ExpandArchive(bus: Bus, fs: FileSystem, rule: ScaleRule, archive: seq<ZipEntry>, stage: bool)
    returns (r: Result<seq<Entry>>)
    modifies bus, fs
    ensures bus.log == old(bus.log) + PassEvents(rule, FileEntries(archive))
    ensures fs.files == WrittenFiles(old(fs.files), FileEntries(archive), WrittenCount(FileEntries(archive)))
    ensures fs.dirs == old(fs.dirs) + NameDirs(FileEntries(archive), DirCount(FileEntries(archive)))
    ensures fs.cwd == old(fs.cwd)
    ensures r == LoopOutcome(FileEntries(archive), stage)
  {
    r := ExpandFiles(bus, fs, rule, FileEntries(archive), stage);
  }

  /** The pass over the file entries: the opening record, the entry loop, and the closing record on success. */
  method ExpandFiles(bus: Bus, fs: FileSystem, rule: ScaleRule, files: seq<ZipEntry>, stage: bool)
    returns (r: Result<seq<Entry>>)
    modifies bus, fs
    ensures bus.log == old(bus.log) + PassEvents(rule, files)
    ensures fs.files == WrittenFiles(old(fs.files), files, WrittenCount(files))
    ensures fs.dirs == old(fs.dirs) + NameDirs(files, DirCount(files))
    ensures fs.cwd == old(fs.cwd)
    ensures r == LoopOutcome(files, stage)
  {
    var sizes, totalUnc := SizeTable(files);
    PassEventsShape(rule, files);
    ghost var log0 := bus.log;
    var start := UnzipStart(|files|, totalUnc);
    bus.Report(start);
    r := ExpandEntries(bus, fs, rule, files, sizes, totalUnc, stage);
    Regroup(log0, [start], LoopRecords(rule, files));
    if r.Ok? {
      var done := UnzipDone(|files|, totalUnc);
      bus.Report(done);
      Regroup(log0, [start] + LoopRecords(rule, files), [done]);
    }
  }

  /** The `for` loop over the file entries; it stops at the first entry that fails to inflate. */
  method ExpandEntries(bus: Bus, fs: FileSystem, rule: ScaleRule, files: seq<ZipEntry>, sizes: seq<nat>, totalUnc: nat, stage: bool)
    returns (r: Result<seq<Entry>>)
    requires |sizes| == |files| && forall k :: 0 <= k < |files| ==> sizes[k] == SizeOf(files[k])
    requires totalUnc == TotalSize(files)
    modifies bus, fs
    ensures bus.log == old(bus.log) + LoopRecords(rule, files)
    ensures fs.files == WrittenFiles(old(fs.files), files, WrittenCount(files))
    ensures fs.dirs == old(fs.dirs) + NameDirs(files, DirCount(files))
    ensures fs.cwd == old(fs.cwd)
    ensures r == LoopOutcome(files, stage)
  {
    var stop, batch := RunEntries(bus, fs, rule, files, sizes, totalUnc, stage);
    r := if stop < |files| then Err(ArchiveError(files[stop].inflation.message)) else Ok(batch);
    Concluded(rule, files, stage, stop, batch, r, old(bus.log), bus.log, old(fs.files), fs.files, old(fs.dirs), fs.dirs);
  }

  /** Where the iterations stopped determines the whole pass's records, writes, directories and result. */
  lemma Concluded(rule: ScaleRule, files: seq<ZipEntry>, stage: bool, stop: nat, batch: seq<Entry>, r: Result<seq<Entry>>,
                  log0: seq<Event>, log: seq<Event>, m0: map<string, Bytes>, m: map<string, Bytes>,
                  dirs0: set<string>, dirs: set<string>)
    requires stop <= |files|
    requires stop < |files| ==> FirstCorrupt(files) == stop
    requires r == if stop < |files| then Err(ArchiveError(files[stop].inflation.message)) else Ok(batch)
    requires stop < |files| ==>
      && log == log0 + (PassRecords(rule, files, stop) + UpdateRecords(rule, files, stop))
      && m == WrittenFiles(m0, files, stop)
      && dirs == dirs0 + NameDirs(files, stop + 1)
    requires stop == |files| ==>
      && FirstCorrupt(files) < 0
      && log == log0 + PassRecords(rule, files, |files|)
      && m == WrittenFiles(m0, files, |files|)
      && dirs == dirs0 + NameDirs(files, |files|)
      && batch == if stage then Staged(files, |files|) else []
    ensures log == log0 + LoopRecords(rule, files)
    ensures m == WrittenFiles(m0, files, WrittenCount(files))
    ensures dirs == dirs0 + NameDirs(files, DirCount(files))
    ensures r == LoopOutcome(files, stage)
  {
    if stop < |files| {
      StoppedAt(rule, files, stop, stage);
    } else {
      RanThrough(rule, files, stage);
    }
  }

  /**
   * The iterations themselves: `stop` is the index of the entry that failed to
   * inflate, or the number of entries when every one inflated.
   */
  method RunEntries(bus: Bus, fs: FileSystem, rule: ScaleRule, files: seq<ZipEntry>, sizes: seq<nat>, totalUnc: nat, stage: bool)
    returns (stop: nat, batch: seq<Entry>)
    requires |sizes| == |files| && forall k :: 0 <= k < |files| ==> sizes[k] == SizeOf(files[k])
    requires totalUnc == TotalSize(files)
    modifies bus, fs
    ensures stop <= |files| && fs.cwd == old(fs.cwd)
    ensures stop < |files| ==>
      && FirstCorrupt(files) == stop
      && bus.log == old(bus.log) + (PassRecords(rule, files, stop) + UpdateRecords(rule, files, stop))
      && fs.files == WrittenFiles(old(fs.files), files, stop)
      && fs.dirs == old(fs.dirs) + NameDirs(files, stop + 1)
    ensures stop == |files| ==>
      && FirstCorrupt(files) < 0
      && bus.log == old(bus.log) + PassRecords(rule, files, |files|)
      && fs.files == WrittenFiles(old(fs.files), files, |files|)
      && fs.dirs == old(fs.dirs) + NameDirs(files, |files|)
      && batch == if stage then Staged(files, |files|) else []
  {
    var doneBytes: nat := 0;
    batch := [];
    var i := 0;
    while i < |files|
      invariant 0 <= i <= |files|
      invariant Through(rule, files, i, stage, doneBytes, batch, old(bus.log), bus.log, old(fs.files), fs.files, old(fs.dirs), fs.dirs)
      invariant fs.cwd == old(fs.cwd)
    {
      var ok;
      ok, doneBytes, batch := ExpandEntry(bus, fs, rule, files, i, sizes[i], totalUnc, doneBytes, stage, batch,
                                          old(bus.log), old(fs.files), old(fs.dirs));
      if !ok {
        return i, batch;
      }
      i := i + 1;
    }
    return i, batch;
  }

  /**
   * The state after the first `i` entries have all inflated: the bytes counted, the
   * batch staged, the records posted, the files written and the directories made.
   */
  ghost predicate Through(rule: ScaleRule, files: seq<ZipEntry>, i: nat, stage: bool, doneBytes: nat, batch: seq<Entry>,
                          log0: seq<Event>, log: seq<Event>, m0: map<string, Bytes>, m: map<string, Bytes>,
                          dirs0: set<string>, dirs: set<string>)
  {
    && i <= |files|
    && CorruptBefore(files, i) < 0
    && doneBytes == DoneBytes(rule, files, i)
    && batch == (if stage then Staged(files, i) else [])
    && log == log0 + PassRecords(rule, files, i)
    && m == WrittenFiles(m0, files, i)
    && dirs == dirs0 + NameDirs(files, i)
  }

  /** One iteration: directory, inflation with its `onUpdate` records, write, staging, closing record. */
  method ExpandEntry(bus: Bus, fs: FileSystem, rule: ScaleRule, files: seq<ZipEntry>, i: nat, thisSize: nat, totalUnc: nat,
                     doneBytes: nat, stage: bool, batch: seq<Entry>,
                     ghost log0: seq<Event>, ghost m0: map<string, Bytes>, ghost dirs0: set<string>)
    returns (ok: bool, doneBytes': nat, batch': seq<Entry>)
    requires i < |files| && thisSize == SizeOf(files[i]) && totalUnc == TotalSize(files)
    requires Through(rule, files, i, stage, doneBytes, batch, log0, bus.log, m0, fs.files, dirs0, fs.dirs)
    modifies bus, fs
    ensures fs.cwd == old(fs.cwd)
    ensures ok ==> Through(rule, files, i + 1, stage, doneBytes', batch', log0, bus.log, m0, fs.files, dirs0, fs.dirs)
    ensures !ok ==> && FirstCorrupt(files) == i
                    && fs.files == WrittenFiles(m0, files, i)
                    && fs.dirs == dirs0 + NameDirs(files, i + 1)
                    && bus.log == log0 + (PassRecords(rule, files, i) + UpdateRecords(rule, files, i))
  {
    OpenEntry(bus, fs, rule, files, i, stage, doneBytes, batch, log0, m0, dirs0);
    if files[i].inflation.Corrupt? {
      StopsAt(rule, files, i, stage, doneBytes, batch, log0, bus.log, m0, fs.files, dirs0, fs.dirs);
      return false, doneBytes, batch;
    }
    doneBytes', batch' := CloseEntry(bus, fs, rule, files, i, thisSize, totalUnc, stage, doneBytes, batch, log0, m0, dirs0);
    ok := true;
  }

  /**
   * The state once entry i has been entered: its directory made and its `onUpdate`
   * records posted, nothing written for it yet.
   */
  ghost predicate Entered(rule: ScaleRule, files: seq<ZipEntry>, i: nat, stage: bool, doneBytes: nat, batch: seq<Entry>,
                          log0: seq<Event>, log: seq<Event>, m0: map<string, Bytes>, m: map<string, Bytes>,
                          dirs0: set<string>, dirs: set<string>)
  {
    && i < |files|
    && CorruptBefore(files, i) < 0
    && doneBytes == DoneBytes(rule, files, i)
    && batch == (if stage then Staged(files, i) else [])
    && log == log0 + (PassRecords(rule, files, i) + UpdateRecords(rule, files, i))
    && m == WrittenFiles(m0, files, i)
    && dirs == dirs0 + NameDirs(files, i + 1)
  }

  /** Entering an entry: its directory, then the `onUpdate` records of inflating it. */
  method OpenEntry(bus: Bus, fs: FileSystem, rule: ScaleRule, files: seq<ZipEntry>, i: nat, stage: bool,
                   doneBytes: nat, batch: seq<Entry>,
                   ghost log0: seq<Event>, ghost m0: map<string, Bytes>, ghost dirs0: set<string>)
    requires i < |files|
    requires Through(rule, files, i, stage, doneBytes, batch, log0, bus.log, m0, fs.files, dirs0, fs.dirs)
    modifies bus, fs
    ensures Entered(rule, files, i, stage, doneBytes, batch, log0, bus.log, m0, fs.files, dirs0, fs.dirs)
    ensures fs.cwd == old(fs.cwd)
  {
    ghost var log, dirs := bus.log, fs.dirs;
    fs.MkdirTree(DirPath(files[i].name));
    var updates := UpdateRecords(rule, files, i);
    bus.ReportAll(updates);
    Opens(rule, files, i, stage, doneBytes, batch, log0, log, bus.log, m0, fs.files, dirs0, dirs, fs.dirs);
  }

  lemma Opens(rule: ScaleRule, files: seq<ZipEntry>, i: nat, stage: bool, doneBytes: nat, batch: seq<Entry>,
              log0: seq<Event>, log: seq<Event>, log': seq<Event>, m0: map<string, Bytes>, m: map<string, Bytes>,
              dirs0: set<string>, dirs: set<string>, dirs': set<string>)
    requires i < |files|
    requires Through(rule, files, i, stage, doneBytes, batch, log0, log, m0, m, dirs0, dirs)
    requires log' == log + UpdateRecords(rule, files, i) && dirs' == dirs + {DirPath(files[i].name)}
    ensures Entered(rule, files, i, stage, doneBytes, batch, log0, log', m0, m, dirs0, dirs')
  {
    Regroup(log0, PassRecords(rule, files, i), UpdateRecords(rule, files, i));
  }

  /** An entry that fails to inflate is the first failure of the run. */
  lemma StopsAt(rule: ScaleRule, files: seq<ZipEntry>, i: nat, stage: bool, doneBytes: nat, batch: seq<Entry>,
                log0: seq<Event>, log: seq<Event>, m0: map<string, Bytes>, m: map<string, Bytes>,
                dirs0: set<string>, dirs: set<string>)
    requires Entered(rule, files, i, stage, doneBytes, batch, log0, log, m0, m, dirs0, dirs)
    requires files[i].inflation.Corrupt?
    ensures && FirstCorrupt(files) == i
            && m == WrittenFiles(m0, files, i)
            && dirs == dirs0 + NameDirs(files, i + 1)
            && log == log0 + (PassRecords(rule, files, i) + UpdateRecords(rule, files, i))
  {
    FirstCorruptStays(files, i + 1);
  }

  /** Leaving an entry that inflated: the write, the staging, the byte count, the closing record. */
  method CloseEntry(bus: Bus, fs: FileSystem, rule: ScaleRule, files: seq<ZipEntry>, i: nat, thisSize: nat, totalUnc: nat,
                    stage: bool, doneBytes: nat, batch: seq<Entry>,
                    ghost log0: seq<Event>, ghost m0: map<string, Bytes>, ghost dirs0: set<string>)
    returns (doneBytes': nat, batch': seq<Entry>)
    requires i < |files| && files[i].inflation.Inflated?
    requires thisSize == SizeOf(files[i]) && totalUnc == TotalSize(files)
    requires Entered(rule, files, i, stage, doneBytes, batch, log0, bus.log, m0, fs.files, dirs0, fs.dirs)
    modifies bus, fs
    ensures Through(rule, files, i + 1, stage, doneBytes', batch', log0, bus.log, m0, fs.files, dirs0, fs.dirs)
    ensures fs.cwd == old(fs.cwd)
  {
    ghost var log, m := bus.log, fs.files;
    var file := files[i];
    var hasBytes := ByBytes(rule, totalUnc, thisSize);
    fs.WriteFile(FilePath(file.name), file.inflation.data);
    batch' := batch;
    if stage {
      batch' := batch' + [Entry(file.name, file.inflation.data)];
    }
    doneBytes' := doneBytes;
    if hasBytes {
      doneBytes' := doneBytes' + thisSize;
    }
    var loadedBytes := if hasBytes then doneBytes' else Round(IndexScaled((i + 1) as real, |files|));
    var closing := UnzipProgress(file.name, i, 100.0, loadedBytes, ReportedTotal(totalUnc));
    assert closing == ClosingRecord(rule, files, i);
    bus.Report(closing);
    Closes(rule, files, i, stage, doneBytes, batch, doneBytes', batch', log0, log, bus.log, m0, m, fs.files, dirs0, fs.dirs);
  }

  /** An entry that inflated, once written, staged and closed, extends the state by one entry. */
  lemma Closes(rule: ScaleRule, files: seq<ZipEntry>, i: nat, stage: bool, doneBytes: nat, batch: seq<Entry>,
               doneBytes': nat, batch': seq<Entry>,
               log0: seq<Event>, log: seq<Event>, log': seq<Event>, m0: map<string, Bytes>, m: map<string, Bytes>,
               m': map<string, Bytes>, dirs0: set<string>, dirs: set<string>)
    requires Entered(rule, files, i, stage, doneBytes, batch, log0, log, m0, m, dirs0, dirs)
    requires files[i].inflation.Inflated?
    requires m' == m[FilePath(files[i].name) := files[i].inflation.data]
    requires batch' == if stage then batch + [Entry(files[i].name, files[i].inflation.data)] else batch
    requires doneBytes' == doneBytes + (if ByBytes(rule, TotalSize(files), SizeOf(files[i])) then SizeOf(files[i]) else 0)
    requires log' == log + [ClosingRecord(rule, files, i)]
    ensures Through(rule, files, i + 1, stage, doneBytes', batch', log0, log', m0, m', dirs0, dirs)
  {
    var p, u, c := PassRecords(rule, files, i), UpdateRecords(rule, files, i), [ClosingRecord(rule, files, i)];
    Regroup(log0, p + u, c);
    Regroup(p, u, c);
  }

  lemma PassEventsShape(rule: ScaleRule, files: seq<ZipEntry>)
    ensures var start := UnzipStart(|files|, TotalSize(files));
      && (FirstCorrupt(files) < 0 ==>
            PassEvents(rule, files) == [start] + LoopRecords(rule, files) + [UnzipDone(|files|, TotalSize(files))])
      && (FirstCorrupt(files) >= 0 ==> PassEvents(rule, files) == [start] + LoopRecords(rule, files))
      && (FirstCorrupt(files) < 0 <==> LoopOutcome(files, true).Ok?)
  {
  }

  /** A failure among the first n entries is the first failure of the whole run. */
  lemma {:induction false} FirstCorruptStays(files: seq<ZipEntry>, n: nat)
    requires n <= |files| && CorruptBefore(files, n) >= 0
    ensures FirstCorrupt(files) == CorruptBefore(files, n)
    decreases |files| - n
  {
    if n < |files| {
      FirstCorruptStays(files, n + 1);
    }
  }

  /** The loop's results when entry i is the first that fails to inflate. */
  lemma StoppedAt(rule: ScaleRule, files: seq<ZipEntry>, i: nat, stage: bool)
    requires i < |files| && FirstCorrupt(files) == i
    ensures LoopRecords(rule, files) == PassRecords(rule, files, i) + UpdateRecords(rule, files, i)
    ensures WrittenCount(files) == i && DirCount(files) == i + 1
    ensures LoopOutcome(files, stage) == Err(ArchiveError(files[i].inflation.message))
  {
  }

  /** The loop's results when every entry inflates. */
  lemma RanThrough(rule: ScaleRule, files: seq<ZipEntry>, stage: bool)
    requires FirstCorrupt(files) < 0
    ensures LoopRecords(rule, files) == PassRecords(rule, files, |files|)
    ensures WrittenCount(files) == |files| && DirCount(files) == |files|
    ensures LoopOutcome(files, stage) == Ok(if stage then Staged(files, |files|) else [])
  {
  }
}
