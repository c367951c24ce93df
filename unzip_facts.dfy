/**
 * What the unzip pass's records promise: clamped percents, a single opening and closing
 * record, and `loadedBytes` that never decrease and end exactly at `totalBytes`.
 */
module UnzipFacts {
  import opened Common
  import opened Progress
  import opened Unzip

  /** Every record is an `unzip-progress` record and their `loadedBytes` never decrease. */
  predicate Rising(es: seq<Event>) {
    && (forall k :: 0 <= k < |es| ==> es[k].UnzipProgress?)
    && (forall a, b :: 0 <= a <= b < |es| ==> es[a].loadedBytes <= es[b].loadedBytes)
  }

  /** Every record is an `unzip-progress` record whose `loadedBytes` lies in [lo, hi]. */
  predicate Within(es: seq<Event>, lo: int, hi: int) {
    forall k :: 0 <= k < |es| ==> es[k].UnzipProgress? && lo <= es[k].loadedBytes <= hi
  }

  /** The library's `percent` values for one entry never go back. */
  predicate RisingPercents(u: seq<real>) {
    forall a, b :: 0 <= a <= b < |u| ==> u[a] <= u[b]
  }

  /** Every entry's `percent` values never go back. */
  predicate RisingUpdates(files: seq<ZipEntry>) {
    forall i :: 0 <= i < |files| ==> RisingPercents(files[i].updates)
  }

  /** Where the records of entry i start, under the corrected rule: where entry i - 1 closed, 0 for the first. */
  function Opening(files: seq<ZipEntry>, i: nat): int
    requires i <= |files|
  {
    if TotalSize(files) > 0 then SizeSum(files, i)
    else if |files| == 0 then 0
    else Round(IndexScaled(i as real, |files|))
  }

  /** Where the records of entry i start on the entry's own scale: `doneBytes` by bytes, else the index-scaled i. */
  function EntryStart(rule: ScaleRule, files: seq<ZipEntry>, i: nat): int
    requires i < |files|
  {
    if ByBytes(rule, TotalSize(files), SizeOf(files[i])) then DoneBytes(rule, files, i)
    else Round(IndexScaled(i as real, |files|))
  }

  // ----- arithmetic of the two scales -----

  lemma RoundMono(x: real, y: real)
    requires x <= y
    ensures Round(x) <= Round(y)
  {
  }

  lemma IndexScaledMono(x: real, y: real, n: nat)
    requires n > 0 && x <= y
    ensures IndexScaled(x, n) <= IndexScaled(y, n)
  {
    assert x / (n as real) <= y / (n as real);
  }

  lemma IndexScaledEnds(n: nat)
    requires n > 0
    ensures Round(IndexScaled(0.0, n)) == 0
    ensures Round(IndexScaled(n as real, n)) == 1000
  {
    var r := n as real;
    assert r / r == 1.0;
    assert IndexScaled(r, n) == 1.0 * 1000.0;
    assert IndexScaled(0.0, n) == 0.0;
  }

  lemma {:induction false} SizeSumMono(files: seq<ZipEntry>, i: nat, j: nat)
    requires i <= j <= |files|
    ensures SizeSum(files, i) <= SizeSum(files, j)
    decreases j - i
  {
    if i < j {
      SizeSumMono(files, i, j - 1);
    }
  }

  /** Under the corrected rule `doneBytes` is the running sum of sizes whenever any size is known. */
  lemma {:induction false} DoneBytesCorrected(files: seq<ZipEntry>, i: nat)
    requires i <= |files|
    ensures DoneBytes(Corrected, files, i) == if TotalSize(files) > 0 then SizeSum(files, i) else 0
  {
    if i > 0 {
      DoneBytesCorrected(files, i - 1);
    }
  }

  // ----- one entry -----

  /** Entry i closes exactly where entry i + 1 opens. */
  lemma ClosingIsNextOpening(files: seq<ZipEntry>, i: nat)
    requires i < |files|
    ensures ClosingLoaded(Corrected, files, i) == Opening(files, i + 1)
  {
    DoneBytesCorrected(files, i + 1);
  }

  /** The first entry opens at 0 and the last closes at the reported total. */
  lemma OpeningAndClosingEnds(files: seq<ZipEntry>)
    ensures Opening(files, 0) == 0
    ensures |files| > 0 ==> ClosingLoaded(Corrected, files, |files| - 1) == ReportedTotal(TotalSize(files))
  {
    if |files| > 0 {
      IndexScaledEnds(|files|);
      ClosingIsNextOpening(files, |files| - 1);
    }
  }

  lemma OpeningMono(files: seq<ZipEntry>, i: nat, j: nat)
    requires i <= j <= |files|
    ensures Opening(files, i) <= Opening(files, j)
  {
    if TotalSize(files) > 0 {
      SizeSumMono(files, i, j);
    } else if |files| > 0 {
      IndexScaledMono(i as real, j as real, |files|);
      RoundMono(IndexScaled(i as real, |files|), IndexScaled(j as real, |files|));
    }
  }

  /** Every opening value lies between 0 and the reported total. */
  lemma OpeningBounded(files: seq<ZipEntry>, i: nat)
    requires i <= |files|
    ensures 0 <= Opening(files, i) <= ReportedTotal(TotalSize(files))
  {
    OpeningMono(files, 0, i);
    OpeningMono(files, i, |files|);
    OpeningAndClosingEnds(files);
    if |files| > 0 {
      ClosingIsNextOpening(files, |files| - 1);
    }
  }

  /** A clamped percent of an entry's size is a share of that size. */
  lemma ScaledShare(s: nat, p: real)
    requires 0.0 <= p <= 100.0
    ensures 0.0 <= Portion(s, p) <= s as real
  {
    var a, f := s as real, p / 100.0;
    var g := 1.0 - f;
    assert Portion(s, p) == a * f;
    assert 0.0 <= a && 0.0 <= f && 0.0 <= g;
    assert 0.0 <= a * f && 0.0 <= a * g;
    assert a * f + a * g == a * (f + g) == a;
  }

  lemma ScaledMono(s: nat, p: real, q: real)
    requires p <= q
    ensures Portion(s, p) <= Portion(s, q)
  {
    assert p / 100.0 <= q / 100.0;
  }

  /**
   * An `onUpdate` record of entry i lies between where the entry starts on its own scale
   * (bytes or index) and where its closing record lands; at 0 percent it is the start,
   * at 100 percent it is the closing value.
   */
  lemma UpdateBetween(rule: ScaleRule, files: seq<ZipEntry>, i: nat, p: real)
    requires i < |files| && 0.0 <= p <= 100.0
    ensures EntryStart(rule, files, i) <= UpdateLoaded(rule, files, i, p) <= ClosingLoaded(rule, files, i)
    ensures UpdateLoaded(rule, files, i, 0.0) == EntryStart(rule, files, i)
    ensures UpdateLoaded(rule, files, i, 100.0) == ClosingLoaded(rule, files, i)
  {
    var s := SizeOf(files[i]);
    if ByBytes(rule, TotalSize(files), s) {
      var d := DoneBytes(rule, files, i);
      assert DoneBytes(rule, files, i + 1) == d + s;
      BytesBetween(d, s, p);
      BytesBetween(d, s, 0.0);
      BytesBetween(d, s, 100.0);
      assert Portion(s, 0.0) == 0.0;
      assert Portion(s, 100.0) == s as real;
      assert d as real + s as real == (d + s) as real;
    } else {
      IndexBetween(i, |files|, p);
      assert i as real + 0.0 / 100.0 == i as real;
      assert i as real + 100.0 / 100.0 == (i + 1) as real;
    }
  }

  /** Under the corrected rule every entry starts where the pass's opening value for it lies. */
  lemma EntryStartCorrected(files: seq<ZipEntry>, i: nat)
    requires i < |files|
    ensures EntryStart(Corrected, files, i) == Opening(files, i)
  {
    DoneBytesCorrected(files, i);
  }

  /** `round(doneBytes + thisSize * pct / 100)` lies between `doneBytes` and `doneBytes + thisSize`. */
  lemma BytesBetween(d: nat, s: nat, p: real)
    requires 0.0 <= p <= 100.0
    ensures d <= Round(d as real + Portion(s, p)) <= d + s
  {
    ScaledShare(s, p);
    ShareBetween(d, s, Portion(s, p));
  }

  /** Adding a share of at most `s` to `d` rounds to a value between `d` and `d + s`. */
  lemma ShareBetween(d: nat, s: nat, x: real)
    requires 0.0 <= x <= s as real
    ensures d <= Round(d as real + x) <= d + s
  {
    var lo, hi := d as real, d as real + s as real;
    RoundMono(lo, lo + x);
    RoundMono(lo + x, hi);
    assert hi == (d + s) as real;
    assert Round(lo) == d && Round(hi) == d + s;
  }

  /** `round((i + pct / 100) / n * 1000)` lies between the index-scaled values of i and i + 1. */
  lemma IndexBetween(i: nat, n: nat, p: real)
    requires i < n && 0.0 <= p <= 100.0
    ensures Round(IndexScaled(i as real, n)) <= Round(IndexScaled(i as real + p / 100.0, n))
                                             <= Round(IndexScaled((i + 1) as real, n))
  {
    assert 0.0 <= p / 100.0 <= 1.0;
    IndexScaledMono(i as real, i as real + p / 100.0, n);
    IndexScaledMono(i as real + p / 100.0, (i + 1) as real, n);
    RoundMono(IndexScaled(i as real, n), IndexScaled(i as real + p / 100.0, n));
    RoundMono(IndexScaled(i as real + p / 100.0, n), IndexScaled((i + 1) as real, n));
  }

  /** A larger percent never reports fewer bytes, under either rule. */
  lemma UpdateMono(rule: ScaleRule, files: seq<ZipEntry>, i: nat, p: real, q: real)
    requires i < |files| && 0.0 <= p <= q <= 100.0
    ensures UpdateLoaded(rule, files, i, p) <= UpdateLoaded(rule, files, i, q)
  {
    var s := SizeOf(files[i]);
    if ByBytes(rule, TotalSize(files), s) {
      ScaledMono(s, p, q);
      var d := DoneBytes(rule, files, i) as real;
      RoundMono(d + Portion(s, p), d + Portion(s, q));
    } else {
      assert p / 100.0 <= q / 100.0;
      IndexScaledMono(i as real + p / 100.0, i as real + q / 100.0, |files|);
      RoundMono(IndexScaled(i as real + p / 100.0, |files|), IndexScaled(i as real + q / 100.0, |files|));
    }
  }

  lemma ClampMono(p: real, q: real)
    requires p <= q
    ensures Clamp(p) <= Clamp(q)
  {
  }

  lemma RisingAppend(es: seq<Event>, e: Event)
    requires Rising(es) && e.UnzipProgress?
    requires |es| > 0 ==> es[|es| - 1].loadedBytes <= e.loadedBytes
    ensures Rising(es + [e])
  {
    var r := es + [e];
    forall a, b | 0 <= a <= b < |r|
      ensures r[a].loadedBytes <= r[b].loadedBytes
    {
      if b == |es| && a < |es| {
        assert es[a].loadedBytes <= es[|es| - 1].loadedBytes;
      }
    }
  }

  lemma RisingJoin(x: seq<Event>, y: seq<Event>, lo: int, mid: int, hi: int)
    requires Rising(x) && Rising(y) && Within(x, lo, mid) && Within(y, mid, hi) && lo <= mid <= hi
    ensures Rising(x + y) && Within(x + y, lo, hi)
  {
    var r := x + y;
    forall k | 0 <= k < |r|
      ensures r[k].UnzipProgress? && lo <= r[k].loadedBytes <= hi
    {
      if k >= |x| {
        assert r[k] == y[k - |x|];
      }
    }
    forall a, b | 0 <= a <= b < |r|
      ensures r[a].loadedBytes <= r[b].loadedBytes
    {
      if a < |x| <= b {
        assert r[a] == x[a] && r[b] == y[b - |x|];
      }
    }
  }

  lemma WithinWiden(es: seq<Event>, lo: int, hi: int, hi': int)
    requires Within(es, lo, hi) && hi <= hi'
    ensures Within(es, lo, hi')
  {
  }

  /** The `onUpdate` records of entry i rise and stay within the entry's span. */
  lemma {:induction false} UpdatesRise(files: seq<ZipEntry>, i: nat, k: nat)
    requires i < |files| && k <= |files[i].updates| && RisingPercents(files[i].updates)
    ensures Rising(UpdatesUpTo(Corrected, files, i, k))
    ensures Within(UpdatesUpTo(Corrected, files, i, k), Opening(files, i), ClosingLoaded(Corrected, files, i))
    ensures k > 0 ==> UpdatesUpTo(Corrected, files, i, k)[k - 1].loadedBytes
                      == UpdateLoaded(Corrected, files, i, Clamp(files[i].updates[k - 1]))
  {
    if k > 0 {
      UpdatesRise(files, i, k - 1);
      var u := files[i].updates;
      var prev := UpdatesUpTo(Corrected, files, i, k - 1);
      var e := UpdateRecord(Corrected, files, i, u[k - 1]);
      if k > 1 {
        ClampMono(u[k - 2], u[k - 1]);
        UpdateMono(Corrected, files, i, Clamp(u[k - 2]), Clamp(u[k - 1]));
      }
      UpdateBetween(Corrected, files, i, Clamp(u[k - 1]));
      EntryStartCorrected(files, i);
      RisingAppend(prev, e);
      assert UpdatesUpTo(Corrected, files, i, k) == prev + [e];
    }
  }

  /** All records of entry i rise from where it opens to where the next entry opens. */
  lemma EntryRises(files: seq<ZipEntry>, i: nat)
    requires i < |files| && RisingPercents(files[i].updates)
    ensures Rising(EntryRecords(Corrected, files, i))
    ensures Within(EntryRecords(Corrected, files, i), Opening(files, i), Opening(files, i + 1))
    ensures EntryRecords(Corrected, files, i)[|EntryRecords(Corrected, files, i)| - 1].loadedBytes == Opening(files, i + 1)
  {
    var ups := UpdateRecords(Corrected, files, i);
    UpdatesRise(files, i, |files[i].updates|);
    ClosingIsNextOpening(files, i);
    OpeningMono(files, i, i + 1);
    var c := ClosingRecord(Corrected, files, i);
    RisingAppend(ups, c);
    assert EntryRecords(Corrected, files, i) == ups + [c];
  }

  /** The records of entries 0 .. k-1 rise from 0 to where entry k opens. */
  lemma {:induction false} PassRises(files: seq<ZipEntry>, k: nat)
    requires k <= |files| && RisingUpdates(files)
    ensures Rising(PassRecords(Corrected, files, k))
    ensures Within(PassRecords(Corrected, files, k), 0, Opening(files, k))
    ensures k > 0 ==> PassRecords(Corrected, files, k)[|PassRecords(Corrected, files, k)| - 1].loadedBytes == Opening(files, k)
  {
    if k == 0 {
      OpeningAndClosingEnds(files);
    } else {
      PassRises(files, k - 1);
      EntryRises(files, k - 1);
      RisingJoin(PassRecords(Corrected, files, k - 1), EntryRecords(Corrected, files, k - 1),
                 0, Opening(files, k - 1), Opening(files, k));
    }
  }

  /** A pass that inflates every entry rises from 0 to exactly the reported total. */
  lemma CompletePassRises(files: seq<ZipEntry>)
    requires RisingUpdates(files) && FirstCorrupt(files) < 0
    ensures Rising(LoopRecords(Corrected, files))
    ensures Within(LoopRecords(Corrected, files), 0, ReportedTotal(TotalSize(files)))
    ensures |files| > 0 ==> LoopRecords(Corrected, files)[|LoopRecords(Corrected, files)| - 1].loadedBytes == ReportedTotal(TotalSize(files))
  {
    PassRises(files, |files|);
    OpeningBounded(files, |files|);
    WithinWiden(PassRecords(Corrected, files, |files|), 0, Opening(files, |files|), ReportedTotal(TotalSize(files)));
    if |files| > 0 {
      OpeningAndClosingEnds(files);
      ClosingIsNextOpening(files, |files| - 1);
    }
  }

  /** A pass stopped by entry f's failure rises and stays below where entry f would have closed. */
  lemma StoppedPassRises(files: seq<ZipEntry>)
    requires RisingUpdates(files) && FirstCorrupt(files) >= 0
    ensures Rising(LoopRecords(Corrected, files))
    ensures Within(LoopRecords(Corrected, files), 0, ReportedTotal(TotalSize(files)))
  {
    var f := FirstCorrupt(files);
    PassRises(files, f);
    UpdatesRise(files, f, |files[f].updates|);
    OpeningBounded(files, f + 1);
    OpeningMono(files, 0, f);
    OpeningMono(files, f, f + 1);
    ClosingIsNextOpening(files, f);
    RisingJoin(PassRecords(Corrected, files, f), UpdateRecords(Corrected, files, f),
               0, Opening(files, f), Opening(files, f + 1));
    WithinWiden(LoopRecords(Corrected, files), 0, Opening(files, f + 1), ReportedTotal(TotalSize(files)));
  }

  /**
   * The unzip pass's progress never goes back, never exceeds `totalBytes || 1000`,
   * and a pass that inflates every entry ends exactly at it.
   */
  lemma LoopRecordsRise(files: seq<ZipEntry>)
    requires RisingUpdates(files)
    ensures Rising(LoopRecords(Corrected, files))
    ensures Within(LoopRecords(Corrected, files), 0, ReportedTotal(TotalSize(files)))
    ensures FirstCorrupt(files) < 0 && |files| > 0 ==>
              LoopRecords(Corrected, files)[|LoopRecords(Corrected, files)| - 1].loadedBytes == ReportedTotal(TotalSize(files))
  {
    if FirstCorrupt(files) < 0 {
      CompletePassRises(files);
    } else {
      StoppedPassRises(files);
    }
  }

  // ----- shape of the records, under either rule -----

  /** Every record is an `unzip-progress` record of one of the first n entries, with a clamped percent and the pass's total. */
  predicate Clamped(es: seq<Event>, total: nat, n: nat) {
    forall k :: 0 <= k < |es| ==>
      && es[k].UnzipProgress? && es[k].fileIndex < n
      && 0.0 <= es[k].filePercent <= 100.0 && es[k].totalBytes == total
  }

  lemma ClampedJoin(x: seq<Event>, y: seq<Event>, total: nat, n: nat)
    requires Clamped(x, total, n) && Clamped(y, total, n)
    ensures Clamped(x + y, total, n)
  {
    var r := x + y;
    forall k | 0 <= k < |r|
      ensures r[k].UnzipProgress? && r[k].fileIndex < n && 0.0 <= r[k].filePercent <= 100.0 && r[k].totalBytes == total
    {
      if k >= |x| {
        assert r[k] == y[k - |x|];
      }
    }
  }

  lemma {:induction false} UpdatesClamped(rule: ScaleRule, files: seq<ZipEntry>, i: nat, k: nat)
    requires i < |files| && k <= |files[i].updates|
    ensures Clamped(UpdatesUpTo(rule, files, i, k), ReportedTotal(TotalSize(files)), i + 1)
  {
    if k > 0 {
      UpdatesClamped(rule, files, i, k - 1);
      ClampedJoin(UpdatesUpTo(rule, files, i, k - 1), [UpdateRecord(rule, files, i, files[i].updates[k - 1])],
                  ReportedTotal(TotalSize(files)), i + 1);
    }
  }

  /** The records of entries 0 .. k-1 all carry a percent in [0, 100] and `totalUnc || 1000`. */
  lemma {:induction false} PassClamped(rule: ScaleRule, files: seq<ZipEntry>, k: nat)
    requires k <= |files|
    ensures Clamped(PassRecords(rule, files, k), ReportedTotal(TotalSize(files)), k)
  {
    if k > 0 {
      var total := ReportedTotal(TotalSize(files));
      PassClamped(rule, files, k - 1);
      UpdatesClamped(rule, files, k - 1, |files[k - 1].updates|);
      ClampedJoin(UpdateRecords(rule, files, k - 1), [ClosingRecord(rule, files, k - 1)], total, k);
      ClampedJoin(PassRecords(rule, files, k - 1), EntryRecords(rule, files, k - 1), total, k);
    }
  }

  /** Every record of the entry loop carries a clamped percent and `totalUnc || 1000`. */
  lemma LoopClamped(rule: ScaleRule, files: seq<ZipEntry>)
    ensures Clamped(LoopRecords(rule, files), ReportedTotal(TotalSize(files)), |files|)
  {
    var f := FirstCorrupt(files);
    var total := ReportedTotal(TotalSize(files));
    if f < 0 {
      PassClamped(rule, files, |files|);
    } else {
      PassClamped(rule, files, f);
      UpdatesClamped(rule, files, f, |files[f].updates|);
      ClampedJoin(PassRecords(rule, files, f), UpdateRecords(rule, files, f), total, |files|);
    }
  }

  /**
   * The pass posts one `unzip-start` carrying the number of file entries and the sum of
   * their sizes, then only clamped `unzip-progress` records, then one `unzip-done` exactly
   * when every entry inflates.
   */
  lemma PassEventsFrame(rule: ScaleRule, files: seq<ZipEntry>)
    ensures |PassEvents(rule, files)| == |LoopRecords(rule, files)| + (if FirstCorrupt(files) < 0 then 2 else 1)
    ensures PassEvents(rule, files)[0] == UnzipStart(|files|, TotalSize(files))
    ensures forall k :: 1 <= k <= |LoopRecords(rule, files)| ==>
              PassEvents(rule, files)[k].UnzipProgress? && PassEvents(rule, files)[k].fileIndex < |files|
              && 0.0 <= PassEvents(rule, files)[k].filePercent <= 100.0
              && PassEvents(rule, files)[k].totalBytes == ReportedTotal(TotalSize(files))
    ensures FirstCorrupt(files) < 0 ==> PassEvents(rule, files)[|PassEvents(rule, files)| - 1] == UnzipDone(|files|, TotalSize(files))
  {
    LoopClamped(rule, files);
    var es := PassEvents(rule, files);
    var recs := LoopRecords(rule, files);
    forall k | 1 <= k <= |recs|
      ensures es[k] == recs[k - 1]
    {
    }
  }

  /** `Object.values(zip.files).filter(f => !f.dir)` keeps exactly the non-directory entries. */
  lemma {:induction false} FileEntriesFilter(all: seq<ZipEntry>)
    ensures forall k :: 0 <= k < |FileEntries(all)| ==> !FileEntries(all)[k].dir && FileEntries(all)[k] in all
    ensures forall e :: e in all && !e.dir ==> e in FileEntries(all)
  {
    if all != [] {
      FileEntriesFilter(all[..|all| - 1]);
      assert all == all[..|all| - 1] + [all[|all| - 1]];
    }
  }

  /**
   * The filter keeps the order of the archive: filtering a concatenation filters each part
   * and concatenates the results (a single member is kept exactly when it is no directory,
   * `FileEntriesSingle`).
   */
  lemma {:induction false} FileEntriesAppend(a: seq<ZipEntry>, b: seq<ZipEntry>)
    ensures FileEntries(a + b) == FileEntries(a) + FileEntries(b)
  {
    if b == [] {
      assert a + b == a;
    } else {
      var init := b[..|b| - 1];
      var last := b[|b| - 1];
      var keep := if last.dir then [] else [last];
      FileEntriesAppend(a, init);
      assert (a + b)[..|a + b| - 1] == a + init;
      calc {
        FileEntries(a + b);
        FileEntries(a + init) + keep;
        FileEntries(a) + FileEntries(init) + keep;
        FileEntries(a) + (FileEntries(init) + keep);
        FileEntries(a) + FileEntries(b);
      }
    }
  }

  /** One member is kept exactly when it is no directory. */
  lemma FileEntriesSingle(x: ZipEntry)
    ensures FileEntries([x]) == (if x.dir then [] else [x])
  {
    assert [x][..0] == [];
  }

  // ----- the two scaling rules -----

  /** An archive where the two rules cannot differ: no size is known, or every size is positive. */
  predicate Uniform(files: seq<ZipEntry>) {
    TotalSize(files) == 0 || forall i :: 0 <= i < |files| ==> SizeOf(files[i]) > 0
  }

  lemma {:induction false} DoneBytesAgree(files: seq<ZipEntry>, i: nat)
    requires i <= |files| && Uniform(files)
    ensures DoneBytes(AsWritten, files, i) == DoneBytes(Corrected, files, i)
  {
    if i > 0 {
      DoneBytesAgree(files, i - 1);
    }
  }

  lemma {:induction false} UpdatesAgree(files: seq<ZipEntry>, i: nat, k: nat)
    requires i < |files| && k <= |files[i].updates| && Uniform(files)
    ensures UpdatesUpTo(AsWritten, files, i, k) == UpdatesUpTo(Corrected, files, i, k)
  {
    if k > 0 {
      UpdatesAgree(files, i, k - 1);
      DoneBytesAgree(files, i);
    }
  }

  /** On a uniform archive the rule as written and the corrected rule post the very same records. */
  lemma {:induction false} RulesAgreeWhenUniform(files: seq<ZipEntry>, k: nat)
    requires k <= |files| && Uniform(files)
    ensures PassRecords(AsWritten, files, k) == PassRecords(Corrected, files, k)
  {
    if k > 0 {
      RulesAgreeWhenUniform(files, k - 1);
      UpdatesAgree(files, k - 1, |files[k - 1].updates|);
      DoneBytesAgree(files, k);
    }
  }

  /**
   * The rule as written (`hasBytes = totalUnc > 0 && thisSize > 0`) sends progress backwards
   * on an archive mixing a sized and an empty entry: the first entry closes at 5000 bytes,
   * the second then starts at the index-scaled 500 and closes at 1000.
   */
  lemma AsWrittenClosingRegresses()
    ensures var files := [ZipEntry("a", false, Some(5000), [], Inflated([])),
                          ZipEntry("b", false, Some(0), [], Inflated([]))];
      && ClosingLoaded(AsWritten, files, 0) == 5000
      && ClosingLoaded(AsWritten, files, 1) == 1000
      && ClosingLoaded(Corrected, files, 0) == 5000
      && ClosingLoaded(Corrected, files, 1) == 5000
      && EntryStart(AsWritten, files, 1) == 500
      && Opening(files, 1) == 5000
  {
    var files := [ZipEntry("a", false, Some(5000), [], Inflated([])),
                  ZipEntry("b", false, Some(0), [], Inflated([]))];
    assert files[..1] == [files[0]];
    assert SizeSum(files, 1) == 5000;
    assert TotalSize(files) == 5000;
    assert DoneBytes(AsWritten, files, 1) == 5000;
    assert IndexScaled(2.0, 2) == 1000.0;
    assert IndexScaled(1.0, 2) == 500.0;
  }

  /**
   * On the same archive the entry loop as written posts 5000 and then 1000: its records are
   * not rising, while the corrected loop's are.
   */
  lemma AsWrittenLoopRegresses()
    ensures var files := [ZipEntry("a", false, Some(5000), [], Inflated([])),
                          ZipEntry("b", false, Some(0), [], Inflated([]))];
      && FirstCorrupt(files) < 0
      && |LoopRecords(AsWritten, files)| == 2
      && LoopRecords(AsWritten, files)[0].loadedBytes == 5000
      && LoopRecords(AsWritten, files)[1].loadedBytes == 1000
      && !Rising(LoopRecords(AsWritten, files))
      && Rising(LoopRecords(Corrected, files))
  {
    var files := [ZipEntry("a", false, Some(5000), [], Inflated([])),
                  ZipEntry("b", false, Some(0), [], Inflated([]))];
    AsWrittenClosingRegresses();
    assert CorruptBefore(files, 1) < 0;
    assert FirstCorrupt(files) < 0;
    assert UpdateRecords(AsWritten, files, 0) == [] && UpdateRecords(AsWritten, files, 1) == [];
    var recs := PassRecords(AsWritten, files, 2);
    assert recs == [ClosingRecord(AsWritten, files, 0)] + [ClosingRecord(AsWritten, files, 1)];
    assert recs[0].loadedBytes > recs[1].loadedBytes;
    LoopRecordsRise(files);
  }

  /** On a uniform archive the two rules give the same entry loop and the same pass records. */
  lemma LoopRecordsAgreeWhenUniform(files: seq<ZipEntry>)
    requires Uniform(files)
    ensures LoopRecords(AsWritten, files) == LoopRecords(Corrected, files)
    ensures PassEvents(AsWritten, files) == PassEvents(Corrected, files)
  {
    var f := FirstCorrupt(files);
    if f < 0 {
      RulesAgreeWhenUniform(files, |files|);
    } else {
      RulesAgreeWhenUniform(files, f);
      UpdatesAgree(files, f, |files[f].updates|);
    }
  }
}
