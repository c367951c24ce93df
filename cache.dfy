/**
 * The IndexedDB layer: one database with a FILES space (path to bytes) and a META
 * space (key to scalar). Requests and transactions are abstracted to their effect
 * on the two maps.
 */
module Cache {
  import opened Common

  /** The scalars kept in META: the version tag and the byte count of the generation. */
  datatype MetaValue = Text(text: string) | Number(n: nat)

  /** One staged file: a path relative to the bundle root and its bytes. */
  datatype Entry = Entry(path: string, data: Bytes)

  const VersionKey: string := "valve.version"
  const TotalBytesKey: string := "valve.totalBytes"

  /** The FILES map after `os.put(data, path)` for each entry in order. */
  function Upserted(m: map<string, Bytes>, entries: seq<Entry>): map<string, Bytes> {
    if entries == [] then m
    else
      var last := entries[|entries| - 1];
      Upserted(m, entries[..|entries| - 1])[last.path := last.data]
  }

  /** Sum of the entries' byte lengths. */
  function EntryBytes(entries: seq<Entry>): nat {
    if entries == [] then 0
    else EntryBytes(entries[..|entries| - 1]) + |entries[|entries| - 1].data|
  }

  /** Index of the last entry stored under `key`, or -1. */
  function LastWith(entries: seq<Entry>, key: string): (k: int)
    ensures -1 <= k < |entries|
    ensures k >= 0 ==> entries[k].path == key
    ensures forall j :: k < j < |entries| ==> entries[j].path != key
  {
    if entries == [] then -1
    else if entries[|entries| - 1].path == key then |entries| - 1
    else LastWith(entries[..|entries| - 1], key)
  }

  class Store {
    var files: map<string, Bytes>
    var meta: map<string, MetaValue>

    /** A freshly created database: both spaces empty. */
    constructor ()
      ensures files == map[] && meta == map[]
    {
      files := map[];
      meta := map[];
    }

    /** `idbGet(db, STORE_META, key)`: the stored value, or `null` when the key is absent. */
    function GetMeta(key: string): (v: Option<MetaValue>)
      reads this
      ensures v.None? <==> key !in meta
      ensures v.Some? ==> v.value == meta[key]
    {
      if key in meta then Some(meta[key]) else None
    }

    /** `idbSet(db, STORE_META, key, value)`: an upsert of one META key. */
    method SetMeta(key: string, value: MetaValue)
      modifies this
      ensures meta == old(meta)[key := value]
      ensures files == old(files)
    {
      meta := meta[key := value];
    }

    /** `idbClear(db, STORE_FILES)`. */
    method ClearFiles()
      modifies this
      ensures files == map[]
      ensures meta == old(meta)
    {
      files := map[];
    }

    /** `idbPutMany`: puts every entry in order and resolves with the bytes written. */
    method PutMany(entries: seq<Entry>) returns (totalBytes: nat)
      modifies this
      ensures files == Upserted(old(files), entries)
      ensures totalBytes == EntryBytes(entries)
      ensures meta == old(meta)
    {
      totalBytes := 0;
      var i := 0;
      while i < |entries|
        invariant 0 <= i <= |entries|
        invariant files == Upserted(old(files), entries[..i])
        invariant totalBytes == EntryBytes(entries[..i])
        invariant meta == old(meta)
      {
        var e := entries[i];
        assert entries[..i + 1][..i] == entries[..i];
        i := i + 1;
        totalBytes := totalBytes + |e.data|;
        files := files[e.path := e.data];
      }
      assert entries[..i] == entries;
    }
  }

  /**
   * After `putMany`, a key holds the data of the LAST entry with that path; keys no
   * entry names keep their old value; nothing else appears.
   */
  lemma {:induction false} UpsertedLookup(m: map<string, Bytes>, entries: seq<Entry>, key: string)
    ensures key in Upserted(m, entries) <==> key in m || LastWith(entries, key) >= 0
    ensures LastWith(entries, key) >= 0 ==>
      Upserted(m, entries)[key] == entries[LastWith(entries, key)].data
    ensures LastWith(entries, key) < 0 && key in m ==> Upserted(m, entries)[key] == m[key]
  {
    if entries != [] {
      UpsertedLookup(m, entries[..|entries| - 1], key);
    }
  }

  /** Committing onto an empty FILES space yields exactly the staged paths. */
  lemma GenerationKeys(entries: seq<Entry>)
    ensures Upserted(map[], entries).Keys == set e | e in entries :: e.path
  {
    forall key ensures key in Upserted(map[], entries) <==> key in (set e | e in entries :: e.path) {
      UpsertedLookup(map[], entries, key);
      if key in (set e | e in entries :: e.path) {
        var e :| e in entries && e.path == key;
        var i :| 0 <= i < |entries| && entries[i] == e;
        assert LastWith(entries, key) >= i;
      }
    }
  }

  /** Byte counts add up over concatenated batches. */
  lemma {:induction false} EntryBytesAppend(a: seq<Entry>, b: seq<Entry>)
    ensures EntryBytes(a + b) == EntryBytes(a) + EntryBytes(b)
    decreases |b|
  {
    if b != [] {
      var b' := b[..|b| - 1];
      assert (a + b)[..|a + b| - 1] == a + b';
      assert (a + b)[|a + b| - 1] == b[|b| - 1];
      EntryBytesAppend(a, b');
    } else {
      assert a + b == a;
    }
  }
}
