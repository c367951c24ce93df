/** The progress protocol and the channel the pipeline reports on. */
module Progress {

  /** One record posted on the progress channel. */
  datatype Event =
    | Start(url: string, loaded: nat, total: nat)
    | Step(url: string, loaded: nat, total: nat)        // type 'progress'
    | Done(url: string, loaded: nat, total: nat)
    | Error(url: string, error: string)
    | UnzipStart(totalFiles: nat, totalBytes: nat)
    | UnzipProgress(file: string, fileIndex: nat, filePercent: real, loadedBytes: int, totalBytes: nat)
    | UnzipDone(totalFiles: nat, totalBytes: nat)
  {
    /** The byte-level records of a download carry a `loaded` counter. */
    predicate IsByteEvent() {
      Start? || Step? || Done?
    }
  }

  /**
   * `reportProgress`: a post on the channel. Delivery failures are swallowed by the
   * source, so a report never fails; the model keeps every record in `log`.
   */
  class Bus {
    var log: seq<Event>

    constructor ()
      ensures log == []
    {
      log := [];
    }

    method Report(e: Event)
      modifies this
      ensures log == old(log) + [e]
    {
      log := log + [e];
    }

    method ReportAll(es: seq<Event>)
      modifies this
      ensures log == old(log) + es
    {
      log := log + es;
    }
  }

  /** Regrouping a log after a run of records is appended to it. */
  lemma Regroup(a: seq<Event>, b: seq<Event>, c: seq<Event>)
    ensures a + b + c == a + (b + c)
  {
  }
}
