/** `fetchArrayBufferWithProgress`: stream a resource into memory while reporting byte progress. */
module Download {
  import opened Common
  import opened Progress

  /** How reading a streamed body ends: the reader says `done`, or a read rejects. */
  datatype StreamEnd = Finished | Broken(message: string)

  /**
   * The body of a response. `Buffered`/`BufferFailed`: no incremental access
   * (`res.body` is null) and `arrayBuffer()` resolves or rejects. `Streamed`: the
   * values returned by successive `reader.read()` calls (a `None` is a read that
   * returned no value), then how the stream ended.
   */
  datatype Body =
    | Buffered(data: Bytes)
    | BufferFailed(message: string)
    | Streamed(values: seq<Option<Bytes>>, end: StreamEnd)

  /** What `fetch` resolved to, with the parsed `content-length` header. */
  datatype Response =
    | NoResponse(message: string)
    | Response(status: int, contentLength: Option<nat>, body: Body)

  /** `Number(content-length) || 0`: a missing or unreadable header values as 0, "unknown". */
  function DeclaredTotal(contentLength: Option<nat>): nat {
    match contentLength
    case Some(n) => n
    case None => 0
  }

  /** The chunks the loop keeps after `n` reads: every read that returned a value, in order. */
  function PresentUpTo(values: seq<Option<Bytes>>, n: nat): (cs: seq<Bytes>)
    requires n <= |values|
    ensures |cs| <= n
  {
    if n == 0 then []
    else PresentUpTo(values, n - 1) + (if values[n - 1].Some? then [values[n - 1].value] else [])
  }

  /** The chunks the loop keeps over the whole stream. */
  function Present(values: seq<Option<Bytes>>): (cs: seq<Bytes>)
    ensures |cs| <= |values|
  {
    PresentUpTo(values, |values|)
  }

  /** The `progress` records the loop posts in its first `n` reads, one per read that returned a value. */
  function StepsUpTo(url: string, total: nat, values: seq<Option<Bytes>>, n: nat): seq<Event>
    requires n <= |values|
  {
    if n == 0 then []
    else
      StepsUpTo(url, total, values, n - 1)
        + (if values[n - 1].Some? then [Step(url, TotalLength(PresentUpTo(values, n)), total)] else [])
  }

  /** The `progress` records of the whole stream. */
  function Steps(url: string, total: nat, values: seq<Option<Bytes>>): seq<Event> {
    StepsUpTo(url, total, values, |values|)
  }

  /** Every record one call posts, in order. */
  function FetchEvents(url: string, res: Response): seq<Event> {
    match res
    case NoResponse(_) => []
    case Response(status, contentLength, body) =>
      if !StatusOk(status) then []
      else
        var total := DeclaredTotal(contentLength);
        match body
        case Buffered(data) => [Start(url, 0, total), Step(url, |data|, total), Done(url, |data|, total)]
        case BufferFailed(_) => [Start(url, 0, total)]
        case Streamed(values, end) =>
          var head := [Start(url, 0, total)] + Steps(url, total, values);
          match end
          case Finished => head + [Done(url, TotalLength(Present(values)), total)]
          case Broken(message) => head + [Error(url, message)]
  }

  /** What one call returns or throws. */
  function FetchOutcome(url: string, res: Response): Result<Bytes> {
    match res
    case NoResponse(message) => Err(Unreachable(url, message))
    case Response(status, _, body) =>
      if !StatusOk(status) then Err(HttpStatus(url, status))
      else
        match body
        case Buffered(data) => Ok(data)
        case BufferFailed(message) => Err(ReadFailed(url, message))
        case Streamed(values, end) =>
          match end
          case Finished => Ok(Flatten(Present(values)))
          case Broken(message) => Err(ReadFailed(url, message))
  }

  /** Copies the chunks one after another into a buffer of the summed length. */
  method Concatenate(chunks: seq<Bytes>) returns (r: Bytes)
    ensures r == Flatten(chunks)
  {
    var result := new byte[TotalLength(chunks)];
    var offset := 0;
    for c := 0 to |chunks|
      invariant offset == LengthUpTo(chunks, c) <= result.Length
      invariant result[..offset] == FlattenUpTo(chunks, c)
    {
      var chunk := chunks[c];
      LengthMono(chunks, c + 1, |chunks|);
      ghost var before := result[..offset];
      forall j | 0 <= j < |chunk| {
        result[offset + j] := chunk[j];
      }
      assert result[..offset + |chunk|] == before + chunk;
      offset := offset + |chunk|;
    }
    r := result[..];
  }

  method FetchWithProgress(bus: Bus, url: string, res: Response) returns (r: Result<Bytes>)
    modifies bus
    ensures bus.log == old(bus.log) + FetchEvents(url, res)
    ensures r == FetchOutcome(url, res)
  {
    if res.NoResponse? {
      return Err(Unreachable(url, res.message));
    }
    if !StatusOk(res.status) {
      return Err(HttpStatus(url, res.status));
    }
    var total := DeclaredTotal(res.contentLength);
    match res.body
    case Buffered(data) =>
      bus.Report(Start(url, 0, total));
      bus.Report(Step(url, |data|, total));
      bus.Report(Done(url, |data|, total));
      return Ok(data);
    case BufferFailed(message) =>
      bus.Report(Start(url, 0, total));
      return Err(ReadFailed(url, message));
    case Streamed(values, end) =>
      bus.Report(Start(url, 0, total));
      var chunks: seq<Bytes> := [];
      var loaded: nat := 0;
      var k := 0;
      while k < |values|
        invariant 0 <= k <= |values|
        invariant chunks == PresentUpTo(values, k)
        invariant loaded == TotalLength(chunks)
        invariant bus.log == old(bus.log) + [Start(url, 0, total)] + StepsUpTo(url, total, values, k)
      {
        var value := values[k];
        if value.Some? {
          TotalLengthSnoc(chunks, value.value);
          chunks := chunks + [value.value];
          loaded := loaded + |value.value|;
          bus.Report(Step(url, loaded, total));
        }
        k := k + 1;
      }
      if end.Broken? {
        bus.Report(Error(url, end.message));
        return Err(ReadFailed(url, end.message));
      }
      var result := Concatenate(chunks);
      bus.Report(Done(url, loaded, total));
      return Ok(result);
  }

  // ----- properties of the record sequence -----

  /** The `loaded` counter never goes down across the byte-level records. */
  ghost predicate LoadedNonDecreasing(es: seq<Event>) {
    forall i, j :: 0 <= i < j < |es| && es[i].IsByteEvent() && es[j].IsByteEvent() ==>
      es[i].loaded <= es[j].loaded
  }

  /** Counting further into the list never lowers the running length. */
  lemma {:induction false} LengthMono(cs: seq<Bytes>, i: nat, j: nat)
    requires i <= j <= |cs|
    ensures LengthUpTo(cs, i) <= LengthUpTo(cs, j)
    decreases j - i
  {
    if i < j {
      LengthMono(cs, i, j - 1);
    }
  }

  /** The running length over a prefix ignores whatever follows it. */
  lemma {:induction false} LengthPrefix(a: seq<Bytes>, b: seq<Bytes>, k: nat)
    requires k <= |a|
    ensures LengthUpTo(a + b, k) == LengthUpTo(a, k)
  {
    if k > 0 {
      LengthPrefix(a, b, k - 1);
      assert (a + b)[k - 1] == a[k - 1];
    }
  }

  /** Keeping one more chunk adds its length to the total. */
  lemma TotalLengthSnoc(cs: seq<Bytes>, v: Bytes)
    ensures TotalLength(cs + [v]) == TotalLength(cs) + |v|
  {
    LengthPrefix(cs, [v], |cs|);
  }

  lemma {:induction false} StepsLength(url: string, total: nat, values: seq<Option<Bytes>>, n: nat)
    requires n <= |values|
    ensures |StepsUpTo(url, total, values, n)| == |PresentUpTo(values, n)|
  {
    if n > 0 {
      StepsLength(url, total, values, n - 1);
    }
  }

  /** The k-th `progress` record (from 0) carries the bytes of the first k+1 kept chunks. */
  lemma {:induction false} StepAt(url: string, total: nat, values: seq<Option<Bytes>>, n: nat, k: nat)
    requires n <= |values| && k < |PresentUpTo(values, n)|
    ensures |StepsUpTo(url, total, values, n)| == |PresentUpTo(values, n)|
    ensures StepsUpTo(url, total, values, n)[k] == Step(url, LengthUpTo(PresentUpTo(values, n), k + 1), total)
  {
    StepsLength(url, total, values, n);
    StepsLength(url, total, values, n - 1);
    var ps := PresentUpTo(values, n - 1);
    var extra := if values[n - 1].Some? then [values[n - 1].value] else [];
    assert PresentUpTo(values, n) == ps + extra;
    if k < |ps| {
      StepAt(url, total, values, n - 1, k);
      LengthPrefix(ps, extra, k + 1);
    }
  }

  /**
   * Success on a streamed body: `start` with 0, one `progress` per value read
   * carrying the running total, then `done` with the sum of the chunk lengths,
   * which is the length of the returned buffer, itself the chunks in order.
   */
  lemma StreamedSuccess(url: string, status: int, contentLength: Option<nat>, values: seq<Option<Bytes>>)
    requires StatusOk(status)
    ensures var res := Response(status, contentLength, Streamed(values, Finished));
      var es := FetchEvents(url, res);
      var total := DeclaredTotal(contentLength);
      var kept := Present(values);
      && |es| == |kept| + 2
      && es[0] == Start(url, 0, total)
      && (forall k :: 1 <= k <= |kept| ==> es[k] == Step(url, LengthUpTo(kept, k), total))
      && es[|es| - 1] == Done(url, TotalLength(kept), total)
      && (forall e :: e in es ==> !e.Error?)
      && LoadedNonDecreasing(es)
      && FetchOutcome(url, res) == Ok(Flatten(kept))
      && |FetchOutcome(url, res).value| == es[|es| - 1].loaded
  {
    var total := DeclaredTotal(contentLength);
    var kept := Present(values);
    var steps := Steps(url, total, values);
    StepsShape(url, total, values);
    assert FetchEvents(url, Response(status, contentLength, Streamed(values, Finished)))
        == [Start(url, 0, total)] + steps + [Done(url, TotalLength(kept), total)];
    FramedSteps(url, total, kept, steps);
  }

  /** The `progress` records of a stream framed by `start` and `done`. */
  lemma FramedSteps(url: string, total: nat, kept: seq<Bytes>, steps: seq<Event>)
    requires |steps| == |kept|
    requires forall k :: 0 <= k < |kept| ==> steps[k] == Step(url, LengthUpTo(kept, k + 1), total)
    ensures var es := [Start(url, 0, total)] + steps + [Done(url, TotalLength(kept), total)];
      && |es| == |kept| + 2
      && (forall k :: 1 <= k <= |kept| ==> es[k] == Step(url, LengthUpTo(kept, k), total))
      && (forall e :: e in es ==> !e.Error?)
      && LoadedNonDecreasing(es)
  {
    var es := [Start(url, 0, total)] + steps + [Done(url, TotalLength(kept), total)];
    assert forall k :: 1 <= k <= |kept| ==> es[k] == steps[k - 1];
    RunningTotalsRise(url, total, kept, es);
    assert forall e :: e in es ==> !e.Error? by {
      forall e | e in es ensures !e.Error? {
        var k :| 0 <= k < |es| && es[k] == e;
      }
    }
  }

  /** Start at 0, the running lengths, then the full length: the `loaded` values never go down. */
  lemma RunningTotalsRise(url: string, total: nat, kept: seq<Bytes>, es: seq<Event>)
    requires |es| == |kept| + 2
    requires es[0] == Start(url, 0, total)
    requires forall k :: 1 <= k <= |kept| ==> es[k] == Step(url, LengthUpTo(kept, k), total)
    requires es[|es| - 1] == Done(url, TotalLength(kept), total)
    ensures LoadedNonDecreasing(es)
  {
    forall i, j | 0 <= i < j < |es| && es[i].IsByteEvent() && es[j].IsByteEvent()
      ensures es[i].loaded <= es[j].loaded
    {
      if i > 0 {
        if j < |es| - 1 {
          LengthMono(kept, i, j);
        } else {
          LengthMono(kept, i, |kept|);
        }
      }
    }
  }

  /** The whole stream's `progress` records, one per kept chunk, each with the running length. */
  lemma StepsShape(url: string, total: nat, values: seq<Option<Bytes>>)
    ensures |Steps(url, total, values)| == |Present(values)|
    ensures forall k :: 0 <= k < |Present(values)| ==>
      Steps(url, total, values)[k] == Step(url, LengthUpTo(Present(values), k + 1), total)
  {
    StepsLength(url, total, values, |values|);
    forall k | 0 <= k < |Present(values)|
      ensures Steps(url, total, values)[k] == Step(url, LengthUpTo(Present(values), k + 1), total)
    {
      StepAt(url, total, values, |values|, k);
    }
  }

  /**
   * A read that rejects: the same `start` and running-total `progress` records as a
   * stream that ends, then exactly one `error` record, no `done`, and the failure propagates.
   */
  lemma StreamedFailure(url: string, status: int, contentLength: Option<nat>,
                        values: seq<Option<Bytes>>, message: string)
    requires StatusOk(status)
    ensures var res := Response(status, contentLength, Streamed(values, Broken(message)));
      var es := FetchEvents(url, res);
      var total := DeclaredTotal(contentLength);
      var kept := Present(values);
      && |es| == |kept| + 2
      && es[|es| - 1] == Error(url, message)
      && es[..|es| - 1] == [Start(url, 0, total)] + Steps(url, total, values)
      && es[0] == Start(url, 0, total)
      && (forall k :: 1 <= k <= |kept| ==> es[k] == Step(url, LengthUpTo(kept, k), total))
      && LoadedNonDecreasing(es[..|es| - 1])
      && (forall k :: 0 <= k < |es| - 1 ==> es[k].IsByteEvent() && !es[k].Done?)
      && (forall e :: e in es ==> !e.Done?)
      && FetchOutcome(url, res) == Err(ReadFailed(url, message))
  {
    var total := DeclaredTotal(contentLength);
    var kept := Present(values);
    var steps := Steps(url, total, values);
    StepsShape(url, total, values);
    var pre := [Start(url, 0, total)] + steps;
    OpenSteps(url, total, kept, steps);
    var es := pre + [Error(url, message)];
    assert es == FetchEvents(url, Response(status, contentLength, Streamed(values, Broken(message))));
    assert es[..|es| - 1] == pre;
    assert forall e :: e in es ==> !e.Done? by {
      forall e | e in es ensures !e.Done? {
        var k :| 0 <= k < |es| && es[k] == e;
        if k < |pre| {
          assert e == pre[k];
        }
      }
    }
  }

  /** `start` at 0 followed by the running-total `progress` records of the kept chunks. */
  lemma OpenSteps(url: string, total: nat, kept: seq<Bytes>, steps: seq<Event>)
    requires |steps| == |kept|
    requires forall k :: 0 <= k < |kept| ==> steps[k] == Step(url, LengthUpTo(kept, k + 1), total)
    ensures var pre := [Start(url, 0, total)] + steps;
      && |pre| == |kept| + 1
      && (forall k :: 1 <= k <= |kept| ==> pre[k] == Step(url, LengthUpTo(kept, k), total))
      && (forall k :: 0 <= k < |pre| ==> pre[k].IsByteEvent() && !pre[k].Done?)
      && LoadedNonDecreasing(pre)
  {
    var pre := [Start(url, 0, total)] + steps;
    assert forall k :: 1 <= k <= |kept| ==> pre[k] == steps[k - 1];
    forall i, j | 0 <= i < j < |pre| && pre[i].IsByteEvent() && pre[j].IsByteEvent()
      ensures pre[i].loaded <= pre[j].loaded
    {
      if i > 0 {
        LengthMono(kept, i, j);
      }
    }
  }

  /** A status outside 200-299, or a request that never got a response, throws before any record. */
  lemma FailsBeforeAnyRecord(url: string, res: Response)
    requires res.NoResponse? || !StatusOk(res.status)
    ensures FetchEvents(url, res) == []
    ensures FetchOutcome(url, res).Err?
    ensures res.Response? ==> FetchOutcome(url, res) == Err(HttpStatus(url, res.status))
  {
  }

  /** Without incremental access: `start`, one `progress` and `done`, all with the whole length. */
  lemma BufferedBody(url: string, status: int, contentLength: Option<nat>, data: Bytes)
    requires StatusOk(status)
    ensures var res := Response(status, contentLength, Buffered(data));
      var total := DeclaredTotal(contentLength);
      && FetchEvents(url, res) == [Start(url, 0, total), Step(url, |data|, total), Done(url, |data|, total)]
      && LoadedNonDecreasing(FetchEvents(url, res))
      && FetchOutcome(url, res) == Ok(data)
  {
  }

  /**
   * When `arrayBuffer()` rejects, only `start` has been posted: no `error` record follows
   * (unlike a broken stream), and the failure propagates.
   */
  lemma BufferedFailure(url: string, status: int, contentLength: Option<nat>, message: string)
    requires StatusOk(status)
    ensures var res := Response(status, contentLength, BufferFailed(message));
      && FetchEvents(url, res) == [Start(url, 0, DeclaredTotal(contentLength))]
      && (forall e :: e in FetchEvents(url, res) ==> !e.Error? && !e.Done?)
      && FetchOutcome(url, res) == Err(ReadFailed(url, message))
  {
  }
}
