/** Shared value types: bytes, optional values and the failures the sync path can raise. */
module Common {

  /** One octet of a Uint8Array. */
  newtype byte = x: int | 0 <= x < 256

  type Bytes = seq<byte>

  /** A JavaScript value that may be `null`. */
  datatype Option<+T> = None | Some(value: T)

  /** The exceptions that abort a synchronisation attempt. */
  datatype Failure =
    | Unreachable(url: string, message: string)   // `fetch` itself rejected
    | HttpStatus(url: string, status: int)        // a response whose status is not ok
    | ReadFailed(url: string, message: string)    // reading the body failed
    | ArchiveError(message: string)               // the archive could not be read or inflated

  datatype Result<+T> = Ok(value: T) | Err(failure: Failure)

  /** `Response.ok`: the status is in the range 200-299. */
  predicate StatusOk(status: int) {
    200 <= status <= 299
  }

  /** Sum of the lengths of the first `n` byte buffers of a list. */
  function LengthUpTo(chunks: seq<Bytes>, n: nat): nat
    requires n <= |chunks|
  {
    if n == 0 then 0 else LengthUpTo(chunks, n - 1) + |chunks[n - 1]|
  }

  /** Sum of the lengths of a list of byte buffers. */
  function TotalLength(chunks: seq<Bytes>): nat {
    LengthUpTo(chunks, |chunks|)
  }

  /** The first `n` byte buffers of a list, one after another. */
  function FlattenUpTo(chunks: seq<Bytes>, n: nat): (r: Bytes)
    requires n <= |chunks|
    ensures |r| == LengthUpTo(chunks, n)
  {
    if n == 0 then [] else FlattenUpTo(chunks, n - 1) + chunks[n - 1]
  }

  /** The in-order concatenation of a list of byte buffers. */
  function Flatten(chunks: seq<Bytes>): (r: Bytes)
    ensures |r| == TotalLength(chunks)
  {
    FlattenUpTo(chunks, |chunks|)
  }
}
