/** The response body as the downloader sees it through io.ReadFull: each
    call either fills the chunk buffer, or ends the stream (after some bytes
    or none), or fails. The body is the finite list of what its successive
    reads return; once that list is used up, every read reports io.EOF. */
module Reader {

  /** What one io.ReadFull call into the chunk buffer reports. */
  datatype ReadResult =
    | Full               // the buffer was filled, err == nil
    | Partial(got: nat)  // the stream ended after got bytes: io.ErrUnexpectedEOF
    | Eof                // the stream ended before any byte: io.EOF
    | Failed(msg: string) // any other read error

  /** The result of the i-th read of a body whose reads return `results`. */
  function ResultAt(results: seq<ReadResult>, i: nat): ReadResult
  {
    if i < |results| then results[i] else Eof
  }

  /** The number of bytes one read puts into a buffer of `chunk` bytes. */
  function BytesOf(res: ReadResult, chunk: nat): nat
  {
    match res
    case Full => chunk
    case Partial(got) => got
    case Eof => 0
    case Failed(_) => 0
  }

  /** A body that is consistent with a buffer of `chunk` bytes: a short read
      delivers at least one byte and fewer than a full chunk. */
  predicate WellFormed(results: seq<ReadResult>, chunk: nat)
  {
    forall i :: 0 <= i < |results| && results[i].Partial? ==> 0 < results[i].got < chunk
  }

  /** The reader `d.r`: reading it advances its position by one read. */
  class Stream {
    const results: seq<ReadResult>
    var pos: nat

    constructor (results: seq<ReadResult>)
      ensures this.results == results && pos == 0
    {
      this.results := results;
      pos := 0;
    }

    /** io.ReadFull(d.r, d.buf): the next result of the body. */
    method ReadFull() returns (res: ReadResult)
      modifies this
      ensures res == ResultAt(results, old(pos))
      ensures pos == old(pos) + 1
    {
      res := ResultAt(results, pos);
      pos := pos + 1;
    }
  }
}
