/**
 * Error codes (error.go:8-14) and the open / closed / terminated life cycle that the
 * sequential, partitioned and grouped streams share.
 *
 * A stream is open until something is derived from it (it is then closed) or a terminal
 * operation runs on it (it is then terminated, and closed as well). The Go streams panic
 * with a `streamError`; here the panic is the `Err` of a `Result`.
 */
module Lifecycle {
  import opened Wrappers

  /** The five error kinds of error.go:8-14; the panics of package `sources` are `Sources.SourceError`. */
  datatype StreamError =
    | StreamTerminated
    | IllegalArgument
    | StreamClosed
    | IllegalConfig
    | IllegalStreamMapping
  {
    /** The integer code the Go error carries (error.go:8-14). */
    function Code(): (c: int)
      ensures 1 <= c <= 5
      ensures this == StreamTerminated <==> c == 1
      ensures this == IllegalArgument <==> c == 2
      ensures this == StreamClosed <==> c == 3
      ensures this == IllegalConfig <==> c == 4
    {
      match this
      case StreamTerminated => 1
      case IllegalArgument => 2
      case StreamClosed => 3
      case IllegalConfig => 4
      case IllegalStreamMapping => 5
    }
  }

  /** The two flags every stream carries. */
  datatype Status = Status(terminated: bool, closed: bool) {
    /** The states a stream can reach: a terminated stream is always closed. */
    predicate Reachable() {
      terminated ==> closed
    }
  }

  /** A freshly built stream. */
  const Open := Status(false, false)

  /**
   * `valid` (sequential_stream.go:31-40, and the same code at partitioned_stream.go:76-85
   * and grouped_stream.go:78-87): a terminated stream reports StreamTerminated even though
   * it is also closed; a stream that is only closed reports StreamClosed.
   */
  function Check(s: Status): (r: Result<(), StreamError>)
    ensures r.Ok? <==> !s.terminated && !s.closed
    ensures r == Err(StreamTerminated) <==> s.terminated
    ensures r == Err(StreamClosed) <==> s.closed && !s.terminated
  {
    if s.terminated then Err(StreamTerminated)
    else if s.closed then Err(StreamClosed)
    else Ok(())
  }

  /** `close` (sequential_stream.go:26-28): a stream something was derived from. */
  function Close(s: Status): (r: Status)
    ensures r.closed && r.terminated == s.terminated
    ensures s.Reachable() ==> r.Reachable()
  {
    s.(closed := true)
  }

  /** `terminate` (sequential_stream.go:20-23): a terminal operation has run. */
  function Terminate(s: Status): (r: Status)
    ensures r.closed && r.terminated && r.Reachable()
  {
    Status(true, true)
  }

  /**
   * The outcome of a terminal operation of a partitioned or grouped stream: computed by
   * the sequential helpers, or handed to the parallel helpers with the stream's
   * `maxRoutines` when the stream is parallel.
   */
  datatype Evaluation<R> = Computed(value: R) | Delegated(maxRoutines: int)
}
