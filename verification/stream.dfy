/**
 * The constructor and the interval splitter of stream.go.
 *
 * `FromSlice` picks the stream kind from the requested concurrency; both kinds start with
 * no operators. `partition` cuts `[0, n]` into bounds exactly as `subIntervals` of
 * terminal_operator.go does.
 */
module Streams {
  import opened Wrappers
  import Op = Operator
  import opened Lifecycle
  import Terminal

  /** A sequential stream, or a concurrent one that records its concurrency. */
  datatype Kind = Sequential | Concurrent(concurrency: int)

  /** A stream built by FromSlice: its kind, what its supplier returns, and its operators. */
  datatype SliceStream<!T> = SliceStream(kind: Kind, supplier: seq<T>, ops: seq<Op.IntermediateOperator<T>>)

  /**
   * `FromSlice` (stream.go:38-54): a concurrency below 1 is an IllegalConfig; exactly 1
   * gives a sequential stream; anything larger a concurrent stream with that concurrency.
   */
  function FromSlice<T>(supplier: seq<T>, concurrency: int): (r: Result<SliceStream<T>, StreamError>)
    ensures r.Err? <==> concurrency < 1
    ensures r.Err? ==> r.error == IllegalConfig
    ensures r.Ok? ==> r.value.ops == [] && r.value.supplier == supplier
    ensures r.Ok? ==> (r.value.kind == Sequential <==> concurrency == 1)
    ensures r.Ok? && r.value.kind.Concurrent? ==> r.value.kind.concurrency == concurrency >= 2
  {
    if concurrency < 1 then Err(IllegalConfig)
    else if concurrency == 1 then Ok(SliceStream(Sequential, supplier, []))
    else Ok(SliceStream(Concurrent(concurrency), supplier, []))
  }

  /**
   * `partition` (stream.go:57-70): the bounds `0, s, 2s, ..., (k-1)s, n` with `s = n / k`
   * in Go's truncating division. `None` is the division by zero Go panics with.
   */
  method Partition(n: int, k: int) returns (r: Option<seq<int>>)
    ensures r == Terminal.SubIntervals(n, k)
  {
    if n == 0 {
      return Some([]);
    }
    if k == 0 {
      return None;
    }
    var size := Terminal.GoDiv(n, k);
    var intervals: seq<int> := [];
    var i := 0;
    while i < k
      invariant 0 <= i && (k >= 0 ==> i <= k) && (k < 0 ==> i == 0)
      invariant intervals == seq(i, j => j * size)
    {
      intervals := intervals + [i * size];
      i := i + 1;
    }
    r := Some(intervals + [n]);
    if k > 0 {
      var expected := Terminal.SubIntervals(n, k).value;
      assert |expected| == |r.value| && forall j :: 0 <= j < |expected| ==> expected[j] == r.value[j];
    } else {
      assert r.value == [n];
    }
  }
}
