/**
 * Package `sources` (sources/sources.go): a lazily materialised, single-pass slice source
 * and a partitioned source that cuts a drained source into contiguous chunks.
 *
 * The Go slice source is a pair of closures sharing `data`, `initialized` and the index
 * `i`; here that shared state is the record `SliceSource`. Its supplier callback `f` reads
 * whatever it captured, so `supply` is the value `f()` would return right now; the outside
 * world changing that captured value is `Resupply`.
 */
module Sources {
  import opened Wrappers
  import opened Seqs
  import opened Chunks

  /** The panics of package `sources`: `ErrNoNextElement`, `ErrIndexOutOfBounds`, and Go's own runtime panics. */
  datatype SourceError =
    | NoNextElement
    | IndexOutOfBounds(index: int, size: int)
    | RuntimePanic

  /** A nil slice is `None`; an empty non-nil slice is `Some([])`. */
  datatype SliceSource<T> = SliceSource(supply: Option<seq<T>>, initialized: bool, data: Option<seq<T>>, i: nat) {
    /** The states the closures can reach: nothing is read before initialisation, and the index stays within the data. */
    predicate Reachable() {
      (!initialized ==> data.None? && i == 0) &&
      (data.None? ==> i == 0) &&
      (data.Some? ==> i <= |data.value|)
    }
  }

  /** `NewSourceFromSlice(f)`: nothing is read from `f` yet. */
  function NewSourceFromSlice<T>(supply: Option<seq<T>>): (s: SliceSource<T>)
    ensures s.Reachable() && !s.initialized
  {
    SliceSource(supply, false, None, 0)
  }

  /** The value the captured supplier would now return has changed. */
  function Resupply<T>(s: SliceSource<T>, supply: Option<seq<T>>): SliceSource<T> {
    s.(supply := supply)
  }

  /** The slice the source reads from: the materialised one, or the one `f` would return on the first pull. */
  function Backing<T>(s: SliceSource<T>): Option<seq<T>> {
    if s.initialized then s.data else s.supply
  }

  /** The elements the source will still produce, in order. */
  function Remaining<T>(s: SliceSource<T>): seq<T> {
    var d := Backing(s);
    if d.None? || s.i >= |d.value| then [] else d.value[s.i..]
  }

  /** `hasNext`: materialise the data on the first call, then report whether an element is left. */
  function HasNext<T>(s: SliceSource<T>): (r: (SliceSource<T>, bool))
    ensures r.0.initialized
  {
    var s' := if s.initialized then s else s.(initialized := true, data := s.supply);
    (s', s'.data.Some? && s'.i < |s'.data.value|)
  }

  /** `next`: the element at the index, which then advances; `ErrNoNextElement` once exhausted. */
  function Next<T>(s: SliceSource<T>): (r: (SliceSource<T>, Result<T, SourceError>))
    ensures r.0.initialized
  {
    var (s', has) := HasNext(s);
    if !has then (s', Err(NoNextElement))
    else (s'.(i := s'.i + 1), Ok(s'.data.value[s'.i]))
  }

  /**
   * HasNext never advances the source: it leaves the remaining elements as they are,
   * reports whether there are any, and asking twice gives the same answer. A nil or fully
   * consumed slice has none.
   */
  lemma HasNextObserves<T>(s: SliceSource<T>)
    requires s.Reachable()
    ensures HasNext(s).0.Reachable()
    ensures Remaining(HasNext(s).0) == Remaining(s)
    ensures HasNext(s).1 <==> |Remaining(s)| > 0
    ensures HasNext(s).1 ==> Backing(s).Some? && s.i < |Backing(s).value|
    ensures HasNext(HasNext(s).0) == HasNext(s)
  {
  }

  /** Next yields the first remaining element and drops it, or fails with ErrNoNextElement when none is left. */
  lemma NextYields<T>(s: SliceSource<T>)
    requires s.Reachable()
    ensures Next(s).0.Reachable()
    ensures |Remaining(s)| > 0 ==> Next(s).1 == Ok(Remaining(s)[0]) && Remaining(Next(s).0) == Remaining(s)[1..]
    ensures |Remaining(s)| == 0 ==> Next(s).1 == Err(NoNextElement) && Remaining(Next(s).0) == []
  {
  }

  /**
   * The supplier is called at most once: after the first pull a change to what it would
   * return has no effect, while before the first pull the change is what the source yields.
   */
  lemma SupplierReadOnce<T>(s: SliceSource<T>, supply: Option<seq<T>>)
    requires s.Reachable()
    ensures s.initialized ==> Remaining(Resupply(s, supply)) == Remaining(s)
    ensures !s.initialized ==> Remaining(Resupply(s, supply)) == (if supply.None? then [] else supply.value)
  {
    if !s.initialized && supply.Some? {
      assert supply.value[0..] == supply.value;
    }
  }

  /** `collectSource`: pulls until HasNext says no, collecting in pull order everything the source had left. */
  method CollectSource<T>(s: SliceSource<T>) returns (after: SliceSource<T>, data: seq<T>)
    requires s.Reachable()
    ensures data == Remaining(s)
    ensures after.Reachable() && after.initialized && Remaining(after) == []
  {
    data := [];
    HasNextObserves(s);
    var has;
    after, has := HasNext(s).0, HasNext(s).1;
    while has
      invariant after.Reachable() && after.initialized
      invariant data + Remaining(after) == Remaining(s)
      invariant has <==> |Remaining(after)| > 0
      decreases |Remaining(after)|
    {
      NextYields(after);
      var rest := Remaining(after);
      var (a, x) := Next(after);
      assert data + rest == (data + [x.value]) + rest[1..];
      data := data + [x.value];
      after := a;
      HasNextObserves(after);
      after, has := HasNext(after).0, HasNext(after).1;
    }
    assert data + [] == data;
  }

  // ---------------------------------------------------------------------------------
  // partitionedSource
  // ---------------------------------------------------------------------------------

  /** The underlying source and the partitions the last `Partition` produced. */
  datatype PartitionedSource<T> = PartitionedSource(source: SliceSource<T>, sources: seq<SliceSource<T>>)

  function NewPartitionedSource<T>(source: SliceSource<T>): (p: PartitionedSource<T>)
    ensures p.sources == []
  {
    PartitionedSource(source, [])
  }

  /** `Len`: the number of partitions. */
  function Len<T>(p: PartitionedSource<T>): (n: nat) {
    |p.sources|
  }

  /** `At(i)`: the i-th partition; `ErrIndexOutOfBounds` for i >= Len(), Go's index panic for i < 0. */
  function At<T>(p: PartitionedSource<T>, i: int): (r: Result<SliceSource<T>, SourceError>)
    ensures r.Ok? <==> 0 <= i < Len(p)
    ensures r.Ok? ==> r.value == p.sources[i]
    ensures i >= Len(p) ==> r == Err(IndexOutOfBounds(i, Len(p)))
  {
    if i >= |p.sources| then Err(IndexOutOfBounds(i, |p.sources|))
    else if i < 0 then Err(RuntimePanic)
    else Ok(p.sources[i])
  }

  /**
   * The loop of `Partition` that cuts `data` at `0, size, 2*size, ...`: a piece reaching
   * the end takes everything left.
   */
  method CutEvery<T>(data: seq<T>, size: nat) returns (chunks: seq<seq<T>>)
    requires size >= 1
    ensures ChunkedBy(chunks, data, size)
  {
    chunks := [];
    var i := 0;
    while i < |data|
      invariant 0 <= i
      invariant i < |data| ==> Flatten(chunks) == data[..i] && forall j :: 0 <= j < |chunks| ==> |chunks[j]| == size
      invariant i >= |data| ==> ChunkedBy(chunks, data, size)
      decreases |data| - i
    {
      var piece;
      if i + size >= |data| {
        piece := data[i..];
      } else {
        piece := data[i..i + size];
      }
      FlattenAppend(chunks, [piece]);
      assert Flatten([piece]) == piece by {
        assert [piece][..0] == [];
      }
      assert data[..i] + piece == (if i + size >= |data| then data else data[..i + size]);
      chunks := chunks + [piece];
      i := i + size;
    }
    if |data| == 0 {
      assert ChunkedBy(chunks, data, size);
    }
  }

  /**
   * `Partition(n)`: drains the underlying source and cuts what it yielded into partitions
   * of `ceil(L / n)` elements, the last one possibly shorter, returning their number.
   * A source with nothing left yields 0 partitions whatever `n` is. With something left
   * and `n < 1` the Go code panics: the float sizes it computes give a negative slice
   * length or index. The underlying source is drained either way, so a second call
   * yields 0 partitions.
   */
  method Partition<T>(p: PartitionedSource<T>, n: int)
    returns (after: PartitionedSource<T>, count: Result<int, SourceError>, ghost chunks: seq<seq<T>>)
    requires p.source.Reachable()
    ensures after.source.Reachable() && Remaining(after.source) == []
    ensures |Remaining(p.source)| == 0 ==> count == Ok(0) && after.sources == []
    ensures |Remaining(p.source)| > 0 && n < 1 ==> count == Err(RuntimePanic)
    ensures |Remaining(p.source)| > 0 && n >= 1 ==>
              count == Ok(|after.sources|) &&
              ChunkedBy(chunks, Remaining(p.source), CeilDiv(|Remaining(p.source)|, n)) &&
              1 <= |after.sources| <= n &&
              |after.sources| == |chunks| &&
              forall j :: 0 <= j < |chunks| ==> after.sources[j] == NewSourceFromSlice(Some(chunks[j]))
  {
    var drained, data := CollectSource(p.source);
    chunks := [];
    if |data| == 0 {
      return PartitionedSource(drained, []), Ok(0), chunks;
    }
    if n < 1 {
      return p.(source := drained), Err(RuntimePanic), chunks;
    }
    var size := CeilDiv(|data|, n);
    PartitionCount(|data|, n);
    var pieces := CutEvery(data, size);
    ChunkCount(pieces, data, size);
    chunks := pieces;
    var sources := seq(|pieces|, j requires 0 <= j < |pieces| => NewSourceFromSlice(Some(pieces[j])));
    after := PartitionedSource(drained, sources);
    count := Ok(|sources|);
  }

  /**
   * The partitions `Partition` leaves behind are each read from the start, and reading
   * them one after another in index order yields the drained data exactly.
   */
  lemma PartitionsReadBack<T>(sources: seq<SliceSource<T>>, chunks: seq<seq<T>>, data: seq<T>, size: nat)
    requires ChunkedBy(chunks, data, size) && |sources| == |chunks|
    requires forall j :: 0 <= j < |chunks| ==> sources[j] == NewSourceFromSlice(Some(chunks[j]))
    ensures forall j :: 0 <= j < |sources| ==> Remaining(sources[j]) == chunks[j]
    ensures Flatten(seq(|sources|, j requires 0 <= j < |sources| => Remaining(sources[j]))) == data
  {
    forall j | 0 <= j < |sources|
      ensures Remaining(sources[j]) == chunks[j]
    {
      assert chunks[j][0..] == chunks[j];
    }
    assert seq(|sources|, j requires 0 <= j < |sources| => Remaining(sources[j])) == chunks;
  }
}
