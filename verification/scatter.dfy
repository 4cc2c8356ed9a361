/**
 * The sequential logic of scatter.go: the loop that cuts a source into partitions of
 * `partitionSize` elements, the per-partition work, and the way the partition results
 * are combined.
 *
 * The goroutines deliver their results over a channel in an order the scheduler picks.
 * That order is the parameter `order`, an arbitrary permutation of the partition
 * indices: `order[j]` is the partition whose result arrives j-th. The per-element
 * function `f` is the pipeline of the stream, taken here as a pure function.
 */
module Scatter {
  import opened Wrappers
  import opened Seqs
  import opened Chunks
  import Engine

  // ---------------------------------------------------------------------------------
  // The chunking loop
  // ---------------------------------------------------------------------------------

  /** The loop state: what the source still holds, the partition being built, the partitions dispatched. */
  datatype Chunking<T> = Chunking(pending: seq<T>, partition: seq<T>, dispatched: seq<seq<T>>)

  /**
   * One iteration of `for source.HasNext() { ... }`: a partition with room takes the next
   * element; a full one is dispatched without pulling anything.
   */
  function ChunkStep<T>(st: Chunking<T>, size: int): (r: Chunking<T>)
    requires |st.pending| > 0
  {
    if |st.partition| < size then Chunking(st.pending[1..], st.partition + [st.pending[0]], st.dispatched)
    else Chunking(st.pending, [], st.dispatched + [st.partition])
  }

  /** The state after `k` iterations, stopping early once the source is empty. */
  function Iterate<T>(st: Chunking<T>, size: int, k: nat): Chunking<T>
    decreases k
  {
    if k == 0 then st
    else
      var prev := Iterate(st, size, k - 1);
      if |prev.pending| == 0 then prev else ChunkStep(prev, size)
  }

  /**
   * With `partitionSize <= 0` and an element in the source the loop never ends: no
   * partition ever has room, so every iteration dispatches another empty partition and
   * the source is never pulled.
   */
  lemma {:induction false} ChunkingDiverges<T>(data: seq<T>, size: int, k: nat)
    requires size <= 0 && |data| > 0
    ensures Iterate(Chunking(data, [], []), size, k) == Chunking(data, [], Empties(k))
    decreases k
  {
    if k > 0 {
      ChunkingDiverges(data, size, k - 1);
    }
  }

  /** `k` empty partitions. */
  function Empties<T>(k: nat): (r: seq<seq<T>>)
    ensures |r| == k && forall i :: 0 <= i < k ==> r[i] == []
  {
    seq(k, _ => [])
  }

  /** How many partitions the loop dispatches when it ends. */
  function PartitionsOf(len: nat, size: int): nat {
    if size >= 1 then CeilDiv(len, size) else 0
  }

  /** The loop invariant: full partitions dispatched, a partial one with room, and the source's rest, in order. */
  ghost predicate Building<T>(st: Chunking<T>, data: seq<T>, size: int) {
    size >= 1 &&
    Flatten(st.dispatched) + st.partition + st.pending == data &&
    |st.partition| <= size &&
    (forall i :: 0 <= i < |st.dispatched| ==> |st.dispatched[i]| == size) &&
    (|st.dispatched| > 0 || |st.partition| > 0 || |st.pending| > 0)
  }

  /** After the loop: the partition still being built is dispatched if it holds anything. */
  function Finish<T>(st: Chunking<T>): seq<seq<T>> {
    st.dispatched + (if |st.partition| > 0 then [st.partition] else [])
  }

  lemma ChunkStepBuilds<T>(st: Chunking<T>, data: seq<T>, size: int)
    requires Building(st, data, size) && |st.pending| > 0
    ensures Building(ChunkStep(st, size), data, size)
  {
    var st' := ChunkStep(st, size);
    if |st.partition| < size {
      assert st.pending == [st.pending[0]] + st'.pending;
    } else {
      FlattenAppend(st.dispatched, [st.partition]);
      FlattenCons(st.partition, []);
    }
  }

  lemma FinishChunks<T>(st: Chunking<T>, data: seq<T>, size: int)
    requires Building(st, data, size) && |st.pending| == 0
    ensures ChunkedBy(Finish(st), data, size)
  {
    FlattenAppend(st.dispatched, if |st.partition| > 0 then [st.partition] else []);
    FlattenCons(st.partition, []);
    assert st.dispatched + [] == st.dispatched;
  }

  /**
   * The chunking loop followed by the "last partition if present" step. `None` when the
   * loop never ends (a non-empty source and `partitionSize <= 0`).
   */
  method ChunkSource<T>(data: seq<T>, size: int) returns (chunks: Option<seq<seq<T>>>)
    ensures chunks.None? <==> size <= 0 && |data| > 0
    ensures chunks.Some? ==> Flatten(chunks.value) == data && |chunks.value| == PartitionsOf(|data|, size)
    ensures chunks.Some? && size >= 1 ==> ChunkedBy(chunks.value, data, size)
  {
    if |data| == 0 {
      return Some([]);
    }
    if size <= 0 {
      ChunkingDiverges(data, size, 1);
      return None;
    }
    var st := Chunking(data, [], []);
    assert [] + [] + data == data;
    while |st.pending| > 0
      invariant Building(st, data, size)
      decreases 2 * |st.pending| + (if |st.partition| == size then 1 else 0)
    {
      ChunkStepBuilds(st, data, size);
      st := ChunkStep(st, size);
    }
    var parts := Finish(st);
    FinishChunks(st, data, size);
    ChunkCount(parts, data, size);
    chunks := Some(parts);
  }

  // ---------------------------------------------------------------------------------
  // Per-partition work
  // ---------------------------------------------------------------------------------

  /** The results `f` keeps, in order. */
  function Passed<T>(f: T -> Option<T>, xs: seq<T>): seq<T> {
    Engine.Survivors(seq(|xs|, i requires 0 <= i < |xs| => f(xs[i])))
  }

  lemma PassedAppend<T>(f: T -> Option<T>, a: seq<T>, b: seq<T>)
    ensures Passed(f, a + b) == Passed(f, a) + Passed(f, b)
  {
    var oa := seq(|a|, i requires 0 <= i < |a| => f(a[i]));
    var ob := seq(|b|, i requires 0 <= i < |b| => f(b[i]));
    assert seq(|a + b|, i requires 0 <= i < |a + b| => f((a + b)[i])) == oa + ob;
    Engine.SurvivorsAppend(oa, ob);
  }

  lemma PassedSingle<T>(f: T -> Option<T>, x: T)
    ensures Passed(f, [x]) == (if f(x).Some? then [f(x).value] else [])
  {
    var o := seq(1, i requires 0 <= i < 1 => f([x][i]));
    assert o == [f(x)];
    assert o[..0] == [];
    assert Engine.Survivors(o[..0]) == [];
  }

  /** What each partition's worker keeps. */
  function PassedEach<T>(f: T -> Option<T>, chunks: seq<seq<T>>): (r: seq<seq<T>>)
    ensures |r| == |chunks|
  {
    seq(|chunks|, i requires 0 <= i < |chunks| => Passed(f, chunks[i]))
  }

  /** Keeping per partition and concatenating is keeping over the whole: `f` is elementwise. */
  lemma {:induction false} PassedFlatten<T>(f: T -> Option<T>, chunks: seq<seq<T>>)
    ensures Flatten(PassedEach(f, chunks)) == Passed(f, Flatten(chunks))
    decreases |chunks|
  {
    if |chunks| == 0 {
      assert Passed(f, []) == [];
    } else {
      var init := chunks[..|chunks| - 1];
      PassedFlatten(f, init);
      assert PassedEach(f, chunks)[..|chunks| - 1] == PassedEach(f, init);
      PassedAppend(f, Flatten(init), chunks[|chunks| - 1]);
    }
  }

  /** The worker of scatterGather and scatterForEach: the in-order results `f` keeps. */
  method GatherWorker<T>(f: T -> Option<T>, partition: seq<T>) returns (results: seq<T>)
    ensures results == Passed(f, partition)
  {
    results := [];
    for i := 0 to |partition|
      invariant results == Passed(f, partition[..i])
    {
      assert partition[..i + 1] == partition[..i] + [partition[i]];
      PassedAppend(f, partition[..i], [partition[i]]);
      PassedSingle(f, partition[i]);
      var element := f(partition[i]);
      if element.Some? {
        results := results + [element.value];
      }
    }
    assert partition[..|partition|] == partition;
  }

  /** The worker of scatterCount: how many results `f` keeps. */
  method CountWorker<T>(f: T -> Option<T>, partition: seq<T>) returns (count: nat)
    ensures count == |Passed(f, partition)|
  {
    count := 0;
    for i := 0 to |partition|
      invariant count == |Passed(f, partition[..i])|
    {
      assert partition[..i + 1] == partition[..i] + [partition[i]];
      PassedAppend(f, partition[..i], [partition[i]]);
      PassedSingle(f, partition[i]);
      if f(partition[i]).Some? {
        count := count + 1;
      }
    }
    assert partition[..|partition|] == partition;
  }

  /** Folding in one more value applies `g` once more. */
  lemma SeededFoldSnoc<T>(g: (T, T) -> T, s: seq<T>, v: T)
    requires |s| > 0
    ensures Engine.SeededFold(g, s + [v]) == g(Engine.SeededFold(g, s), v)
  {
    assert (s + [v])[1..] == s[1..] + [v];
    assert (s[1..] + [v])[..|s[1..]|] == s[1..];
  }

  /** The partial result of a reduce worker: empty, or the seeded fold of what `f` keeps. */
  function Partial<T>(g: (T, T) -> T, kept: seq<T>): (r: seq<T>)
    ensures |r| == (if |kept| == 0 then 0 else 1)
  {
    if |kept| == 0 then [] else [Engine.SeededFold(g, kept)]
  }

  /** The worker of scatterReduce: the first kept result seeds `partitionResults[0]`, later ones are folded in. */
  method ReduceWorker<T>(f: T -> Option<T>, g: (T, T) -> T, partition: seq<T>) returns (results: seq<T>)
    ensures results == Partial(g, Passed(f, partition))
  {
    results := [];
    for i := 0 to |partition|
      invariant results == Partial(g, Passed(f, partition[..i]))
    {
      assert partition[..i + 1] == partition[..i] + [partition[i]];
      PassedAppend(f, partition[..i], [partition[i]]);
      PassedSingle(f, partition[i]);
      CombineStep(g, Passed(f, partition[..i]), Passed(f, [partition[i]]));
      var element := f(partition[i]);
      if element.Some? {
        if |results| > 0 {
          results := results[0 := g(results[0], element.value)];
        } else {
          results := results + [element.value];
        }
      }
    }
    assert partition[..|partition|] == partition;
  }

  // ---------------------------------------------------------------------------------
  // Arrival order
  // ---------------------------------------------------------------------------------

  /** `order` lists each of the `n` partition indices exactly once. */
  ghost predicate IsArrival(order: seq<nat>, n: nat) {
    multiset(order) == multiset(Range(0, n))
  }

  /** Every entry of `idx` indexes into a sequence of length `n`. */
  predicate Within(idx: seq<nat>, n: nat) {
    forall j :: 0 <= j < |idx| ==> idx[j] < n
  }

  lemma ArrivalWithin(order: seq<nat>, n: nat)
    requires IsArrival(order, n)
    ensures Within(order, n) && |order| == n
  {
    forall j | 0 <= j < |order|
      ensures order[j] < n
    {
      assert order[j] in multiset(Range(0, n));
    }
    assert |multiset(order)| == |multiset(Range(0, n))|;
  }

  /** The partition results in arrival order. */
  function Arrived<U>(results: seq<U>, order: seq<nat>): (r: seq<U>)
    requires Within(order, |results|)
    ensures |r| == |order|
  {
    seq(|order|, j requires 0 <= j < |order| => results[order[j]])
  }

  lemma ArrivedInOrder<U>(results: seq<U>)
    ensures Within(Range(0, |results|), |results|)
    ensures Arrived(results, Range(0, |results|)) == results
  {
  }

  lemma ArrivedAppend<U>(c: seq<U>, u: seq<nat>, v: seq<nat>)
    requires Within(u, |c|) && Within(v, |c|)
    ensures Within(u + v, |c|)
    ensures Arrived(c, u + v) == Arrived(c, u) + Arrived(c, v)
  {
  }

  /** The results that have arrived after `j + 1` workers: those after `j`, then worker `order[j]`'s. */
  lemma ArrivedSnoc<T>(results: seq<seq<T>>, order: seq<nat>, j: nat)
    requires Within(order, |results|) && j < |order|
    ensures Within(order[..j], |results|) && Within(order[..j + 1], |results|)
    ensures Flatten(Arrived(results, order[..j + 1])) == Flatten(Arrived(results, order[..j])) + results[order[j]]
  {
    var arrived := Arrived(results, order[..j]);
    assert Arrived(results, order[..j + 1]) == arrived + [results[order[j]]];
    FlattenAppend(arrived, [results[order[j]]]);
    FlattenCons(results[order[j]], []);
  }

  /** Reordering the indices reorders the results and nothing else. */
  lemma {:induction false} ArrivedPermutes<U>(c: seq<U>, a: seq<nat>, b: seq<nat>)
    requires multiset(a) == multiset(b) && Within(a, |c|) && Within(b, |c|)
    ensures multiset(Arrived(c, a)) == multiset(Arrived(c, b))
    decreases |a|
  {
    if |a| == 0 {
      assert |multiset(b)| == 0;
    } else {
      var x, a' := a[|a| - 1], a[..|a| - 1];
      var j := PickLast(a, b);
      var p, q := b[..j], b[j + 1..];
      assert Within(p, |c|) && Within(q, |c|);
      ArrivedAppend(c, p, q);
      ArrivedPermutes(c, a', p + q);
      assert a == a' + [x];
      ArrivedAppend(c, a', [x]);
      assert b == (p + [x]) + q;
      ArrivedAppend(c, p, [x]);
      ArrivedAppend(c, p + [x], q);
    }
  }

  /** Concatenation forgets the order of the slices as far as their elements go. */
  lemma {:induction false} FlattenPermutes<T>(a: seq<seq<T>>, b: seq<seq<T>>)
    requires multiset(a) == multiset(b)
    ensures multiset(Flatten(a)) == multiset(Flatten(b))
    decreases |a|
  {
    if |a| == 0 {
      assert |multiset(b)| == 0;
      assert b == [];
    } else {
      var x, a' := a[|a| - 1], a[..|a| - 1];
      var j := PickLast(a, b);
      var p, q := b[..j], b[j + 1..];
      FlattenPermutes(a', p + q);
      assert b == (p + [x]) + q;
      FlattenAppend(p, [x]);
      FlattenAppend(p + [x], q);
      FlattenAppend(p, q);
      FlattenCons(x, []);
    }
  }

  /** Whatever the arrival order, the gathered results are exactly as many as the partition results together. */
  lemma ArrivedLength<T>(results: seq<seq<T>>, order: seq<nat>)
    requires IsArrival(order, |results|)
    ensures Within(order, |results|)
    ensures |Flatten(Arrived(results, order))| == |Flatten(results)|
  {
    ArrivalWithin(order, |results|);
    var ls := Lengths(results);
    FlattenLengths(results);
    FlattenLengths(Arrived(results, order));
    assert Lengths(Arrived(results, order)) == Arrived(ls, order);
    ArrivedInOrder(ls);
    ArrivedPermutes(ls, order, Range(0, |ls|));
    SumPermutation(Arrived(ls, order), ls);
  }

  // ---------------------------------------------------------------------------------
  // Scatter then gather
  // ---------------------------------------------------------------------------------

  /**
   * `scatterGather`: every partition's kept results, concatenated in arrival order. No
   * kept result is lost or duplicated: there are exactly as many as `f` keeps over the
   * whole source.
   */
  method ScatterGather<T>(data: seq<T>, size: int, f: T -> Option<T>, order: seq<nat>)
    returns (r: Option<seq<T>>, ghost chunks: seq<seq<T>>)
    requires IsArrival(order, PartitionsOf(|data|, size))
    ensures r.None? <==> size <= 0 && |data| > 0
    ensures r.Some? ==> Flatten(chunks) == data && |chunks| == |order| && Within(order, |chunks|)
    ensures r.Some? ==> r.value == Flatten(Arrived(PassedEach(f, chunks), order))
    ensures r.Some? ==> |r.value| == |Passed(f, data)|
  {
    var cut := ChunkSource(data, size);
    if cut.None? {
      return None, [];
    }
    var pieces := cut.value;
    chunks := pieces;
    ArrivalWithin(order, |pieces|);
    var workers := GatherWorkers(f, pieces);
    var results := GatherResults(workers, order);
    ArrivedLength(workers, order);
    PassedFlatten(f, chunks);
    r := Some(results);
  }

  /** One gather worker per partition. */
  method GatherWorkers<T>(f: T -> Option<T>, pieces: seq<seq<T>>) returns (workers: seq<seq<T>>)
    ensures workers == PassedEach(f, pieces)
  {
    workers := [];
    for i := 0 to |pieces|
      invariant workers == PassedEach(f, pieces[..i])
    {
      var w := GatherWorker(f, pieces[i]);
      workers := workers + [w];
    }
    assert pieces[..|pieces|] == pieces;
  }

  /** The gathering loop of scatterGather: each arriving partition result is appended. */
  method GatherResults<T>(workers: seq<seq<T>>, order: seq<nat>) returns (results: seq<T>)
    requires Within(order, |workers|)
    ensures results == Flatten(Arrived(workers, order))
  {
    results := [];
    for j := 0 to |order|
      invariant results == Flatten(Arrived(workers, order[..j]))
    {
      assert Arrived(workers, order[..j + 1]) == Arrived(workers, order[..j]) + [workers[order[j]]];
      results := results + workers[order[j]];
    }
    assert order[..|order|] == order;
  }

  /** In the order the partitions were cut, the gathered results are the kept results of the source, in source order. */
  lemma GatherInOrder<T>(f: T -> Option<T>, chunks: seq<seq<T>>)
    ensures Within(Range(0, |chunks|), |chunks|)
    ensures Flatten(Arrived(PassedEach(f, chunks), Range(0, |chunks|))) == Passed(f, Flatten(chunks))
  {
    ArrivedInOrder(PassedEach(f, chunks));
    PassedFlatten(f, chunks);
  }

  /** In any arrival order, the gathered results are a permutation of the kept results of the source. */
  lemma GatherPermutes<T>(f: T -> Option<T>, chunks: seq<seq<T>>, order: seq<nat>)
    requires IsArrival(order, |chunks|)
    ensures Within(order, |chunks|)
    ensures multiset(Flatten(Arrived(PassedEach(f, chunks), order))) == multiset(Passed(f, Flatten(chunks)))
  {
    var w := PassedEach(f, chunks);
    ArrivalWithin(order, |chunks|);
    ArrivedInOrder(w);
    ArrivedPermutes(w, order, Range(0, |w|));
    FlattenPermutes(Arrived(w, order), w);
    PassedFlatten(f, chunks);
  }

  /**
   * `scatterForEach`: as each partition's results arrive, `g` is called on them one by one;
   * the calls are the gathered results, and every kept element of the source is acted on
   * exactly as often as it occurs there.
   */
  method ScatterForEach<T>(data: seq<T>, size: int, f: T -> Option<T>, order: seq<nat>)
    returns (calls: Option<seq<T>>, ghost chunks: seq<seq<T>>)
    requires IsArrival(order, PartitionsOf(|data|, size))
    ensures calls.None? <==> size <= 0 && |data| > 0
    ensures calls.Some? ==> Flatten(chunks) == data && Within(order, |chunks|)
    ensures calls.Some? ==> calls.value == Flatten(Arrived(PassedEach(f, chunks), order))
    ensures calls.Some? ==> multiset(calls.value) == multiset(Passed(f, data))
    ensures calls.Some? ==> |calls.value| == |Passed(f, data)|
  {
    var cut := ChunkSource(data, size);
    if cut.None? {
      return None, [];
    }
    var pieces := cut.value;
    chunks := pieces;
    ArrivalWithin(order, |pieces|);
    var workers := GatherWorkers(f, pieces);
    var made := ActOnArrivals(workers, order);
    GatherPermutes(f, chunks, order);
    assert |made| == |multiset(made)| == |multiset(Passed(f, data))| == |Passed(f, data)|;
    calls := Some(made);
  }

  /** The action loop of scatterForEach: `g` on every element of each partition's results, as they arrive. */
  method ActOnArrivals<T>(workers: seq<seq<T>>, order: seq<nat>) returns (calls: seq<T>)
    requires Within(order, |workers|)
    ensures calls == Flatten(Arrived(workers, order))
  {
    calls := [];
    for j := 0 to |order|
      invariant calls == Flatten(Arrived(workers, order[..j]))
    {
      var arrived := workers[order[j]];
      ArrivedSnoc(workers, order, j);
      for k := 0 to |arrived|
        invariant calls == Flatten(Arrived(workers, order[..j])) + arrived[..k]
      {
        calls := calls + [arrived[k]];
      }
      assert arrived[..|arrived|] == arrived;
    }
    assert order[..|order|] == order;
  }

  /** One count worker per partition. */
  method CountWorkers<T>(f: T -> Option<T>, pieces: seq<seq<T>>) returns (counts: seq<nat>)
    ensures counts == Lengths(PassedEach(f, pieces))
  {
    counts := [];
    for i := 0 to |pieces|
      invariant counts == Lengths(PassedEach(f, pieces[..i]))
    {
      var c := CountWorker(f, pieces[i]);
      counts := counts + [c];
    }
    assert pieces[..|pieces|] == pieces;
  }

  /** The gathering loop of scatterCount: the counts are added up as they arrive. */
  method SumCounts(counts: seq<nat>, order: seq<nat>) returns (total: nat)
    requires Within(order, |counts|)
    ensures total == Sum(Arrived(counts, order))
  {
    total := 0;
    for j := 0 to |order|
      invariant total == Sum(Arrived(counts, order[..j]))
    {
      assert Arrived(counts, order[..j + 1]) == Arrived(counts, order[..j]) + [counts[order[j]]];
      total := total + counts[order[j]];
    }
    assert order[..|order|] == order;
  }

  /** `scatterCount`: the per-partition counts summed in arrival order, which is the number of results `f` keeps. */
  method ScatterCount<T>(data: seq<T>, size: int, f: T -> Option<T>, order: seq<nat>) returns (count: Option<nat>)
    requires IsArrival(order, PartitionsOf(|data|, size))
    ensures count.None? <==> size <= 0 && |data| > 0
    ensures count.Some? ==> count.value == |Passed(f, data)|
  {
    var cut := ChunkSource(data, size);
    if cut.None? {
      return None;
    }
    var chunks := cut.value;
    ArrivalWithin(order, |chunks|);
    var counts := CountWorkers(f, chunks);
    var total := SumCounts(counts, order);
    var w := PassedEach(f, chunks);
    ArrivedInOrder(counts);
    ArrivedPermutes(counts, order, Range(0, |counts|));
    SumPermutation(Arrived(counts, order), counts);
    FlattenLengths(w);
    PassedFlatten(f, chunks);
    count := Some(total);
  }

  /** `g` is associative. */
  ghost predicate Associative<T(!new)>(g: (T, T) -> T) {
    forall a, b, c :: g(g(a, b), c) == g(a, g(b, c))
  }

  /** With an associative `g`, folding `y` onto `a` is `a` combined with the seeded fold of `y`. */
  lemma {:induction false} FoldOnto<T(!new)>(g: (T, T) -> T, a: T, y: seq<T>)
    requires Associative(g) && |y| > 0
    ensures FoldLeft(g, a, y) == g(a, Engine.SeededFold(g, y))
    decreases |y|
  {
    var n := |y|;
    if n == 1 {
      assert y[..0] == [] && y[1..] == [];
    } else {
      var init := y[..n - 1];
      FoldOnto(g, a, init);
      assert init + [y[n - 1]] == y;
      SeededFoldSnoc(g, init, y[n - 1]);
    }
  }

  /** With an associative `g`, folding a concatenation combines the folds of its halves. */
  lemma SeededFoldConcat<T(!new)>(g: (T, T) -> T, x: seq<T>, y: seq<T>)
    requires Associative(g) && |x| > 0 && |y| > 0
    ensures Engine.SeededFold(g, x + y) == g(Engine.SeededFold(g, x), Engine.SeededFold(g, y))
  {
    assert (x + y)[0] == x[0];
    assert (x + y)[1..] == x[1..] + y;
    FoldLeftAppend(g, x[0], x[1..], y);
    FoldOnto(g, Engine.SeededFold(g, x), y);
  }

  /** The partial results of the reduce workers. */
  function Partials<T>(g: (T, T) -> T, kept: seq<seq<T>>): (r: seq<seq<T>>)
    ensures |r| == |kept|
  {
    seq(|kept|, i requires 0 <= i < |kept| => Partial(g, kept[i]))
  }

  /**
   * `scatterReduce`: `(zero, false)` exactly when no partition kept anything; otherwise
   * the seeded fold of `g` over the non-empty partials in arrival order.
   */
  method ScatterReduce<T>(data: seq<T>, size: int, f: T -> Option<T>, g: (T, T) -> T, zero: T, order: seq<nat>)
    returns (r: Option<(T, bool)>, ghost chunks: seq<seq<T>>)
    requires IsArrival(order, PartitionsOf(|data|, size))
    ensures r.None? <==> size <= 0 && |data| > 0
    ensures r.Some? ==> Flatten(chunks) == data && Within(order, |chunks|)
    ensures r.Some? ==> (r.value.1 <==> |Passed(f, data)| > 0)
    ensures r.Some? && !r.value.1 ==> r.value.0 == zero
    ensures r.Some? && r.value.1 ==>
              |Flatten(Arrived(Partials(g, PassedEach(f, chunks)), order))| > 0 &&
              r.value.0 == Engine.SeededFold(g, Flatten(Arrived(Partials(g, PassedEach(f, chunks)), order)))
  {
    var cut := ChunkSource(data, size);
    if cut.None? {
      return None, [];
    }
    var pieces := cut.value;
    chunks := pieces;
    ArrivalWithin(order, |pieces|);
    var partials := ReduceWorkers(f, g, pieces);
    var results := CombinePartials(g, partials, order);
    ReduceValid(f, g, pieces, order);
    if |results| == 0 {
      r := Some((zero, false));
    } else {
      r := Some((results[0], true));
    }
  }

  /** Combining one more worker's partial, which is empty or a single value, into the gathered result. */
  lemma CombineStep<T>(g: (T, T) -> T, done: seq<T>, p: seq<T>)
    requires |p| <= 1
    ensures Partial(g, done + p) ==
              if |done| > 0 && |p| > 0 then [g(Engine.SeededFold(g, done), p[0])]
              else if |p| > 0 then p
              else Partial(g, done)
  {
    if |done| > 0 && |p| > 0 {
      assert p == [p[0]];
      SeededFoldSnoc(g, done, p[0]);
    } else if |p| > 0 {
      assert done + p == p;
      assert p[1..] == [];
    } else {
      assert done + p == done;
    }
  }

  /** One reduce worker per partition. */
  method ReduceWorkers<T>(f: T -> Option<T>, g: (T, T) -> T, pieces: seq<seq<T>>) returns (partials: seq<seq<T>>)
    ensures partials == Partials(g, PassedEach(f, pieces))
  {
    partials := [];
    for i := 0 to |pieces|
      invariant partials == Partials(g, PassedEach(f, pieces[..i]))
    {
      var p := ReduceWorker(f, g, pieces[i]);
      partials := partials + [p];
    }
    assert pieces[..|pieces|] == pieces;
  }

  /**
   * The gathering loop of scatterReduce: the partials, each empty or a single value, are
   * folded with `g` in arrival order into `results[0]`, which the first non-empty one seeds.
   */
  method CombinePartials<T>(g: (T, T) -> T, partials: seq<seq<T>>, order: seq<nat>) returns (results: seq<T>)
    requires Within(order, |partials|)
    requires forall i :: 0 <= i < |partials| ==> |partials[i]| <= 1
    ensures results == Partial(g, Flatten(Arrived(partials, order)))
  {
    results := [];
    for j := 0 to |order|
      invariant results == Partial(g, Flatten(Arrived(partials, order[..j])))
    {
      var p := partials[order[j]];
      ArrivedSnoc(partials, order, j);
      CombineStep(g, Flatten(Arrived(partials, order[..j])), p);
      if |results| > 0 && |p| > 0 {
        results := results[0 := g(results[0], p[0])];
      } else if |p| > 0 {
        results := results + p;
      }
    }
    assert order[..|order|] == order;
  }

  /** In any arrival order, the combined partials are non-empty exactly when `f` keeps something of the source. */
  lemma ReduceValid<T>(f: T -> Option<T>, g: (T, T) -> T, chunks: seq<seq<T>>, order: seq<nat>)
    requires IsArrival(order, |chunks|)
    ensures Within(order, |chunks|)
    ensures |Flatten(Arrived(Partials(g, PassedEach(f, chunks)), order))| > 0 <==> |Passed(f, Flatten(chunks))| > 0
  {
    ArrivedLength(Partials(g, PassedEach(f, chunks)), order);
    PartialsNonEmpty(g, PassedEach(f, chunks));
    PassedFlatten(f, chunks);
  }

  /** Some partition has a partial result exactly when some partition kept something. */
  lemma {:induction false} PartialsNonEmpty<T>(g: (T, T) -> T, kept: seq<seq<T>>)
    ensures |Flatten(Partials(g, kept))| > 0 <==> |Flatten(kept)| > 0
    decreases |kept|
  {
    if |kept| > 0 {
      PartialsSnoc(g, kept);
      PartialsNonEmpty(g, kept[..|kept| - 1]);
    }
  }

  /** The partials of `kept` are those of all but its last partition, then the last one's partial. */
  lemma PartialsSnoc<T>(g: (T, T) -> T, kept: seq<seq<T>>)
    requires |kept| > 0
    ensures Flatten(Partials(g, kept)) == Flatten(Partials(g, kept[..|kept| - 1])) + Partial(g, kept[|kept| - 1])
    ensures Flatten(kept) == Flatten(kept[..|kept| - 1]) + kept[|kept| - 1]
  {
    assert Partials(g, kept)[..|kept| - 1] == Partials(g, kept[..|kept| - 1]);
  }

  /**
   * One more partition with a partial: when the partials so far fold to the same value as
   * the survivors so far, adding the new partial matches adding the partition's survivors.
   */
  lemma JoinPartial<T(!new)>(g: (T, T) -> T, done: seq<T>, before: seq<T>, last: seq<T>)
    requires Associative(g) && |done| > 0 && |before| > 0 && |last| > 0
    requires Engine.SeededFold(g, done) == Engine.SeededFold(g, before)
    ensures Engine.SeededFold(g, done + Partial(g, last)) == Engine.SeededFold(g, before + last)
  {
    var v := Engine.SeededFold(g, last);
    assert [v][1..] == [];
    SeededFoldConcat(g, done, [v]);
    SeededFoldConcat(g, before, last);
  }

  /**
   * In the order the partitions were cut and with an associative `g`, the combined
   * partials are the seeded fold of `g` over the kept results of the whole source.
   */
  lemma {:induction false} ReduceInOrder<T(!new)>(g: (T, T) -> T, kept: seq<seq<T>>)
    requires Associative(g) && |Flatten(kept)| > 0
    ensures |Flatten(Partials(g, kept))| > 0
    ensures Engine.SeededFold(g, Flatten(Partials(g, kept))) == Engine.SeededFold(g, Flatten(kept))
    decreases |kept|
  {
    PartialsNonEmpty(g, kept);
    var n := |kept|;
    var init, last := kept[..n - 1], kept[n - 1];
    PartialsSnoc(g, kept);
    PartialsNonEmpty(g, init);
    var done, before := Flatten(Partials(g, init)), Flatten(init);
    if |last| == 0 {
      assert done + [] == done && before + [] == before;
      ReduceInOrder(g, init);
    } else if |before| == 0 {
      assert Flatten(Partials(g, kept)) == Partial(g, last) && Flatten(kept) == last;
      assert Partial(g, last)[1..] == [];
    } else {
      ReduceInOrder(g, init);
      JoinPartial(g, done, before, last);
    }
  }
}
