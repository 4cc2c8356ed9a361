/**
 * The sequential stream (sequential_stream.go).
 *
 * The Go stream holds a source, a pipeline closure and two flags. Each intermediate
 * operation wraps the receiver's closure in a new one; here the pipeline is the sequence
 * of operators of package `operator` it was built from, in order. A closure's private
 * state (a Limit counter, a Distinct set) is created when the stage is derived, and only
 * the single terminal operation that ends the chain ever runs it, so every stage starts
 * that run from its fresh state. A Go panic is the `Err` of a `Result`; the receiver is
 * then left as it was, because the panic comes before the deferred close.
 */
module Sequential {
  import opened Wrappers
  import opened Seqs
  import Engine
  import Op = Operator
  import opened Lifecycle
  import opened Sources

  datatype SequentialStream<!T> = SequentialStream(source: SliceSource<T>, ops: seq<Op.IntermediateOperator<T>>, status: Status)

  /** A stream with the identity pipeline on `source`. */
  function FromSource<T>(source: SliceSource<T>): (s: SequentialStream<T>)
    ensures s.status == Open && s.ops == [] && s.source == source
  {
    SequentialStream(source, [], Open)
  }

  /** What the pipeline `ops` keeps of `data`, in order, each stage starting from its fresh state. */
  function Pipeline<T(==)>(ops: seq<Op.IntermediateOperator<T>>, data: seq<T>): seq<T> {
    Engine.Collected(Op.Step, ops, Op.FreshAll(ops), data)
  }

  // ---------------------------------------------------------------------------------
  // Intermediate operations
  // ---------------------------------------------------------------------------------

  /**
   * The shape shared by every intermediate operation: validate, then close the receiver
   * and return an open stream on the same source whose pipeline is the receiver's followed
   * by `op`. The pair is (receiver afterwards, derived stream).
   */
  function Derive<T>(s: SequentialStream<T>, op: Op.IntermediateOperator<T>)
    : (r: Result<(SequentialStream<T>, SequentialStream<T>), StreamError>)
    ensures r.Err? <==> !Check(s.status).Ok?
    ensures r.Err? ==> r.error == Check(s.status).error
    ensures r.Ok? ==> r.value.0 == s.(status := Status(false, true))
    ensures r.Ok? ==> r.value.1 == SequentialStream(s.source, s.ops + [op], Open)
  {
    match Check(s.status)
    case Err(e) => Err(e)
    case Ok(_) => Ok((s.(status := Close(s.status)), SequentialStream(s.source, s.ops + [op], Open)))
  }

  /** `Filter` (sequential_stream.go:58-73). */
  function Filter<T>(s: SequentialStream<T>, p: T -> bool): (r: Result<(SequentialStream<T>, SequentialStream<T>), StreamError>)
    ensures r == Derive(s, Op.Filter(p))
  {
    Derive(s, Op.Filter(p))
  }

  /** `Map` (sequential_stream.go:151-166). */
  function Map<T>(s: SequentialStream<T>, f: T -> T): (r: Result<(SequentialStream<T>, SequentialStream<T>), StreamError>)
    ensures r == Derive(s, Op.Map(f))
  {
    Derive(s, Op.Map(f))
  }

  /** `Peek` (sequential_stream.go:132-148); the action's calls are recorded by the stage. */
  function Peek<T>(s: SequentialStream<T>): (r: Result<(SequentialStream<T>, SequentialStream<T>), StreamError>)
    ensures r == Derive(s, Op.Peek)
  {
    Derive(s, Op.Peek)
  }

  /** `Distinct` (sequential_stream.go:169-193): a set of the elements kept so far. */
  function Distinct<T>(s: SequentialStream<T>): (r: Result<(SequentialStream<T>, SequentialStream<T>), StreamError>)
    ensures r == Derive(s, Op.Distinct(false))
  {
    Derive(s, Op.Distinct(false))
  }

  /**
   * `Limit` (sequential_stream.go:76-99): after validation a negative limit is an
   * IllegalArgument, raised before the receiver is closed.
   */
  function Limit<T>(s: SequentialStream<T>, n: int): (r: Result<(SequentialStream<T>, SequentialStream<T>), StreamError>)
    ensures r.Ok? <==> Check(s.status).Ok? && n >= 0
    ensures !Check(s.status).Ok? ==> r == Err(Check(s.status).error)
    ensures Check(s.status).Ok? && n < 0 ==> r == Err(IllegalArgument)
    ensures r.Ok? ==> r == Derive(s, Op.Limit(n))
  {
    if !Check(s.status).Ok? then Err(Check(s.status).error)
    else if n < 0 then Err(IllegalArgument)
    else Derive(s, Op.Limit(n))
  }

  /** `Skip` (sequential_stream.go:103-129): the same checks as Limit. */
  function Skip<T>(s: SequentialStream<T>, n: int): (r: Result<(SequentialStream<T>, SequentialStream<T>), StreamError>)
    ensures r.Ok? <==> Check(s.status).Ok? && n >= 0
    ensures !Check(s.status).Ok? ==> r == Err(Check(s.status).error)
    ensures Check(s.status).Ok? && n < 0 ==> r == Err(IllegalArgument)
    ensures r.Ok? ==> r == Derive(s, Op.Skip(n))
  {
    if !Check(s.status).Ok? then Err(Check(s.status).error)
    else if n < 0 then Err(IllegalArgument)
    else Derive(s, Op.Skip(n))
  }

  /** A stream can be derived from once: the second derivation fails with StreamClosed, whatever the operator. */
  lemma DeriveTwice<T>(s: SequentialStream<T>, a: Op.IntermediateOperator<T>, b: Op.IntermediateOperator<T>)
    requires Derive(s, a).Ok?
    ensures Derive(Derive(s, a).value.0, b) == Err(StreamClosed)
    ensures Derive(Derive(s, a).value.1, b).Ok?
  {
  }

  /**
   * A rejected Limit or Skip leaves the receiver open: another operation on it still
   * succeeds, unlike after a successful derivation.
   */
  lemma NegativeCountKeepsOpen<T>(s: SequentialStream<T>, n: int, op: Op.IntermediateOperator<T>)
    requires s.status == Open && n < 0
    ensures Limit(s, n) == Err(IllegalArgument) && Skip(s, n) == Err(IllegalArgument)
    ensures Derive(s, op).Ok?
  {
  }

  // ---------------------------------------------------------------------------------
  // Terminal operations
  // ---------------------------------------------------------------------------------

  /** The receiver after a terminal operation that passed validation: terminated, closed, source drained. */
  ghost predicate Ended<T>(s: SequentialStream<T>, after: SequentialStream<T>) {
    after.status == Status(true, true) && after.ops == s.ops &&
    after.source.Reachable() && Remaining(after.source) == []
  }

  /** `Collect` (sequential_stream.go:269-284): the pipeline's results over the source, in source order. */
  method Collect<T(==)>(s: SequentialStream<T>) returns (after: SequentialStream<T>, r: Result<seq<T>, StreamError>)
    requires s.source.Reachable()
    ensures r.Err? <==> !Check(s.status).Ok?
    ensures r.Err? ==> r.error == Check(s.status).error && after == s
    ensures r.Ok? ==> Ended(s, after) && r.value == Pipeline(s.ops, Remaining(s.source))
  {
    if !Check(s.status).Ok? {
      return s, Err(Check(s.status).error);
    }
    var drained, data := CollectSource(s.source);
    var _, results := Engine.Collect(Op.Step, s.ops, Op.FreshAll(s.ops), data);
    after := SequentialStream(drained, s.ops, Terminate(s.status));
    r := Ok(results);
  }

  /** `Count` (sequential_stream.go:212-227): how many elements the pipeline keeps. */
  method Count<T(==)>(s: SequentialStream<T>) returns (after: SequentialStream<T>, r: Result<nat, StreamError>)
    requires s.source.Reachable()
    ensures r.Err? <==> !Check(s.status).Ok?
    ensures r.Err? ==> r.error == Check(s.status).error && after == s
    ensures r.Ok? ==> Ended(s, after) && r.value == |Pipeline(s.ops, Remaining(s.source))|
  {
    if !Check(s.status).Ok? {
      return s, Err(Check(s.status).error);
    }
    var drained, data := CollectSource(s.source);
    var _, count := Engine.Count(Op.Step, s.ops, Op.FreshAll(s.ops), data);
    after := SequentialStream(drained, s.ops, Terminate(s.status));
    r := Ok(count);
  }

  /** `ForEach` (sequential_stream.go:196-209): the action's calls, one per kept element, in source order. */
  method ForEach<T(==)>(s: SequentialStream<T>) returns (after: SequentialStream<T>, r: Result<seq<T>, StreamError>)
    requires s.source.Reachable()
    ensures r.Err? <==> !Check(s.status).Ok?
    ensures r.Err? ==> r.error == Check(s.status).error && after == s
    ensures r.Ok? ==> Ended(s, after) && r.value == Pipeline(s.ops, Remaining(s.source))
  {
    if !Check(s.status).Ok? {
      return s, Err(Check(s.status).error);
    }
    var drained, data := CollectSource(s.source);
    var _, calls := Engine.ForEach(Op.Step, s.ops, Op.FreshAll(s.ops), data);
    after := SequentialStream(drained, s.ops, Terminate(s.status));
    r := Ok(calls);
  }

  /**
   * `Reduce` (sequential_stream.go:230-266): the first kept element seeds `x` and every
   * later one is folded in with `f`; `(zero, false)` when nothing is kept.
   */
  method Reduce<T(==)>(s: SequentialStream<T>, f: (T, T) -> T, zero: T)
    returns (after: SequentialStream<T>, r: Result<(T, bool), StreamError>)
    requires s.source.Reachable()
    ensures r.Err? <==> !Check(s.status).Ok?
    ensures r.Err? ==> r.error == Check(s.status).error && after == s
    ensures r.Ok? ==> Ended(s, after)
    ensures r.Ok? ==> (r.value.1 <==> |Pipeline(s.ops, Remaining(s.source))| > 0)
    ensures r.Ok? && !r.value.1 ==> r.value.0 == zero
    ensures r.Ok? && r.value.1 ==> r.value.0 == Engine.SeededFold(f, Pipeline(s.ops, Remaining(s.source)))
  {
    if !Check(s.status).Ok? {
      return s, Err(Check(s.status).error);
    }
    var drained, data := CollectSource(s.source);
    var _, z, valid := Engine.Reduce(Op.Step, s.ops, Op.FreshAll(s.ops), data, f, zero);
    after := SequentialStream(drained, s.ops, Terminate(s.status));
    r := Ok((z, valid));
  }

  /** A single kept element is the reduction itself; two are combined once. */
  lemma ReduceSmall<T>(f: (T, T) -> T, x: T, y: T)
    ensures Engine.SeededFold(f, [x]) == x
    ensures Engine.SeededFold(f, [x, y]) == f(x, y)
  {
    assert [x][1..] == [];
    assert [x, y][1..] == [y];
    assert [y][..0] == [];
  }

  /** After a terminal operation every operation fails with StreamTerminated. */
  lemma TerminatedRejects<T>(s: SequentialStream<T>, op: Op.IntermediateOperator<T>, n: int)
    requires s.status.terminated
    ensures Derive(s, op) == Err(StreamTerminated)
    ensures Limit(s, n) == Err(StreamTerminated) && Skip(s, n) == Err(StreamTerminated)
  {
  }

  // ---------------------------------------------------------------------------------
  // What a stage sees
  // ---------------------------------------------------------------------------------

  /** Appending `op` to a pipeline runs it on what the pipeline kept, from its fresh state. */
  lemma AppendedStage<T>(ops: seq<Op.IntermediateOperator<T>>, op: Op.IntermediateOperator<T>, data: seq<T>)
    ensures Pipeline(ops + [op], data) == Engine.Survivors(Op.Calls(op, Op.Fresh(), Pipeline(ops, data)).1)
  {
    assert Op.FreshAll(ops + [op]) == Op.FreshAll(ops) + [Op.Fresh()];
    Engine.RunFusion(Op.Step, ops, [op], Op.FreshAll(ops), [Op.Fresh()], data);
  }

  /**
   * Limit counts the elements that reach it, not the source's: appended to a pipeline it
   * keeps the first `n` of what the pipeline kept.
   */
  lemma LimitTakes<T>(ops: seq<Op.IntermediateOperator<T>>, n: int, data: seq<T>)
    requires n >= 0
    ensures var kept := Pipeline(ops, data);
            Pipeline(ops + [Op.Limit(n)], data) == kept[..if n < |kept| then n else |kept|]
  {
    var kept := Pipeline(ops, data);
    AppendedStage(ops, Op.Limit(n), data);
    Op.LimitCalls(n, Op.Fresh(), kept);
    Engine.SurvivorsPrefix(Op.Calls(Op.Limit(n), Op.Fresh(), kept).1, kept, if n < |kept| then n else |kept|);
  }

  /** Skip counts the elements that reach it: appended to a pipeline it drops the first `n` of what the pipeline kept. */
  lemma SkipDrops<T>(ops: seq<Op.IntermediateOperator<T>>, n: int, data: seq<T>)
    requires n >= 0
    ensures var kept := Pipeline(ops, data);
            Pipeline(ops + [Op.Skip(n)], data) == kept[if n < |kept| then n else |kept|..]
  {
    var kept := Pipeline(ops, data);
    AppendedStage(ops, Op.Skip(n), data);
    Op.SkipCalls(n, Op.Fresh(), kept);
    Engine.SurvivorsSuffix(Op.Calls(Op.Skip(n), Op.Fresh(), kept).1, kept, if n < |kept| then n else |kept|);
  }

  /** A filter appended to a pipeline keeps what the pipeline kept and satisfies the predicate. */
  lemma FilterKeeps<T>(ops: seq<Op.IntermediateOperator<T>>, p: T -> bool, data: seq<T>)
    ensures Pipeline(ops + [Op.Filter(p)], data) == Kept(p, Pipeline(ops, data))
  {
    var kept := Pipeline(ops, data);
    AppendedStage(ops, Op.Filter(p), data);
    Op.FilterCalls(p, Op.Fresh(), kept);
    SurvivorsKept(Op.Calls(Op.Filter(p), Op.Fresh(), kept).1, p, kept);
  }

  lemma {:induction false} SurvivorsKept<T>(outs: seq<Option<T>>, p: T -> bool, xs: seq<T>)
    requires |outs| == |xs|
    requires forall i :: 0 <= i < |outs| ==> outs[i] == (if p(xs[i]) then Some(xs[i]) else None)
    ensures Engine.Survivors(outs) == Kept(p, xs)
    decreases |xs|
  {
    if |xs| > 0 {
      SurvivorsKept(outs[..|outs| - 1], p, xs[..|xs| - 1]);
    }
  }

  /** The identity pipeline of a fresh stream keeps every element. */
  lemma NoStagesKeepAll<T>(data: seq<T>)
    ensures Pipeline([], data) == data
  {
    Engine.CollectedNoOps(Op.Step, data);
  }
}
