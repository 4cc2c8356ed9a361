/**
 * The partitioned stream (partitioned_stream.go): a stream whose elements are slices.
 *
 * Its supplier is modelled by the slices it returns when a terminal operation invokes it.
 * Filter, Map and Distinct act on the values inside each slice (through extendOperator,
 * so a slice left empty is dropped); Limit, Skip and Peek act on whole slices. The
 * `distinct` flag records that the values are already known to be distinct, which turns
 * a later Distinct into the identity.
 */
module Partitioned {
  import opened Wrappers
  import opened Seqs
  import Engine
  import opened Lifecycle
  import St = Stage
  import Transformer

  datatype PartitionedStream<!T> = PartitionedStream(
    supplier: seq<seq<T>>,
    ops: seq<St.PartitionStage<T>>,
    parallel: bool,
    maxRoutines: int,
    distinct: bool,
    status: Status)

  /**
   * The flat stream FlatMap returns. Its record type is declared outside the files this
   * model covers; it carries a supplier, operations on values and the same three
   * settings. The supplier is what invoking it would yield.
   */
  datatype FlatStream<!T> = FlatStream(
    supplier: Evaluation<seq<T>>,
    ops: seq<St.Stage<T>>,
    parallel: bool,
    maxRoutines: int,
    distinct: bool,
    status: Status)

  function FreshAll<T>(ops: seq<St.PartitionStage<T>>): (r: seq<St.PartitionMemory<T>>)
    ensures |r| == |ops|
  {
    seq(|ops|, _ => St.FreshPartition())
  }

  /** The slices the pipeline `ops` keeps of `data`, each stage starting from its fresh state. */
  function Pipeline<T>(ops: seq<St.PartitionStage<T>>, data: seq<seq<T>>): seq<seq<T>> {
    Engine.Collected(St.PartitionStep, ops, FreshAll(ops), data)
  }

  // ---------------------------------------------------------------------------------
  // Derivation and configuration
  // ---------------------------------------------------------------------------------

  /**
   * `newPartitionedStream` (partitioned_stream.go:43-52): closes the receiver and returns
   * an open stream with the same supplier and settings whose operations are the
   * receiver's followed by `op`. The pair is (receiver afterwards, derived stream).
   */
  function NewPartitionedStream<T>(s: PartitionedStream<T>, op: St.PartitionStage<T>)
    : (r: (PartitionedStream<T>, PartitionedStream<T>))
    ensures r.0 == s.(status := Close(s.status)) && r.0.status.closed
    ensures r.1.supplier == s.supplier && r.1.parallel == s.parallel && r.1.maxRoutines == s.maxRoutines
    ensures r.1.distinct == s.distinct && r.1.status == Open
    ensures r.1.ops == s.ops + [op] && r.1.ops[|s.ops|] == op
  {
    (s.(status := Close(s.status)),
     PartitionedStream(s.supplier, s.ops + [op], s.parallel, s.maxRoutines, s.distinct, Open))
  }

  /** Validation, then `newPartitionedStream`: the shape of Filter, Map and Peek. */
  function Derive<T>(s: PartitionedStream<T>, op: St.PartitionStage<T>)
    : (r: Result<(PartitionedStream<T>, PartitionedStream<T>), StreamError>)
    ensures r.Err? <==> !Check(s.status).Ok?
    ensures r.Err? ==> r.error == Check(s.status).error
    ensures r.Ok? ==> r.value == NewPartitionedStream(s, op)
  {
    match Check(s.status)
    case Err(e) => Err(e)
    case Ok(_) => Ok(NewPartitionedStream(s, op))
  }

  /** `Filter` (partitioned_stream.go:151-156): a filter on the values inside each slice. */
  function Filter<T>(s: PartitionedStream<T>, p: T -> bool): (r: Result<(PartitionedStream<T>, PartitionedStream<T>), StreamError>)
    ensures r.Err? <==> !Check(s.status).Ok?
    ensures r.Err? ==> r.error == Check(s.status).error
    ensures r.Ok? ==> r.value.0 == s.(status := Status(false, true))
    ensures r.Ok? ==> r.value.1 == s.(ops := s.ops + [St.Each(St.Filter(p))], status := Open)
  {
    Derive(s, St.Each(St.Filter(p)))
  }

  /**
   * `Map` as written (partitioned_stream.go:120-125): the values inside each slice are
   * mapped, and the derived stream keeps the receiver's `distinct` flag.
   */
  function Map<T>(s: PartitionedStream<T>, f: T -> T): (r: Result<(PartitionedStream<T>, PartitionedStream<T>), StreamError>)
    ensures r == Derive(s, St.Each(St.UniformMap(f)))
    ensures r.Ok? ==> r.value.1.distinct == s.distinct
  {
    Derive(s, St.Each(St.UniformMap(f)))
  }

  /**
   * `Map` as evidently intended: a mapping can make distinct values equal, so the derived
   * stream no longer claims its values are distinct.
   */
  function MapClearingDistinct<T>(s: PartitionedStream<T>, f: T -> T)
    : (r: Result<(PartitionedStream<T>, PartitionedStream<T>), StreamError>)
    ensures r.Err? <==> !Check(s.status).Ok?
    ensures r.Err? ==> r.error == Check(s.status).error
    ensures r.Ok? ==> r.value.0 == NewPartitionedStream(s, St.Each(St.UniformMap(f))).0
    ensures r.Ok? ==> r.value.1 == NewPartitionedStream(s, St.Each(St.UniformMap(f))).1.(distinct := false)
    ensures r.Ok? ==> !r.value.1.distinct
  {
    match Derive(s, St.Each(St.UniformMap(f)))
    case Err(e) => Err(e)
    case Ok((closed, child)) => Ok((closed, child.(distinct := false)))
  }

  /**
   * `Distinct` (partitioned_stream.go:159-166): one distinct stage, whose seen-set is
   * shared by every slice, on the values inside each slice. It is the identity when the
   * receiver's values are already distinct, and the derived stream is flagged distinct.
   */
  function Distinct<T>(s: PartitionedStream<T>, h: T -> string)
    : (r: Result<(PartitionedStream<T>, PartitionedStream<T>), StreamError>)
    ensures r.Err? <==> !Check(s.status).Ok?
    ensures r.Err? ==> r.error == Check(s.status).error
    ensures r.Ok? ==> r.value.0 == NewPartitionedStream(s, St.Each(St.Distinct(s.distinct, h))).0
    ensures r.Ok? ==> r.value.1 == NewPartitionedStream(s, St.Each(St.Distinct(s.distinct, h))).1.(distinct := true)
  {
    match Derive(s, St.Each(St.Distinct(s.distinct, h)))
    case Err(e) => Err(e)
    case Ok((closed, child)) => Ok((closed, child.(distinct := true)))
  }

  /** `Limit` (partitioned_stream.go:169-176): after validation a negative count is an IllegalArgument. */
  function Limit<T>(s: PartitionedStream<T>, n: int): (r: Result<(PartitionedStream<T>, PartitionedStream<T>), StreamError>)
    ensures r.Ok? <==> Check(s.status).Ok? && n >= 0
    ensures !Check(s.status).Ok? ==> r == Err(Check(s.status).error)
    ensures Check(s.status).Ok? && n < 0 ==> r == Err(IllegalArgument)
    ensures r.Ok? ==> r.value == NewPartitionedStream(s, St.Whole(St.Limit(n)))
  {
    if !Check(s.status).Ok? then Err(Check(s.status).error)
    else if n < 0 then Err(IllegalArgument)
    else Ok(NewPartitionedStream(s, St.Whole(St.Limit(n))))
  }

  /** `Skip` (partitioned_stream.go:179-184): unlike Limit, any count is accepted. */
  function Skip<T>(s: PartitionedStream<T>, n: int): (r: Result<(PartitionedStream<T>, PartitionedStream<T>), StreamError>)
    ensures r.Ok? <==> Check(s.status).Ok?
    ensures r == Derive(s, St.Whole(St.Skip(n)))
  {
    Derive(s, St.Whole(St.Skip(n)))
  }

  /** `Peek` (partitioned_stream.go:216-221): the action sees whole slices. */
  function Peek<T>(s: PartitionedStream<T>): (r: Result<(PartitionedStream<T>, PartitionedStream<T>), StreamError>)
    ensures r.Err? <==> !Check(s.status).Ok?
    ensures r.Err? ==> r.error == Check(s.status).error
    ensures r.Ok? ==> r.value.0 == s.(status := Status(false, true))
    ensures r.Ok? ==> r.value.1 == s.(ops := s.ops + [St.Whole(St.Peek)], status := Open)
  {
    Derive(s, St.Whole(St.Peek))
  }

  /**
   * `Parallelize` (partitioned_stream.go:93-104): no validation and no closing; a level of
   * at most 1 is an IllegalConfig, otherwise an open parallel copy with that level.
   */
  function Parallelize<T>(s: PartitionedStream<T>, n: int): (r: Result<PartitionedStream<T>, StreamError>)
    ensures r.Err? <==> n <= 1
    ensures r.Err? ==> r.error == IllegalConfig
    ensures r.Ok? ==> r.value.parallel && r.value.maxRoutines == n && r.value.status == Open
    ensures r.Ok? ==> r.value.supplier == s.supplier && r.value.ops == s.ops && r.value.distinct == s.distinct
  {
    if n <= 1 then Err(IllegalConfig)
    else Ok(PartitionedStream(s.supplier, s.ops, true, n, s.distinct, Open))
  }

  /** A stream can be derived from once; the derived stream can itself be derived from. */
  lemma DeriveTwice<T>(s: PartitionedStream<T>, a: St.PartitionStage<T>, b: St.PartitionStage<T>)
    requires Derive(s, a).Ok?
    ensures Derive(Derive(s, a).value.0, b) == Err(StreamClosed)
    ensures Derive(Derive(s, a).value.1, b).Ok?
  {
  }

  /** Parallelize ignores the receiver's state: even a terminated stream yields an open parallel copy. */
  lemma ParallelizeUnchecked<T>(s: PartitionedStream<T>, n: int)
    requires s.status == Status(true, true) && n >= 2
    ensures Parallelize(s, n).Ok? && Parallelize(s, n).value.status == Open
  {
  }

  // ---------------------------------------------------------------------------------
  // FlatMap and the terminal operations
  // ---------------------------------------------------------------------------------

  /**
   * `FlatMap` (partitioned_stream.go:128-148): the receiver is closed first, by a deferred
   * call, so even a failed validation closes it. On success the flat stream has no
   * operations and its supplier yields the concatenation of the slices the pipeline keeps.
   */
  method FlatMap<T>(s: PartitionedStream<T>) returns (after: PartitionedStream<T>, r: Result<FlatStream<T>, StreamError>)
    ensures after == s.(status := Close(s.status))
    ensures r.Err? <==> !Check(s.status).Ok?
    ensures r.Err? ==> r.error == Check(s.status).error
    ensures r.Ok? ==> r.value.ops == [] && r.value.status == Open
    ensures r.Ok? ==> r.value.parallel == s.parallel && r.value.distinct == s.distinct && r.value.maxRoutines == s.maxRoutines
    ensures r.Ok? && s.parallel ==> r.value.supplier == Delegated(s.maxRoutines)
    ensures r.Ok? && !s.parallel ==> r.value.supplier == Computed(Flatten(Pipeline(s.ops, s.supplier)))
  {
    after := s.(status := Close(s.status));
    if !Check(s.status).Ok? {
      return after, Err(Check(s.status).error);
    }
    var supplier;
    if s.parallel {
      supplier := Delegated(s.maxRoutines);
    } else {
      var _, flat := Transformer.FlatMapSupplier(s.supplier, s.ops, FreshAll(s.ops));
      supplier := Computed(flat);
    }
    r := Ok(FlatStream(supplier, [], s.parallel, s.maxRoutines, s.distinct, Open));
  }

  /** `Collect` (partitioned_stream.go:107-116): the slices the pipeline keeps, in supplier order. */
  method Collect<T>(s: PartitionedStream<T>) returns (after: PartitionedStream<T>, r: Result<Evaluation<seq<seq<T>>>, StreamError>)
    ensures r.Err? <==> !Check(s.status).Ok?
    ensures r.Err? ==> r.error == Check(s.status).error && after == s
    ensures r.Ok? ==> after == s.(status := Status(true, true))
    ensures r.Ok? ==> r.value == if s.parallel then Delegated(s.maxRoutines) else Computed(Pipeline(s.ops, s.supplier))
  {
    if !Check(s.status).Ok? {
      return s, Err(Check(s.status).error);
    }
    after := s.(status := Terminate(s.status));
    if s.parallel {
      return after, Ok(Delegated(s.maxRoutines));
    }
    var _, results := Engine.Collect(St.PartitionStep, s.ops, FreshAll(s.ops), s.supplier);
    r := Ok(Computed(results));
  }

  /** `Count` (partitioned_stream.go:187-197): the number of slices kept, not of values. */
  method Count<T>(s: PartitionedStream<T>) returns (after: PartitionedStream<T>, r: Result<Evaluation<nat>, StreamError>)
    ensures r.Err? <==> !Check(s.status).Ok?
    ensures r.Err? ==> r.error == Check(s.status).error && after == s
    ensures r.Ok? ==> after == s.(status := Status(true, true))
    ensures r.Ok? ==> r.value == if s.parallel then Delegated(s.maxRoutines) else Computed(|Pipeline(s.ops, s.supplier)|)
  {
    if !Check(s.status).Ok? {
      return s, Err(Check(s.status).error);
    }
    after := s.(status := Terminate(s.status));
    if s.parallel {
      return after, Ok(Delegated(s.maxRoutines));
    }
    var _, count := Engine.Count(St.PartitionStep, s.ops, FreshAll(s.ops), s.supplier);
    r := Ok(Computed(count));
  }

  /** `ForEach` (partitioned_stream.go:200-212): the action's calls, one per kept slice. */
  method ForEach<T>(s: PartitionedStream<T>) returns (after: PartitionedStream<T>, r: Result<Evaluation<seq<seq<T>>>, StreamError>)
    ensures r.Err? <==> !Check(s.status).Ok?
    ensures r.Err? ==> r.error == Check(s.status).error && after == s
    ensures r.Ok? ==> after == s.(status := Status(true, true))
    ensures r.Ok? ==> r.value == if s.parallel then Delegated(s.maxRoutines) else Computed(Pipeline(s.ops, s.supplier))
  {
    if !Check(s.status).Ok? {
      return s, Err(Check(s.status).error);
    }
    after := s.(status := Terminate(s.status));
    if s.parallel {
      return after, Ok(Delegated(s.maxRoutines));
    }
    var _, calls := Engine.ForEach(St.PartitionStep, s.ops, FreshAll(s.ops), s.supplier);
    r := Ok(Computed(calls));
  }

  /**
   * `Reduce` (partitioned_stream.go:225-237), which calls the `reduce` of
   * terminal_operator.go:61-74 as written: only a kept first slice seeds the accumulator;
   * every later kept slice is folded in with `f`, onto the nil slice when the first slice
   * was rejected. The validity flag is dropped.
   */
  method Reduce<T>(s: PartitionedStream<T>, f: (seq<T>, seq<T>) -> seq<T>)
    returns (after: PartitionedStream<T>, r: Result<Evaluation<seq<T>>, StreamError>)
    ensures r.Err? <==> !Check(s.status).Ok?
    ensures r.Err? ==> r.error == Check(s.status).error && after == s
    ensures r.Ok? ==> after == s.(status := Status(true, true))
    ensures r.Ok? && s.parallel ==> r.value == Delegated(s.maxRoutines)
    ensures r.Ok? && !s.parallel && |s.supplier| == 0 ==> r.value == Computed([])
    ensures r.Ok? && !s.parallel && |s.supplier| > 0 ==>
              var outs := Engine.Run(St.PartitionStep, s.ops, FreshAll(s.ops), s.supplier).1;
              r.value == Computed(FoldLeft(f, if outs[0].Some? then outs[0].value else [], Engine.Survivors(outs[1..])))
  {
    if !Check(s.status).Ok? {
      return s, Err(Check(s.status).error);
    }
    after := s.(status := Terminate(s.status));
    if s.parallel {
      return after, Ok(Delegated(s.maxRoutines));
    }
    var _, z, _ := Engine.ReduceFromFirst(St.PartitionStep, s.ops, FreshAll(s.ops), s.supplier, f, []);
    r := Ok(Computed(z));
  }

  /**
   * The Reduce the doc comment at partitioned_stream.go:222-223 describes: the seeded
   * fold of `f` over the kept slices, or the nil slice when none is kept.
   */
  method ReduceCorrected<T>(s: PartitionedStream<T>, f: (seq<T>, seq<T>) -> seq<T>)
    returns (after: PartitionedStream<T>, r: Result<Evaluation<seq<T>>, StreamError>)
    ensures r.Err? <==> !Check(s.status).Ok?
    ensures r.Err? ==> r.error == Check(s.status).error && after == s
    ensures r.Ok? ==> after == s.(status := Status(true, true))
    ensures r.Ok? && s.parallel ==> r.value == Delegated(s.maxRoutines)
    ensures r.Ok? && !s.parallel ==>
              var kept := Pipeline(s.ops, s.supplier);
              r.value == Computed(if |kept| == 0 then [] else Engine.SeededFold(f, kept))
  {
    if !Check(s.status).Ok? {
      return s, Err(Check(s.status).error);
    }
    after := s.(status := Terminate(s.status));
    if s.parallel {
      return after, Ok(Delegated(s.maxRoutines));
    }
    var _, z, _ := Engine.Reduce(St.PartitionStep, s.ops, FreshAll(s.ops), s.supplier, f, []);
    r := Ok(Computed(z));
  }

  /** The reducer that keeps its accumulator. */
  function KeepFirst(x: seq<string>, y: seq<string>): seq<string> {
    x
  }

  /** A pipeline of one Skip(1) on whole slices of strings. */
  const SkipOne: seq<St.PartitionStage<string>> := [St.Whole(St.Skip(1))]

  /** Skip(1) over slices `["a"], ["b"]` rejects the first slice and keeps the second. */
  lemma SkipOneSlice()
    ensures Engine.Run(St.PartitionStep, SkipOne, FreshAll(SkipOne), [["a"], ["b"]]).1 == [None, Some(["b"])]
  {
    var data: seq<seq<string>> := [["a"], ["b"]];
    assert FreshAll(SkipOne) == [St.FreshPartition()];
    WholeRun(St.Skip(1), St.FreshPartition(), data);
    St.SkipCalls(1, data);
  }

  /** The survivors of the outcomes Skip(1) leaves: the second slice, in both reduce loops. */
  lemma SkipOneSurvivors()
    ensures Engine.Survivors([Some(["b"])]) == [["b"]]
    ensures Engine.Survivors([None, Some(["b"])]) == [["b"]]
  {
    var rejected: seq<Option<seq<string>>>, kept: seq<Option<seq<string>>> := [None], [Some(["b"])];
    assert rejected[..0] == [] && kept[..0] == [];
    Engine.SurvivorsAppend(rejected, kept);
    assert rejected + kept == [None, Some(["b"])];
  }

  /**
   * Slices `["a"], ["b"]` behind Skip(1), reduced with `f(x, y) = x`: the first slice is
   * skipped, so Reduce as written folds `["b"]` onto the nil slice and returns it, while
   * the corrected fold returns `["b"]`.
   */
  method ReduceAfterSkip() returns (asWritten: Result<Evaluation<seq<string>>, StreamError>,
                                    intended: Result<Evaluation<seq<string>>, StreamError>)
    ensures asWritten == Ok(Computed([]))
    ensures intended == Ok(Computed(["b"]))
  {
    var data: seq<seq<string>> := [["a"], ["b"]];
    var s := PartitionedStream(data, SkipOne, false, 0, false, Open);
    SkipOneSlice();
    SkipOneSurvivors();
    assert [None, Some(["b"])][1..] == [Some(["b"])];
    assert FoldLeft(KeepFirst, [], [["b"]]) == [] by {
      assert [["b"]][..0] == [];
    }
    assert [["b"]][1..] == [];
    var _, a := Reduce(s, KeepFirst);
    var _, b := ReduceCorrected(s, KeepFirst);
    asWritten, intended := a, b;
  }

  // ---------------------------------------------------------------------------------
  // What the stages do to slices
  // ---------------------------------------------------------------------------------

  /** One partition stage over a sequence of slices. */
  function RunStage<T>(op: St.PartitionStage<T>, m: St.PartitionMemory<T>, parts: seq<seq<T>>)
    : (r: (seq<St.PartitionMemory<T>>, seq<Option<seq<T>>>))
    ensures |r.0| == 1 && |r.1| == |parts|
  {
    Engine.Run(St.PartitionStep, [op], [m], parts)
  }

  lemma RunStageSnoc<T>(op: St.PartitionStage<T>, m: St.PartitionMemory<T>, parts: seq<seq<T>>, x: seq<T>)
    ensures RunStage(op, m, parts + [x]) ==
            (var (ms, outs) := RunStage(op, m, parts);
             ([St.PartitionStep(op, ms[0], x).0], outs + [St.PartitionStep(op, ms[0], x).1]))
  {
    var d := parts + [x];
    assert d[..|d| - 1] == parts && d[|d| - 1] == x;
    var (ms, outs) := RunStage(op, m, parts);
    assert ms == [ms[0]];
    Engine.ApplySingle(St.PartitionStep, op, ms[0], x);
  }

  /** Running a stage over `xs + ys` is running it over `xs`, then over `ys` from the state left behind. */
  lemma CallsAppend<T>(st: St.Stage<T>, m: St.Memory<T>, xs: seq<T>, ys: seq<T>)
    ensures St.Calls(st, m, xs + ys) ==
            (var (m1, o1) := St.Calls(st, m, xs);
             var (m2, o2) := St.Calls(st, m1, ys);
             (m2, o1 + o2))
  {
    Engine.RunConcat(St.Step, [st], [m], xs, ys);
    var (ms, _) := Engine.Run(St.Step, [st], [m], xs);
    assert ms == [ms[0]];
  }

  /**
   * A lifted stage over slices is the stage over their concatenation, with the results
   * cut back at the slice boundaries: its state runs on across slices, the kept values are
   * those the stage keeps of all values in order, and no kept slice is empty.
   */
  lemma {:induction false} EachRun<T>(inner: St.Stage<T>, m: St.PartitionMemory<T>, parts: seq<seq<T>>)
    ensures RunStage(St.Each(inner), m, parts).0 == [m.(each := St.Calls(inner, m.each, Flatten(parts)).0)]
    ensures Flatten(Engine.Survivors(RunStage(St.Each(inner), m, parts).1)) ==
            Engine.Survivors(St.Calls(inner, m.each, Flatten(parts)).1)
    ensures forall i :: 0 <= i < |Engine.Survivors(RunStage(St.Each(inner), m, parts).1)| ==>
              |Engine.Survivors(RunStage(St.Each(inner), m, parts).1)[i]| > 0
    decreases |parts|
  {
    if |parts| == 0 {
      assert St.Calls(inner, m.each, []) == (m.each, []);
    } else {
      var init, x := parts[..|parts| - 1], parts[|parts| - 1];
      assert parts == init + [x];
      EachRun(inner, m, init);
      RunStageSnoc(St.Each(inner), m, init, x);
      var (ms, outs) := RunStage(St.Each(inner), m, init);
      var (c1, o1) := St.Calls(inner, m.each, Flatten(init));
      var (c2, o2) := St.Calls(inner, c1, x);
      CallsAppend(inner, m.each, Flatten(init), x);
      FlattenAppend(init, [x]);
      FlattenCons(x, []);
      FlattenKeptSnoc(outs, St.PartitionStep(St.Each(inner), ms[0], x).1, Engine.Survivors(o2));
      Engine.SurvivorsAppend(o1, o2);
    }
  }

  /** A slice kept when non-empty extends the concatenation of the kept slices by itself. */
  lemma FlattenKeptSnoc<T>(outs: seq<Option<seq<T>>>, y: Option<seq<T>>, s: seq<T>)
    requires y == if |s| != 0 then Some(s) else None
    ensures Flatten(Engine.Survivors(outs + [y])) == Flatten(Engine.Survivors(outs)) + s
    ensures (forall i :: 0 <= i < |Engine.Survivors(outs)| ==> |Engine.Survivors(outs)[i]| > 0) ==>
            forall i :: 0 <= i < |Engine.Survivors(outs + [y])| ==> |Engine.Survivors(outs + [y])[i]| > 0
  {
    var kept := Engine.Survivors(outs);
    Engine.SurvivorsAppend(outs, [y]);
    if y.Some? {
      assert Engine.Survivors([y]) == [s];
      FlattenAppend(kept, [s]);
      FlattenCons(s, []);
    } else {
      assert Engine.Survivors([y]) == [];
      assert kept + [] == kept;
    }
  }

  /** A whole-slice stage over slices is that stage applied to each slice as a value. */
  lemma {:induction false} WholeRun<T>(outer: St.Stage<seq<T>>, m: St.PartitionMemory<T>, parts: seq<seq<T>>)
    ensures RunStage(St.Whole(outer), m, parts).0 == [m.(whole := St.Calls(outer, m.whole, parts).0)]
    ensures RunStage(St.Whole(outer), m, parts).1 == St.Calls(outer, m.whole, parts).1
    decreases |parts|
  {
    if |parts| > 0 {
      var init, x := parts[..|parts| - 1], parts[|parts| - 1];
      assert parts == init + [x];
      WholeRun(outer, m, init);
      RunStageSnoc(St.Whole(outer), m, init, x);
      St.CallsSnoc(outer, m.whole, init, x);
    }
  }

  /** Appending a stage runs it, from its fresh state, on the slices the pipeline kept. */
  lemma AppendedStage<T>(ops: seq<St.PartitionStage<T>>, op: St.PartitionStage<T>, data: seq<seq<T>>)
    ensures Pipeline(ops + [op], data) == Engine.Survivors(RunStage(op, St.FreshPartition(), Pipeline(ops, data)).1)
  {
    assert FreshAll(ops + [op]) == FreshAll(ops) + [St.FreshPartition()];
    Engine.RunFusion(St.PartitionStep, ops, [op], FreshAll(ops), [St.FreshPartition()], data);
  }

  /** An appended filter keeps, in order, the values that satisfy it, and drops every slice it empties. */
  lemma FilterInside<T>(ops: seq<St.PartitionStage<T>>, p: T -> bool, data: seq<seq<T>>)
    ensures Flatten(Pipeline(ops + [St.Each(St.Filter(p))], data)) == Kept(p, Flatten(Pipeline(ops, data)))
    ensures forall i :: 0 <= i < |Pipeline(ops + [St.Each(St.Filter(p))], data)| ==>
              |Pipeline(ops + [St.Each(St.Filter(p))], data)[i]| > 0
  {
    var kept := Pipeline(ops, data);
    AppendedStage(ops, St.Each(St.Filter(p)), data);
    EachRun(St.Filter(p), St.FreshPartition(), kept);
    St.KeptIsFilterSurvivors(p, St.Fresh(), Flatten(kept));
  }

  /** An appended map maps every value and keeps every non-empty slice. */
  lemma MapInside<T>(ops: seq<St.PartitionStage<T>>, f: T -> T, data: seq<seq<T>>)
    ensures var flat := Flatten(Pipeline(ops, data));
            Flatten(Pipeline(ops + [St.Each(St.UniformMap(f))], data)) ==
            seq(|flat|, i requires 0 <= i < |flat| => f(flat[i]))
  {
    var kept := Pipeline(ops, data);
    var flat := Flatten(kept);
    AppendedStage(ops, St.Each(St.UniformMap(f)), data);
    EachRun(St.UniformMap(f), St.FreshPartition(), kept);
    St.MapCalls(f, St.Fresh(), flat);
    Engine.SurvivorsExact(St.Calls(St.UniformMap(f), St.Fresh(), flat).1,
                          seq(|flat|, i requires 0 <= i < |flat| => f(flat[i])));
  }

  /**
   * An appended distinct stage shares one seen-set across all slices: the values kept are
   * those a single distinct stage keeps of all values in order, so a key kept in an
   * earlier slice is removed from every later one, and no two kept values share a key.
   */
  lemma DistinctInside<T>(ops: seq<St.PartitionStage<T>>, h: T -> string, data: seq<seq<T>>)
    ensures Flatten(Pipeline(ops + [St.Each(St.Distinct(false, h))], data)) == St.Deduplicated(h, Flatten(Pipeline(ops, data)))
    ensures St.KeysDistinct(h, Flatten(Pipeline(ops + [St.Each(St.Distinct(false, h))], data)))
    ensures St.Keys(h, Flatten(Pipeline(ops + [St.Each(St.Distinct(false, h))], data))) == St.Keys(h, Flatten(Pipeline(ops, data)))
  {
    var kept := Pipeline(ops, data);
    AppendedStage(ops, St.Each(St.Distinct(false, h)), data);
    EachRun(St.Distinct(false, h), St.FreshPartition(), kept);
    St.DeduplicatedKeys(h, Flatten(kept));
  }

  /** On a stream flagged distinct, Distinct passes every value through and only drops empty slices. */
  lemma DistinctWhenFlagged<T>(ops: seq<St.PartitionStage<T>>, h: T -> string, data: seq<seq<T>>)
    ensures Flatten(Pipeline(ops + [St.Each(St.Distinct(true, h))], data)) == Flatten(Pipeline(ops, data))
  {
    var kept := Pipeline(ops, data);
    var flat := Flatten(kept);
    AppendedStage(ops, St.Each(St.Distinct(true, h)), data);
    EachRun(St.Distinct(true, h), St.FreshPartition(), kept);
    St.DistinctCalls(true, h, St.Fresh(), flat);
    Engine.SurvivorsExact(St.Calls(St.Distinct(true, h), St.Fresh(), flat).1, flat);
  }

  /** Limit counts whole slices: it keeps the first `n` slices the pipeline kept. */
  lemma LimitSlices<T>(ops: seq<St.PartitionStage<T>>, n: int, data: seq<seq<T>>)
    requires n >= 0
    ensures var kept := Pipeline(ops, data);
            Pipeline(ops + [St.Whole(St.Limit(n))], data) == kept[..if n < |kept| then n else |kept|]
  {
    var kept := Pipeline(ops, data);
    AppendedStage(ops, St.Whole(St.Limit(n)), data);
    WholeRun(St.Limit(n), St.FreshPartition(), kept);
    St.LimitCalls(n, kept);
    Engine.SurvivorsPrefix(St.Calls(St.Limit(n), St.Fresh(), kept).1, kept, if n < |kept| then n else |kept|);
  }

  /** Skip counts whole slices: it drops the first `n` slices the pipeline kept; a negative count drops none. */
  lemma SkipSlices<T>(ops: seq<St.PartitionStage<T>>, n: int, data: seq<seq<T>>)
    ensures var kept := Pipeline(ops, data);
            Pipeline(ops + [St.Whole(St.Skip(n))], data) == kept[if n <= 0 then 0 else if n < |kept| then n else |kept|..]
  {
    var kept := Pipeline(ops, data);
    var k := if n <= 0 then 0 else if n < |kept| then n else |kept|;
    AppendedStage(ops, St.Whole(St.Skip(n)), data);
    WholeRun(St.Skip(n), St.FreshPartition(), kept);
    St.SkipCalls(n, kept);
    Engine.SurvivorsSuffix(St.Calls(St.Skip(n), St.Fresh(), kept).1, kept, k);
  }

  /** Peek passes every slice through unchanged, its action seeing each kept slice once, in order. */
  lemma PeekSlices<T>(ops: seq<St.PartitionStage<T>>, data: seq<seq<T>>)
    ensures Pipeline(ops + [St.Whole(St.Peek)], data) == Pipeline(ops, data)
    ensures St.Calls(St.Peek, St.Fresh(), Pipeline(ops, data)).0.calls == Pipeline(ops, data)
  {
    var kept := Pipeline(ops, data);
    AppendedStage(ops, St.Whole(St.Peek), data);
    WholeRun(St.Peek, St.FreshPartition(), kept);
    St.PeekCalls(St.Fresh(), kept);
    Engine.SurvivorsExact(St.Calls(St.Peek, St.Fresh(), kept).1, kept);
  }

  // ---------------------------------------------------------------------------------
  // Map and the distinct flag
  // ---------------------------------------------------------------------------------

  function Identity(x: string): string {
    x
  }

  function ToA(x: string): string {
    "a"
  }

  /** Distinct on the two slices `["x"]` and `["y"]` keeps both values. */
  lemma TwoKeysSurvive(d1: St.PartitionStage<string>)
    requires d1 == St.Each(St.Distinct(false, Identity))
    ensures |Flatten(Pipeline([d1], [["x"], ["y"]]))| >= 2
  {
    var data: seq<seq<string>> := [["x"], ["y"]];
    Engine.CollectedNoOps(St.PartitionStep, data);
    assert Pipeline([], data) == data;
    assert Flatten(data) == ["x", "y"] by {
      FlattenCons(["x"], [["y"]]);
      FlattenCons(["y"], []);
    }
    DistinctInside([], Identity, data);
    assert [] + [d1] == [d1];
    var f1 := Flatten(Pipeline([d1], data));
    assert "x" in St.Keys(Identity, ["x", "y"]) && "y" in St.Keys(Identity, ["x", "y"]) by {
      assert Identity(["x", "y"][0]) == "x";
      assert Identity(["x", "y"][1]) == "y";
    }
    var i :| 0 <= i < |f1| && Identity(f1[i]) == "x";
    var j :| 0 <= j < |f1| && Identity(f1[j]) == "y";
    assert i != j;
  }

  /** A map followed by a Distinct that takes the values as already distinct: every value is mapped and none is removed. */
  lemma MapThenFlaggedDistinct<T>(ops: seq<St.PartitionStage<T>>, f: T -> T, h: T -> string, data: seq<seq<T>>)
    ensures var flat := Flatten(Pipeline(ops, data));
            Flatten(Pipeline(ops + [St.Each(St.UniformMap(f)), St.Each(St.Distinct(true, h))], data)) ==
            seq(|flat|, i requires 0 <= i < |flat| => f(flat[i]))
  {
    var mp, d2 := St.Each(St.UniformMap(f)), St.Each(St.Distinct(true, h));
    MapInside(ops, f, data);
    DistinctWhenFlagged(ops + [mp], h, data);
    assert ops + [mp] + [d2] == ops + [mp, d2];
  }

  /**
   * As written, Map keeps the distinct flag, so a Distinct after a Map is the identity:
   * starting from the slices `[["x"], ["y"]]`, Distinct, Map to "a", Distinct leaves two
   * equal values, where a Distinct that ran would leave one.
   */
  lemma MapKeepsDistinctFlag()
    ensures var s0 := PartitionedStream([["x"], ["y"]], [], false, 0, false, Open);
            var s1 := Distinct(s0, Identity).value.1;
            var s2 := Map(s1, ToA).value.1;
            var s3 := Distinct(s2, Identity).value.1;
            var flat := Flatten(Pipeline(s3.ops, s3.supplier));
            s2.distinct && |flat| >= 2 && flat[0] == flat[1] == "a"
  {
    var data: seq<seq<string>> := [["x"], ["y"]];
    var d1 := St.Each(St.Distinct(false, Identity));
    var s0 := PartitionedStream(data, [], false, 0, false, Open);
    var s1 := Distinct(s0, Identity).value.1;
    assert s1.ops == [d1] && s1.distinct && s1.status == Open && s1.supplier == data;
    var s2 := Map(s1, ToA).value.1;
    var s3 := Distinct(s2, Identity).value.1;
    assert s3.ops == [d1] + [St.Each(St.UniformMap(ToA)), St.Each(St.Distinct(true, Identity))];
    TwoKeysSurvive(d1);
    MapThenFlaggedDistinct([d1], ToA, Identity, data);
  }

  /**
   * With the flag cleared by Map, a later Distinct runs: whatever the stream, no two
   * values it keeps share a key.
   */
  lemma DistinctAfterMapClearing<T>(s: PartitionedStream<T>, h: T -> string, f: T -> T)
    requires MapClearingDistinct(s, f).Ok?
    ensures var m := MapClearingDistinct(s, f).value.1;
            Distinct(m, h).Ok? &&
            var d := Distinct(m, h).value.1;
            St.KeysDistinct(h, Flatten(Pipeline(d.ops, d.supplier)))
  {
    var m := MapClearingDistinct(s, f).value.1;
    DistinctInside(m.ops, h, m.supplier);
  }
}
