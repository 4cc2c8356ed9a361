/**
 * The supplier transforms of transformer.go. A Go supplier is a callback evaluated when
 * a terminal operation runs; here it is the data it returns when invoked, and the
 * transformed supplier is the computation that invocation performs.
 */
module Transformer {
  import opened Seqs
  import Engine
  import Stage

  /**
   * `transformSupplier`: invoking the new supplier runs the prior stages over the old
   * supplier's data, then applies `f` to what they kept. The stages' state advances only
   * on that invocation, exactly as a collect would advance it.
   */
  method TransformSupplier<T, U>(supplied: seq<T>, ops: seq<Stage.Stage<T>>, mems: seq<Stage.Memory<T>>,
                                 f: seq<T> -> seq<U>)
    returns (after: seq<Stage.Memory<T>>, r: seq<U>)
    requires |mems| == |ops|
    ensures after == Engine.Run(Stage.Step, ops, mems, supplied).0
    ensures r == f(Engine.Collected(Stage.Step, ops, mems, supplied))
    ensures ops == [] ==> r == f(supplied)
  {
    var kept;
    after, kept := Engine.Collect(Stage.Step, ops, mems, supplied);
    r := f(kept);
    if ops == [] {
      Engine.CollectedNoOps(Stage.Step, supplied);
    }
  }

  /**
   * `partitionSupplierElements`: one slice `f(v)` per element `v` the stages keep, in
   * order, so there are exactly as many slices as the stages keep elements.
   */
  method PartitionSupplierElements<T>(data: seq<T>, ops: seq<Stage.Stage<T>>, mems: seq<Stage.Memory<T>>,
                                      f: T -> seq<T>)
    returns (after: seq<Stage.Memory<T>>, parts: seq<seq<T>>)
    requires |mems| == |ops|
    ensures after == Engine.Run(Stage.Step, ops, mems, data).0
    ensures |parts| == |Engine.Collected(Stage.Step, ops, mems, data)|
    ensures forall i :: 0 <= i < |parts| ==> parts[i] == f(Engine.Collected(Stage.Step, ops, mems, data)[i])
  {
    after, parts := mems, [];
    for i := 0 to |data|
      invariant |after| == |ops|
      invariant after == Engine.Run(Stage.Step, ops, mems, data[..i]).0
      invariant |parts| == |Engine.Collected(Stage.Step, ops, mems, data[..i])|
      invariant forall j :: 0 <= j < |parts| ==> parts[j] == f(Engine.Collected(Stage.Step, ops, mems, data[..i])[j])
    {
      assert data[..i + 1][..i] == data[..i];
      var (m, y) := Engine.Apply(Stage.Step, ops, after, data[i]);
      ghost var kept := Engine.Collected(Stage.Step, ops, mems, data[..i]);
      assert Engine.Collected(Stage.Step, ops, mems, data[..i + 1]) == kept + (if y.Some? then [y.value] else []);
      after := m;
      if y.Some? {
        parts := parts + [f(y.value)];
      }
    }
    assert data[..|data|] == data;
  }

  /**
   * `flatMapSupplier`: invoking it keeps the slices the prior stages accept and joins them
   * with `append` through reduce (with no stages of its own, so every slice reaches the
   * fold). The result is the in-order concatenation of the kept slices, empty when none
   * is kept, and as long as those slices together.
   */
  method FlatMapSupplier<T>(parts: seq<seq<T>>, ops: seq<Stage.PartitionStage<T>>, mems: seq<Stage.PartitionMemory<T>>)
    returns (after: seq<Stage.PartitionMemory<T>>, r: seq<T>)
    requires |mems| == |ops|
    ensures after == Engine.Run(Stage.PartitionStep, ops, mems, parts).0
    ensures r == Flatten(Engine.Collected(Stage.PartitionStep, ops, mems, parts))
    ensures |r| == Sum(Lengths(Engine.Collected(Stage.PartitionStep, ops, mems, parts)))
  {
    var kept;
    after, kept := Engine.Collect(Stage.PartitionStep, ops, mems, parts);
    var none: seq<Stage.PartitionStage<T>> := [];
    var noMems: seq<Stage.PartitionMemory<T>> := [];
    var _, z, _ := Engine.ReduceFromFirst(Stage.PartitionStep, none, noMems, kept, Concat, []);
    r := z;
    Engine.RunNoOps(Stage.PartitionStep, kept);
    if |kept| > 0 {
      var outs := Engine.Run(Stage.PartitionStep, none, noMems, kept).1;
      Engine.SurvivorsAllPresent(outs[1..]);
      assert Engine.Survivors(outs[1..]) == kept[1..];
      FoldAppendFlatten(kept[0], kept[1..]);
      assert kept == [kept[0]] + kept[1..];
      FlattenCons(kept[0], kept[1..]);
    }
    FlattenLengths(kept);
  }
}
