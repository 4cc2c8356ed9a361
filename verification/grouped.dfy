/**
 * The grouped stream (grouped_stream.go): a stream of named groups. It offers no
 * intermediate operations of its own; it carries operations on groups, a parallel
 * setting and the life cycle every stream shares.
 */
module Grouped {
  import opened Wrappers
  import Engine
  import opened Lifecycle
  import St = Stage
  import opened Terminal

  datatype GroupedStream<!T> = GroupedStream(
    supplier: seq<Group<T>>,
    ops: seq<St.Stage<Group<T>>>,
    parallel: bool,
    maxRoutines: int,
    distinct: bool,
    status: Status)

  function FreshAll<T>(ops: seq<St.Stage<Group<T>>>): (r: seq<St.Memory<Group<T>>>)
    ensures |r| == |ops|
  {
    seq(|ops|, _ => St.Fresh())
  }

  /** The groups the operations keep, each operation starting from its fresh state. */
  function Pipeline<T>(ops: seq<St.Stage<Group<T>>>, groups: seq<Group<T>>): seq<Group<T>> {
    Engine.Collected(St.Step, ops, FreshAll(ops), groups)
  }

  /**
   * `Parallelize` (grouped_stream.go:95-105): no validation and no closing; a level of at
   * most 1 is an IllegalConfig. The copy keeps the supplier and the operations, but its
   * `distinct` field is left at Go's zero value, false.
   */
  function Parallelize<T>(s: GroupedStream<T>, n: int): (r: Result<GroupedStream<T>, StreamError>)
    ensures r.Err? <==> n <= 1
    ensures r.Err? ==> r.error == IllegalConfig
    ensures r.Ok? ==> r.value.parallel && r.value.maxRoutines == n && r.value.status == Open && !r.value.distinct
    ensures r.Ok? ==> r.value.supplier == s.supplier && r.value.ops == s.ops
  {
    if n <= 1 then Err(IllegalConfig)
    else Ok(GroupedStream(s.supplier, s.ops, true, n, false, Open))
  }

  /** A parallel copy of a stream flagged distinct is not flagged distinct, and the receiver is left as it was. */
  lemma ParallelizeForgetsDistinct<T>(s: GroupedStream<T>, n: int)
    requires s.distinct && n >= 2
    ensures Parallelize(s, n).Ok? && !Parallelize(s, n).value.distinct
    ensures Parallelize(s, n).value == s.(parallel := true, maxRoutines := n, distinct := false, status := Open)
  {
  }

  /** `Collect` (grouped_stream.go:108-117): the groups the operations keep, in supplier order. */
  method Collect<T>(s: GroupedStream<T>) returns (after: GroupedStream<T>, r: Result<Evaluation<seq<Group<T>>>, StreamError>)
    ensures r.Err? <==> !Check(s.status).Ok?
    ensures r.Err? ==> r.error == Check(s.status).error && after == s
    ensures r.Ok? ==> after == s.(status := Status(true, true))
    ensures r.Ok? ==> r.value == if s.parallel then Delegated(s.maxRoutines) else Computed(Pipeline(s.ops, s.supplier))
  {
    if !Check(s.status).Ok? {
      return s, Err(Check(s.status).error);
    }
    after := s.(status := Terminate(s.status));
    if s.parallel {
      return after, Ok(Delegated(s.maxRoutines));
    }
    var _, results := Engine.Collect(St.Step, s.ops, FreshAll(s.ops), s.supplier);
    r := Ok(Computed(results));
  }

  /**
   * `Count` (grouped_stream.go:120-130): each group name mapped to its group's length,
   * the last group of a name winning. The count is taken of what the supplier returns:
   * the stream's operations are not applied.
   */
  method Count<T>(s: GroupedStream<T>) returns (after: GroupedStream<T>, r: Result<Evaluation<map<string, int>>, StreamError>)
    ensures r.Err? <==> !Check(s.status).Ok?
    ensures r.Err? ==> r.error == Check(s.status).error && after == s
    ensures r.Ok? ==> after == s.(status := Status(true, true))
    ensures r.Ok? && s.parallel ==> r.value == Delegated(s.maxRoutines)
    ensures r.Ok? && !s.parallel ==> r.value.Computed? && r.value.value.Keys == Names(s.supplier)
    ensures r.Ok? && !s.parallel ==>
              forall j :: 0 <= j < |s.supplier| && LastNamed(s.supplier, j) ==>
                r.value.value[s.supplier[j].name] == s.supplier[j].Len()
  {
    if !Check(s.status).Ok? {
      return s, Err(Check(s.status).error);
    }
    after := s.(status := Terminate(s.status));
    if s.parallel {
      return after, Ok(Delegated(s.maxRoutines));
    }
    var counts := GroupCount(s.supplier);
    r := Ok(Computed(counts));
  }

  /** `ForEach` (grouped_stream.go:133-145): the action's calls, one per kept group, in order. */
  method ForEach<T>(s: GroupedStream<T>) returns (after: GroupedStream<T>, r: Result<Evaluation<seq<Group<T>>>, StreamError>)
    ensures r.Err? <==> !Check(s.status).Ok?
    ensures r.Err? ==> r.error == Check(s.status).error && after == s
    ensures r.Ok? ==> after == s.(status := Status(true, true))
    ensures r.Ok? ==> r.value == if s.parallel then Delegated(s.maxRoutines) else Computed(Pipeline(s.ops, s.supplier))
  {
    if !Check(s.status).Ok? {
      return s, Err(Check(s.status).error);
    }
    after := s.(status := Terminate(s.status));
    if s.parallel {
      return after, Ok(Delegated(s.maxRoutines));
    }
    var _, calls := Engine.ForEach(St.Step, s.ops, FreshAll(s.ops), s.supplier);
    r := Ok(Computed(calls));
  }

  /** With no operations, Collect returns exactly the supplier's groups. */
  lemma CollectWithoutStages<T>(groups: seq<Group<T>>)
    ensures Pipeline([], groups) == groups
  {
    Engine.CollectedNoOps(St.Step, groups);
    assert FreshAll<T>([]) == [];
  }

  /**
   * Count disagrees with Collect once a filter is in place: the groups a filter rejects are
   * still counted. A filter that rejects every group leaves nothing to collect, while
   * Count still reports every supplied name.
   */
  lemma CountSeesRejectedGroups<T>(groups: seq<Group<T>>)
    requires |groups| > 0
    ensures Pipeline([St.Filter((g: Group<T>) => false)], groups) == []
    ensures groups[0].name in Names(groups)
  {
    var p := (g: Group<T>) => false;
    assert FreshAll([St.Filter(p)]) == [St.Fresh()];
    St.FilterCalls(p, St.Fresh(), groups);
    Engine.SurvivorsNonePresent(St.Calls(St.Filter(p), St.Fresh(), groups).1);
    assert Terminal.NamesUpTo(groups, |groups|) == Names(groups);
    assert groups[0].name in NamesUpTo(groups, |groups|);
  }
}
