/**
 * The intermediate operators of package `operator` (operator/operator.go).
 *
 * Each operator is a unary step `x -> (x', keep)`. The Go closures keep private state
 * (the Limit/Skip counter, the Distinct membership set); here that state is an explicit
 * `Memory` value threaded from one application to the next. Peek's action is observed
 * through the record of the arguments it was called with. The Concurrent* constructors
 * guard the same state with a mutex or an atomic counter, so for any single-threaded
 * sequence of calls they are these same operators.
 */
module Operator {
  import opened Wrappers
  import Engine

  const FilterName := "filter"
  const LimitName := "limit"
  const SkipName := "skip"
  const DistinctName := "distinct"
  const PeekName := "peek"
  const MapName := "map"

  const FilterCost := 1
  const DistinctCost := 2

  datatype IntermediateOperator<!T> =
    | Filter(pred: T -> bool)
    | Distinct(alreadyDistinct: bool)
    | Limit(n: int)
    | Skip(n: int)
    | Peek
    | Map(f: T -> T)
  {
    function Name(): string {
      match this
      case Filter(_) => FilterName
      case Distinct(_) => DistinctName
      case Limit(_) => LimitName
      case Skip(_) => SkipName
      case Peek => PeekName
      case Map(_) => MapName
    }

    /** Declared cost; operators that set none keep Go's zero value. */
    function Cost(): int {
      match this
      case Filter(_) => FilterCost
      case Distinct(_) => DistinctCost
      case _ => 0
    }

    predicate Stateful() {
      Distinct? || Limit? || Skip?
    }
  }

  /**
   * The private state of one operator instance: the Limit/Skip counter, the Distinct
   * seen-set and the arguments Peek's action has received so far.
   */
  datatype Memory<T> = Memory(count: nat, seen: set<T>, calls: seq<T>)

  /** The state of a freshly constructed operator. */
  function Fresh<T>(): Memory<T> {
    Memory(0, {}, [])
  }

  function FreshAll<T>(ops: seq<IntermediateOperator<T>>): (r: seq<Memory<T>>)
    ensures |r| == |ops|
  {
    seq(|ops|, _ => Fresh())
  }

  /** The Go pair `(T, bool)` an operator returns, with the operator's new state. */
  datatype Applied<T> = Applied(mem: Memory<T>, value: T, keep: bool)

  /** One call of the operator's `apply` (operator/operator.go:47-196). */
  function Apply<T(==)>(op: IntermediateOperator<T>, m: Memory<T>, x: T): Applied<T> {
    match op
    case Filter(p) => Applied(m, x, p(x))
    case Distinct(already) =>
      if already then Applied(m, x, true)
      else if x in m.seen then Applied(m, x, false)
      else Applied(m.(seen := m.seen + {x}), x, true)
    case Limit(n) =>
      if m.count < n then Applied(m.(count := m.count + 1), x, true) else Applied(m, x, false)
    case Skip(n) =>
      if m.count < n then Applied(m.(count := m.count + 1), x, false) else Applied(m, x, true)
    case Peek => Applied(m.(calls := m.calls + [x]), x, true)
    case Map(f) => Applied(m, f(x), true)
  }

  /** `Apply` in the engine's shape: a rejected element yields `None`. */
  function Step<T(==)>(op: IntermediateOperator<T>, m: Memory<T>, x: T): (Memory<T>, Option<T>) {
    var a := Apply(op, m, x);
    (a.mem, if a.keep then Some(a.value) else None)
  }

  /** The outcomes and final state of one operator applied to `xs`, one call per element. */
  function Calls<T(==)>(op: IntermediateOperator<T>, m: Memory<T>, xs: seq<T>): (Memory<T>, seq<Option<T>>) {
    Engine.RunOne(Step, op, m, xs)
  }

  lemma CallsSnoc<T>(op: IntermediateOperator<T>, m: Memory<T>, xs: seq<T>, x: T)
    ensures Calls(op, m, xs + [x]) ==
            (var (m1, outs) := Calls(op, m, xs); (Step(op, m1, x).0, outs + [Step(op, m1, x).1]))
  {
    Engine.RunOneSnoc(Step, op, m, xs, x);
  }

  /** commutative (operator/operator.go:199-208): a filter and a distinct commute, in either order. */
  function Commutative<T>(a: IntermediateOperator<T>, b: IntermediateOperator<T>): (r: bool)
    ensures r <==> (a.Filter? && b.Distinct?) || (a.Distinct? && b.Filter?)
  {
    if a.Name() == FilterName then b.Name() == DistinctName
    else if a.Name() == DistinctName then b.Name() == FilterName
    else false
  }

  // ---------------------------------------------------------------------------------
  // Each operator over a sequence of calls
  // ---------------------------------------------------------------------------------

  /** Filter keeps its input unchanged exactly when the predicate holds and never changes state. */
  lemma {:induction false} FilterCalls<T>(p: T -> bool, m: Memory<T>, xs: seq<T>)
    ensures Calls(Filter(p), m, xs).0 == m
    ensures forall i :: 0 <= i < |xs| ==>
              Calls(Filter(p), m, xs).1[i] == (if p(xs[i]) then Some(xs[i]) else None)
    decreases |xs|
  {
    if |xs| > 0 {
      var xs', x := xs[..|xs| - 1], xs[|xs| - 1];
      assert xs == xs' + [x];
      FilterCalls(p, m, xs');
      CallsSnoc(Filter(p), m, xs', x);
    }
  }

  /** Map keeps every element and passes on its image. */
  lemma {:induction false} MapCalls<T>(f: T -> T, m: Memory<T>, xs: seq<T>)
    ensures Calls(Map(f), m, xs).0 == m
    ensures forall i :: 0 <= i < |xs| ==> Calls(Map(f), m, xs).1[i] == Some(f(xs[i]))
    decreases |xs|
  {
    if |xs| > 0 {
      var xs', x := xs[..|xs| - 1], xs[|xs| - 1];
      assert xs == xs' + [x];
      MapCalls(f, m, xs');
      CallsSnoc(Map(f), m, xs', x);
    }
  }

  /** Peek keeps every element unchanged and its action receives each one, once, in call order. */
  lemma {:induction false} PeekCalls<T>(m: Memory<T>, xs: seq<T>)
    ensures Calls(Peek, m, xs).0 == m.(calls := m.calls + xs)
    ensures forall i :: 0 <= i < |xs| ==> Calls(Peek, m, xs).1[i] == Some(xs[i])
    decreases |xs|
  {
    if |xs| == 0 {
      assert m.calls + xs == m.calls;
    } else {
      var xs', x := xs[..|xs| - 1], xs[|xs| - 1];
      assert xs == xs' + [x];
      PeekCalls(m, xs');
      CallsSnoc(Peek, m, xs', x);
      assert m.calls + xs' + [x] == m.calls + xs;
    }
  }

  /** The counter after `k` calls of Limit(n) or Skip(n) started at `c`: it stops at `n`. */
  function Counted(c: nat, n: int, k: nat): nat {
    if c < n then (if c + k < n then c + k else n) else c
  }

  /** Limit(n) keeps exactly the calls made while fewer than n elements have been kept. */
  lemma {:induction false} LimitCalls<T>(n: int, m: Memory<T>, xs: seq<T>)
    ensures Calls(Limit(n), m, xs).0 == m.(count := Counted(m.count, n, |xs|))
    ensures forall i :: 0 <= i < |xs| ==>
              Calls(Limit(n), m, xs).1[i] == (if m.count + i < n then Some(xs[i]) else None)
    decreases |xs|
  {
    if |xs| > 0 {
      var xs', x := xs[..|xs| - 1], xs[|xs| - 1];
      assert xs == xs' + [x];
      LimitCalls(n, m, xs');
      CallsSnoc(Limit(n), m, xs', x);
    }
  }

  /** Skip(n) rejects exactly the calls made while fewer than n elements have been skipped. */
  lemma {:induction false} SkipCalls<T>(n: int, m: Memory<T>, xs: seq<T>)
    ensures Calls(Skip(n), m, xs).0 == m.(count := Counted(m.count, n, |xs|))
    ensures forall i :: 0 <= i < |xs| ==>
              Calls(Skip(n), m, xs).1[i] == (if m.count + i < n then None else Some(xs[i]))
    decreases |xs|
  {
    if |xs| > 0 {
      var xs', x := xs[..|xs| - 1], xs[|xs| - 1];
      assert xs == xs' + [x];
      SkipCalls(n, m, xs');
      CallsSnoc(Skip(n), m, xs', x);
    }
  }

  /** Distinct(false) records every element it sees; Distinct(true) records nothing. */
  lemma {:induction false} DistinctSeen<T>(already: bool, m: Memory<T>, xs: seq<T>)
    ensures Calls(Distinct(already), m, xs).0 ==
            (if already then m else m.(seen := m.seen + set y | y in xs))
    decreases |xs|
  {
    if |xs| > 0 {
      var xs', x := xs[..|xs| - 1], xs[|xs| - 1];
      assert xs == xs' + [x];
      DistinctSeen(already, m, xs');
      CallsSnoc(Distinct(already), m, xs', x);
      assert (set y | y in xs) == (set y | y in xs') + {x};
    }
  }

  /**
   * Distinct(false) keeps an element exactly when no equal element was kept before (by
   * an earlier call or in the starting seen-set); Distinct(true) keeps everything.
   */
  lemma {:induction false} DistinctCalls<T>(already: bool, m: Memory<T>, xs: seq<T>)
    ensures Calls(Distinct(already), m, xs).0 ==
            (if already then m else m.(seen := m.seen + set y | y in xs))
    ensures forall i :: 0 <= i < |xs| ==>
              Calls(Distinct(already), m, xs).1[i] ==
              (if !already && (xs[i] in m.seen || xs[i] in xs[..i]) then None else Some(xs[i]))
    decreases |xs|
  {
    DistinctSeen(already, m, xs);
    if |xs| > 0 {
      var xs', x := xs[..|xs| - 1], xs[|xs| - 1];
      assert xs == xs' + [x];
      DistinctCalls(already, m, xs');
      CallsSnoc(Distinct(already), m, xs', x);
      assert x in (set y | y in xs') <==> x in xs';
      var outs := Calls(Distinct(already), m, xs).1;
      forall i | 0 <= i < |xs|
        ensures outs[i] == (if !already && (xs[i] in m.seen || xs[i] in xs[..i]) then None else Some(xs[i]))
      {
        if i < |xs'| {
          assert xs[..i] == xs'[..i];
        } else {
          assert xs[..i] == xs';
        }
      }
    }
  }
}
