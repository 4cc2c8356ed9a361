/**
 * The stage operators of the root package (operator.go), which the partitioned and
 * grouped streams and the terminal helpers of terminal_operator.go run.
 *
 * As with package `operator`, each stage is a unary step `x -> (x', keep)` whose private
 * closure state (the limit/skip counter, the distinct set of hash keys, the arguments the
 * peek action has seen) is an explicit `Memory`. The mutex branches of `limit`, `skip` and
 * `distinct` guard the same state and behave like the plain branches for any
 * single-threaded sequence of calls, so they are not separate cases here.
 */
module Stage {
  import opened Wrappers
  import opened Seqs
  import Engine

  const FilterName := "FILTER"
  const PeekName := "PEEK"
  const MapName := "MAP"
  const SkipName := "SKIP"
  const LimitName := "LIMIT"
  const DistinctName := "DISTINCT"

  datatype Stage<!T> =
    | Filter(pred: T -> bool)
    | Peek
    | UniformMap(f: T -> T)
    | Limit(n: int)
    | Skip(n: int)
    | Distinct(alreadyDistinct: bool, hash: T -> string)
  {
    function Name(): string {
      match this
      case Filter(_) => FilterName
      case Peek => PeekName
      case UniformMap(_) => MapName
      case Limit(_) => LimitName
      case Skip(_) => SkipName
      case Distinct(_, _) => DistinctName
    }

    /** limit, skip and distinct (even the already-distinct identity) are flagged stateful. */
    predicate Stateful() {
      Limit? || Skip? || Distinct?
    }
  }

  /** The counter, the recorded hash keys and the peek action's arguments so far. */
  datatype Memory<T> = Memory(count: nat, seen: set<string>, calls: seq<T>)

  function Fresh<T>(): Memory<T> {
    Memory(0, {}, [])
  }

  /** One call of the stage's `apply` (operator.go:42-188); `None` is Go's `(zero, false)`. */
  function Step<T>(st: Stage<T>, m: Memory<T>, x: T): (Memory<T>, Option<T>) {
    match st
    case Filter(p) => (m, if p(x) then Some(x) else None)
    case Peek => (m.(calls := m.calls + [x]), Some(x))
    case UniformMap(f) => (m, Some(f(x)))
    case Limit(n) => if m.count >= n then (m, None) else (m.(count := m.count + 1), Some(x))
    case Skip(n) => if m.count < n then (m.(count := m.count + 1), None) else (m, Some(x))
    case Distinct(already, h) =>
      if already then (m, Some(x))
      else if h(x) in m.seen then (m, None)
      else (m.(seen := m.seen + {h(x)}), Some(x))
  }

  /** The final memory and the outcomes of one stage applied to `xs`, one call per element. */
  function Calls<T>(st: Stage<T>, m: Memory<T>, xs: seq<T>): (r: (Memory<T>, seq<Option<T>>))
    ensures |r.1| == |xs|
  {
    Engine.RunOne(Step, st, m, xs)
  }

  lemma CallsSnoc<T>(st: Stage<T>, m: Memory<T>, xs: seq<T>, x: T)
    ensures Calls(st, m, xs + [x]) ==
            (var (m1, outs) := Calls(st, m, xs); (Step(st, m1, x).0, outs + [Step(st, m1, x).1]))
  {
    Engine.RunOneSnoc(Step, st, m, xs, x);
  }

  /** The hash keys of the elements of `xs`. */
  function Keys<T>(h: T -> string, xs: seq<T>): set<string> {
    set i | 0 <= i < |xs| :: h(xs[i])
  }

  lemma KeysSnoc<T>(h: T -> string, xs: seq<T>, x: T)
    ensures Keys(h, xs + [x]) == Keys(h, xs) + {h(x)}
  {
    var s := xs + [x];
    forall k | k in Keys(h, s)
      ensures k in Keys(h, xs) + {h(x)}
    {
      var i :| 0 <= i < |s| && h(s[i]) == k;
      if i < |xs| {
        assert s[i] == xs[i];
      }
    }
    forall k | k in Keys(h, xs)
      ensures k in Keys(h, s)
    {
      var i :| 0 <= i < |xs| && h(xs[i]) == k;
      assert s[i] == xs[i];
    }
    assert s[|xs|] == x;
  }

  // ---------------------------------------------------------------------------------
  // Each stage over a sequence of calls
  // ---------------------------------------------------------------------------------

  /** filter keeps x unchanged exactly when the predicate holds; it has no state. */
  lemma {:induction false} FilterCalls<T>(p: T -> bool, m: Memory<T>, xs: seq<T>)
    ensures Calls(Filter(p), m, xs).0 == m
    ensures forall i :: 0 <= i < |xs| ==>
              Calls(Filter(p), m, xs).1[i] == (if p(xs[i]) then Some(xs[i]) else None)
    decreases |xs|
  {
    if |xs| > 0 {
      var xs', x := xs[..|xs| - 1], xs[|xs| - 1];
      assert xs == xs' + [x];
      FilterCalls(p, m, xs');
      CallsSnoc(Filter(p), m, xs', x);
    }
  }

  /** uniformMap keeps every element and passes on its image; it has no state. */
  lemma {:induction false} MapCalls<T>(f: T -> T, m: Memory<T>, xs: seq<T>)
    ensures Calls(UniformMap(f), m, xs).0 == m
    ensures forall i :: 0 <= i < |xs| ==> Calls(UniformMap(f), m, xs).1[i] == Some(f(xs[i]))
    decreases |xs|
  {
    if |xs| > 0 {
      var xs', x := xs[..|xs| - 1], xs[|xs| - 1];
      assert xs == xs' + [x];
      MapCalls(f, m, xs');
      CallsSnoc(UniformMap(f), m, xs', x);
    }
  }

  /** peek keeps every element unchanged, after handing it to its action, in call order. */
  lemma {:induction false} PeekCalls<T>(m: Memory<T>, xs: seq<T>)
    ensures Calls(Peek, m, xs).0 == m.(calls := m.calls + xs)
    ensures forall i :: 0 <= i < |xs| ==> Calls(Peek, m, xs).1[i] == Some(xs[i])
    decreases |xs|
  {
    if |xs| == 0 {
      assert m.calls + xs == m.calls;
    } else {
      var xs', x := xs[..|xs| - 1], xs[|xs| - 1];
      assert xs == xs' + [x];
      PeekCalls(m, xs');
      CallsSnoc(Peek, m, xs', x);
      assert m.calls + xs' + [x] == m.calls + xs;
    }
  }

  /**
   * limit(_, n) from a fresh counter keeps exactly the first n calls and returns
   * `(zero, false)` for every later one; a negative n keeps nothing.
   */
  lemma {:induction false} LimitCalls<T>(n: int, xs: seq<T>)
    ensures Calls(Limit(n), Fresh(), xs).0.count == (if n <= 0 then 0 else if |xs| < n then |xs| else n)
    ensures forall i :: 0 <= i < |xs| ==> Calls(Limit(n), Fresh(), xs).1[i] == (if i < n then Some(xs[i]) else None)
    decreases |xs|
  {
    if |xs| > 0 {
      var xs', x := xs[..|xs| - 1], xs[|xs| - 1];
      assert xs == xs' + [x];
      LimitCalls(n, xs');
      CallsSnoc(Limit(n), Fresh(), xs', x);
    }
  }

  /**
   * skip(_, n) from a fresh counter returns `(zero, false)` for exactly the first n calls
   * and keeps every later one; a negative n keeps everything.
   */
  lemma {:induction false} SkipCalls<T>(n: int, xs: seq<T>)
    ensures Calls(Skip(n), Fresh(), xs).0.count == (if n <= 0 then 0 else if |xs| < n then |xs| else n)
    ensures forall i :: 0 <= i < |xs| ==> Calls(Skip(n), Fresh(), xs).1[i] == (if i < n then None else Some(xs[i]))
    decreases |xs|
  {
    if |xs| > 0 {
      var xs', x := xs[..|xs| - 1], xs[|xs| - 1];
      assert xs == xs' + [x];
      SkipCalls(n, xs');
      CallsSnoc(Skip(n), Fresh(), xs', x);
    }
  }

  /**
   * distinct(_, false, hash) keeps x exactly when hash(x) was not recorded before (by an
   * earlier kept element or in the starting set) and records it; distinct(_, true, _)
   * keeps everything and records nothing.
   */
  lemma {:induction false} DistinctCalls<T>(already: bool, h: T -> string, m: Memory<T>, xs: seq<T>)
    ensures Calls(Distinct(already, h), m, xs).0 == (if already then m else m.(seen := m.seen + Keys(h, xs)))
    ensures forall i :: 0 <= i < |xs| ==>
              Calls(Distinct(already, h), m, xs).1[i] ==
              (if !already && (h(xs[i]) in m.seen || h(xs[i]) in Keys(h, xs[..i])) then None else Some(xs[i]))
    decreases |xs|
  {
    if |xs| > 0 {
      var xs', x := xs[..|xs| - 1], xs[|xs| - 1];
      assert xs == xs' + [x];
      DistinctCalls(already, h, m, xs');
      CallsSnoc(Distinct(already, h), m, xs', x);
      KeysSnoc(h, xs', x);
      var (m1, outs) := Calls(Distinct(already, h), m, xs');
      assert Calls(Distinct(already, h), m, xs).1 == outs + [Step(Distinct(already, h), m1, x).1];
      forall i | 0 <= i < |xs'|
        ensures xs[..i] == xs'[..i] && xs[i] == xs'[i]
      {
      }
      assert xs[..|xs'|] == xs';
    }
  }

  // ---------------------------------------------------------------------------------
  // Two distinct stages in a row
  // ---------------------------------------------------------------------------------

  /** No two elements of `s` share a hash key. */
  predicate KeysDistinct<T>(h: T -> string, s: seq<T>) {
    forall i, j :: 0 <= i < j < |s| ==> h(s[i]) != h(s[j])
  }

  /** What a fresh distinct(_, false, h) stage keeps of `xs`. */
  function Deduplicated<T>(h: T -> string, xs: seq<T>): seq<T> {
    Engine.Survivors(Calls(Distinct(false, h), Fresh(), xs).1)
  }

  /** What a fresh distinct stage keeps has no repeated key and covers every key of `xs`. */
  lemma {:induction false} DeduplicatedKeys<T>(h: T -> string, xs: seq<T>)
    ensures KeysDistinct(h, Deduplicated(h, xs))
    ensures Keys(h, Deduplicated(h, xs)) == Keys(h, xs)
    ensures Calls(Distinct(false, h), Fresh(), xs).0.seen == Keys(h, xs)
    decreases |xs|
  {
    if |xs| > 0 {
      var xs', x := xs[..|xs| - 1], xs[|xs| - 1];
      assert xs == xs' + [x];
      DeduplicatedKeys(h, xs');
      CallsSnoc(Distinct(false, h), Fresh(), xs', x);
      var (m1, outs) := Calls(Distinct(false, h), Fresh(), xs');
      var y := Step(Distinct(false, h), m1, x).1;
      Engine.SurvivorsAppend(outs, [y]);
      KeysSnoc(h, xs', x);
      var d := Deduplicated(h, xs');
      if y.Some? {
        assert Engine.Survivors([y]) == [x];
        assert Deduplicated(h, xs) == d + [x];
        KeysSnoc(h, d, x);
        forall i | 0 <= i < |d|
          ensures h(d[i]) != h(x)
        {
          assert h(d[i]) in Keys(h, d);
        }
      } else {
        assert Engine.Survivors([y]) == [];
        assert Deduplicated(h, xs) == d + [] == d;
      }
    }
  }

  /** A fresh distinct stage keeps every element of a sequence without repeated keys. */
  lemma {:induction false} DistinctKeepsDistinct<T>(h: T -> string, s: seq<T>)
    requires KeysDistinct(h, s)
    ensures Deduplicated(h, s) == s
  {
    var outs := Calls(Distinct(false, h), Fresh(), s).1;
    DistinctCalls(false, h, Fresh(), s);
    forall i | 0 <= i < |s|
      ensures outs[i] == Some(s[i])
    {
      assert h(s[i]) !in Keys(h, s[..i]) by {
        forall k | 0 <= k < i
          ensures h(s[..i][k]) != h(s[i])
        {
          assert s[..i][k] == s[k];
        }
      }
    }
    Engine.SurvivorsAllPresent(outs);
  }

  /**
   * Two consecutive distinct stages with the same hash, both fresh, accept exactly the
   * elements a single one accepts (operator.go:147-188).
   */
  lemma {:induction false} DistinctTwice<T>(h: T -> string, xs: seq<T>)
    ensures Engine.Collected(Step, [Distinct(false, h), Distinct(false, h)], [Fresh(), Fresh()], xs)
         == Deduplicated(h, xs)
  {
    var d := Distinct(false, h);
    Engine.RunFusion(Step, [d], [d], [Fresh()], [Fresh()], xs);
    assert [d] + [d] == [d, d];
    assert [Fresh<T>()] + [Fresh()] == [Fresh(), Fresh()];
    DeduplicatedKeys(h, xs);
    DistinctKeepsDistinct(h, Deduplicated(h, xs));
  }

  // ---------------------------------------------------------------------------------
  // extendOperator: a stage lifted from elements to slices
  // ---------------------------------------------------------------------------------

  /**
   * `extendOperator(f)` applied to one slice (operator.go:24-39): `f` is called on every
   * value in order, sharing `f`'s state, and the slice of its kept results is kept when it
   * is non-empty.
   */
  function Extend<T>(inner: Stage<T>, m: Memory<T>, values: seq<T>): (r: (Memory<T>, Option<seq<T>>))
    ensures r.1.Some? ==> |r.1.value| > 0
  {
    var (m', outs) := Calls(inner, m, values);
    var results := Engine.Survivors(outs);
    (m', if |results| != 0 then Some(results) else None)
  }

  /** The Go loop of extendOperator, which computes `Extend`. */
  method ExtendLoop<T>(inner: Stage<T>, m: Memory<T>, values: seq<T>) returns (after: Memory<T>, results: seq<T>, ok: bool)
    ensures after == Extend(inner, m, values).0
    ensures ok <==> Extend(inner, m, values).1.Some?
    ensures ok ==> results == Extend(inner, m, values).1.value
    ensures !ok ==> results == []
  {
    after, results := m, [];
    for i := 0 to |values|
      invariant after == Calls(inner, m, values[..i]).0
      invariant results == Engine.Survivors(Calls(inner, m, values[..i]).1)
    {
      CallsSnoc(inner, m, values[..i], values[i]);
      assert values[..i + 1] == values[..i] + [values[i]];
      var outs := Calls(inner, m, values[..i]).1;
      var (m', y) := Step(inner, after, values[i]);
      Engine.SurvivorsAppend(outs, [y]);
      after := m';
      if y.Some? {
        assert Engine.Survivors([y]) == [y.value];
        results := results + [y.value];
      } else {
        assert Engine.Survivors([y]) == [];
        assert results + [] == results;
      }
    }
    assert values[..|values|] == values;
    ok := |results| != 0;
  }

  /**
   * A lifted filter keeps a slice exactly when some value satisfies the predicate, and
   * then passes on the values that do, in order.
   */
  lemma {:induction false} ExtendFilter<T>(p: T -> bool, m: Memory<T>, values: seq<T>)
    ensures Extend(Filter(p), m, values).0 == m
    ensures Extend(Filter(p), m, values).1 == (if Kept(p, values) == [] then None else Some(Kept(p, values)))
    decreases |values|
  {
    FilterCalls(p, m, values);
    KeptIsFilterSurvivors(p, m, values);
  }

  lemma {:induction false} KeptIsFilterSurvivors<T>(p: T -> bool, m: Memory<T>, values: seq<T>)
    ensures Engine.Survivors(Calls(Filter(p), m, values).1) == Kept(p, values)
    decreases |values|
  {
    if |values| > 0 {
      var v', v := values[..|values| - 1], values[|values| - 1];
      assert values == v' + [v];
      KeptIsFilterSurvivors(p, m, v');
      FilterCalls(p, m, v');
      CallsSnoc(Filter(p), m, v', v);
      var outs := Calls(Filter(p), m, v').1;
      Engine.SurvivorsAppend(outs, [if p(v) then Some(v) else None]);
      if p(v) {
        assert Engine.Survivors([Some(v)]) == [v];
      } else {
        assert Engine.Survivors<T>([None]) == [];
        assert Kept(p, v') + [] == Kept(p, v');
      }
    }
  }

  /** A lifted map keeps every non-empty slice and maps each of its values. */
  lemma {:induction false} ExtendMap<T>(f: T -> T, m: Memory<T>, values: seq<T>)
    ensures Extend(UniformMap(f), m, values).0 == m
    ensures Extend(UniformMap(f), m, values).1 ==
            (if |values| == 0 then None else Some(seq(|values|, i requires 0 <= i < |values| => f(values[i]))))
  {
    MapCalls(f, m, values);
    var outs := Calls(UniformMap(f), m, values).1;
    Engine.SurvivorsAllPresent(outs);
    assert Engine.Survivors(outs) == seq(|values|, i requires 0 <= i < |values| => f(values[i]));
  }

  // ---------------------------------------------------------------------------------
  // The stages of a partitioned stream
  // ---------------------------------------------------------------------------------

  /**
   * A stage of a stream whose elements are slices: either an element stage lifted by
   * extendOperator (filter, map, distinct) or a stage acting on whole slices (limit,
   * skip, peek).
   */
  datatype PartitionStage<!T> =
    | Each(inner: Stage<T>)
    | Whole(outer: Stage<seq<T>>)
  {
    /** extendOperator copies the name and the stateful flag of the lifted stage. */
    function Name(): string {
      match this
      case Each(inner) => inner.Name()
      case Whole(outer) => outer.Name()
    }

    predicate Stateful() {
      match this
      case Each(inner) => inner.Stateful()
      case Whole(outer) => outer.Stateful()
    }
  }

  /** The state of a partition stage: that of its lifted or its whole-slice stage. */
  datatype PartitionMemory<T> = PartitionMemory(each: Memory<T>, whole: Memory<seq<T>>)

  function FreshPartition<T>(): PartitionMemory<T> {
    PartitionMemory(Fresh(), Fresh())
  }

  function PartitionStep<T>(st: PartitionStage<T>, m: PartitionMemory<T>, xs: seq<T>): (PartitionMemory<T>, Option<seq<T>>) {
    match st
    case Each(inner) =>
      var (m', y) := Extend(inner, m.each, xs);
      (m.(each := m'), y)
    case Whole(outer) =>
      var (m', y) := Step(outer, m.whole, xs);
      (m.(whole := m'), y)
  }
}
