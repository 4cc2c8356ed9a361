/**
 * What the operator reordering of package `operator` preserves (operator/operator.go:197-242).
 *
 * A pipeline made only of filters and distincts keeps the elements that pass every filter,
 * and of those only the first occurrences when some distinct removes repeats. That
 * description does not depend on the order of the operators, so swapping a commuting
 * pair, and `Sort` as a whole, leave what a pipeline collects unchanged. Distinct compares
 * values for equality here; with a caller's coarser `equals` the swap can change the
 * result, which the last part of this module shows.
 */
module Reordering {
  import opened Wrappers
  import opened Seqs
  import Engine
  import opened Operator
  import opened Optimizer

  /** What `ops` keeps of `xs`, each operator starting from its fresh state. */
  function Outcome<T(==)>(ops: seq<IntermediateOperator<T>>, xs: seq<T>): seq<T> {
    Engine.Collected(Step, ops, FreshAll(ops), xs)
  }

  predicate FiltersAndDistincts<T>(ops: seq<IntermediateOperator<T>>) {
    forall i :: 0 <= i < |ops| ==> ops[i].Filter? || ops[i].Distinct?
  }

  /** `x` satisfies every filter of `ops`. */
  predicate Passes<T>(ops: seq<IntermediateOperator<T>>, x: T) {
    forall i :: 0 <= i < |ops| && ops[i].Filter? ==> ops[i].pred(x)
  }

  /** Some distinct of `ops` removes repeats (one built as already distinct does not). */
  predicate Dedups<T>(ops: seq<IntermediateOperator<T>>) {
    exists i :: 0 <= i < |ops| && ops[i].Distinct? && !ops[i].alreadyDistinct
  }

  /**
   * The elements of `xs` a pipeline of filters and distincts keeps: those passing every
   * filter, and, when some distinct removes repeats, only their first occurrences.
   */
  function Expected<T(==)>(ops: seq<IntermediateOperator<T>>, xs: seq<T>): seq<T>
    decreases |xs|
  {
    if |xs| == 0 then []
    else
      var init, x := xs[..|xs| - 1], xs[|xs| - 1];
      Expected(ops, init) + (if Passes(ops, x) && (!Dedups(ops) || x !in init) then [x] else [])
  }

  /** The first occurrence of every value of `xs`, in order. */
  function Dedup<T(==)>(xs: seq<T>): seq<T>
    decreases |xs|
  {
    if |xs| == 0 then []
    else
      var init, x := xs[..|xs| - 1], xs[|xs| - 1];
      Dedup(init) + (if x in init then [] else [x])
  }

  // ---------------------------------------------------------------------------------
  // Facts about Expected
  // ---------------------------------------------------------------------------------

  lemma ExpectedSnoc<T>(ops: seq<IntermediateOperator<T>>, xs: seq<T>, x: T)
    ensures Expected(ops, xs + [x]) ==
            Expected(ops, xs) + (if Passes(ops, x) && (!Dedups(ops) || x !in xs) then [x] else [])
  {
    assert (xs + [x])[..|xs|] == xs;
  }

  lemma DedupSnoc<T>(xs: seq<T>, x: T)
    ensures Dedup(xs + [x]) == Dedup(xs) + (if x in xs then [] else [x])
  {
    assert (xs + [x])[..|xs|] == xs;
  }

  /** A value is kept somewhere exactly when it passes every filter and occurs in the input. */
  lemma {:induction false} ExpectedMembers<T>(ops: seq<IntermediateOperator<T>>, xs: seq<T>, y: T)
    ensures y in Expected(ops, xs) <==> Passes(ops, y) && y in xs
    decreases |xs|
  {
    if |xs| > 0 {
      var init, x := xs[..|xs| - 1], xs[|xs| - 1];
      assert xs == init + [x];
      ExpectedSnoc(ops, init, x);
      ExpectedMembers(ops, init, y);
    }
  }

  /** Two pipelines with the same filters' conjunction and the same deduplication keep the same elements. */
  lemma {:induction false} ExpectedAgree<T>(a: seq<IntermediateOperator<T>>, b: seq<IntermediateOperator<T>>, xs: seq<T>)
    requires forall y :: Passes(a, y) == Passes(b, y)
    requires Dedups(a) == Dedups(b)
    ensures Expected(a, xs) == Expected(b, xs)
    decreases |xs|
  {
    if |xs| > 0 {
      ExpectedAgree(a, b, xs[..|xs| - 1]);
    }
  }

  /** With no operators every element is kept. */
  lemma {:induction false} ExpectedNoOps<T>(xs: seq<T>)
    ensures Expected([], xs) == xs
    decreases |xs|
  {
    if |xs| > 0 {
      var init, x := xs[..|xs| - 1], xs[|xs| - 1];
      ExpectedNoOps(init);
      assert Passes([], x);
      assert !Dedups<T>([]);
      assert init + [x] == xs;
    }
  }

  lemma PassesSnoc<T>(ops: seq<IntermediateOperator<T>>, op: IntermediateOperator<T>, y: T)
    ensures Passes(ops + [op], y) == (Passes(ops, y) && (op.Filter? ==> op.pred(y)))
  {
    var ops' := ops + [op];
    if Passes(ops, y) && (op.Filter? ==> op.pred(y)) {
      forall i | 0 <= i < |ops'| && ops'[i].Filter?
        ensures ops'[i].pred(y)
      {
        if i < |ops| {
          assert ops'[i] == ops[i];
        }
      }
    }
    if Passes(ops', y) {
      forall i | 0 <= i < |ops| && ops[i].Filter?
        ensures ops[i].pred(y)
      {
        assert ops'[i] == ops[i];
      }
      assert ops'[|ops|] == op;
    }
  }

  lemma DedupsSnoc<T>(ops: seq<IntermediateOperator<T>>, op: IntermediateOperator<T>)
    ensures Dedups(ops + [op]) == (Dedups(ops) || (op.Distinct? && !op.alreadyDistinct))
  {
    var ops' := ops + [op];
    if Dedups(ops) {
      var i :| 0 <= i < |ops| && ops[i].Distinct? && !ops[i].alreadyDistinct;
      assert ops'[i] == ops[i];
    }
    assert ops'[|ops|] == op;
    if Dedups(ops') {
      var i :| 0 <= i < |ops'| && ops'[i].Distinct? && !ops'[i].alreadyDistinct;
      if i < |ops| {
        assert ops[i] == ops'[i];
      }
    }
  }

  // ---------------------------------------------------------------------------------
  // One operator from its fresh state
  // ---------------------------------------------------------------------------------

  lemma SurvivorsOne<T>(o: Option<T>)
    ensures Engine.Survivors([o]) == if o.Some? then [o.value] else []
  {
    assert [o][..0] == [];
  }

  /** Survivors of one more call: those before it, then its result if kept. */
  lemma CallsSurvivorsSnoc<T>(op: IntermediateOperator<T>, m: Memory<T>, ys: seq<T>, y: T)
    ensures var (m1, outs) := Calls(op, m, ys);
            Engine.Survivors(Calls(op, m, ys + [y]).1) == Engine.Survivors(outs) + Engine.Survivors([Step(op, m1, y).1])
  {
    var (m1, outs) := Calls(op, m, ys);
    CallsSnoc(op, m, ys, y);
    Engine.SurvivorsAppend(outs, [Step(op, m1, y).1]);
  }

  /** A filter keeps exactly the values satisfying its predicate, in order. */
  lemma {:induction false} FilterSurvivors<T>(p: T -> bool, m: Memory<T>, ys: seq<T>)
    ensures Engine.Survivors(Calls(Filter(p), m, ys).1) == Kept(p, ys)
    decreases |ys|
  {
    if |ys| > 0 {
      var init, y := ys[..|ys| - 1], ys[|ys| - 1];
      assert ys == init + [y];
      FilterSurvivors(p, m, init);
      CallsSurvivorsSnoc(Filter(p), m, init, y);
      SurvivorsOne(Step(Filter(p), Calls(Filter(p), m, init).0, y).1);
      KeptSnoc(p, init, y);
    }
  }

  /** A distinct built as already distinct keeps everything. */
  lemma {:induction false} KeepAllSurvivors<T>(m: Memory<T>, ys: seq<T>)
    ensures Engine.Survivors(Calls(Distinct(true), m, ys).1) == ys
    decreases |ys|
  {
    if |ys| > 0 {
      var init, y := ys[..|ys| - 1], ys[|ys| - 1];
      assert ys == init + [y];
      KeepAllSurvivors(m, init);
      CallsSurvivorsSnoc(Distinct(true), m, init, y);
      SurvivorsOne(Step(Distinct(true), Calls(Distinct(true), m, init).0, y).1);
    }
  }

  /** A fresh distinct keeps the first occurrence of every value. */
  lemma {:induction false} DistinctSurvivors<T>(ys: seq<T>)
    ensures Engine.Survivors(Calls(Distinct(false), Fresh(), ys).1) == Dedup(ys)
    decreases |ys|
  {
    if |ys| > 0 {
      var init, y := ys[..|ys| - 1], ys[|ys| - 1];
      assert ys == init + [y];
      DistinctSurvivors(init);
      DistinctSeen(false, Fresh(), init);
      assert y in (set z | z in init) <==> y in init;
      CallsSurvivorsSnoc(Distinct(false), Fresh(), init, y);
      SurvivorsOne(Step(Distinct(false), Calls(Distinct(false), Fresh(), init).0, y).1);
      DedupSnoc(init, y);
    }
  }

  // ---------------------------------------------------------------------------------
  // Pipelines of filters and distincts
  // ---------------------------------------------------------------------------------

  /** Running `a + b` keeps what `b` keeps of what `a` keeps. */
  lemma OutcomeFusion<T>(a: seq<IntermediateOperator<T>>, b: seq<IntermediateOperator<T>>, xs: seq<T>)
    ensures Outcome(a + b, xs) == Outcome(b, Outcome(a, xs))
  {
    assert FreshAll(a + b) == FreshAll(a) + FreshAll(b);
    Engine.RunFusion(Step, a, b, FreshAll(a), FreshAll(b), xs);
  }

  lemma OutcomeOne<T>(op: IntermediateOperator<T>, ys: seq<T>)
    ensures Outcome([op], ys) == Engine.Survivors(Calls(op, Fresh(), ys).1)
  {
    assert FreshAll([op]) == [Fresh()];
  }

  /** An appended filter narrows the kept elements to those satisfying it. */
  lemma {:induction false} FilterStep<T>(init: seq<IntermediateOperator<T>>, ops: seq<IntermediateOperator<T>>,
                                         p: T -> bool, xs: seq<T>)
    requires forall y :: Passes(ops, y) == (Passes(init, y) && p(y))
    requires Dedups(ops) == Dedups(init)
    ensures Kept(p, Expected(init, xs)) == Expected(ops, xs)
    decreases |xs|
  {
    if |xs| > 0 {
      var xs', x := xs[..|xs| - 1], xs[|xs| - 1];
      assert xs == xs' + [x];
      FilterStep(init, ops, p, xs');
      ExpectedSnoc(init, xs', x);
      ExpectedSnoc(ops, xs', x);
      var e := Expected(init, xs');
      if Passes(init, x) && (!Dedups(init) || x !in xs') {
        KeptSnoc(p, e, x);
      } else {
        assert e + [] == e;
      }
    }
  }

  /** An appended deduplicating distinct keeps only the first occurrences. */
  lemma {:induction false} DistinctStep<T>(init: seq<IntermediateOperator<T>>, ops: seq<IntermediateOperator<T>>, xs: seq<T>)
    requires forall y :: Passes(ops, y) == Passes(init, y)
    requires Dedups(ops)
    ensures Dedup(Expected(init, xs)) == Expected(ops, xs)
    decreases |xs|
  {
    if |xs| > 0 {
      var xs', x := xs[..|xs| - 1], xs[|xs| - 1];
      assert xs == xs' + [x];
      DistinctStep(init, ops, xs');
      ExpectedSnoc(init, xs', x);
      ExpectedSnoc(ops, xs', x);
      var e := Expected(init, xs');
      if Passes(init, x) && (!Dedups(init) || x !in xs') {
        DedupSnoc(e, x);
        ExpectedMembers(init, xs', x);
      } else {
        assert e + [] == e;
      }
    }
  }

  /**
   * Every pipeline of filters and distincts, each starting fresh, keeps exactly the
   * elements `Expected` describes.
   */
  lemma {:induction false} FiltersAndDistinctsKeep<T>(ops: seq<IntermediateOperator<T>>, xs: seq<T>)
    requires FiltersAndDistincts(ops)
    ensures Outcome(ops, xs) == Expected(ops, xs)
    decreases |ops|
  {
    if |ops| == 0 {
      Engine.CollectedNoOps(Step, xs);
      ExpectedNoOps(xs);
      assert FreshAll<T>([]) == [];
    } else {
      var init, op := ops[..|ops| - 1], ops[|ops| - 1];
      assert ops == init + [op];
      assert FiltersAndDistincts(init) by {
        forall i | 0 <= i < |init|
          ensures init[i].Filter? || init[i].Distinct?
        {
          assert init[i] == ops[i];
        }
      }
      FiltersAndDistinctsKeep(init, xs);
      OutcomeFusion(init, [op], xs);
      var e := Expected(init, xs);
      OutcomeOne(op, e);
      forall y
        ensures Passes(ops, y) == (Passes(init, y) && (op.Filter? ==> op.pred(y)))
      {
        PassesSnoc(init, op, y);
      }
      DedupsSnoc(init, op);
      match op {
        case Filter(p) =>
          FilterSurvivors(p, Fresh(), e);
          FilterStep(init, ops, p, xs);
        case Distinct(already) =>
          if already {
            KeepAllSurvivors(Fresh(), e);
            ExpectedAgree(init, ops, xs);
          } else {
            DistinctSurvivors(e);
            DistinctStep(init, ops, xs);
          }
      }
    }
  }

  /**
   * `commutative` (operator/operator.go:197-208) keeps its promise `(ab)*x = (ba)*x`:
   * two operators it reports as commuting keep the same elements in either order.
   */
  lemma CommutingPairSwaps<T>(a: IntermediateOperator<T>, b: IntermediateOperator<T>, xs: seq<T>)
    requires Commutative(a, b)
    ensures Outcome([a, b], xs) == Outcome([b, a], xs)
  {
    assert [a] + [b] == [a, b] && [b] + [a] == [b, a];
    assert [] + [a] == [a] && [] + [b] == [b];
    forall y
      ensures Passes([a, b], y) == Passes([b, a], y)
    {
      PassesSnoc([], a, y);
      PassesSnoc([], b, y);
      PassesSnoc([a], b, y);
      PassesSnoc([b], a, y);
    }
    DedupsSnoc([], a);
    DedupsSnoc([], b);
    DedupsSnoc([a], b);
    DedupsSnoc([b], a);
    FiltersAndDistinctsKeep([a, b], xs);
    FiltersAndDistinctsKeep([b, a], xs);
    ExpectedAgree([a, b], [b, a], xs);
  }

  /**
   * Rearranging the filters and distincts of `ops[lo..hi]` (slot k of `r` takes position
   * idx[k], and every position is taken) keeps the same elements.
   */
  lemma PermutedKeep<T>(ops: seq<IntermediateOperator<T>>, lo: nat, hi: nat, r: seq<IntermediateOperator<T>>,
                        idx: seq<nat>, xs: seq<T>)
    requires lo <= hi <= |ops| && |r| == |idx| == hi - lo
    requires FiltersAndDistincts(ops[lo..hi])
    requires forall k :: 0 <= k < |r| ==> lo <= idx[k] < hi && r[k] == ops[idx[k]]
    requires forall j :: lo <= j < hi ==> j in idx
    ensures Outcome(r, xs) == Outcome(ops[lo..hi], xs)
  {
    var seg := ops[lo..hi];
    assert FiltersAndDistincts(r) by {
      forall k | 0 <= k < |r|
        ensures r[k].Filter? || r[k].Distinct?
      {
        assert r[k] == seg[idx[k] - lo];
      }
    }
    forall y
      ensures Passes(r, y) == Passes(seg, y)
    {
      if Passes(seg, y) {
        forall k | 0 <= k < |r| && r[k].Filter?
          ensures r[k].pred(y)
        {
          assert r[k] == seg[idx[k] - lo];
        }
      }
      if Passes(r, y) {
        forall i | 0 <= i < |seg| && seg[i].Filter?
          ensures seg[i].pred(y)
        {
          assert lo + i in idx;
          var k :| 0 <= k < |idx| && idx[k] == lo + i;
          assert r[k] == seg[i];
        }
      }
    }
    if Dedups(seg) {
      var i :| 0 <= i < |seg| && seg[i].Distinct? && !seg[i].alreadyDistinct;
      assert lo + i in idx;
      var k :| 0 <= k < |idx| && idx[k] == lo + i;
      assert r[k] == seg[i];
    }
    if Dedups(r) {
      var k :| 0 <= k < |r| && r[k].Distinct? && !r[k].alreadyDistinct;
      assert r[k] == seg[idx[k] - lo];
    }
    FiltersAndDistinctsKeep(r, xs);
    FiltersAndDistinctsKeep(seg, xs);
    ExpectedAgree(r, seg, xs);
  }

  // ---------------------------------------------------------------------------------
  // Sort keeps what the pipeline collects
  // ---------------------------------------------------------------------------------

  /** The run starting at a run boundary i is maximal and ends where RunEnd says. */
  lemma RunFrom<T>(ops: seq<IntermediateOperator<T>>, i: nat)
    requires i < |ops| && !Commutes(ops, i - 1)
    ensures MaximalRun(ops, i, RunEnd(Links(ops), i))
  {
    var link := Links(ops);
    var e := RunEnd(link, i);
    RunEndSpec(link, i);
    forall k | i <= k < e
      ensures Commutes(ops, k)
    {
      assert Linked(link, k);
    }
    assert !Linked(link, e);
  }

  /** Inside a run of two or more positions every operator is a filter or a distinct. */
  lemma RunOfFiltersAndDistincts<T>(ops: seq<IntermediateOperator<T>>, s: nat, e: nat)
    requires MaximalRun(ops, s, e) && s < e
    ensures FiltersAndDistincts(ops[s..e + 1])
  {
    var run := ops[s..e + 1];
    forall k | 0 <= k < |run|
      ensures run[k].Filter? || run[k].Distinct?
    {
      assert run[k] == ops[s + k];
      if s + k < e {
        assert Commutes(ops, s + k);
      } else {
        assert Commutes(ops, s + k - 1);
      }
    }
  }

  /** A rearrangement of the positions lo..hi-1 holds only those positions, and each of them. */
  lemma RangePermutation(idx: seq<nat>, lo: nat, hi: nat)
    requires lo <= hi && multiset(idx) == multiset(Range(lo, hi))
    ensures forall k :: 0 <= k < |idx| ==> lo <= idx[k] < hi
    ensures forall j :: lo <= j < hi ==> j in idx
  {
    RangeMembers(idx, lo, hi);
    forall j | lo <= j < hi
      ensures j in idx
    {
      assert Range(lo, hi)[j - lo] == j;
      assert j in multiset(Range(lo, hi));
    }
  }

  /**
   * Slots s..e of a rearrangement `sorted` of `ops` (slot i takes position sidx[i]) keep
   * what ops[s..e] keeps when those slots take exactly the positions s..e and these are
   * all filters and distincts.
   */
  lemma SlotsKeep<T>(ops: seq<IntermediateOperator<T>>, s: nat, e: nat, sorted: seq<IntermediateOperator<T>>,
                     sidx: seq<nat>, ys: seq<T>)
    requires s <= e < |ops| && |sorted| == |sidx| == |ops| && Below(sidx, |ops|)
    requires forall i :: 0 <= i < |sorted| ==> sorted[i] == ops[sidx[i]]
    requires multiset(sidx[s..e + 1]) == multiset(Range(s, e + 1))
    requires FiltersAndDistincts(ops[s..e + 1])
    ensures Outcome(sorted[s..e + 1], ys) == Outcome(ops[s..e + 1], ys)
  {
    var slots, idx := sorted[s..e + 1], sidx[s..e + 1];
    RangePermutation(idx, s, e + 1);
    forall k | 0 <= k < |slots|
      ensures slots[k] == ops[idx[k]]
    {
      assert slots[k] == sorted[s + k] && idx[k] == sidx[s + k];
    }
    PermutedKeep(ops, s, e + 1, slots, idx, ys);
  }

  /** A run of two or more commuting operators: its sorted slots keep what the run keeps. */
  lemma SortedLongRunKeeps<T>(ops: seq<IntermediateOperator<T>>, s: nat, e: nat, ys: seq<T>)
    requires MaximalRun(ops, s, e) && s < e
    ensures Outcome(Sort(ops)[s..e + 1], ys) == Outcome(ops[s..e + 1], ys)
  {
    SortSortsRuns(ops, s, e);
    RunOfFiltersAndDistincts(ops, s, e);
    SlotsKeep(ops, s, e, Sort(ops), SortIndices(ops), ys);
  }

  /** The slots of the maximal run s..e keep what the run itself keeps. */
  lemma SortedRunKeeps<T>(ops: seq<IntermediateOperator<T>>, s: nat, e: nat, ys: seq<T>)
    requires MaximalRun(ops, s, e)
    ensures Outcome(Sort(ops)[s..e + 1], ys) == Outcome(ops[s..e + 1], ys)
  {
    if s < e {
      SortedLongRunKeeps(ops, s, e, ys);
    } else {
      var sorted := Sort(ops);
      SortKeepsIsolated(ops, s);
      assert sorted[s..s + 1] == [sorted[s]] == [ops[s]] == ops[s..s + 1];
    }
  }

  /** A pipeline split at any position keeps what its second part keeps of the first part's result. */
  lemma SplitKeeps<T>(r: seq<IntermediateOperator<T>>, i: nat, j: nat, ys: seq<T>)
    requires i <= j <= |r|
    ensures Outcome(r[i..], ys) == Outcome(r[j..], Outcome(r[i..j], ys))
  {
    assert r[i..] == r[i..j] + r[j..];
    OutcomeFusion(r[i..j], r[j..], ys);
  }

  /**
   * Two pipelines of equal length whose slots i..j-1 keep the same: from i on, each keeps
   * what its own tail from j keeps of that common result.
   */
  lemma SplitBoth<T>(ops: seq<IntermediateOperator<T>>, sorted: seq<IntermediateOperator<T>>, i: nat, j: nat, ys: seq<T>)
    requires i <= j <= |ops| == |sorted|
    requires Outcome(sorted[i..j], ys) == Outcome(ops[i..j], ys)
    ensures Outcome(sorted[i..], ys) == Outcome(sorted[j..], Outcome(ops[i..j], ys))
    ensures Outcome(ops[i..], ys) == Outcome(ops[j..], Outcome(ops[i..j], ys))
  {
    SplitKeeps(sorted, i, j, ys);
    SplitKeeps(ops, i, j, ys);
  }

  /** From a run boundary on, the sorted pipeline keeps what the original keeps. */
  lemma {:induction false} SortFrom<T>(ops: seq<IntermediateOperator<T>>, i: nat, ys: seq<T>)
    requires i <= |ops| && !Commutes(ops, i - 1)
    ensures Outcome(Sort(ops)[i..], ys) == Outcome(ops[i..], ys)
    decreases |ops| - i
  {
    if i == |ops| {
      assert Sort(ops)[i..] == [] == ops[i..];
    } else {
      var e := RunEnd(Links(ops), i);
      var sorted, mid := Sort(ops), Outcome(ops[i..e + 1], ys);
      assert e + 1 <= |ops| && !Commutes(ops, e) && |sorted| == |ops| by {
        RunFrom(ops, i);
      }
      assert Outcome(sorted[i..], ys) == Outcome(sorted[e + 1..], mid)
          && Outcome(ops[i..], ys) == Outcome(ops[e + 1..], mid) by {
        RunFrom(ops, i);
        SortedRunKeeps(ops, i, e, ys);
        SplitBoth(ops, sorted, i, e + 1, ys);
      }
      SortFrom(ops, e + 1, mid);
    }
  }

  /**
   * `Sort` (operator/operator.go:210-242) keeps its promise to yield the same results as
   * its input: the reordered pipeline collects exactly what the original collects.
   */
  lemma SortKeepsResults<T>(ops: seq<IntermediateOperator<T>>, xs: seq<T>)
    ensures Outcome(Sort(ops), xs) == Outcome(ops, xs)
  {
    SortFrom(ops, 0, xs);
    assert Sort(ops)[0..] == Sort(ops) && ops[0..] == ops;
  }

  // ---------------------------------------------------------------------------------
  // Distinct under a caller's equality
  // ---------------------------------------------------------------------------------

  /**
   * Distinct of package operator (operator/operator.go:57-76) under a caller's `equals`
   * that holds exactly between values with the same key: it keeps the first value of
   * every key.
   */
  function DistinctBy<T, K(==)>(key: T -> K, xs: seq<T>): seq<T>
    decreases |xs|
  {
    if |xs| == 0 then []
    else
      var init, x := xs[..|xs| - 1], xs[|xs| - 1];
      DistinctBy(key, init) + (if KeySeen(key, init, x) then [] else [x])
  }

  /** Some value of `xs` is equal to `x` under the key. */
  predicate KeySeen<T, K(==)>(key: T -> K, xs: seq<T>, x: T) {
    exists j :: 0 <= j < |xs| && key(xs[j]) == key(x)
  }

  lemma DistinctBySnoc<T, K>(key: T -> K, xs: seq<T>, x: T)
    ensures DistinctBy(key, xs + [x]) == DistinctBy(key, xs) + (if KeySeen(key, xs, x) then [] else [x])
  {
    assert (xs + [x])[..|xs|] == xs;
  }

  lemma {:induction false} KeptMembers<T>(p: T -> bool, xs: seq<T>, y: T)
    ensures y in Kept(p, xs) <==> y in xs && p(y)
    decreases |xs|
  {
    if |xs| > 0 {
      var init, x := xs[..|xs| - 1], xs[|xs| - 1];
      assert xs == init + [x];
      KeptSnoc(p, init, x);
      KeptMembers(p, init, y);
    }
  }

  /** When the filter never separates equal values, a value is seen among the kept ones iff it is seen at all. */
  lemma KeySeenKept<T, K>(key: T -> K, p: T -> bool, xs: seq<T>, x: T)
    requires forall y, z :: key(y) == key(z) ==> p(y) == p(z)
    requires p(x)
    ensures KeySeen(key, Kept(p, xs), x) <==> KeySeen(key, xs, x)
  {
    var ks := Kept(p, xs);
    if KeySeen(key, ks, x) {
      var j :| 0 <= j < |ks| && key(ks[j]) == key(x);
      KeptMembers(p, xs, ks[j]);
      var i :| 0 <= i < |xs| && xs[i] == ks[j];
    }
    if KeySeen(key, xs, x) {
      var i :| 0 <= i < |xs| && key(xs[i]) == key(x);
      KeptMembers(p, xs, xs[i]);
      var j :| 0 <= j < |ks| && ks[j] == xs[i];
    }
  }

  /**
   * The swap `commutative` allows is sound when the filter never separates values the
   * caller's `equals` identifies (as with value equality, which the rest of this model
   * uses): filtering then deduplicating keeps what deduplicating then filtering keeps.
   */
  lemma {:induction false} FilterRespectingEqualsCommutes<T, K>(key: T -> K, p: T -> bool, xs: seq<T>)
    requires forall y, z :: key(y) == key(z) ==> p(y) == p(z)
    ensures DistinctBy(key, Kept(p, xs)) == Kept(p, DistinctBy(key, xs))
    decreases |xs|
  {
    if |xs| > 0 {
      var init, x := xs[..|xs| - 1], xs[|xs| - 1];
      assert xs == init + [x];
      FilterRespectingEqualsCommutes(key, p, init);
      KeptSnoc(p, init, x);
      DistinctBySnoc(key, init, x);
      var d := DistinctBy(key, init);
      if p(x) {
        DistinctBySnoc(key, Kept(p, init), x);
        KeySeenKept(key, p, init, x);
        if !KeySeen(key, init, x) {
          KeptSnoc(p, d, x);
        } else {
          assert d + [] == d;
        }
      } else {
        assert Kept(p, init) + [] == Kept(p, init);
        if !KeySeen(key, init, x) {
          KeptSnoc(p, d, x);
        } else {
          assert d + [] == d;
        }
      }
    }
  }

  /**
   * As written, `commutative` lets a filter and a distinct trade places whatever the
   * caller's `equals`. With `equals` comparing parity and the filter `x > 1`, the two
   * orders keep different elements of [1, 3].
   */
  lemma CoarseEqualsBreaksSwap()
    ensures Commutative(Filter((x: int) => x > 1), Distinct(false))
    ensures var parity, big := (x: int) => x % 2, (x: int) => x > 1;
            DistinctBy(parity, Kept(big, [1, 3])) == [3] && Kept(big, DistinctBy(parity, [1, 3])) == []
  {
    var parity, big := (x: int) => x % 2, (x: int) => x > 1;
    assert [1, 3][..1] == [1] && [1][..0] == [];
    assert KeySeen(parity, [1], 3) by { assert parity([1][0]) == parity(3); }
    assert Kept(big, [1]) == [];
    assert DistinctBy(parity, [1, 3]) == [1];
    assert Kept(big, [1, 3]) == [3];
  }
}
