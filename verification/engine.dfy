/**
 * The sequential pipeline engine shared by both operator generations of the library.
 *
 * A pipeline is a sequence of operators `ops` together with one memory per operator
 * (a counter, a seen-set, a record of calls: whatever the Go closure keeps privately).
 * `step(op, m, x)` is one operator acting on one element: it returns the operator's new
 * memory and either the element it passes on or `None` when it rejects the element.
 */
module Engine {
  import opened Wrappers
  import opened Seqs

  /**
   * One element through the whole pipeline, left to right. The first operator that
   * rejects stops the evaluation: the operators after it are never invoked, so their
   * memories are returned untouched.
   */
  function Apply<O, M, E>(step: (O, M, E) -> (M, Option<E>), ops: seq<O>, mems: seq<M>, x: E)
    : (r: (seq<M>, Option<E>))
    requires |mems| == |ops|
    ensures |r.0| == |ops|
    decreases |ops|
  {
    if |ops| == 0 then (mems, Some(x))
    else
      var (m0, y) := step(ops[0], mems[0], x);
      match y
      case None => ([m0] + mems[1..], None)
      case Some(v) =>
        var (rest, z) := Apply(step, ops[1..], mems[1..], v);
        ([m0] + rest, z)
  }

  /**
   * The elements of `data`, one after another, through the pipeline. Every element sees
   * the memories left behind by the elements before it. Returns the final memories and
   * the per-element outcomes.
   */
  function Run<O, M, E>(step: (O, M, E) -> (M, Option<E>), ops: seq<O>, mems: seq<M>, data: seq<E>)
    : (r: (seq<M>, seq<Option<E>>))
    requires |mems| == |ops|
    ensures |r.0| == |ops| && |r.1| == |data|
    decreases |data|
  {
    if |data| == 0 then (mems, [])
    else
      var (ms, outs) := Run(step, ops, mems, data[..|data| - 1]);
      var (ms', y) := Apply(step, ops, ms, data[|data| - 1]);
      (ms', outs + [y])
  }

  /** The values of the outcomes that are present, in order. */
  function Survivors<E>(outs: seq<Option<E>>): (r: seq<E>)
    decreases |outs|
  {
    if |outs| == 0 then []
    else Survivors(outs[..|outs| - 1]) + (if outs[|outs| - 1].Some? then [outs[|outs| - 1].value] else [])
  }

  /** The survivors of running `data` through the pipeline. */
  function Collected<O, M, E>(step: (O, M, E) -> (M, Option<E>), ops: seq<O>, mems: seq<M>, data: seq<E>): seq<E>
    requires |mems| == |ops|
  {
    Survivors(Run(step, ops, mems, data).1)
  }

  /** The fold the Go reducers compute when the first survivor seeds the accumulator. */
  function SeededFold<E>(f: (E, E) -> E, s: seq<E>): E
    requires |s| > 0
  {
    FoldLeft(f, s[0], s[1..])
  }

  // ---------------------------------------------------------------------------------
  // Structural facts about Apply, Run and Survivors
  // ---------------------------------------------------------------------------------

  lemma {:induction false} SurvivorsAppend<E>(a: seq<Option<E>>, b: seq<Option<E>>)
    ensures Survivors(a + b) == Survivors(a) + Survivors(b)
    decreases |b|
  {
    if |b| == 0 {
      assert a + b == a;
    } else {
      assert (a + b)[..|a + b| - 1] == a + b[..|b| - 1];
      SurvivorsAppend(a, b[..|b| - 1]);
    }
  }

  /** A survivor list is exactly as long as the number of present outcomes. */
  lemma {:induction false} SurvivorsAllPresent<E>(outs: seq<Option<E>>)
    requires forall i :: 0 <= i < |outs| ==> outs[i].Some?
    ensures Survivors(outs) == seq(|outs|, i requires 0 <= i < |outs| => outs[i].value)
    decreases |outs|
  {
    if |outs| > 0 {
      SurvivorsAllPresent(outs[..|outs| - 1]);
    }
  }

  lemma {:induction false} SurvivorsNonePresent<E>(outs: seq<Option<E>>)
    requires forall i :: 0 <= i < |outs| ==> outs[i].None?
    ensures Survivors(outs) == []
    decreases |outs|
  {
    if |outs| > 0 {
      SurvivorsNonePresent(outs[..|outs| - 1]);
    }
  }

  /** Outcomes all present with the values of `xs` survive as `xs`. */
  lemma {:induction false} SurvivorsExact<E>(outs: seq<Option<E>>, xs: seq<E>)
    requires |outs| == |xs|
    requires forall i :: 0 <= i < |outs| ==> outs[i] == Some(xs[i])
    ensures Survivors(outs) == xs
    decreases |xs|
  {
    if |xs| > 0 {
      SurvivorsExact(outs[..|outs| - 1], xs[..|xs| - 1]);
    }
  }

  /** The first `k` outcomes present with the values of `xs`, the rest absent: the survivors are `xs[..k]`. */
  lemma SurvivorsPrefix<E>(outs: seq<Option<E>>, xs: seq<E>, k: nat)
    requires |outs| == |xs| && k <= |xs|
    requires forall i :: 0 <= i < |outs| ==> outs[i] == (if i < k then Some(xs[i]) else None)
    ensures Survivors(outs) == xs[..k]
  {
    assert outs == outs[..k] + outs[k..];
    SurvivorsAppend(outs[..k], outs[k..]);
    SurvivorsExact(outs[..k], xs[..k]);
    SurvivorsNonePresent(outs[k..]);
  }

  /** The first `k` outcomes absent, the rest present with the values of `xs`: the survivors are `xs[k..]`. */
  lemma SurvivorsSuffix<E>(outs: seq<Option<E>>, xs: seq<E>, k: nat)
    requires |outs| == |xs| && k <= |xs|
    requires forall i :: 0 <= i < |outs| ==> outs[i] == (if i < k then None else Some(xs[i]))
    ensures Survivors(outs) == xs[k..]
  {
    assert outs == outs[..k] + outs[k..];
    SurvivorsAppend(outs[..k], outs[k..]);
    SurvivorsNonePresent(outs[..k]);
    SurvivorsExact(outs[k..], xs[k..]);
  }

  /**
   * Composition and short-circuit of `Apply`: running `A + B` is running `A`, and then,
   * only if `A` kept the element, running `B` on what `A` produced. When `A` rejects,
   * `B`'s memories are returned unchanged: `B` was never invoked.
   */
  lemma {:induction false} ApplyAppend<O, M, E>(step: (O, M, E) -> (M, Option<E>),
                                               a: seq<O>, b: seq<O>, ma: seq<M>, mb: seq<M>, x: E)
    requires |ma| == |a| && |mb| == |b|
    ensures Apply(step, a + b, ma + mb, x) ==
            (var (ra, y) := Apply(step, a, ma, x);
             match y
             case None => (ra + mb, None)
             case Some(v) => var (rb, z) := Apply(step, b, mb, v); (ra + rb, z))
    decreases |a|
  {
    if |a| == 0 {
      assert a + b == b;
      assert ma + mb == mb;
      assert Apply(step, a, ma, x) == ([], Some(x));
      var (rb, z) := Apply(step, b, mb, x);
      assert ma + rb == rb;
    } else {
      assert (a + b)[0] == a[0] && (ma + mb)[0] == ma[0];
      assert (a + b)[1..] == a[1..] + b;
      assert (ma + mb)[1..] == ma[1..] + mb;
      var (m0, y) := step(a[0], ma[0], x);
      if y.Some? {
        ApplyAppend(step, a[1..], b, ma[1..], mb, y.value);
        var (ra1, y1) := Apply(step, a[1..], ma[1..], y.value);
        assert Apply(step, a, ma, x) == ([m0] + ra1, y1);
        if y1.Some? {
          var (rb, z) := Apply(step, b, mb, y1.value);
          assert [m0] + (ra1 + rb) == ([m0] + ra1) + rb;
        } else {
          assert [m0] + (ra1 + mb) == ([m0] + ra1) + mb;
        }
      } else {
        assert [m0] + (ma + mb)[1..] == ([m0] + ma[1..]) + mb;
      }
    }
  }

  /** The final state and the outcomes of one operator on its own, one call per element. */
  function RunOne<O, M, E>(step: (O, M, E) -> (M, Option<E>), op: O, m: M, xs: seq<E>): (r: (M, seq<Option<E>>))
    ensures |r.1| == |xs|
  {
    var (ms, outs) := Run(step, [op], [m], xs);
    (ms[0], outs)
  }

  /** One more element costs the lone operator exactly one more call, from the state it had reached. */
  lemma RunOneSnoc<O, M, E>(step: (O, M, E) -> (M, Option<E>), op: O, m: M, xs: seq<E>, x: E)
    ensures RunOne(step, op, m, xs + [x]) ==
            (var (m1, outs) := RunOne(step, op, m, xs); (step(op, m1, x).0, outs + [step(op, m1, x).1]))
  {
    var d := xs + [x];
    assert d[..|d| - 1] == xs && d[|d| - 1] == x;
    var (ms, outs) := Run(step, [op], [m], xs);
    assert ms == [ms[0]];
    ApplySingle(step, op, ms[0], x);
  }

  /** One operator on its own: exactly one invocation of `step`. */
  lemma ApplySingle<O, M, E>(step: (O, M, E) -> (M, Option<E>), op: O, m: M, x: E)
    ensures Apply(step, [op], [m], x) == ([step(op, m, x).0], step(op, m, x).1)
  {
    var (m0, y) := step(op, m, x);
    assert [op][1..] == [] && [m][1..] == [];
    if y.Some? {
      assert Apply(step, [], [], y.value) == ([], Some(y.value));
      assert [m0] + [] == [m0];
    } else {
      assert [m0] + [m][1..] == [m0];
    }
  }

  /** With no operators every element is kept unchanged. */
  lemma {:induction false} RunNoOps<O, M, E>(step: (O, M, E) -> (M, Option<E>), data: seq<E>)
    ensures Run(step, [], [], data).0 == []
    ensures forall i :: 0 <= i < |data| ==> Run(step, [], [], data).1[i] == Some(data[i])
    decreases |data|
  {
    if |data| > 0 {
      RunNoOps(step, data[..|data| - 1]);
    }
  }

  /** With no operators the survivors are the data itself. */
  lemma CollectedNoOps<O, M, E>(step: (O, M, E) -> (M, Option<E>), data: seq<E>)
    ensures Collected(step, [], [], data) == data
  {
    RunNoOps(step, data);
    SurvivorsAllPresent(Run(step, [], [], data).1);
  }

  /** Running `d1 + d2` is running `d1` and then `d2` from the memories `d1` left behind. */
  lemma {:induction false} RunConcat<O, M, E>(step: (O, M, E) -> (M, Option<E>), ops: seq<O>, mems: seq<M>,
                                              d1: seq<E>, d2: seq<E>)
    requires |mems| == |ops|
    ensures Run(step, ops, mems, d1 + d2) ==
            (var (m1, o1) := Run(step, ops, mems, d1);
             var (m2, o2) := Run(step, ops, m1, d2);
             (m2, o1 + o2))
    decreases |d2|
  {
    if |d2| == 0 {
      assert d1 + d2 == d1;
      var (m1, o1) := Run(step, ops, mems, d1);
      assert Run(step, ops, m1, d2) == (m1, []);
      assert o1 + [] == o1;
    } else {
      assert (d1 + d2)[..|d1 + d2| - 1] == d1 + d2[..|d2| - 1];
      assert (d1 + d2)[|d1 + d2| - 1] == d2[|d2| - 1];
      RunConcat(step, ops, mems, d1, d2[..|d2| - 1]);
      var (m1, o1) := Run(step, ops, mems, d1);
      var (m2, o2) := Run(step, ops, m1, d2[..|d2| - 1]);
      var (m3, y) := Apply(step, ops, m2, d2[|d2| - 1]);
      assert Run(step, ops, m1, d2) == (m3, o2 + [y]);
      assert (o1 + o2) + [y] == o1 + (o2 + [y]);
    }
  }

  /**
   * Pipeline fusion: the element-at-a-time evaluation of `A + B` equals running `A` over
   * the whole input and then `B` over what `A` kept. In particular a stage sees only the
   * elements kept by the stages before it, in input order, so a counting stage counts the
   * elements that reach it rather than the source's elements.
   */
  lemma {:induction false} RunFusion<O, M, E>(step: (O, M, E) -> (M, Option<E>),
                                              a: seq<O>, b: seq<O>, ma: seq<M>, mb: seq<M>, data: seq<E>)
    requires |ma| == |a| && |mb| == |b|
    ensures var (ra, oa) := Run(step, a, ma, data);
            var (rb, ob) := Run(step, b, mb, Survivors(oa));
            Run(step, a + b, ma + mb, data).0 == ra + rb &&
            Survivors(Run(step, a + b, ma + mb, data).1) == Survivors(ob)
    decreases |data|
  {
    if |data| > 0 {
      var init := data[..|data| - 1];
      var x := data[|data| - 1];
      RunFusion(step, a, b, ma, mb, init);
      var (ra, oa) := Run(step, a, ma, init);
      var (rb, ob) := Run(step, b, mb, Survivors(oa));
      var (rab, oab) := Run(step, a + b, ma + mb, init);
      ApplyAppend(step, a, b, ra, rb, x);
      var (ra', y) := Apply(step, a, ra, x);
      assert Run(step, a, ma, data) == (ra', oa + [y]);
      SurvivorsAppend(oab, [Apply(step, a + b, rab, x).1]);
      SurvivorsAppend(oa, [y]);
      match y {
        case None =>
          assert Survivors(oa + [y]) == Survivors(oa);
        case Some(v) =>
          assert Survivors(oa + [y]) == Survivors(oa) + [v];
          assert (Survivors(oa) + [v])[..|Survivors(oa) + [v]| - 1] == Survivors(oa);
          var (rb', z) := Apply(step, b, rb, v);
          assert Run(step, b, mb, Survivors(oa) + [v]) == (rb', ob + [z]);
          SurvivorsAppend(ob, [z]);
      }
    }
  }

  // ---------------------------------------------------------------------------------
  // The sequential terminal loops (stream.go:85-129, terminal_operator.go:37-108,162-170)
  // ---------------------------------------------------------------------------------

  /** Collects, in input order, the results of the elements the pipeline keeps. */
  method Collect<O, M, E>(step: (O, M, E) -> (M, Option<E>), ops: seq<O>, mems: seq<M>, data: seq<E>)
    returns (after: seq<M>, results: seq<E>)
    requires |mems| == |ops|
    ensures after == Run(step, ops, mems, data).0
    ensures results == Survivors(Run(step, ops, mems, data).1)
  {
    after, results := mems, [];
    for i := 0 to |data|
      invariant |after| == |ops|
      invariant after == Run(step, ops, mems, data[..i]).0
      invariant results == Survivors(Run(step, ops, mems, data[..i]).1)
    {
      assert data[..i + 1][..i] == data[..i];
      var (m, y) := Apply(step, ops, after, data[i]);
      after := m;
      if y.Some? {
        results := results + [y.value];
      }
    }
    assert data[..|data|] == data;
  }

  /** Counts the elements the pipeline keeps: the length of what `Collect` returns. */
  method Count<O, M, E>(step: (O, M, E) -> (M, Option<E>), ops: seq<O>, mems: seq<M>, data: seq<E>)
    returns (after: seq<M>, count: nat)
    requires |mems| == |ops|
    ensures after == Run(step, ops, mems, data).0
    ensures count == |Survivors(Run(step, ops, mems, data).1)|
  {
    after, count := mems, 0;
    for i := 0 to |data|
      invariant |after| == |ops|
      invariant after == Run(step, ops, mems, data[..i]).0
      invariant count == |Survivors(Run(step, ops, mems, data[..i]).1)|
    {
      assert data[..i + 1][..i] == data[..i];
      var (m, y) := Apply(step, ops, after, data[i]);
      after := m;
      if y.Some? {
        count := count + 1;
      }
    }
    assert data[..|data|] == data;
  }

  /**
   * Calls the action on every kept result, in input order. The action's observable effect
   * is the sequence of arguments it receives, returned as `calls`.
   */
  method ForEach<O, M, E>(step: (O, M, E) -> (M, Option<E>), ops: seq<O>, mems: seq<M>, data: seq<E>)
    returns (after: seq<M>, calls: seq<E>)
    requires |mems| == |ops|
    ensures after == Run(step, ops, mems, data).0
    ensures calls == Survivors(Run(step, ops, mems, data).1)
  {
    after, calls := Collect(step, ops, mems, data);
  }

  /**
   * stream.go's reduce: the first kept result seeds the accumulator and every later one is
   * folded in with `f`. Valid exactly when something was kept; otherwise Go's zero value.
   */
  method Reduce<O, M, E>(step: (O, M, E) -> (M, Option<E>), ops: seq<O>, mems: seq<M>, data: seq<E>,
                         f: (E, E) -> E, zero: E)
    returns (after: seq<M>, z: E, valid: bool)
    requires |mems| == |ops|
    ensures after == Run(step, ops, mems, data).0
    ensures valid <==> |Survivors(Run(step, ops, mems, data).1)| > 0
    ensures valid ==> z == SeededFold(f, Survivors(Run(step, ops, mems, data).1))
    ensures !valid ==> z == zero
  {
    after, z, valid := mems, zero, false;
    ghost var kept: seq<E> := [];
    for i := 0 to |data|
      invariant |after| == |ops|
      invariant after == Run(step, ops, mems, data[..i]).0
      invariant kept == Survivors(Run(step, ops, mems, data[..i]).1)
      invariant valid <==> |kept| > 0
      invariant valid ==> z == SeededFold(f, kept)
      invariant !valid ==> z == zero
    {
      assert data[..i + 1][..i] == data[..i];
      var (m, y) := Apply(step, ops, after, data[i]);
      after := m;
      if y.Some? {
        if valid {
          assert (kept + [y.value])[1..] == kept[1..] + [y.value];
          z := f(z, y.value);
        } else {
          z := y.value;
          valid := true;
        }
        kept := kept + [y.value];
      }
    }
    assert data[..|data|] == data;
  }

  /**
   * When the first element is kept, terminal_operator.go's reduce and the seeded fold
   * agree: the first result is the first survivor, and the later survivors are folded
   * onto it.
   */
  lemma FirstKeptSeeds<E>(f: (E, E) -> E, outs: seq<Option<E>>)
    requires |outs| > 0 && outs[0].Some?
    ensures Survivors(outs) == [outs[0].value] + Survivors(outs[1..])
    ensures FoldLeft(f, outs[0].value, Survivors(outs[1..])) == SeededFold(f, Survivors(outs))
  {
    assert outs == [outs[0]] + outs[1..];
    SurvivorsAppend([outs[0]], outs[1..]);
    assert [outs[0]][..0] == [];
  }

  /**
   * terminal_operator.go's reduce, as written: only a kept FIRST element seeds the
   * accumulator and sets `valid`; every later kept result is folded into the accumulator,
   * which is still Go's zero value when the first element was rejected.
   */
  method ReduceFromFirst<O, M, E>(step: (O, M, E) -> (M, Option<E>), ops: seq<O>, mems: seq<M>, data: seq<E>,
                                  f: (E, E) -> E, zero: E)
    returns (after: seq<M>, z: E, valid: bool)
    requires |mems| == |ops|
    ensures after == Run(step, ops, mems, data).0
    ensures valid <==> |data| > 0 && Run(step, ops, mems, data).1[0].Some?
    ensures |data| == 0 ==> z == zero
    ensures |data| > 0 ==>
              var outs := Run(step, ops, mems, data).1;
              z == FoldLeft(f, if outs[0].Some? then outs[0].value else zero, Survivors(outs[1..]))
  {
    after, z, valid := mems, zero, false;
    for i := 0 to |data|
      invariant |after| == |ops|
      invariant after == Run(step, ops, mems, data[..i]).0
      invariant valid <==> i > 0 && Run(step, ops, mems, data[..i]).1[0].Some?
      invariant i == 0 ==> z == zero
      invariant i > 0 ==>
                  var outs := Run(step, ops, mems, data[..i]).1;
                  z == FoldLeft(f, if outs[0].Some? then outs[0].value else zero, Survivors(outs[1..]))
    {
      assert data[..i + 1][..i] == data[..i];
      var outs := Run(step, ops, mems, data[..i]).1;
      var (m, y) := Apply(step, ops, after, data[i]);
      assert Run(step, ops, mems, data[..i + 1]).1 == outs + [y];
      if i > 0 {
        assert (outs + [y])[0] == outs[0];
        assert (outs + [y])[1..] == outs[1..] + [y];
        SurvivorsAppend(outs[1..], [y]);
        var sv := Survivors(outs[1..]);
        if y.Some? {
          assert Survivors([y]) == [y.value];
          assert (sv + [y.value])[..|sv|] == sv;
        } else {
          assert Survivors([y]) == [];
          assert sv + [] == sv;
        }
      } else {
        assert (outs + [y])[1..] == [];
      }
      after := m;
      if i == 0 && y.Some? {
        z := y.value;
        valid := true;
      } else if y.Some? {
        z := f(z, y.value);
      }
    }
    assert data[..|data|] == data;
  }

  /** Replacing the first state after `pre` leaves `pre`, the new state and the rest. */
  lemma UpdateAt<M>(pre: seq<M>, rest: seq<M>, m: M)
    requires |rest| > 0
    ensures (pre + rest)[|pre| := m] == (pre + [m]) + rest[1..]
  {
  }

  /**
   * terminal_operator.go's applyOperations, loop as written: the first operator is applied
   * unconditionally, the rest while every previous one kept the element.
   */
  method ApplyOperations<O, M, E>(step: (O, M, E) -> (M, Option<E>), ops: seq<O>, mems: seq<M>, x: E)
    returns (after: seq<M>, result: Option<E>)
    requires |mems| == |ops|
    ensures (after, result) == Apply(step, ops, mems, x)
  {
    if |ops| == 0 {
      return mems, Some(x);
    }
    var (m0, y) := step(ops[0], mems[0], x);
    after, result := [m0] + mems[1..], y;
    var i := 1;
    ApplySingle(step, ops[0], mems[0], x);
    assert ops[..1] == [ops[0]] && mems[..1] == [mems[0]];
    while i < |ops| && result.Some?
      invariant 1 <= i <= |ops|
      invariant after == Apply(step, ops[..i], mems[..i], x).0 + mems[i..]
      invariant result == Apply(step, ops[..i], mems[..i], x).1
      decreases |ops| - i
    {
      var pre := Apply(step, ops[..i], mems[..i], x).0;
      assert |pre| == i;
      assert after[i] == mems[i];
      var (mi, yi) := step(ops[i], after[i], result.value);
      assert ops[..i + 1] == ops[..i] + [ops[i]];
      assert mems[..i + 1] == mems[..i] + [mems[i]];
      ApplyAppend(step, ops[..i], [ops[i]], mems[..i], [mems[i]], x);
      ApplySingle(step, ops[i], mems[i], result.value);
      UpdateAt(pre, mems[i..], mi);
      assert mems[i..][1..] == mems[i + 1..];
      after := after[i := mi];
      result := yi;
      i := i + 1;
    }
    assert ops == ops[..i] + ops[i..];
    assert mems == mems[..i] + mems[i..];
    ApplyAppend(step, ops[..i], ops[i..], mems[..i], mems[i..], x);
    if i == |ops| {
      assert ops[i..] == [] && mems[i..] == [];
      assert ops[..i] == ops && mems[..i] == mems;
    }
  }
}
