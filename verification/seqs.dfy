/** Sequence helpers: concatenation of slices and left folds. */
module Seqs {

  /** The in-order concatenation of a sequence of slices. */
  function Flatten<T>(parts: seq<seq<T>>): (r: seq<T>)
    decreases |parts|
  {
    if |parts| == 0 then [] else Flatten(parts[..|parts| - 1]) + parts[|parts| - 1]
  }

  /** Left fold of `f` over `s`, starting from `acc`: f(...f(f(acc, s[0]), s[1])..., s[n-1]). */
  function FoldLeft<A, T>(f: (A, T) -> A, acc: A, s: seq<T>): A
    decreases |s|
  {
    if |s| == 0 then acc else f(FoldLeft(f, acc, s[..|s| - 1]), s[|s| - 1])
  }

  /** The indices lo, lo+1, ..., hi-1. */
  function Range(lo: nat, hi: nat): (r: seq<nat>)
    requires lo <= hi
    ensures |r| == hi - lo
    ensures forall i :: 0 <= i < |r| ==> r[i] == lo + i
  {
    seq(hi - lo, i requires 0 <= i < hi - lo => lo + i)
  }

  /** Sum of a sequence of naturals. */
  function Sum(s: seq<nat>): nat
    decreases |s|
  {
    if |s| == 0 then 0 else Sum(s[..|s| - 1]) + s[|s| - 1]
  }

  lemma {:induction false} FlattenAppend<T>(a: seq<seq<T>>, b: seq<seq<T>>)
    ensures Flatten(a + b) == Flatten(a) + Flatten(b)
    decreases |b|
  {
    if |b| == 0 {
      assert a + b == a;
    } else {
      assert (a + b)[..|a + b| - 1] == a + b[..|b| - 1];
      FlattenAppend(a, b[..|b| - 1]);
    }
  }

  lemma FlattenLength<T>(parts: seq<seq<T>>, size: nat)
    requires forall i :: 0 <= i < |parts| ==> |parts[i]| == size
    ensures |Flatten(parts)| == |parts| * size
    decreases |parts|
  {
    if |parts| > 0 {
      FlattenLength(parts[..|parts| - 1], size);
    }
  }

  lemma {:induction false} FoldLeftAppend<A, T>(f: (A, T) -> A, acc: A, s: seq<T>, t: seq<T>)
    ensures FoldLeft(f, acc, s + t) == FoldLeft(f, FoldLeft(f, acc, s), t)
    decreases |t|
  {
    if |t| == 0 {
      assert s + t == s;
    } else {
      assert (s + t)[..|s + t| - 1] == s + t[..|t| - 1];
      FoldLeftAppend(f, acc, s, t[..|t| - 1]);
    }
  }

  /** Sum is invariant under permutation. */
  lemma {:induction false} SumPermutation(a: seq<nat>, b: seq<nat>)
    requires multiset(a) == multiset(b)
    ensures Sum(a) == Sum(b)
    decreases |a|
  {
    if |a| == 0 {
      assert |multiset(b)| == 0;
    } else {
      var j := PickLast(a, b);
      var p, q := b[..j], b[j + 1..];
      assert b == p + [b[j]] + q;
      assert a == a[..|a| - 1] + [a[|a| - 1]];
      SumPermutation(a[..|a| - 1], p + q);
      SumMiddle(p, b[j], q);
    }
  }

  /** Where the last value of `a` sits in its permutation `b`; the rest of `a` permutes the rest of `b`. */
  lemma PickLast<T>(a: seq<T>, b: seq<T>) returns (j: nat)
    requires multiset(a) == multiset(b) && |a| > 0
    ensures j < |b| && b[j] == a[|a| - 1]
    ensures multiset(a[..|a| - 1]) == multiset(b[..j] + b[j + 1..])
  {
    var x, a' := a[|a| - 1], a[..|a| - 1];
    assert a == a' + [x];
    assert x in multiset(b);
    j :| 0 <= j < |b| && b[j] == x;
    var p, q := b[..j], b[j + 1..];
    assert b == p + ([x] + q);
    assert multiset(a') + multiset{x} == multiset(p + q) + multiset{x};
    MultisetCancel(multiset(a'), multiset(p + q), x);
  }

  lemma MultisetCancel<T>(m: multiset<T>, n: multiset<T>, x: T)
    requires m + multiset{x} == n + multiset{x}
    ensures m == n
  {
    forall y ensures m[y] == n[y] {
      assert (m + multiset{x})[y] == (n + multiset{x})[y];
    }
  }

  lemma {:induction false} SumMiddle(p: seq<nat>, x: nat, q: seq<nat>)
    ensures Sum(p + [x] + q) == Sum(p + q) + x
    decreases |q|
  {
    if |q| == 0 {
      assert p + [x] + q == p + [x];
      assert p + q == p;
      assert (p + [x])[..|p + [x]| - 1] == p;
    } else {
      var q' := q[..|q| - 1];
      var y := q[|q| - 1];
      assert p + [x] + q == (p + [x] + q') + [y];
      assert p + q == (p + q') + [y];
      assert (p + [x] + q)[..|p + [x] + q| - 1] == p + [x] + q';
      assert (p + q)[..|p + q| - 1] == p + q';
      SumMiddle(p, x, q');
    }
  }

  /** The values of `s` that satisfy `p`, in order. */
  function Kept<T>(p: T -> bool, s: seq<T>): (r: seq<T>)
    decreases |s|
  {
    if |s| == 0 then [] else Kept(p, s[..|s| - 1]) + (if p(s[|s| - 1]) then [s[|s| - 1]] else [])
  }

  /** The lengths of the slices of `parts`. */
  function Lengths<T>(parts: seq<seq<T>>): (r: seq<nat>)
    ensures |r| == |parts|
  {
    seq(|parts|, i requires 0 <= i < |parts| => |parts[i]|)
  }

  /** A concatenation is as long as its slices together. */
  lemma {:induction false} FlattenLengths<T>(parts: seq<seq<T>>)
    ensures |Flatten(parts)| == Sum(Lengths(parts))
    decreases |parts|
  {
    if |parts| > 0 {
      var init := parts[..|parts| - 1];
      FlattenLengths(init);
      assert Lengths(parts)[..|parts| - 1] == Lengths(init);
    }
  }

  /** Go's `append(x, y...)` on slices. */
  function Concat<T>(x: seq<T>, y: seq<T>): seq<T> {
    x + y
  }

  /** Folding slices with append, from `acc`, is `acc` followed by their concatenation. */
  lemma {:induction false} FoldAppendFlatten<T>(acc: seq<T>, parts: seq<seq<T>>)
    ensures FoldLeft(Concat, acc, parts) == acc + Flatten(parts)
    decreases |parts|
  {
    if |parts| == 0 {
      assert acc + [] == acc;
    } else {
      FoldAppendFlatten(acc, parts[..|parts| - 1]);
    }
  }

  lemma FlattenCons<T>(a: seq<T>, parts: seq<seq<T>>)
    ensures Flatten([a] + parts) == a + Flatten(parts)
  {
    FlattenAppend([a], parts);
    assert [a][..0] == [];
  }

  lemma KeptSnoc<T>(p: T -> bool, s: seq<T>, x: T)
    ensures Kept(p, s + [x]) == Kept(p, s) + (if p(x) then [x] else [])
  {
    assert (s + [x])[..|s|] == s;
  }

  /** Nothing is kept of a sequence none of whose values satisfies `p`. */
  lemma {:induction false} KeptNone<T>(p: T -> bool, s: seq<T>)
    requires forall j :: 0 <= j < |s| ==> !p(s[j])
    ensures Kept(p, s) == []
    decreases |s|
  {
    if |s| > 0 {
      KeptNone(p, s[..|s| - 1]);
    }
  }
}
