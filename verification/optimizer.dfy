/**
 * The operator reordering of package `operator` (operator/operator.go:212-242).
 *
 * `Sort` scans adjacent pairs of the ORIGINAL pipeline. A maximal block of positions
 * s..e in which every neighbouring pair commutes is a run; each run is stably sorted by
 * declared cost, and every other position keeps its operator. Because operators carry
 * functions and so have no equality, the reordering is modelled as the sequence of
 * original indices each output slot takes its operator from.
 *
 * The index computation only looks at two facts per position, its cost and whether it
 * commutes with its right neighbour; it is stated over those (`Costs`, `Links`) so that
 * the proofs about it never inspect the operators themselves.
 */
module Optimizer {
  import opened Seqs
  import opened Operator

  /** Positions k and k+1 both exist and their operators commute. */
  predicate Commutes<T>(ops: seq<IntermediateOperator<T>>, k: int) {
    0 <= k && k + 1 < |ops| && Commutative(ops[k], ops[k + 1])
  }

  /** s..e is a maximal block of positions whose neighbouring pairs all commute. */
  predicate MaximalRun<T>(ops: seq<IntermediateOperator<T>>, s: int, e: int) {
    0 <= s <= e < |ops|
    && !Commutes(ops, s - 1)
    && (forall k :: s <= k < e ==> Commutes(ops, k))
    && !Commutes(ops, e)
  }

  /** The declared cost of each operator, by position. */
  function Costs<T>(ops: seq<IntermediateOperator<T>>): (r: seq<int>)
    ensures |r| == |ops|
    ensures forall i :: 0 <= i < |ops| ==> r[i] == ops[i].Cost()
  {
    seq(|ops|, i requires 0 <= i < |ops| => ops[i].Cost())
  }

  /** Whether each position commutes with its right neighbour. */
  function Links<T>(ops: seq<IntermediateOperator<T>>): (r: seq<bool>)
    ensures |r| == |ops|
    ensures forall k :: 0 <= k < |ops| ==> r[k] == Commutes(ops, k)
  {
    seq(|ops|, k requires 0 <= k < |ops| => Commutes(ops, k))
  }

  // ---------------------------------------------------------------------------------
  // The index computation over costs and links
  // ---------------------------------------------------------------------------------

  predicate Linked(link: seq<bool>, k: int) {
    0 <= k && k + 1 < |link| && link[k]
  }

  predicate MaximalIn(link: seq<bool>, s: int, e: int) {
    0 <= s <= e < |link|
    && !Linked(link, s - 1)
    && (forall k :: s <= k < e ==> Linked(link, k))
    && !Linked(link, e)
  }

  /** The last position of the run starting at i. */
  function RunEnd(link: seq<bool>, i: nat): (e: nat)
    requires i < |link|
    ensures i <= e < |link|
    decreases |link| - i
  {
    if Linked(link, i) then RunEnd(link, i + 1) else i
  }

  /** The first position of the run containing k. */
  function RunStart(link: seq<bool>, k: nat): (s: nat)
    requires k < |link|
    ensures s <= k
    decreases k
  {
    if k > 0 && Linked(link, k - 1) then RunStart(link, k - 1) else k
  }

  /** RunEnd stops at the first position that does not commute with its successor. */
  lemma {:induction false} RunEndSpec(link: seq<bool>, i: nat)
    requires i < |link|
    ensures forall k :: i <= k < RunEnd(link, i) ==> Linked(link, k)
    ensures !Linked(link, RunEnd(link, i))
    decreases |link| - i
  {
    if Linked(link, i) {
      RunEndSpec(link, i + 1);
    }
  }

  /** RunStart stops at the first position whose predecessor does not commute with it. */
  lemma {:induction false} RunStartSpec(link: seq<bool>, k: nat)
    requires k < |link|
    ensures forall j :: RunStart(link, k) <= j < k ==> Linked(link, j)
    ensures !Linked(link, RunStart(link, k) - 1)
    decreases k
  {
    if k > 0 && Linked(link, k - 1) {
      RunStartSpec(link, k - 1);
    }
  }

  /** Every entry of s indexes into a pipeline of length n. */
  predicate Below(s: seq<nat>, n: nat) {
    forall i :: 0 <= i < |s| ==> s[i] < n
  }

  /** The cost at position k (positions outside the pipeline never occur in a run). */
  function CostAt(cost: seq<int>, k: nat): int {
    if k < |cost| then cost[k] else 0
  }

  /** Slot order of a stable sort by cost: lower cost first, ties in original order. */
  predicate Precedes(cost: seq<int>, j: nat, k: nat) {
    j < |cost| && k < |cost| && (cost[j] < cost[k] || (cost[j] == cost[k] && j < k))
  }

  predicate StablySorted(cost: seq<int>, s: seq<nat>) {
    Below(s, |cost|)
    && (forall a, b {:trigger Precedes(cost, s[a], s[b])} :: 0 <= a < b < |s| ==> Precedes(cost, s[a], s[b]))
  }

  /**
   * Where a stable insertion puts index k into the sorted slots s: behind every slot of
   * no greater cost.
   */
  function InsertAt(cost: seq<int>, k: nat, s: seq<nat>): (j: nat)
    ensures j <= |s|
    decreases |s|
  {
    if |s| == 0 then 0
    else if CostAt(cost, k) < CostAt(cost, s[|s| - 1]) then InsertAt(cost, k, s[..|s| - 1])
    else |s|
  }

  /** One step of a stable sort: index k inserted into the sorted slots s. */
  function Insert(cost: seq<int>, k: nat, s: seq<nat>): (r: seq<nat>)
    ensures |r| == |s| + 1
  {
    var j := InsertAt(cost, k, s);
    s[..j] + [k] + s[j..]
  }

  /** The stable sort by cost of the positions lo..hi-1 (sort.SliceStable on the run). */
  function SortRun(cost: seq<int>, lo: nat, hi: nat): (r: seq<nat>)
    requires lo <= hi
    ensures |r| == hi - lo
    decreases hi - lo
  {
    if lo == hi then [] else Insert(cost, hi - 1, SortRun(cost, lo, hi - 1))
  }

  /** The run sort as a function of the run's bounds. */
  function RunSorter(cost: seq<int>): (nat, nat) -> seq<nat> {
    (lo: nat, hi: nat) => if lo <= hi then SortRun(cost, lo, hi) else []
  }

  /** A block sorter returns as many slots as the block has positions. */
  ghost predicate KeepsLength(sorter: (nat, nat) -> seq<nat>) {
    forall lo: nat, hi: nat :: lo <= hi ==> |sorter(lo, hi)| == hi - lo
  }

  /** A block sorter returns a rearrangement of the block's positions. */
  ghost predicate PermutesBlocks(sorter: (nat, nat) -> seq<nat>) {
    forall lo: nat, hi: nat {:trigger IsBlock(lo, hi)} :: IsBlock(lo, hi) ==> multiset(sorter(lo, hi)) == multiset(Range(lo, hi))
  }

  /** lo..hi-1 is a (possibly empty) block of positions. */
  predicate IsBlock(lo: nat, hi: nat) {
    lo <= hi
  }

  /**
   * The slots from position i on: each run, starting with the one at i, is replaced by
   * its sorted block (the loop of operator/operator.go:220-233 and its tail at 235-239).
   */
  function Assemble(link: seq<bool>, sorter: (nat, nat) -> seq<nat>, i: nat): seq<nat>
    requires i <= |link|
    decreases |link| - i
  {
    if i == |link| then []
    else
      var e := RunEnd(link, i);
      sorter(i, e + 1) + Assemble(link, sorter, e + 1)
  }

  /** For each output slot, the original position whose operator Sort puts there. */
  function SortIndices<T>(ops: seq<IntermediateOperator<T>>): (r: seq<nat>)
    ensures |r| == |ops|
  {
    RunSorterKeepsLength(Costs(ops));
    AssembleLength(Links(ops), RunSorter(Costs(ops)), 0);
    Assemble(Links(ops), RunSorter(Costs(ops)), 0)
  }

  /** Sort (operator/operator.go:212-242). */
  function Sort<T>(ops: seq<IntermediateOperator<T>>): (r: seq<IntermediateOperator<T>>)
    ensures |r| == |ops|
    ensures Below(SortIndices(ops), |ops|)
    ensures forall i :: 0 <= i < |r| ==> r[i] == ops[SortIndices(ops)[i]]
  {
    var p := SortIndices(ops);
    SortIndicesBelow(ops);
    seq(|p|, i requires 0 <= i < |p| => ops[p[i]])
  }

  // ---------------------------------------------------------------------------------
  // Correctness of the stable run sort
  // ---------------------------------------------------------------------------------

  lemma {:induction false} InsertAtBounds(cost: seq<int>, k: nat, s: seq<nat>)
    requires k < |cost| && Below(s, |cost|)
    ensures forall i :: InsertAt(cost, k, s) <= i < |s| ==> cost[k] < cost[s[i]]
    ensures InsertAt(cost, k, s) > 0 ==> cost[s[InsertAt(cost, k, s) - 1]] <= cost[k]
    decreases |s|
  {
    if |s| > 0 && CostAt(cost, k) < CostAt(cost, s[|s| - 1]) {
      InsertAtBounds(cost, k, s[..|s| - 1]);
    }
  }

  lemma {:induction false} InsertPair(cost: seq<int>, k: nat, s: seq<nat>, a: nat, b: nat)
    requires k < |cost| && StablySorted(cost, s)
    requires forall i :: 0 <= i < |s| ==> s[i] < k
    requires a < b <= |s|
    ensures Precedes(cost, Insert(cost, k, s)[a], Insert(cost, k, s)[b])
  {
    var j := InsertAt(cost, k, s);
    var r := Insert(cost, k, s);
    InsertAtBounds(cost, k, s);
    if b < j {
      assert r[a] == s[a] && r[b] == s[b];
    } else if b == j {
      assert r[a] == s[a] && r[b] == k;
      if a < j - 1 {
        assert Precedes(cost, s[a], s[j - 1]);
      }
    } else if a < j {
      assert r[a] == s[a] && r[b] == s[b - 1];
    } else if a == j {
      assert r[a] == k && r[b] == s[b - 1];
    } else {
      assert r[a] == s[a - 1] && r[b] == s[b - 1];
    }
  }

  lemma {:induction false} InsertPermutes(cost: seq<int>, k: nat, s: seq<nat>)
    ensures multiset(Insert(cost, k, s)) == multiset(s) + multiset{k}
  {
    var j := InsertAt(cost, k, s);
    assert s == s[..j] + s[j..];
  }

  lemma {:induction false} InsertSorted(cost: seq<int>, k: nat, s: seq<nat>)
    requires k < |cost| && StablySorted(cost, s)
    requires forall i :: 0 <= i < |s| ==> s[i] < k
    ensures StablySorted(cost, Insert(cost, k, s))
  {
    var j := InsertAt(cost, k, s);
    var r := Insert(cost, k, s);
    forall i | 0 <= i < |r|
      ensures r[i] < |cost|
    {
      if i < j {
        assert r[i] == s[i];
      } else if i > j {
        assert r[i] == s[i - 1];
      }
    }
    forall a, b | 0 <= a < b < |r|
      ensures Precedes(cost, r[a], r[b])
    {
      InsertPair(cost, k, s, a, b);
    }
  }

  lemma {:induction false} RangeMembers(s: seq<nat>, lo: nat, hi: nat)
    requires lo <= hi && multiset(s) == multiset(Range(lo, hi))
    ensures forall i :: 0 <= i < |s| ==> lo <= s[i] < hi
  {
    forall i | 0 <= i < |s|
      ensures lo <= s[i] < hi
    {
      assert s[i] in multiset(Range(lo, hi));
      var idx :| 0 <= idx < hi - lo && Range(lo, hi)[idx] == s[i];
    }
  }

  lemma {:induction false} SortRunStep(cost: seq<int>, lo: nat, hi: nat, k: nat)
    requires lo < hi && k == hi - 1
    ensures SortRun(cost, lo, hi) == Insert(cost, k, SortRun(cost, lo, k))
    ensures multiset(Range(lo, hi)) == multiset(Range(lo, k)) + multiset{k}
  {
    assert Range(lo, hi) == Range(lo, k) + [k];
  }

  /** SortRun loses or repeats none of the run's positions. */
  lemma {:induction false} SortRunPermutes(cost: seq<int>, lo: nat, hi: nat)
    requires lo <= hi
    ensures multiset(SortRun(cost, lo, hi)) == multiset(Range(lo, hi))
    decreases hi - lo
  {
    if lo < hi {
      var k: nat := hi - 1;
      SortRunPermutes(cost, lo, k);
      InsertPermutes(cost, k, SortRun(cost, lo, k));
      SortRunStep(cost, lo, hi, k);
    }
  }

  /** SortRun orders the run's positions by cost, keeping equal costs in their original order. */
  lemma {:induction false} SortRunSorted(cost: seq<int>, lo: nat, hi: nat)
    requires lo <= hi <= |cost|
    ensures StablySorted(cost, SortRun(cost, lo, hi))
    decreases hi - lo
  {
    if lo < hi {
      var k: nat := hi - 1;
      var s := SortRun(cost, lo, k);
      SortRunSorted(cost, lo, k);
      SortRunPermutes(cost, lo, k);
      RangeMembers(s, lo, k);
      InsertSorted(cost, k, s);
      SortRunStep(cost, lo, hi, k);
    }
  }

  lemma {:induction false} RangeSplit(lo: nat, mid: nat, hi: nat)
    requires lo <= mid <= hi
    ensures Range(lo, hi) == Range(lo, mid) + Range(mid, hi)
  {
    assert Range(lo, hi) == Range(lo, mid) + Range(mid, hi);
  }

  lemma {:induction false} RunSorterKeepsLength(cost: seq<int>)
    ensures KeepsLength(RunSorter(cost))
  {
  }

  lemma {:induction false} RunSorterPermutes(cost: seq<int>)
    ensures PermutesBlocks(RunSorter(cost))
  {
    forall lo: nat, hi: nat | IsBlock(lo, hi)
      ensures multiset(RunSorter(cost)(lo, hi)) == multiset(Range(lo, hi))
    {
      SortRunPermutes(cost, lo, hi);
    }
  }

  // ---------------------------------------------------------------------------------
  // Assembling the sorted runs
  // ---------------------------------------------------------------------------------

  lemma {:induction false} AssembleStep(link: seq<bool>, sorter: (nat, nat) -> seq<nat>, i: nat, e: nat)
    requires i < |link| && e == RunEnd(link, i)
    ensures Assemble(link, sorter, i) == sorter(i, e + 1) + Assemble(link, sorter, e + 1)
  {
  }

  lemma {:induction false} AssembleLength(link: seq<bool>, sorter: (nat, nat) -> seq<nat>, i: nat)
    requires KeepsLength(sorter) && i <= |link|
    ensures |Assemble(link, sorter, i)| == |link| - i
    decreases |link| - i
  {
    if i < |link| {
      var e := RunEnd(link, i);
      AssembleStep(link, sorter, i, e);
      AssembleLength(link, sorter, e + 1);
    }
  }

  /** Concatenating rearrangements of a and b rearranges their concatenation. */
  lemma {:induction false} PermuteConcat(x: seq<nat>, a: seq<nat>, b: seq<nat>, r: seq<nat>, ra: seq<nat>, rb: seq<nat>)
    requires x == a + b && r == ra + rb
    requires multiset(a) == multiset(ra) && multiset(b) == multiset(rb)
    ensures multiset(x) == multiset(r)
  {
  }

  lemma {:induction false} BlockPermutes(sorter: (nat, nat) -> seq<nat>, lo: nat, hi: nat)
    requires PermutesBlocks(sorter) && lo <= hi
    ensures multiset(sorter(lo, hi)) == multiset(Range(lo, hi))
  {
    assert IsBlock(lo, hi);
  }

  lemma {:induction false} AssemblePermutesStep(link: seq<bool>, sorter: (nat, nat) -> seq<nat>, i: nat, e: nat)
    requires i < |link| && e == RunEnd(link, i)
    requires multiset(sorter(i, e + 1)) == multiset(Range(i, e + 1))
    requires multiset(Assemble(link, sorter, e + 1)) == multiset(Range(e + 1, |link|))
    ensures multiset(Assemble(link, sorter, i)) == multiset(Range(i, |link|))
  {
    AssembleStep(link, sorter, i, e);
    RangeSplit(i, e + 1, |link|);
    PermuteConcat(Assemble(link, sorter, i), sorter(i, e + 1), Assemble(link, sorter, e + 1),
                  Range(i, |link|), Range(i, e + 1), Range(e + 1, |link|));
  }

  lemma {:induction false} AssemblePermutes(link: seq<bool>, sorter: (nat, nat) -> seq<nat>, i: nat)
    requires PermutesBlocks(sorter) && i <= |link|
    ensures multiset(Assemble(link, sorter, i)) == multiset(Range(i, |link|))
    decreases |link| - i
  {
    if i < |link| {
      var e := RunEnd(link, i);
      AssemblePermutes(link, sorter, e + 1);
      BlockPermutes(sorter, i, e + 1);
      AssemblePermutesStep(link, sorter, i, e);
    }
  }

  /** Slot q of Assemble(i), for q inside the first run, comes from that run's block. */
  lemma {:induction false} AssembleHeadAt(link: seq<bool>, sorter: (nat, nat) -> seq<nat>, i: nat, e: nat, q: nat)
    requires KeepsLength(sorter) && i < |link| && e == RunEnd(link, i) && i <= q <= e
    ensures |Assemble(link, sorter, i)| == |link| - i
    ensures Assemble(link, sorter, i)[q - i] == sorter(i, e + 1)[q - i]
  {
    AssembleStep(link, sorter, i, e);
    AssembleLength(link, sorter, i);
  }

  /** Slot q of Assemble(i), for q behind the first run, is slot q of Assemble after that run. */
  lemma {:induction false} AssembleTailAt(link: seq<bool>, sorter: (nat, nat) -> seq<nat>, i: nat, e: nat, q: nat, v: nat)
    requires KeepsLength(sorter) && i < |link| && e == RunEnd(link, i) && e < q < |link|
    requires |Assemble(link, sorter, e + 1)| == |link| - (e + 1)
    requires Assemble(link, sorter, e + 1)[q - (e + 1)] == v
    ensures |Assemble(link, sorter, i)| == |link| - i
    ensures Assemble(link, sorter, i)[q - i] == v
  {
    AssembleStep(link, sorter, i, e);
    AssembleLength(link, sorter, i);
  }

  /** A maximal run starting at s is the run RunEnd finds from s. */
  lemma {:induction false} RunEndOfMaximal(link: seq<bool>, s: nat, e: nat)
    requires MaximalIn(link, s, e)
    ensures RunEnd(link, s) == e
  {
    var r := RunEnd(link, s);
    RunEndSpec(link, s);
    assert r < e ==> Linked(link, r);
    assert e < r ==> Linked(link, e);
  }

  /** A run starting after i begins after the run containing i ends. */
  lemma {:induction false} RunEndBefore(link: seq<bool>, i: nat, s: nat)
    requires i < s < |link| && !Linked(link, s - 1)
    ensures RunEnd(link, i) < s
  {
    var r := RunEnd(link, i);
    RunEndSpec(link, i);
    assert s - 1 < r ==> Linked(link, s - 1);
  }

  /** Every slot of a maximal run s..e holds that run's sorted block. */
  lemma {:induction false} AssembleRunsAt(link: seq<bool>, sorter: (nat, nat) -> seq<nat>, i: nat, s: nat, e: nat, q: nat)
    requires KeepsLength(sorter) && i <= s <= q <= e && s < |link| && e == RunEnd(link, s)
    requires i < s ==> !Linked(link, s - 1)
    ensures |Assemble(link, sorter, i)| == |link| - i
    ensures Assemble(link, sorter, i)[q - i] == sorter(s, e + 1)[q - s]
    decreases |link| - i
  {
    if s == i {
      AssembleHeadAt(link, sorter, i, e, q);
    } else {
      RunEndBefore(link, i, s);
      var end := RunEnd(link, i);
      AssembleRunsAt(link, sorter, end + 1, s, e, q);
      AssembleTailAt(link, sorter, i, end, q, sorter(s, e + 1)[q - s]);
    }
  }

  // ---------------------------------------------------------------------------------
  // Properties of Sort
  // ---------------------------------------------------------------------------------

  /** Sort returns a rearrangement of its input: each original position fills exactly one slot. */
  lemma {:induction false} SortPermutes<T>(ops: seq<IntermediateOperator<T>>)
    ensures multiset(SortIndices(ops)) == multiset(Range(0, |ops|))
  {
    RunSorterPermutes(Costs(ops));
    AssemblePermutes(Links(ops), RunSorter(Costs(ops)), 0);
  }

  lemma {:induction false} SortIndicesBelow<T>(ops: seq<IntermediateOperator<T>>)
    ensures Below(SortIndices(ops), |ops|)
  {
    SortPermutes(ops);
    RangeMembers(SortIndices(ops), 0, |ops|);
  }

  lemma {:induction false} MaximalLinks<T>(ops: seq<IntermediateOperator<T>>, s: nat, e: nat)
    requires MaximalRun(ops, s, e)
    ensures MaximalIn(Links(ops), s, e)
  {
    var link := Links(ops);
    assert !Linked(link, s - 1) && !Linked(link, e);
    forall k | s <= k < e
      ensures Linked(link, k)
    {
      assert Commutes(ops, k);
    }
  }

  lemma {:induction false} AssembleRunSlots(link: seq<bool>, sorter: (nat, nat) -> seq<nat>, s: nat, e: nat)
    requires KeepsLength(sorter) && MaximalIn(link, s, e)
    ensures |Assemble(link, sorter, 0)| == |link|
    ensures Assemble(link, sorter, 0)[s..e + 1] == sorter(s, e + 1)
  {
    var p := Assemble(link, sorter, 0);
    AssembleLength(link, sorter, 0);
    RunEndOfMaximal(link, s, e);
    forall q | s <= q <= e
      ensures p[q] == sorter(s, e + 1)[q - s]
    {
      AssembleRunsAt(link, sorter, 0, s, e, q);
    }
  }

  /** The slots of a maximal run s..e hold the stable cost sort of exactly those positions. */
  lemma {:induction false} SortRunSlots<T>(ops: seq<IntermediateOperator<T>>, s: nat, e: nat)
    requires MaximalRun(ops, s, e)
    ensures SortIndices(ops)[s..e + 1] == SortRun(Costs(ops), s, e + 1)
  {
    MaximalLinks(ops, s, e);
    RunSorterKeepsLength(Costs(ops));
    AssembleRunSlots(Links(ops), RunSorter(Costs(ops)), s, e);
  }

  /**
   * Within every maximal run of commuting neighbours, Sort places exactly that run's
   * operators, ordered by cost with ties kept in their original order.
   */
  lemma {:induction false} SortSortsRuns<T>(ops: seq<IntermediateOperator<T>>, s: nat, e: nat)
    requires MaximalRun(ops, s, e)
    ensures StablySorted(Costs(ops), SortIndices(ops)[s..e + 1])
    ensures multiset(SortIndices(ops)[s..e + 1]) == multiset(Range(s, e + 1))
  {
    var cost := Costs(ops);
    SortRunSlots(ops, s, e);
    SortRunSorted(cost, s, e + 1);
    SortRunPermutes(cost, s, e + 1);
    SameRun(cost, SortIndices(ops)[s..e + 1], SortRun(cost, s, e + 1), s, e + 1);
  }

  lemma {:induction false} SameRun(cost: seq<int>, x: seq<nat>, y: seq<nat>, lo: nat, hi: nat)
    requires x == y && lo <= hi
    requires StablySorted(cost, y) && multiset(y) == multiset(Range(lo, hi))
    ensures StablySorted(cost, x) && multiset(x) == multiset(Range(lo, hi))
  {
  }

  /** An operator that commutes with neither neighbour keeps its position. */
  lemma {:induction false} SortKeepsIsolated<T>(ops: seq<IntermediateOperator<T>>, k: nat)
    requires k < |ops| && !Commutes(ops, k - 1) && !Commutes(ops, k)
    ensures SortIndices(ops)[k] == k
  {
    assert MaximalRun(ops, k, k);
    SortRunSlots(ops, k, k);
    assert SortRun(Costs(ops), k, k + 1) == Insert(Costs(ops), k, []) == [k];
    assert SortIndices(ops)[k] == SortIndices(ops)[k..k + 1][0];
  }

  /** Every position lies in a maximal run, so the lemmas above describe all of Sort. */
  lemma {:induction false} EveryPositionInRun<T>(ops: seq<IntermediateOperator<T>>, k: nat)
    requires k < |ops|
    ensures exists s, e :: MaximalRun(ops, s, e) && s <= k <= e
  {
    var link := Links(ops);
    var s := RunStart(link, k);
    var e := RunEnd(link, k);
    RunStartSpec(link, k);
    RunEndSpec(link, k);
    assert !Commutes(ops, s as int - 1) && !Commutes(ops, e);
    forall j | s <= j < e
      ensures Commutes(ops, j)
    {
      assert Linked(link, j);
    }
    assert MaximalRun(ops, s, e);
  }

  // ---------------------------------------------------------------------------------
  // Worked examples
  // ---------------------------------------------------------------------------------

  /** The operators of test case 5 of operator/operator_test.go. */
  function CaseFive(p: int -> bool): (ops: seq<IntermediateOperator<int>>)
    ensures |ops| == 6
  {
    [Limit(10), Distinct(false), Filter(p), Peek, Distinct(false), Filter(p)]
  }

  lemma {:induction false} CaseFiveRuns(p: int -> bool)
    ensures Costs(CaseFive(p)) == [0, 2, 1, 0, 2, 1]
    ensures MaximalRun(CaseFive(p), 0, 0) && MaximalRun(CaseFive(p), 1, 2)
    ensures MaximalRun(CaseFive(p), 3, 3) && MaximalRun(CaseFive(p), 4, 5)
  {
    var ops := CaseFive(p);
    assert !Commutes(ops, 0) && Commutes(ops, 1) && !Commutes(ops, 2);
    assert !Commutes(ops, 3) && Commutes(ops, 4) && !Commutes(ops, 5);
  }

  lemma {:induction false} CaseFiveBlocks()
    ensures SortRun([0, 2, 1, 0, 2, 1], 0, 1) == [0]
    ensures SortRun([0, 2, 1, 0, 2, 1], 1, 3) == [2, 1]
    ensures SortRun([0, 2, 1, 0, 2, 1], 3, 4) == [3]
    ensures SortRun([0, 2, 1, 0, 2, 1], 4, 6) == [5, 4]
  {
  }

  /**
   * Test case 5 of operator/operator_test.go: in limit, distinct, filter, peek, distinct,
   * filter both distinct-filter pairs are swapped and limit and peek stay in place.
   */
  lemma {:induction false} SortSwapsBothPairs(p: int -> bool)
    ensures SortIndices(CaseFive(p)) == [0, 2, 1, 3, 5, 4]
  {
    var ops := CaseFive(p);
    CaseFiveRuns(p);
    CaseFiveBlocks();
    SortRunSlots(ops, 0, 0);
    SortRunSlots(ops, 1, 2);
    SortRunSlots(ops, 3, 3);
    SortRunSlots(ops, 4, 5);
    var r := SortIndices(ops);
    assert r[0] == r[0..1][0] && r[1] == r[1..3][0] && r[2] == r[1..3][1];
    assert r[3] == r[3..4][0] && r[4] == r[4..6][0] && r[5] == r[4..6][1];
  }

  /** distinct, distinct, filter: the example showing Sort is not idempotent. */
  function TwoDistinctsThenFilter(p: int -> bool): (ops: seq<IntermediateOperator<int>>)
    ensures |ops| == 3
  {
    [Distinct(false), Distinct(false), Filter(p)]
  }

  lemma {:induction false} SortOnce(p: int -> bool)
    ensures SortIndices(TwoDistinctsThenFilter(p)) == [0, 2, 1]
  {
    var ops := TwoDistinctsThenFilter(p);
    var cost := Costs(ops);
    assert cost == [2, 2, 1];
    assert !Commutes(ops, 0) && Commutes(ops, 1) && !Commutes(ops, 2);
    assert MaximalRun(ops, 0, 0) && MaximalRun(ops, 1, 2);
    SortRunSlots(ops, 0, 0);
    SortRunSlots(ops, 1, 2);
    assert SortRun(cost, 0, 1) == [0];
    assert SortRun(cost, 1, 3) == [2, 1];
    var r := SortIndices(ops);
    assert r[0] == r[0..1][0] && r[1] == r[1..3][0] && r[2] == r[1..3][1];
  }

  lemma {:induction false} SortTwice(p: int -> bool)
    ensures |Sort(TwoDistinctsThenFilter(p))| == 3
    ensures SortIndices(Sort(TwoDistinctsThenFilter(p))) == [1, 0, 2]
  {
    var ops := TwoDistinctsThenFilter(p);
    SortOnce(p);
    var once := Sort(ops);
    assert once[0] == ops[0] && once[1] == ops[2] && once[2] == ops[1];
    var cost := Costs(once);
    assert cost == [2, 1, 2];
    assert !Commutes(once, -1) && Commutes(once, 0) && Commutes(once, 1) && !Commutes(once, 2);
    assert MaximalRun(once, 0, 2);
    SortRunSlots(once, 0, 2);
    assert SortRun(cost, 0, 3) == [1, 0, 2];
  }

  /**
   * Sort is not idempotent: runs are found on the original order, so sorting
   * distinct, distinct, filter gives distinct, filter, distinct, and sorting that
   * again moves the filter to the front.
   */
  lemma {:induction false} SortNotIdempotent(p: int -> bool)
    ensures Sort(TwoDistinctsThenFilter(p))[0].Distinct?
    ensures Sort(Sort(TwoDistinctsThenFilter(p)))[0].Filter?
  {
    SortOnce(p);
    SortTwice(p);
  }
}
