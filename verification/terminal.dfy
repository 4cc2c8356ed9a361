/**
 * The sequential helpers of terminal_operator.go that are not already the generic loops
 * of module `Engine`: the interval splitter, group counting and grouping, and a worked
 * instance of the reduce loop that seeds only from the first element.
 */
module Terminal {
  import opened Wrappers
  import opened Seqs
  import Engine
  import Stage

  // ---------------------------------------------------------------------------------
  // subIntervals / partition
  // ---------------------------------------------------------------------------------

  function Abs(a: int): nat {
    if a < 0 then -a else a
  }

  /** Go's integer division, which truncates toward zero. */
  function GoDiv(a: int, b: int): (q: int)
    requires b != 0
    ensures a >= 0 && b > 0 ==> q == a / b
  {
    if (a < 0) == (b < 0) then Abs(a) / Abs(b) else -(Abs(a) / Abs(b))
  }

  /**
   * The bounds `0, s, 2s, ..., (k-1)s, n` with `s = n / k`. `None` is the division by
   * zero Go panics with when `k == 0` and `n != 0`; a negative `k` yields just `[n]`.
   */
  function SubIntervals(n: int, k: int): (r: Option<seq<int>>)
    ensures r.None? <==> n != 0 && k == 0
    ensures n == 0 ==> r == Some([])
    ensures n != 0 && k < 0 ==> r == Some([n])
    ensures n != 0 && k > 0 ==> r.Some? && |r.value| == k + 1 && r.value[0] == 0 && r.value[k] == n
  {
    if n == 0 then Some([])
    else if k == 0 then None
    else if k < 0 then Some([n])
    else
      var size := GoDiv(n, k);
      Some(seq(k, i => i * size) + [n])
  }

  /** `b` is a list of slice bounds over `[0, n)`: it starts at 0, ends at n and never decreases. */
  predicate Bounds(b: seq<int>, n: int) {
    |b| >= 1 && b[0] == 0 && b[|b| - 1] == n &&
    forall i, j :: 0 <= i <= j < |b| ==> b[i] <= b[j]
  }

  lemma MulMono(i: int, j: int, s: nat)
    requires i <= j
    ensures i * s <= j * s
  {
  }

  /** The last interval is the width plus the remainder. */
  lemma DivParts(n: nat, k: nat)
    requires k >= 1
    ensures 0 <= n / k && (k - 1) * (n / k) <= n
    ensures n - (k - 1) * (n / k) == n / k + n % k
  {
    var s := n / k;
    assert n == k * s + n % k;
    assert (k - 1) * s == k * s - s;
  }

  /** Multiples `0, s, ..., (k-1)s` of a non-negative width, followed by a bound `n` above them, never decrease. */
  lemma MultiplesMonotone(b: seq<int>, k: nat, s: nat, n: int)
    requires |b| == k + 1 && b[k] == n && (k == 0 || (k - 1) * s <= n)
    requires forall i :: 0 <= i < k ==> b[i] == i * s
    ensures forall i, j :: 0 <= i <= j < |b| ==> b[i] <= b[j]
  {
    forall i, j | 0 <= i <= j < |b|
      ensures b[i] <= b[j]
    {
      if j < k {
        MulMono(i, j, s);
      } else if i < k {
        MulMono(i, k - 1, s);
      }
    }
  }

  /** Consecutive multiples of `s` are `s` apart. */
  lemma MultiplesGap(b: seq<int>, k: nat, s: int)
    requires |b| == k + 1
    requires forall i :: 0 <= i < k ==> b[i] == i * s
    ensures forall i :: 0 <= i < k - 1 ==> b[i + 1] - b[i] == s
  {
    forall i | 0 <= i < k - 1
      ensures b[i + 1] - b[i] == s
    {
      assert (i + 1) * s == i * s + s;
    }
  }

  /**
   * For a non-empty range and at least one interval, the bounds split `[0, n)` into `k`
   * consecutive intervals: the first `k - 1` of width `n / k`, the last one also taking
   * the remainder `n % k`.
   */
  lemma SubIntervalsShape(n: nat, k: nat)
    requires n > 0 && k >= 1
    ensures Bounds(SubIntervals(n, k).value, n)
    ensures forall i :: 0 <= i < k - 1 ==> SubIntervals(n, k).value[i + 1] - SubIntervals(n, k).value[i] == n / k
    ensures SubIntervals(n, k).value[k] - SubIntervals(n, k).value[k - 1] == n / k + n % k
  {
    var b := SubIntervals(n, k).value;
    DivParts(n, k);
    var s: nat := n / k;
    assert forall i :: 0 <= i < k ==> b[i] == i * s;
    MultiplesMonotone(b, k, s, n);
    MultiplesGap(b, k, s);
  }

  /** The slices `data[b[i]..b[i+1]]` cut along the bounds `b`. */
  function Slices<T>(data: seq<T>, b: seq<int>): (r: seq<seq<T>>)
    requires Bounds(b, |data|)
    ensures |r| == |b| - 1
  {
    seq(|b| - 1, i requires 0 <= i < |b| - 1 => data[b[i]..b[i + 1]])
  }

  lemma {:induction false} SlicesPrefix<T>(data: seq<T>, b: seq<int>, j: nat)
    requires Bounds(b, |data|) && j < |b|
    ensures Flatten(Slices(data, b)[..j]) == data[..b[j]]
    decreases j
  {
    if j > 0 {
      SlicesPrefix(data, b, j - 1);
      var s := Slices(data, b)[..j];
      assert s[..j - 1] == Slices(data, b)[..j - 1];
      assert s[j - 1] == data[b[j - 1]..b[j]];
      assert data[..b[j - 1]] + data[b[j - 1]..b[j]] == data[..b[j]];
    }
  }

  /** Consecutive slices along any bounds cover the data: nothing is lost, duplicated or reordered. */
  lemma SlicesCover<T>(data: seq<T>, b: seq<int>)
    requires Bounds(b, |data|)
    ensures Flatten(Slices(data, b)) == data
  {
    SlicesPrefix(data, b, |b| - 1);
    assert Slices(data, b)[..|b| - 1] == Slices(data, b);
    assert data[..|data|] == data;
  }

  // ---------------------------------------------------------------------------------
  // Groups
  // ---------------------------------------------------------------------------------

  /** A named group of elements (grouped_stream.go). */
  datatype Group<T> = Group(name: string, data: seq<T>) {
    function Len(): nat {
      |data|
    }
  }

  /** No group in `groups[j+1..i]` carries the name of group `j`. */
  predicate LastNamedBefore<T>(groups: seq<Group<T>>, j: int, i: int)
    requires 0 <= j < |groups| && i <= |groups|
  {
    forall l :: j < l < i ==> groups[l].name != groups[j].name
  }

  /** The group at index `j` is the last one carrying its name. */
  predicate LastNamed<T>(groups: seq<Group<T>>, j: int)
    requires 0 <= j < |groups|
  {
    LastNamedBefore(groups, j, |groups|)
  }

  /** The names of the first `i` groups. */
  function NamesUpTo<T>(groups: seq<Group<T>>, i: int): set<string>
    requires 0 <= i <= |groups|
  {
    set j | 0 <= j < i :: groups[j].name
  }

  function Names<T>(groups: seq<Group<T>>): set<string> {
    NamesUpTo(groups, |groups|)
  }

  lemma NamesUpToStep<T>(groups: seq<Group<T>>, i: int)
    requires 0 <= i < |groups|
    ensures NamesUpTo(groups, i + 1) == NamesUpTo(groups, i) + {groups[i].name}
  {
    forall k | k in NamesUpTo(groups, i + 1)
      ensures k in NamesUpTo(groups, i) + {groups[i].name}
    {
      var j :| 0 <= j < i + 1 && groups[j].name == k;
    }
  }

  /**
   * `groupCount`: each group name mapped to its group's length; when several groups share
   * a name, the last one wins.
   */
  method GroupCount<T>(groups: seq<Group<T>>) returns (result: map<string, int>)
    ensures result.Keys == Names(groups)
    ensures forall j :: 0 <= j < |groups| && LastNamed(groups, j) ==> result[groups[j].name] == groups[j].Len()
  {
    result := map[];
    for i := 0 to |groups|
      invariant result.Keys == NamesUpTo(groups, i)
      invariant forall j :: 0 <= j < i && LastNamedBefore(groups, j, i) ==> result[groups[j].name] == groups[j].Len()
    {
      NamesUpToStep(groups, i);
      result := result[groups[i].name := groups[i].Len()];
    }
  }

  /** The values of `data` that `f` sends to the group named `key`, in encounter order. */
  function Members<T>(f: T -> string, key: string, data: seq<T>): seq<T> {
    Kept(x => f(x) == key, data)
  }

  /**
   * `m` maps the key of each of the first `i` values of `data` to its members so far, and
   * `keys` lists the keys of `m` once each, in first-encounter order.
   */
  ghost predicate GroupedUpTo<T>(m: map<string, seq<T>>, keys: seq<string>, f: T -> string, data: seq<T>, i: nat)
    requires i <= |data|
  {
    (forall k :: k in m <==> k in keys) &&
    (forall a, b :: 0 <= a < b < |keys| ==> keys[a] != keys[b]) &&
    (forall k :: k in m ==> m[k] == Members(f, k, data[..i]) && |m[k]| > 0) &&
    (forall j :: 0 <= j < i ==> f(data[j]) in m)
  }

  /** `m[key] = append(m[key], x)`, recording a new key in `keys`. */
  function AddToGroup<T>(m: map<string, seq<T>>, keys: seq<string>, key: string, x: T): (map<string, seq<T>>, seq<string>) {
    if key in m then (m[key := m[key] + [x]], keys) else (m[key := [x]], keys + [key])
  }

  lemma GroupedStep<T>(m: map<string, seq<T>>, keys: seq<string>, f: T -> string, data: seq<T>, i: nat)
    requires i < |data| && GroupedUpTo(m, keys, f, data, i)
    ensures GroupedUpTo(AddToGroup(m, keys, f(data[i]), data[i]).0, AddToGroup(m, keys, f(data[i]), data[i]).1, f, data, i + 1)
  {
    var x := data[i];
    var key := f(x);
    var (m', keys') := AddToGroup(m, keys, key, x);
    assert data[..i + 1] == data[..i] + [x];
    forall k | k in m'
      ensures m'[k] == Members(f, k, data[..i + 1])
    {
      KeptSnoc(y => f(y) == k, data[..i], x);
      if k == key && key !in m {
        KeptNone(y => f(y) == key, data[..i]);
      }
    }
  }

  /**
   * `groupBy`: one non-empty group per distinct key `f(x)`, each holding exactly the
   * elements with that key in encounter order. Go lists the groups in map iteration
   * order, which is unspecified; these groups come in first-encounter order, and the
   * contract says nothing about the order of groups.
   */
  method GroupBy<T>(data: seq<T>, f: T -> string) returns (groups: seq<Group<T>>)
    ensures forall i :: 0 <= i < |groups| ==> groups[i].data == Members(f, groups[i].name, data)
    ensures forall i :: 0 <= i < |groups| ==> |groups[i].data| > 0
    ensures forall i, j :: 0 <= i < j < |groups| ==> groups[i].name != groups[j].name
    ensures forall k :: 0 <= k < |data| ==> f(data[k]) in Names(groups)
  {
    var m: map<string, seq<T>> := map[];
    var keys: seq<string> := [];
    for i := 0 to |data|
      invariant GroupedUpTo(m, keys, f, data, i)
    {
      GroupedStep(m, keys, f, data, i);
      m, keys := AddToGroup(m, keys, f(data[i]), data[i]).0, AddToGroup(m, keys, f(data[i]), data[i]).1;
    }
    assert data[..|data|] == data;
    groups := seq(|keys|, i requires 0 <= i < |keys| => Group(keys[i], m[keys[i]]));
    forall k | 0 <= k < |data|
      ensures f(data[k]) in Names(groups)
    {
      assert f(data[k]) in m;
      assert f(data[k]) in keys;
      var a :| 0 <= a < |keys| && keys[a] == f(data[k]);
      assert groups[a].name == f(data[k]);
    }
  }

  // ---------------------------------------------------------------------------------
  // reduce as written
  // ---------------------------------------------------------------------------------

  function Positive(x: int): bool {
    x > 0
  }

  function Times(x: int, y: int): int {
    x * y
  }

  /**
   * terminal_operator.go's reduce over `[0, 2, 3]` behind a filter keeping positive
   * values, with multiplication: the loop as written reports `(0, false)`, because only a
   * kept first element may seed the accumulator, although 2 and 3 survive; the seeded
   * fold over the survivors is `(6, true)`.
   */
  method ReduceSkipsRejectedFirst() returns (asWritten: (int, bool), intended: (int, bool))
    ensures asWritten == (0, false)
    ensures intended == (6, true)
  {
    var ops := [Stage.Filter(Positive)];
    var mems := [Stage.Fresh<int>()];
    var data := [0, 2, 3];
    var outs := Engine.Run(Stage.Step, ops, mems, data).1;
    Stage.FilterCalls(Positive, Stage.Fresh(), data);
    ghost var stageOuts := Stage.Calls(Stage.Filter(Positive), Stage.Fresh(), data).1;
    assert outs == stageOuts;
    assert outs == [None, Some(2), Some(3)];
    assert outs[1..] == [Some(2)] + [Some(3)];
    Engine.SurvivorsAppend<int>([Some(2)], [Some(3)]);
    assert Engine.Survivors(outs[1..]) == [2, 3];
    Engine.SurvivorsAppend<int>([None, Some(2)], [Some(3)]);
    Engine.SurvivorsAppend<int>([None], [Some(2)]);
    assert outs == [None, Some(2)] + [Some(3)];
    assert Engine.Survivors(outs) == [2, 3];
    assert FoldLeft(Times, 0, [2, 3]) == 0;
    assert FoldLeft(Times, 2, [3]) == 6;
    assert [2, 3][1..] == [3];
    var _, z1, v1 := Engine.ReduceFromFirst(Stage.Step, ops, mems, data, Times, 0);
    var _, z2, v2 := Engine.Reduce(Stage.Step, ops, mems, data, Times, 0);
    asWritten, intended := (z1, v1), (z2, v2);
  }
}
