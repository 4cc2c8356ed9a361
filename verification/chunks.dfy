/**
 * The chunk shape shared by `partitionedSource.Partition` (sources/sources.go) and the
 * chunking loop of scatter.go: consecutive slices of exactly `size` elements, the last
 * one possibly shorter but never empty.
 */
module Chunks {
  import opened Seqs

  /** Ceiling division, the integer form of `math.Ceil(float64(a) / float64(b))`. */
  function CeilDiv(a: nat, b: nat): (q: nat)
    requires b >= 1
  {
    (a + b - 1) / b
  }

  /** `chunks` cuts `data` into consecutive slices of `size` elements, the last one 1 to `size` long. */
  ghost predicate ChunkedBy<T>(chunks: seq<seq<T>>, data: seq<T>, size: nat) {
    size >= 1 &&
    Flatten(chunks) == data &&
    (forall i :: 0 <= i < |chunks| - 1 ==> |chunks[i]| == size) &&
    (|chunks| > 0 ==> 1 <= |chunks[|chunks| - 1]| <= size)
  }

  lemma MulLe(x: nat, y: nat, b: nat)
    requires x <= y
    ensures x * b <= y * b
  {
    assert y * b == x * b + (y - x) * b;
  }

  lemma MulSucc(x: nat, b: nat)
    ensures (x + 1) * b == x * b + b
  {
  }

  /** `q` is the quotient of `q * b + r` by `b` when `0 <= r < b`. */
  lemma DivUnique(a: nat, b: nat, q: nat, r: nat)
    requires b >= 1 && a == q * b + r && r < b
    ensures a / b == q
  {
    var q' := a / b;
    DivFloor(a, b);
    if q' < q {
      MulLe(q' + 1, q, b);
      MulSucc(q', b);
    } else if q' > q {
      MulLe(q + 1, q', b);
      MulSucc(q, b);
    }
  }

  /** `c - 1` full chunks and a last one of 1 to `size` elements make `c` chunks' worth. */
  lemma CeilOfShape(c: nat, size: nat, last: nat)
    requires size >= 1 && c >= 1 && 1 <= last <= size
    ensures CeilDiv((c - 1) * size + last, size) == c
  {
    MulSucc(c - 1, size);
    DivUnique((c - 1) * size + last + size - 1, size, c, last - 1);
  }

  /** There are exactly `ceil(|data| / size)` chunks. */
  lemma ChunkCount<T>(chunks: seq<seq<T>>, data: seq<T>, size: nat)
    requires ChunkedBy(chunks, data, size)
    ensures |chunks| == CeilDiv(|data|, size)
  {
    if |chunks| == 0 {
      assert data == [];
    } else {
      var c := |chunks|;
      var init, last := chunks[..c - 1], chunks[c - 1];
      assert chunks == init + [last];
      FlattenAppend(init, [last]);
      assert Flatten([last]) == last by {
        assert [last][..0] == [];
      }
      FlattenLength(init, size);
      CeilOfShape(c, size, |last|);
    }
  }

  /** A chunk count `ceil(L / ceil(L / n))` of a non-empty input never exceeds `n`, nor falls below 1. */
  lemma PartitionCount(len: nat, n: nat)
    requires len >= 1 && n >= 1
    ensures CeilDiv(len, n) >= 1
    ensures 1 <= CeilDiv(len, CeilDiv(len, n)) <= n
  {
    var size := CeilDiv(len, n);
    DivFloor(len + n - 1, n);
    assert size * n >= len;
    var count := CeilDiv(len, size);
    DivFloor(len + size - 1, size);
    MulSucc(n, size);
    assert n * size == size * n;
    if count > n {
      MulLe(n + 1, count, size);
    }
  }

  /** The quotient rounds down. */
  lemma DivFloor(a: nat, b: nat)
    requires b >= 1
    ensures (a / b) * b <= a < (a / b) * b + b
  {
  }
}
