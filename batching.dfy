/**
 * The batch sampler shared by both generators in data_generator.py: the manifest
 * is shuffled (`DataFrame.sample(frac=1, random_state=...)`) and then cut into
 * contiguous chunks by `[df[i:i + batch] for i in range(0, len(df), batch)]`.
 *
 * The shuffle's randomness belongs to pandas, so the model takes the permutation
 * it produces as an input: a seeded shuffle is a permutation chosen by the seed.
 */
module Batching {
  import opened Wrappers

  /** The row positions 0, 1, ..., n - 1. */
  function Indices(n: nat): (r: seq<nat>)
    ensures |r| == n
    ensures forall i :: 0 <= i < n ==> r[i] == i
  {
    seq(n, i requires 0 <= i < n => i)
  }

  predicate AllBelow(p: seq<nat>, n: nat)
  {
    forall i :: 0 <= i < |p| ==> p[i] < n
  }

  /** `perm` lists every position of an n-row table exactly once. */
  predicate IsPermutation(perm: seq<nat>, n: nat)
  {
    |perm| == n && AllBelow(perm, n) && multiset(perm) == multiset(Indices(n))
  }

  /** The rows taken in the order `perm` names them. */
  function Shuffle<T>(rows: seq<T>, perm: seq<nat>): (r: seq<T>)
    requires AllBelow(perm, |rows|)
    ensures |r| == |perm|
    ensures forall i :: 0 <= i < |perm| ==> r[i] == rows[perm[i]]
  {
    seq(|perm|, i requires 0 <= i < |perm| => rows[perm[i]])
  }

  lemma ShuffleAppend<T>(rows: seq<T>, p: seq<nat>, q: seq<nat>)
    requires AllBelow(p, |rows|) && AllBelow(q, |rows|)
    ensures AllBelow(p + q, |rows|)
    ensures Shuffle(rows, p + q) == Shuffle(rows, p) + Shuffle(rows, q)
  {
    assert forall i :: 0 <= i < |p + q| ==> (p + q)[i] == if i < |p| then p[i] else q[i - |p|];
  }

  /** Taking one more position adds that one row to what is selected. */
  lemma ShuffleInsert<T>(rows: seq<T>, left: seq<nat>, x: nat, right: seq<nat>)
    requires AllBelow(left, |rows|) && x < |rows| && AllBelow(right, |rows|)
    ensures AllBelow(left + [x] + right, |rows|) && AllBelow(left + right, |rows|)
    ensures multiset(Shuffle(rows, left + [x] + right)) == multiset(Shuffle(rows, left + right)) + multiset{rows[x]}
  {
    ShuffleAppend(rows, left, [x]);
    ShuffleAppend(rows, left + [x], right);
    ShuffleAppend(rows, left, right);
    assert Shuffle(rows, [x]) == [rows[x]];
  }

  lemma RemoveAt(q: seq<nat>, k: nat, n: nat)
    requires k < |q| && AllBelow(q, n)
    ensures q == q[..k] + [q[k]] + q[k + 1..]
    ensures multiset(q[..k] + q[k + 1..]) == multiset(q) - multiset{q[k]}
    ensures AllBelow(q[..k], n) && q[k] < n && AllBelow(q[k + 1..], n)
    ensures AllBelow(q[..k] + q[k + 1..], n)
  {
    assert q == q[..k] + [q[k]] + q[k + 1..];
    var r := q[..k] + q[k + 1..];
    assert forall i :: 0 <= i < |r| ==> r[i] == if i < k then q[i] else q[i + 1];
  }

  /** Two orderings holding the same positions select the same rows, counted with multiplicity. */
  lemma {:induction false} ShuffleRespectsMultiset<T>(rows: seq<T>, p: seq<nat>, q: seq<nat>)
    requires AllBelow(p, |rows|) && AllBelow(q, |rows|)
    requires multiset(p) == multiset(q)
    ensures multiset(Shuffle(rows, p)) == multiset(Shuffle(rows, q))
    decreases |p|
  {
    if p == [] {
      assert |multiset(q)| == 0;
      assert q == [];
    } else {
      var j := |p| - 1;
      var x := p[j];
      assert x in multiset(q);
      var k :| 0 <= k < |q| && q[k] == x;
      RemoveAt(p, j, |rows|);
      RemoveAt(q, k, |rows|);
      var p', q' := p[..j] + p[j + 1..], q[..k] + q[k + 1..];
      ShuffleRespectsMultiset(rows, p', q');
      ShuffleInsert(rows, p[..j], x, p[j + 1..]);
      ShuffleInsert(rows, q[..k], x, q[k + 1..]);
    }
  }

  /** Shuffling with a permutation keeps every row exactly as often as the manifest has it. */
  lemma ShufflePermutes<T>(rows: seq<T>, perm: seq<nat>)
    requires IsPermutation(perm, |rows|)
    ensures |Shuffle(rows, perm)| == |rows|
    ensures multiset(Shuffle(rows, perm)) == multiset(rows)
  {
    ShuffleRespectsMultiset(rows, perm, Indices(|rows|));
    assert Shuffle(rows, Indices(|rows|)) == rows;
  }

  /** The number of offsets `range(0, n, b)` produces: ceil(n / b). */
  function CeilDiv(n: nat, b: nat): nat
    requires b > 0
  {
    (n + b - 1) / b
  }

  lemma MulLe(a: int, c: int, b: int)
    requires a <= c && b >= 0
    ensures a * b <= c * b
  {
  }

  lemma DivIs(x: int, b: int, q: int)
    requires b > 0 && q * b <= x < q * b + b
    ensures x / b == q
  {
    var d, r := x / b, x % b;
    assert x == d * b + r && 0 <= r < b;
    if d < q {
      assert (d + 1) * b == d * b + b;
      MulLe(d + 1, q, b);
    } else if d > q {
      assert (q + 1) * b == q * b + b;
      MulLe(q + 1, d, b);
    }
  }

  /**
   * CeilDiv(n, b) is the ceiling of n / b: the least k whose k chunks of b
   * rows cover n rows.
   */
  lemma CeilDivIsCeiling(n: nat, b: nat)
    requires b > 0
    ensures CeilDiv(n, b) * b >= n
    ensures CeilDiv(n, b) == 0 || (CeilDiv(n, b) - 1) * b < n
    ensures n == 0 <==> CeilDiv(n, b) == 0
  {
    var d, r := (n + b - 1) / b, (n + b - 1) % b;
    assert n + b - 1 == d * b + r && 0 <= r < b;
    assert d * b == n + b - 1 - r;
    assert (d - 1) * b == d * b - b;
  }

  /**
   * The chunks `df[i:i + b]` for the offsets i = start, start + b, ... below |rows|.
   * Python's slice stops at the end of the table, hence the Min.
   */
  function ChunksFrom<T>(rows: seq<T>, b: nat, start: nat): seq<seq<T>>
    requires b > 0 && start <= |rows|
    decreases |rows| - start
  {
    if start == |rows| then []
    else
      var stop := Min(start + b, |rows|);
      [rows[start..stop]] + ChunksFrom(rows, b, stop)
  }

  /**
   * The chunk list comprehension of `load`. `range` refuses a zero step
   * (ValueError, modelled as None) and yields nothing for a negative one.
   */
  function Chunks<T>(rows: seq<T>, batch: int): (r: Option<seq<seq<T>>>)
    ensures r.None? <==> batch == 0
    ensures batch < 0 ==> r == Some([])
    ensures batch > 0 ==> |r.value| == CeilDiv(|rows|, batch)
  {
    if batch == 0 then None
    else if batch < 0 then Some([])
    else
      ChunksFromCount(rows, batch, 0);
      Some(ChunksFrom(rows, batch, 0))
  }

  /** The chunks laid end to end. */
  function Flatten<T>(chunks: seq<seq<T>>): seq<T>
  {
    if chunks == [] then [] else chunks[0] + Flatten(chunks[1..])
  }

  /** Every row of every chunk occurs in the chunks laid end to end. */
  lemma {:induction false} FlattenContains<T>(chunks: seq<seq<T>>, k: nat, i: nat)
    requires k < |chunks| && i < |chunks[k]|
    ensures chunks[k][i] in Flatten(chunks)
    decreases k
  {
    assert Flatten(chunks) == chunks[0] + Flatten(chunks[1..]);
    if k == 0 {
      assert chunks[0][i] == Flatten(chunks)[i];
    } else {
      FlattenContains(chunks[1..], k - 1, i);
    }
  }

  lemma {:induction false} ChunksFromCount<T>(rows: seq<T>, b: nat, start: nat)
    requires b > 0 && start <= |rows|
    ensures |ChunksFrom(rows, b, start)| == CeilDiv(|rows| - start, b)
    decreases |rows| - start
  {
    var m := |rows| - start;
    if start == |rows| {
      DivIs(b - 1, b, 0);
    } else {
      var stop := Min(start + b, |rows|);
      ChunksFromCount(rows, b, stop);
      if start + b >= |rows| {
        DivIs(b - 1, b, 0);
        DivIs(m + b - 1, b, 1);
      } else {
        var k := CeilDiv(m - b, b);
        CeilDivIsCeiling(m - b, b);
        assert k * b >= m - b && (k == 0 || (k - 1) * b < m - b);
        assert k > 0;
        DivIs(m + b - 1, b, k + 1);
      }
    }
  }

  lemma {:induction false} ChunksFromSizes<T>(rows: seq<T>, b: nat, start: nat)
    requires b > 0 && start <= |rows|
    ensures var c := ChunksFrom(rows, b, start);
      (forall k :: 0 <= k < |c| - 1 ==> |c[k]| == b) &&
      (c != [] ==> 1 <= |c[|c| - 1]| <= b)
    decreases |rows| - start
  {
    if start < |rows| {
      ChunksFromSizes(rows, b, Min(start + b, |rows|));
    }
  }

  lemma {:induction false} ChunksFromConcat<T>(rows: seq<T>, b: nat, start: nat)
    requires b > 0 && start <= |rows|
    ensures Flatten(ChunksFrom(rows, b, start)) == rows[start..]
    decreases |rows| - start
  {
    if start < |rows| {
      var stop := Min(start + b, |rows|);
      var c := ChunksFrom(rows, b, start);
      ChunksFromConcat(rows, b, stop);
      assert c[0] == rows[start..stop] && c[1..] == ChunksFrom(rows, b, stop);
      assert rows[start..] == rows[start..stop] + rows[stop..];
    }
  }

  /**
   * For a positive batch size b and n rows, `load` cuts ceil(n / b) chunks; an empty
   * manifest gives none. Every chunk but the last holds b rows, the last between 1 and
   * b, and the chunks laid end to end give back the rows in order.
   */
  lemma Partition<T>(rows: seq<T>, b: int)
    requires b > 0
    ensures Chunks(rows, b).Some?
    ensures var c := Chunks(rows, b).value;
      |c| == CeilDiv(|rows|, b) &&
      (rows == [] <==> c == []) &&
      (forall k :: 0 <= k < |c| - 1 ==> |c[k]| == b) &&
      (c != [] ==> 1 <= |c[|c| - 1]| <= b) &&
      Flatten(c) == rows
  {
    ChunksFromCount(rows, b, 0);
    ChunksFromSizes(rows, b, 0);
    ChunksFromConcat(rows, b, 0);
    CeilDivIsCeiling(|rows|, b);
  }

  /**
   * Every row of the manifest lands in exactly one batch position, as often as
   * the manifest lists it: the batches of a shuffled manifest are a permutation of it.
   */
  lemma BatchesCoverManifest<T>(manifest: seq<T>, perm: seq<nat>, b: int)
    requires IsPermutation(perm, |manifest|) && b > 0
    ensures Chunks(Shuffle(manifest, perm), b).Some?
    ensures var c := Chunks(Shuffle(manifest, perm), b).value;
      |c| == CeilDiv(|manifest|, b) &&
      Flatten(c) == Shuffle(manifest, perm) &&
      multiset(Flatten(c)) == multiset(manifest)
  {
    Partition(Shuffle(manifest, perm), b);
    ShufflePermutes(manifest, perm);
  }

  /** Three manifest rows in batches of two, whatever the shuffle: a batch of two, then a batch of one. */
  lemma ThreeRowsInBatchesOfTwo(perm: seq<nat>)
    requires IsPermutation(perm, 3)
    ensures var c := Chunks(Shuffle([1, 2, 3], perm), 2).value;
      |c| == 2 && |c[0]| == 2 && |c[1]| == 1 && multiset(c[0] + c[1]) == multiset{1, 2, 3}
  {
    var c := Chunks(Shuffle([1, 2, 3], perm), 2).value;
    BatchesCoverManifest([1, 2, 3], perm, 2);
    assert CeilDiv(3, 2) == 2;
    Partition(Shuffle([1, 2, 3], perm), 2);
    assert Flatten(c) == c[0] + (c[1] + Flatten(c[2..]));
    assert Flatten(c[2..]) == [];
    assert c[0] + c[1] == Flatten(c);
  }
}
