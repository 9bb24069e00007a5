/** `chunks(l, n)`: successive `n`-sized slices of `l`. */
module Functions {

  function Min(a: int, b: int): int { if a <= b then a else b }

  /**
   * The generator's slices from position `i` on: `l[i : i + n]`, then
   * the chunks from `i + n`, as `range(0, len(l), n)` steps. Python's
   * slice clamps at the end of the list, hence the `Min`.
   */
  function ChunksFrom<T>(l: seq<T>, n: nat, i: nat): seq<seq<T>>
    requires n > 0
    decreases |l| - i
  {
    if i >= |l| then [] else [l[i..Min(i + n, |l|)]] + ChunksFrom(l, n, i + n)
  }

  /**
   * `chunks(l, n)`; a step of 0 makes `range` raise, hence `n > 0`.
   * Joining the chunks in order gives back the list.
   */
  function Chunks<T>(l: seq<T>, n: nat): (r: seq<seq<T>>)
    requires n > 0
    ensures Flatten(r) == l
  {
    ChunksFromConcat(l, n, 0);
    ChunksFrom(l, n, 0)
  }

  /** Concatenation of a list of lists. */
  function Flatten<T>(xs: seq<seq<T>>): seq<T>
  {
    if xs == [] then [] else xs[0] + Flatten(xs[1..])
  }

  lemma {:induction false} ChunksFromConcat<T>(l: seq<T>, n: nat, i: nat)
    requires n > 0 && i <= |l|
    ensures Flatten(ChunksFrom(l, n, i)) == l[i..]
    decreases |l| - i
  {
    if i < |l| {
      var c := ChunksFrom(l, n, i);
      var j := Min(i + n, |l|);
      assert c[1..] == ChunksFrom(l, n, i + n);
      if i + n <= |l| {
        ChunksFromConcat(l, n, i + n);
        assert l[i..j] + l[j..] == l[i..];
      } else {
        assert ChunksFrom(l, n, i + n) == [];
        assert l[i..j] == l[i..];
      }
    }
  }

  /** From position `i` there are as many chunks as `n`-steps cover the rest. */
  lemma {:induction false} ChunksFromCount<T>(l: seq<T>, n: nat, i: nat)
    requires n > 0 && i <= |l|
    ensures var c := |ChunksFrom(l, n, i)|; (c - 1) * n < |l| - i <= c * n
    decreases |l| - i
  {
    if i < |l| {
      var c := |ChunksFrom(l, n, i)|;
      var c' := |ChunksFrom(l, n, i + n)|;
      assert c == 1 + c';
      assert (c - 1) * n == c' * n && c * n == c' * n + n;
      if i + n <= |l| {
        ChunksFromCount(l, n, i + n);
      } else {
        assert c' == 0;
      }
    }
  }

  /** Chunk `k` from position `i` starts `k` steps further. */
  lemma {:induction false} ChunksFromAt<T>(l: seq<T>, n: nat, i: nat, k: nat)
    requires n > 0 && k < |ChunksFrom(l, n, i)|
    ensures i + k * n < |l| && ChunksFrom(l, n, i)[k] == l[i + k * n .. Min(i + k * n + n, |l|)]
    decreases k
  {
    if k > 0 {
      var c' := ChunksFrom(l, n, i + n);
      assert ChunksFrom(l, n, i)[k] == c'[k - 1];
      ChunksFromAt(l, n, i + n, k - 1);
      assert i + n + (k - 1) * n == i + k * n;
    }
  }

  /** There are `ceil(len(l) / n)` chunks; an empty list has none. */
  lemma ChunksCount<T>(l: seq<T>, n: nat)
    requires n > 0
    ensures |Chunks(l, n)| == (|l| + n - 1) / n
    ensures l == [] <==> Chunks(l, n) == []
  {
    ChunksFromCount(l, n, 0);
    CeilDiv(|l|, n, |Chunks(l, n)|);
  }

  /** Chunk `k` is `l[k*n : k*n + n]`. */
  lemma ChunkAt<T>(l: seq<T>, n: nat, k: nat)
    requires n > 0 && k < |Chunks(l, n)|
    ensures k * n < |l| && Chunks(l, n)[k] == l[k * n .. Min(k * n + n, |l|)]
  {
    ChunksFromAt(l, n, 0, k);
  }

  /** Every chunk but the last has length `n`; the last has length 1 to `n`. */
  lemma ChunkLengths<T>(l: seq<T>, n: nat)
    requires n > 0
    ensures var c := Chunks(l, n);
      && (forall k :: 0 <= k < |c| - 1 ==> |c[k]| == n)
      && (c != [] ==> 1 <= |c[|c| - 1]| <= n)
  {
    var c := Chunks(l, n);
    var m := |c|;
    ChunksFromCount(l, n, 0);
    forall k | 0 <= k < m - 1
      ensures |c[k]| == n
    {
      ChunkAt(l, n, k);
      MulMono(k + 1, m - 1, n);
      assert k * n + n == (k + 1) * n;
    }
    if m > 0 {
      ChunkAt(l, n, m - 1);
      assert (m - 1) * n + n == m * n;
    }
  }

  lemma MulMono(a: int, b: int, n: nat)
    requires a <= b
    ensures a * n <= b * n
  {
  }

  lemma MulLess(a: int, b: int, n: nat)
    requires n > 0 && a * n < b * n
    ensures a < b
  {
  }

  /** `c` is the ceiling of `m / n` when `(c - 1) * n < m <= c * n`. */
  lemma CeilDiv(m: nat, n: nat, c: nat)
    requires n > 0 && (c - 1) * n < m <= c * n
    ensures c == (m + n - 1) / n
  {
    var q := (m + n - 1) / n;
    var r := (m + n - 1) % n;
    assert m + n - 1 == q * n + r && 0 <= r < n;
    assert (c - 1) * n < q * n;
    MulLess(c - 1, q, n);
    assert q * n < (c + 1) * n;
    MulLess(q, c + 1, n);
  }
}
