/**
 Cutting the winner list into transaction-sized batches with
 `winners.slice(i, i + BATCH_SIZE)` for `i = 0, BATCH_SIZE, 2 * BATCH_SIZE, ...`.
 */
module Batching {
  import opened Seqs

  /** At most this many transfer instructions go into one transaction. */
  const BATCH_SIZE: nat := 5

  /**
   How many batches of at most `d` items hold `n` items: one more batch for
   every started group of `d`. The count is the least `b` with `n <= b * d`.
   */
  function BatchCount(n: nat, d: nat): (b: nat)
    requires d > 0
    ensures n <= b * d
    ensures b == 0 || (b - 1) * d < n
    decreases n
  {
    if n == 0 then 0
    else if n <= d then 1
    else 1 + BatchCount(n - d, d)
  }

  lemma MulMonotone(a: nat, b: nat, d: nat)
    ensures a <= b ==> a * d <= b * d
    decreases b - a
  {
    if a < b {
      MulMonotone(a + 1, b, d);
      assert (a + 1) * d == a * d + d;
    }
  }

  /** The batch count is `ceil(n / d)`, written `(n + d - 1) / d` with integer
      division. */
  lemma BatchCountIsCeil(n: nat, d: nat)
    requires d > 0
    ensures BatchCount(n, d) == (n + d - 1) / d
  {
    var b := BatchCount(n, d);
    DivOfRange(n + d - 1, d, b);
  }

  /** Integer division recovers `b` from any `m` in `[b * d, b * d + d)`. */
  lemma DivOfRange(m: nat, d: nat, b: nat)
    requires d > 0
    requires b * d <= m < b * d + d
    ensures m / d == b
  {
    var q, r := m / d, m % d;
    assert m == q * d + r && 0 <= r < d;
    MulMonotone(q + 1, b, d);
    assert (q + 1) * d == q * d + d;
    assert b <= q;
    MulMonotone(b + 1, q, d);
    assert (b + 1) * d == b * d + d;
    assert q <= b;
  }

  /** JavaScript's `s.slice(i, j)` for non-negative bounds: both ends are
      clamped to the length, and a reversed range is empty. */
  function Slice<T>(s: seq<T>, i: nat, j: nat): (r: seq<T>)
    ensures i <= j <= |s| ==> r == s[i..j]
    ensures |s| <= i ==> r == []
    ensures i <= |s| <= j ==> r == s[i..]
  {
    var lo := Min(i, |s|);
    var hi := Min(j, |s|);
    if lo <= hi then s[lo..hi] else []
  }

  /** The `k`-th batch: the winners from position `k * size` up to, but not
      including, position `(k + 1) * size`. */
  function BatchAt<T>(ws: seq<T>, size: nat, k: nat): seq<T>
  {
    Slice(ws, k * size, k * size + size)
  }

  /** The batches read back one after another. */
  function Flatten<T>(bs: seq<seq<T>>): seq<T>
  {
    if |bs| == 0 then [] else Flatten(bs[..|bs| - 1]) + bs[|bs| - 1]
  }

  /** The loop state after the batches starting below `i` have been cut. */
  ghost predicate CutUpTo<T>(ws: seq<T>, size: nat, batches: seq<seq<T>>, i: nat)
    requires size > 0
  {
    && i == |batches| * size
    && |batches| + BatchCount(|ws| - Min(i, |ws|), size) == BatchCount(|ws|, size)
    && Flatten(batches) == ws[..Min(i, |ws|)]
    && (forall k :: 0 <= k < |batches| ==> 0 < |batches[k]| <= size)
    && (forall k :: 0 <= k < |batches| ==> batches[k] == BatchAt(ws, size, k))
  }

  /** Cutting the batch that starts at `i < |ws|` keeps the loop state. */
  lemma CutNext<T>(ws: seq<T>, size: nat, batches: seq<seq<T>>, i: nat)
    requires size > 0
    requires i < |ws|
    requires CutUpTo(ws, size, batches, i)
    ensures CutUpTo(ws, size, batches + [Slice(ws, i, i + size)], i + size)
  {
    var batch := Slice(ws, i, i + size);
    var next := batches + [batch];
    assert Min(i, |ws|) == i;
    CutCount(|batches|, |ws|, size, i);
    CutFlatten(ws, size, batches, i);
    assert batch == BatchAt(ws, size, |batches|);
    forall k | 0 <= k < |next|
      ensures 0 < |next[k]| <= size && next[k] == BatchAt(ws, size, k)
    {
      if k < |batches| {
        assert next[k] == batches[k];
      }
    }
  }

  /** The batch cut at `i` extends the winners read back so far. */
  lemma CutFlatten<T>(ws: seq<T>, size: nat, batches: seq<seq<T>>, i: nat)
    requires size > 0
    requires i < |ws|
    requires Flatten(batches) == ws[..i]
    ensures Flatten(batches + [Slice(ws, i, i + size)]) == ws[..Min(i + size, |ws|)]
  {
    var next := batches + [Slice(ws, i, i + size)];
    assert next[..|batches|] == batches;
    assert ws[..Min(i + size, |ws|)] == ws[..i] + Slice(ws, i, i + size);
  }

  /** Cutting batch number `b`, which starts at `i < n`, leaves one batch
      fewer to cut. */
  lemma CutCount(b: nat, n: nat, size: nat, i: nat)
    requires size > 0
    requires i < n && i == b * size
    requires b + BatchCount(n - i, size) == BatchCount(n, size)
    ensures i + size == (b + 1) * size
    ensures (b + 1) + BatchCount(n - Min(i + size, n), size) == BatchCount(n, size)
  {
    assert BatchCount(n - i, size) == 1 + BatchCount(n - Min(i + size, n), size);
  }

  /**
   The batch loop's slicing as written. The result has `BatchCount(|ws|, size)`
   batches, each non-empty and at most `size` long, the `k`-th being
   `ws.slice(k * size, k * size + size)`, and read back in order they give
   the winners in draw order.
   */
  method Partition<T>(ws: seq<T>, size: nat) returns (batches: seq<seq<T>>)
    requires size > 0
    ensures |batches| == BatchCount(|ws|, size)
    ensures forall k :: 0 <= k < |batches| ==> 0 < |batches[k]| <= size
    ensures forall k :: 0 <= k < |batches| ==> batches[k] == BatchAt(ws, size, k)
    ensures Flatten(batches) == ws
  {
    batches := [];
    var i := 0;
    while i < |ws|
      invariant CutUpTo(ws, size, batches, i)
    {
      CutNext(ws, size, batches, i);
      batches := batches + [Slice(ws, i, i + size)];
      i := i + size;
    }
    assert ws[..Min(i, |ws|)] == ws;
  }

  /**
   Every winner lands in exactly the batch its position says: winner
   `k * size + t` (with `t < size`) is element `t` of batch `k`, and that
   batch exists.
   */
  lemma WinnerBatch<T>(ws: seq<T>, size: nat, k: nat, t: nat)
    requires size > 0
    requires t < size
    requires k * size + t < |ws|
    ensures k < BatchCount(|ws|, size)
    ensures t < |BatchAt(ws, size, k)|
    ensures BatchAt(ws, size, k)[t] == ws[k * size + t]
  {
    MulMonotone(BatchCount(|ws|, size), k, size);
  }
}
