/**
 The draw: sampling without replacement by "pick a random index of the
 working copy, push that element, splice it out". The secure generator is
 replaced by a supplied sequence of answers: `draws[step]` is what the
 generator returns to its call number `step`. When the working copy has
 `n` elements, that answer must lie in `[0, n)`, the range
 `crypto.randomInt(0, n)` promises.
 */
module Sampler {
  import opened Seqs

  /** The winners in draw order and what is left of the working copy. */
  datatype Draw<T> = Draw(winners: seq<T>, remaining: seq<T>)

  /**
   From call number `step` on, the generator answers each of the
   `min(count, n)` remaining rounds with an index inside the working copy
   as it stands at that round.
   */
  predicate ValidDraws(n: nat, count: nat, draws: seq<int>, step: nat)
    decreases count
  {
    count == 0 || n == 0 ||
    (step < |draws| && 0 <= draws[step] < n && ValidDraws(n - 1, count - 1, draws, step + 1))
  }

  /** The calls `step` to `step + m - 1` all have answers, and the answer
      to call `j` lies in `[0, n - (j - step))`, the size of the working copy
      at that call. */
  ghost predicate AnswersInRange(n: nat, m: nat, draws: seq<int>, step: nat)
  {
    && step + m <= |draws|
    && forall j :: step <= j < step + m ==> 0 <= draws[j] < n - (j - step)
  }

  /** `ValidDraws` says exactly that the answers of the `min(count, n)` rounds
      are in range. */
  lemma {:induction false} ValidDrawsRanges(n: nat, count: nat, draws: seq<int>, step: nat)
    requires step <= |draws|
    ensures ValidDraws(n, count, draws, step) <==> AnswersInRange(n, Min(count, n), draws, step)
    decreases count
  {
    if count > 0 && n > 0 {
      var m := Min(count, n);
      if ValidDraws(n, count, draws, step) {
        ValidDrawsRanges(n - 1, count - 1, draws, step + 1);
        assert Min(count - 1, n - 1) == m - 1;
        forall j | step <= j < step + m
          ensures 0 <= draws[j] < n - (j - step)
        {
          if j > step {
            assert draws[j] < (n - 1) - (j - (step + 1));
          }
        }
      }
      if AnswersInRange(n, m, draws, step) {
        assert step < |draws| && 0 <= draws[step] < n;
        forall j | step + 1 <= j < step + 1 + (m - 1)
          ensures 0 <= draws[j] < (n - 1) - (j - (step + 1))
        {
          assert step <= j < step + m;
        }
        assert AnswersInRange(n - 1, m - 1, draws, step + 1);
        ValidDrawsRanges(n - 1, count - 1, draws, step + 1);
        assert Min(count - 1, n - 1) == m - 1;
      }
    }
  }

  /** After one round the later answers are valid for the shortened working
      copy and one round fewer. */
  lemma ValidDrawsNext(n: nat, count: nat, draws: seq<int>, step: nat)
    requires n > 0 && count > 0
    requires ValidDraws(n, count, draws, step)
    ensures step < |draws| && 0 <= draws[step] < n
    ensures ValidDraws(n - 1, count - 1, draws, step + 1)
  {
  }

  /**
   The reference draw from call number `step` on: `min(count, |pool|)`
   winners, each taken out of the pool, and what is left of the pool.
   */
  function Sample<T>(pool: seq<T>, count: nat, draws: seq<int>, step: nat): (r: Draw<T>)
    requires ValidDraws(|pool|, count, draws, step)
    ensures |r.winners| == Min(count, |pool|)
    ensures |r.remaining| == |pool| - |r.winners|
    decreases count
  {
    if count == 0 || |pool| == 0 then Draw([], pool)
    else
      ValidDrawsNext(|pool|, count, draws, step);
      var i := draws[step];
      var rest := Sample(RemoveAt(pool, i), count - 1, draws, step + 1);
      Draw([pool[i]] + rest.winners, rest.remaining)
  }

  /**
   The draw loop's state: `winners` drawn so far and the working copy
   `temp` with `left` rounds still allowed from call number `step` on, such
   that finishing the draw from there completes the whole draw.
   */
  ghost predicate MidDraw<T>(whole: Draw<T>, winners: seq<T>, temp: seq<T>, left: nat, draws: seq<int>, step: nat)
  {
    && ValidDraws(|temp|, left, draws, step)
    && whole == Draw(winners + Sample(temp, left, draws, step).winners, Sample(temp, left, draws, step).remaining)
  }

  /** One round of the loop keeps the loop state. */
  lemma DrawRound<T>(whole: Draw<T>, winners: seq<T>, temp: seq<T>, left: nat, draws: seq<int>, step: nat)
    requires MidDraw(whole, winners, temp, left, draws, step)
    requires left > 0 && |temp| > 0
    ensures step < |draws| && 0 <= draws[step] < |temp|
    ensures MidDraw(whole, winners + [temp[draws[step]]], RemoveAt(temp, draws[step]), left - 1, draws, step + 1)
  {
    ValidDrawsNext(|temp|, left, draws, step);
    var i := draws[step];
    var next := Sample(RemoveAt(temp, i), left - 1, draws, step + 1);
    assert Sample(temp, left, draws, step) == Draw([temp[i]] + next.winners, next.remaining);
    assert winners + ([temp[i]] + next.winners) == (winners + [temp[i]]) + next.winners;
  }

  /** When the loop stops, the winners drawn and the working copy are the draw. */
  lemma DrawDone<T>(whole: Draw<T>, winners: seq<T>, temp: seq<T>, left: nat, draws: seq<int>, step: nat)
    requires MidDraw(whole, winners, temp, left, draws, step)
    requires left == 0 || |temp| == 0
    ensures whole == Draw(winners, temp)
  {
    assert Sample(temp, left, draws, step) == Draw([], temp);
    assert winners + [] == winners;
  }

  /** Winners and remaining pool together are exactly the pool, counted
      with multiplicity: nothing is lost, duplicated or invented. */
  lemma {:induction false} SampleConserves<T>(pool: seq<T>, count: nat, draws: seq<int>, step: nat)
    requires ValidDraws(|pool|, count, draws, step)
    ensures multiset(Sample(pool, count, draws, step).winners) + multiset(Sample(pool, count, draws, step).remaining)
            == multiset(pool)
    decreases count
  {
    if count > 0 && |pool| > 0 {
      ValidDrawsNext(|pool|, count, draws, step);
      var i := draws[step];
      var rest := Sample(RemoveAt(pool, i), count - 1, draws, step + 1);
      assert Sample(pool, count, draws, step) == Draw([pool[i]] + rest.winners, rest.remaining);
      SampleConserves(RemoveAt(pool, i), count - 1, draws, step + 1);
      RemoveAtMultiset(pool, i);
      ConservesStep(pool[i], rest.winners, rest.remaining, RemoveAt(pool, i), pool);
    }
  }

  /** Taking `x` out of `pool` and then drawing the rest conserves `pool`. */
  lemma ConservesStep<T>(x: T, w: seq<T>, rem: seq<T>, rest: seq<T>, pool: seq<T>)
    requires multiset(w) + multiset(rem) == multiset(rest)
    requires multiset(rest) + multiset{x} == multiset(pool)
    ensures multiset([x] + w) + multiset(rem) == multiset(pool)
  {
    assert multiset([x] + w) == multiset{x} + multiset(w);
  }

  /** Every winner is drawn from the pool. */
  lemma SampleFromPool<T>(pool: seq<T>, count: nat, draws: seq<int>, step: nat)
    requires ValidDraws(|pool|, count, draws, step)
    ensures forall w :: w in Sample(pool, count, draws, step).winners ==> w in pool
  {
    var r := Sample(pool, count, draws, step);
    SampleConserves(pool, count, draws, step);
    forall w | w in r.winners
      ensures w in pool
    {
      InMultisetSubset(r.winners, pool, w);
    }
  }

  /** A pool without duplicate addresses yields winners without duplicates. */
  lemma {:induction false} SampleKeepsDistinct<T>(pool: seq<T>, count: nat, draws: seq<int>, step: nat)
    requires ValidDraws(|pool|, count, draws, step)
    requires Distinct(pool)
    ensures Distinct(Sample(pool, count, draws, step).winners)
    decreases count
  {
    if count > 0 && |pool| > 0 {
      ValidDrawsNext(|pool|, count, draws, step);
      var i := draws[step];
      var rest := RemoveAt(pool, i);
      RemoveAtDistinct(pool, i);
      SampleKeepsDistinct(rest, count - 1, draws, step + 1);
      SampleFromPool(rest, count - 1, draws, step + 1);
      var w := Sample(rest, count - 1, draws, step + 1).winners;
      assert Sample(pool, count, draws, step).winners == [pool[i]] + w;
      PrependDistinct(pool[i], w);
    }
  }

  lemma PrependDistinct<T>(x: T, w: seq<T>)
    requires Distinct(w) && x !in w
    ensures Distinct([x] + w)
  {
    var all := [x] + w;
    forall a, b | 0 <= a < b < |all|
      ensures all[a] != all[b]
    {
      assert all[b] == w[b - 1];
      if a > 0 {
        assert all[a] == w[a - 1];
      }
    }
  }

  /** `a` is `b` read as positions into `pool`. */
  ghost predicate AtPositions<T>(pool: seq<T>, a: seq<T>, b: seq<nat>)
  {
    && |a| == |b|
    && forall k :: 0 <= k < |a| ==> b[k] < |pool| && a[k] == pool[b[k]]
  }

  /**
   Drawing from a sequence `a` and from a sequence `b` of positions into
   `pool` with `a[k] == pool[b[k]]` makes the same picks: the `k`-th winner
   of `a` is the pool element at the `k`-th winner of `b`.
   */
  lemma {:induction false} SampleTracksPositions<T>(pool: seq<T>, a: seq<T>, b: seq<nat>, count: nat, draws: seq<int>, step: nat)
    requires AtPositions(pool, a, b)
    requires ValidDraws(|a|, count, draws, step)
    ensures AtPositions(pool, Sample(a, count, draws, step).winners, Sample(b, count, draws, step).winners)
    decreases count
  {
    if count > 0 && |a| > 0 {
      ValidDrawsNext(|a|, count, draws, step);
      var i := draws[step];
      var a', b' := RemoveAt(a, i), RemoveAt(b, i);
      RemoveAtPositions(pool, a, b, i);
      SampleTracksPositions(pool, a', b', count - 1, draws, step + 1);
      var wa, wb := Sample(a', count - 1, draws, step + 1).winners, Sample(b', count - 1, draws, step + 1).winners;
      assert Sample(a, count, draws, step).winners == [a[i]] + wa;
      assert Sample(b, count, draws, step).winners == [b[i]] + wb;
      PrependAtPositions(pool, a[i], b[i], wa, wb);
    }
  }

  lemma RemoveAtPositions<T>(pool: seq<T>, a: seq<T>, b: seq<nat>, i: nat)
    requires AtPositions(pool, a, b)
    requires i < |a|
    ensures AtPositions(pool, RemoveAt(a, i), RemoveAt(b, i))
  {
    var a', b' := RemoveAt(a, i), RemoveAt(b, i);
    RemoveAtShifts(a, i);
    RemoveAtShifts(b, i);
    forall k | 0 <= k < |a'|
      ensures b'[k] < |pool| && a'[k] == pool[b'[k]]
    {
      var k' := if k < i then k else k + 1;
      assert a'[k] == a[k'] && b'[k] == b[k'];
    }
  }

  lemma PrependAtPositions<T>(pool: seq<T>, x: T, p: nat, a: seq<T>, b: seq<nat>)
    requires p < |pool| && x == pool[p]
    requires AtPositions(pool, a, b)
    ensures AtPositions(pool, [x] + a, [p] + b)
  {
    forall k | 0 < k <= |a|
      ensures ([p] + b)[k] < |pool| && ([x] + a)[k] == pool[([p] + b)[k]]
    {
      assert ([x] + a)[k] == a[k - 1] && ([p] + b)[k] == b[k - 1];
    }
  }

  /**
   In general only positions are guaranteed distinct: the winners are the
   pool elements at `min(count, |pool|)` pairwise different positions, which
   are the draw applied to the position list `0, ..., |pool| - 1`.
   */
  lemma WinnersAtDistinctPositions<T>(pool: seq<T>, count: nat, draws: seq<int>)
    requires ValidDraws(|pool|, count, draws, 0)
    ensures Distinct(Sample(Range(|pool|), count, draws, 0).winners)
    ensures AtPositions(pool, Sample(pool, count, draws, 0).winners, Sample(Range(|pool|), count, draws, 0).winners)
  {
    RangeIsDistinct(|pool|);
    SampleKeepsDistinct(Range(|pool|), count, draws, 0);
    SampleTracksPositions(pool, pool, Range(|pool|), count, draws, 0);
  }

  /**
   The loop's state after its first `i` rounds, computed round by round in
   the order the loop runs. A round whose answer falls outside the working
   copy leaves the state as it is; under `ValidDraws` that never happens.
   */
  ghost function Rounds<T>(holders: seq<T>, draws: seq<int>, i: nat): Draw<T>
    requires i <= |draws|
  {
    if i == 0 then Draw([], holders)
    else
      var p := Rounds(holders, draws, i - 1);
      var j := draws[i - 1];
      if 0 <= j < |p.remaining| then Draw(p.winners + [p.remaining[j]], RemoveAt(p.remaining, j)) else p
  }

  /** After `i` rounds, finishing the draw from there completes the whole draw. */
  lemma {:induction false} RoundsMidDraw<T>(holders: seq<T>, count: nat, draws: seq<int>, i: nat)
    requires ValidDraws(|holders|, count, draws, 0)
    requires i <= Min(count, |holders|) && i <= |draws|
    ensures MidDraw(Sample(holders, count, draws, 0), Rounds(holders, draws, i).winners,
                    Rounds(holders, draws, i).remaining, count - i, draws, i)
    ensures |Rounds(holders, draws, i).remaining| == |holders| - i
  {
    var whole := Sample(holders, count, draws, 0);
    if i == 0 {
      assert [] + whole.winners == whole.winners;
    } else {
      RoundsMidDraw(holders, count, draws, i - 1);
      var p := Rounds(holders, draws, i - 1);
      DrawRound(whole, p.winners, p.remaining, count - (i - 1), draws, i - 1);
      var j := draws[i - 1];
      assert Rounds(holders, draws, i) == Draw(p.winners + [p.remaining[j]], RemoveAt(p.remaining, j));
    }
  }

  /** The rounds the loop runs compute the reference draw. */
  lemma RoundsSample<T>(holders: seq<T>, count: nat, draws: seq<int>)
    requires ValidDraws(|holders|, count, draws, 0)
    ensures Min(count, |holders|) <= |draws|
    ensures Rounds(holders, draws, Min(count, |holders|)) == Sample(holders, count, draws, 0)
  {
    var n := Min(count, |holders|);
    ValidDrawsRanges(|holders|, count, draws, 0);
    RoundsMidDraw(holders, count, draws, n);
    var p := Rounds(holders, draws, n);
    DrawDone(Sample(holders, count, draws, 0), p.winners, p.remaining, count - n, draws, n);
  }

  /**
   The draw loop as written: `min(count, |holders|)` rounds, round `i`
   pushing the element of the working copy at the generator's `i`-th answer
   and splicing it out. The caller's list is never touched; the working
   copy ends as `remaining`.
   */
  method DrawWinners<T(==)>(holders: seq<T>, count: nat, draws: seq<int>) returns (winners: seq<T>, remaining: seq<T>)
    requires ValidDraws(|holders|, count, draws, 0)
    ensures Draw(winners, remaining) == Sample(holders, count, draws, 0)
    ensures |winners| == Min(count, |holders|)
    ensures |remaining| == |holders| - |winners|
    ensures multiset(winners) + multiset(remaining) == multiset(holders)
    ensures Distinct(holders) ==> Distinct(winners)
  {
    winners := [];
    var temp := holders;
    var drawCount := Min(count, |temp|);
    var i := 0;
    while i < drawCount
      invariant 0 <= i <= drawCount && i <= |draws|
      invariant |temp| == |holders| - i && |winners| == i
      invariant ValidDraws(|temp|, count - i, draws, i)
      invariant Draw(winners, temp) == Rounds(holders, draws, i)
    {
      ValidDrawsNext(|temp|, count - i, draws, i);
      var randomIndex := draws[i];
      assert Rounds(holders, draws, i + 1) == Draw(winners + [temp[randomIndex]], RemoveAt(temp, randomIndex));
      winners := winners + [temp[randomIndex]];
      temp := RemoveAt(temp, randomIndex);
      i := i + 1;
    }
    RoundsSample(holders, count, draws);
    assert Draw(winners, temp) == Sample(holders, count, draws, 0);
    remaining := temp;
    SampleConserves(holders, count, draws, 0);
    if Distinct(holders) {
      SampleKeepsDistinct(holders, count, draws, 0);
    }
  }
}
