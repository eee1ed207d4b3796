/**
 Sequence vocabulary shared by the lottery model: minimum, absence of
 duplicates, index ranges and the `splice(i, 1)` removal the draw performs.
 */
module Seqs {

  function Min(a: int, b: int): int
  {
    if a <= b then a else b
  }

  /** No value occurs at two different positions. */
  predicate Distinct<T(==)>(s: seq<T>)
  {
    forall i, j :: 0 <= i < j < |s| ==> s[i] != s[j]
  }

  /** The positions `0, 1, ..., n - 1` of a sequence of length `n`. */
  function Range(n: nat): (r: seq<nat>)
    ensures |r| == n
    ensures forall k :: 0 <= k < n ==> r[k] == k
  {
    seq(n, (k: int) requires 0 <= k => k as nat)
  }

  lemma RangeIsDistinct(n: nat)
    ensures Distinct(Range(n))
  {
  }

  /**
   The sequence without its element at position `i`, as JavaScript's
   `s.splice(i, 1)` leaves it: one element shorter.
   */
  function RemoveAt<T>(s: seq<T>, i: nat): (r: seq<T>)
    requires i < |s|
    ensures |r| == |s| - 1
  {
    s[..i] + s[i + 1..]
  }

  /** `splice(i, 1)` takes out exactly the element at `i` and loses nothing else. */
  lemma RemoveAtMultiset<T>(s: seq<T>, i: nat)
    requires i < |s|
    ensures multiset(RemoveAt(s, i)) + multiset{s[i]} == multiset(s)
  {
    assert s == s[..i] + [s[i]] + s[i + 1..];
  }

  /** `splice(i, 1)` keeps the elements before `i` in place and shifts those
      after it down by one. */
  lemma RemoveAtShifts<T>(s: seq<T>, i: nat)
    requires i < |s|
    ensures forall k :: 0 <= k < i ==> RemoveAt(s, i)[k] == s[k]
    ensures forall k :: i <= k < |s| - 1 ==> RemoveAt(s, i)[k] == s[k + 1]
  {
  }

  /** Removing one position keeps a duplicate-free sequence duplicate-free
      and the removed value no longer occurs. */
  lemma RemoveAtDistinct<T>(s: seq<T>, i: nat)
    requires i < |s|
    requires Distinct(s)
    ensures Distinct(RemoveAt(s, i))
    ensures s[i] !in RemoveAt(s, i)
  {
    var r := RemoveAt(s, i);
    RemoveAtShifts(s, i);
    forall a, b | 0 <= a < b < |r|
      ensures r[a] != r[b]
    {
      var a' := if a < i then a else a + 1;
      var b' := if b < i then b else b + 1;
      assert r[a] == s[a'] && r[b] == s[b'];
    }
    forall k | 0 <= k < |r|
      ensures r[k] != s[i]
    {
      var k' := if k < i then k else k + 1;
      assert r[k] == s[k'] && k' != i;
    }
  }

  /** A value with a positive count in a multiset drawn from `s` occurs in `s`. */
  lemma InMultisetSubset<T>(a: seq<T>, s: seq<T>, x: T)
    requires multiset(a) <= multiset(s)
    requires x in a
    ensures x in s
  {
    assert x in multiset(a);
  }
}

/** Optional values standing in for calls that throw or find nothing. */
module Results {

  datatype Option<+T> = None | Some(value: T)
}
