/**
 * `std::sort` on a vector of floats, as a function on sequences, and the
 * order statistics that the size estimator reads off the sorted result.
 */
module Sorting {

  predicate SortedAsc(s: seq<real>) {
    forall a, b :: 0 <= a < b < |s| ==> s[a] <= s[b]
  }

  /** A sorted sequence stays sorted when an element no larger than its head is put in front. */
  lemma SortedCons(x: real, t: seq<real>)
    requires SortedAsc(t) && (t != [] ==> x <= t[0])
    ensures SortedAsc([x] + t)
  {
  }

  /** The recursive case of Insert: `v` goes into the tail when it exceeds the head. */
  lemma InsertBehindHead(s: seq<real>, v: real, t: seq<real>)
    requires SortedAsc(s) && s != [] && s[0] < v
    requires SortedAsc(t) && |t| == |s| && t[0] == (if s[1..] == [] || v <= s[1] then v else s[1])
    requires multiset(t) == multiset(s[1..]) + multiset{v}
    ensures SortedAsc([s[0]] + t)
    ensures multiset([s[0]] + t) == multiset(s) + multiset{v}
  {
    assert s == [s[0]] + s[1..];
    SortedCons(s[0], t);
  }

  /** Inserts `v` into the sorted sequence `s`. */
  function Insert(v: real, s: seq<real>): (r: seq<real>)
    requires SortedAsc(s)
    ensures |r| == |s| + 1
    ensures r[0] == if s == [] || v <= s[0] then v else s[0]
    ensures SortedAsc(r)
    ensures multiset(r) == multiset(s) + multiset{v}
  {
    if s == [] || v <= s[0] then
      [v] + s
    else
      var t := Insert(v, s[1..]);
      InsertBehindHead(s, v, t);
      [s[0]] + t
  }

  /** The ascending permutation of `s`; stands for `std::sort`. */
  function Sort(s: seq<real>): (r: seq<real>)
    ensures SortedAsc(r)
    ensures |r| == |s|
    ensures multiset(r) == multiset(s)
  {
    if s == [] then [] else
      assert s == [s[0]] + s[1..];
      Insert(s[0], Sort(s[1..]))
  }

  /** Number of elements of `s` strictly below `v`. */
  function CountBelow(s: seq<real>, v: real): nat {
    if s == [] then 0 else (if s[0] < v then 1 else 0) + CountBelow(s[1..], v)
  }

  /** Number of elements of `s` strictly above `v`. */
  function CountAbove(s: seq<real>, v: real): nat {
    if s == [] then 0 else (if s[0] > v then 1 else 0) + CountAbove(s[1..], v)
  }

  /** The element at index n/2 of the sorted sequence. */
  function UpperMedian(s: seq<real>): real
    requires |s| > 0
  {
    Sort(s)[|s| / 2]
  }

  lemma {:induction false} CountsOfInsert(x: real, s: seq<real>, v: real)
    requires SortedAsc(s)
    ensures CountBelow(Insert(x, s), v) == (if x < v then 1 else 0) + CountBelow(s, v)
    ensures CountAbove(Insert(x, s), v) == (if x > v then 1 else 0) + CountAbove(s, v)
  {
    if s == [] || x <= s[0] {
      assert ([x] + s)[1..] == s;
    } else {
      var t := Insert(x, s[1..]);
      assert ([s[0]] + t)[1..] == t;
      CountsOfInsert(x, s[1..], v);
    }
  }

  /** Sorting does not change how many elements lie below or above a value. */
  lemma {:induction false} CountsOfSort(s: seq<real>, v: real)
    ensures CountBelow(Sort(s), v) == CountBelow(s, v)
    ensures CountAbove(Sort(s), v) == CountAbove(s, v)
  {
    if s != [] {
      CountsOfSort(s[1..], v);
      CountsOfInsert(s[0], Sort(s[1..]), v);
    }
  }

  lemma {:induction false} CountBelowBounded(s: seq<real>, v: real, k: nat)
    requires forall m :: k <= m < |s| ==> s[m] >= v
    ensures CountBelow(s, v) <= k
  {
    if s != [] {
      CountBelowBounded(s[1..], v, if k == 0 then 0 else k - 1);
    }
  }

  lemma {:induction false} CountAboveBounded(s: seq<real>, v: real, k: nat)
    requires k < |s|
    requires forall m :: 0 <= m <= k ==> s[m] <= v
    ensures CountAbove(s, v) <= |s| - 1 - k
  {
    if k == 0 {
      CountAboveAtMostLength(s[1..], v);
    } else {
      CountAboveBounded(s[1..], v, k - 1);
    }
  }

  lemma {:induction false} CountAboveAtMostLength(s: seq<real>, v: real)
    ensures CountAbove(s, v) <= |s|
  {
    if s != [] {
      CountAboveAtMostLength(s[1..], v);
    }
  }

  /** In a sorted sequence, at most k elements lie below the element at index k and at most n-1-k above it. */
  lemma SortedIndexRank(t: seq<real>, k: nat)
    requires SortedAsc(t) && k < |t|
    ensures CountBelow(t, t[k]) <= k
    ensures CountAbove(t, t[k]) <= |t| - 1 - k
  {
    var m := t[k];
    forall i | k < i < |t| ensures t[i] >= m {
      assert t[k] <= t[i];
    }
    CountBelowBounded(t, m, k);
    forall i | 0 <= i < k ensures t[i] <= m {
      assert t[i] <= t[k];
    }
    CountAboveBounded(t, m, k);
  }

  /**
   * The upper median is an element of `s`, at most n/2 elements lie strictly
   * below it and at most n-1-n/2 strictly above it.
   */
  lemma UpperMedianIsMedian(s: seq<real>)
    requires |s| > 0
    ensures UpperMedian(s) in s
    ensures CountBelow(s, UpperMedian(s)) <= |s| / 2
    ensures CountAbove(s, UpperMedian(s)) <= |s| - 1 - |s| / 2
  {
    var t := Sort(s);
    var h := |s| / 2;
    var m := t[h];
    assert m in multiset(s) by {
      assert m in multiset(t);
    }
    SortedIndexRank(t, h);
    CountsOfSort(s, m);
  }
}
