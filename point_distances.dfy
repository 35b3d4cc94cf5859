/**
 * The O(n^2) distance scans over point sets: the minimum pairwise distance,
 * the grid-spacing estimate (upper median of nearest-neighbour distances)
 * and the nearest neighbour of the first point. Distances are squared
 * (see module Geometry); the source's -1 sentinel stays -1.
 */
module PointDistances {
  import opened Geometry
  import opened Sorting

  /** getMinDistance: the least distance between points at two distinct indices; `Infinite` (FLT_MAX) when there is no such pair. */
  method GetMinDistance(points: seq<Point>) returns (r: Extended)
    ensures r.Infinite? <==> |points| < 2
    ensures r.Finite? ==> IsMinPairDist(points, r.value)
  {
    r := Infinite;
    ghost var wa, wb := 0, 0;
    var n := |points|;
    var i := 0;
    while i < n
      invariant 0 <= i <= n
      invariant forall a, b :: 0 <= a < i && 0 <= b < n && a != b ==> r.Finite? && r.value <= SqDist(points[a], points[b])
      invariant r.Finite? ==> 0 <= wa < n && 0 <= wb < n && wa != wb && r.value == SqDist(points[wa], points[wb])
      invariant r.Infinite? ==> i == 0 || n < 2
    {
      var j := 0;
      while j < n
        invariant 0 <= j <= n
        invariant forall a, b :: 0 <= a < i && 0 <= b < n && a != b ==> r.Finite? && r.value <= SqDist(points[a], points[b])
        invariant forall b :: 0 <= b < j && b != i ==> r.Finite? && r.value <= SqDist(points[i], points[b])
        invariant r.Finite? ==> 0 <= wa < n && 0 <= wb < n && wa != wb && r.value == SqDist(points[wa], points[wb])
        invariant r.Infinite? ==> (i == 0 && j <= 1) || n < 2
      {
        if j != i {
          var dist := SqDist(points[i], points[j]);
          if Below(dist, r) {
            r := Finite(dist);
            wa, wb := i, j;
          }
        }
        j := j + 1;
      }
      i := i + 1;
    }
  }

  /**
   * The nearest squared distance from `points[i]` to the points at indices
   * below `m` other than `i`, accumulated as the inner loop of
   * estimateCheckerBoardSize does; `Infinite` while there is no other index.
   */
  function NearestAmong(points: seq<Point>, i: nat, m: nat): (e: Extended)
    requires i < |points| && m <= |points|
    ensures e.Infinite? <==> m == 0 || (m == 1 && i == 0)
    ensures e.Finite? ==> forall k :: 0 <= k < m && k != i ==> e.value <= SqDist(points[i], points[k])
    ensures e.Finite? ==> exists k :: 0 <= k < m && k != i && e.value == SqDist(points[i], points[k])
  {
    if m == 0 then Infinite
    else
      var e := NearestAmong(points, i, m - 1);
      var d := SqDist(points[i], points[m - 1]);
      if m - 1 == i || !Below(d, e) then e else Finite(d)
  }

  /** The nearest-neighbour distances of points 0..m-1 that are below FLT_MAX, in index order (the vector `m_d`). */
  function NearestDistances(points: seq<Point>, m: nat): (r: seq<real>)
    requires m <= |points|
    ensures 2 <= |points| ==> |r| == m
  {
    if m == 0 then []
    else
      var e := NearestAmong(points, m - 1, |points|);
      NearestDistances(points, m - 1) + if e.Finite? then [e.value] else []
  }

  /** With at least two points every point contributes exactly one nearest-neighbour distance, in index order. */
  lemma {:induction false} NearestDistancesComplete(points: seq<Point>, m: nat)
    requires 2 <= |points| && m <= |points|
    ensures forall i :: 0 <= i < m ==> Finite(NearestDistances(points, m)[i]) == NearestAmong(points, i, |points|)
  {
    if m > 0 {
      NearestDistancesComplete(points, m - 1);
    }
  }

  /**
   * The grid-spacing estimate of at least two points is some point's
   * nearest-neighbour distance, is non-negative, and has at most n/2 of those
   * distances strictly below it and at most n-1-n/2 strictly above it.
   */
  lemma SpacingIsNearestMedian(points: seq<Point>)
    requires |points| >= 2
    ensures |NearestDistances(points, |points|)| == |points|
    ensures UpperMedian(NearestDistances(points, |points|)) >= 0.0
    ensures exists i :: 0 <= i < |points| && NearestAmong(points, i, |points|) == Finite(UpperMedian(NearestDistances(points, |points|)))
    ensures CountBelow(NearestDistances(points, |points|), UpperMedian(NearestDistances(points, |points|))) <= |points| / 2
    ensures CountAbove(NearestDistances(points, |points|), UpperMedian(NearestDistances(points, |points|))) <= |points| - 1 - |points| / 2
  {
    var nd := NearestDistances(points, |points|);
    NearestDistancesComplete(points, |points|);
    UpperMedianIsMedian(nd);
    var k :| 0 <= k < |nd| && nd[k] == UpperMedian(nd);
    assert NearestAmong(points, k, |points|) == Finite(nd[k]);
  }

  /** Scanning point i appends its nearest-neighbour distance to `m_d` when that is below FLT_MAX. */
  lemma NearestDistancesStep(points: seq<Point>, i: nat)
    requires i < |points|
    ensures NearestDistances(points, i + 1) == NearestDistances(points, i) +
      if NearestAmong(points, i, |points|).Finite? then [NearestAmong(points, i, |points|).value] else []
  {
  }

  /** The inner loop of estimateCheckerBoardSize: the nearest distance from point `i` to any other point. */
  method Nearest(points: seq<Point>, i: nat) returns (closest: Extended)
    requires i < |points|
    ensures closest == NearestAmong(points, i, |points|)
  {
    closest := Infinite;
    var j := 0;
    while j < |points|
      invariant 0 <= j <= |points|
      invariant closest == NearestAmong(points, i, j)
    {
      if j != i {
        var dist := SqDist(points[i], points[j]);
        if Below(dist, closest) {
          closest := Finite(dist);
        }
      }
      j := j + 1;
    }
  }

  /**
   * estimateCheckerBoardSize: -1 for fewer than two points; otherwise the
   * element at index n/2 of the sorted nearest-neighbour distances (see
   * SpacingIsNearestMedian for what that value is).
   */
  method EstimateCheckerBoardSize(points: seq<Point>) returns (r: real)
    ensures |points| < 2 ==> r == -1.0
    ensures |points| >= 2 ==> r == UpperMedian(NearestDistances(points, |points|))
  {
    if |points| < 2 {
      return -1.0;
    }
    r := 0.0;
    var n := |points|;
    var md: seq<real> := [];
    var i := 0;
    while i < n
      invariant 0 <= i <= n
      invariant md == NearestDistances(points, i)
    {
      var closest := Nearest(points, i);
      NearestDistancesStep(points, i);
      if closest.Finite? {
        md := md + [closest.value];
      }
      i := i + 1;
    }
    assert |md| == n;
    r := SortedMiddle(md);
  }

  /** Lines 108-112 of estimateCheckerBoardSize: sort `m_d` and read its middle element. */
  method SortedMiddle(md: seq<real>) returns (r: real)
    requires md != []
    ensures r == UpperMedian(md)
    ensures r in md
    ensures CountBelow(md, r) <= |md| / 2
    ensures CountAbove(md, r) <= |md| - 1 - |md| / 2
  {
    var sorted := Sort(md);
    r := sorted[|sorted| / 2];
    UpperMedianIsMedian(md);
  }

  /** Index `k` holds the first point, after point 0, at the least distance from point 0. */
  ghost predicate FirstNearestToFirst(corners: seq<Point>, k: int) {
    && 1 <= k < |corners|
    && (forall j :: 1 <= j < |corners| ==> SqDist(corners[0], corners[k]) <= SqDist(corners[0], corners[j]))
    && (forall j :: 1 <= j < k ==> SqDist(corners[0], corners[k]) < SqDist(corners[0], corners[j]))
  }

  /**
   * The search loop of estimateLengthOfCheckers, as written: the running
   * `closest` index and distance `ret`. On a single point the loop does not
   * run and `closest` stays -1, the index the source then reads.
   */
  method NearestToFirst(corners: seq<Point>) returns (closest: int, ret: Extended)
    requires |corners| > 0
    ensures |corners| == 1 ==> closest == -1 && ret == Infinite
    ensures |corners| >= 2 ==> FirstNearestToFirst(corners, closest)
    ensures |corners| >= 2 ==> ret == Finite(SqDist(corners[0], corners[closest]))
  {
    var p0 := corners[0];
    closest := -1;
    ret := Infinite;
    var j := 1;
    while j < |corners|
      invariant 1 <= j <= |corners|
      invariant j == 1 <==> closest == -1
      invariant j == 1 <==> ret == Infinite
      invariant j > 1 ==> 1 <= closest < j && ret == Finite(SqDist(p0, corners[closest]))
      invariant forall k :: 1 <= k < j ==> ret.Finite? && ret.value <= SqDist(p0, corners[k])
      invariant forall k :: 1 <= k < closest ==> ret.Finite? && ret.value < SqDist(p0, corners[k])
    {
      var dist := SqDist(p0, corners[j]);
      if Below(dist, ret) {
        ret := Finite(dist);
        closest := j;
      }
      j := j + 1;
    }
  }

  /**
   * estimateLengthOfCheckers, corrected to treat a single point like the empty
   * set: -1 and the output points untouched for fewer than two points;
   * otherwise `p0'` is point 0, `p1'` the first point at the least distance
   * from it, and the result that distance.
   */
  method EstimateLengthOfCheckers(corners: seq<Point>, p0: Point, p1: Point) returns (r: real, p0': Point, p1': Point)
    ensures |corners| < 2 ==> r == -1.0 && p0' == p0 && p1' == p1
    ensures |corners| >= 2 ==> p0' == corners[0]
    ensures |corners| >= 2 ==> exists k :: FirstNearestToFirst(corners, k) && p1' == corners[k] && r == SqDist(corners[0], corners[k])
  {
    if |corners| < 2 {
      return -1.0, p0, p1;
    }
    var closest, ret := NearestToFirst(corners);
    p0' := corners[0];
    p1' := corners[closest];
    r := ret.value;
  }
}
