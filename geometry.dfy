/**
 * Points of the plane and the distances between them. The source compares
 * Euclidean norms; the model compares their squares instead. Since the square
 * root is strictly increasing on non-negative reals, every `<` between two
 * distances gives the same answer on their squares.
 */
module Geometry {

  /** A 2D point; stands for `Eigen::Vector2f`. */
  datatype Point = Point(x: real, y: real)

  /** The squared Euclidean distance between two points. */
  function SqDist(p: Point, q: Point): (d: real)
    ensures d >= 0.0
    ensures p == q ==> d == 0.0
  {
    assert (p.x - q.x) * (p.x - q.x) >= 0.0 && (p.y - q.y) * (p.y - q.y) >= 0.0;
    (p.x - q.x) * (p.x - q.x) + (p.y - q.y) * (p.y - q.y)
  }

  lemma SqDistSymmetric(p: Point, q: Point)
    ensures SqDist(p, q) == SqDist(q, p)
  {
  }

  /**
   * A running minimum of distances. `Infinite` is the `FLT_MAX` the source
   * starts its accumulators with (and, for an optimizer error, any value that
   * is not below `FLT_MAX`).
   */
  datatype Extended = Infinite | Finite(value: real)

  /** `d < e`, where every real lies below `Infinite`. */
  predicate Below(d: real, e: Extended) {
    e.Infinite? || d < e.value
  }

  /** `e < f` between two extended values. */
  predicate Less(e: Extended, f: Extended) {
    e.Finite? && Below(e.value, f)
  }

  /** `e <= f` between two extended values. */
  predicate AtMost(e: Extended, f: Extended) {
    f.Infinite? || (e.Finite? && e.value <= f.value)
  }

  /** `d` is the least squared distance between two points at distinct indices, and some such pair attains it. */
  ghost predicate IsMinPairDist(points: seq<Point>, d: real) {
    && (forall a, b :: 0 <= a < |points| && 0 <= b < |points| && a != b ==> d <= SqDist(points[a], points[b]))
    && (exists a, b :: 0 <= a < |points| && 0 <= b < |points| && a != b && d == SqDist(points[a], points[b]))
  }

  /** At most one value is the minimal pairwise distance of a point set. */
  lemma MinPairDistUnique(points: seq<Point>, d1: real, d2: real)
    requires IsMinPairDist(points, d1) && IsMinPairDist(points, d2)
    ensures d1 == d2
  {
  }
}
