/**
 * The white-point estimate from a detected checkerboard: a scan over the
 * 2x2 blocks of the row-major corner grid that keeps the block whose centre
 * pixel has the largest positive channel sum, and the lookup of that pixel.
 * Images are `array3<real>` indexed [row y, column x, channel]; a null
 * `Image *` is a null array.
 */
module WhitePoint {
  import opened Geometry
  import opened Numerics
  import opened Wrappers

  /** The sentinel (-1, -1) returned when no block qualifies. */
  const NoPoint := Point(-1.0, -1.0)

  /** (i, j) is one of the (cy-1) x (cx-1) blocks the scan visits. */
  predicate IsBlock(cx: int, cy: int, i: int, j: int) {
    0 <= i < cy - 1 && 0 <= j < cx - 1
  }

  /** Both corner indices of a block lie in the cx*cy grid, the first before the second. */
  lemma BlockCorners(cx: int, cy: int, i: int, j: int)
    requires IsBlock(cx, cy, i, j)
    ensures 0 <= i * cx + j < (i + 1) * cx + j + 1 < cx * cy
  {
    MulMono(0, i, cx);
    MulMono(i + 1, cy - 1, cx);
    assert (i + 1) * cx + j + 1 <= (cy - 1) * cx + cx - 1;
  }

  /** Midpoint of the block's corners `i*cx+j` and `(i+1)*cx+j+1`. */
  function Mid(corners: seq<Point>, cx: int, cy: int, i: int, j: int): Point
    requires IsBlock(cx, cy, i, j) && cx * cy <= |corners|
  {
    BlockCorners(cx, cy, i, j);
    var p0 := corners[i * cx + j];
    var p1 := corners[(i + 1) * cx + j + 1];
    Point((p0.x + p1.x) / 2.0, (p0.y + p1.y) / 2.0)
  }

  /** The pixel at the truncated coordinates of `p` exists. */
  predicate InImage(img: array3<real>, p: Point) {
    0 <= Trunc(p.y) < img.Length0 && 0 <= Trunc(p.x) < img.Length1
  }

  /**
   * What the scan needs of its caller: when it runs at all, the grid holds
   * the cx*cy corners the block indices reach and every block midpoint
   * falls inside the image.
   */
  ghost predicate ScanReady(img: array3?<real>, corners: seq<Point>, cx: int, cy: int) {
    img == null || |corners| == 0 ||
    ((cx >= 2 && cy >= 2 ==> cx * cy <= |corners|) &&
     forall i, j :: IsBlock(cx, cy, i, j) ==> InImage(img, Mid(corners, cx, cy, i, j)))
  }

  /** Sum of channels 0..c-1 of pixel (x, y). */
  function ChannelSum(img: array3<real>, y: int, x: int, c: int): real
    requires 0 <= y < img.Length0 && 0 <= x < img.Length1 && 0 <= c <= img.Length2
    reads img
    decreases c
  {
    if c == 0 then 0.0 else ChannelSum(img, y, x, c - 1) + img[y, x, c - 1]
  }

  /** The channel sum of the pixel under a block's midpoint. */
  function BlockSum(img: array3<real>, corners: seq<Point>, cx: int, cy: int, i: int, j: int): real
    requires ScanReady(img, corners, cx, cy) && |corners| > 0 && IsBlock(cx, cy, i, j)
    reads img
  {
    var m := Mid(corners, cx, cy, i, j);
    ChannelSum(img, Trunc(m.y), Trunc(m.x), img.Length2)
  }

  /** Block (i', j') comes before (i, j) in row-major scan order. */
  predicate Before(cx: int, cy: int, i': int, j': int, i: int, j: int) {
    IsBlock(cx, cy, i', j') && (i' < i || (i' == i && j' < j))
  }

  /** No block has a positive channel sum. */
  ghost predicate AllDark(img: array3<real>, corners: seq<Point>, cx: int, cy: int)
    requires ScanReady(img, corners, cx, cy) && |corners| > 0
    reads img
  {
    forall i, j :: IsBlock(cx, cy, i, j) ==> BlockSum(img, corners, cx, cy, i, j) <= 0.0
  }

  /** Block (i, j) has a positive sum, no block has a larger one, and every earlier block a smaller one. */
  ghost predicate FirstMaxBlock(img: array3<real>, corners: seq<Point>, cx: int, cy: int, i: int, j: int)
    requires ScanReady(img, corners, cx, cy) && |corners| > 0
    reads img
  {
    && IsBlock(cx, cy, i, j)
    && BlockSum(img, corners, cx, cy, i, j) > 0.0
    && (forall i', j' :: IsBlock(cx, cy, i', j') ==>
          BlockSum(img, corners, cx, cy, i', j') <= BlockSum(img, corners, cx, cy, i, j))
    && (forall i', j' :: Before(cx, cy, i', j', i, j) ==>
          BlockSum(img, corners, cx, cy, i', j') < BlockSum(img, corners, cx, cy, i, j))
  }

  /** `p` is the estimated white-point coordinate. */
  ghost predicate WhitePointAt(img: array3?<real>, corners: seq<Point>, cx: int, cy: int, p: Point)
    requires ScanReady(img, corners, cx, cy)
    reads img
  {
    if img == null || |corners| == 0 || AllDark(img, corners, cx, cy) then p == NoPoint
    else exists i, j :: FirstMaxBlock(img, corners, cx, cy, i, j) && p == Mid(corners, cx, cy, i, j)
  }

  /** At most one block is the first maximum, so the estimate is determined. */
  lemma WhitePointUnique(img: array3?<real>, corners: seq<Point>, cx: int, cy: int, p: Point, q: Point)
    requires ScanReady(img, corners, cx, cy)
    requires WhitePointAt(img, corners, cx, cy, p) && WhitePointAt(img, corners, cx, cy, q)
    ensures p == q
  {
    if img != null && |corners| > 0 && !AllDark(img, corners, cx, cy) {
      var i1, j1 :| FirstMaxBlock(img, corners, cx, cy, i1, j1) && p == Mid(corners, cx, cy, i1, j1);
      var i2, j2 :| FirstMaxBlock(img, corners, cx, cy, i2, j2) && q == Mid(corners, cx, cy, i2, j2);
      FirstMaxUnique(img, corners, cx, cy, i1, j1, i2, j2);
    }
  }

  lemma FirstMaxUnique(img: array3<real>, corners: seq<Point>, cx: int, cy: int, i1: int, j1: int, i2: int, j2: int)
    requires ScanReady(img, corners, cx, cy) && |corners| > 0
    requires FirstMaxBlock(img, corners, cx, cy, i1, j1) && FirstMaxBlock(img, corners, cx, cy, i2, j2)
    ensures i1 == i2 && j1 == j2
  {
    var s1 := BlockSum(img, corners, cx, cy, i1, j1);
    var s2 := BlockSum(img, corners, cx, cy, i2, j2);
    assert s1 <= s2 && s2 <= s1;
    assert !Before(cx, cy, i1, j1, i2, j2) && !Before(cx, cy, i2, j2, i1, j1);
  }

  /**
   * estimateCoordinatesWhitePointFromCheckerBoard: the midpoint of the first
   * block of maximal positive channel sum, or (-1, -1) for a null image, an
   * empty grid or a grid without a positive block.
   */
  method EstimateCoordinatesWhitePoint(img: array3?<real>, corners: seq<Point>, cx: int := 4, cy: int := 6) returns (r: Point)
    requires ScanReady(img, corners, cx, cy)
    ensures WhitePointAt(img, corners, cx, cy, r)
  {
    r := NoPoint;
    if img == null || |corners| == 0 {
      return;
    }
    var maxVal := 0.0;
    ghost var found := false;
    ghost var bi, bj := 0, 0;
    var i := 0;
    while i < cy - 1
      invariant 0 <= i && (i <= cy - 1 || i == 0)
      invariant found ==> Before(cx, cy, bi, bj, i, 0) && maxVal == BlockSum(img, corners, cx, cy, bi, bj)
                          && maxVal > 0.0 && r == Mid(corners, cx, cy, bi, bj)
                          && forall i', j' :: Before(cx, cy, i', j', bi, bj) ==> BlockSum(img, corners, cx, cy, i', j') < maxVal
      invariant !found ==> maxVal == 0.0 && r == NoPoint
      invariant forall i', j' :: Before(cx, cy, i', j', i, 0) ==> BlockSum(img, corners, cx, cy, i', j') <= maxVal
    {
      var j := 0;
      while j < cx - 1
        invariant 0 <= j && (j <= cx - 1 || j == 0)
        invariant found ==> Before(cx, cy, bi, bj, i, j) && maxVal == BlockSum(img, corners, cx, cy, bi, bj)
                            && maxVal > 0.0 && r == Mid(corners, cx, cy, bi, bj)
                            && forall i', j' :: Before(cx, cy, i', j', bi, bj) ==> BlockSum(img, corners, cx, cy, i', j') < maxVal
        invariant !found ==> maxVal == 0.0 && r == NoPoint
        invariant forall i', j' :: Before(cx, cy, i', j', i, j) ==> BlockSum(img, corners, cx, cy, i', j') <= maxVal
      {
        assert IsBlock(cx, cy, i, j);
        BlockCorners(cx, cy, i, j);
        var p0 := corners[i * cx + j];
        var p1 := corners[(i + 1) * cx + j + 1];
        var pMid := Point((p0.x + p1.x) / 2.0, (p0.y + p1.y) / 2.0);
        assert pMid == Mid(corners, cx, cy, i, j);
        var x := Trunc(pMid.x);
        var y := Trunc(pMid.y);
        var meanColor := 0.0;
        var c := 0;
        while c < img.Length2
          invariant 0 <= c <= img.Length2
          invariant meanColor == ChannelSum(img, y, x, c)
        {
          meanColor := meanColor + img[y, x, c];
          c := c + 1;
        }
        assert meanColor == BlockSum(img, corners, cx, cy, i, j);
        if meanColor > maxVal {
          maxVal := meanColor;
          r := pMid;
          found, bi, bj := true, i, j;
        }
        j := j + 1;
      }
      i := i + 1;
    }
    if found {
      assert FirstMaxBlock(img, corners, cx, cy, bi, bj);
    } else {
      assert AllDark(img, corners, cx, cy);
    }
  }

  /** The channels of pixel (x, y). */
  function PixelColor(img: array3<real>, y: int, x: int): (color: seq<real>)
    requires 0 <= y < img.Length0 && 0 <= x < img.Length1
    reads img
    ensures |color| == img.Length2 && forall c :: 0 <= c < img.Length2 ==> color[c] == img[y, x, c]
  {
    seq(img.Length2, c requires 0 <= c < img.Length2 reads img => img[y, x, c])
  }

  /**
   * estimateWhitePointFromCheckerBoard: a copy of the pixel under the
   * estimated coordinates, or none (NULL) when either coordinate is negative.
   */
  method EstimateWhitePoint(img: array3?<real>, corners: seq<Point>, cx: int := 4, cy: int := 6) returns (color: Option<seq<real>>)
    requires ScanReady(img, corners, cx, cy)
    ensures exists p :: (WhitePointAt(img, corners, cx, cy, p) && (color.None? <==> p.x < 0.0 || p.y < 0.0) &&
                         (color.Some? ==> img != null && InImage(img, p) && color.value == PixelColor(img, Trunc(p.y), Trunc(p.x))))
  {
    var point := EstimateCoordinatesWhitePoint(img, corners, cx, cy);
    if point.x >= 0.0 && point.y >= 0.0 {
      assert img != null && |corners| > 0 && !AllDark(img, corners, cx, cy);
      ghost var i, j :| FirstMaxBlock(img, corners, cx, cy, i, j) && point == Mid(corners, cx, cy, i, j);
      assert InImage(img, point);
      color := Some(PixelColor(img, Trunc(point.y), Trunc(point.x)));
    } else {
      color := None;
    }
  }
}
