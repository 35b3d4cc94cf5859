/**
 * getCheckerBoardModel: the synthetic checkerboard image and its grid of
 * intersections. Images are `array3<real>` indexed [row, column, channel].
 */
module CheckerBoardPattern {
  import opened Geometry
  import opened Numerics

  /** The parity rule: the 1-indexed cell in row `i`, column `j` is painted black. */
  predicate Dark(cx: int, cy: int, i: int, j: int) {
    (j < cx && j % 2 == 0 && i % 2 == 0) || (i < cy && j % 2 == 1 && i % 2 == 1)
  }

  /** Pixel coordinate `v` lies in the `k`-th band of width `size`. */
  predicate InBand(v: int, k: int, size: nat) {
    k * size <= v < k * size + size
  }

  /**
   * The value the generator leaves at pixel (row `yy`, column `xx`): 0 inside
   * a dark cell, 1 elsewhere.
   */
  function PatternValue(cx: nat, cy: nat, size: nat, yy: nat, xx: nat): real {
    if size > 0 && 1 <= yy / size <= cy && 1 <= xx / size <= cx && Dark(cx, cy, yy / size, xx / size) then 0.0 else 1.0
  }

  /** The same image while the loops stand before cell (i, j): only the dark cells before it in row-major order are painted. */
  function PatternUpTo(cx: nat, cy: nat, size: nat, i: nat, j: nat, yy: nat, xx: nat): real {
    if size > 0 && 1 <= yy / size <= cy && 1 <= xx / size <= cx && Dark(cx, cy, yy / size, xx / size)
       && (yy / size < i || (yy / size == i && xx / size < j))
    then 0.0 else 1.0
  }

  lemma BandOf(v: nat, k: int, size: nat)
    requires size > 0
    ensures v / size == k <==> InBand(v, k, size)
  {
    var q, r := v / size, v % size;
    assert v == q * size + r && 0 <= r < size;
    assert (k - 1) * size == k * size - size;
    assert (k + 1) * size == k * size + size;
    MulMono(q, k - 1, size);
    MulMono(k + 1, q, size);
  }

  /** A pixel of value 0 lies in the dark cell its coordinates fall in. */
  lemma BlackPixelInDarkCell(cx: nat, cy: nat, size: nat, yy: nat, xx: nat)
    requires PatternValue(cx, cy, size, yy, xx) == 0.0
    ensures size > 0
    ensures 1 <= yy / size <= cy && 1 <= xx / size <= cx && Dark(cx, cy, yy / size, xx / size)
    ensures InBand(yy, yy / size, size) && InBand(xx, xx / size, size)
  {
    BandOf(yy, yy / size, size);
    BandOf(xx, xx / size, size);
  }

  /** Every pixel of a dark cell has value 0. */
  lemma DarkCellPixelIsBlack(cx: nat, cy: nat, size: nat, yy: nat, xx: nat, i: int, j: int)
    requires 1 <= i <= cy && 1 <= j <= cx && Dark(cx, cy, i, j) && InBand(yy, i, size) && InBand(xx, j, size)
    ensures PatternValue(cx, cy, size, yy, xx) == 0.0
  {
    BandOf(yy, i, size);
    BandOf(xx, j, size);
  }

  /**
   * Every pixel is 0 or 1; a pixel is 0 exactly when it lies in a dark cell,
   * and pixels in the first row or column of cells stay 1.
   */
  lemma PatternValueIsParityRule(cx: nat, cy: nat, size: nat, yy: nat, xx: nat)
    ensures PatternValue(cx, cy, size, yy, xx) == 0.0 || PatternValue(cx, cy, size, yy, xx) == 1.0
    ensures PatternValue(cx, cy, size, yy, xx) == 0.0 <==>
      exists i, j :: 1 <= i <= cy && 1 <= j <= cx && Dark(cx, cy, i, j) && InBand(yy, i, size) && InBand(xx, j, size)
    ensures xx < size || yy < size ==> PatternValue(cx, cy, size, yy, xx) == 1.0
  {
    if PatternValue(cx, cy, size, yy, xx) == 0.0 {
      BlackPixelInDarkCell(cx, cy, size, yy, xx);
    }
    if exists i, j :: 1 <= i <= cy && 1 <= j <= cx && Dark(cx, cy, i, j) && InBand(yy, i, size) && InBand(xx, j, size) {
      var i, j :| 1 <= i <= cy && 1 <= j <= cx && Dark(cx, cy, i, j) && InBand(yy, i, size) && InBand(xx, j, size);
      DarkCellPixelIsBlack(cx, cy, size, yy, xx, i, j);
    }
    if size > 0 && xx < size {
      BandOf(xx, 0, size);
    }
    if size > 0 && yy < size {
      BandOf(yy, 0, size);
    }
  }

  /** Painting cell (i, j) takes the image from "before (i, j)" to "before (i, j + 1)". */
  lemma PatternStep(cx: nat, cy: nat, size: nat, i: nat, j: nat, yy: nat, xx: nat)
    requires 1 <= i <= cy && 1 <= j <= cx && size > 0
    ensures PatternUpTo(cx, cy, size, i, j + 1, yy, xx) ==
      if Dark(cx, cy, i, j) && InBand(yy, i, size) && InBand(xx, j, size) then 0.0 else PatternUpTo(cx, cy, size, i, j, yy, xx)
  {
    BandOf(yy, i, size);
    BandOf(xx, j, size);
  }

  /** The intersections of grid row `i`, columns 1..m, left to right. */
  function GridRow(i: nat, m: nat, size: nat): (r: seq<Point>)
    ensures |r| == m
  {
    if m == 0 then [] else GridRow(i, m - 1, size) + [Point((m * size) as real, (i * size) as real)]
  }

  /** The intersections of rows 1..rows of a grid with `cx` columns, in row-major order. */
  function GridPoints(cx: nat, rows: nat, size: nat): (r: seq<Point>)
    ensures |r| == cx * rows
  {
    if rows == 0 then [] else GridPoints(cx, rows - 1, size) + GridRow(rows, cx, size)
  }

  lemma {:induction false} GridRowAt(i: nat, m: nat, size: nat, j: nat)
    requires 1 <= j <= m
    ensures GridRow(i, m, size)[j - 1] == Point((j * size) as real, (i * size) as real)
  {
    if j < m {
      GridRowAt(i, m - 1, size, j);
    }
  }

  /** The point at offset (i-1)*cx + (j-1) is (j*size, i*size). */
  lemma {:induction false} GridPointAt(cx: nat, rows: nat, size: nat, i: nat, j: nat)
    requires 1 <= i <= rows && 1 <= j <= cx
    ensures (i - 1) * cx + (j - 1) < |GridPoints(cx, rows, size)|
    ensures GridPoints(cx, rows, size)[(i - 1) * cx + (j - 1)] == Point((j * size) as real, (i * size) as real)
  {
    var k := (i - 1) * cx + (j - 1);
    var prefix := GridPoints(cx, rows - 1, size);
    var g := GridPoints(cx, rows, size);
    assert g == prefix + GridRow(rows, cx, size);
    assert |prefix| == (rows - 1) * cx && |g| == (rows - 1) * cx + cx;
    MulMono(i - 1, rows - 1, cx);
    if i == rows {
      assert k == |prefix| + (j - 1);
      GridRowAt(rows, cx, size, j);
    } else {
      MulMono(i, rows - 1, cx);
      assert (i - 1) * cx + cx == i * cx;
      assert k < |prefix|;
      GridPointAt(cx, rows - 1, size, i, j);
    }
  }

  /** The point at offset i*cx + j (0-based row i and column j) is ((j+1)*size, (i+1)*size). */
  lemma GridPointOf(cx: nat, rows: nat, size: nat, k: nat, i: nat, j: nat)
    requires k < cx * rows && k == i * cx + j && j < cx
    ensures i < rows
    ensures GridPoints(cx, rows, size)[k] == Point(((j + 1) * size) as real, ((i + 1) * size) as real)
  {
    MulMono(rows, i, cx);
    GridPointAt(cx, rows, size, i + 1, j + 1);
  }

  /** A non-zero multiple of `s` has a square of at least `s^2`. */
  lemma NonzeroStep(d: int, s: nat)
    requires d != 0
    ensures (d * s) * (d * s) >= s * s
  {
    assert d * d >= 1;
    assert (d * s) * (d * s) == (d * d) * (s * s);
  }

  /** The squared distance between two points with integer coordinates, as an integer expression. */
  lemma SqDistOnGrid(a: int, b: int, c: int, e: int)
    ensures SqDist(Point(a as real, b as real), Point(c as real, e as real)) == ((a - c) * (a - c) + (b - e) * (b - e)) as real
  {
  }

  /** A square is never negative. */
  lemma SquareNonneg(d: int)
    ensures d * d >= 0
  {
    if d < 0 {
      assert d * d == (-d) * (-d);
    }
  }

  /** The intersections of two different cells are at least one cell size apart. */
  lemma CellsApart(ia: int, ja: int, ib: int, jb: int, size: nat, p: Point, q: Point)
    requires ia != ib || ja != jb
    requires p == Point(((ja + 1) * size) as real, ((ia + 1) * size) as real)
    requires q == Point(((jb + 1) * size) as real, ((ib + 1) * size) as real)
    ensures SqDist(p, q) >= (size * size) as real
  {
    var dx := (ja - jb) * size;
    var dy := (ia - ib) * size;
    assert (ja + 1) * size - (jb + 1) * size == dx;
    assert (ia + 1) * size - (ib + 1) * size == dy;
    SqDistOnGrid((ja + 1) * size, (ia + 1) * size, (jb + 1) * size, (ib + 1) * size);
    SquareNonneg(dx);
    SquareNonneg(dy);
    if ja != jb {
      NonzeroStep(ja - jb, size);
    } else {
      NonzeroStep(ia - ib, size);
    }
  }

  /** The point at offset k lies in row k / cx and column k % cx (both 0-based). */
  lemma GridPointAtOffset(cx: nat, rows: nat, size: nat, k: nat)
    requires 0 < cx && k < cx * rows
    ensures GridPoints(cx, rows, size)[k] == Point(((k % cx + 1) * size) as real, ((k / cx + 1) * size) as real)
  {
    assert k == (k / cx) * cx + k % cx;
    GridPointOf(cx, rows, size, k, k / cx, k % cx);
  }

  /** Distinct offsets differ in their row or their column. */
  lemma DivModInjective(a: nat, b: nat, cx: nat)
    requires 0 < cx && a != b
    ensures a / cx != b / cx || a % cx != b % cx
  {
    assert a == (a / cx) * cx + a % cx && b == (b / cx) * cx + b % cx;
  }

  /** Two distinct grid points lie at least one cell apart: the squared distance is at least size^2. */
  lemma GridSeparation(cx: nat, rows: nat, size: nat, a: nat, b: nat)
    requires 0 < cx && a < cx * rows && b < cx * rows && a != b
    ensures SqDist(GridPoints(cx, rows, size)[a], GridPoints(cx, rows, size)[b]) >= (size * size) as real
  {
    GridPointAtOffset(cx, rows, size, a);
    GridPointAtOffset(cx, rows, size, b);
    DivModInjective(a, b, cx);
    var g := GridPoints(cx, rows, size);
    CellsApart(a / cx, a % cx, b / cx, b % cx, size, g[a], g[b]);
  }

  /** Points 0 and 1 of a grid with at least two points are neighbours, one cell size apart. */
  lemma GridFirstPair(cx: nat, cy: nat, size: nat)
    requires 0 < cx && cx * cy >= 2
    ensures SqDist(GridPoints(cx, cy, size)[0], GridPoints(cx, cy, size)[1]) == (size * size) as real
  {
    var g := GridPoints(cx, cy, size);
    GridPointOf(cx, cy, size, 0, 0, 0);
    assert g[0] == Point(size as real, size as real);
    if cx >= 2 {
      GridPointOf(cx, cy, size, 1, 0, 1);
      assert g[1] == Point((2 * size) as real, size as real);
      SqDistOnGrid(size, size, 2 * size, size);
      assert (size - 2 * size) * (size - 2 * size) == size * size;
    } else {
      GridPointOf(cx, cy, size, 1, 1, 0);
      assert g[1] == Point(size as real, (2 * size) as real);
      SqDistOnGrid(size, size, size, 2 * size);
      assert (size - 2 * size) * (size - 2 * size) == size * size;
    }
  }

  /** The minimal pairwise distance of a freshly generated grid with at least two points is the cell size. */
  lemma GridMinDistance(cx: nat, cy: nat, size: nat)
    requires cx * cy >= 2
    ensures IsMinPairDist(GridPoints(cx, cy, size), (size * size) as real)
  {
    assert 0 < cx;
    var g := GridPoints(cx, cy, size);
    forall a, b | 0 <= a < |g| && 0 <= b < |g| && a != b
      ensures (size * size) as real <= SqDist(g[a], g[b])
    {
      GridSeparation(cx, cy, size, a, b);
    }
    GridFirstPair(cx, cy, size);
  }

  /** Paints the `size` x `size` block with top-left pixel (y, x) black on channel 0. */
  method PaintBlock(img: array3<real>, y: nat, x: nat, size: nat)
    requires y + size <= img.Length0 && x + size <= img.Length1 && 1 <= img.Length2
    modifies img
    ensures forall yy, xx, c :: 0 <= yy < img.Length0 && 0 <= xx < img.Length1 && 0 <= c < img.Length2 ==>
      img[yy, xx, c] == if c == 0 && y <= yy < y + size && x <= xx < x + size then 0.0 else old(img[yy, xx, c])
  {
    var yy := y;
    while yy < y + size
      invariant y <= yy <= y + size
      invariant forall a, b, c :: 0 <= a < img.Length0 && 0 <= b < img.Length1 && 0 <= c < img.Length2 ==>
        img[a, b, c] == if c == 0 && y <= a < yy && x <= b < x + size then 0.0 else old(img[a, b, c])
    {
      var xx := x;
      while xx < x + size
        invariant x <= xx <= x + size
        invariant forall a, b, c :: 0 <= a < img.Length0 && 0 <= b < img.Length1 && 0 <= c < img.Length2 ==>
          img[a, b, c] == if c == 0 && ((y <= a < yy && x <= b < x + size) || (a == yy && x <= b < xx)) then 0.0 else old(img[a, b, c])
      {
        img[yy, xx, 0] := 0.0;
        xx := xx + 1;
      }
      yy := yy + 1;
    }
  }

  /** The body of the column loop of getCheckerBoardModel: paints cell (i, j) black when `draw` is set. */
  method PaintCell(img: array3<real>, cx: nat, cy: nat, size: nat, i: nat, j: nat, draw: bool)
    requires img.Length0 == (cy + 1) * size && img.Length1 == (cx + 1) * size && img.Length2 == 1
    requires 1 <= i <= cy && 1 <= j <= cx && draw == Dark(cx, cy, i, j)
    requires forall yy, xx :: 0 <= yy < img.Length0 && 0 <= xx < img.Length1 ==> img[yy, xx, 0] == PatternUpTo(cx, cy, size, i, j, yy, xx)
    modifies img
    ensures forall yy, xx :: 0 <= yy < img.Length0 && 0 <= xx < img.Length1 ==> img[yy, xx, 0] == PatternUpTo(cx, cy, size, i, j + 1, yy, xx)
  {
    var y, x := i * size, j * size;
    if draw {
      assert y + size <= img.Length0 by {
        MulMono(i + 1, cy + 1, size);
      }
      assert x + size <= img.Length1 by {
        MulMono(j + 1, cx + 1, size);
      }
      PaintBlock(img, y, x, size);
    }
    if size > 0 {
      forall yy, xx | 0 <= yy < img.Length0 && 0 <= xx < img.Length1
        ensures img[yy, xx, 0] == PatternUpTo(cx, cy, size, i, j + 1, yy, xx)
      {
        PatternStep(cx, cy, size, i, j, yy, xx);
      }
    }
  }

  /**
   * One iteration of the row loop of getCheckerBoardModel: paints the dark
   * cells of row `i` and appends the row's intersections to `out`.
   */
  method PaintRow(img: array3<real>, cx: nat, cy: nat, size: nat, i: nat, out: seq<Point>) returns (out': seq<Point>)
    requires img.Length0 == (cy + 1) * size && img.Length1 == (cx + 1) * size && img.Length2 == 1
    requires 1 <= i <= cy
    requires forall yy, xx :: 0 <= yy < img.Length0 && 0 <= xx < img.Length1 ==> img[yy, xx, 0] == PatternUpTo(cx, cy, size, i, 1, yy, xx)
    modifies img
    ensures forall yy, xx :: 0 <= yy < img.Length0 && 0 <= xx < img.Length1 ==> img[yy, xx, 0] == PatternUpTo(cx, cy, size, i + 1, 1, yy, xx)
    ensures out' == out + GridRow(i, cx, size)
  {
    out' := out;
    var y := i * size;
    var j := 1;
    while j <= cx
      invariant 1 <= j <= cx + 1
      invariant out' == out + GridRow(i, j - 1, size)
      invariant forall yy, xx :: 0 <= yy < img.Length0 && 0 <= xx < img.Length1 ==> img[yy, xx, 0] == PatternUpTo(cx, cy, size, i, j, yy, xx)
    {
      var x := j * size;
      var draw := false;
      if j < cx {
        if j % 2 == 0 && i % 2 == 0 {
          draw := true;
        }
      }
      if i < cy {
        if j % 2 == 1 && i % 2 == 1 {
          draw := true;
        }
      }
      PaintCell(img, cx, cy, size, i, j, draw);
      out' := out' + [Point(x as real, y as real)];
      j := j + 1;
    }
  }

  /**
   * getCheckerBoardModel: a fresh one-channel image of (cx+1)*size columns
   * and (cy+1)*size rows holding the parity pattern, and `out` extended by
   * the cx*cy grid intersections in row-major order (earlier contents kept).
   */
  method CheckerBoardModel(cx: nat, cy: nat, size: nat, out: seq<Point>) returns (img: array3<real>, out': seq<Point>)
    ensures fresh(img)
    ensures img.Length0 == (cy + 1) * size && img.Length1 == (cx + 1) * size && img.Length2 == 1
    ensures forall yy, xx :: 0 <= yy < img.Length0 && 0 <= xx < img.Length1 ==> img[yy, xx, 0] == PatternValue(cx, cy, size, yy, xx)
    ensures out' == out + GridPoints(cx, cy, size)
  {
    img := new real[(cy + 1) * size, (cx + 1) * size, 1]((_, _, _) => 1.0);
    out' := out;
    var i := 1;
    while i <= cy
      invariant 1 <= i <= cy + 1
      invariant out' == out + GridPoints(cx, i - 1, size)
      invariant forall yy, xx :: 0 <= yy < img.Length0 && 0 <= xx < img.Length1 ==> img[yy, xx, 0] == PatternUpTo(cx, cy, size, i, 1, yy, xx)
    {
      out' := PaintRow(img, cx, cy, size, i, out');
      i := i + 1;
    }
  }
}
