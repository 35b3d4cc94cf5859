/**
 * The left/right consistency check of the stereo pipeline and the parameter
 * handling of estimateStereo around it. Disparity buffers are
 * `array3<real>` indexed [row y, column x, channel]: channel 0 holds the
 * disparity, channel 1 its confidence.
 */
module Stereo {
  import opened Numerics

  /** The truncated disparities of a pixel differ by more than the threshold. */
  predicate Inconsistent(dl: real, dr: real, threshold: int) {
    Abs(Trunc(dl) - Trunc(dr)) > threshold
  }

  /**
   * Channel `c` of a pixel after the check, given its value `v` and the
   * pixel's disparities in both buffers: a rejected pixel gets disparity 0
   * and confidence -1; everything else keeps its value.
   */
  function Checked(v: real, c: int, dl: real, dr: real, threshold: int): real {
    if Inconsistent(dl, dr, threshold) && c == 0 then 0.0
    else if Inconsistent(dl, dr, threshold) && c == 1 then -1.0
    else v
  }

  /** The check does not depend on which buffer is called left. */
  lemma InconsistentSymmetric(dl: real, dr: real, threshold: int)
    ensures Inconsistent(dl, dr, threshold) == Inconsistent(dr, dl, threshold)
  {
  }

  /** With a non-negative threshold, a checked pixel passes the check again. */
  lemma CheckedIsConsistent(dl: real, dr: real, threshold: int)
    requires threshold >= 0
    ensures !Inconsistent(Checked(dl, 0, dl, dr, threshold), Checked(dr, 0, dl, dr, threshold), threshold)
    ensures !Inconsistent(Checked(dr, 0, dl, dr, threshold), Checked(dl, 0, dl, dr, threshold), threshold)
  {
    if Inconsistent(dl, dr, threshold) {
      assert Trunc(0.0) == 0;
    }
  }

  /** A pixel that passes the check keeps every channel. */
  lemma ConsistentUnchanged(v: real, c: int, dl: real, dr: real, threshold: int)
    requires !Inconsistent(dl, dr, threshold)
    ensures Checked(v, c, dl, dr, threshold) == v
  {
  }

  /**
   * What checkDisparity needs of its caller: when `left` has pixels,
   * `right` is at least as wide and as tall and both have the two channels
   * that are written.
   */
  predicate Covers(left: array3<real>, right: array3<real>) {
    left.Length0 == 0 || left.Length1 == 0 ||
    (left.Length0 <= right.Length0 && left.Length1 <= right.Length1 && left.Length2 >= 2 && right.Length2 >= 2)
  }

  /** Pixel (y, x) is visited before pixel (i, j) in the row-major loops. */
  predicate Done(y: int, x: int, i: int, j: int) {
    y < i || (y == i && x < j)
  }

  /** The body of the inner loop: check one pixel. */
  method CheckPixel(left: array3<real>, right: array3<real>, y: int, x: int, threshold: int)
    requires 0 <= y < left.Length0 && 0 <= x < left.Length1 && Covers(left, right)
    modifies left, right
    ensures forall y', x', c :: 0 <= y' < left.Length0 && 0 <= x' < left.Length1 && 0 <= c < left.Length2 ==>
      left[y', x', c] == if y' == y && x' == x
        then Checked(old(left[y, x, c]), c, old(left[y, x, 0]), old(right[y, x, 0]), threshold)
        else old(left[y', x', c])
    ensures forall y', x', c :: 0 <= y' < right.Length0 && 0 <= x' < right.Length1 && 0 <= c < right.Length2 ==>
      right[y', x', c] == if y' == y && x' == x
        then Checked(old(right[y, x, c]), c, old(left[y, x, 0]), old(right[y, x, 0]), threshold)
        else old(right[y', x', c])
  {
    var dL := Trunc(left[y, x, 0]);
    var dR := Trunc(right[y, x, 0]);
    if Abs(dL - dR) > threshold {
      left[y, x, 0] := 0.0;
      left[y, x, 1] := -1.0;
      right[y, x, 0] := 0.0;
      right[y, x, 1] := -1.0;
    }
  }

  /**
   * checkDisparity: every pixel of `left`'s extent whose truncated
   * disparities differ by more than `threshold` gets disparity 0 and
   * confidence -1 in both buffers, decided on the values the buffers held
   * on entry; nothing else changes. The buffers may be the same image.
   */
  method CheckDisparity(left: array3<real>, right: array3<real>, threshold: int := 8)
    requires Covers(left, right)
    modifies left, right
    ensures forall y, x, c :: 0 <= y < left.Length0 && 0 <= x < left.Length1 && 0 <= c < left.Length2 ==>
      left[y, x, c] == Checked(old(left[y, x, c]), c, old(left[y, x, 0]), old(right[y, x, 0]), threshold)
    ensures forall y, x, c :: 0 <= y < right.Length0 && 0 <= x < right.Length1 && 0 <= c < right.Length2 ==>
      right[y, x, c] == if y < left.Length0 && x < left.Length1
        then Checked(old(right[y, x, c]), c, old(left[y, x, 0]), old(right[y, x, 0]), threshold)
        else old(right[y, x, c])
  {
    var i := 0;
    while i < left.Length0
      invariant 0 <= i <= left.Length0
      invariant forall y, x, c :: 0 <= y < left.Length0 && 0 <= x < left.Length1 && 0 <= c < left.Length2 ==>
        left[y, x, c] == if Done(y, x, i, 0)
          then Checked(old(left[y, x, c]), c, old(left[y, x, 0]), old(right[y, x, 0]), threshold)
          else old(left[y, x, c])
      invariant forall y, x, c :: 0 <= y < right.Length0 && 0 <= x < right.Length1 && 0 <= c < right.Length2 ==>
        right[y, x, c] == if y < left.Length0 && x < left.Length1 && Done(y, x, i, 0)
          then Checked(old(right[y, x, c]), c, old(left[y, x, 0]), old(right[y, x, 0]), threshold)
          else old(right[y, x, c])
    {
      var j := 0;
      while j < left.Length1
        invariant 0 <= j <= left.Length1
        invariant forall y, x, c :: 0 <= y < left.Length0 && 0 <= x < left.Length1 && 0 <= c < left.Length2 ==>
          left[y, x, c] == if Done(y, x, i, j)
            then Checked(old(left[y, x, c]), c, old(left[y, x, 0]), old(right[y, x, 0]), threshold)
            else old(left[y, x, c])
        invariant forall y, x, c :: 0 <= y < right.Length0 && 0 <= x < right.Length1 && 0 <= c < right.Length2 ==>
          right[y, x, c] == if y < left.Length0 && x < left.Length1 && Done(y, x, i, j)
            then Checked(old(right[y, x, c]), c, old(left[y, x, 0]), old(right[y, x, 0]), threshold)
            else old(right[y, x, c])
      {
        CheckPixel(left, right, i, j, threshold);
        j := j + 1;
      }
      i := i + 1;
    }
  }

  /** The threshold used when the cross-check argument is negative. */
  const DefaultCrossCheck := 16

  /**
   * estimateStereo around the external disparity filter: with any null
   * image nothing happens; otherwise a negative `max_disparity` becomes half
   * the smaller image width, a negative cross-check becomes 16, and the two
   * consistency checks together leave the buffers as one check would, so
   * the second, swapped call changes nothing. The buffers' contents on entry
   * stand for FilterDisparity's output. The returned values are the
   * parameters as reassigned by the source.
   */
  method EstimateStereo(imgLeft: array3?<real>, imgRight: array3?<real>, maxDisparity: int, crossCheck: int,
                        dispLeft: array3?<real>, dispRight: array3?<real>) returns (maxDisp: int, threshold: int)
    requires imgLeft != null && imgRight != null && dispLeft != null && dispRight != null ==>
      Covers(dispLeft, dispRight) && Covers(dispRight, dispLeft)
    modifies dispLeft, dispRight
    ensures imgLeft == null || imgRight == null || dispLeft == null || dispRight == null ==>
      maxDisp == maxDisparity && threshold == crossCheck &&
      (dispLeft != null ==> unchanged(dispLeft)) && (dispRight != null ==> unchanged(dispRight))
    ensures imgLeft != null && imgRight != null && dispLeft != null && dispRight != null ==>
      && maxDisp == (if maxDisparity < 0 then Min(imgLeft.Length1, imgRight.Length1) / 2 else maxDisparity)
      && threshold == (if crossCheck < 0 then DefaultCrossCheck else crossCheck)
      && (forall y, x, c :: 0 <= y < dispLeft.Length0 && 0 <= x < dispLeft.Length1 && 0 <= c < dispLeft.Length2 ==>
            dispLeft[y, x, c] == Checked(old(dispLeft[y, x, c]), c, old(dispLeft[y, x, 0]), old(dispRight[y, x, 0]), threshold))
      && (forall y, x, c :: 0 <= y < dispRight.Length0 && 0 <= x < dispRight.Length1 && 0 <= c < dispRight.Length2 ==>
            dispRight[y, x, c] == Checked(old(dispRight[y, x, c]), c, old(dispLeft[y, x, 0]), old(dispRight[y, x, 0]), threshold))
  {
    maxDisp, threshold := maxDisparity, crossCheck;
    if imgLeft == null || imgRight == null || dispLeft == null || dispRight == null {
      return;
    }
    if maxDisp < 0 {
      maxDisp := Min(imgLeft.Length1, imgRight.Length1) / 2;
    }
    if threshold < 0 {
      threshold := DefaultCrossCheck;
    }
    CheckDisparity(dispLeft, dispRight, threshold);
    label checked:
    CheckDisparity(dispRight, dispLeft, threshold);
    forall y, x | 0 <= y < dispLeft.Length0 && 0 <= x < dispLeft.Length1
      ensures !Inconsistent(old@checked(dispRight[y, x, 0]), old@checked(dispLeft[y, x, 0]), threshold)
    {
      CheckedIsConsistent(old(dispLeft[y, x, 0]), old(dispRight[y, x, 0]), threshold);
    }
    assert forall y, x, c :: 0 <= y < dispLeft.Length0 && 0 <= x < dispLeft.Length1 && 0 <= c < dispLeft.Length2 ==>
      dispLeft[y, x, c] == old@checked(dispLeft[y, x, c]);
    assert forall y, x, c :: 0 <= y < dispRight.Length0 && 0 <= x < dispRight.Length1 && 0 <= c < dispRight.Length2 ==>
      dispRight[y, x, c] == old@checked(dispRight[y, x, c]);
  }
}
