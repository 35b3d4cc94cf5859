/**
 * The two loops of findCheckerBoard that the model keeps: the isolation
 * filter over the deduplicated corners, and the selection of the best of the
 * 72 rotation seeds. The corner detector, descriptors, ICP and the
 * Nelder-Mead optimizer are external: the optimizer's result for a seed is
 * a function of the seed index.
 */
module FindCheckerBoard {
  import opened Geometry
  import opened Wrappers
  import CheckerBoardPattern
  import PointDistances

  /**
   * No other corner lies strictly closer to corner `i` than `checkerSize`
   * (a squared distance, or the -1 sentinel).
   */
  predicate Isolated(cfi: seq<Point>, i: nat, checkerSize: real)
    requires i < |cfi|
  {
    forall j :: 0 <= j < |cfi| && j != i ==> !(SqDist(cfi[i], cfi[j]) < checkerSize)
  }

  /** The indices below `m` of the isolated corners, in increasing order. */
  function KeptIndices(cfi: seq<Point>, checkerSize: real, m: nat): (r: seq<nat>)
    requires m <= |cfi|
    ensures |r| <= m
    ensures forall k :: 0 <= k < |r| ==> r[k] < m
  {
    if m == 0 then []
    else KeptIndices(cfi, checkerSize, m - 1) + if Isolated(cfi, m - 1, checkerSize) then [m - 1] else []
  }

  /** The kept indices increase strictly, and an index is kept exactly when its corner is isolated. */
  lemma {:induction false} KeptIndicesAreIsolated(cfi: seq<Point>, checkerSize: real, m: nat)
    requires m <= |cfi|
    ensures forall a, b :: 0 <= a < b < |KeptIndices(cfi, checkerSize, m)| ==>
      KeptIndices(cfi, checkerSize, m)[a] < KeptIndices(cfi, checkerSize, m)[b]
    ensures forall i :: 0 <= i < m ==> (i in KeptIndices(cfi, checkerSize, m) <==> Isolated(cfi, i, checkerSize))
  {
    if m > 0 {
      KeptIndicesAreIsolated(cfi, checkerSize, m - 1);
    }
  }

  /** With a non-positive spacing (the -1 sentinel among them) every corner is kept. */
  lemma {:induction false} AllKeptWithoutSpacing(cfi: seq<Point>, checkerSize: real, m: nat)
    requires m <= |cfi| && checkerSize <= 0.0
    ensures |KeptIndices(cfi, checkerSize, m)| == m
    ensures forall k :: 0 <= k < m ==> KeptIndices(cfi, checkerSize, m)[k] == k
  {
    if m > 0 {
      AllKeptWithoutSpacing(cfi, checkerSize, m - 1);
      assert Isolated(cfi, m - 1, checkerSize);
    }
  }

  /**
   * The isolation filter: `cfi_valid` holds, in their original order, the
   * corners of `cfi_out` that no other corner lies strictly closer to than
   * the spacing estimate; with a non-positive estimate it is `cfi_out` itself.
   */
  method IsolationFilter(cfi: seq<Point>, checkerSize: real) returns (valid: seq<Point>)
    ensures |valid| == |KeptIndices(cfi, checkerSize, |cfi|)| <= |cfi|
    ensures forall k :: 0 <= k < |valid| ==> valid[k] == cfi[KeptIndices(cfi, checkerSize, |cfi|)[k]]
    ensures checkerSize <= 0.0 ==> valid == cfi
  {
    valid := [];
    var n := |cfi|;
    var i := 0;
    while i < n
      invariant 0 <= i <= n
      invariant |valid| == |KeptIndices(cfi, checkerSize, i)|
      invariant forall k :: 0 <= k < |valid| ==> valid[k] == cfi[KeptIndices(cfi, checkerSize, i)[k]]
    {
      var flag := true;
      var j := 0;
      while j < n
        invariant 0 <= j <= n
        invariant forall k :: 0 <= k < j && k != i ==> !(SqDist(cfi[i], cfi[k]) < checkerSize)
      {
        if j != i {
          var dist := SqDist(cfi[i], cfi[j]);
          if dist < checkerSize {
            flag := false;
            break;
          }
        }
        j := j + 1;
      }
      assert flag == Isolated(cfi, i, checkerSize);
      if flag {
        valid := valid + [cfi[i]];
      }
      i := i + 1;
    }
    if checkerSize <= 0.0 {
      AllKeptWithoutSpacing(cfi, checkerSize, n);
    }
  }

  /** Number of rotation seeds tried. */
  const SeedCount: nat := 72

  /** The first three optimizer parameters: translation and angle. */
  datatype Pose = Pose(tx: real, ty: real, angle: real)

  function PoseValues(p: Pose): (r: seq<real>)
    ensures |r| == 3 && r[0] == p.tx && r[1] == p.ty && r[2] == p.angle
  {
    [p.tx, p.ty, p.angle]
  }

  /** `prev_err` for a kept seed: its error, or FLT_MAX when none is kept. */
  function ErrorOf(error: nat -> Extended, b: Option<nat>): Extended {
    if b.None? then Infinite else error(b.value)
  }

  /** The seed whose parameters `x` holds after seeds 0..m-1 ran: a fold with strict `<`. */
  function BestSeed(error: nat -> Extended, m: nat): (b: Option<nat>)
    ensures b.Some? ==> b.value < m
  {
    if m == 0 then None
    else
      var b := BestSeed(error, m - 1);
      if Less(error(m - 1), ErrorOf(error, b)) then Some(m - 1) else b
  }

  /** Seed `b` has a finite error, none of seeds 0..m-1 has a smaller one, and every earlier seed has a larger one. */
  ghost predicate FirstMinimum(error: nat -> Extended, m: nat, b: nat) {
    && b < m
    && error(b).Finite?
    && (forall k :: 0 <= k < m ==> AtMost(error(b), error(k)))
    && (forall k :: 0 <= k < b ==> Less(error(b), error(k)))
  }

  /**
   * No seed is kept exactly when no error is below FLT_MAX; otherwise the
   * kept seed is the first one of minimal error, and no other seed is.
   */
  lemma {:induction false} BestSeedIsFirstMinimum(error: nat -> Extended, m: nat)
    ensures BestSeed(error, m).None? <==> forall k :: 0 <= k < m ==> error(k).Infinite?
    ensures BestSeed(error, m).Some? ==> FirstMinimum(error, m, BestSeed(error, m).value)
    ensures forall b: nat :: FirstMinimum(error, m, b) ==> BestSeed(error, m) == Some(b)
  {
    if m > 0 {
      BestSeedIsFirstMinimum(error, m - 1);
    }
    forall b: nat | FirstMinimum(error, m, b)
      ensures BestSeed(error, m) == Some(b)
    {
      assert error(b).Finite?;
      var c := BestSeed(error, m).value;
      assert FirstMinimum(error, m, c);
    }
  }

  /** `prev_err` never increases from one iteration to a later one. */
  lemma {:induction false} PrevErrNonIncreasing(error: nat -> Extended, m: nat, m': nat)
    requires m <= m'
    ensures AtMost(ErrorOf(error, BestSeed(error, m')), ErrorOf(error, BestSeed(error, m)))
  {
    if m < m' {
      PrevErrNonIncreasing(error, m, m' - 1);
    }
  }

  /**
   * The rotation-seed loop: `x` receives the parameters of the kept seed and
   * `prev_err` its error; when no error is below FLT_MAX, `x` is never
   * written.
   */
  method SelectRotationSeed(error: nat -> Extended, solution: nat -> Pose, x: array<real>) returns (prevErr: Extended)
    requires x.Length == 3
    modifies x
    ensures prevErr == ErrorOf(error, BestSeed(error, SeedCount))
    ensures BestSeed(error, SeedCount).None? ==> x[..] == old(x[..])
    ensures BestSeed(error, SeedCount).Some? ==> x[..] == PoseValues(solution(BestSeed(error, SeedCount).value))
  {
    prevErr := Infinite;
    var i: nat := 0;
    while i < SeedCount
      invariant i <= SeedCount
      invariant prevErr == ErrorOf(error, BestSeed(error, i))
      invariant BestSeed(error, i).None? ==> x[..] == old(x[..])
      invariant BestSeed(error, i).Some? ==> x[..] == PoseValues(solution(BestSeed(error, i).value))
    {
      var outputError := error(i);
      var tmp := solution(i);
      if Less(outputError, prevErr) {
        x[0], x[1], x[2] := tmp.tx, tmp.ty, tmp.angle;
        prevErr := outputError;
      }
      i := i + 1;
    }
  }

  /**
   * Lines 248-257 of findCheckerBoard: the minimum distance of the freshly
   * generated model grid (into an empty `corners_model`) is the cell size,
   * whenever the grid has at least two points.
   */
  method ModelMinDistance(cx: nat, cy: nat, size: nat) returns (minDist: Extended)
    requires cx * cy >= 2
    ensures minDist == Finite((size * size) as real)
  {
    var pattern, cornersModel := CheckerBoardPattern.CheckerBoardModel(cx, cy, size, []);
    assert cornersModel == CheckerBoardPattern.GridPoints(cx, cy, size);
    minDist := PointDistances.GetMinDistance(cornersModel);
    CheckerBoardPattern.GridMinDistance(cx, cy, size);
    MinPairDistUnique(cornersModel, minDist.value, (size * size) as real);
  }
}
