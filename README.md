# Checkerboard detection and stereo consistency in piccante, modelled in Dafny

This project models the parts of piccante's checkerboard detector and stereo
pipeline that are plain index and distance bookkeeping, and proves what they
compute:

- **Pattern generator.** `getCheckerBoardModel` paints a synthetic checkerboard by a parity rule and lists its grid intersections.
- **Distance scans.** Three point-set scans:
  - `getMinDistance`: the minimum pairwise distance.
  - `estimateCheckerBoardSize`: the spacing estimate, the upper median of nearest-neighbour distances.
  - `estimateLengthOfCheckers`: the nearest neighbour of the first corner.
- **Two loops inside `findCheckerBoard`.**
  - The isolation filter keeps only corners that no other corner lies strictly closer to than the spacing estimate.
  - The rotation-seed selection keeps the seed of smallest optimizer error.
- **White-point scan.** Walks the 2x2 blocks of the detected grid and returns the brightest block's centre and its colour.
- **Stereo.** `checkDisparity` is the left/right consistency check on two disparity buffers. `estimateStereo` adds its null guard and parameter defaults.

Modelling conventions:

- **Points.** An `Eigen::Vector2f` is a `Geometry.Point` of two reals.
- **Distances are squared.** `norm()` becomes the squared distance `SqDist`. Square root is monotone on non-negative values, and the -1 sentinel stays -1, so every `<` the source performs on distances gives the same answer on squared distances. A spacing estimate that the model returns is therefore the square of the source's.
- **`FLT_MAX`.** The initial value of the running minima becomes `Geometry.Extended.Infinite`, which lies above every real. An optimizer error of `Infinite` stands for any output that is not below `FLT_MAX`.
- **Images.** An `Image` is an `array3<real>` indexed `[row y, column x, channel]`, so the source's `(*img)(x, y)` is `img[y, x, ..]`. A null `Image *` is a null array.
- **Float-to-int conversion.** `int(f)` is `Numerics.Trunc`, truncation toward zero.
- **`std::sort`.** Modelled as the pure function `Sorting.Sort`, proved to return the ascending permutation.
- **Parameters passed by reference.** A `std::vector` that the source appends to, such as `out`, is a `seq` passed in and returned (`out'`). So are the `p0`/`p1` references of `estimateLengthOfCheckers`.
- **Buffers updated in place.** Pixel buffers the source writes are arrays, with `modifies` clauses on the methods that write them.

## Model

| member | source | states |
|---|---|---|
| Numerics.Trunc | include/computer_vision/stereo.hpp:50-51 | float-to-int conversion truncates toward zero: for r >= 0 the result is the floor, for r < 0 the ceiling |
| Numerics.Abs | include/computer_vision/stereo.hpp:53 | `std::abs` on int yields n or -n, and never a negative value |
| Numerics.Min | include/computer_vision/stereo.hpp:83 | `MIN` yields one of its arguments, and one no larger than either |
| Geometry.SqDist | include/computer_vision/find_checker_board.hpp:56-57 | the squared length of `p - q` is non-negative and zero for equal points |
| Geometry.SqDistSymmetric | include/computer_vision/find_checker_board.hpp:56-57 | the distance from p to q equals the distance from q to p |
| Geometry.MinPairDistUnique | include/computer_vision/find_checker_board.hpp:44-66 | a point set has at most one minimal pairwise distance |
| Sorting.Insert | include/computer_vision/find_checker_board.hpp:109 | inserting into a sorted sequence gives a sorted sequence one longer, holding the old elements plus the new one |
| Sorting.Sort | include/computer_vision/find_checker_board.hpp:109 | `std::sort` returns an ascending permutation of its input |
| Sorting.CountsOfInsert | include/computer_vision/find_checker_board.hpp:109 | insertion adds the new element to exactly the count (below or above a value) that it belongs to |
| Sorting.CountsOfSort | include/computer_vision/find_checker_board.hpp:109 | sorting leaves unchanged the number of elements below, and the number above, any value |
| Sorting.CountBelowBounded | include/computer_vision/find_checker_board.hpp:111 | in a sorted sequence, at most k elements lie strictly below the element at index k |
| Sorting.CountAboveBounded | include/computer_vision/find_checker_board.hpp:111 | in a sorted sequence, at most n-1-k elements lie strictly above the element at index k |
| Sorting.CountAboveAtMostLength | include/computer_vision/find_checker_board.hpp:111 | no more elements lie above a value than the sequence has |
| Sorting.SortedIndexRank | include/computer_vision/find_checker_board.hpp:111 | in a sorted sequence, at most k elements lie strictly below the element at index k and at most n-1-k strictly above it |
| Sorting.UpperMedianIsMedian | include/computer_vision/find_checker_board.hpp:108-111 | `m_d[m_d.size()/2]` after sorting is an element of `m_d`, with at most n/2 elements strictly below it and at most n-1-n/2 strictly above it |
| PointDistances.GetMinDistance | include/computer_vision/find_checker_board.hpp:44-66 | the result is FLT_MAX exactly when there are fewer than two points; otherwise it is the least distance between two points at distinct indices, and some such pair attains it |
| PointDistances.NearestAmong | include/computer_vision/find_checker_board.hpp:87-101 | the running `closest` after indices below m is FLT_MAX exactly when no other index has been seen; otherwise it is at most every distance from point i to another seen point, and equals one of them |
| PointDistances.NearestDistances | include/computer_vision/find_checker_board.hpp:83-106 | with at least two points, `m_d` gets exactly one entry per point scanned |
| PointDistances.NearestDistancesComplete | include/computer_vision/find_checker_board.hpp:84-106 | with at least two points, entry i of `m_d` is point i's nearest-neighbour distance, in index order |
| PointDistances.SpacingIsNearestMedian | include/computer_vision/find_checker_board.hpp:73-115 | for at least two points, the spacing estimate is non-negative and is some point's nearest-neighbour distance, with at most n/2 of those distances below it and at most n-1-n/2 above it |
| PointDistances.Nearest | include/computer_vision/find_checker_board.hpp:85-101 | the inner loop leaves in `closest` the nearest distance from point i to every other point |
| PointDistances.EstimateCheckerBoardSize | include/computer_vision/find_checker_board.hpp:73-115 | -1 for fewer than two points; otherwise the element at index n/2 of the sorted nearest-neighbour distances |
| PointDistances.SortedMiddle | include/computer_vision/find_checker_board.hpp:108-112 | sorting a non-empty `m_d` and reading index size/2 yields a value of `m_d` with at most size/2 entries below it and at most size-1-size/2 entries above it (its upper median) |
| PointDistances.NearestToFirst | include/computer_vision/find_checker_board.hpp:331-343 | with one point the loop leaves `closest == -1` and `ret == FLT_MAX`; with two or more, `closest` is the first index after 0 whose point is nearest to point 0, and `ret` is that distance |
| PointDistances.EstimateLengthOfCheckers | include/computer_vision/find_checker_board.hpp:325-349 | fewer than two points give -1 and leave p0, p1 untouched; otherwise p0 is point 0, p1 is the first nearest other point, and the result is their distance |
| CheckerBoardPattern.BlackPixelInDarkCell | include/computer_vision/find_checker_board.hpp:141-161 | a black pixel lies in a painted cell: inside the 1..cx by 1..cy grid, with the parity rule holding |
| CheckerBoardPattern.DarkCellPixelIsBlack | include/computer_vision/find_checker_board.hpp:154-161 | every pixel in the size x size block of a cell the parity rule selects is black |
| CheckerBoardPattern.PatternValueIsParityRule | include/computer_vision/find_checker_board.hpp:127-161 | every pixel is 0 or 1; it is 0 exactly when it lies in a cell selected by the parity rule; the first row and column of cells stay white |
| CheckerBoardPattern.PatternStep | include/computer_vision/find_checker_board.hpp:154-161 | painting cell (i, j) changes exactly the pixels of that cell when it is dark |
| CheckerBoardPattern.GridRow | include/computer_vision/find_checker_board.hpp:136-164 | one row of the grid contributes cx points |
| CheckerBoardPattern.GridPoints | include/computer_vision/find_checker_board.hpp:130-165 | the generator emits checkers_x*checkers_y points |
| CheckerBoardPattern.GridRowAt | include/computer_vision/find_checker_board.hpp:136-139 | the j-th point of row i is (j*size, i*size) |
| CheckerBoardPattern.GridPointAt | include/computer_vision/find_checker_board.hpp:130-165 | the point at offset (i-1)*checkers_x+(j-1) is (j*size, i*size), for 1 <= i <= checkers_y and 1 <= j <= checkers_x |
| CheckerBoardPattern.GridPointOf | include/computer_vision/find_checker_board.hpp:130-165 | the point at 0-based offset i*cx+j is ((j+1)*size, (i+1)*size) |
| CheckerBoardPattern.CellsApart | include/computer_vision/find_checker_board.hpp:133-139 | intersections of two different grid cells are at least one cell size apart |
| CheckerBoardPattern.GridSeparation | include/computer_vision/find_checker_board.hpp:130-165 | any two distinct emitted points are at least one cell size apart |
| CheckerBoardPattern.GridFirstPair | include/computer_vision/find_checker_board.hpp:130-165 | the first two emitted points are exactly one cell size apart |
| CheckerBoardPattern.GridMinDistance | include/computer_vision/find_checker_board.hpp:249-257 | on a model grid with at least two points, the smallest squared distance between two distinct points is exactly the squared cell size, and some pair attains it |
| FindCheckerBoard.ModelMinDistance | include/computer_vision/find_checker_board.hpp:248-257 | generating the model grid into an empty `corners_model` and taking getMinDistance of it gives exactly the cell size whenever the grid has at least two points |
| CheckerBoardPattern.PaintBlock | include/computer_vision/find_checker_board.hpp:155-160 | the block loops set channel 0 of the size x size block to 0 and leave every other pixel and channel unchanged |
| CheckerBoardPattern.PaintCell | include/computer_vision/find_checker_board.hpp:138-161 | one column-loop iteration paints cell (i, j) exactly when the parity rule selects it |
| CheckerBoardPattern.PaintRow | include/computer_vision/find_checker_board.hpp:130-165 | one row-loop iteration paints exactly the dark cells of row i and appends that row's cx intersections, left to right, to `out` |
| CheckerBoardPattern.CheckerBoardModel | include/computer_vision/find_checker_board.hpp:125-168 | a fresh one-channel image of (cx+1)*size columns and (cy+1)*size rows holding the parity pattern; `out` keeps its contents and gains the grid points in row-major order |
| FindCheckerBoard.KeptIndices | include/computer_vision/find_checker_board.hpp:216-237 | the filter keeps at most as many corners as it scans, each an index it scanned |
| FindCheckerBoard.KeptIndicesAreIsolated | include/computer_vision/find_checker_board.hpp:218-236 | kept indices are strictly increasing, and an index is kept exactly when no other corner lies strictly closer than the spacing |
| FindCheckerBoard.AllKeptWithoutSpacing | include/computer_vision/find_checker_board.hpp:221-230 | with a non-positive spacing (the -1 sentinel among them), every corner is kept |
| FindCheckerBoard.IsolationFilter | include/computer_vision/find_checker_board.hpp:216-237 | `cfi_valid` is the isolated corners of `cfi_out`, in their original order; with a non-positive spacing it is `cfi_out` itself |
| FindCheckerBoard.BestSeed | include/computer_vision/find_checker_board.hpp:274-288 | the kept seed, when there is one, has an index below the number of seeds run |
| FindCheckerBoard.BestSeedIsFirstMinimum | include/computer_vision/find_checker_board.hpp:274-288 | no seed is kept exactly when no error is below FLT_MAX; otherwise the kept seed is the first one of minimal error, and no other seed satisfies that |
| FindCheckerBoard.PrevErrNonIncreasing | include/computer_vision/find_checker_board.hpp:284-287 | `prev_err` never increases over the iterations |
| FindCheckerBoard.SelectRotationSeed | include/computer_vision/find_checker_board.hpp:274-288 | after the 72 seeds, `prev_err` is the kept seed's error (FLT_MAX when none) and `x` holds the kept seed's translation and angle; `x` is not written when no seed is kept |
| WhitePoint.BlockCorners | include/computer_vision/find_checker_board.hpp:368-372 | for every scanned block, both corner indices `i*cx+j` and `(i+1)*cx+j+1` lie in [0, cx*cy), the first below the second |
| WhitePoint.FirstMaxUnique | include/computer_vision/find_checker_board.hpp:387-390 | at most one block is the first block of maximal positive sum |
| WhitePoint.WhitePointUnique | include/computer_vision/find_checker_board.hpp:359-397 | the white-point description determines a single point |
| WhitePoint.EstimateCoordinatesWhitePoint | include/computer_vision/find_checker_board.hpp:359-397 | (-1, -1) for a null image, an empty grid, or a grid with no block of positive channel sum; otherwise the midpoint of the first block, in row-major order, whose channel sum is maximal |
| WhitePoint.PixelColor | include/computer_vision/find_checker_board.hpp:413-415 | the copied colour has one entry per channel, each equal to that channel of the pixel |
| WhitePoint.EstimateWhitePoint | include/computer_vision/find_checker_board.hpp:407-421 | NULL exactly when either estimated coordinate is negative; otherwise a copy of the pixel under the truncated coordinates |
| Stereo.InconsistentSymmetric | include/computer_vision/stereo.hpp:53 | the rejection test gives the same answer with the buffers swapped |
| Stereo.CheckedIsConsistent | include/computer_vision/stereo.hpp:53-59 | with a non-negative threshold, a pixel that has been checked passes the test again, in either buffer order |
| Stereo.CheckPixel | include/computer_vision/stereo.hpp:47-59 | a rejected pixel gets 0 in channel 0 and -1 in channel 1 of both buffers; nothing else changes, even when the buffers are the same image |
| Stereo.CheckDisparity | include/computer_vision/stereo.hpp:41-62 | for every pixel of the left buffer's extent, the decision uses the values on entry: a rejected pixel gets 0 and -1 in channels 0 and 1 of both buffers; every other pixel, every other channel and the right buffer's pixels outside that extent are unchanged |
| Stereo.EstimateStereo | include/computer_vision/stereo.hpp:73-97 | a null image leaves the buffers and parameters untouched; otherwise a negative `max_disparity` becomes half the smaller width, a negative cross-check becomes 16, and the buffers end as after a single check, so the swapped second call changes nothing |

## Left out

- **External algorithms**, whose code is not part of this model: `HarrisCornerDetector`, `GeneralCornerDetector::removeClosestCorners`, `ORBDescriptor`, `iterativeClosestPoints2D`, `NelderMeadOptICP2D::run`, `FilterLuminance`, `FilterWhiteBalance`, `FilterDisparity`.
  - For the seed loop, the optimizer's error and solution are parameters: functions of the seed index.
- **The rest of `findCheckerBoard`.** Its chaining of external calls, the scaling by `checker_size/min_dist`, the ICP transforms and the final refinement run are orchestration around the two loops modelled here. The seed angle `i*C_PI_2/72` only feeds the optimizer, so it is not modelled.
- **Floating point.** The model uses exact reals, with no rounding, NaN or infinity. For distances, `norm()` is replaced by the squared distance.
  - SqDist: states only that equal points are at distance zero (the one direction the model uses), not the converse.
  - Trunc: converting a value outside the `int` range, which C++ leaves undefined, is not modelled.
- **Integer width.** Index arithmetic and `int` parameters are unbounded integers. Overflow of `i*cx`, `(checkers_x+1)*checkers_size` and similar products is not modelled.
- **CheckerBoardModel:** takes natural numbers for the checker counts and size. The source's behaviour on negative `int` arguments, which would construct an image with a negative size, is not modelled.
- **SelectRotationSeed:** when no error is below `FLT_MAX`, the source never writes `x`, which is fresh and uninitialised, and then reads it at line 296. The model leaves `x` as the caller passed it.
- **Heap management.** Allocation, deallocation and the leaked buffers (`L`, `img_pattern`, `x`, `tmp`, descriptors) are not modelled. The colour that `estimateWhitePointFromCheckerBoard` allocates is a returned sequence.
- **Image class.** Only the pixel layout of `Image` is modelled, as a three-dimensional array. Its other members, and the `*ret = 1.0f` fill (the allocation's initial value in the model), are outside the model.
- **Debug drawing and I/O.** `drawPoints`, image writing and everything under `PIC_DEBUG` are not modelled.
- **EstimateStereo:** the disparity filter, and its reassignment of the buffer pointers, are not modelled. The buffers' contents on entry stand for the filter's output.
  - The source computes the default `max_disparity` but never passes it on, since the filter is built with fixed arguments. The model returns it so the rule can be stated.
  - When both images and both buffers are non-null, the two buffers must cover each other, which in practice means equal size, because the two calls scan them in both roles. A null image needs nothing of the buffers.
- **Preconditions for undefined behaviour.** The source's undefined behaviour becomes preconditions:
  - the white-point scan requires every block corner index to exist and every block midpoint to fall inside the image (`ScanReady`);
  - `checkDisparity` requires the right buffer to cover the left one and both to have at least two channels (`Covers`).

## Findings

| source | as written | input that shows it | evidently intended | confidence | as-written member | corrected member |
|---|---|---|---|---|---|---|
| include/computer_vision/find_checker_board.hpp:325-349 | only an empty `corners_model` is rejected; with one corner the search loop never runs, `closest` stays -1, and `corners_model[closest]` reads index -1 | `corners_model` holding a single point | reject fewer than two corners as the empty case is rejected (return -1) | high (from reading the code; not executed) | PointDistances.NearestToFirst | PointDistances.EstimateLengthOfCheckers |
