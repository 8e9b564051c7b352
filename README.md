# Label placement for detection boxes

This project models the label-placement logic of a tiled YOLO detection
pipeline (`src/common/position.hpp`). For every detected box, the pipeline
must pick a rectangle in which to draw the box's caption. It proceeds in three steps:

- Two overlap metrics on integer rectangles.
  - `computeIoU` is intersection over union.
  - `computeOverlap` is intersection over the smaller area.
  - Both return 0 when either area or the intersection is 0.
- `findCandidatePositions` clamps the box to the canvas. It then builds ten
  caption rectangles in a fixed order, all of size
  `textWidth x (textHeight + baseline)`. It keeps, in order, those whose
  overlap ratio against the canvas rectangle `(0, 0, W, H)` is 1. When none
  is kept, it falls back to one rectangle at the clamped box's top-left corner.
- `PositionManager::selectOptimalPosition` scores each candidate. The score
  is the candidate's largest IoU against the rectangles already placed
  (`markedPositions`). It takes the first candidate with score 0, or else the
  earliest one with the strictly smallest score. It appends that rectangle to
  `markedPositions` and returns the text origin `(left, top + textHeight)`.
  `clearMarkedPositions` empties the history.

The template parameter `T` is `int`, the only instantiation the repository
uses. Ratios are exact rationals (`real`).

Two files:

- `geometry.dfy` (module `Geometry`) holds the rectangle datatype and the two
  metrics as functions, with lemmas about them. A non-empty intersection forces
  both rectangles to have positive sides and to be at least as large as the
  intersection. So the IoU denominator is never 0, for any integer input, and
  neither metric needs a precondition.
- `position.dfy` (module `Position`) holds three things:
  - specification functions for the candidates and the choice;
  - the class `PositionManager`, whose field `markedPositions: seq<Rect>` is
    updated in place by its methods;
  - lemmas connecting the methods to the specification.

Two loops of `selectOptimalPosition` are their own non-mutating methods:
`CandidateScore` (the inner loop over placed labels) and `ScanCandidates`
(the scan with early exit). `SelectOptimalPosition` calls `ScanCandidates`,
which calls `CandidateScore` for each candidate; it then appends the choice.
`findCandidatePositions` does not use its object, so it is a `static` method.

## Model

| member | source | states |
|---|---|---|
| Geometry.Area | src/common/position.hpp:17-18 | No contract of its own: width times height, signed. Its use is bounded by `IntersectionBounds`. |
| Geometry.IntersectionWidth | src/common/position.hpp:19 | No contract of its own: the clipped overlap of the horizontal extents. Its bounds are proved in `IntersectionBounds`. |
| Geometry.IntersectionHeight | src/common/position.hpp:20 | No contract of its own: the clipped overlap of the vertical extents. Its bounds are proved in `IntersectionBounds`. |
| Geometry.IntersectionArea | src/common/position.hpp:21 | No contract of its own: the product of the clipped extents. Its meaning is proved in `IntersectionBounds`, `ZeroAreaMeetsNothing` and `InnerIntersection`. |
| Geometry.ComputeIoU | src/common/position.hpp:9-27 | IoU lies in [0, 1]. It is 0 exactly when the intersection area is 0. It is defined (no division by zero) for every pair of integer rectangles. |
| Geometry.ComputeOverlap | src/common/position.hpp:30-48 | The overlap ratio lies in [0, 1]. It is 0 exactly when the intersection area is 0. It is defined for every pair of integer rectangles. |
| Geometry.IntersectionBounds | src/common/position.hpp:17-21 | A non-empty intersection means both rectangles have positive width and height. The intersection is then no larger than either area, which keeps both denominators positive. |
| Geometry.ZeroAreaMeetsNothing | src/common/position.hpp:23-25 | A rectangle of zero area has an empty intersection with any rectangle, so the early return of 0 agrees with the intersection test. |
| Geometry.IoUSymmetric | src/common/position.hpp:17-26 | IoU(a, b) == IoU(b, a). |
| Geometry.OverlapSymmetric | src/common/position.hpp:38-47 | Overlap(a, b) == Overlap(b, a). |
| Geometry.IoUOneIffSame | src/common/position.hpp:17-26 | IoU(a, b) == 1 if and only if a == b and a has positive width and height. |
| Geometry.IoUAtMostOverlap | src/common/position.hpp:26-47 | IoU never exceeds the overlap ratio of the same pair. |
| Geometry.OverlapOneIffInsideLarger | src/common/position.hpp:44-47 | Take b with positive sides and area at most a's. Then Overlap(a, b) == 1 if and only if b lies inside a. |
| Geometry.OverlapOneIffNested | src/common/position.hpp:38-47 | For rectangles with positive sides, Overlap == 1 if and only if one lies inside the other. |
| Position.Clamp | src/common/position.hpp:105-108 | Each edge is pulled onto the canvas only where it lies outside. The left and top edges become 0 when negative and are otherwise kept. The right and bottom edges become the canvas width and height when beyond them and are otherwise kept. A box already inside the canvas is unchanged. |
| Position.GeneratedPositions | src/common/position.hpp:112-124 | There are exactly ten generated rectangles. Each has width textWidth and height textHeight + baseline. |
| Position.Fallback | src/common/position.hpp:133-136 | The fallback sits at the clamped box's top-left corner. It has the caption's width and height. |
| Position.FitsCanvas | src/common/position.hpp:128 | No contract of its own: the overlap ratio against `(0, 0, W, H)` equals 1. Its meaning is proved in `FitsCanvasIffInside`, `ZeroAreaNeverFits` and `CoveringRectFits`. |
| Position.KeepFitting | src/common/position.hpp:126-132 | No contract of its own: the push_back filtering loop as a function of the consumed prefix. Its meaning is proved by `KeepFittingIsCanvasFilter` and `CanvasFilterIsUnique`. |
| Position.KeepFittingIsCanvasFilter | src/common/position.hpp:126-132 | The filtering loop's result is an order-preserving subsequence of its input. Every kept rectangle passes the canvas test. Every passing rectangle is kept as many times as it occurs. |
| Position.CanvasFilterIsUnique | src/common/position.hpp:126-132 | Any list that is an order-preserving subsequence, holds only passing rectangles, and holds each passing one as often as the input does, equals the filtering loop's result. So that description pins the candidate list down. |
| Position.KeepFittingEmptyIffNoneFits | src/common/position.hpp:126-133 | The filter keeps nothing if and only if no generated rectangle passes the canvas test. |
| Position.KeepFittingHead | src/common/position.hpp:126-132 | The first kept rectangle is the first generated one that passes the canvas test. |
| Position.Candidates | src/common/position.hpp:133-137 | The candidate list is never empty. |
| Position.CandidatesShape | src/common/position.hpp:112-136 | There are 1 to 10 candidates, all of the caption's size. If some generated rectangle passes the canvas test, the list is the order-preserving filter of the ten. Otherwise it is exactly the single fallback. |
| Position.FitsCanvasIffInside | src/common/position.hpp:109-132 | Take a canvas of positive size and a candidate with positive sides and area at most the canvas's. The candidate passes the canvas test if and only if it lies within [0, W] x [0, H]. |
| Position.ZeroAreaNeverFits | src/common/position.hpp:44-46 | A zero-area candidate never passes the canvas test. |
| Position.CoveringRectFits | src/common/position.hpp:128-131 | A rectangle that covers the whole (positive-size) canvas also passes the canvas test, even though it extends past the canvas. |
| Position.MaxIoU | src/common/position.hpp:67-72 | A candidate's score lies in [0, 1]. |
| Position.MaxIoUIsMaximum | src/common/position.hpp:67-72 | The score is at least the IoU with every placed label. When some label is placed, the score equals one of those IoUs. |
| Position.ScoreZeroIffDisjoint | src/common/position.hpp:67-73 | A candidate scores 0 if and only if it shares no area with any placed label. |
| Position.Scores | src/common/position.hpp:65-72 | No contract of its own: the per-candidate max-IoU list. The meaning of its entries is proved about `MaxIoU` in `MaxIoUIsMaximum` and `ScoreZeroIffDisjoint`, and `ScanCandidates` is proved against it. |
| Position.EarliestMinimalUnique | src/common/position.hpp:63-83 | At most one index is "least score, and strictly less than every earlier score". |
| Position.OptimalIndex | src/common/position.hpp:63-83 | The reference choice is an index whose score is minimal and strictly below every earlier score. |
| Position.FirstZeroScoreWins | src/common/position.hpp:73-77 | When some candidate has score 0, the first such candidate is chosen. |
| Position.EmptyHistoryPicksFirst | src/common/position.hpp:63-68 | With no label placed, candidate 0 is chosen. |
| Position.Chosen | src/common/position.hpp:59-84 | The committed rectangle is one of the candidates. |
| Position.FreshChoiceIsFirstFitting | src/common/position.hpp:112-136 | A fresh manager takes the first generated rectangle that passes the canvas test. When none passes, it takes the fallback. |
| Position.FreshChoiceExample | src/common/position.hpp:114-128 | Canvas 800 x 600, box (100, 100, 200, 150), caption 80 x (20 + 5): a fresh manager chooses (100, 75, 180, 100). |
| Position.PositionManager.constructor | src/common/position.hpp:50-53 | A new manager has no placed labels. |
| Position.PositionManager.FindCandidatePositions | src/common/position.hpp:98-138 | The clamp, the ten rectangles, the push_back filtering loop and the fallback together return exactly `Candidates(...)`. |
| Position.PositionManager.CandidateScore | src/common/position.hpp:67-72 | The inner max-IoU loop returns the candidate's score. |
| Position.PositionManager.ScanCandidates | src/common/position.hpp:63-83 | The scan starts with `minIoU = 1` and candidate 0, breaks at the first zero score and replaces only on a strictly smaller score. It returns the candidate at `OptimalIndex` of the scores: the earliest of least score. |
| Position.PositionManager.SelectOptimalPosition | src/common/position.hpp:56-90 | `markedPositions` becomes its old value with exactly the chosen rectangle appended. The result is (chosen.left, chosen.top + textHeight). |
| Position.PositionManager.ClearMarkedPositions | src/common/position.hpp:92-95 | `markedPositions` is empty afterwards. |
| Position.ClearedMatchesFresh | src/common/position.hpp:56-95 | A call after clearing returns the same point as the same call on a new manager. It leaves the chosen rectangle as the only placed label. |

The canvas test compares intersection over the *smaller* area with 1. So it
also admits a caption rectangle larger than the canvas that covers the canvas
(`CoveringRectFits`). For captions no larger than the canvas it is exactly
containment in the canvas (`FitsCanvasIffInside`).

## Left out

- ComputeIoU: ratios are exact rationals, not `float`. So the `maxIoU == 0.f` and `maxIoU < minIoU` comparisons never suffer rounding. Two nearly equal float scores could compare differently in the source.
- ComputeOverlap: exact rationals again. In `float`, `intersection / minArea` can round to `1.0f` for areas beyond 2^24 even when the rectangle is not fully inside. The model does not reproduce that.
- Integer overflow: the areas and the intersection are exact, unbounded products. For coordinates whose 32-bit signed products overflow, the source has undefined behaviour, while the model accepts the same inputs (no precondition) and computes with the exact products.
- `getCurrentPosition()` and the constructor taking a font-size function (called from `src/test_v5.cpp`) do not exist in `src/common/position.hpp`. They are not part of this model. The last placed rectangle is `markedPositions[|markedPositions| - 1]`.
- Slice planning (`calculateNumCuts`, `SliceImage::slice`, `autoSlice`): `src/slice/slice.hpp` only declares them and their bodies are outside `src/common/position.hpp`, so they are not modelled. Neither is the tile-to-image coordinate offset, which `src/common/position.hpp` does not contain.
- Text measurement (`cv::getTextSize`), image decoding, drawing and the inference engine are external collaborators. The caption size enters as the integers `textWidth`, `textHeight`, `baseline`. The canvas size enters as `canvasWidth`, `canvasHeight`.
- Python bindings, timing loops, video I/O and colour conversion (`src/interface.cpp`, `src/speed.cpp`, `src/main.cpp`, `src/test_v5.cpp`, `workspace/pytrtsahiyolo.py`) are not part of this model.
