/** Integer rectangles and the two overlap metrics used to place labels:
    intersection-over-union and intersection-over-smaller-area.
    Ratios are exact rationals (`real`). */
module Geometry {

  /** An axis-aligned rectangle (left, top, right, bottom) in pixel coordinates.
      Nothing forces left <= right or top <= bottom. */
  datatype Rect = Rect(left: int, top: int, right: int, bottom: int)

  function Min(a: int, b: int): int { if a <= b then a else b }
  function Max(a: int, b: int): int { if a < b then b else a }

  function Width(r: Rect): int { r.right - r.left }
  function Height(r: Rect): int { r.bottom - r.top }

  /** Signed area: negative when exactly one side is reversed. */
  function Area(r: Rect): int { Width(r) * Height(r) }

  /** Both sides strictly positive. */
  predicate Proper(r: Rect) { r.left < r.right && r.top < r.bottom }

  /** `inner` lies inside `outer` (edges may touch). */
  predicate Contains(outer: Rect, inner: Rect)
  {
    outer.left <= inner.left && inner.right <= outer.right &&
    outer.top <= inner.top && inner.bottom <= outer.bottom
  }

  function IntersectionWidth(a: Rect, b: Rect): int
  {
    Max(0, Min(a.right, b.right) - Max(a.left, b.left))
  }

  function IntersectionHeight(a: Rect, b: Rect): int
  {
    Max(0, Min(a.bottom, b.bottom) - Max(a.top, b.top))
  }

  function IntersectionArea(a: Rect, b: Rect): int
  {
    IntersectionWidth(a, b) * IntersectionHeight(a, b)
  }

  lemma MulMonotone(x: int, y: int, u: int, v: int)
    requires 0 <= x <= u && 0 <= y <= v
    ensures x * y <= u * v
  {
    assert x * y <= u * y;
    assert u * y <= u * v;
  }

  /** A product of two bounded positive factors reaches the product of
      the bounds only when both factors do. */
  lemma MulAtBounds(x: int, y: int, u: int, v: int)
    requires 0 < x <= u && 0 < y <= v && x * y == u * v
    ensures x == u && y == v
  {
    MulMonotone(x, y, u, y);
    MulMonotone(u, y, u, v);
    assert (u - x) * y == 0;
    assert u * (v - y) == 0;
  }

  /** A quotient of positive integers n / d with n <= d lies in (0, 1],
      and is 1 exactly when n == d. */
  lemma RatioInUnit(n: int, d: int)
    requires 0 < n <= d
    ensures 0.0 < n as real / d as real <= 1.0
    ensures n as real / d as real == 1.0 <==> n == d
  {
    var q := n as real / d as real;
    assert q * d as real == n as real;
  }

  /** Dividing by a larger denominator gives a smaller ratio. */
  lemma RatioAntitone(n: int, m: int, u: int)
    requires 0 < n && 0 < m <= u
    ensures n as real / u as real <= n as real / m as real
  {
    var p, q := n as real / u as real, n as real / m as real;
    assert p * u as real == n as real == q * m as real;
    assert p * m as real <= p * u as real;
  }

  /** A non-empty intersection forces both rectangles to be proper and
      is no larger than either of them. */
  lemma IntersectionBounds(a: Rect, b: Rect)
    requires IntersectionArea(a, b) != 0
    ensures Proper(a) && Proper(b)
    ensures 0 < IntersectionWidth(a, b) <= Width(a) && IntersectionWidth(a, b) <= Width(b)
    ensures 0 < IntersectionHeight(a, b) <= Height(a) && IntersectionHeight(a, b) <= Height(b)
    ensures 0 < IntersectionArea(a, b) <= Area(a) && IntersectionArea(a, b) <= Area(b)
  {
    var w, h := IntersectionWidth(a, b), IntersectionHeight(a, b);
    assert w != 0 && h != 0;
    assert 0 < w * h;
    MulMonotone(w, h, Width(a), Height(a));
    MulMonotone(w, h, Width(b), Height(b));
  }

  /** A rectangle of zero area meets nothing. */
  lemma ZeroAreaMeetsNothing(a: Rect, b: Rect)
    ensures Area(a) == 0 || Area(b) == 0 ==> IntersectionArea(a, b) == 0
  {
    if IntersectionArea(a, b) != 0 {
      IntersectionBounds(a, b);
    }
  }

  /** A proper rectangle inside another is no larger, and as large only
      when the two are the same rectangle. */
  lemma InsideIsSmaller(outer: Rect, inner: Rect)
    requires Proper(inner)
    ensures Contains(outer, inner) ==>
      Area(inner) <= Area(outer) && (Area(inner) == Area(outer) ==> inner == outer)
  {
    if Contains(outer, inner) {
      MulMonotone(Width(inner), Height(inner), Width(outer), Height(outer));
      if Area(inner) == Area(outer) {
        MulAtBounds(Width(inner), Height(inner), Width(outer), Height(outer));
      }
    }
  }

  /** When the intersection is as large as `b`, `b` lies inside `a`. */
  lemma IntersectionFillsInner(a: Rect, b: Rect)
    requires IntersectionArea(a, b) != 0 && IntersectionArea(a, b) == Area(b)
    ensures Contains(a, b)
  {
    IntersectionBounds(a, b);
    MulAtBounds(IntersectionWidth(a, b), IntersectionHeight(a, b), Width(b), Height(b));
  }

  /** When `b` is proper and lies inside `a`, the intersection is `b`. */
  lemma InnerIntersection(a: Rect, b: Rect)
    requires Proper(b) && Contains(a, b)
    ensures IntersectionWidth(a, b) == Width(b) && IntersectionHeight(a, b) == Height(b)
    ensures IntersectionArea(a, b) == Area(b) > 0
  {
    assert 0 < Width(b) * Height(b);
  }

  /** computeIoU: intersection over union, or 0 when either area or the
      intersection is 0. The union is never 0 once the intersection is not,
      so the ratio is defined for every pair of rectangles. */
  function ComputeIoU(a: Rect, b: Rect): (r: real)
    ensures 0.0 <= r <= 1.0
    ensures r == 0.0 <==> IntersectionArea(a, b) == 0
  {
    var areaA, areaB, inter := Area(a), Area(b), IntersectionArea(a, b);
    if areaA == 0 || areaB == 0 || inter == 0 then
      ZeroAreaMeetsNothing(a, b);
      0.0
    else
      IntersectionBounds(a, b);
      RatioInUnit(inter, areaA + areaB - inter);
      inter as real / (areaA + areaB - inter) as real
  }

  /** computeOverlap: intersection over the smaller area, or 0 when either
      area or the intersection is 0. */
  function ComputeOverlap(a: Rect, b: Rect): (r: real)
    ensures 0.0 <= r <= 1.0
    ensures r == 0.0 <==> IntersectionArea(a, b) == 0
  {
    var areaA, areaB, inter := Area(a), Area(b), IntersectionArea(a, b);
    if areaA == 0 || areaB == 0 || inter == 0 then
      ZeroAreaMeetsNothing(a, b);
      0.0
    else
      IntersectionBounds(a, b);
      RatioInUnit(inter, Min(areaA, areaB));
      inter as real / Min(areaA, areaB) as real
  }

  lemma IntersectionSymmetric(a: Rect, b: Rect)
    ensures IntersectionArea(a, b) == IntersectionArea(b, a)
  {
  }

  /** IoU does not depend on argument order. */
  lemma IoUSymmetric(a: Rect, b: Rect)
    ensures ComputeIoU(a, b) == ComputeIoU(b, a)
  {
    IntersectionSymmetric(a, b);
  }

  /** The overlap ratio does not depend on argument order. */
  lemma OverlapSymmetric(a: Rect, b: Rect)
    ensures ComputeOverlap(a, b) == ComputeOverlap(b, a)
  {
    IntersectionSymmetric(a, b);
  }

  /** IoU is 1 exactly for a proper rectangle compared with itself. */
  lemma IoUOneIffSame(a: Rect, b: Rect)
    ensures ComputeIoU(a, b) == 1.0 <==> a == b && Proper(a)
  {
    var inter := IntersectionArea(a, b);
    if ComputeIoU(a, b) == 1.0 {
      IntersectionBounds(a, b);
      RatioInUnit(inter, Area(a) + Area(b) - inter);
      assert inter == Area(a) && inter == Area(b);
      IntersectionFillsInner(a, b);
      IntersectionSymmetric(a, b);
      IntersectionFillsInner(b, a);
    }
    if a == b && Proper(a) {
      InnerIntersection(a, a);
      RatioInUnit(inter, Area(a) + Area(b) - inter);
    }
  }

  /** IoU never exceeds the overlap ratio. */
  lemma IoUAtMostOverlap(a: Rect, b: Rect)
    ensures ComputeIoU(a, b) <= ComputeOverlap(a, b)
  {
    var inter := IntersectionArea(a, b);
    if inter != 0 {
      IntersectionBounds(a, b);
      RatioAntitone(inter, Min(Area(a), Area(b)), Area(a) + Area(b) - inter);
    }
  }

  /** The overlap ratio against a rectangle at least as large as a proper
      `b` is 1 exactly when `b` lies inside it. */
  lemma OverlapOneIffInsideLarger(a: Rect, b: Rect)
    requires Proper(b) && Area(b) <= Area(a)
    ensures ComputeOverlap(a, b) == 1.0 <==> Contains(a, b)
  {
    var inter := IntersectionArea(a, b);
    if ComputeOverlap(a, b) == 1.0 {
      IntersectionBounds(a, b);
      RatioInUnit(inter, Area(b));
      IntersectionFillsInner(a, b);
    }
    if Contains(a, b) {
      InnerIntersection(a, b);
      RatioInUnit(inter, Area(b));
    }
  }

  /** For proper rectangles, the overlap ratio is 1 exactly when one of
      them lies inside the other, whichever is larger. */
  lemma OverlapOneIffNested(a: Rect, b: Rect)
    requires Proper(a) && Proper(b)
    ensures ComputeOverlap(a, b) == 1.0 <==> Contains(a, b) || Contains(b, a)
  {
    OverlapSymmetric(a, b);
    InsideIsSmaller(a, b);
    InsideIsSmaller(b, a);
    if Area(b) <= Area(a) {
      OverlapOneIffInsideLarger(a, b);
    } else {
      OverlapOneIffInsideLarger(b, a);
    }
  }
}
