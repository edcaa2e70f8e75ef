// Box geometry of the compliance monitor: the inclusive-pixel intersection
// area and the "> 0.1" overlap threshold applied to it.

module Geometry {

  /** An axis-aligned box in pixel coordinates, (x1, y1) the top-left and
      (x2, y2) the bottom-right corner; both edges belong to the box. */
  datatype Box = Box(x1: int, y1: int, x2: int, y2: int)

  function Max(a: int, b: int): int { if a >= b then a else b }

  function Min(a: int, b: int): int { if a <= b then a else b }

  /** Pixel (x, y) lies inside b, edges included. */
  predicate Contains(b: Box, x: int, y: int) {
    b.x1 <= x <= b.x2 && b.y1 <= y <= b.y2
  }

  /** Number of pixel columns and rows of a box whose corners are in order. */
  function Width(b: Box): int { b.x2 - b.x1 + 1 }

  function Height(b: Box): int { b.y2 - b.y1 + 1 }

  /** calculate_intersection_area: the overlap rectangle's width and height,
      each counted inclusively (+1) and clamped at zero, multiplied. */
  function IntersectionArea(a: Box, b: Box): (r: int)
    ensures r >= 0
  {
    var xA := Max(a.x1, b.x1);
    var yA := Max(a.y1, b.y1);
    var xB := Min(a.x2, b.x2);
    var yB := Min(a.y2, b.y2);
    Max(0, xB - xA + 1) * Max(0, yB - yA + 1)
  }

  /** The source's `area > 0.1`, an integer compared against a fraction. */
  function ExceedsThreshold(area: int): (r: bool)
    ensures r <==> area >= 1
  {
    (area as real) > 0.1
  }

  lemma IntersectionSymmetric(a: Box, b: Box)
    ensures IntersectionArea(a, b) == IntersectionArea(b, a)
  {
  }

  /** The area is positive exactly when some pixel lies in both boxes. */
  lemma {:induction false} OverlapIffSharedPixel(a: Box, b: Box)
    ensures IntersectionArea(a, b) > 0 <==> exists x, y :: Contains(a, x, y) && Contains(b, x, y)
  {
    var xA, yA := Max(a.x1, b.x1), Max(a.y1, b.y1);
    var xB, yB := Min(a.x2, b.x2), Min(a.y2, b.y2);
    var w, h := Max(0, xB - xA + 1), Max(0, yB - yA + 1);
    assert IntersectionArea(a, b) == w * h;
    if IntersectionArea(a, b) > 0 {
      PositiveProduct(w, h);
      assert Contains(a, xA, yA) && Contains(b, xA, yA);
    }
    if exists x, y :: Contains(a, x, y) && Contains(b, x, y) {
      var x, y :| Contains(a, x, y) && Contains(b, x, y);
      assert w >= 1 && h >= 1;
      PositiveProduct(w, h);
    }
  }

  lemma PositiveProduct(w: int, h: int)
    requires w >= 0 && h >= 0
    ensures w * h > 0 <==> w >= 1 && h >= 1
  {
    if w >= 1 && h >= 1 {
      assert w * h >= 1 * h;
    }
  }

  /** A box with ordered corners that lies inside another overlaps it in its
      whole inclusive area; with itself in particular. */
  lemma {:induction false} ContainedArea(inner: Box, outer: Box)
    requires inner.x1 <= inner.x2 && inner.y1 <= inner.y2
    requires outer.x1 <= inner.x1 && inner.x2 <= outer.x2
    requires outer.y1 <= inner.y1 && inner.y2 <= outer.y2
    ensures IntersectionArea(inner, outer) == Width(inner) * Height(inner)
    ensures IntersectionArea(outer, inner) == Width(inner) * Height(inner)
  {
  }

  /** The worked values: a 0..10 box with itself, two disjoint boxes, and
      two boxes that share only the column x == 10. */
  lemma IntersectionExamples()
    ensures IntersectionArea(Box(0, 0, 10, 10), Box(0, 0, 10, 10)) == 121
    ensures IntersectionArea(Box(0, 0, 10, 10), Box(20, 20, 30, 30)) == 0
    ensures IntersectionArea(Box(0, 0, 10, 10), Box(10, 0, 20, 10)) == 11
    ensures ExceedsThreshold(IntersectionArea(Box(0, 0, 10, 10), Box(10, 0, 20, 10)))
  {
  }
}
