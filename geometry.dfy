/** Geometry kernel of the page assembler: the overlap area between a text
    span's axis-aligned box and a layout region's quadrilateral, and the
    containment-ratio test that decides whether a span belongs to a region.
    Coordinates are reals; floating-point rounding is not modelled. */
module Geometry {

  datatype Point = Point(x: real, y: real)

  /** A layout region as four points, in the order the layout model lists them. */
  datatype Quad = Quad(p0: Point, p1: Point, p2: Point, p3: Point)

  /** A span's bounding box `[x0, y0, x1, y1]`. */
  datatype Box = Box(x0: real, y0: real, x1: real, y1: real)

  function Max(a: real, b: real): real { if a >= b then a else b }
  function Min(a: real, b: real): real { if a <= b then a else b }

  /** The span box's own area, `(x1 - x0) * (y1 - y0)`; negative or zero for
      degenerate boxes. */
  function Area(b: Box): real { (b.x1 - b.x0) * (b.y1 - b.y0) }

  predicate WellFormed(b: Box) { b.x0 <= b.x1 && b.y0 <= b.y1 }

  /** The open intervals `(a0, a1)` and `(c0, c1)` share a stretch of positive length. */
  predicate IntervalsMeet(a0: real, a1: real, c0: real, c1: real) {
    Max(a0, c0) < Min(a1, c1)
  }

  /** Width of the intersection: point 0 of the quad is taken as its min
      corner and point 2 as its max corner; a negative width is clamped to 0. */
  function OverlapWidth(b: Box, q: Quad): (w: real)
    ensures w >= 0.0
    ensures w > 0.0 <==> IntervalsMeet(b.x0, b.x1, q.p0.x, q.p2.x)
  {
    Max(0.0, Min(b.x1, q.p2.x) - Max(b.x0, q.p0.x))
  }

  function OverlapHeight(b: Box, q: Quad): (h: real)
    ensures h >= 0.0
    ensures h > 0.0 <==> IntervalsMeet(b.y0, b.y1, q.p0.y, q.p2.y)
  {
    Max(0.0, Min(b.y1, q.p2.y) - Max(b.y0, q.p0.y))
  }

  /** Area of the intersection of the span box with the rectangle spanned by
      the quad's points 0 and 2. */
  function OverlapArea(b: Box, q: Quad): (r: real)
    ensures r >= 0.0
  {
    NonNegativeProduct(OverlapWidth(b, q), OverlapHeight(b, q));
    OverlapWidth(b, q) * OverlapHeight(b, q)
  }

  lemma NonNegativeProduct(a: real, b: real)
    requires a >= 0.0 && b >= 0.0
    ensures a * b >= 0.0
  {
  }

  lemma PositiveProduct(a: real, b: real)
    requires a >= 0.0 && b >= 0.0
    ensures a * b > 0.0 <==> a > 0.0 && b > 0.0
  {
    if a == 0.0 || b == 0.0 {
      assert a * b == 0.0;
    }
  }

  lemma MonotoneProduct(a: real, b: real, c: real, d: real)
    requires 0.0 <= a <= c && 0.0 <= b <= d
    ensures a * b <= c * d
  {
    assert a * b <= c * b;
    assert c * b <= c * d;
  }

  /** The overlap is positive exactly when both the x-intervals and the
      y-intervals of the box and the region meet; otherwise it is 0. */
  lemma OverlapPositiveIff(b: Box, q: Quad)
    ensures OverlapArea(b, q) > 0.0 <==>
            IntervalsMeet(b.x0, b.x1, q.p0.x, q.p2.x) && IntervalsMeet(b.y0, b.y1, q.p0.y, q.p2.y)
    ensures OverlapArea(b, q) == 0.0 <==>
            !IntervalsMeet(b.x0, b.x1, q.p0.x, q.p2.x) || !IntervalsMeet(b.y0, b.y1, q.p0.y, q.p2.y)
  {
    PositiveProduct(OverlapWidth(b, q), OverlapHeight(b, q));
  }

  /** For a well-formed span box the intersection lies inside the box, so the
      overlap never exceeds the box's own area. */
  lemma OverlapAtMostArea(b: Box, q: Quad)
    requires WellFormed(b)
    ensures OverlapArea(b, q) <= Area(b)
  {
    MonotoneProduct(OverlapWidth(b, q), OverlapHeight(b, q), b.x1 - b.x0, b.y1 - b.y0);
  }

  /** Only points 0 and 2 of the region take part in the overlap: moving
      points 1 and 3 anywhere leaves it unchanged. */
  lemma OverlapIgnoresPoints1And3(b: Box, q: Quad, p1: Point, p3: Point)
    ensures OverlapArea(b, q.(p1 := p1, p3 := p3)) == OverlapArea(b, q)
  {
  }

  /** A span box lying within the rectangle of points 0 and 2 overlaps it by
      its whole area. */
  lemma EnclosedBoxOverlapsFully(b: Box, q: Quad)
    requires WellFormed(b)
    requires q.p0.x <= b.x0 && b.x1 <= q.p2.x && q.p0.y <= b.y0 && b.y1 <= q.p2.y
    ensures OverlapArea(b, q) == Area(b)
  {
    assert OverlapWidth(b, q) == b.x1 - b.x0;
    assert OverlapHeight(b, q) == b.y1 - b.y0;
  }

  // ---------------------------------------------------------------------
  // Bounding-box overlap, the alternative reading of the region shape

  /** The axis-aligned bounding box of all four points of a quad. */
  function BoundingBox(q: Quad): (r: Box)
    ensures WellFormed(r)
    ensures r.x0 <= q.p0.x && r.x0 <= q.p1.x && r.x0 <= q.p2.x && r.x0 <= q.p3.x
    ensures r.x1 >= q.p0.x && r.x1 >= q.p1.x && r.x1 >= q.p2.x && r.x1 >= q.p3.x
    ensures r.y0 <= q.p0.y && r.y0 <= q.p1.y && r.y0 <= q.p2.y && r.y0 <= q.p3.y
    ensures r.y1 >= q.p0.y && r.y1 >= q.p1.y && r.y1 >= q.p2.y && r.y1 >= q.p3.y
  {
    Box(Min(Min(q.p0.x, q.p1.x), Min(q.p2.x, q.p3.x)),
        Min(Min(q.p0.y, q.p1.y), Min(q.p2.y, q.p3.y)),
        Max(Max(q.p0.x, q.p1.x), Max(q.p2.x, q.p3.x)),
        Max(Max(q.p0.y, q.p1.y), Max(q.p2.y, q.p3.y)))
  }

  /** Intersection area of two axis-aligned boxes. */
  function BoxOverlap(a: Box, r: Box): real {
    Max(0.0, Min(a.x1, r.x1) - Max(a.x0, r.x0)) * Max(0.0, Min(a.y1, r.y1) - Max(a.y0, r.y0))
  }

  /** An upright rectangle listed clockwise from its top-left corner (image
      coordinates, y grows downwards). */
  predicate UprightFromTopLeft(q: Quad) {
    q.p0.x <= q.p2.x && q.p0.y <= q.p2.y &&
    q.p1 == Point(q.p2.x, q.p0.y) && q.p3 == Point(q.p0.x, q.p2.y)
  }

  /** On an upright rectangle listed from its top-left corner, the overlap
      with points 0 and 2 equals the overlap with the bounding box of all
      four points. */
  lemma UprightOverlapIsBoundingBoxOverlap(b: Box, q: Quad)
    requires UprightFromTopLeft(q)
    ensures OverlapArea(b, q) == BoxOverlap(b, BoundingBox(q))
  {
    assert BoundingBox(q) == Box(q.p0.x, q.p0.y, q.p2.x, q.p2.y);
  }

  /** The square `(0,0)-(10,10)` listed from its bottom-right corner: points
      0 and 2 no longer span the square, so a span box covering the square
      overlaps it by 0 ... */
  lemma WindingChangesOverlap(b: Box, q: Quad)
    requires b == Box(0.0, 0.0, 10.0, 10.0)
    requires q == Quad(Point(10.0, 10.0), Point(0.0, 10.0), Point(0.0, 0.0), Point(10.0, 0.0))
    ensures OverlapArea(b, q) == 0.0
  {
    assert OverlapWidth(b, q) == 0.0;
  }

  /** ... while its overlap with the bounding box of the four points is the
      whole square. */
  lemma WindingKeepsBoundingBoxOverlap(b: Box, q: Quad)
    requires b == Box(0.0, 0.0, 10.0, 10.0)
    requires q == Quad(Point(10.0, 10.0), Point(0.0, 10.0), Point(0.0, 0.0), Point(10.0, 0.0))
    ensures BoxOverlap(b, BoundingBox(q)) == 100.0
  {
    assert BoundingBox(q) == b;
  }

  // ---------------------------------------------------------------------
  // Containment test

  /** Threshold used by the assembler: 40% of the span's area. */
  const DefaultThreshold: real := 0.4

  /** Fraction of the span's area inside the region; 0 when the span's area
      is not positive. */
  function ContainmentRatio(b: Box, q: Quad): (r: real)
    ensures 0.0 <= r <= 1.0
    ensures Area(b) <= 0.0 ==> r == 0.0
  {
    if Area(b) > 0.0 then
      RatioAtMostOne(b, q);
      OverlapArea(b, q) / Area(b)
    else
      0.0
  }

  /** When the area is positive the ratio is at most 1: either the box is
      well formed, or both its sides are inverted and the overlap is 0. */
  lemma RatioAtMostOne(b: Box, q: Quad)
    requires Area(b) > 0.0
    ensures OverlapArea(b, q) / Area(b) <= 1.0
  {
    if WellFormed(b) {
      OverlapAtMostArea(b, q);
    } else {
      InvertedSides(b);
      assert OverlapWidth(b, q) == 0.0;
    }
  }

  lemma InvertedSides(b: Box)
    requires Area(b) > 0.0 && !WellFormed(b)
    ensures b.x1 < b.x0 && b.y1 < b.y0
  {
  }

  /** `_is_box_inside`: the containment ratio reaches the threshold,
      inclusive. As the ratio lies in [0, 1], every span passes a threshold
      of at most 0 and none passes one above 1. */
  function IsBoxInside(b: Box, q: Quad, threshold: real): (inside: bool)
    ensures threshold <= 0.0 ==> inside
    ensures threshold > 1.0 ==> !inside
  {
    ContainmentRatio(b, q) >= threshold
  }

  /** The containment test without division: a box of positive area is inside
      exactly when the overlap is at least `threshold` times its area; a box
      of area at most 0 is inside exactly when the threshold is at most 0. */
  lemma IsBoxInsideIff(b: Box, q: Quad, threshold: real)
    ensures Area(b) > 0.0 ==> (IsBoxInside(b, q, threshold) <==> OverlapArea(b, q) >= threshold * Area(b))
    ensures Area(b) <= 0.0 ==> (IsBoxInside(b, q, threshold) <==> threshold <= 0.0)
  {
    DivisionThreshold(OverlapArea(b, q), Area(b), threshold);
  }

  lemma DivisionThreshold(o: real, a: real, t: real)
    ensures a > 0.0 ==> (o / a >= t <==> o >= t * a)
  {
    if a > 0.0 {
      assert o == (o / a) * a;
      if o / a >= t {
        assert (o / a) * a >= t * a;
      } else {
        assert (o / a) * a < t * a;
      }
    }
  }

  /** A span box of area at most 0 is never inside under a positive threshold,
      in particular under the default one. */
  lemma DegenerateNeverInside(b: Box, q: Quad, threshold: real)
    requires Area(b) <= 0.0 && threshold > 0.0
    ensures !IsBoxInside(b, q, threshold)
  {
  }

  /** A span box that does not meet the region's rectangle is never inside
      under a positive threshold. */
  lemma DisjointNeverInside(b: Box, q: Quad, threshold: real)
    requires !IntervalsMeet(b.x0, b.x1, q.p0.x, q.p2.x) || !IntervalsMeet(b.y0, b.y1, q.p0.y, q.p2.y)
    requires threshold > 0.0
    ensures !IsBoxInside(b, q, threshold)
  {
    OverlapPositiveIff(b, q);
    IsBoxInsideIff(b, q, threshold);
  }

  /** A span box of positive area lying within the region's rectangle is
      inside under every threshold up to 1. */
  lemma EnclosedBoxInside(b: Box, q: Quad, threshold: real)
    requires WellFormed(b) && Area(b) > 0.0
    requires q.p0.x <= b.x0 && b.x1 <= q.p2.x && q.p0.y <= b.y0 && b.y1 <= q.p2.y
    requires threshold <= 1.0
    ensures IsBoxInside(b, q, threshold)
  {
    EnclosedBoxOverlapsFully(b, q);
    IsBoxInsideIff(b, q, threshold);
    assert threshold * Area(b) <= Area(b);
  }

  /** Only region points 0 and 2 decide the test: two regions that agree on
      them hold the same spans. */
  lemma InsideIgnoresPoints1And3(b: Box, q: Quad, q': Quad, threshold: real)
    requires q.p0 == q'.p0 && q.p2 == q'.p2
    ensures IsBoxInside(b, q, threshold) == IsBoxInside(b, q', threshold)
  {
    OverlapIgnoresPoints1And3(b, q, q'.p1, q'.p3);
    assert q' == q.(p1 := q'.p1, p3 := q'.p3);
  }

  /** Lowering the threshold keeps every span that was inside. */
  lemma ThresholdMonotone(b: Box, q: Quad, t: real, t': real)
    requires t' <= t && IsBoxInside(b, q, t)
    ensures IsBoxInside(b, q, t')
  {
  }
}
