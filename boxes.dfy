/** Axis-aligned bounding boxes (OpenCV's Rect2d with integer-valued fields)
    and the intersection operator `a & b` that every metric starts from. */
module Boxes {

  /** A box anchored at its top-left corner (x, y), `w` wide and `h` high. */
  datatype Box = Box(x: int, y: int, w: int, h: int)

  /** The data-model invariant: no negative extent.  A zero-area box is legal. */
  predicate Valid(b: Box) {
    b.w >= 0 && b.h >= 0
  }

  /** The empty rectangle `Rect()` that `&` yields for disjoint boxes. */
  const Empty: Box := Box(0, 0, 0, 0)

  function Area(b: Box): int {
    b.w * b.h
  }

  function Min(a: int, b: int): int { if a <= b then a else b }
  function Max(a: int, b: int): int { if a >= b then a else b }

  /** The two boxes share interior points: they overlap on both axes. */
  predicate Overlap(a: Box, d: Box) {
    Max(a.x, d.x) < Min(a.x + a.w, d.x + d.w) && Max(a.y, d.y) < Min(a.y + a.h, d.y + d.h)
  }

  /** OpenCV's `a & b`: the corner is the larger top-left corner, the extent
      reaches the smaller right/bottom edge, and a non-positive width or
      height collapses the result to the empty rectangle. */
  function Intersect(a: Box, d: Box): (r: Box)
    ensures Valid(r)
    ensures Overlap(a, d) ==>
              && r.x == Max(a.x, d.x) && r.y == Max(a.y, d.y)
              && r.x + r.w == Min(a.x + a.w, d.x + d.w)
              && r.y + r.h == Min(a.y + a.h, d.y + d.h)
    ensures !Overlap(a, d) ==> r == Empty
  {
    var x1 := Max(a.x, d.x);
    var y1 := Max(a.y, d.y);
    var w := Min(a.x + a.w, d.x + d.w) - x1;
    var h := Min(a.y + a.h, d.y + d.h) - y1;
    if w <= 0 || h <= 0 then Box(0, 0, 0, 0) else Box(x1, y1, w, h)
  }

  function IntersectionArea(a: Box, d: Box): int {
    Area(Intersect(a, d))
  }

  lemma MulMono(a: int, b: int, c: int, e: int)
    requires 0 <= a <= b && 0 <= c <= e
    ensures 0 <= a * c <= b * e
  {
    assert a * c <= b * c;
    assert b * c <= b * e;
  }

  lemma MulPositive(a: int, b: int)
    requires a > 0 && b > 0
    ensures a * b > 0
  {
  }

  /** The intersection lies inside both boxes, so its area is bounded by
      either box's area, and it has positive area exactly when the boxes
      overlap. */
  lemma IntersectionBounds(a: Box, d: Box)
    requires Valid(a) && Valid(d)
    ensures 0 <= IntersectionArea(a, d) <= Area(a)
    ensures IntersectionArea(a, d) <= Area(d)
    ensures IntersectionArea(a, d) > 0 <==> Overlap(a, d)
  {
    var r := Intersect(a, d);
    if Overlap(a, d) {
      assert 0 < r.w <= a.w && r.w <= d.w;
      assert 0 < r.h <= a.h && r.h <= d.h;
      MulMono(r.w, a.w, r.h, a.h);
      MulMono(r.w, d.w, r.h, d.h);
      MulPositive(r.w, r.h);
    } else {
      MulMono(0, a.w, 0, a.h);
      MulMono(0, d.w, 0, d.h);
    }
  }

  /** `&` is commutative. */
  lemma IntersectCommutes(a: Box, d: Box)
    ensures Intersect(a, d) == Intersect(d, a)
  {
  }

  /** A box with positive area intersected with itself is itself. */
  lemma IntersectSelf(a: Box)
    requires Valid(a) && Area(a) > 0
    ensures Intersect(a, a) == a
  {
  }
}
