// Points and rectangles shared by the draw layer, the clip stack and the text walk.
// The source stores them as 32-bit floats; the model uses exact reals, which is
// enough for the comparisons and min/max operations that decide control flow.
module Geometry {

  datatype Vec2 = Vec2(x: real, y: real)

  /** An axis-aligned rectangle given by its two corners (plRect). */
  datatype Rect = Rect(min: Vec2, max: Vec2)

  /** The rectangle reported when the clip stack is empty: all four bounds zero. */
  const ZeroRect: Rect := Rect(Vec2(0.0, 0.0), Vec2(0.0, 0.0))

  function MaxReal(a: real, b: real): (r: real)
    ensures r >= a && r >= b && (r == a || r == b)
  {
    if a > b then a else b
  }

  function MinReal(a: real, b: real): (r: real)
    ensures r <= a && r <= b && (r == a || r == b)
  {
    if a < b then a else b
  }

  /** Every bound of `inner` lies on the inside of the matching bound of `outer`. */
  predicate Within(inner: Rect, outer: Rect)
  {
    outer.min.x <= inner.min.x && outer.min.y <= inner.min.y &&
    inner.max.x <= outer.max.x && inner.max.y <= outer.max.y
  }

  /**
   * Intersection of two rectangles, bound by bound. This is how the clip stack
   * accumulates a pushed rectangle with the current top: the result never
   * reaches outside either argument, and it is the largest rectangle that does not.
   */
  function Intersect(a: Rect, b: Rect): (r: Rect)
    ensures Within(r, a) && Within(r, b)
    ensures forall c :: Within(c, a) && Within(c, b) ==> Within(c, r)
  {
    Rect(Vec2(MaxReal(a.min.x, b.min.x), MaxReal(a.min.y, b.min.y)),
         Vec2(MinReal(a.max.x, b.max.x), MinReal(a.max.y, b.max.y)))
  }

  /** Point-in-rectangle test, bounds included. */
  predicate Contains(r: Rect, p: Vec2)
  {
    r.min.x <= p.x && r.min.y <= p.y && p.x <= r.max.x && p.y <= r.max.y
  }
}
