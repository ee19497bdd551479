/**
 Points, sizes and rectangles of the host graphics library, over ideal
 real numbers instead of floating point.
 */
module Geometry {

  datatype Point = Point(x: real, y: real)

  datatype Size = Size(width: real, height: real)

  datatype Rect = Rect(origin: Point, size: Size)

  function Max(a: real, b: real): real
  {
    if a < b then b else a
  }

  function Min(a: real, b: real): real
  {
    if a < b then a else b
  }

  /** The largest x of a rectangle. As in the host library the rectangle is
      first standardised, so a negative width leaves the origin as the right
      edge. */
  function MaxX(r: Rect): (x: real)
    ensures x >= r.origin.x && x >= r.origin.x + r.size.width
    ensures x == r.origin.x || x == r.origin.x + r.size.width
  {
    r.origin.x + Max(r.size.width, 0.0)
  }

  /** The largest y of a rectangle, standardised like `MaxX`. */
  function MaxY(r: Rect): (y: real)
    ensures y >= r.origin.y && y >= r.origin.y + r.size.height
    ensures y == r.origin.y || y == r.origin.y + r.size.height
  {
    r.origin.y + Max(r.size.height, 0.0)
  }

  /** `s` fits inside `b` on both axes. */
  predicate FitsIn(s: Size, b: Size)
  {
    s.width <= b.width && s.height <= b.height
  }

  /** `s` covers `b` on both axes. */
  predicate Covers(s: Size, b: Size)
  {
    s.width >= b.width && s.height >= b.height
  }

  /** `s` has the same width-to-height ratio as `t`. */
  predicate SameAspect(s: Size, t: Size)
  {
    s.width * t.height == s.height * t.width
  }

  /** A size multiplied by one factor on both axes. */
  function Scaled(s: Size, k: real): Size
  {
    Size(s.width * k, s.height * k)
  }
}
