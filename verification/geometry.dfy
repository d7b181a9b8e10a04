/**
  Integer points, sizes and axis-aligned rectangles, with the overlap test the
  game delegates to `System.Drawing.Rectangle.IntersectsWith`.
*/
module Geometry {

  /** A pixel position, or a per-tick displacement. */
  datatype Point = Point(x: int, y: int)

  datatype Size = Size(width: int, height: int)

  /** A rectangle with its top-left corner at (x, y). */
  datatype Rectangle = Rectangle(x: int, y: int, width: int, height: int) {

    function Right(): int { x + width }

    function Bottom(): int { y + height }

    /** The pixel (px, py) is covered: left and top edges inclusive, right and bottom exclusive. */
    predicate Covers(px: int, py: int) {
      x <= px < Right() && y <= py < Bottom()
    }

    predicate HasArea() { width > 0 && height > 0 }
  }

  /**
    `a.IntersectsWith(b)` as .NET defines it: each rectangle starts strictly
    before the other one ends, on both axes.
  */
  predicate IntersectsWith(a: Rectangle, b: Rectangle) {
    b.x < a.x + a.width && a.x < b.x + b.width &&
    b.y < a.y + a.height && a.y < b.y + b.height
  }

  function Max(a: int, b: int): int { if a < b then b else a }

  /**
    For rectangles with area, the overlap test holds exactly when some pixel
    is covered by both rectangles.
  */
  lemma IntersectsIffSharedPixel(a: Rectangle, b: Rectangle)
    requires a.HasArea() && b.HasArea()
    ensures IntersectsWith(a, b) <==> exists px, py :: a.Covers(px, py) && b.Covers(px, py)
  {
    if IntersectsWith(a, b) {
      var px, py := Max(a.x, b.x), Max(a.y, b.y);
      assert a.Covers(px, py) && b.Covers(px, py);
    }
  }

  /** The overlap test does not depend on which rectangle asks. */
  lemma IntersectsSymmetric(a: Rectangle, b: Rectangle)
    ensures IntersectsWith(a, b) <==> IntersectsWith(b, a)
  {
  }

  /** Rectangles that only share an edge do not intersect. */
  lemma TouchingEdgesDoNotIntersect(a: Rectangle, b: Rectangle)
    requires a.Right() == b.x || a.Bottom() == b.y
    ensures !IntersectsWith(a, b) && !IntersectsWith(b, a)
  {
  }

  /**
    Unlike "overlap by a nonzero area", the .NET test accepts a rectangle of
    zero width that lies strictly inside another one.
  */
  lemma EmptyRectangleCanIntersect()
    ensures IntersectsWith(Rectangle(0, 0, 10, 10), Rectangle(5, 5, 0, 1))
    ensures !Rectangle(5, 5, 0, 1).HasArea()
  {
  }
}
