/**
 * The System.Drawing value types the widgets compute with: a point, a size
 * and an axis-aligned rectangle given by its top-left corner and its size.
 * Coordinates are unbounded integers; the framework's 32-bit arithmetic is
 * not reproduced.
 */
module Drawing {

  datatype Point = Point(X: int, Y: int)

  datatype Size = Size(Width: int, Height: int)

  function MakeSize(width: int, height: int): Size { Size(width, height) }

  /** A rectangle whose right and bottom edges are exclusive. */
  datatype Rectangle = Rectangle(X: int, Y: int, Width: int, Height: int) {

    function Left(): int { X }
    function Top(): int { Y }
    function Right(): int { X + Width }
    function Bottom(): int { Y + Height }
    function Location(): Point { Point(X, Y) }
    function Size(): Size { MakeSize(Width, Height) }

    /** The point lies inside, counting the left and top edges but not the right and bottom ones. */
    predicate Contains(p: Point) {
      X <= p.X < X + Width && Y <= p.Y < Y + Height
    }

    /** The two rectangles share at least one interior point. */
    predicate IntersectsWith(r: Rectangle) {
      r.X < X + Width && X < r.X + r.Width && r.Y < Y + Height && Y < r.Y + r.Height
    }
  }

  /** The rectangle with the given location and size. */
  function FromLocationSize(p: Point, s: Size): (r: Rectangle)
    ensures r.Location() == p && r.Size() == s
  {
    Rectangle(p.X, p.Y, s.Width, s.Height)
  }

  /** The rectangle with the given four edges. */
  function FromLTRB(left: int, top: int, right: int, bottom: int): (r: Rectangle)
    ensures r.Left() == left && r.Top() == top && r.Right() == right && r.Bottom() == bottom
  {
    Rectangle(left, top, right - left, bottom - top)
  }
}
