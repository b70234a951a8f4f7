/** Board coordinates (point.h).

    The C++ constructor `Point(int x, int y)` initialises both fields from its
    arguments and then "clamps" the arguments, not the fields (the parameters
    shadow the members), so a point keeps exactly the coordinates it was built
    with. The datatype constructor `Point(x, y)` is therefore the whole
    constructor: nothing here is clamped and a point may lie off the board. */
module Points {

  datatype Point = Point(x: int, y: int)

  /** `operator==` of point.h: component-wise comparison of the coordinates.
      It coincides with equality of the values, so it is an equivalence. */
  function Equals(p: Point, q: Point): (same: bool)
    ensures same <==> p == q
  {
    q.x == p.x && q.y == p.y
  }
}
