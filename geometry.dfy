/** Distances between points of the arena, on integer coordinates.

    The game compares `Math.hypot(px - qx, py - qy) < r`. On integers this is
    decided exactly by comparing squares, provided the radius is not negative
    (a hypotenuse is never below a negative radius). */
module Geometry {

  function SquaredDistance(px: int, py: int, qx: int, qy: int): (d: int)
    ensures d >= 0
    ensures d == 0 <==> px == qx && py == qy
  {
    var u, v := px - qx, py - qy;
    assert u * u >= 0 && v * v >= 0;
    assert u != 0 ==> u * u > 0;
    assert v != 0 ==> v * v > 0;
    u * u + v * v
  }

  /** The point (px, py) lies strictly inside the circle of radius r around (qx, qy). */
  predicate Within(px: int, py: int, qx: int, qy: int, r: int)
  {
    0 <= r && SquaredDistance(px, py, qx, qy) < r * r
  }
}
