/**
 * The vector algebra the enemy code performs on positions and waypoints
 * (`fromTo`, `len`, `norm`, `mul`, `add`), restricted to points on a line.
 *
 * A point is a real coordinate; the vector from `a` to `b` is `b - a`, its
 * length is the absolute value and its direction (`norm`) is its sign. In one
 * dimension all of this is exact linear arithmetic, with no square root.
 */
module Geometry {

  /** A position or waypoint: a coordinate on the line the path runs along. */
  type Point = real

  function Abs(a: real): real {
    if a < 0.0 then -a else a
  }

  /** Length of the vector from `a` to `b` (`Vector2.fromTo(a, b).len()`). */
  function Distance(a: Point, b: Point): (d: real)
    ensures d >= 0.0
    ensures d == 0.0 <==> a == b
  {
    Abs(b - a)
  }

  /**
   * `p` moved by `d` in the direction of `t`: `norm(fromTo(p, t)).mul(d).add(p)`.
   * The zero vector has no direction and is mapped to itself, so nothing moves
   * when `p == t` (in floating point the division inside `norm` would give NaN).
   */
  function MoveToward(p: Point, t: Point, d: real): (q: Point)
    ensures 0.0 <= d <= Distance(p, t) ==> Distance(p, q) == d && Distance(q, t) == Distance(p, t) - d
  {
    if p < t then p + d else if t < p then p - d else p
  }

  lemma DistanceSymmetric(a: Point, b: Point)
    ensures Distance(a, b) == Distance(b, a)
  {
  }

}
