/** Axis-aligned rectangular obstacles and the point-containment test. */
module Geometry {

  /** A rectangle given by two corners; the maze never changes one after creation. */
  datatype Obstacle = Obstacle(x1: real, y1: real, x2: real, y2: real)
  {
    /** The corners are ordered, as every obstacle of the maze is. */
    predicate WellFormed() {
      x1 <= x2 && y1 <= y2
    }

    /**
     * Whether the point (x, y) lies in the closed rectangle. A rectangle whose
     * corners are not ordered contains no point at all.
     */
    function Collides(x: real, y: real): (inside: bool)
      ensures inside ==> WellFormed()
    {
      x1 <= x && x <= x2 && y1 <= y && y <= y2
    }
  }

  /**
   * Scans the obstacles in order and reports a hit at the first one that
   * contains the point (x, y); the scan hits exactly when some obstacle does.
   */
  function HitsAny(obstacles: seq<Obstacle>, x: real, y: real): (hit: bool)
    ensures hit <==> exists i :: 0 <= i < |obstacles| && obstacles[i].Collides(x, y)
  {
    if obstacles == [] then false
    else if obstacles[0].Collides(x, y) then true
    else HitsAny(obstacles[1..], x, y)
  }

  /** All four sides of an obstacle are part of it: the corners collide. */
  lemma CornersCollide(o: Obstacle)
    requires o.WellFormed()
    ensures o.Collides(o.x1, o.y1) && o.Collides(o.x1, o.y2)
    ensures o.Collides(o.x2, o.y1) && o.Collides(o.x2, o.y2)
  {
  }

  /**
   * Containment is exact at the boundary: a point on a side collides, and a
   * point any positive distance beyond that side does not.
   */
  lemma BoundaryIsExact(o: Obstacle, x: real, y: real, eps: real)
    requires o.x1 <= x <= o.x2 && o.y1 <= y <= o.y2
    requires eps > 0.0
    ensures o.Collides(x, y)
    ensures !o.Collides(o.x1 - eps, y) && !o.Collides(o.x2 + eps, y)
    ensures !o.Collides(x, o.y1 - eps) && !o.Collides(x, o.y2 + eps)
  {
  }
}
