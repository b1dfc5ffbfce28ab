/**
 * Axis-aligned rectangles on the canvas plane, the bounding-box collision test
 * and the intersection calculator of the showcase plug-in (auto-exec/code.js).
 *
 * Canvas coordinates are JavaScript numbers; they are modelled as `real`.
 * An absent bounds object (`null`/`undefined` in the plug-in) is `None`.
 */
module Geometry {

  datatype Option<T> = None | Some(value: T)

  /** A bounds record `{x, y, width, height}`: top-left corner and extent. */
  datatype Rect = Rect(x: real, y: real, width: real, height: real)
  {
    function Right(): real { x + width }
    function Bottom(): real { y + height }
  }

  datatype Point = Point(x: real, y: real)

  /** A host bounding box never has a negative extent. */
  predicate WellFormed(r: Rect) {
    r.width >= 0.0 && r.height >= 0.0
  }

  /** The point lies in the rectangle, edges included. */
  predicate InClosed(p: Point, r: Rect) {
    r.x <= p.x <= r.Right() && r.y <= p.y <= r.Bottom()
  }

  /** The point lies strictly inside the rectangle. */
  predicate InOpen(p: Point, r: Rect) {
    r.x < p.x < r.Right() && r.y < p.y < r.Bottom()
  }

  /** One box lies strictly left of, right of, above or below the other. */
  predicate Separated(a: Rect, b: Rect) {
    a.Right() < b.x || b.Right() < a.x || a.Bottom() < b.y || b.Bottom() < a.y
  }

  function Max(a: real, b: real): real { if a < b then b else a }
  function Min(a: real, b: real): real { if a < b then a else b }

  /**
   * `checkCollision`: absent bounds never collide; present bounds collide
   * unless a separating axis exists. The separation test is strict, so boxes
   * that only share an edge or a corner are reported as colliding.
   */
  function CheckCollision(a: Option<Rect>, b: Option<Rect>): (r: bool)
    ensures r ==> a.Some? && b.Some?
  {
    if a.None? || b.None? then false
    else !Separated(a.value, b.value)
  }

  /**
   * `getIntersection`: the overlap of two present boxes when it has a strictly
   * positive extent on both axes, and `None` otherwise.
   */
  function GetIntersection(a: Option<Rect>, b: Option<Rect>): (r: Option<Rect>)
    ensures a.None? || b.None? ==> r.None?
    ensures r.Some? ==> r.value.width > 0.0 && r.value.height > 0.0
    ensures r.Some? ==> Inside(r.value, a.value) && Inside(r.value, b.value)
  {
    if a.None? || b.None? then None
    else
      var A, B := a.value, b.value;
      var x := Max(A.x, B.x);
      var y := Max(A.y, B.y);
      var right := Min(A.Right(), B.Right());
      var bottom := Min(A.Bottom(), B.Bottom());
      if x < right && y < bottom then Some(Rect(x, y, right - x, bottom - y))
      else None
  }

  /** Rectangle `inner` is contained in rectangle `outer`. */
  predicate Inside(inner: Rect, outer: Rect) {
    outer.x <= inner.x && inner.Right() <= outer.Right() &&
    outer.y <= inner.y && inner.Bottom() <= outer.Bottom()
  }

  lemma CollisionSymmetric(a: Option<Rect>, b: Option<Rect>)
    ensures CheckCollision(a, b) == CheckCollision(b, a)
  {
  }

  /**
   * For boxes of non-negative extent, the collision test holds exactly when
   * the two closed boxes share a point.
   */
  lemma CollisionIffSharedPoint(a: Rect, b: Rect)
    requires WellFormed(a) && WellFormed(b)
    ensures CheckCollision(Some(a), Some(b)) <==> exists p :: InClosed(p, a) && InClosed(p, b)
  {
    if CheckCollision(Some(a), Some(b)) {
      var p := Point(Max(a.x, b.x), Max(a.y, b.y));
      assert InClosed(p, a) && InClosed(p, b);
    }
  }

  /** Two boxes that touch along an edge, without overlapping, collide. */
  lemma EdgeContactCollides(a: Rect, b: Rect)
    requires WellFormed(a) && WellFormed(b)
    requires b.x == a.Right() && a.y <= b.y <= a.Bottom()
    ensures CheckCollision(Some(a), Some(b))
    ensures GetIntersection(Some(a), Some(b)).None?
  {
  }

  /**
   * A point is strictly inside the intersection exactly when it is strictly
   * inside both boxes: the result is the true geometric overlap.
   */
  lemma IntersectionIsOverlap(a: Rect, b: Rect, p: Point)
    ensures GetIntersection(Some(a), Some(b)).Some? ==>
      (InOpen(p, GetIntersection(Some(a), Some(b)).value) <==> InOpen(p, a) && InOpen(p, b))
  {
  }

  /** The intersection is present exactly when the open boxes share a point. */
  lemma IntersectionIffOverlap(a: Rect, b: Rect)
    ensures GetIntersection(Some(a), Some(b)).Some? <==> exists p :: InOpen(p, a) && InOpen(p, b)
  {
    var r := GetIntersection(Some(a), Some(b));
    if r.Some? {
      var R := r.value;
      var p := Point(R.x + R.width / 2.0, R.y + R.height / 2.0);
      assert InOpen(p, a) && InOpen(p, b);
    } else {
      forall p | InOpen(p, a) ensures !InOpen(p, b) {
      }
    }
  }

  /** A present intersection implies a collision. */
  lemma IntersectionImpliesCollision(a: Option<Rect>, b: Option<Rect>)
    ensures GetIntersection(a, b).Some? ==> CheckCollision(a, b)
  {
  }

  /** The converse fails: boxes that share only an edge collide but have no intersection. */
  lemma CollisionWithoutIntersection()
    ensures var a, b := Rect(0.0, 0.0, 10.0, 10.0), Rect(10.0, 0.0, 10.0, 10.0);
      CheckCollision(Some(a), Some(b)) && GetIntersection(Some(a), Some(b)).None?
  {
  }
}
