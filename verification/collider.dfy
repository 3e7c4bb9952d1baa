/**
 * Axis-aligned bounding boxes and their overlap test (src/app/collider.rs).
 * `ColliderType` has the single variant `AABB`, so a hitbox is an `AABB` here.
 */
module Collider {
  import opened Board

  /** The coarse tag an entity's collision check filters on. */
  datatype ColliderLayer = Player | Food

  datatype AABB = AABB(min: Position, max: Position)

  /** `AABB::new`: the corners are kept as given, with no ordering or validation. */
  function NewAabb(min: Position, max: Position): (r: AABB)
    ensures r.min == min && r.max == max
  {
    AABB(min, max)
  }

  /** The closed intervals [lo1, hi1] and [lo2, hi2] reach each other from both sides. */
  predicate Reaches(lo1: real, hi1: real, lo2: real, hi2: real) {
    lo1 <= hi2 && lo2 <= hi1
  }

  /** `AABB::intersects`: neither box lies wholly to one side of the other. */
  function Intersects(a: AABB, b: AABB): (r: bool)
    ensures r <==> Reaches(a.min.x, a.max.x, b.min.x, b.max.x) && Reaches(a.min.y, a.max.y, b.min.y, b.max.y)
  {
    !(a.max.x < b.min.x || a.min.x > b.max.x ||
      a.max.y < b.min.y || a.min.y > b.max.y)
  }

  /** Both corners are ordered on both axes. */
  predicate Ordered(a: AABB) {
    a.min.x <= a.max.x && a.min.y <= a.max.y
  }

  /** `p` lies in the closed box `a`. */
  predicate Contains(a: AABB, p: Position) {
    a.min.x <= p.x <= a.max.x && a.min.y <= p.y <= a.max.y
  }

  predicate InInterval(t: real, lo: real, hi: real) {
    lo <= t <= hi
  }

  /** The closed intervals [lo1, hi1] and [lo2, hi2] share a point. */
  ghost predicate IntervalsOverlap(lo1: real, hi1: real, lo2: real, hi2: real) {
    exists t :: InInterval(t, lo1, hi1) && InInterval(t, lo2, hi2)
  }

  lemma IntersectsSymmetric(a: AABB, b: AABB)
    ensures Intersects(a, b) == Intersects(b, a)
  {
  }

  /** The test holds exactly when the closed x-intervals and the closed y-intervals both overlap. */
  lemma IntersectsIffIntervalsOverlap(a: AABB, b: AABB)
    requires Ordered(a) && Ordered(b)
    ensures Intersects(a, b) <==>
      IntervalsOverlap(a.min.x, a.max.x, b.min.x, b.max.x) &&
      IntervalsOverlap(a.min.y, a.max.y, b.min.y, b.max.y)
  {
    if Intersects(a, b) {
      var tx := if a.min.x <= b.min.x then b.min.x else a.min.x;
      var ty := if a.min.y <= b.min.y then b.min.y else a.min.y;
      assert InInterval(tx, a.min.x, a.max.x) && InInterval(tx, b.min.x, b.max.x);
      assert InInterval(ty, a.min.y, a.max.y) && InInterval(ty, b.min.y, b.max.y);
    }
  }

  /** Two ordered boxes intersect exactly when some point lies in both. */
  lemma IntersectsIffCommonPoint(a: AABB, b: AABB)
    requires Ordered(a) && Ordered(b)
    ensures Intersects(a, b) <==> exists p :: Contains(a, p) && Contains(b, p)
  {
    if Intersects(a, b) {
      var p := Position(if a.min.x <= b.min.x then b.min.x else a.min.x,
                        if a.min.y <= b.min.y then b.min.y else a.min.y);
      assert Contains(a, p) && Contains(b, p);
    }
  }

  /** Boxes that only share an edge or a corner still intersect. */
  lemma TouchingIntersects(a: AABB, b: AABB)
    requires Ordered(a) && Ordered(b)
    requires || (a.max.x == b.min.x && Reaches(a.min.y, a.max.y, b.min.y, b.max.y))
             || (a.max.y == b.min.y && Reaches(a.min.x, a.max.x, b.min.x, b.max.x))
    ensures Intersects(a, b)
  {
  }

  /** An ordered box intersects itself; an unordered one does not. */
  lemma IntersectsSelf(a: AABB)
    ensures Intersects(a, a) <==> Ordered(a)
  {
  }
}
