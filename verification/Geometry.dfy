/** Positions, the distance test of `getAffectedNodes`, and the window it searches. */
module Geometry {

  datatype Position = Position(x: real, y: real, z: real)

  function Square(a: real): real { a * a }

  /** At most `radius` apart; the source compares the root of the sum of squares. */
  predicate Within(a: Position, b: Position, radius: real) {
    0.0 <= radius && Square(a.x - b.x) + Square(a.y - b.y) + Square(a.z - b.z) <= Square(radius)
  }

  /**
   What the search around `was` takes of the nodes near `now`: it goes left of the
   searching node down to the window's left edge, and right up to its right edge.
   */
  predicate Returned(was: Position, now: Position, left: bool, p: Position, radius: real) {
    && (if left then was.x - radius <= p.x else p.x <= was.x + radius)
    && was.y - radius <= p.y <= was.y + radius
    && Within(p, now, radius)
  }

  lemma SquareBound(a: real, r: real)
    requires 0.0 <= r && Square(a) <= Square(r)
    ensures -r <= a <= r
  {
    if r < a { Larger(a, r); }
    assert Square(-a) == Square(a);
    if a < -r { Larger(-a, r); }
  }

  lemma Larger(a: real, r: real)
    requires 0.0 <= r < a
    ensures Square(r) < Square(a)
  {
    assert a * a - r * r == (a - r) * (a + r);
    Positive(a - r, a + r);
  }

  lemma Positive(a: real, b: real)
    requires 0.0 < a && 0.0 < b
    ensures 0.0 < a * b
  {
  }

  lemma SquareNonNegative(a: real)
    ensures 0.0 <= Square(a)
  {
  }

  /** Whatever is within the radius is within the square around it. */
  lemma InSquare(a: Position, b: Position, radius: real)
    requires Within(a, b, radius)
    ensures -radius <= a.x - b.x <= radius && -radius <= a.y - b.y <= radius
  {
    hide Square;
    SquareNonNegative(a.x - b.x);
    SquareNonNegative(a.y - b.y);
    SquareNonNegative(a.z - b.z);
    SquareBound(a.x - b.x, radius);
    SquareBound(a.y - b.y, radius);
  }

  /** The side of the searching node that a node of a sorted list is on. */
  predicate OnSide(now: Position, left: bool, p: Position) { if left then p.x <= now.x else now.x <= p.x }

  /** The window is right for every node if and only if the searching node has kept its place in the plane. */
  lemma WindowExact(was: Position, now: Position, radius: real)
    requires 0.0 <= radius
    ensures (was.x == now.x && was.y == now.y) <==>
            (forall left, p :: OnSide(now, left, p) && Within(p, now, radius) ==> Returned(was, now, left, p, radius))
  {
    if was.x == now.x && was.y == now.y {
      forall left, p | OnSide(now, left, p) && Within(p, now, radius) ensures Returned(was, now, left, p, radius) {
        InSquare(p, now, radius);
      }
    } else {
      MissedNode(was, now, radius);
    }
  }

  /** A node at the rim that a search from a stale position misses. */
  lemma MissedNode(was: Position, now: Position, radius: real)
    requires 0.0 <= radius && (was.x != now.x || was.y != now.y)
    ensures exists left, p :: OnSide(now, left, p) && Within(p, now, radius) && !Returned(was, now, left, p, radius)
  {
    var p, left :=
      if was.x < now.x then now.(x := now.x + radius) else if now.x < was.x then now.(x := now.x - radius)
      else if was.y < now.y then now.(y := now.y + radius) else now.(y := now.y - radius),
      now.x <= was.x;
    assert Square(0.0) == 0.0 && Square(-radius) == Square(radius);
    assert OnSide(now, left, p) && Within(p, now, radius) && !Returned(was, now, left, p, radius);
  }

  /** On a line along any axis, within the radius is within that distance. */
  lemma WithinOnAxis(a: Position, b: Position, radius: real)
    requires 0.0 <= radius
    ensures a.y == b.y && a.z == b.z ==> (Within(a, b, radius) <==> -radius <= a.x - b.x <= radius)
    ensures a.x == b.x && a.z == b.z ==> (Within(a, b, radius) <==> -radius <= a.y - b.y <= radius)
    ensures a.x == b.x && a.y == b.y ==> (Within(a, b, radius) <==> -radius <= a.z - b.z <= radius)
  {
    SquareIff(a.x - b.x, radius);
    SquareIff(a.y - b.y, radius);
    SquareIff(a.z - b.z, radius);
  }

  lemma SquareIff(a: real, r: real)
    requires 0.0 <= r
    ensures Square(a) <= Square(r) <==> -r <= a <= r
  {
    assert Square(-a) == Square(a);
    if Square(a) <= Square(r) { SquareBound(a, r); }
    if -r <= a <= r { NoLarger(if 0.0 <= a then a else -a, r); }
  }

  lemma NoLarger(a: real, r: real)
    requires 0.0 <= a <= r
    ensures Square(a) <= Square(r)
  {
    if a < r { Larger(r, a); }
  }
}
