/**
 The elliptic-curve group that the additive ElGamal scheme runs over: a cyclic group of order
 `order`, every point named by its discrete logarithm to the generator (0 is the point
 at infinity), with affine coordinates in the field of `field` elements.
 */
module Curve {
  import opened ModArith

  datatype Curve = Curve(order: int, field: int, x: int -> int, y: int -> int)

  ghost predicate IsPoint(c: Curve, a: int) {
    0 < a < c.order
  }

  ghost predicate Coordinates(c: Curve, a: int) {
    IsPoint(c, a) ==> 0 <= c.x(a) < c.field && 0 <= c.y(a) < c.field
  }

  /** Two points share their first coordinate exactly when they are equal or opposite. */
  ghost predicate SameX(c: Curve, a: int, b: int) {
    IsPoint(c, a) && IsPoint(c, b) ==> (c.x(a) == c.x(b) <==> a == b || a + b == c.order)
  }

  ghost predicate Opposite(c: Curve, a: int)
    requires c.field > 0
  {
    IsPoint(c, a) ==> Cong(c.y(c.order - a), -c.y(a), c.field)
  }

  /** The first coordinate of a sum, given the inverse of the difference of first coordinates. */
  ghost predicate Chord(c: Curve, a: int, b: int, inv: int)
    requires c.field > 0 && c.order > 0
  {
    IsPoint(c, a) && IsPoint(c, b) && Cong(inv * (c.x(b) - c.x(a)), 1, c.field) ==>
      var slope := (c.y(b) - c.y(a)) * inv;
      Cong(c.x((a + b) % c.order), slope * slope - (c.x(a) + c.x(b)), c.field)
  }

  ghost predicate IsCurve(c: Curve) {
    && c.order > 1 && Prime(c.field)
    && (forall a :: Coordinates(c, a))
    && (forall a, b :: SameX(c, a, b))
    && (forall a :: Opposite(c, a))
    && (forall a, b, inv :: Chord(c, a, b, inv))
  }

  // ----- Group operations

  function MulBase(c: Curve, m: int): (a: int)
    requires c.order > 0
    ensures 0 <= a < c.order
  {
    m % c.order
  }

  function Mul(c: Curve, a: int, s: int): (b: int)
    requires c.order > 0
    ensures 0 <= b < c.order
  {
    (a * s) % c.order
  }

  function Add(c: Curve, a: int, b: int): (d: int)
    requires c.order > 0
    ensures 0 <= d < c.order
  {
    (a + b) % c.order
  }

  function Sub(c: Curve, a: int, b: int): (d: int)
    requires c.order > 0
    ensures 0 <= d < c.order
  {
    (a - b) % c.order
  }

  datatype AffinePoint = AffinePoint(x: int, y: int)

  function Affine(c: Curve, a: int): AffinePoint {
    AffinePoint(c.x(a), c.y(a))
  }
}
