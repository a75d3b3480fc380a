/** The pairwise gravitational law of `calc_gravitational_force` and the
    per-axis clamp that `Galaxy::push_forward` applies to each pairwise
    contribution before summing it (src/game.rs). */
module Gravity {
  import opened Types

  /** 6.67430 * 10^-11 */
  const GravitationalConstant: real := 0.0000000000667430

  /** Largest magnitude one pairwise contribution may have on one axis. */
  const MaxAbsAccel: real := 200.0

  predicate NonNegative(x: real) {
    0.0 <= x
  }

  /** `sqrt` returns the exact non-negative square root of every non-negative
      real. The platform square root is supplied by the caller as such a
      function. */
  ghost predicate IsSquareRoot(sqrt: real -> real) {
    forall x: real :: NonNegative(x) ==> NonNegative(sqrt(x)) && Square(sqrt(x)) == x
  }

  /** `a.powf(2.0)` */
  function Square(a: real): real {
    a * a
  }

  // The facts below about products and squares are proved on distinct
  // variables and stated on function terms, so that callers reason linearly.

  ghost function Product(a: real, b: real): real {
    a * b
  }

  lemma ProductPositive(a: real, b: real)
    requires 0.0 < a && 0.0 < b
    ensures 0.0 < Product(a, b)
  {
  }

  lemma ProductNonNegative(a: real, b: real)
    requires 0.0 <= a && 0.0 <= b
    ensures 0.0 <= Product(a, b)
  {
    if a != 0.0 && b != 0.0 {
      ProductPositive(a, b);
    }
  }

  lemma SquareSign(a: real)
    ensures 0.0 <= Square(a)
    ensures 0.0 < Square(a) <==> a != 0.0
  {
    if a > 0.0 {
      ProductPositive(a, a);
      assert Square(a) == Product(a, a);
    } else if a < 0.0 {
      ProductPositive(-a, -a);
      assert Square(a) == Product(-a, -a);
    } else {
      assert Square(a) == Square(0.0) == 0.0;
    }
  }

  lemma ScaleSign(k: real, a: real)
    requires 0.0 < k
    ensures Sign(k * a) == Sign(a)
  {
    if a > 0.0 {
      ProductPositive(k, a);
      assert k * a == Product(k, a);
    } else if a < 0.0 {
      ProductPositive(k, -a);
      assert k * a == -Product(k, -a);
    } else {
      assert k * a == k * 0.0 == 0.0;
    }
  }

  lemma QuotientSign(a: real, b: real)
    requires 0.0 < b
    ensures 0.0 <= a ==> 0.0 <= a / b
    ensures 0.0 < a ==> 0.0 < a / b
  {
    var q := a / b;
    assert q * b == a;
    if q < 0.0 {
      ProductPositive(-q, b);
      assert a == -Product(-q, b);
    } else if q == 0.0 {
      assert a == 0.0 * b == 0.0;
    }
  }

  /** a^2 + b^2 is never negative, and zero exactly when a and b both are. */
  lemma SumOfSquaresSign(a: real, b: real)
    ensures 0.0 <= Square(a) + Square(b)
    ensures Square(a) + Square(b) == 0.0 <==> a == 0.0 && b == 0.0
  {
    SquareSign(a);
    SquareSign(b);
  }

  /** The squared length of `d`. */
  function SquaredNorm(d: Point2D): real {
    Square(d.x) + Square(d.y)
  }

  /** G * mass^2, never negative and positive for a non-zero mass. */
  function MassTerm(mass: real): (r: real)
    ensures 0.0 <= r
    ensures mass != 0.0 ==> 0.0 < r
  {
    SquareSign(mass);
    if mass == 0.0 then
      assert Square(mass) == 0.0;
      GravitationalConstant * Square(mass)
    else
      ProductPositive(GravitationalConstant, Square(mass));
      GravitationalConstant * Square(mass)
  }

  /** G * mass^2 / distSq / dist, the factor that scales the offset. */
  function ForceMagnitude(mass: real, distSq: real, dist: real): (k: real)
    requires 0.0 < distSq && 0.0 < dist
    ensures 0.0 <= k
    ensures mass != 0.0 ==> 0.0 < k
    ensures k * dist * distSq == MassTerm(mass)
  {
    var g := MassTerm(mass);
    QuotientSign(g, distSq);
    QuotientSign(g / distSq, dist);
    DivideTwice(g, distSq, dist);
    g / distSq / dist
  }

  lemma DivideTwice(g: real, s: real, dist: real)
    requires s != 0.0 && dist != 0.0
    ensures g / s / dist * dist * s == g
  {
    assert g / s / dist * dist == g / s;
  }

  /** The offset `d` scaled by k. */
  function Scale(k: real, d: Point2D): Point2D {
    Point2D(k * d.x, k * d.y)
  }

  /** Scaling by k >= 0 gives a vector along `d`; a positive k keeps every
      sign. */
  lemma ScaleAlong(k: real, d: Point2D)
    requires 0.0 <= k
    ensures Along(Scale(k, d), d)
    ensures 0.0 < k ==> Sign(Scale(k, d).x) == Sign(d.x) && Sign(Scale(k, d).y) == Sign(d.y)
  {
    assert Cross(Point2D(k * d.x, k * d.y), d) == 0.0;
    if k != 0.0 {
      ScaleSign(k, d.x);
      ScaleSign(k, d.y);
    }
  }

  /** The law on the offset `rel` from the first body to the second: zero
      for a zero offset, otherwise the offset scaled by ForceMagnitude. */
  function ForceTowards(rel: Point2D, mass: real, sqrt: real -> real): Point2D
    requires IsSquareRoot(sqrt)
  {
    var distSq := Square(rel.x) + Square(rel.y);
    var dist := sqrt(distSq);
    if distSq == 0.0 then
      Origin
    else
      SumOfSquaresSign(rel.x, rel.y);
      assert NonNegative(distSq);
      assert 0.0 <= dist && dist * dist == distSq;
      Scale(ForceMagnitude(mass, distSq, dist), rel)
  }

  lemma ForceTowardsAlong(rel: Point2D, mass: real, sqrt: real -> real)
    requires IsSquareRoot(sqrt)
    ensures Along(ForceTowards(rel, mass, sqrt), rel)
  {
    var distSq := Square(rel.x) + Square(rel.y);
    if distSq == 0.0 {
      AlongFromOrigin(rel);
    } else {
      SumOfSquaresSign(rel.x, rel.y);
      ForceTowardsScaled(rel, mass, sqrt);
      ScaleAlong(ForceMagnitude(mass, distSq, sqrt(distSq)), rel);
    }
  }

  lemma ForceTowardsSign(rel: Point2D, mass: real, sqrt: real -> real)
    requires IsSquareRoot(sqrt)
    requires (rel.x != 0.0 || rel.y != 0.0) && mass != 0.0
    ensures Sign(ForceTowards(rel, mass, sqrt).x) == Sign(rel.x)
    ensures Sign(ForceTowards(rel, mass, sqrt).y) == Sign(rel.y)
  {
    var distSq := Square(rel.x) + Square(rel.y);
    SumOfSquaresSign(rel.x, rel.y);
    ForceTowardsScaled(rel, mass, sqrt);
    ScaleAlong(ForceMagnitude(mass, distSq, sqrt(distSq)), rel);
  }

  lemma AlongFromOrigin(d: Point2D)
    ensures Along(Origin, d)
  {
    assert Cross(Origin, d) == 0.0 * d.y - 0.0 * d.x;
  }

  /** The acceleration-like "force" felt at `first`, pulling towards `second`,
      when both bodies have mass `mass`: exactly zero for coincident points,
      otherwise G * mass^2 / d^2 / d times the offset `second - first`, d the
      distance. */
  function GravitationalForce(first: Point2D, second: Point2D, mass: real, sqrt: real -> real): Point2D
    requires IsSquareRoot(sqrt)
  {
    ForceTowards(Offset(first, second), mass, sqrt)
  }

  /** Coincident bodies exert no force on each other. */
  lemma ForceAtSamePoint(p: Point2D, mass: real, sqrt: real -> real)
    requires IsSquareRoot(sqrt)
    ensures GravitationalForce(p, p, mass, sqrt) == Origin
  {
    var rel := Offset(p, p);
    assert rel.x == 0.0 && rel.y == 0.0;
    SumOfSquaresSign(rel.x, rel.y);
  }

  /** For distinct bodies of non-zero mass each component of the force has
      exactly the sign of the offset `second - first`. */
  lemma ForceSign(first: Point2D, second: Point2D, mass: real, sqrt: real -> real)
    requires IsSquareRoot(sqrt)
    requires first != second && mass != 0.0
    ensures Sign(GravitationalForce(first, second, mass, sqrt).x) == Sign(second.x - first.x)
    ensures Sign(GravitationalForce(first, second, mass, sqrt).y) == Sign(second.y - first.y)
  {
    var rel := Offset(first, second);
    assert rel.x != 0.0 || rel.y != 0.0;
    ForceTowardsSign(rel, mass, sqrt);
  }

  /** The force is a non-negative multiple of the offset `second - first`:
      parallel to it and pointing the same way, whatever the mass. */
  lemma ForceAlongOffset(first: Point2D, second: Point2D, mass: real, sqrt: real -> real)
    requires IsSquareRoot(sqrt)
    ensures Along(GravitationalForce(first, second, mass, sqrt), Offset(first, second))
  {
    ForceTowardsAlong(Offset(first, second), mass, sqrt);
  }

  /** Swapping the two bodies negates the force: each feels the same pull
      towards the other. */
  lemma ForceAntisymmetric(first: Point2D, second: Point2D, mass: real, sqrt: real -> real)
    requires IsSquareRoot(sqrt)
    ensures GravitationalForce(second, first, mass, sqrt).x == -GravitationalForce(first, second, mass, sqrt).x
    ensures GravitationalForce(second, first, mass, sqrt).y == -GravitationalForce(first, second, mass, sqrt).y
  {
    var rel := Offset(first, second);
    assert Offset(second, first) == Negate(rel);
    ForceTowardsNegate(rel, mass, sqrt);
  }

  lemma ForceTowardsNegate(rel: Point2D, mass: real, sqrt: real -> real)
    requires IsSquareRoot(sqrt)
    ensures ForceTowards(Negate(rel), mass, sqrt).x == -ForceTowards(rel, mass, sqrt).x
    ensures ForceTowards(Negate(rel), mass, sqrt).y == -ForceTowards(rel, mass, sqrt).y
  {
    var nrel := Negate(rel);
    SquareNegate(rel.x);
    SquareNegate(rel.y);
    var distSq := Square(rel.x) + Square(rel.y);
    assert Square(nrel.x) + Square(nrel.y) == distSq;
    SumOfSquaresSign(rel.x, rel.y);
    if distSq != 0.0 {
      ForceTowardsScaled(rel, mass, sqrt);
      ForceTowardsScaled(nrel, mass, sqrt);
      ScaleNegate(ForceMagnitude(mass, distSq, sqrt(distSq)), rel);
    }
  }

  /** Away from a zero offset the force is the offset scaled by
      ForceMagnitude. */
  lemma ForceTowardsScaled(rel: Point2D, mass: real, sqrt: real -> real)
    requires IsSquareRoot(sqrt)
    requires 0.0 < Square(rel.x) + Square(rel.y)
    ensures 0.0 < sqrt(Square(rel.x) + Square(rel.y))
    ensures ForceTowards(rel, mass, sqrt)
              == Scale(ForceMagnitude(mass, Square(rel.x) + Square(rel.y), sqrt(Square(rel.x) + Square(rel.y))), rel)
  {
    var distSq := Square(rel.x) + Square(rel.y);
    assert NonNegative(distSq);
  }

  lemma ScaleNegate(k: real, d: Point2D)
    ensures Scale(k, Negate(d)) == Negate(Scale(k, d))
  {
    assert k * -d.x == -(k * d.x);
    assert k * -d.y == -(k * d.y);
  }

  lemma SquareNegate(a: real)
    ensures Square(-a) == Square(a)
  {
  }

  /** |f|^2 * (|rel|^2)^2 == g^2, that is |f| == g / |rel|^2. */
  predicate InverseSquare(f: Point2D, rel: Point2D, g: real) {
    SquaredNorm(f) * Square(SquaredNorm(rel)) == Square(g)
  }

  /** The inverse-square law: for distinct points the magnitude of the force
      is G * mass^2 / d^2, d the distance between them. */
  lemma ForceInverseSquare(first: Point2D, second: Point2D, mass: real, sqrt: real -> real)
    requires IsSquareRoot(sqrt)
    requires first != second
    ensures InverseSquare(GravitationalForce(first, second, mass, sqrt), Offset(first, second), MassTerm(mass))
  {
    var rel := Offset(first, second);
    assert rel.x != 0.0 || rel.y != 0.0;
    var distSq := SquaredNorm(rel);
    SumOfSquaresSign(rel.x, rel.y);
    var dist := sqrt(distSq);
    assert NonNegative(distSq);
    assert 0.0 <= dist && dist * dist == distSq;
    var k := ForceMagnitude(mass, distSq, dist);
    assert GravitationalForce(first, second, mass, sqrt) == Scale(k, rel);
    NormLaw(Scale(k, rel), k, rel, dist, MassTerm(mass));
  }

  lemma ScaleNorm(k: real, d: Point2D)
    ensures SquaredNorm(Scale(k, d)) == Square(k) * SquaredNorm(d)
  {
    assert Scale(k, d) == Point2D(k * d.x, k * d.y);
    SquareOfProduct(k, d.x);
    SquareOfProduct(k, d.y);
  }

  lemma SquareOfProduct(a: real, b: real)
    ensures Square(a * b) == Square(a) * Square(b)
  {
  }

  lemma NormLaw(f: Point2D, k: real, rel: Point2D, dist: real, g: real)
    requires f == Scale(k, rel)
    requires dist * dist == SquaredNorm(rel) && k * dist * SquaredNorm(rel) == g
    ensures InverseSquare(f, rel, g)
  {
    ScaleNorm(k, rel);
    MagnitudeLaw(k, g, SquaredNorm(rel), dist);
  }

  /** With dist^2 == s and k * dist * s == g: k^2 * s * s^2 == g^2. */
  lemma MagnitudeLaw(k: real, g: real, s: real, dist: real)
    requires dist * dist == s && k * dist * s == g
    ensures Square(k) * s * Square(s) == Square(g)
  {
    SquareOfProduct3(k, dist, s);
    assert Square(dist) == s;
  }

  lemma SquareOfProduct3(a: real, b: real, c: real)
    ensures Square(a * b * c) == Square(a) * Square(b) * Square(c)
  {
  }

  /** One axis of a pairwise contribution after the clamp in `push_forward`:
      a component of magnitude above MaxAbsAccel is replaced by
      a / |a| * MaxAbsAccel. The result is within the bound, keeps the sign of
      the input, and equals the input exactly when the input was in bound. */
  function ClampComponent(a: real): (r: real)
    ensures Abs(r) <= MaxAbsAccel
    ensures Sign(r) == Sign(a)
    ensures r == a <==> Abs(a) <= MaxAbsAccel
    ensures Abs(a) > MaxAbsAccel ==> Abs(r) == MaxAbsAccel
  {
    if Abs(a) > MaxAbsAccel then
      UnitQuotient(a);
      a / Abs(a) * MaxAbsAccel
    else
      a
  }

  /** a / |a| is the sign of a. */
  lemma UnitQuotient(a: real)
    requires a != 0.0
    ensures a / Abs(a) == if 0.0 < a then 1.0 else -1.0
  {
    if 0.0 < a {
      assert a / a * a == a;
    } else {
      assert a / (-a) * (-a) == a;
    }
  }

  /** The contribution of `other` to the acceleration of a body at `at`:
      the force, clamped per axis. */
  function Contribution(at: Point2D, other: Point2D, mass: real, sqrt: real -> real): (r: Point2D)
    requires IsSquareRoot(sqrt)
    ensures Abs(r.x) <= MaxAbsAccel && Abs(r.y) <= MaxAbsAccel
  {
    var f := GravitationalForce(at, other, mass, sqrt);
    Point2D(ClampComponent(f.x), ClampComponent(f.y))
  }

  /** A body contributes nothing to the acceleration at its own position. */
  lemma ContributionAtSamePoint(p: Point2D, mass: real, sqrt: real -> real)
    requires IsSquareRoot(sqrt)
    ensures Contribution(p, p, mass, sqrt) == Origin
  {
    ForceAtSamePoint(p, mass, sqrt);
    var f := GravitationalForce(p, p, mass, sqrt);
    assert f.x == 0.0 && f.y == 0.0;
    ClampZero(f.x);
    ClampZero(f.y);
  }

  lemma ClampZero(a: real)
    requires a == 0.0
    ensures ClampComponent(a) == 0.0
  {
  }

  /** The clamp keeps the direction: a distinct body of non-zero mass pulls
      each axis towards itself. */
  lemma ContributionSign(at: Point2D, other: Point2D, mass: real, sqrt: real -> real)
    requires IsSquareRoot(sqrt)
    requires at != other && mass != 0.0
    ensures Sign(Contribution(at, other, mass, sqrt).x) == Sign(other.x - at.x)
    ensures Sign(Contribution(at, other, mass, sqrt).y) == Sign(other.y - at.y)
  {
    ForceSign(at, other, mass, sqrt);
  }

  /** MaxAbsAccel times the number of accumulated terms. */
  function AccelerationBound(n: nat): real {
    MaxAbsAccel * n as real
  }

  /** The acceleration of a body at `at` accumulated, in order, over the
      positions in `snapshot`: each term is clamped before it is added, so
      each axis is bounded by MaxAbsAccel times the number of positions. */
  function Acceleration(at: Point2D, snapshot: seq<Point2D>, mass: real, sqrt: real -> real): (r: Point2D)
    requires IsSquareRoot(sqrt)
    ensures Abs(r.x) <= AccelerationBound(|snapshot|)
    ensures Abs(r.y) <= AccelerationBound(|snapshot|)
    decreases |snapshot|
  {
    if snapshot == [] then
      Origin
    else
      var n := |snapshot| - 1;
      var sum := Acceleration(at, snapshot[..n], mass, sqrt);
      var term := Contribution(at, snapshot[n], mass, sqrt);
      Add(sum, term)
  }

  /** The clamp is odd: clamping -a gives minus the clamp of a. */
  lemma ClampNegate(a: real)
    ensures ClampComponent(-a) == -ClampComponent(a)
  {
    assert Abs(-a) == Abs(a);
    if Abs(a) > MaxAbsAccel {
      UnitQuotient(a);
      UnitQuotient(-a);
    }
  }

  /** Action and reaction: the clamped contribution of b at a is minus that
      of a at b. */
  lemma ContributionAntisymmetric(a: Point2D, b: Point2D, mass: real, sqrt: real -> real)
    requires IsSquareRoot(sqrt)
    ensures Contribution(b, a, mass, sqrt).x == -Contribution(a, b, mass, sqrt).x
    ensures Contribution(b, a, mass, sqrt).y == -Contribution(a, b, mass, sqrt).y
  {
    var f := GravitationalForce(a, b, mass, sqrt);
    ForceAntisymmetric(a, b, mass, sqrt);
    ClampNegate(f.x);
    ClampNegate(f.y);
  }

  /** The accumulation splits over a concatenation of snapshots. */
  lemma {:induction false} AccelerationAppend(at: Point2D, s: seq<Point2D>, t: seq<Point2D>, mass: real, sqrt: real -> real)
    requires IsSquareRoot(sqrt)
    ensures Acceleration(at, s + t, mass, sqrt)
              == Add(Acceleration(at, s, mass, sqrt), Acceleration(at, t, mass, sqrt))
    decreases |t|
  {
    if t == [] {
      assert s + t == s;
    } else {
      var n := |t| - 1;
      assert (s + t)[..|s + t| - 1] == s + t[..n];
      assert (s + t)[|s + t| - 1] == t[n];
      AccelerationAppend(at, s, t[..n], mass, sqrt);
    }
  }
}
