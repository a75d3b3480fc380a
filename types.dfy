/** Value types shared by the physics step: points (positions, velocities,
    accelerations) and particles. Arithmetic is over `real`. */
module Types {

  /** A 2-D vector; used for positions, velocities and per-pair accelerations. */
  datatype Point2D = Point2D(x: real, y: real)

  /** One simulated body. All bodies share one mass, so none is stored here. */
  datatype Particle = Particle(position: Point2D, velocity: Point2D)

  const Origin: Point2D := Point2D(0.0, 0.0)

  function Abs(a: real): real {
    if a < 0.0 then -a else a
  }

  /** -1, 0 or 1 according to the sign of `a`. */
  function Sign(a: real): int {
    if a > 0.0 then 1 else if a < 0.0 then -1 else 0
  }

  function Negate(p: Point2D): Point2D {
    Point2D(-p.x, -p.y)
  }

  function Add(p: Point2D, q: Point2D): Point2D {
    Point2D(p.x + q.x, p.y + q.y)
  }

  lemma NegateOrigin()
    ensures Negate(Origin) == Origin
  {
  }

  lemma AddOrigin(p: Point2D)
    ensures Add(Origin, p) == p
    ensures Add(p, Origin) == p
  {
  }

  lemma NegateByComponents(p: Point2D, q: Point2D)
    requires q.x == -p.x && q.y == -p.y
    ensures q == Negate(p)
  {
  }

  lemma AddNegate(p: Point2D, q: Point2D)
    ensures Add(Negate(p), Negate(q)) == Negate(Add(p, q))
  {
  }

  lemma AddInterchange(a: Point2D, b: Point2D, c: Point2D, d: Point2D)
    ensures Add(Add(a, b), Add(c, d)) == Add(Add(a, c), Add(b, d))
  {
  }

  /** The offset `to - from`. */
  function Offset(from: Point2D, to: Point2D): Point2D {
    Point2D(to.x - from.x, to.y - from.y)
  }

  /** The cross product u.x * v.y - u.y * v.x; zero exactly when u and v are
      parallel (or one of them is zero). */
  function Cross(u: Point2D, v: Point2D): real {
    u.x * v.y - u.y * v.x
  }

  /** `r` is a non-negative multiple of `d`: parallel to it, and each
      non-zero component of `r` has the sign of the same component of `d`.
      For d = Origin this forces r = Origin. */
  predicate Along(r: Point2D, d: Point2D) {
    Cross(r, d) == 0.0 &&
    (r.x == 0.0 || Sign(r.x) == Sign(d.x)) &&
    (r.y == 0.0 || Sign(r.y) == Sign(d.y))
  }

  /** The positions of a sequence of particles, in the same order. */
  function Positions(ps: seq<Particle>): seq<Point2D> {
    seq(|ps|, k requires 0 <= k < |ps| => ps[k].position)
  }
}
