/** The particle world `Galaxy` of src/game.rs: its seeding (`Galaxy::new`),
    its fixed-step update (`push_forward`) and the cluster a mouse click adds. */
module Simulation {
  import opened Types
  import opened Gravity

  /** Number of particles `Galaxy::new` seeds. */
  const NumParticles: nat := 6
  /** Seeded velocity components lie in [-MaxSingleAxisVel, MaxSingleAxisVel). */
  const MaxSingleAxisVel: real := 0.0001
  /** Seeded positions keep this distance from every edge of the world. */
  const SeedMargin: nat := 100
  /** A click adds particles at offsets -HalfNumToAdd .. HalfNumToAdd - 1. */
  const HalfNumToAdd: int := 2

  /** Position and velocity along one axis. */
  datatype AxisState = AxisState(position: real, velocity: real)

  /** The tentative position along one axis after moving at `velocity` for
      `timeStep`. */
  function Advance(position: real, velocity: real, timeStep: real): real {
    position + timeStep * velocity
  }

  /** "Bounce off walls" on one axis, world [0, bound] on that axis, for a
      particle whose velocity has already been updated. The tentative
      position uses that velocity. If it lies in [0, bound] it is committed;
      otherwise the position stays and the velocity is negated. So a position
      inside [0, bound] stays inside, the position either stays or moves to
      the tentative one, and the speed along the axis never changes. */
  function BounceAxis(position: real, velocity: real, timeStep: real, bound: real): (r: AxisState)
    ensures 0.0 <= Advance(position, velocity, timeStep) <= bound ==>
              r == AxisState(Advance(position, velocity, timeStep), velocity)
    ensures !(0.0 <= Advance(position, velocity, timeStep) <= bound) ==> r == AxisState(position, -velocity)
    ensures 0.0 <= position <= bound ==> 0.0 <= r.position <= bound
    ensures r.position == position || r.position == Advance(position, velocity, timeStep)
    ensures r.velocity == velocity || r.velocity == -velocity
    ensures Abs(r.velocity) == Abs(velocity)
  {
    var likely := Advance(position, velocity, timeStep);
    if likely < 0.0 || likely > bound then
      AxisState(position, -velocity)
    else
      AxisState(likely, velocity)
  }

  /** A particle at x = 5 moving left at 50 per unit time, in a world 800
      wide, over a step of 1: the tentative position -45 is outside, so the
      particle stays at 5 and now moves right at 50. */
  lemma BounceOffLeftWall()
    ensures BounceAxis(5.0, -50.0, 1.0, 800.0) == AxisState(5.0, 50.0)
  {
    assert Advance(5.0, -50.0, 1.0) == -45.0;
  }

  /** The velocity along one axis after gaining timeStep * acc. The
      position update then uses this new velocity (semi-implicit Euler). */
  function Kick(velocity: real, acc: real, timeStep: real): real {
    velocity + timeStep * acc
  }

  /** The new state of particle `p` after one step under acceleration `acc`:
      the velocity gains timeStep * acc, then each axis bounces or moves. */
  function Integrate(p: Particle, acc: Point2D, timeStep: real, width: real, height: real): Particle {
    var ax := BounceAxis(p.position.x, Kick(p.velocity.x, acc.x, timeStep), timeStep, width);
    var ay := BounceAxis(p.position.y, Kick(p.velocity.y, acc.y, timeStep), timeStep, height);
    Particle(Point2D(ax.position, ay.position), Point2D(ax.velocity, ay.velocity))
  }

  /** What `Integrate` does to each axis, from the inputs: the velocity is
      kicked; if the tentative position with the kicked velocity lies in
      [0, width] (resp. [0, height]) both are taken, otherwise the position
      stays and the kicked velocity is negated. */
  lemma IntegrateAxes(p: Particle, acc: Point2D, timeStep: real, width: real, height: real)
    ensures
      var r := Integrate(p, acc, timeStep, width, height);
      var vx := Kick(p.velocity.x, acc.x, timeStep);
      var tx := Advance(p.position.x, vx, timeStep);
      (0.0 <= tx <= width ==> r.position.x == tx && r.velocity.x == vx) &&
      (!(0.0 <= tx <= width) ==> r.position.x == p.position.x && r.velocity.x == -vx)
    ensures
      var r := Integrate(p, acc, timeStep, width, height);
      var vy := Kick(p.velocity.y, acc.y, timeStep);
      var ty := Advance(p.position.y, vy, timeStep);
      (0.0 <= ty <= height ==> r.position.y == ty && r.velocity.y == vy) &&
      (!(0.0 <= ty <= height) ==> r.position.y == p.position.y && r.velocity.y == -vy)
  {
  }

  /** The new state of particle `p` after one step, every force computed
      against the positions in `snapshot`. */
  function StepParticle(p: Particle, snapshot: seq<Point2D>, timeStep: real, mass: real,
                        sqrt: real -> real, width: real, height: real): Particle
    requires IsSquareRoot(sqrt)
  {
    Integrate(p, Acceleration(p.position, snapshot, mass, sqrt), timeStep, width, height)
  }

  /** One whole step: every particle is advanced against the positions of
      all particles as they were before the step began. */
  function Step(ps: seq<Particle>, timeStep: real, mass: real, sqrt: real -> real,
                width: real, height: real): seq<Particle>
    requires IsSquareRoot(sqrt)
  {
    seq(|ps|, k requires 0 <= k < |ps| =>
      StepParticle(ps[k], Positions(ps), timeStep, mass, sqrt, width, height))
  }

  predicate InWorld(p: Particle, width: real, height: real) {
    0.0 <= p.position.x <= width && 0.0 <= p.position.y <= height
  }

  predicate AllInWorld(ps: seq<Particle>, width: real, height: real) {
    forall k :: 0 <= k < |ps| ==> InWorld(ps[k], width, height)
  }

  /** The state of a particle as `Galaxy::new` seeds it: whole-number
      coordinates at least SeedMargin inside each edge (the upper end
      exclusive) and a velocity in [-MaxSingleAxisVel, MaxSingleAxisVel) on
      each axis. */
  predicate IsSeedParticle(p: Particle, width: nat, height: nat) {
    p.position.x == p.position.x.Floor as real &&
    p.position.y == p.position.y.Floor as real &&
    SeedMargin as real <= p.position.x < (width - SeedMargin) as real &&
    SeedMargin as real <= p.position.y < (height - SeedMargin) as real &&
    -MaxSingleAxisVel <= p.velocity.x < MaxSingleAxisVel &&
    -MaxSingleAxisVel <= p.velocity.y < MaxSingleAxisVel
  }

  /** The 4 particles a click at (x, y) adds: at (x + i, y + i) for
      i = -2, -1, 0, 1, in that order, all at rest. They lie on the diagonal
      through the clicked point, which is one of them, at distinct places
      ordered left to right. */
  function Cluster(x: int, y: int): (r: seq<Particle>)
    ensures |r| == 2 * HalfNumToAdd
    ensures forall j :: 0 <= j < |r| ==> r[j].velocity == Origin
    ensures r[HalfNumToAdd].position == Point2D(x as real, y as real)
    ensures forall j :: 0 <= j < |r| ==> r[j].position.x - r[j].position.y == (x - y) as real
    ensures forall i, j :: 0 <= i < j < |r| ==> r[i].position.x < r[j].position.x
  {
    seq(2 * HalfNumToAdd, j requires 0 <= j < 2 * HalfNumToAdd =>
      Particle(Point2D((x + j - HalfNumToAdd) as real, (y + j - HalfNumToAdd) as real), Origin))
  }

  /** The inner loop of `push_forward`: sums, in order, the clamped
      contributions of every particle of the pre-step copy `preLoop` to the
      acceleration of a body at `at`. */
  method AccumulateAcceleration(at: Point2D, preLoop: seq<Particle>, mass: real, sqrt: real -> real)
    returns (acc: Point2D)
    requires IsSquareRoot(sqrt)
    ensures acc == Acceleration(at, Positions(preLoop), mass, sqrt)
  {
    ghost var snapshot := Positions(preLoop);
    var accX: real := 0.0;
    var accY: real := 0.0;
    for i := 0 to |preLoop|
      invariant Point2D(accX, accY) == Acceleration(at, snapshot[..i], mass, sqrt)
    {
      var add := Contribution(at, preLoop[i].position, mass, sqrt);
      assert snapshot[..i + 1][..i] == snapshot[..i];
      accX := accX + add.x;
      accY := accY + add.y;
    }
    assert snapshot[..|preLoop|] == snapshot;
    acc := Point2D(accX, accY);
  }

  class Galaxy {
    var particles: seq<Particle>
    var width: nat
    var height: nat

    /** `Galaxy::new`: NumParticles particles drawn at random (any choice
        within the ranges the generator allows). */
    constructor (width: nat, height: nat)
      requires width > 2 * SeedMargin && height > 2 * SeedMargin
      ensures this.width == width && this.height == height
      ensures |particles| == NumParticles
      ensures forall k :: 0 <= k < |particles| ==> IsSeedParticle(particles[k], width, height)
    {
      var seeded: seq<Particle> := [];
      for n := 0 to NumParticles
        invariant |seeded| == n
        invariant forall k :: 0 <= k < n ==> IsSeedParticle(seeded[k], width, height)
      {
        assert SeedMargin <= SeedMargin < width - SeedMargin;
        var px: int :| SeedMargin <= px < width - SeedMargin;
        assert SeedMargin <= SeedMargin < height - SeedMargin;
        var py: int :| SeedMargin <= py < height - SeedMargin;
        assert -MaxSingleAxisVel <= 0.0 < MaxSingleAxisVel;
        var vx: real :| -MaxSingleAxisVel <= vx < MaxSingleAxisVel;
        var vy: real :| -MaxSingleAxisVel <= vy < MaxSingleAxisVel;
        seeded := seeded + [Particle(Point2D(px as real, py as real), Point2D(vx, vy))];
      }
      particles := seeded;
      this.width := width;
      this.height := height;
    }

    /** `push_forward`: copies the particles, then updates each one in place
        against that copy. The result is `Step` of the particles before the
        call; only `particles` changes, its length stays the same, and
        particles inside the world stay inside. */
    method PushForward(timeStep: real, particleMass: real, sqrt: real -> real)
      requires IsSquareRoot(sqrt)
      modifies this`particles
      ensures particles == Step(old(particles), timeStep, particleMass, sqrt, width as real, height as real)
      ensures |particles| == |old(particles)|
      ensures AllInWorld(old(particles), width as real, height as real) ==>
                AllInWorld(particles, width as real, height as real)
    {
      var preLoop := particles;
      ghost var snapshot := Positions(preLoop);
      ghost var expected := Step(preLoop, timeStep, particleMass, sqrt, width as real, height as real);
      for k := 0 to |particles|
        invariant |particles| == |preLoop|
        invariant forall j :: 0 <= j < k ==> particles[j] == expected[j]
        invariant forall j :: k <= j < |particles| ==> particles[j] == preLoop[j]
      {
        var particle := particles[k];
        var acc := AccumulateAcceleration(particle.position, preLoop, particleMass, sqrt);

        var velX := Kick(particle.velocity.x, acc.x, timeStep);
        var velY := Kick(particle.velocity.y, acc.y, timeStep);
        var posX := particle.position.x;
        var posY := particle.position.y;

        var likelyX := Advance(posX, velX, timeStep);
        var likelyY := Advance(posY, velY, timeStep);

        // Bounce off walls
        if likelyX < 0.0 || likelyX > width as real {
          velX := -velX;
        } else {
          posX := likelyX;
        }
        if likelyY < 0.0 || likelyY > height as real {
          velY := -velY;
        } else {
          posY := likelyY;
        }
        var updated := Particle(Point2D(posX, posY), Point2D(velX, velY));
        IntegrateAxes(particle, acc, timeStep, width as real, height as real);
        assert updated == Integrate(particle, acc, timeStep, width as real, height as real);
        assert updated == expected[k];
        particles := particles[k := updated];
      }
      StepStaysInWorld(preLoop, timeStep, particleMass, sqrt, width as real, height as real);
    }

    /** The click handler: appends the Cluster at (x, y) and changes nothing else. */
    method SpawnCluster(x: int, y: int)
      modifies this`particles
      ensures particles == old(particles) + Cluster(x, y)
    {
      for i := -HalfNumToAdd to HalfNumToAdd
        invariant particles == old(particles) + Cluster(x, y)[..i + HalfNumToAdd]
      {
        particles := particles + [Particle(Point2D((x + i) as real, (y + i) as real), Origin)];
      }
    }
  }

  /** A cluster clicked at (x, y) lies wholly inside the world exactly when
      the click is at least HalfNumToAdd from the left and top edges and at
      least one unit from the right and bottom edges. */
  lemma ClusterInWorld(x: int, y: int, width: real, height: real)
    ensures AllInWorld(Cluster(x, y), width, height) <==>
              HalfNumToAdd <= x && (x + HalfNumToAdd - 1) as real <= width &&
              HalfNumToAdd <= y && (y + HalfNumToAdd - 1) as real <= height
  {
    var r := Cluster(x, y);
    if AllInWorld(r, width, height) {
      assert InWorld(r[0], width, height);
      assert InWorld(r[|r| - 1], width, height);
    }
  }

  /** Appending a cluster that is inside the world keeps every particle
      inside it. */
  lemma AppendClusterInWorld(ps: seq<Particle>, x: int, y: int, width: real, height: real)
    requires AllInWorld(ps, width, height)
    requires HalfNumToAdd <= x && (x + HalfNumToAdd - 1) as real <= width
    requires HalfNumToAdd <= y && (y + HalfNumToAdd - 1) as real <= height
    ensures AllInWorld(ps + Cluster(x, y), width, height)
  {
    ClusterInWorld(x, y, width, height);
    var all := ps + Cluster(x, y);
    forall k | 0 <= k < |all|
      ensures InWorld(all[k], width, height)
    {
      if k >= |ps| {
        assert all[k] == Cluster(x, y)[k - |ps|];
      }
    }
  }

  /** A seeded particle lies inside the world, at least SeedMargin away from
      every edge. */
  lemma SeedInWorld(p: Particle, width: nat, height: nat)
    requires IsSeedParticle(p, width, height)
    ensures InWorld(p, width as real, height as real)
    ensures SeedMargin as real <= p.position.x <= (width - SeedMargin) as real
    ensures SeedMargin as real <= p.position.y <= (height - SeedMargin) as real
  {
  }

  /** timeStep * a is bounded by timeStep * bound when |a| <= bound. */
  lemma ScaledBound(timeStep: real, a: real, bound: real)
    requires 0.0 <= timeStep && Abs(a) <= bound
    ensures Abs(timeStep * a) <= timeStep * bound
  {
    ProductNonNegative(timeStep, bound - a);
    ProductNonNegative(timeStep, bound + a);
    assert timeStep * bound - timeStep * a == Product(timeStep, bound - a);
    assert timeStep * bound + timeStep * a == Product(timeStep, bound + a);
  }

  /** The speed |after| exceeds |before| by at most timeStep * limit. */
  predicate SpeedGainAtMost(before: real, after: real, timeStep: real, limit: real) {
    Abs(after) <= Abs(before) + timeStep * limit
  }

  /** In one step the speed along each axis grows by at most timeStep times
      the acceleration bound MaxAbsAccel * n, n the number of particles; a
      bounce only reverses the direction. */
  lemma StepSpeedBound(ps: seq<Particle>, k: int, timeStep: real, mass: real, sqrt: real -> real,
                        width: real, height: real)
    requires IsSquareRoot(sqrt)
    requires 0 <= k < |ps| && 0.0 <= timeStep
    ensures SpeedGainAtMost(ps[k].velocity.x, Step(ps, timeStep, mass, sqrt, width, height)[k].velocity.x,
                            timeStep, AccelerationBound(|ps|))
    ensures SpeedGainAtMost(ps[k].velocity.y, Step(ps, timeStep, mass, sqrt, width, height)[k].velocity.y,
                            timeStep, AccelerationBound(|ps|))
  {
    var p := ps[k];
    var acc := Acceleration(p.position, Positions(ps), mass, sqrt);
    var bound := AccelerationBound(|ps|);
    IntegrateAxes(p, acc, timeStep, width, height);
    assert Step(ps, timeStep, mass, sqrt, width, height)[k] == Integrate(p, acc, timeStep, width, height);
    AxisSpeedBound(p.position.x, p.velocity.x, acc.x, timeStep, width, bound);
    AxisSpeedBound(p.position.y, p.velocity.y, acc.y, timeStep, height, bound);
  }

  /** One axis of StepSpeedBound. */
  lemma AxisSpeedBound(position: real, velocity: real, acc: real, timeStep: real, bound: real, limit: real)
    requires 0.0 <= timeStep && Abs(acc) <= limit
    ensures SpeedGainAtMost(velocity, BounceAxis(position, Kick(velocity, acc, timeStep), timeStep, bound).velocity,
                            timeStep, limit)
  {
    ScaledBound(timeStep, acc, limit);
  }

  /** With two bodies, each one's acceleration is just the contribution of
      the other: its own contribution is zero. */
  lemma TwoBodyAcceleration(a: Point2D, b: Point2D, mass: real, sqrt: real -> real)
    requires IsSquareRoot(sqrt)
    ensures Acceleration(a, [a, b], mass, sqrt) == Contribution(a, b, mass, sqrt)
    ensures Acceleration(b, [a, b], mass, sqrt) == Contribution(b, a, mass, sqrt)
  {
    AccelerationOfPair(a, a, b, mass, sqrt);
    AccelerationOfPair(b, a, b, mass, sqrt);
    ContributionAtSamePoint(a, mass, sqrt);
    ContributionAtSamePoint(b, mass, sqrt);
    AddOrigin(Contribution(a, b, mass, sqrt));
    AddOrigin(Contribution(b, a, mass, sqrt));
  }

  /** The accumulation over two positions is the sum of the two
      contributions. */
  lemma AccelerationOfPair(at: Point2D, p: Point2D, q: Point2D, mass: real, sqrt: real -> real)
    requires IsSquareRoot(sqrt)
    ensures Acceleration(at, [p, q], mass, sqrt)
              == Add(Contribution(at, p, mass, sqrt), Contribution(at, q, mass, sqrt))
  {
    var cp := Contribution(at, p, mass, sqrt);
    assert [p, q][..1] == [p] && [p][..0] == [];
    assert Acceleration(at, [], mass, sqrt) == Origin;
    AddOrigin(cp);
    assert Acceleration(at, [p], mass, sqrt) == cp;
  }

  /** Two bodies at rest on one horizontal line, `a` left of `b`, both at
      least one unit inside the world (for instance (100, 300) and
      (700, 300) in an 800 x 600 world), one step of 1/60: they start moving
      towards each other along x, do not move along y, and stay inside. */
  lemma TwoBodyScenario(a: Point2D, b: Point2D, mass: real, sqrt: real -> real,
                        width: real, height: real)
    requires IsSquareRoot(sqrt) && mass != 0.0
    requires a.y == b.y && a.x < b.x
    requires 1.0 <= a.x && b.x <= width - 1.0 && 1.0 <= a.y <= height - 1.0
    ensures
      var next := Step([Particle(a, Origin), Particle(b, Origin)], 1.0 / 60.0, mass, sqrt, width, height);
      |next| == 2 &&
      next[0].velocity.x > 0.0 && next[1].velocity.x < 0.0 &&
      next[0].velocity.y == 0.0 && next[1].velocity.y == 0.0 &&
      AllInWorld(next, width, height)
  {
    var pa, pb := Particle(a, Origin), Particle(b, Origin);
    var next := Step([pa, pb], 1.0 / 60.0, mass, sqrt, width, height);
    TwoBodyStep(pa, pb, 1.0 / 60.0, mass, sqrt, width, height);
    PairFromRest(a, b, mass, sqrt, width, height);
    ApproachingPair(next, width, height);
  }

  /** The explicit form of Approaching for a sequence of two particles. */
  lemma ApproachingPair(next: seq<Particle>, width: real, height: real)
    requires |next| == 2 && Approaching(next[0], next[1], width, height)
    ensures next[0].velocity.x > 0.0 && next[1].velocity.x < 0.0
    ensures next[0].velocity.y == 0.0 && next[1].velocity.y == 0.0
    ensures AllInWorld(next, width, height)
  {
  }

  /** `left` now moves right, `right` moves left, neither moves vertically,
      and both are inside the world. */
  predicate Approaching(left: Particle, right: Particle, width: real, height: real) {
    left.velocity.x > 0.0 && right.velocity.x < 0.0 &&
    left.velocity.y == 0.0 && right.velocity.y == 0.0 &&
    InWorld(left, width, height) && InWorld(right, width, height)
  }

  /** The scenario of TwoBodyScenario on the two updated particles alone,
      each advanced under the other's contribution. */
  lemma PairFromRest(a: Point2D, b: Point2D, mass: real, sqrt: real -> real, width: real, height: real)
    requires IsSquareRoot(sqrt) && mass != 0.0
    requires a.y == b.y && a.x < b.x
    requires 1.0 <= a.x && b.x <= width - 1.0 && 1.0 <= a.y <= height - 1.0
    ensures Approaching(Integrate(Particle(a, Origin), Contribution(a, b, mass, sqrt), 1.0 / 60.0, width, height),
                        Integrate(Particle(b, Origin), Contribution(b, a, mass, sqrt), 1.0 / 60.0, width, height),
                        width, height)
  {
    PulledFromRest(Particle(a, Origin), b, mass, sqrt, width, height);
    PulledFromRest(Particle(b, Origin), a, mass, sqrt, width, height);
  }

  /** A body at rest, at least one unit inside the world, pulled over a step
      of 1/60 by one other body on the same horizontal line: it starts moving
      towards that body along x, not at all along y, and stays inside. */
  lemma PulledFromRest(p: Particle, other: Point2D, mass: real, sqrt: real -> real, width: real, height: real)
    requires IsSquareRoot(sqrt) && mass != 0.0
    requires p.velocity == Origin && p.position.y == other.y && p.position.x != other.x
    requires 1.0 <= p.position.x <= width - 1.0 && 1.0 <= p.position.y <= height - 1.0
    ensures
      var r := Integrate(p, Contribution(p.position, other, mass, sqrt), 1.0 / 60.0, width, height);
      Sign(r.velocity.x) == Sign(other.x - p.position.x) && r.velocity.y == 0.0 && InWorld(r, width, height)
  {
    var c := Contribution(p.position, other, mass, sqrt);
    ContributionSign(p.position, other, mass, sqrt);
    ParticleFromRest(p, c, width, height);
  }

  /** A step of two particles moves each under the contribution of the
      other alone. */
  lemma TwoBodyStep(p: Particle, q: Particle, timeStep: real, mass: real, sqrt: real -> real,
                    width: real, height: real)
    requires IsSquareRoot(sqrt)
    ensures
      var r := Step([p, q], timeStep, mass, sqrt, width, height);
      |r| == 2 &&
      r[0] == Integrate(p, Contribution(p.position, q.position, mass, sqrt), timeStep, width, height) &&
      r[1] == Integrate(q, Contribution(q.position, p.position, mass, sqrt), timeStep, width, height)
  {
    StepOfPair(p, q, timeStep, mass, sqrt, width, height);
    TwoBodyAcceleration(p.position, q.position, mass, sqrt);
  }

  lemma StepOfPair(p: Particle, q: Particle, timeStep: real, mass: real, sqrt: real -> real,
                   width: real, height: real)
    requires IsSquareRoot(sqrt)
    ensures
      var snapshot := [p.position, q.position];
      var r := Step([p, q], timeStep, mass, sqrt, width, height);
      |r| == 2 &&
      r[0] == Integrate(p, Acceleration(p.position, snapshot, mass, sqrt), timeStep, width, height) &&
      r[1] == Integrate(q, Acceleration(q.position, snapshot, mass, sqrt), timeStep, width, height)
  {
    var snapshot := [p.position, q.position];
    assert Positions([p, q]) == snapshot;
    var r := Step([p, q], timeStep, mass, sqrt, width, height);
    assert r[0] == StepParticle(p, snapshot, timeStep, mass, sqrt, width, height);
    assert r[1] == StepParticle(q, snapshot, timeStep, mass, sqrt, width, height);
  }

  /** A particle at rest, at least one unit inside the world, under an
      acceleration of at most MaxAbsAccel per axis, over a step of 1/60: it
      stays inside and each new velocity component has the sign of the
      acceleration's. */
  lemma ParticleFromRest(p: Particle, acc: Point2D, width: real, height: real)
    requires p.velocity == Origin
    requires 1.0 <= p.position.x <= width - 1.0 && 1.0 <= p.position.y <= height - 1.0
    requires Abs(acc.x) <= MaxAbsAccel && Abs(acc.y) <= MaxAbsAccel
    ensures
      var r := Integrate(p, acc, 1.0 / 60.0, width, height);
      Sign(r.velocity.x) == Sign(acc.x) && Sign(r.velocity.y) == Sign(acc.y) &&
      InWorld(r, width, height)
  {
    IntegrateAxes(p, acc, 1.0 / 60.0, width, height);
    StartFromRest(p.position.x, acc.x, width);
    StartFromRest(p.position.y, acc.y, height);
  }

  /** One axis of a body at rest, at least one unit inside [0, bound], under
      an acceleration of at most MaxAbsAccel, over a step of 1/60: the
      tentative position is committed and the new velocity has the sign of
      the acceleration. */
  lemma StartFromRest(position: real, acc: real, bound: real)
    requires 1.0 <= position <= bound - 1.0 && Abs(acc) <= MaxAbsAccel
    ensures
      var r := BounceAxis(position, Kick(0.0, acc, 1.0 / 60.0), 1.0 / 60.0, bound);
      r.velocity == Kick(0.0, acc, 1.0 / 60.0) && Sign(r.velocity) == Sign(acc)
  {
    assert Kick(0.0, acc, 1.0 / 60.0) == acc / 60.0;
    assert Advance(position, acc / 60.0, 1.0 / 60.0) == position + acc / 3600.0;
  }

  /** A step keeps every particle that starts inside the world inside it,
      and keeps the number of particles. */
  lemma StepStaysInWorld(ps: seq<Particle>, timeStep: real, mass: real, sqrt: real -> real,
                         width: real, height: real)
    requires IsSquareRoot(sqrt)
    ensures |Step(ps, timeStep, mass, sqrt, width, height)| == |ps|
    ensures AllInWorld(ps, width, height) ==> AllInWorld(Step(ps, timeStep, mass, sqrt, width, height), width, height)
  {
  }
}
