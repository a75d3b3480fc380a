/** Action and reaction over a whole step of `Galaxy::push_forward`
    (src/game.rs): because each pairwise contribution is antisymmetric and
    the clamp is applied alike on both sides, the accelerations that one step
    computes for all particles sum to zero. */
module Balance {
  import opened Types
  import opened Gravity

  /** The sum, over the bodies at `bodies`, of the contribution of a body at
      `b` to each of them. */
  function Reaction(bodies: seq<Point2D>, b: Point2D, mass: real, sqrt: real -> real): Point2D
    requires IsSquareRoot(sqrt)
    decreases |bodies|
  {
    if bodies == [] then
      Origin
    else
      var n := |bodies| - 1;
      Add(Reaction(bodies[..n], b, mass, sqrt), Contribution(bodies[n], b, mass, sqrt))
  }

  /** The sum of the accelerations of the bodies at `bodies`, each
      accumulated over `snapshot`. */
  function TotalAcceleration(bodies: seq<Point2D>, snapshot: seq<Point2D>, mass: real, sqrt: real -> real): Point2D
    requires IsSquareRoot(sqrt)
    decreases |bodies|
  {
    if bodies == [] then
      Origin
    else
      var n := |bodies| - 1;
      Add(TotalAcceleration(bodies[..n], snapshot, mass, sqrt), Acceleration(bodies[n], snapshot, mass, sqrt))
  }

  /** What the bodies feel from b is minus what b feels from them. */
  lemma {:induction false} ReactionOpposesAcceleration(bodies: seq<Point2D>, b: Point2D, mass: real, sqrt: real -> real)
    requires IsSquareRoot(sqrt)
    ensures Reaction(bodies, b, mass, sqrt) == Negate(Acceleration(b, bodies, mass, sqrt))
    decreases |bodies|
  {
    if bodies == [] {
      assert Acceleration(b, bodies, mass, sqrt) == Origin;
      NegateOrigin();
    } else {
      var n := |bodies| - 1;
      var front, last := bodies[..n], bodies[n];
      ReactionOpposesAcceleration(front, b, mass, sqrt);
      ContributionAntisymmetric(b, last, mass, sqrt);
      NegateByComponents(Contribution(b, last, mass, sqrt), Contribution(last, b, mass, sqrt));
      AddNegate(Acceleration(b, front, mass, sqrt), Contribution(b, last, mass, sqrt));
      assert Acceleration(b, bodies, mass, sqrt)
          == Add(Acceleration(b, front, mass, sqrt), Contribution(b, last, mass, sqrt));
      assert Reaction(bodies, b, mass, sqrt)
          == Add(Reaction(front, b, mass, sqrt), Contribution(last, b, mass, sqrt));
      assert Reaction(bodies, b, mass, sqrt)
          == Add(Negate(Acceleration(b, front, mass, sqrt)), Negate(Contribution(b, last, mass, sqrt)));
      assert Reaction(bodies, b, mass, sqrt) == Negate(Acceleration(b, bodies, mass, sqrt));
    }
  }

  lemma {:induction false} TotalOverEmptySnapshot(bodies: seq<Point2D>, mass: real, sqrt: real -> real)
    requires IsSquareRoot(sqrt)
    ensures TotalAcceleration(bodies, [], mass, sqrt) == Origin
    decreases |bodies|
  {
    if bodies != [] {
      TotalOverEmptySnapshot(bodies[..|bodies| - 1], mass, sqrt);
    }
  }

  /** Adding a body at b to the snapshot adds Reaction(bodies, b) to the
      total. */
  lemma {:induction false} TotalAppendSnapshot(bodies: seq<Point2D>, t: seq<Point2D>, b: Point2D, mass: real, sqrt: real -> real)
    requires IsSquareRoot(sqrt)
    ensures TotalAcceleration(bodies, t + [b], mass, sqrt)
              == Add(TotalAcceleration(bodies, t, mass, sqrt), Reaction(bodies, b, mass, sqrt))
    decreases |bodies|
  {
    if bodies == [] {
      assert Reaction(bodies, b, mass, sqrt) == Origin;
      AddOrigin(Origin);
    } else {
      var n := |bodies| - 1;
      var front, last := bodies[..n], bodies[n];
      TotalAppendSnapshot(front, t, b, mass, sqrt);
      assert (t + [b])[..|t|] == t;
      var pull := Contribution(last, b, mass, sqrt);
      assert Acceleration(last, t + [b], mass, sqrt) == Add(Acceleration(last, t, mass, sqrt), pull);
      assert Reaction(bodies, b, mass, sqrt) == Add(Reaction(front, b, mass, sqrt), pull);
      assert TotalAcceleration(bodies, t + [b], mass, sqrt)
          == Add(TotalAcceleration(front, t + [b], mass, sqrt), Acceleration(last, t + [b], mass, sqrt));
      assert TotalAcceleration(bodies, t, mass, sqrt)
          == Add(TotalAcceleration(front, t, mass, sqrt), Acceleration(last, t, mass, sqrt));
      AddInterchange(TotalAcceleration(front, t, mass, sqrt), Reaction(front, b, mass, sqrt),
                     Acceleration(last, t, mass, sqrt), pull);
    }
  }

  /** Exchanging the roles of the two sequences negates the total. */
  lemma {:induction false} TotalSwap(bodies: seq<Point2D>, t: seq<Point2D>, mass: real, sqrt: real -> real)
    requires IsSquareRoot(sqrt)
    ensures TotalAcceleration(bodies, t, mass, sqrt) == Negate(TotalAcceleration(t, bodies, mass, sqrt))
    decreases |t|
  {
    if t == [] {
      TotalOverEmptySnapshot(bodies, mass, sqrt);
      NegateOrigin();
    } else {
      var n := |t| - 1;
      var front, b := t[..n], t[n];
      assert t == front + [b];
      TotalSwap(bodies, front, mass, sqrt);
      TotalAppendSnapshot(bodies, front, b, mass, sqrt);
      ReactionOpposesAcceleration(bodies, b, mass, sqrt);
      AddNegate(TotalAcceleration(front, bodies, mass, sqrt), Acceleration(b, bodies, mass, sqrt));
      assert TotalAcceleration(t, bodies, mass, sqrt)
          == Add(TotalAcceleration(front, bodies, mass, sqrt), Acceleration(b, bodies, mass, sqrt));
    }
  }

  /** Newton's third law for one step: the accelerations of all bodies,
      each accumulated over the positions of all of them, sum to zero. */
  lemma {:induction false} TotalAccelerationIsZero(snapshot: seq<Point2D>, mass: real, sqrt: real -> real)
    requires IsSquareRoot(sqrt)
    ensures TotalAcceleration(snapshot, snapshot, mass, sqrt) == Origin
  {
    TotalSwap(snapshot, snapshot, mass, sqrt);
    FixedByNegateIsOrigin(TotalAcceleration(snapshot, snapshot, mass, sqrt));
  }

  lemma FixedByNegateIsOrigin(p: Point2D)
    requires p == Negate(p)
    ensures p == Origin
  {
  }
}
