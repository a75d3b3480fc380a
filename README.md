# galactic_gravity: the particle physics step, in Dafny

galactic_gravity is a small SDL toy: a `Galaxy` of equal-mass particles in a
`width` x `height` world. Each frame the particles attract each other and the
world is advanced by one fixed time step. A mouse click drops a small cluster
of new particles. This project models the physics part of `src/game.rs` and
proves what that code guarantees. Arithmetic is over Dafny's exact `real`
numbers.

- `types.dfy` (module `Types`): the `Point2D` and `Particle` records, plus the
  vector helpers the model needs (`Add`, `Negate`, `Offset`, `Cross`).
- `gravity.dfy` (module `Gravity`): the pairwise law `calc_gravitational_force`.
  It also holds the per-axis clamp to ±200 that `push_forward` applies to each
  pairwise term, and the sum of the clamped terms over the pre-step copy
  (`Acceleration`).
- `balance.dfy` (module `Balance`): action and reaction over a whole step.
  Because each clamped pairwise term is antisymmetric, the accelerations that
  one step computes for all particles sum to zero.
- `galaxy.dfy` (module `Simulation`):
  - the class `Galaxy`, with `Galaxy::new` as its constructor;
  - `push_forward` as the method `PushForward`;
  - the click handler's loop as the method `SpawnCluster`;
  - the value-level step `Step` that `PushForward` is proved against, and the
    properties of that step.

`PushForward` keeps the source's structure:
- it copies the particle sequence first;
- an inner loop (`AccumulateAcceleration`) sums the clamped contributions of
  every particle of the copy, the particle itself included;
- it updates the velocity, then computes the tentative position from the new
  velocity (semi-implicit Euler);
- per axis, it commits the tentative position or negates that velocity
  component.

Its postcondition says that the new particle sequence is `Step` of the old one.
`Step` computes every force from the positions as they were before the step.
So a particle updated earlier in the loop never influences a later one.

The platform square root is a parameter `sqrt` that satisfies `IsSquareRoot`:
the exact non-negative root of every non-negative real. The particle mass and
the time step are parameters, as they are in `push_forward`.

## Model

| member | source | states |
|---|---|---|
| `Gravity.GravitationalForce` | src/game.rs:127-141 | `calc_gravitational_force` itself, applied to the offset `second - first`. It has no contract of its own; `ForceAtSamePoint`, `ForceSign`, `ForceAlongOffset`, `ForceAntisymmetric` and `ForceInverseSquare` state its properties |
| `Gravity.ForceTowards` | src/game.rs:130-140 | the law on an offset: (0, 0) when dist_sq is 0, otherwise the offset times G · mass² / dist_sq / dist. It has no contract of its own; `ForceTowardsAlong`, `ForceTowardsSign` and `ForceTowardsNegate` state its properties |
| `Gravity.ForceAtSamePoint` | src/game.rs:130-137 | two bodies at the same position exert exactly (0, 0) on each other |
| `Gravity.ForceSign` | src/game.rs:130-140 | for distinct positions and a non-zero mass, each component of the force has exactly the sign of the same component of the offset `second - first` |
| `Gravity.ForceAlongOffset` | src/game.rs:130-140 | the force is a non-negative multiple of the offset `second - first`: parallel to it, each non-zero component pointing the same way |
| `Gravity.ForceAntisymmetric` | src/game.rs:130-140 | swapping the two positions negates both components of the force |
| `Gravity.ForceInverseSquare` | src/game.rs:130-140 | for distinct positions, the squared length of the force times d⁴ equals (G · mass²)², so the magnitude is G · mass² / d², with d the distance |
| `Gravity.MassTerm` | src/game.rs:128-138 | G · mass² is never negative, and positive for a non-zero mass |
| `Gravity.ForceMagnitude` | src/game.rs:138 | the scale factor G · mass² / dist_sq / dist is non-negative, positive for a non-zero mass, and multiplied by dist · dist_sq it gives back G · mass² |
| `Gravity.ClampComponent` | src/game.rs:93-98 | the clamped component is within ±200, has the sign of the input, equals the input exactly when the input is within ±200, and has magnitude exactly 200 otherwise |
| `Gravity.ClampNegate` | src/game.rs:93-98 | the clamp is odd: clamping -a gives minus the clamp of a |
| `Gravity.Contribution` | src/game.rs:87-98 | each component of one pairwise term, after the clamp, is within ±200 |
| `Gravity.ContributionAtSamePoint` | src/game.rs:87-98 | a particle's term for its own position (the copy includes it) is exactly (0, 0) |
| `Gravity.ContributionSign` | src/game.rs:87-98 | for distinct positions and a non-zero mass, each clamped component still has the sign of the offset towards the other particle |
| `Gravity.ContributionAntisymmetric` | src/game.rs:87-98 | the clamped term of b at a is minus the clamped term of a at b, component by component |
| `Gravity.Acceleration` | src/game.rs:83-102 | the summed acceleration of a particle is bounded on each axis by 200 times the number of particles in the copy |
| `Gravity.AccelerationAppend` | src/game.rs:86-102 | the accumulation over a concatenated copy is the sum of the two accumulations |
| `Simulation.AccumulateAcceleration` | src/game.rs:82-102 | the inner loop's running sums `cur_acc_x`, `cur_acc_y` end equal to `Acceleration` of the particle's position over the positions of the pre-step copy |
| `Balance.ReactionOpposesAcceleration` | src/game.rs:81-102 | what all particles feel from a body at b sums to minus what b feels from all of them |
| `Balance.TotalAppendSnapshot` | src/game.rs:81-102 | adding one position to the copy adds its reaction to the total acceleration |
| `Balance.TotalSwap` | src/game.rs:81-102 | exchanging the accelerated bodies and the copy negates the total acceleration |
| `Balance.TotalAccelerationIsZero` | src/game.rs:81-102 | the accelerations one step computes for all particles, each over the full copy, sum to exactly zero |
| `Simulation.Kick` | src/game.rs:104-105 | the velocity update v + time_step · acc. It has no contract of its own; `IntegrateAxes` and `StepSpeedBound` state what it does inside a step |
| `Simulation.Advance` | src/game.rs:107-108 | the tentative position p + time_step · v, computed with the updated velocity. It has no contract of its own; `BounceAxis` and `IntegrateAxes` state how it is used |
| `Simulation.Integrate` | src/game.rs:104-121 | one particle's update under a given acceleration. It has no contract of its own; `IntegrateAxes` states it axis by axis |
| `Simulation.StepParticle` | src/game.rs:82-121 | one particle's update with its acceleration summed over a given copy of the positions. It has no contract of its own; `PushForward` and `StepSpeedBound` state its properties |
| `Simulation.Step` | src/game.rs:78-123 | one whole step: every particle updated against the positions before the step. It has no contract of its own; `PushForward` is proved equal to it, and `StepStaysInWorld`, `StepSpeedBound` and `TwoBodyStep` state its properties, and `TotalAccelerationIsZero` states that the accelerations it uses (each particle's over the positions of the pre-step copy) sum to zero |
| `Simulation.BounceAxis` | src/game.rs:107-121 | per axis: a tentative position inside [0, bound] is committed with the velocity unchanged. Otherwise the position stays and the velocity is negated. A position inside [0, bound] stays inside, and the speed on the axis is unchanged |
| `Simulation.BounceOffLeftWall` | src/game.rs:107-115 | at x = 5 with velocity -50, time step 1, width 800, the particle stays at 5 and its velocity becomes +50 |
| `Simulation.IntegrateAxes` | src/game.rs:104-121 | per axis, from the inputs: the velocity becomes v + time_step · acc. If the tentative position p + time_step · (that velocity) lies in [0, width] (for y, [0, height]), the particle moves there with that velocity. Otherwise its position on that axis stays and the velocity is negated |
| `Simulation.Galaxy.PushForward` | src/game.rs:78-123 | the new particle sequence is `Step` of the old one, so every force is computed from the pre-step copy. The count is unchanged, only `particles` changes (`width` and `height` stay), and if all particles were inside [0, width] x [0, height] they still are |
| `Simulation.StepStaysInWorld` | src/game.rs:104-121 | a step keeps the number of particles and keeps every particle that starts inside the world inside it |
| `Simulation.StepSpeedBound` | src/game.rs:93-121 | in one step the speed on each axis grows by at most time_step · 200 · n, with n the number of particles; a bounce only reverses the direction |
| `Simulation.TwoBodyAcceleration` | src/game.rs:81-102 | with two particles, each one's acceleration is exactly the clamped term of the other, since its own term is zero |
| `Simulation.TwoBodyStep` | src/game.rs:78-123 | a step of two particles advances each under the clamped term of the other alone |
| `Simulation.TwoBodyScenario` | src/game.rs:78-141 | two particles at rest on one horizontal line, at least one unit inside the world, time step 1/60: after one step they move towards each other along x, not at all along y, and both stay inside |
| `Simulation.PulledFromRest` | src/game.rs:81-141 | a body at rest, at least one unit inside the world, pulled over a step of 1/60 by one other body on the same horizontal line: it starts moving towards that body along x, not at all along y, and stays inside |
| `Simulation.ParticleFromRest` | src/game.rs:104-121 | a particle at rest, at least one unit inside the world, under an acceleration of at most 200 per axis over 1/60: it stays inside, and each new velocity component has the sign of the acceleration |
| `Simulation.Galaxy.constructor` | src/game.rs:30-55 | `Galaxy::new(width, height)` needs width, height > 200. It keeps width and height and creates exactly 6 particles. Each has whole-number coordinates in [100, width-100) x [100, height-100) and velocity components in [-0.0001, 0.0001) |
| `Simulation.SeedInWorld` | src/game.rs:37-48 | a seeded particle lies inside the world, at least 100 from every edge |
| `Simulation.Cluster` | src/game.rs:192-203 | a click cluster has 4 particles, all at rest. They lie on the diagonal through the click, which is the third of them, and their x coordinates strictly increase |
| `Simulation.Galaxy.SpawnCluster` | src/game.rs:192-203 | a click at (x, y) appends exactly the particles at (x+i, y+i), i = -2, -1, 0, 1, with velocity (0, 0), and leaves the existing particles untouched |
| `Simulation.ClusterInWorld` | src/game.rs:192-203 | the cluster lies inside the world exactly when 2 <= x, x+1 <= width, 2 <= y and y+1 <= height |
| `Simulation.AppendClusterInWorld` | src/game.rs:192-203 | appending a cluster that lies inside the world to particles inside it leaves all of them inside |

## Left out

- Drawing, the SDL window and canvas, the event pump, resize and quit handling,
  and frame pacing (`thread::sleep`) are not modelled. They are I/O and timing,
  with no physics in them. src/main.rs and src/scene.rs hold no physics and are
  not part of this model.
- The click handler is modelled only as its append loop, `SpawnCluster(x, y)`.
  The mouse event that supplies (x, y) is left out.
- Floating point is not modelled. Arithmetic is exact over `real`: no rounding,
  no NaN or infinity, no -0.0. `powf(2.0)` is the exact square, and the square
  root is a caller-supplied exact root (`IsSquareRoot`).
- The random generator in `Galaxy::new` is modelled as a nondeterministic
  choice within the generator's ranges. The constructor is proved for every
  such choice.
- Integer widths are not modelled:
  - `width` and `height` are `nat`, not `u32`;
  - the click coordinates are `int`, not `i32`, so `x + i` never overflows;
  - `width - 100` and `height - 100` cannot underflow, because the
    constructor requires width > 200 and height > 200.
- The constructor requires width > 200 and height > 200. For
  100 <= width <= 200, `gen_range(100, width - 100)` at src/game.rs:40-41 is
  given an empty range and panics. For width < 100 the `u32` subtraction
  `width - 100` underflows. A build with overflow checks panics there. A
  release build wraps to `width - 100 + 2^32` instead, and then seeds
  positions far outside the world. Neither the panics nor the wrapped
  release-build behaviour are modelled. The same holds for `height`.
- `gen_range(low, high)` excludes `high`, so seeded coordinates lie in
  [100, width-100) and [100, height-100), and seeded velocity components in
  [-0.0001, 0.0001).
- The particle mass and the time step are parameters of `PushForward`. The
  values the game loop passes (10^7.5 and 1/60) are not fixed in the model,
  except that `TwoBodyScenario` uses the step 1/60.
- A click near an edge can place particles outside the world, in the source
  as in the model. `ClusterInWorld` characterises the clicks whose
  cluster lies inside.
