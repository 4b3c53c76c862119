# N-body solar system simulator — a Dafny model of its physics core

The simulator puts the Sun, the eight planets and at most one user-defined
body on screen and moves them under Newtonian gravity. This project models
what `run_solar_system` in `main.py` does with its numbers, and the rule by
which the manual set-up form turns typed entries into that function's inputs:

- **Roster** (`roster.dfy`, module `Roster`). The Sun is built first, at the
  origin and at rest. Then come the eight catalog planets in catalog order.
  Each planet starts on the +X axis at its aphelion distance, moving along +Y
  at its aphelion speed, unless an override replaces its position or its
  velocity. The custom body, if one is given, comes last. Every metre and
  metre per second is divided by `SCALE = 1e9`. The bodies are objects
  (`Bodies.Body`) whose position, velocity and label anchor are updated in
  place.
- **Momentum balance** (`momentum.dfy`, module `Momentum`). Before the first
  tick, the Sun's velocity becomes minus the total momentum of the other
  bodies divided by the Sun's mass.
- **Accelerations** (`gravity.dfy`, module `Gravity`, with the double-sum
  algebra in `sums.dfy`). Each body's acceleration is the sum, in roster
  order, of `G*m_j / (SCALE^3 * |r|^2) * norm(r)` over every other body `j`.
  A pair at zero distance is skipped. All accelerations are computed from one
  snapshot of the positions.
- **Tick** (`integrator.dfy`, module `Integrator`, and `simulation.dfy`).
  The velocity is updated first (`v += a*dt`, `dt = 10800 s`). The position
  is then updated with the NEW velocity (`pos += v*dt`), and the label anchor
  moves to two radii above the body.
- **Launch rule** (`launcher.dfy`, module `Launcher`). A planet row whose six
  entries are all blank gives no override. Any other row gives both vectors,
  with a blank entry read as 0.0. A non-blank name for the custom body asks
  for that body, and then all eight of its numeric entries are required. A
  planet-row entry that does not convert to a number rejects the form; so
  does a named custom body with a blank or non-numeric field. With a blank
  name the custom entries are never converted.

Vectors are exact reals (`Vectors.Vec3`). The graphics library's `mag` is a
parameter `mag: Vec3 -> real`. `Vectors.IsMag` states everything the model
relies on:

- it is never negative;
- it is zero exactly at the zero vector;
- its square is the vector's dot product with itself.

Symmetry under negation, homogeneity under scaling and `norm` giving a unit
vector are proved from these facts. Every physical conservation result
carries `IsMag(mag)` as its hypothesis.

The code never checks masses: a custom body of any mass, zero or negative,
is accepted, and so it is here. The one place a zero mass would matter is
the Sun's, which is a constant.

## Model

| member | source | states |
|---|---|---|
| `Bodies.Body.constructor` | main.py:22-26 | A new body holds the given name, mass, radius, position and velocity, and its label is anchored two radii above its centre. |
| `Roster.AphelionSpeed` | main.py:41-53 | A planet's default speed is never negative, and it is positive exactly for the names in the aphelion-speed table; any other name gets 0. |
| `Roster.ToUnits` | main.py:52-66 | A value in metres (or m/s) becomes length units: `SCALE` times the result gives back the input. |
| `Roster.CatalogWellFormed` | main.py:29-44 | Every catalog planet has a default speed, and no two catalog planets share a name. |
| `Roster.NoOverrideGivesDefault` | main.py:52-54 | A planet without an override entry starts at `(distance/SCALE, 0, 0)` with velocity `(0, speed/SCALE, 0)`. |
| `Roster.DefaultDirections` | main.py:52-54 | Every catalog planet's default start is on the +X axis at a positive distance, with its velocity along +Y at a positive speed. |
| `Roster.PlanetState` | main.py:52-72 | A planet's body keeps the planet's name and mass, its radius is the catalog radius in length units, and its label is anchored two radii above it. |
| `Roster.OverridePrecedence` | main.py:57-66 | A supplied override vector replaces the whole default vector, scaled down. A vector the override does not supply keeps its default. |
| `Roster.CustomState` | main.py:76-90 | The custom body keeps the given name and mass; its radius, position and velocity are the given SI values in length units (`SCALE` times each gives the input back); its label is anchored. |
| `Roster.PlanetStates` | main.py:49-73 | One body per planet, in the planets' order, each in its default or overridden state. |
| `Roster.InitialRoster` | main.py:21-26 | The roster starts with the Sun, built at the origin and at rest before any planet. |
| `Roster.RosterLayout` | main.py:46-90 | The roster has the Sun at index 0, at the origin and at rest, with its mass. The eight catalog planets follow in catalog order, each with its name, mass and default or overridden state. The custom body is at index 9 exactly when one is given, so the length is 10 or 9. Every label is anchored. |
| `Roster.Spawn` | main.py:68-73 | Adding one body appends a fresh object in the given state, and the bodies already there are kept. |
| `Roster.SpawnPlanets` | main.py:46-73 | The planet loop appends one fresh body per planet, in order, each in its default or overridden state, after the bodies already there. |
| `Roster.BuildRoster` | main.py:21-90 | Appending bodies one by one yields exactly `InitialRoster`, with fresh and pairwise distinct body objects. |
| `Momentum.MomentumFront` | main.py:93-97 | The total momentum summed from the front equals the total summed in roster order. |
| `Momentum.MomentumConcat` | main.py:93-97 | The total momentum (`TotalMomentum`, the loop's running sum) of a roster split into two parts is the sum of the two parts' totals. |
| `Momentum.Normalised` | main.py:92-98 | Balancing changes only the Sun's velocity (index 0). Every other body, and every other field of the Sun, is unchanged. |
| `Momentum.NormalisedMomentumZero` | main.py:92-98 | After balancing, the total momentum of all bodies, Sun included, is exactly zero. |
| `Momentum.ConserveMomentum` | main.py:92-98 | The in-place loop over the bodies, skipping the Sun by identity, leaves the roster in the state `Normalised` describes. |
| `Vectors.MagNeg` | main.py:111-112 | A vector and its negation have the same magnitude, so `|r_ij| == |r_ji|`. |
| `Vectors.NormUnit` | main.py:115 | `norm(r)` has length one wherever `mag(r)` is not zero. |
| `Gravity.PullLaw` | main.py:111-115 | At non-zero distance, the pull of `q` on `p` is Newton's law in vector form: `G*m/(SCALE^3*|r|^3)` times `r = q - p`, pointing from `p` towards `q`. |
| `Gravity.PullMagnitude` | main.py:111-115 | Between distinct positions the distance is non-zero, and the pull's length is `|G*m/(SCALE^3*|r|^2)|` (inverse-square law). |
| `Gravity.PullBalanced` | main.py:111-115 | Newton's third law for one pair: `m_i * a(i<-j) == -(m_j * a(j<-i))`. This includes a coincident pair, where both sides are zero. |
| `Gravity.Pull` | main.py:110-115 | A source at zero distance, or one with zero mass, contributes exactly the zero vector; nothing is divided by zero. |
| `Gravity.PullVanishes` | main.py:109-115 | A pull is zero if and only if the two positions coincide or the source mass is zero. |
| `Gravity.PullAlongNorm` | main.py:115 | At non-zero distance the pull is the strength `G*m/(SCALE^3*|r|^2)` times `norm(r)`. This is `Pull`'s unguarded branch unfolded; `Gravity.PullLaw` and `Gravity.PullMagnitude` state it in independent forms. |
| `Gravity.Accelerations` | main.py:104-116 | One acceleration per body, in roster order; body `i`'s acceleration is the sum over `j` of the pull of body `j`, with itself excluded. |
| `Gravity.PartialAccelMassless` | main.py:106-116 | The running sum of body `i`'s acceleration over bodies `0..n-1` is zero when every one of them other than `i` is massless; the body itself never contributes. |
| `Gravity.AccelerationMassless` | main.py:104-117 | A body whose companions are all massless, a lone body in particular, has zero acceleration. |
| `Gravity.NetAcceleration` | main.py:106-116 | The inner loop, which skips `i == j` and zero distances, yields body `i`'s acceleration as `Acceleration` sums it over the snapshot. |
| `Gravity.ComputeAccelerations` | main.py:104-116 | The nested loops yield exactly `Accelerations` of the current snapshot, and no body is changed. |
| `Gravity.AccelerationsOfPositionsAndMasses` | main.py:104-116 | Accelerations depend only on the positions and masses of the snapshot. |
| `Gravity.ForcesAntisymmetric` | main.py:106-116 | The pairwise force table `m_i * a(i<-j)` is antisymmetric. |
| `Gravity.RowIsForceOnBody` | main.py:106-116 | Summing a row of the force table gives the body's mass times its (partial) acceleration. |
| `Gravity.NetForceRows` | main.py:104-116 | The mass-weighted sum of the first `k` accelerations equals the sum of the first `k` rows of the force table. |
| `Gravity.NetForceZero` | main.py:104-116 | The mass-weighted sum of all accelerations of one tick is the zero vector. |
| `Integrator.AdvanceBody` | main.py:118-122 | One body's tick: `v' - v == dt*a`, then `pos' - pos == dt*v'` (the new velocity), so `pos' == pos + dt*v + dt^2*a`. Name, mass and radius are unchanged, and the label ends two radii above `pos'`. |
| `Integrator.Advanced` | main.py:118-122 | The tick keeps the number and order of the bodies, and body `i` moves under `accs[i]`. |
| `Integrator.Step` | main.py:104-122 | A tick keeps the number of bodies and their masses, and changes body `i`'s velocity by `DT` times the acceleration the other bodies of the snapshot give it. |
| `Integrator.Move` | main.py:119-122 | One body's in-place update leaves it in `AdvanceBody` of its old state: velocity first, then position with the new velocity, then the label. |
| `Integrator.Advance` | main.py:118-122 | The in-place update of every body leaves the roster in the state `Advanced` describes. |
| `Integrator.ImpulseAdvance` | main.py:119 | In a tick, one body's momentum changes by `dt` times its mass times its acceleration. |
| `Integrator.AdvancedMomentum` | main.py:118-122 | Over a tick, total momentum changes by `dt` times the mass-weighted sum of the accelerations. |
| `Integrator.StepConservesMomentum` | main.py:104-122 | A tick leaves total momentum unchanged. |
| `Integrator.StepsConserveMomentum` | main.py:102-122 | Any number of ticks leaves total momentum unchanged. |
| `Integrator.Steps` | main.py:102-122 | Ticking keeps the number of bodies. |
| `Simulation.Tick` | main.py:102-122 | One pass of the loop moves the bodies to `Step` of their state before it, and keeps total momentum. |
| `Simulation.Run` | main.py:102-122 | `ticks` passes of the loop move the bodies to `Steps` of their state before the first pass. |
| `Simulation.Simulate` | main.py:92-122 | Balancing a roster led by a body of non-zero mass and then running `ticks` passes yields `ticks` steps from the balanced state. |
| `Simulation.RunMomentumZero` | main.py:92-122 | In the state reached after any number of passes from the balanced roster, the total momentum of all bodies is exactly zero. |
| `Simulation.RunSolarSystem` | main.py:8-122 | After `ticks` passes, the bodies, all fresh objects, are in the state reached by ticking the balanced roster built from the overrides and the custom body. |
| `Launcher.StripLeft` | main.py:478 | Only leading whitespace is removed, and the result starts with a non-whitespace character or is empty. |
| `Launcher.StripRight` | main.py:478 | Only trailing whitespace is removed, and the result ends with a non-whitespace character or is empty. |
| `Launcher.Strip` | main.py:478 | A stripped entry is no longer than the entry, neither starts nor ends with whitespace, and is empty exactly when the entry is all whitespace (the blank test of main.py:481). |
| `Launcher.RowOverride` | main.py:483-490 | A row's override carries both vectors, each component the number typed in the matching entry (x, y, z of the position, then of the velocity), or 0.0 where that entry is blank. |
| `Launcher.CustomOf` | main.py:493-508 | The custom body carries the stripped name, and its mass, radius, position and velocity components are the numbers typed in the matching fields, in order. |
| `Launcher.CollectOverrides` | main.py:477-490 | The planet loop fails exactly when some row holds an entry that does not convert to a number. Otherwise it records exactly the rows that are not all blank, under their planet names, each with both vectors and blanks read as 0.0. |
| `Launcher.ManualLaunch` | main.py:471-508 | The form is rejected exactly when some planet row holds an entry that does not convert to a number, or when the custom body is named but one of its eight fields is blank or does not convert. Otherwise the overrides hold exactly the planets whose rows are not all blank, each with both vectors and blanks read as 0.0. A custom body is given exactly when the stripped name is non-blank, and it then carries that name and the eight values. |

## Left out

- Drawing: the canvas, spheres, labels' text, colours, trails and the
  `rate(60)` pacing are graphics-library calls. Only mass, radius, position,
  velocity and the label's anchor point are modelled.
- The `while True` loop never ends. `Simulation.RunSolarSystem` runs a given
  number of ticks instead, and `Simulation.Tick` is one pass.
- Launching the simulation in a separate process, and all window, entry and
  help-text handling of the launcher, are process and user-interface plumbing.
  The quick-input dialog's submit only wraps the string-to-float conversion,
  so it is not modelled either.
- The string-to-float conversion is a library call. Each numeric entry
  reaches `Launcher.ManualLaunch` already classified as blank, a number, or
  text the conversion refuses.
- Floating point: all arithmetic is over exact reals. `mag` (a square root)
  is an abstract parameter constrained by `Vectors.IsMag`. The zero-momentum
  results hold over exact reals only, not for IEEE doubles.
- `hasattr(body, 'label')` is always true in the code, so the label anchor
  is always updated.
- The planet rows passed to `Launcher.ManualLaunch` must have distinct
  names. The form's rows are the keys of a dictionary, so they always do.
