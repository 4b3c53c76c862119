/**
 * The simulation as a whole: build the roster, balance its momentum, then
 * tick.  The source ticks forever; here the number of ticks is a
 * parameter.
 */
module Simulation {
  import opened Options
  import opened Vectors
  import opened Bodies
  import opened Roster
  import opened Momentum
  import opened Gravity
  import opened Integrator

  /** The roster the first tick starts from: the built roster, balanced. */
  function StartState(overrides: map<string, Override>, custom: Option<CustomBody>): seq<BodyState> {
    Normalised(InitialRoster(overrides, custom))
  }

  /**
   * One pass of the simulation loop: every acceleration is computed from
   * the positions before the tick, then every body moves.
   */
  method Tick(bodies: seq<Body>, mag: Vec3 -> real)
    requires Distinct(bodies)
    modifies bodies
    ensures States(bodies) == Step(old(States(bodies)), mag)
    ensures IsMag(mag) ==> TotalMomentum(States(bodies)) == TotalMomentum(old(States(bodies)))
  {
    var accs := ComputeAccelerations(bodies, mag);
    Advance(bodies, accs);
    if IsMag(mag) {
      StepConservesMomentum(old(States(bodies)), mag);
    }
  }

  /**
   * Runs the simulation loop for `ticks` passes over an existing roster
   * whose bodies all lie in `repr`.
   */
  method Run(bodies: seq<Body>, ghost repr: set<Body>, mag: Vec3 -> real, ticks: nat)
    requires Distinct(bodies) && forall b :: b in bodies ==> b in repr
    modifies repr
    ensures States(bodies) == Steps(old(States(bodies)), ticks, mag)
  {
    ghost var start := States(bodies);
    for t := 0 to ticks
      invariant States(bodies) == Steps(start, t, mag)
    {
      Tick(bodies, mag);
    }
  }

  /** Ticking the balanced roster any number of times keeps its total momentum at zero. */
  lemma RunMomentumZero(overrides: map<string, Override>, custom: Option<CustomBody>, ticks: nat, mag: Vec3 -> real)
    requires IsMag(mag)
    ensures TotalMomentum(Steps(StartState(overrides, custom), ticks, mag)) == Zero
  {
    NormalisedMomentumZero(InitialRoster(overrides, custom));
    StepsConserveMomentum(StartState(overrides, custom), ticks, mag);
  }

  /**
   * The simulation after the roster is built: fixes the momentum of a
   * roster led by a body of non-zero mass, then runs `ticks` passes of the
   * simulation loop over it.
   */
  method Simulate(bodies: seq<Body>, ghost repr: set<Body>, mag: Vec3 -> real, ticks: nat)
    requires Distinct(bodies) && |bodies| > 0 && bodies[0].mass != 0.0
    requires forall b :: b in bodies ==> b in repr
    modifies repr
    ensures States(bodies) == Steps(Normalised(old(States(bodies))), ticks, mag)
  {
    assert bodies[0] in bodies;
    ConserveMomentum(bodies);
    Run(bodies, repr, mag, ticks);
  }

  /**
   * Builds the roster from `overrides` and `custom`, balances its momentum
   * and runs `ticks` passes of the simulation loop; returns the bodies in
   * their final state.
   */
  method RunSolarSystem(overrides: map<string, Override>, custom: Option<CustomBody>, mag: Vec3 -> real, ticks: nat)
    returns (bodies: seq<Body>)
    ensures States(bodies) == Steps(StartState(overrides, custom), ticks, mag)
    ensures forall b :: b in bodies ==> fresh(b)
  {
    bodies := BuildRoster(overrides, custom);
    assert bodies[0].mass == SunMass by {
      assert States(bodies)[0] == bodies[0].State();
    }
    ghost var repr := set b | b in bodies;
    Simulate(bodies, repr, mag, ticks);
  }
}
