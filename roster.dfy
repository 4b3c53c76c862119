/**
 * Building the roster of bodies a simulation starts from: the Sun, the
 * eight catalog planets (each with its default state or the caller's
 * override) and at most one extra body supplied by the caller.
 */
module Roster {
  import opened Options
  import opened Vectors
  import opened Constants
  import opened Bodies

  /** A catalog planet: name, orbital distance (m), radius (m), mass (kg). */
  datatype Planet = Planet(name: string, distance: real, radius: real, mass: real)

  const SunMass: real := 1.98892e30
  const SunRadius: real := 6.9634e8

  /** The default planets, in the order they join the roster. */
  const Catalog: seq<Planet> := [
    Planet("Mercury", 6.98173e10, 2.44e6, 3.285e23),
    Planet("Venus", 1.0894e11, 6.052e6, 4.867e24),
    Planet("Earth", 1.52096e11, 6.371e6, 5.972e24),
    Planet("Mars", 2.49233e11, 3.39e6, 6.39e23),
    Planet("Jupiter", 8.16038e11, 6.991e7, 1.898e27),
    Planet("Saturn", 1.50724e12, 5.823e7, 5.683e26),
    Planet("Uranus", 3.01104e12, 2.536e7, 8.681e25),
    Planet("Neptune", 4.54594e12, 2.462e7, 1.024e26)
  ]

  /** Default orbital speeds (m/s), by planet name. */
  const AphelionSpeeds: map<string, real> := map[
    "Mercury" := 38860.0, "Venus" := 34790.0, "Earth" := 29290.0, "Mars" := 21970.0,
    "Jupiter" := 12440.0, "Saturn" := 9090.0, "Uranus" := 6490.0, "Neptune" := 5370.0
  ]

  /**
   * A planet's default speed; a name missing from the table gets speed 0,
   * and every name in it a positive speed.
   */
  function AphelionSpeed(name: string): (speed: real)
    ensures 0.0 <= speed
    ensures 0.0 < speed <==> name in AphelionSpeeds
  {
    if name in AphelionSpeeds then AphelionSpeeds[name] else 0.0
  }

  /**
   * A caller's replacement for a planet's initial position and/or velocity,
   * in SI units; an absent vector keeps the default.
   */
  datatype Override = Override(pos: Option<Vec3>, v: Option<Vec3>)

  /** The caller's extra body, every field in SI units. */
  datatype CustomBody = CustomBody(name: string, mass: real, radius: real, pos: Vec3, v: Vec3)

  /** Converts metres (or metres per second) into length units. */
  function ToUnits(a: Vec3): (r: Vec3)
    ensures Scale(SCALE, r) == a
  {
    Div(a, SCALE)
  }

  /** A body as the roster first holds it, its label anchored above it. */
  function NewBody(name: string, mass: real, radius: real, pos: Vec3, v: Vec3): BodyState {
    BodyState(name, mass, radius, pos, v, LabelAnchor(pos, radius))
  }

  /** The Sun: at the origin, at rest. */
  function SunState(): BodyState {
    NewBody("Sun", SunMass, SunRadius / SCALE, Zero, Zero)
  }

  /** Default state: on the +X axis at its distance, moving along +Y. */
  function DefaultPos(p: Planet): Vec3 {
    Vec3(p.distance / SCALE, 0.0, 0.0)
  }

  function DefaultVel(p: Planet): Vec3 {
    Vec3(0.0, AphelionSpeed(p.name) / SCALE, 0.0)
  }

  /** A planet's initial state: each supplied override vector replaces the default whole. */
  function PlanetState(p: Planet, overrides: map<string, Override>): (r: BodyState)
    ensures r.name == p.name && r.mass == p.mass && SCALE * r.radius == p.radius
    ensures Anchored(r)
  {
    var pos :=
      if p.name in overrides && overrides[p.name].pos.Some?
      then ToUnits(overrides[p.name].pos.value) else DefaultPos(p);
    var v :=
      if p.name in overrides && overrides[p.name].v.Some?
      then ToUnits(overrides[p.name].v.value) else DefaultVel(p);
    NewBody(p.name, p.mass, p.radius / SCALE, pos, v)
  }

  function PlanetStates(ps: seq<Planet>, overrides: map<string, Override>): (r: seq<BodyState>)
    ensures |r| == |ps|
    ensures forall k :: 0 <= k < |ps| ==> r[k] == PlanetState(ps[k], overrides)
  {
    seq(|ps|, k requires 0 <= k < |ps| => PlanetState(ps[k], overrides))
  }

  /** The extra body: every field taken from the caller, converted to length units. */
  function CustomState(c: CustomBody): (r: BodyState)
    ensures r.name == c.name && r.mass == c.mass && SCALE * r.radius == c.radius
    ensures Scale(SCALE, r.pos) == c.pos && Scale(SCALE, r.v) == c.v
    ensures Anchored(r)
  {
    NewBody(c.name, c.mass, c.radius / SCALE, ToUnits(c.pos), ToUnits(c.v))
  }

  function CustomStates(custom: Option<CustomBody>): seq<BodyState> {
    if custom.Some? then [CustomState(custom.value)] else []
  }

  /**
   * The roster before momentum is balanced: the Sun first, then the catalog
   * planets in catalog order, then the extra body if one was supplied.
   */
  function InitialRoster(overrides: map<string, Override>, custom: Option<CustomBody>): (r: seq<BodyState>)
    ensures |r| > 0 && r[0] == SunState()
  {
    [SunState()] + PlanetStates(Catalog, overrides) + CustomStates(custom)
  }

  /**
   * The layout of the roster: the Sun at the origin and at rest, the
   * catalog planets in catalog order with their names and masses, the extra
   * body last exactly when one is supplied, every label anchored.
   */
  lemma RosterLayout(overrides: map<string, Override>, custom: Option<CustomBody>)
    ensures var r := InitialRoster(overrides, custom);
      && |r| == (if custom.Some? then 10 else 9)
      && r[0].pos == Zero && r[0].v == Zero && r[0].mass == SunMass
      && (forall k :: 0 <= k < |Catalog| ==> r[k + 1] == PlanetState(Catalog[k], overrides))
      && (forall k :: 0 <= k < |Catalog| ==> r[k + 1].name == Catalog[k].name && r[k + 1].mass == Catalog[k].mass)
      && (custom.Some? ==> r[9] == CustomState(custom.value))
      && (forall k :: 0 <= k < |r| ==> Anchored(r[k]))
  {
  }

  /** Every catalog planet has a default speed, and no two share a name. */
  lemma CatalogWellFormed()
    ensures forall k :: 0 <= k < |Catalog| ==> Catalog[k].name in AphelionSpeeds
    ensures forall a, b :: 0 <= a < b < |Catalog| ==> Catalog[a].name != Catalog[b].name
  {
  }

  /**
   * Every catalog planet starts on the +X axis, at a positive distance,
   * moving along +Y at a positive speed.
   */
  lemma DefaultDirections()
    ensures forall k :: 0 <= k < |Catalog| ==>
      && DefaultPos(Catalog[k]).x > 0.0 && DefaultPos(Catalog[k]).y == 0.0 && DefaultPos(Catalog[k]).z == 0.0
      && DefaultVel(Catalog[k]).x == 0.0 && DefaultVel(Catalog[k]).y > 0.0 && DefaultVel(Catalog[k]).z == 0.0
  {
    CatalogWellFormed();
  }

  /** A planet without an override entry starts in its default state. */
  lemma NoOverrideGivesDefault(p: Planet, overrides: map<string, Override>)
    requires p.name !in overrides
    ensures PlanetState(p, overrides).pos == Vec3(p.distance / SCALE, 0.0, 0.0)
    ensures PlanetState(p, overrides).v == Vec3(0.0, AphelionSpeed(p.name) / SCALE, 0.0)
  {
  }

  /**
   * An override vector replaces the whole default vector (scaled down), and
   * a vector the override does not supply keeps its default.
   */
  lemma OverridePrecedence(p: Planet, overrides: map<string, Override>)
    requires p.name in overrides
    ensures var ov := overrides[p.name];
      && Scale(SCALE, PlanetState(p, overrides).pos) == (if ov.pos.Some? then ov.pos.value else Scale(SCALE, DefaultPos(p)))
      && Scale(SCALE, PlanetState(p, overrides).v) == (if ov.v.Some? then ov.v.value else Scale(SCALE, DefaultVel(p)))
  {
  }

  /** Appends a fresh body in state `st` to the roster. */
  method Spawn(bodies: seq<Body>, st: BodyState) returns (r: seq<Body>)
    requires Anchored(st) && Distinct(bodies)
    ensures States(r) == old(States(bodies)) + [st]
    ensures Distinct(r) && r[..|bodies|] == bodies && fresh(r[|bodies|])
  {
    var b := new Body(st.name, st.mass, st.radius, st.pos, st.v);
    r := bodies + [b];
    assert forall k :: 0 <= k < |r| ==> States(r)[k] == (old(States(bodies)) + [st])[k];
  }

  /** Appends one fresh body per planet of `ps`, in order, each in its initial state. */
  method SpawnPlanets(bodies: seq<Body>, ps: seq<Planet>, overrides: map<string, Override>) returns (r: seq<Body>)
    requires Distinct(bodies)
    ensures States(r) == old(States(bodies)) + PlanetStates(ps, overrides)
    ensures Distinct(r) && r[..|bodies|] == bodies
    ensures forall j :: |bodies| <= j < |r| ==> fresh(r[j])
  {
    r := bodies;
    for k := 0 to |ps|
      invariant States(r) == old(States(bodies)) + PlanetStates(ps[..k], overrides)
      invariant Distinct(r) && |r| == |bodies| + k && r[..|bodies|] == bodies
      invariant forall j :: |bodies| <= j < |r| ==> fresh(r[j])
    {
      r := Spawn(r, PlanetState(ps[k], overrides));
      assert PlanetStates(ps[..k + 1], overrides) == PlanetStates(ps[..k], overrides) + [PlanetState(ps[k], overrides)];
    }
    assert ps[..|ps|] == ps;
  }

  /**
   * Builds the roster of fresh bodies: the Sun, one body per catalog
   * planet, then the extra body.
   */
  method BuildRoster(overrides: map<string, Override>, custom: Option<CustomBody>) returns (bodies: seq<Body>)
    ensures States(bodies) == InitialRoster(overrides, custom)
    ensures Distinct(bodies)
    ensures forall b :: b in bodies ==> fresh(b)
  {
    var sun := new Body("Sun", SunMass, SunRadius / SCALE, Zero, Zero);
    assert States([sun]) == [SunState()];
    ghost var planets := PlanetStates(Catalog, overrides);
    bodies := SpawnPlanets([sun], Catalog, overrides);
    assert States(bodies) == [SunState()] + planets;
    if custom.Some? {
      bodies := Spawn(bodies, CustomState(custom.value));
    }
  }
}
