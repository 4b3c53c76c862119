/**
 * The simulator's one entity, the body: a sphere with a mass, a velocity
 * and a text label that floats above it.
 */
module Bodies {
  import opened Vectors

  /** The value of one body at an instant: what its sphere and label hold. */
  datatype BodyState = BodyState(
    name: string,       // the label's text
    mass: real,         // kilograms
    radius: real,       // length units
    pos: Vec3,          // length units
    v: Vec3,            // length units per second
    labelPos: Vec3)     // where the label is drawn

  /** A label is drawn two radii above the centre of its body. */
  function LabelAnchor(pos: Vec3, radius: real): Vec3 {
    Add(pos, Vec3(0.0, radius * 2.0, 0.0))
  }

  predicate Anchored(b: BodyState) {
    b.labelPos == LabelAnchor(b.pos, b.radius)
  }

  /**
   * A body as the simulator holds it: an object whose position, velocity
   * and label position are updated in place every tick.
   */
  class Body {
    const name: string
    const mass: real
    const radius: real
    var pos: Vec3
    var v: Vec3
    var labelPos: Vec3

    constructor (name: string, mass: real, radius: real, pos: Vec3, v: Vec3)
      ensures State() == BodyState(name, mass, radius, pos, v, LabelAnchor(pos, radius))
      ensures Anchored(State())
    {
      this.name := name;
      this.mass := mass;
      this.radius := radius;
      this.pos := pos;
      this.v := v;
      this.labelPos := LabelAnchor(pos, radius);
    }

    function State(): BodyState
      reads this
    {
      BodyState(name, mass, radius, pos, v, labelPos)
    }
  }

  /** The values of a roster of bodies, in roster order. */
  function States(bodies: seq<Body>): (r: seq<BodyState>)
    reads bodies
    ensures |r| == |bodies|
    ensures forall k :: 0 <= k < |bodies| ==> r[k] == bodies[k].State()
  {
    seq(|bodies|, k reads bodies requires 0 <= k < |bodies| => bodies[k].State())
  }

  /** No body appears twice in a roster. */
  ghost predicate Distinct(bodies: seq<Body>) {
    forall a, b :: 0 <= a < b < |bodies| ==> bodies[a] != bodies[b]
  }
}
