/**
 * Balancing the system's momentum before the first tick: the Sun is given
 * the velocity that makes the total linear momentum of all bodies zero.
 */
module Momentum {
  import opened Vectors
  import opened Bodies

  /** `mass * v` of one body. */
  function Impulse(b: BodyState): Vec3 {
    Scale(b.mass, b.v)
  }

  /** Total linear momentum, summed in roster order. */
  function TotalMomentum(s: seq<BodyState>): Vec3 {
    if s == [] then Zero else Add(TotalMomentum(s[..|s| - 1]), Impulse(s[|s| - 1]))
  }

  /** The total can equally be taken from the front. */
  lemma {:induction false} MomentumFront(s: seq<BodyState>)
    requires |s| > 0
    ensures TotalMomentum(s) == Add(Impulse(s[0]), TotalMomentum(s[1..]))
  {
    if |s| > 1 {
      MomentumFront(s[..|s| - 1]);
      assert s[..|s| - 1][1..] == s[1..][..|s| - 2];
    }
  }

  /** The total over two parts of a roster is the sum of the parts' totals. */
  lemma {:induction false} MomentumConcat(s: seq<BodyState>, t: seq<BodyState>)
    ensures TotalMomentum(s + t) == Add(TotalMomentum(s), TotalMomentum(t))
  {
    if t == [] {
      assert s + t == s;
      AddZero(TotalMomentum(s));
    } else {
      var n := |t| - 1;
      MomentumConcat(s, t[..n]);
      assert (s + t)[..|s + t| - 1] == s + t[..n];
    }
  }

  /**
   * The roster after balancing: the Sun's velocity (index 0) becomes minus
   * the other bodies' total momentum divided by the Sun's mass.
   */
  function Normalised(s: seq<BodyState>): (r: seq<BodyState>)
    requires |s| > 0 && s[0].mass != 0.0
    ensures |r| == |s| && r[1..] == s[1..]
    ensures r[0] == s[0].(v := r[0].v)
  {
    s[0 := s[0].(v := Div(Neg(TotalMomentum(s[1..])), s[0].mass))]
  }

  lemma CancelSun(rest: Vec3, mass: real)
    requires mass != 0.0
    ensures Add(Scale(mass, Div(Neg(rest), mass)), rest) == Zero
  {
  }

  /** After balancing, the total momentum of all bodies, Sun included, is exactly zero. */
  lemma NormalisedMomentumZero(s: seq<BodyState>)
    requires |s| > 0 && s[0].mass != 0.0
    ensures TotalMomentum(Normalised(s)) == Zero
  {
    var r := Normalised(s);
    var rest := TotalMomentum(s[1..]);
    MomentumFront(r);
    assert TotalMomentum(r[1..]) == rest;
    CancelSun(rest, s[0].mass);
  }

  /**
   * Sets the Sun's velocity so that total momentum is zero.  The Sun is
   * the first body; only its velocity changes.
   */
  method ConserveMomentum(bodies: seq<Body>)
    requires |bodies| > 0 && bodies[0].mass != 0.0
    requires Distinct(bodies)
    modifies bodies[0]
    ensures States(bodies) == Normalised(old(States(bodies)))
  {
    ghost var s := States(bodies);
    var sun := bodies[0];
    var total := Zero;
    for i := 0 to |bodies|
      invariant i == 0 ==> total == Zero
      invariant 0 < i ==> total == TotalMomentum(s[1..i])
    {
      var body := bodies[i];
      if body == sun {
        continue;
      }
      assert s[1..i + 1][..i - 1] == s[1..i];
      total := Add(total, Scale(body.mass, body.v));
    }
    assert s[1..|bodies|] == s[1..];
    sun.v := Div(Neg(total), sun.mass);
  }
}
