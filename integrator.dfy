/**
 * One tick of the simulation: every body's velocity takes a step of its
 * acceleration, then its position takes a step of the NEW velocity
 * (semi-implicit Euler), and its label follows it.
 */
module Integrator {
  import opened Vectors
  import opened Constants
  import opened Bodies
  import opened Momentum
  import opened Gravity

  /** One body after a tick under acceleration `a`. */
  function AdvanceBody(b: BodyState, a: Vec3): (r: BodyState)
    ensures r.name == b.name && r.mass == b.mass && r.radius == b.radius
    ensures Sub(r.v, b.v) == Scale(DT, a)
    ensures Sub(r.pos, b.pos) == Scale(DT, r.v)
    ensures r.pos == Add(Add(b.pos, Scale(DT, b.v)), Scale(DT * DT, a))
    ensures Anchored(r)
  {
    var v := Add(b.v, Scale(DT, a));
    var pos := Add(b.pos, Scale(DT, v));
    b.(v := v, pos := pos, labelPos := LabelAnchor(pos, b.radius))
  }

  /** The roster after a tick, body `i` under acceleration `accs[i]`. */
  function Advanced(s: seq<BodyState>, accs: seq<Vec3>): (r: seq<BodyState>)
    requires |accs| == |s|
    ensures |r| == |s|
    ensures forall i :: 0 <= i < |s| ==> r[i] == AdvanceBody(s[i], accs[i])
  {
    seq(|s|, i requires 0 <= i < |s| => AdvanceBody(s[i], accs[i]))
  }

  /**
   * One tick of the whole system: accelerations from the snapshot, then
   * every body moves; its velocity changes by `DT` times the acceleration
   * the other bodies of the snapshot give it.
   */
  function Step(s: seq<BodyState>, mag: Vec3 -> real): (r: seq<BodyState>)
    ensures |r| == |s|
    ensures forall i :: 0 <= i < |s| ==>
      r[i].mass == s[i].mass && Sub(r[i].v, s[i].v) == Scale(DT, Acceleration(s, i, mag))
  {
    Advanced(s, Accelerations(s, mag))
  }

  /** `n` ticks. */
  function Steps(s: seq<BodyState>, n: nat, mag: Vec3 -> real): (r: seq<BodyState>)
    ensures |r| == |s|
  {
    if n == 0 then s else Step(Steps(s, n - 1, mag), mag)
  }

  /** Moves one body by one tick: velocity first, then position with the new velocity, then its label. */
  method Move(body: Body, a: Vec3)
    modifies body
    ensures body.State() == AdvanceBody(old(body.State()), a)
  {
    body.v := Add(body.v, Scale(DT, a));
    body.pos := Add(body.pos, Scale(DT, body.v));
    body.labelPos := LabelAnchor(body.pos, body.radius);
  }

  /** Moves every body by one tick under the given accelerations, in roster order. */
  method Advance(bodies: seq<Body>, accs: seq<Vec3>)
    requires |accs| == |bodies| && Distinct(bodies)
    modifies bodies
    ensures States(bodies) == Advanced(old(States(bodies)), accs)
  {
    ghost var s := States(bodies);
    for i := 0 to |bodies|
      invariant forall k :: 0 <= k < i ==> bodies[k].State() == AdvanceBody(s[k], accs[k])
      invariant forall k :: i <= k < |bodies| ==> bodies[k].State() == s[k]
    {
      assert forall k :: 0 <= k < |bodies| && k != i ==> bodies[k] != bodies[i];
      Move(bodies[i], accs[i]);
    }
    assert forall k :: 0 <= k < |bodies| ==> States(bodies)[k] == Advanced(s, accs)[k];
  }

  /** The momentum one body gains in a tick is `DT` times its mass times its acceleration. */
  lemma ImpulseAdvance(b: BodyState, a: Vec3)
    ensures Impulse(AdvanceBody(b, a)) == Add(Impulse(b), Scale(DT, Scale(b.mass, a)))
  {
  }

  /** `(a + DT*b) + (c + DT*d) == (a + c) + DT*(b + d)`. */
  lemma Regroup(a: Vec3, b: Vec3, c: Vec3, d: Vec3)
    ensures Add(Add(a, Scale(DT, b)), Add(c, Scale(DT, d))) == Add(Add(a, c), Scale(DT, Add(b, d)))
  {
  }

  /** Over a tick, total momentum changes by `DT` times the net force. */
  lemma {:induction false} AdvancedMomentum(s: seq<BodyState>, accs: seq<Vec3>)
    requires |accs| == |s|
    ensures TotalMomentum(Advanced(s, accs)) == Add(TotalMomentum(s), Scale(DT, NetForce(s, accs)))
  {
    if s != [] {
      var n := |s| - 1;
      var r := Advanced(s, accs);
      var before, force := TotalMomentum(s[..n]), NetForce(s[..n], accs[..n]);
      var last, push := Impulse(s[n]), Scale(s[n].mass, accs[n]);
      assert TotalMomentum(r[..n]) == Add(before, Scale(DT, force)) by {
        AdvancedMomentum(s[..n], accs[..n]);
        assert r[..n] == Advanced(s[..n], accs[..n]);
      }
      assert Impulse(r[n]) == Add(last, Scale(DT, push)) by {
        ImpulseAdvance(s[n], accs[n]);
      }
      assert TotalMomentum(r) == Add(TotalMomentum(r[..n]), Impulse(r[n]));
      assert TotalMomentum(s) == Add(before, last);
      assert NetForce(s, accs) == Add(force, push);
      Regroup(before, force, last, push);
      assert TotalMomentum(r) == Add(TotalMomentum(s), Scale(DT, NetForce(s, accs)));
    } else {
      assert Advanced(s, accs) == [];
      assert NetForce(s, accs) == Zero;
      assert Scale(DT, Zero) == Zero;
      AddZero(Zero);
    }
  }

  /** A tick conserves total momentum. */
  lemma StepConservesMomentum(s: seq<BodyState>, mag: Vec3 -> real)
    requires IsMag(mag)
    ensures TotalMomentum(Step(s, mag)) == TotalMomentum(s)
  {
    AdvancedMomentum(s, Accelerations(s, mag));
    NetForceZero(s, mag);
  }

  /** Any number of ticks conserves total momentum. */
  lemma {:induction false} StepsConserveMomentum(s: seq<BodyState>, n: nat, mag: Vec3 -> real)
    requires IsMag(mag)
    ensures TotalMomentum(Steps(s, n, mag)) == TotalMomentum(s)
  {
    if n > 0 {
      StepsConserveMomentum(s, n - 1, mag);
      StepConservesMomentum(Steps(s, n - 1, mag), mag);
    }
  }
}
