/**
 * Newtonian gravity between point masses: the acceleration one body
 * receives from another, and the net acceleration of every body, all
 * evaluated on one snapshot of the roster.
 */
module Gravity {
  import opened Vectors
  import opened Constants
  import opened Bodies
  import opened Sums

  /**
   * Acceleration, in length units per second squared, of a body at `p`
   * due to a mass `m` at `q`: `G*m / (SCALE^3 * |r|^2)` along `norm(r)`,
   * where `r = q - p`.  A source at zero distance, or a massless one,
   * contributes nothing.
   */
  function Pull(p: Vec3, q: Vec3, m: real, mag: Vec3 -> real): (a: Vec3)
    ensures m == 0.0 || mag(Sub(q, p)) == 0.0 ==> a == Zero
  {
    var r := Sub(q, p);
    var rMag := mag(r);
    if rMag == 0.0 then Zero
    else Scale(Strength(m, rMag), Norm(r, mag))
  }

  /** `G*m / (SCALE^3 * rMag^2)`: the size of the pull at distance `rMag`. */
  function Strength(m: real, rMag: real): real
    requires rMag != 0.0
  {
    SquareCubeNonZero(rMag);
    ScaleCubedPositive();
    (G * m) / (SCALE * SCALE * SCALE * (rMag * rMag))
  }

  /** `SCALE^3`, the divisor that turns SI accelerations into length units. */
  lemma ScaleCubedPositive()
    ensures SCALE * SCALE * SCALE > 0.0
  {
  }

  lemma ScaleScale(a: real, b: real, k: real, v: Vec3)
    requires a * b == k
    ensures Scale(a, Scale(b, v)) == Scale(k, v)
  {
  }

  lemma SquareCubeNonZero(x: real)
    requires x != 0.0
    ensures x * x > 0.0 && x * x * x != 0.0
  {
  }

  /** `gm / (d * x^2) * (1 / x) == gm / (d * x^3)`. */
  lemma MergeCoefficients(gm: real, d: real, x: real)
    requires d > 0.0 && x != 0.0
    ensures (gm / (d * (x * x))) * (1.0 / x) == gm / (d * (x * x * x))
  {
    SquareCubeNonZero(x);
    assert d * (x * x) * x == d * (x * x * x);
  }

  /** The factor `G*m / (SCALE^3 * |r|^3)` of Newton's law in vector form. */
  function LawFactor(m: real, rMag: real): real
    requires rMag != 0.0
  {
    SquareCubeNonZero(rMag);
    ScaleCubedPositive();
    G * m / (SCALE * SCALE * SCALE * (rMag * rMag * rMag))
  }

  /**
   * Wherever the zero-distance guard lets a pair through, the term is
   * Newton's law in vector form, `G*m * r / (SCALE^3 * |r|^3)`, pointing
   * from `p` towards `q`.
   */
  lemma PullLaw(p: Vec3, q: Vec3, m: real, mag: Vec3 -> real)
    requires mag(Sub(q, p)) != 0.0
    ensures Pull(p, q, m, mag) == Scale(LawFactor(m, mag(Sub(q, p))), Sub(q, p))
  {
    var r := Sub(q, p);
    var rMag := mag(r);
    CoefficientsMerge(m, rMag);
    ScaleScale(Strength(m, rMag), 1.0 / rMag, LawFactor(m, rMag), r);
  }

  /** The strength times `1 / |r|` is the factor of the vector form. */
  lemma CoefficientsMerge(m: real, x: real)
    requires x != 0.0
    ensures Strength(m, x) * (1.0 / x) == LawFactor(m, x)
  {
    ScaleCubedPositive();
    MergeCoefficients(G * m, SCALE * SCALE * SCALE, x);
  }

  /** Swapping the masses in `mi * LawFactor(mj, x)` changes nothing. */
  lemma LawFactorSymmetric(mi: real, mj: real, x: real)
    requires x != 0.0
    ensures mi * LawFactor(mj, x) == mj * LawFactor(mi, x)
  {
    var d := SCALE * SCALE * SCALE * (x * x * x);
    SquareCubeNonZero(x);
    ScaleCubedPositive();
    calc {
      mi * LawFactor(mj, x);
      mi * (G * mj / d);
      (mi * (G * mj)) / d;
      (mj * (G * mi)) / d;
      mj * (G * mi / d);
      mj * LawFactor(mi, x);
    }
  }

  /** `mi * a * r == -(mj * b * (-r))` when `mi * a == mj * b`. */
  lemma WeightedOpposite(mi: real, mj: real, a: real, b: real, r: Vec3)
    requires mi * a == mj * b
    ensures Scale(mi, Scale(a, r)) == Neg(Scale(mj, Scale(b, Neg(r))))
  {
    var k := mi * a;
    ScaleScale(mi, a, k, r);
    ScaleScale(mj, b, k, Neg(r));
    NegScaleNeg(k, r);
  }

  lemma NegScaleNeg(k: real, r: Vec3)
    ensures Neg(Scale(k, Neg(r))) == Scale(k, r)
  {
  }

  lemma BalancedApart(pi: Vec3, pj: Vec3, mi: real, mj: real, mag: Vec3 -> real)
    requires mag(Sub(pj, pi)) != 0.0 && mag(Sub(pi, pj)) == mag(Sub(pj, pi))
    ensures Scale(mi, Pull(pi, pj, mj, mag)) == Neg(Scale(mj, Pull(pj, pi, mi, mag)))
  {
    var r := Sub(pj, pi);
    var rMag := mag(r);
    assert Sub(pi, pj) == Neg(r);
    PullLaw(pi, pj, mj, mag);
    PullLaw(pj, pi, mi, mag);
    LawFactorSymmetric(mi, mj, rMag);
    WeightedOpposite(mi, mj, LawFactor(mj, rMag), LawFactor(mi, rMag), r);
  }

  lemma BalancedCoincident(pi: Vec3, pj: Vec3, mi: real, mj: real, mag: Vec3 -> real)
    requires mag(Sub(pj, pi)) == 0.0 && mag(Sub(pi, pj)) == 0.0
    ensures Scale(mi, Pull(pi, pj, mj, mag)) == Neg(Scale(mj, Pull(pj, pi, mi, mag)))
  {
  }

  /** Newton's third law for one pair whose distance is the same measured either way. */
  lemma PullPairBalanced(pi: Vec3, pj: Vec3, mi: real, mj: real, mag: Vec3 -> real)
    requires mag(Sub(pi, pj)) == mag(Sub(pj, pi))
    ensures Scale(mi, Pull(pi, pj, mj, mag)) == Neg(Scale(mj, Pull(pj, pi, mi, mag)))
  {
    if mag(Sub(pj, pi)) != 0.0 {
      BalancedApart(pi, pj, mi, mj, mag);
    } else {
      BalancedCoincident(pi, pj, mi, mj, mag);
    }
  }

  /**
   * Newton's third law for one pair: `mi` times the pull of `j` on `i` is
   * minus `mj` times the pull of `i` on `j`, the two pulls being
   * antiparallel; a coincident pair contributes zero both ways.
   */
  lemma PullBalanced(pi: Vec3, pj: Vec3, mi: real, mj: real, mag: Vec3 -> real)
    requires IsMag(mag)
    ensures Scale(mi, Pull(pi, pj, mj, mag)) == Neg(Scale(mj, Pull(pj, pi, mi, mag)))
  {
    var r := Sub(pj, pi);
    assert Sub(pi, pj) == Neg(r);
    MagNeg(mag, r);
    PullPairBalanced(pi, pj, mi, mj, mag);
  }

  lemma LawFactorNonZero(m: real, x: real)
    requires m != 0.0 && x != 0.0
    ensures LawFactor(m, x) != 0.0
  {
    var d := SCALE * SCALE * SCALE * (x * x * x);
    SquareCubeNonZero(x);
    ScaleCubedPositive();
    assert G * m != 0.0;
    assert LawFactor(m, x) * d == G * m;
  }

  /** A non-zero multiple of a non-zero vector is not zero. */
  lemma ScaleNonZero(k: real, a: Vec3)
    requires k != 0.0 && a != Zero
    ensures Scale(k, a) != Zero
  {
    ScaleScale(1.0 / k, k, 1.0, a);
    assert Scale(1.0, a) == a;
  }

  lemma PullApartNonZero(p: Vec3, q: Vec3, m: real, mag: Vec3 -> real)
    requires mag(Sub(q, p)) != 0.0 && m != 0.0 && p != q
    ensures Pull(p, q, m, mag) != Zero
  {
    PullLaw(p, q, m, mag);
    LawFactorNonZero(m, mag(Sub(q, p)));
    assert Sub(q, p) != Zero;
    ScaleNonZero(LawFactor(m, mag(Sub(q, p))), Sub(q, p));
  }

  /**
   * The zero-distance guard: a pair contributes exactly zero when the two
   * bodies coincide (or the source is massless), and only then.
   */
  lemma PullVanishes(p: Vec3, q: Vec3, m: real, mag: Vec3 -> real)
    requires IsMag(mag)
    ensures Pull(p, q, m, mag) == Zero <==> (p == q || m == 0.0)
  {
    MagDefinite(mag, Sub(q, p));
    if m != 0.0 && p != q {
      assert Sub(q, p) != Zero;
      PullApartNonZero(p, q, m, mag);
    }
  }

  /**
   * What body `j` contributes to the acceleration of body `i`: nothing
   * from itself, otherwise its pull.
   */
  function Term(s: seq<BodyState>, i: nat, j: nat, mag: Vec3 -> real): Vec3
    requires i < |s| && j < |s|
  {
    if i == j then Zero else Pull(s[i].pos, s[j].pos, s[j].mass, mag)
  }

  /** The contributions of bodies `0 .. n - 1` to body `i`, added in roster order. */
  function PartialAccel(s: seq<BodyState>, i: nat, n: nat, mag: Vec3 -> real): Vec3
    requires i < |s| && n <= |s|
  {
    if n == 0 then Zero else Add(PartialAccel(s, i, n - 1, mag), Term(s, i, n - 1, mag))
  }

  /** Net acceleration of body `i` due to every other body of the snapshot `s`. */
  function Acceleration(s: seq<BodyState>, i: nat, mag: Vec3 -> real): Vec3
    requires i < |s|
  {
    PartialAccel(s, i, |s|, mag)
  }

  /** Massless bodies pull nothing: neither they nor the body itself add to its partial sum. */
  lemma {:induction false} PartialAccelMassless(s: seq<BodyState>, i: nat, n: nat, mag: Vec3 -> real)
    requires i < |s| && n <= |s|
    requires forall j :: 0 <= j < n && j != i ==> s[j].mass == 0.0
    ensures PartialAccel(s, i, n, mag) == Zero
  {
    if n > 0 {
      PartialAccelMassless(s, i, n - 1, mag);
      AddZero(Zero);
    }
  }

  /** A body whose every companion is massless feels no acceleration; a lone body in particular. */
  lemma AccelerationMassless(s: seq<BodyState>, i: nat, mag: Vec3 -> real)
    requires i < |s|
    requires forall j :: 0 <= j < |s| && j != i ==> s[j].mass == 0.0
    ensures Acceleration(s, i, mag) == Zero
  {
    PartialAccelMassless(s, i, |s|, mag);
  }

  /** The accelerations of all bodies, in roster order. */
  function Accelerations(s: seq<BodyState>, mag: Vec3 -> real): (r: seq<Vec3>)
    ensures |r| == |s|
    ensures forall i :: 0 <= i < |s| ==> r[i] == Acceleration(s, i, mag)
  {
    seq(|s|, i requires 0 <= i < |s| => Acceleration(s, i, mag))
  }

  /**
   * Computes every body's acceleration from the current positions before
   * any body moves.
   */
  method ComputeAccelerations(bodies: seq<Body>, mag: Vec3 -> real) returns (accs: seq<Vec3>)
    ensures accs == Accelerations(States(bodies), mag)
  {
    accs := seq(|bodies|, _ => Zero);
    for i := 0 to |bodies|
      invariant |accs| == |bodies|
      invariant forall k :: 0 <= k < i ==> accs[k] == Acceleration(States(bodies), k, mag)
    {
      var totalA := NetAcceleration(bodies, i, mag);
      accs := accs[i := totalA];
    }
  }

  /**
   * The inner loop for body `i`: the pulls of all other bodies added in
   * roster order, skipping the body itself and any body at zero distance.
   */
  method NetAcceleration(bodies: seq<Body>, i: nat, mag: Vec3 -> real) returns (totalA: Vec3)
    requires i < |bodies|
    ensures totalA == Acceleration(States(bodies), i, mag)
  {
    ghost var s := States(bodies);
    var body := bodies[i];
    totalA := Zero;
    for j := 0 to |bodies|
      invariant totalA == PartialAccel(s, i, j, mag)
    {
      assert PartialAccel(s, i, j + 1, mag) == Add(totalA, Term(s, i, j, mag));
      if i == j {
        AddZero(totalA);
        assert totalA == PartialAccel(s, i, j + 1, mag);
        continue;
      }
      var other := bodies[j];
      var rVec := Sub(other.pos, body.pos);
      var rMag := mag(rVec);
      assert Term(s, i, j, mag) == Pull(body.pos, other.pos, other.mass, mag);
      if rMag == 0.0 {
        AddZero(totalA);
        assert totalA == PartialAccel(s, i, j + 1, mag);
        continue;
      }
      totalA := Add(totalA, Scale(Strength(other.mass, rMag), Norm(rVec, mag)));
      assert totalA == PartialAccel(s, i, j + 1, mag);
    }
  }

  /**
   * Total of `mass * acceleration` over the roster, summed in roster order:
   * the net force on the whole system, in mass times length units per
   * second squared.
   */
  function NetForce(s: seq<BodyState>, accs: seq<Vec3>): Vec3
    requires |accs| == |s|
  {
    if s == [] then Zero
    else Add(NetForce(s[..|s| - 1], accs[..|s| - 1]), Scale(s[|s| - 1].mass, accs[|s| - 1]))
  }

  /** `mass_i` times the pull of body `j` on body `i`; zero outside the roster. */
  function ForceEntry(s: seq<BodyState>, mag: Vec3 -> real, i: nat, j: nat): Vec3 {
    if i < |s| && j < |s| then Scale(s[i].mass, Term(s, i, j, mag)) else Zero
  }

  /** The table of pairwise forces. */
  function Forces(s: seq<BodyState>, mag: Vec3 -> real): (nat, nat) -> Vec3 {
    (i: nat, j: nat) => ForceEntry(s, mag, i, j)
  }

  /** One pair of entries of the force table, given that the pair's distance is the same both ways. */
  lemma ForcePairOpposite(s: seq<BodyState>, mag: Vec3 -> real, i: nat, j: nat)
    requires i < |s| && j < |s|
    requires mag(Sub(s[i].pos, s[j].pos)) == mag(Sub(s[j].pos, s[i].pos))
    ensures ForceEntry(s, mag, i, j) == Neg(ForceEntry(s, mag, j, i))
  {
    if i == j {
      assert ForceEntry(s, mag, i, j) == Scale(s[i].mass, Zero);
    } else {
      assert ForceEntry(s, mag, i, j) == Scale(s[i].mass, Pull(s[i].pos, s[j].pos, s[j].mass, mag));
      assert ForceEntry(s, mag, j, i) == Scale(s[j].mass, Pull(s[j].pos, s[i].pos, s[i].mass, mag));
      PullPairBalanced(s[i].pos, s[j].pos, s[i].mass, s[j].mass, mag);
    }
  }

  /** Newton's third law over the whole roster: the force table is antisymmetric. */
  lemma ForcesAntisymmetric(s: seq<BodyState>, mag: Vec3 -> real)
    requires IsMag(mag)
    ensures Antisymmetric(Forces(s, mag), |s|)
  {
    forall i: nat, j: nat | i < |s| && j < |s|
      ensures Forces(s, mag)(i, j) == Neg(Forces(s, mag)(j, i))
    {
      var r := Sub(s[j].pos, s[i].pos);
      MagNeg(mag, r);
      assert Sub(s[i].pos, s[j].pos) == Neg(r);
      ForcePairOpposite(s, mag, i, j);
    }
  }

  /** A row of the force table is the body's mass times its partial acceleration. */
  lemma {:induction false} RowIsForceOnBody(s: seq<BodyState>, mag: Vec3 -> real, i: nat, n: nat)
    requires i < |s| && n <= |s|
    ensures Row(Forces(s, mag), i, n) == Scale(s[i].mass, PartialAccel(s, i, n, mag))
  {
    if n > 0 {
      RowIsForceOnBody(s, mag, i, n - 1);
      ScaleAdd(s[i].mass, PartialAccel(s, i, n - 1, mag), Term(s, i, n - 1, mag));
    }
  }

  lemma {:induction false} NetForceRows(s: seq<BodyState>, mag: Vec3 -> real, k: nat)
    requires k <= |s|
    ensures NetForce(s[..k], Accelerations(s, mag)[..k]) == Rows(Forces(s, mag), k, |s|)
  {
    if k > 0 {
      var accs := Accelerations(s, mag);
      NetForceRows(s, mag, k - 1);
      assert s[..k][..k - 1] == s[..k - 1];
      assert accs[..k][..k - 1] == accs[..k - 1];
      RowIsForceOnBody(s, mag, k - 1, |s|);
    }
  }

  /**
   * The accelerations of one tick exert no net force on the system: the
   * mass-weighted sum of all accelerations is zero.
   */
  lemma NetForceZero(s: seq<BodyState>, mag: Vec3 -> real)
    requires IsMag(mag)
    ensures NetForce(s, Accelerations(s, mag)) == Zero
  {
    ForcesAntisymmetric(s, mag);
    AntisymmetricSumZero(Forces(s, mag), |s|);
    NetForceRows(s, mag, |s|);
    assert s[..|s|] == s;
    assert Accelerations(s, mag)[..|s|] == Accelerations(s, mag);
  }

  /** Accelerations depend only on positions and masses, not on velocities, names or labels. */
  lemma {:induction false} PartialAccelOfPositionsAndMasses(
    s: seq<BodyState>, t: seq<BodyState>, i: nat, n: nat, mag: Vec3 -> real)
    requires |s| == |t| && i < |s| && n <= |s|
    requires forall k :: 0 <= k < |s| ==> s[k].pos == t[k].pos && s[k].mass == t[k].mass
    ensures PartialAccel(s, i, n, mag) == PartialAccel(t, i, n, mag)
  {
    if n > 0 {
      PartialAccelOfPositionsAndMasses(s, t, i, n - 1, mag);
    }
  }

  lemma AccelerationsOfPositionsAndMasses(s: seq<BodyState>, t: seq<BodyState>, mag: Vec3 -> real)
    requires |s| == |t|
    requires forall k :: 0 <= k < |s| ==> s[k].pos == t[k].pos && s[k].mass == t[k].mass
    ensures Accelerations(s, mag) == Accelerations(t, mag)
  {
    forall i | 0 <= i < |s|
      ensures Acceleration(s, i, mag) == Acceleration(t, i, mag)
    {
      PartialAccelOfPositionsAndMasses(s, t, i, |s|, mag);
    }
  }

  /** Between distinct positions the pull is its strength along the unit vector towards `q`. */
  lemma PullAlongNorm(p: Vec3, q: Vec3, m: real, mag: Vec3 -> real)
    requires mag(Sub(q, p)) != 0.0
    ensures Pull(p, q, m, mag) == Scale(Strength(m, mag(Sub(q, p))), Norm(Sub(q, p), mag))
  {
  }

  /**
   * The inverse-square law: between distinct positions the pull has
   * length `|G*m / (SCALE^3 * |r|^2)|`.
   */
  lemma PullMagnitude(p: Vec3, q: Vec3, m: real, mag: Vec3 -> real)
    requires IsMag(mag) && p != q
    ensures mag(Sub(q, p)) != 0.0 && mag(Pull(p, q, m, mag)) == Abs(Strength(m, mag(Sub(q, p))))
  {
    var r := Sub(q, p);
    assert r != Zero;
    MagDefinite(mag, r);
    NormUnit(mag, r);
    MagScale(mag, Strength(m, mag(r)), Norm(r, mag));
    PullAlongNorm(p, q, m, mag);
  }
}
