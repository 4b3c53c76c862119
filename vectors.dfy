/**
 * Three-component vectors over exact reals, standing for the `vector`
 * values of the graphics library the simulator draws with.
 *
 * The library's `mag` (Euclidean length, a square root) is code this model
 * cannot see, so it enters the model as a parameter `mag: Vec3 -> real`.
 * `IsMag(mag)` is everything the model relies on: it is never negative,
 * it is zero exactly at the zero vector, and its square is the dot product
 * of the vector with itself.  The other facts the physics needs (symmetry
 * under negation, homogeneity under scaling, `norm` giving a unit vector)
 * are proved from that.
 */
module Vectors {

  datatype Vec3 = Vec3(x: real, y: real, z: real)

  const Zero: Vec3 := Vec3(0.0, 0.0, 0.0)

  function Add(a: Vec3, b: Vec3): Vec3 {
    Vec3(a.x + b.x, a.y + b.y, a.z + b.z)
  }

  function Sub(a: Vec3, b: Vec3): Vec3 {
    Vec3(a.x - b.x, a.y - b.y, a.z - b.z)
  }

  function Neg(a: Vec3): Vec3 {
    Vec3(-a.x, -a.y, -a.z)
  }

  /** `k * a`: a scalar times a vector. */
  function Scale(k: real, a: Vec3): Vec3 {
    Vec3(k * a.x, k * a.y, k * a.z)
  }

  /** `a / k`: a vector divided by a non-zero scalar, component by component. */
  function Div(a: Vec3, k: real): (r: Vec3)
    requires k != 0.0
    ensures Scale(k, r) == a
  {
    Vec3(a.x / k, a.y / k, a.z / k)
  }

  function Dot(a: Vec3, b: Vec3): real {
    a.x * b.x + a.y * b.y + a.z * b.z
  }

  /** What the model requires of the graphics library's `mag`, at one vector. */
  ghost predicate MagAt(mag: Vec3 -> real, v: Vec3) {
    0.0 <= mag(v) && (mag(v) == 0.0 <==> v == Zero) && mag(v) * mag(v) == Dot(v, v)
  }

  /**
   * What the model requires of `mag`, at every vector.  A proof draws the
   * fact for a particular vector by mentioning `MagAt(mag, v)`.
   */
  ghost predicate IsMag(mag: Vec3 -> real) {
    forall v :: MagAt(mag, v)
  }

  lemma MagDefinite(mag: Vec3 -> real, v: Vec3)
    requires IsMag(mag)
    ensures mag(v) == 0.0 <==> v == Zero
  {
    assert MagAt(mag, v);
  }

  /** `norm(v)`: the unit vector along `v`, only where `mag(v)` is not zero. */
  function Norm(v: Vec3, mag: Vec3 -> real): Vec3
    requires mag(v) != 0.0
  {
    Scale(1.0 / mag(v), v)
  }

  function Abs(x: real): real {
    if x < 0.0 then -x else x
  }

  /** Two non-negative reals with the same square are equal. */
  lemma SquareRootUnique(a: real, b: real)
    requires 0.0 <= a && 0.0 <= b && a * a == b * b
    ensures a == b
  {
    if a < b {
      SquareMonotone(a, b);
    } else if b < a {
      SquareMonotone(b, a);
    }
  }

  lemma SquareMonotone(a: real, b: real)
    requires 0.0 <= a < b
    ensures a * a < b * b
  {
    calc {
      a * a;
    <=
      a * b;
    <
      b * b;
    }
  }

  lemma AddZero(a: Vec3)
    ensures Add(a, Zero) == a
  {
  }

  /** Scaling distributes over addition. */
  lemma ScaleAdd(k: real, a: Vec3, b: Vec3)
    ensures Scale(k, Add(a, b)) == Add(Scale(k, a), Scale(k, b))
  {
  }

  lemma DotScale(k: real, v: Vec3)
    ensures Dot(Scale(k, v), Scale(k, v)) == (k * k) * Dot(v, v)
  {
  }

  lemma SquareOfProduct(a: real, b: real)
    ensures (a * b) * (a * b) == (a * a) * (b * b)
  {
  }

  lemma ProductNonNegative(a: real, b: real)
    requires 0.0 <= a && 0.0 <= b
    ensures 0.0 <= a * b
  {
  }

  /** A root of `(k * k) * d` is `|k|` times a root of `d`. */
  lemma ScaledRoot(mu: real, mv: real, k: real, d: real)
    requires 0.0 <= mu && mu * mu == (k * k) * d
    requires 0.0 <= mv && mv * mv == d
    ensures mu == Abs(k) * mv
  {
    var a := Abs(k);
    SquareOfProduct(a, mv);
    assert a * a == k * k;
    ProductNonNegative(a, mv);
    SquareRootUnique(mu, a * mv);
  }

  /** The magnitude scales with the absolute value of the factor. */
  lemma MagScale(mag: Vec3 -> real, k: real, v: Vec3)
    requires IsMag(mag)
    ensures mag(Scale(k, v)) == Abs(k) * mag(v)
  {
    assert MagAt(mag, v) && MagAt(mag, Scale(k, v));
    DotScale(k, v);
    ScaledRoot(mag(Scale(k, v)), mag(v), k, Dot(v, v));
  }

  /** The magnitude is the same for a vector and its negation. */
  lemma MagNeg(mag: Vec3 -> real, v: Vec3)
    requires IsMag(mag)
    ensures mag(Neg(v)) == mag(v)
  {
    assert Neg(v) == Scale(-1.0, v);
    MagScale(mag, -1.0, v);
  }

  /** `norm` yields a vector of length one. */
  lemma NormUnit(mag: Vec3 -> real, v: Vec3)
    requires IsMag(mag) && mag(v) != 0.0
    ensures mag(Norm(v, mag)) == 1.0
  {
    assert MagAt(mag, v);
    MagScale(mag, 1.0 / mag(v), v);
  }
}
