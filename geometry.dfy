/** Real-valued stand-ins for the THREE.js vector, quaternion and matrix types
    that the physics driver uses. Only the operations the driver needs are
    defined; the numerically delicate ones (quaternion normalisation, the
    rotation matrix built from a quaternion, the quaternion product) are not
    defined here: they are supplied by the host as a `MathLib` value. */
module Geometry {

  /** A 3-vector (THREE.Vector3). */
  datatype Vec3 = Vec3(x: real, y: real, z: real)

  /** A quaternion (THREE.Quaternion); w is the scalar part. */
  datatype Quat = Quat(x: real, y: real, z: real, w: real)

  /** A 3x3 matrix given by its rows. The driver only ever fills the rotation
      block of a THREE.Matrix4, so the translation column stays zero and the
      projective row stays (0, 0, 0, 1); a 3x3 matrix captures all of it. */
  datatype Mat3 = Mat3(r0: Vec3, r1: Vec3, r2: Vec3)

  /** The host library's operations whose numerics are not modelled. */
  datatype MathLib = MathLib(
    normalize: Quat -> Quat,          // Quaternion.normalize
    rotation: Quat -> Mat3,           // Matrix4.setRotationFromQuaternion
    multiply: (Quat, Quat) -> Quat)   // Quaternion.multiply(a, b)

  const Zero := Vec3(0.0, 0.0, 0.0)
  const IdentityQuat := Quat(0.0, 0.0, 0.0, 1.0)
  const Identity := Mat3(Vec3(1.0, 0.0, 0.0), Vec3(0.0, 1.0, 0.0), Vec3(0.0, 0.0, 1.0))

  function Sq(a: real): real { a * a }

  /** Stated through Sq so that the solver never sees the bare square. */
  lemma SqPositive(a: real)
    requires a != 0.0
    ensures Sq(a) > 0.0
  {
    calc {
      Sq(a);
    ==
      a * a;
    >
      0.0;
    }
  }

  lemma MulNonneg(x: real, y: real)
    requires x >= 0.0 && y >= 0.0
    ensures x * y >= 0.0
  {
  }

  lemma MulPos(x: real, y: real)
    requires x > 0.0 && y > 0.0
    ensures x * y > 0.0
  {
  }

  function Add(a: Vec3, b: Vec3): Vec3 { Vec3(a.x + b.x, a.y + b.y, a.z + b.z) }

  function Sub(a: Vec3, b: Vec3): Vec3 { Vec3(a.x - b.x, a.y - b.y, a.z - b.z) }

  function Scale(a: Vec3, s: real): Vec3 { Vec3(a.x * s, a.y * s, a.z * s) }

  function DivScalar(a: Vec3, s: real): Vec3
    requires s != 0.0
  {
    Vec3(a.x / s, a.y / s, a.z / s)
  }

  /** Componentwise product (Vector3.multiplySelf). */
  function Mul(a: Vec3, b: Vec3): Vec3 { Vec3(a.x * b.x, a.y * b.y, a.z * b.z) }

  function Dot(a: Vec3, b: Vec3): real { a.x * b.x + a.y * b.y + a.z * b.z }

  /** Vector3.cross(a, b). */
  function Cross(a: Vec3, b: Vec3): Vec3 {
    Vec3(a.y * b.z - a.z * b.y, a.z * b.x - a.x * b.z, a.x * b.y - a.y * b.x)
  }

  function QuatAdd(a: Quat, b: Quat): Quat { Quat(a.x + b.x, a.y + b.y, a.z + b.z, a.w + b.w) }

  /** Matrix times column vector (Matrix4.multiplyVector3 on a rotation-only matrix). */
  function MulVec(m: Mat3, v: Vec3): Vec3 { Vec3(Dot(m.r0, v), Dot(m.r1, v), Dot(m.r2, v)) }

  function Transpose(m: Mat3): Mat3 {
    Mat3(Vec3(m.r0.x, m.r1.x, m.r2.x), Vec3(m.r0.y, m.r1.y, m.r2.y), Vec3(m.r0.z, m.r1.z, m.r2.z))
  }

  function MatMul(a: Mat3, b: Mat3): Mat3 {
    var t := Transpose(b);
    Mat3(MulVec(t, a.r0), MulVec(t, a.r1), MulVec(t, a.r2))
  }

  /** A rotation matrix: its transpose is its inverse on both sides. */
  ghost predicate Orthogonal(m: Mat3) {
    MatMul(Transpose(m), m) == Identity && MatMul(m, Transpose(m)) == Identity
  }

  lemma TransposeInvolution(m: Mat3)
    ensures Transpose(Transpose(m)) == m
  {
  }

  /** The identity matrix leaves every vector unchanged. */
  lemma IdentityMulVec(v: Vec3)
    ensures MulVec(Identity, v) == v
  {
    assert Dot(Vec3(1.0, 0.0, 0.0), v) == v.x;
    assert Dot(Vec3(0.0, 1.0, 0.0), v) == v.y;
    assert Dot(Vec3(0.0, 0.0, 1.0), v) == v.z;
  }

  lemma IdentityOrthogonal()
    ensures Orthogonal(Identity)
  {
    IdentitySymmetric();
    IdentityMulVec(Identity.r0);
    IdentityMulVec(Identity.r1);
    IdentityMulVec(Identity.r2);
    assert MatMul(Identity, Identity) == Identity;
  }

  lemma IdentitySymmetric()
    ensures Transpose(Identity) == Identity
  {
  }

  /** Applying two matrices in turn is applying their product. */
  lemma MulVecMatMul(a: Mat3, b: Mat3, v: Vec3)
    ensures MulVec(a, MulVec(b, v)) == MulVec(MatMul(a, b), v)
  {
    RowThroughProduct(a.r0, b, v);
    RowThroughProduct(a.r1, b, v);
    RowThroughProduct(a.r2, b, v);
  }

  lemma RowThroughProduct(r: Vec3, b: Mat3, v: Vec3)
    ensures Dot(r, MulVec(b, v)) == Dot(MulVec(Transpose(b), r), v)
  {
  }

  /** The transpose of an orthogonal matrix undoes it, in either order. */
  lemma OrthogonalInverse(m: Mat3, v: Vec3)
    requires Orthogonal(m)
    ensures MulVec(Transpose(m), MulVec(m, v)) == v
    ensures MulVec(m, MulVec(Transpose(m), v)) == v
  {
    MulVecMatMul(Transpose(m), m, v);
    MulVecMatMul(m, Transpose(m), v);
  }

  /** Moving a matrix across a dot product transposes it. */
  lemma Adjoint(m: Mat3, u: Vec3, w: Vec3)
    ensures Dot(MulVec(m, u), w) == Dot(u, MulVec(Transpose(m), w))
  {
  }

  /** An orthogonal matrix keeps dot products, and so lengths and angles. */
  lemma OrthogonalPreservesDot(m: Mat3, u: Vec3, v: Vec3)
    requires Orthogonal(m)
    ensures Dot(MulVec(m, u), MulVec(m, v)) == Dot(u, v)
  {
    Adjoint(m, u, MulVec(m, v));
    OrthogonalInverse(m, v);
  }

  /** The transpose of an orthogonal matrix is orthogonal. */
  lemma TransposeOrthogonal(m: Mat3)
    requires Orthogonal(m)
    ensures Orthogonal(Transpose(m))
  {
    TransposeInvolution(m);
  }

  /** Matrix-vector multiplication commutes with scaling the vector. */
  lemma MulVecScale(m: Mat3, u: Vec3, k: real)
    ensures MulVec(m, Scale(u, k)) == Scale(MulVec(m, u), k)
  {
    assert Dot(m.r0, Scale(u, k)) == Dot(m.r0, u) * k;
    assert Dot(m.r1, Scale(u, k)) == Dot(m.r1, u) * k;
    assert Dot(m.r2, Scale(u, k)) == Dot(m.r2, u) * k;
  }

  /** Adding a vector and taking it away again gives back the start. */
  lemma AddSubCancel(a: Vec3, b: Vec3)
    ensures Sub(Add(a, b), b) == a
  {
  }

  /** The cross product distributes over a sum in its second factor. */
  lemma CrossAddRight(a: Vec3, b: Vec3, c: Vec3)
    ensures Cross(a, Add(b, c)) == Add(Cross(a, b), Cross(a, c))
  {
  }

  /** The cross product is perpendicular to both of its factors. */
  lemma CrossPerpendicular(a: Vec3, b: Vec3)
    ensures Dot(Cross(a, b), a) == 0.0
    ensures Dot(Cross(a, b), b) == 0.0
  {
  }
}
