/** ReferenceFrame: a position and an orientation, with the forward and inverse
    rotation matrices cached from the orientation, and the local <-> world
    transforms that read those cached matrices. A frame is a value here; the
    rigid body that owns one replaces it when it moves. */
module ReferenceFrames {
  import opened Geometry

  datatype Frame = Frame(pos: Vec3, ori: Quat, oriMat: Mat3, oriMatInv: Mat3)

  /** A freshly constructed frame: at the origin, identity orientation, and
      both matrices the identity (a new THREE.Matrix4). */
  const InitialFrame := Frame(Zero, IdentityQuat, Identity, Identity)

  /** updateMatrices: normalise the orientation, rebuild the forward matrix
      from it and cache its transpose as the inverse. */
  function UpdateMatrices(f: Frame, lib: MathLib): (g: Frame)
    ensures g.pos == f.pos
    ensures g.ori == lib.normalize(f.ori)
    ensures g.oriMat == lib.rotation(g.ori)
    ensures g.oriMatInv == Transpose(g.oriMat)
  {
    var ori := lib.normalize(f.ori);
    var m := lib.rotation(ori);
    Frame(f.pos, ori, m, Transpose(m))
  }

  /** The cached inverse is the transpose of a rotation. This holds after every
      UpdateMatrices whose host rotation is orthogonal, and of InitialFrame. */
  ghost predicate Consistent(f: Frame) {
    Orthogonal(f.oriMat) && f.oriMatInv == Transpose(f.oriMat)
  }

  /** getLocToWorldVector: a consistent frame rotates without stretching. */
  function LocalToWorldVector(f: Frame, v: Vec3): (w: Vec3)
    ensures Consistent(f) ==> Dot(w, w) == Dot(v, v)
  {
    RotationKeepsLength(f, v);
    MulVec(f.oriMat, v)
  }

  /** getWorldToLocVector: the inverse rotation does not stretch either. */
  function WorldToLocalVector(f: Frame, v: Vec3): (w: Vec3)
    ensures Consistent(f) ==> Dot(w, w) == Dot(v, v)
  {
    InverseKeepsLength(f, v);
    MulVec(f.oriMatInv, v)
  }

  /** getLocToWorldPoint: a local point lands as far from the frame's
      position as it was from the local origin. */
  function LocalToWorldPoint(f: Frame, p: Vec3): (w: Vec3)
    ensures Consistent(f) ==> Dot(Sub(w, f.pos), Sub(w, f.pos)) == Dot(p, p)
  {
    RotationKeepsLength(f, p);
    AddSubCancel(MulVec(f.oriMat, p), f.pos);
    Add(MulVec(f.oriMat, p), f.pos)
  }

  /** getWorldToLocPoint: a world point's distance from the frame's position
      becomes its distance from the local origin. */
  function WorldToLocalPoint(f: Frame, p: Vec3): (w: Vec3)
    ensures Consistent(f) ==> Dot(w, w) == Dot(Sub(p, f.pos), Sub(p, f.pos))
  {
    InverseKeepsLength(f, Sub(p, f.pos));
    MulVec(f.oriMatInv, Sub(p, f.pos))
  }

  lemma RotationKeepsLength(f: Frame, v: Vec3)
    ensures Consistent(f) ==> Dot(MulVec(f.oriMat, v), MulVec(f.oriMat, v)) == Dot(v, v)
  {
    if Consistent(f) {
      OrthogonalPreservesDot(f.oriMat, v, v);
    }
  }

  lemma InverseKeepsLength(f: Frame, v: Vec3)
    ensures Consistent(f) ==> Dot(MulVec(f.oriMatInv, v), MulVec(f.oriMatInv, v)) == Dot(v, v)
  {
    if Consistent(f) {
      TransposeOrthogonal(f.oriMat);
      OrthogonalPreservesDot(f.oriMatInv, v, v);
    }
  }

  lemma InitialFrameConsistent()
    ensures Consistent(InitialFrame)
  {
    IdentityOrthogonal();
  }

  lemma UpdateMatricesConsistent(f: Frame, lib: MathLib)
    requires Orthogonal(lib.rotation(lib.normalize(f.ori)))
    ensures Consistent(UpdateMatrices(f, lib))
  {
  }

  /** The vector transforms are inverse to each other, in both orders. */
  lemma VectorRoundTrip(f: Frame, v: Vec3)
    requires Consistent(f)
    ensures WorldToLocalVector(f, LocalToWorldVector(f, v)) == v
    ensures LocalToWorldVector(f, WorldToLocalVector(f, v)) == v
  {
    OrthogonalInverse(f.oriMat, v);
  }

  /** The point transforms are inverse to each other, in both orders. */
  lemma PointRoundTrip(f: Frame, p: Vec3)
    requires Consistent(f)
    ensures WorldToLocalPoint(f, LocalToWorldPoint(f, p)) == p
    ensures LocalToWorldPoint(f, WorldToLocalPoint(f, p)) == p
  {
    var q := MulVec(f.oriMat, p);
    assert Sub(Add(q, f.pos), f.pos) == q;
    OrthogonalInverse(f.oriMat, p);
    OrthogonalInverse(f.oriMat, Sub(p, f.pos));
    assert Add(Sub(p, f.pos), f.pos) == p;
  }
}
