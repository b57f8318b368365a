/** The state of a RigidBody as a value, and the specification of each thing
    the body does to it: recording a snapshot, blending the snapshot with the
    current state, setting the mass from a cuboid, accumulating forces and
    torques, and the integration step. The RigidBody class updates its fields
    as these functions say. */
module Bodies {
  import opened Geometry
  import opened ReferenceFrames

  /** What recordState copies and getState blends: position, orientation,
      linear velocity and angular velocity. */
  datatype Kinematics = Kinematics(pos: Vec3, ori: Quat, linVel: Vec3, angVel: Vec3)

  /** Everything a RigidBody holds. angMass and angMassInv are the principal
      moments of inertia in body-local axes and their reciprocals; angVel is
      derived from angMom at each step; snapshot is the state recorded before
      the latest step. */
  datatype BodyState = BodyState(
    frame: Frame,
    mass: real,
    angMass: Vec3,
    angMassInv: Vec3,
    linVel: Vec3,
    angVel: Vec3,
    angMom: Vec3,
    accumForce: Vec3,
    accumTorque: Vec3,
    snapshot: Kinematics)

  predicate Positive(v: Vec3) {
    v.x > 0.0 && v.y > 0.0 && v.z > 0.0
  }

  function Reciprocal(v: Vec3): (r: Vec3)
    requires Positive(v)
    ensures Positive(r)
    ensures r.x * v.x == 1.0 && r.y * v.y == 1.0 && r.z * v.z == 1.0
  {
    Vec3(1.0 / v.x, 1.0 / v.y, 1.0 / v.z)
  }

  /** The mass properties every body keeps: setMassCuboid only ever stores
      positive values, and the constructor starts from a unit cuboid. */
  predicate MassValid(s: BodyState) {
    s.mass > 0.0 && Positive(s.angMass) && s.angMassInv == Reciprocal(s.angMass)
  }

  // ---------------------------------------------------------------- mass

  /** The guard of setMassCuboid: a positive mass and positive half-extents. */
  predicate CuboidAccepted(mass: real, halfExtents: Vec3) {
    mass > 0.0 && Positive(halfExtents)
  }

  /** The textbook principal moments of a solid cuboid with the given
      half-extents: about each axis, mass times the sum of the squares of the
      other two half-extents, over 3. */
  function SolidCuboidMoments(mass: real, r: Vec3): Vec3 {
    Vec3(mass * (Sq(r.y) + Sq(r.z)) / 3.0,
         mass * (Sq(r.z) + Sq(r.x)) / 3.0,
         mass * (Sq(r.x) + Sq(r.y)) / 3.0)
  }

  /** The moments setMassCuboid stores: the mass is inflated by 1.5 first,
      then per-axis squared terms are formed and summed in pairs. */
  function CuboidAngMass(mass: real, r: Vec3): (m: Vec3)
    ensures m == Scale(SolidCuboidMoments(mass, r), 1.5)
  {
    var fudgedMass := mass * 1.5;
    var mx := Sq(r.x) * fudgedMass / 3.0;
    var my := Sq(r.y) * fudgedMass / 3.0;
    var mz := Sq(r.z) * fudgedMass / 3.0;
    Vec3(my + mz, mz + mx, mx + my)
  }

  /** Accepted input always gives positive moments. */
  lemma CuboidAngMassPositive(mass: real, r: Vec3)
    requires CuboidAccepted(mass, r)
    ensures Positive(CuboidAngMass(mass, r))
  {
    var f := mass * 1.5;
    SqPositive(r.x);
    SqPositive(r.y);
    SqPositive(r.z);
    MulPos(Sq(r.x), f);
    MulPos(Sq(r.y), f);
    MulPos(Sq(r.z), f);
  }

  /** setMassCuboid: rejected input leaves the state as it was. */
  function WithMassCuboid(s: BodyState, mass: real, r: Vec3): (t: BodyState)
    ensures !CuboidAccepted(mass, r) ==> t == s
    ensures CuboidAccepted(mass, r) ==>
      t.mass == mass && t.angMass == CuboidAngMass(mass, r) && Positive(t.angMass)
      && t.angMassInv == Reciprocal(t.angMass)
      && t == s.(mass := t.mass, angMass := t.angMass, angMassInv := t.angMassInv)
    ensures MassValid(s) ==> MassValid(t)
    ensures CuboidAccepted(mass, r) ==> MassValid(t)
  {
    if !CuboidAccepted(mass, r) then s
    else
      CuboidAngMassPositive(mass, r);
      var m := CuboidAngMass(mass, r);
      s.(mass := mass, angMass := m, angMassInv := Reciprocal(m))
  }

  // ------------------------------------------------------------ creation

  const RestKinematics := Kinematics(Zero, IdentityQuat, Zero, Zero)

  /** A body before its mass is set: the initial frame, no mass properties,
      at rest, nothing accumulated. */
  const BlankBody := BodyState(InitialFrame, 0.0, Zero, Zero, Zero, Zero, Zero, Zero, Zero, RestKinematics)

  /** A body as the RigidBody constructor leaves it: a unit cuboid of mass 1
      at rest at the origin. */
  const InitialBody := BodyState(InitialFrame, 1.0, Vec3(1.0, 1.0, 1.0), Vec3(1.0, 1.0, 1.0),
                                 Zero, Zero, Zero, Zero, Zero, RestKinematics)

  /** The constructor's state is what setMassCuboid(1, (1, 1, 1)) and then
      recordState make of a blank body; its mass properties are valid and
      its snapshot is its current state. */
  lemma InitialBodyIsUnitCuboid()
    ensures InitialBody == Recorded(WithMassCuboid(BlankBody, 1.0, Vec3(1.0, 1.0, 1.0)))
    ensures MassValid(InitialBody)
    ensures Current(InitialBody) == RestKinematics && InitialBody.snapshot == Current(InitialBody)
  {
    UnitCuboid(BlankBody);
    UnitReciprocal();
  }

  /** setMassCuboid(1, (1, 1, 1)) sets unit mass and unit moments on any body. */
  lemma UnitCuboid(s: BodyState)
    ensures WithMassCuboid(s, 1.0, Vec3(1.0, 1.0, 1.0))
         == s.(mass := 1.0, angMass := Vec3(1.0, 1.0, 1.0), angMassInv := Vec3(1.0, 1.0, 1.0))
  {
    UnitCuboidMoments();
    UnitReciprocal();
  }

  /** A unit cuboid of mass 1 has unit principal moments (with the 1.5 factor). */
  lemma UnitCuboidMoments()
    ensures CuboidAngMass(1.0, Vec3(1.0, 1.0, 1.0)) == Vec3(1.0, 1.0, 1.0)
  {
  }

  lemma UnitReciprocal()
    ensures Reciprocal(Vec3(1.0, 1.0, 1.0)) == Vec3(1.0, 1.0, 1.0)
  {
  }

  // ----------------------------------------------------- snapshot, blend

  function Current(s: BodyState): Kinematics {
    Kinematics(s.frame.pos, s.frame.ori, s.linVel, s.angVel)
  }

  /** recordState: the snapshot becomes the current kinematic state; nothing
      else changes, so recording twice is recording once. */
  function Recorded(s: BodyState): (t: BodyState)
    ensures t.snapshot == Current(s)
    ensures Current(t) == Current(s)
    ensures t == s.(snapshot := t.snapshot)
  {
    s.(snapshot := Current(s))
  }

  function Lerp(a: real, b: real, alpha: real): real {
    a + (b - a) * alpha
  }

  function LerpVec(a: Vec3, b: Vec3, alpha: real): Vec3 {
    Vec3(Lerp(a.x, b.x, alpha), Lerp(a.y, b.y, alpha), Lerp(a.z, b.z, alpha))
  }

  /** Orientation is blended coordinate by coordinate, not spherically. */
  function LerpQuat(a: Quat, b: Quat, alpha: real): Quat {
    Quat(Lerp(a.x, b.x, alpha), Lerp(a.y, b.y, alpha), Lerp(a.z, b.z, alpha), Lerp(a.w, b.w, alpha))
  }

  /** getState's blend of the snapshot a with the current state b. */
  function Blend(a: Kinematics, b: Kinematics, alpha: real): (k: Kinematics)
    ensures alpha == 0.0 ==> k == a
    ensures alpha == 1.0 ==> k == b
    ensures a == b ==> k == a
  {
    Kinematics(LerpVec(a.pos, b.pos, alpha), LerpQuat(a.ori, b.ori, alpha),
               LerpVec(a.linVel, b.linVel, alpha), LerpVec(a.angVel, b.angVel, alpha))
  }

  predicate Between(a: real, b: real, v: real) {
    (a <= v <= b) || (b <= v <= a)
  }

  predicate BetweenVec(a: Vec3, b: Vec3, v: Vec3) {
    Between(a.x, b.x, v.x) && Between(a.y, b.y, v.y) && Between(a.z, b.z, v.z)
  }

  lemma LerpBetween(a: real, b: real, alpha: real)
    requires 0.0 <= alpha <= 1.0
    ensures Between(a, b, Lerp(a, b, alpha))
  {
    assert (b - a) * alpha + (b - a) * (1.0 - alpha) == b - a;
    if a <= b {
      MulNonneg(b - a, alpha);
      MulNonneg(b - a, 1.0 - alpha);
    } else {
      MulNonneg(a - b, alpha);
      MulNonneg(a - b, 1.0 - alpha);
    }
  }

  /** For a fraction in [0, 1], every blended coordinate lies between the
      snapshot's and the current one. */
  lemma BlendBetween(a: Kinematics, b: Kinematics, alpha: real)
    requires 0.0 <= alpha <= 1.0
    ensures var k := Blend(a, b, alpha);
      BetweenVec(a.pos, b.pos, k.pos) && BetweenVec(a.linVel, b.linVel, k.linVel)
      && BetweenVec(a.angVel, b.angVel, k.angVel)
      && Between(a.ori.x, b.ori.x, k.ori.x) && Between(a.ori.y, b.ori.y, k.ori.y)
      && Between(a.ori.z, b.ori.z, k.ori.z) && Between(a.ori.w, b.ori.w, k.ori.w)
  {
    forall u: real, v: real ensures Between(u, v, Lerp(u, v, alpha)) {
      LerpBetween(u, v, alpha);
    }
  }

  /** The interpolated state getState reports for a body at fraction alpha:
      the state recorded before the last step at 0, the current one at 1, and
      the current one throughout when nothing moved since the recording. */
  function Interpolated(s: BodyState, alpha: real): (k: Kinematics)
    ensures alpha == 0.0 ==> k == s.snapshot
    ensures alpha == 1.0 ==> k == Current(s)
    ensures s.snapshot == Current(s) ==> k == Current(s)
  {
    Blend(s.snapshot, Current(s), alpha)
  }

  // ------------------------------------------------- forces and torques

  /** addForce: the force joins the accumulator; nothing else changes. */
  function WithForce(s: BodyState, frc: Vec3): (t: BodyState)
    ensures t.accumForce == Add(s.accumForce, frc)
    ensures t.(accumForce := s.accumForce) == s
  {
    s.(accumForce := Add(s.accumForce, frc))
  }

  /** addTorque: the torque joins the accumulator; nothing else changes. */
  function WithTorque(s: BodyState, trq: Vec3): (t: BodyState)
    ensures t.accumTorque == Add(s.accumTorque, trq)
    ensures t.(accumTorque := s.accumTorque) == s
  {
    s.(accumTorque := Add(s.accumTorque, trq))
  }

  /** Forces and torques accumulate: two applied in either order act as
      their sum. */
  lemma AccumulationOrderFree(s: BodyState, a: Vec3, b: Vec3)
    ensures WithForce(WithForce(s, a), b) == WithForce(s, Add(a, b)) == WithForce(WithForce(s, b), a)
    ensures WithTorque(WithTorque(s, a), b) == WithTorque(s, Add(a, b)) == WithTorque(WithTorque(s, b), a)
  { }

  /** The torque of a force applied at a world point, about the body's
      position: perpendicular to the force and to the lever arm. */
  function TorqueAbout(centre: Vec3, frc: Vec3, pt: Vec3): (trq: Vec3)
    ensures Dot(trq, frc) == 0.0
    ensures Dot(trq, Sub(pt, centre)) == 0.0
  {
    CrossPerpendicular(Sub(pt, centre), frc);
    Cross(Sub(pt, centre), frc)
  }

  /** addForceAtPoint: the force is accumulated, and so is its torque about
      the body's position; nothing else changes. */
  function WithForceAtPoint(s: BodyState, frc: Vec3, pt: Vec3): (t: BodyState)
    ensures t.accumForce == Add(s.accumForce, frc)
    ensures t.accumTorque == Add(s.accumTorque, TorqueAbout(s.frame.pos, frc, pt))
    ensures t.(accumForce := s.accumForce, accumTorque := s.accumTorque) == s
  {
    WithTorque(WithForce(s, frc), TorqueAbout(s.frame.pos, frc, pt))
  }

  /** A force whose line of action passes through the body's position adds
      no torque: applied at any point of that line it is a plain force. */
  lemma ForceAtPointTorque(s: BodyState, frc: Vec3, k: real)
    ensures WithForceAtPoint(s, frc, Add(s.frame.pos, Scale(frc, k))) == WithForce(s, frc)
  {
    var c := s.frame.pos;
    assert Sub(Add(c, Scale(frc, k)), c) == Scale(frc, k);
    assert Cross(Scale(frc, k), frc) == Zero;
    assert Add(s.accumTorque, Zero) == s.accumTorque;
  }

  /** getLinearVelAtPoint: the velocity of the material point at pt. A body
      that does not spin moves every point alike, and the spin never adds
      velocity along its own axis. */
  function LinearVelAtPoint(s: BodyState, pt: Vec3): (v: Vec3)
    ensures s.angVel == Zero ==> v == s.linVel
    ensures Dot(Sub(v, s.linVel), s.angVel) == 0.0
  {
    SpinAddsAcrossAxis(s.angVel, Sub(pt, s.frame.pos), s.linVel);
    Add(Cross(s.angVel, Sub(pt, s.frame.pos)), s.linVel)
  }

  lemma SpinAddsAcrossAxis(a: Vec3, d: Vec3, u: Vec3)
    ensures a == Zero ==> Add(Cross(a, d), u) == u
    ensures Dot(Sub(Add(Cross(a, d), u), u), a) == 0.0
  {
    var c := Cross(a, d);
    if a == Zero {
      assert c == Zero;
    }
    assert Dot(c, a) == 0.0 by { CrossPerpendicular(a, d); }
    assert Sub(Add(c, u), u) == c by { AddSubCancel(c, u); }
  }

  /** At the body's position the point velocity is the linear velocity, and
      elsewhere the rotational part never moves a point towards or away from
      the position. */
  lemma LinearVelAtPointRigid(s: BodyState, pt: Vec3)
    ensures LinearVelAtPoint(s, s.frame.pos) == s.linVel
    ensures Dot(Sub(LinearVelAtPoint(s, pt), s.linVel), Sub(pt, s.frame.pos)) == 0.0
  {
    var c := s.frame.pos;
    assert Sub(c, c) == Zero;
    assert Cross(s.angVel, Zero) == Zero;
    var w := Cross(s.angVel, Sub(pt, c));
    assert Sub(Add(w, s.linVel), s.linVel) == w;
    CrossPerpendicular(s.angVel, Sub(pt, c));
  }

  /** The velocity field of a rigid body: the velocity at q is the velocity
      at p plus the angular velocity crossed with the offset from p to q.
      With p the body's position this fixes every point velocity. */
  lemma LinearVelTransport(s: BodyState, p: Vec3, q: Vec3)
    ensures LinearVelAtPoint(s, q) == Add(LinearVelAtPoint(s, p), Cross(s.angVel, Sub(q, p)))
  {
    var c := s.frame.pos;
    assert Sub(q, c) == Add(Sub(p, c), Sub(q, p));
    CrossAddRight(s.angVel, Sub(p, c), Sub(q, p));
  }

  lemma LinearVelTransportFrom(s: BodyState, q: Vec3)
    ensures forall p :: LinearVelAtPoint(s, q) == Add(LinearVelAtPoint(s, p), Cross(s.angVel, Sub(q, p)))
  {
    forall p ensures LinearVelAtPoint(s, q) == Add(LinearVelAtPoint(s, p), Cross(s.angVel, Sub(q, p))) {
      LinearVelTransport(s, p, q);
    }
  }

  // ---------------------------------------------------------- integration

  /** The angular velocity implied by an angular momentum: taken into
      body-local axes, scaled by the inverse principal moments, taken back.
      In a consistent frame, a body with equal principal moments spins
      about the axis of its momentum. */
  function AngVelFromMomentum(f: Frame, angMassInv: Vec3, angMom: Vec3): (w: Vec3)
    ensures Consistent(f) && angMassInv.x == angMassInv.y == angMassInv.z
            ==> w == Scale(angMom, angMassInv.x)
  {
    IsotropicSpin(f, angMassInv, angMom);
    LocalToWorldVector(f, Mul(WorldToLocalVector(f, angMom), angMassInv))
  }

  lemma IsotropicSpin(f: Frame, angMassInv: Vec3, angMom: Vec3)
    ensures Consistent(f) && angMassInv.x == angMassInv.y == angMassInv.z
            ==> LocalToWorldVector(f, Mul(WorldToLocalVector(f, angMom), angMassInv))
                == Scale(angMom, angMassInv.x)
  {
    if Consistent(f) && angMassInv.x == angMassInv.y == angMassInv.z {
      var local := WorldToLocalVector(f, angMom);
      assert Mul(local, angMassInv) == Scale(local, angMassInv.x);
      MulVecScale(f.oriMat, local, angMassInv.x);
      VectorRoundTrip(f, angMom);
    }
  }

  /** The change of orientation over delta at angular velocity angVel: the
      pure quaternion of half the rotation times the orientation. */
  function Spin(ori: Quat, angVel: Vec3, delta: real, lib: MathLib): Quat {
    var halfDelta := 0.5 * delta;
    var omega := Quat(angVel.x * halfDelta, angVel.y * halfDelta, angVel.z * halfDelta, 0.0);
    lib.multiply(omega, ori)
  }

  /** Only the rotation vector angVel * delta matters to the spin: spinning
      at angVel for delta is spinning at angVel * delta for one time unit. */
  lemma SpinDependsOnRotation(ori: Quat, angVel: Vec3, delta: real, lib: MathLib)
    ensures Spin(ori, angVel, delta, lib) == Spin(ori, Scale(angVel, delta), 1.0, lib)
  {
    assert angVel.x * (0.5 * delta) == (angVel.x * delta) * (0.5 * 1.0);
    assert angVel.y * (0.5 * delta) == (angVel.y * delta) * (0.5 * 1.0);
    assert angVel.z * (0.5 * delta) == (angVel.z * delta) * (0.5 * 1.0);
  }

  /** RigidBody.tick(delta) under the given gravity. */
  function Advanced(s: BodyState, gravity: Vec3, delta: real, lib: MathLib): (t: BodyState)
    requires s.mass > 0.0
    // semi-implicit Euler: the velocity moves first, the position uses the new velocity
    ensures t.linVel == Add(s.linVel, Scale(Add(DivScalar(s.accumForce, s.mass), gravity), delta))
    ensures t.frame.pos == Add(s.frame.pos, Scale(t.linVel, delta))
    // angular momentum is the integrated variable; angular velocity is derived from it
    ensures t.angMom == Add(s.angMom, Scale(s.accumTorque, delta))
    ensures t.angVel == AngVelFromMomentum(s.frame, s.angMassInv, t.angMom)
    // the orientation gains the spin at the new angular velocity, is normalised,
    // and both matrices are rebuilt from it
    ensures t.frame.ori == lib.normalize(QuatAdd(s.frame.ori, Spin(s.frame.ori, t.angVel, delta, lib)))
    ensures t.frame.oriMat == lib.rotation(t.frame.ori)
    ensures t.frame.oriMatInv == Transpose(t.frame.oriMat)
    // nothing is carried over to the next step
    ensures t.accumForce == Zero && t.accumTorque == Zero
    // mass properties and the snapshot are untouched
    ensures t.mass == s.mass && t.angMass == s.angMass && t.angMassInv == s.angMassInv
    ensures t.snapshot == s.snapshot
  {
    var linAccel := Add(DivScalar(s.accumForce, s.mass), gravity);
    var linVel := Add(s.linVel, Scale(linAccel, delta));
    var pos := Add(s.frame.pos, Scale(linVel, delta));
    var angMom := Add(s.angMom, Scale(s.accumTorque, delta));
    var angVel := AngVelFromMomentum(s.frame, s.angMassInv, angMom);
    var moved := s.frame.(pos := pos, ori := QuatAdd(s.frame.ori, Spin(s.frame.ori, angVel, delta, lib)));
    s.(frame := UpdateMatrices(moved, lib), linVel := linVel, angVel := angVel, angMom := angMom,
       accumForce := Zero, accumTorque := Zero)
  }

  /** What one Sim.integrate does to one body: record, then advance. */
  function Stepped(s: BodyState, gravity: Vec3, delta: real, lib: MathLib): (t: BodyState)
    requires s.mass > 0.0
    ensures t.snapshot == Current(s)
    ensures MassValid(s) ==> MassValid(t)
  {
    Advanced(Recorded(s), gravity, delta, lib)
  }

  /** n fixed steps in a row. */
  function StepN(s: BodyState, gravity: Vec3, delta: real, lib: MathLib, n: nat): (t: BodyState)
    requires s.mass > 0.0
    ensures t.mass == s.mass && t.angMass == s.angMass && t.angMassInv == s.angMassInv
    ensures MassValid(s) ==> MassValid(t)
    ensures n > 0 ==> t.accumForce == Zero && t.accumTorque == Zero
    decreases n
  {
    if n == 0 then s else Stepped(StepN(s, gravity, delta, lib, n - 1), gravity, delta, lib)
  }

  /** Right after a step, the interpolated state runs from the state before
      the step (fraction 0) to the state after it (fraction 1). */
  lemma InterpolationSpansStep(s: BodyState, gravity: Vec3, delta: real, lib: MathLib)
    requires s.mass > 0.0
    ensures Interpolated(Stepped(s, gravity, delta, lib), 0.0) == Current(s)
    ensures Interpolated(Stepped(s, gravity, delta, lib), 1.0) == Current(Stepped(s, gravity, delta, lib))
  {
  }

  /** With no force, torque or gravity a body coasts: its velocity is kept and
      its position moves by velocity times delta. */
  lemma CoastingStep(s: BodyState, delta: real, lib: MathLib)
    requires s.mass > 0.0 && s.accumForce == Zero && s.accumTorque == Zero
    ensures Advanced(s, Zero, delta, lib).linVel == s.linVel
    ensures Advanced(s, Zero, delta, lib).frame.pos == Add(s.frame.pos, Scale(s.linVel, delta))
    ensures Advanced(s, Zero, delta, lib).angMom == s.angMom
  {
    assert DivScalar(Zero, s.mass) == Zero;
    assert Add(Zero, Zero) == Zero;
    assert Scale(Zero, delta) == Zero;
    assert Add(s.linVel, Zero) == s.linVel;
    assert Add(s.angMom, Zero) == s.angMom;
  }

  /** One coordinate of the velocity after k steps of size h under gravity g. */
  function FallSpeed(v0: real, g: real, h: real, k: real): real {
    v0 + g * (k * h)
  }

  /** One coordinate of the position after k semi-implicit Euler steps of
      size h under gravity g: each step adds the already updated velocity, so
      the gravity term is h*h*k*(k+1)/2 rather than the h*h*k*(k-1)/2 of
      explicit Euler. */
  function FallDistance(p0: real, v0: real, g: real, h: real, k: real): real {
    p0 + v0 * (k * h) + g * (h * h * k * (k + 1.0) / 2.0)
  }

  /** Velocity after n steps of size h under gravity g alone. */
  function FallVelocity(v0: Vec3, g: Vec3, h: real, n: nat): Vec3 {
    var k := n as real;
    Vec3(FallSpeed(v0.x, g.x, h, k), FallSpeed(v0.y, g.y, h, k), FallSpeed(v0.z, g.z, h, k))
  }

  /** Position after n steps of size h under gravity g alone. */
  function FallPosition(p0: Vec3, v0: Vec3, g: Vec3, h: real, n: nat): Vec3 {
    var k := n as real;
    Vec3(FallDistance(p0.x, v0.x, g.x, h, k), FallDistance(p0.y, v0.y, g.y, h, k),
         FallDistance(p0.z, v0.z, g.z, h, k))
  }

  /** Gravity alone over n steps of size h, from an empty force accumulator:
      the body follows FallVelocity and FallPosition exactly. */
  lemma {:induction false} GravityOnly(s: BodyState, g: Vec3, h: real, lib: MathLib, n: nat)
    requires s.mass > 0.0 && s.accumForce == Zero
    ensures StepN(s, g, h, lib, n).linVel == FallVelocity(s.linVel, g, h, n)
    ensures StepN(s, g, h, lib, n).frame.pos == FallPosition(s.frame.pos, s.linVel, g, h, n)
  {
    if n == 0 {
      assert FallVelocity(s.linVel, g, h, 0) == s.linVel;
      assert FallPosition(s.frame.pos, s.linVel, g, h, 0) == s.frame.pos;
    } else {
      var k := n - 1;
      GravityOnly(s, g, h, lib, k);
      GravityStep(s, g, h, lib, n);
      FallVelocityStep(s.linVel, g, h, k);
      FallPositionStep(s.frame.pos, s.linVel, g, h, k);
    }
  }

  /** Under gravity alone, the n-th step adds g*h to the velocity and then
      moves the position by the new velocity. */
  lemma GravityStep(s: BodyState, g: Vec3, h: real, lib: MathLib, n: nat)
    requires s.mass > 0.0 && s.accumForce == Zero && n >= 1
    ensures StepN(s, g, h, lib, n).linVel == Add(StepN(s, g, h, lib, n - 1).linVel, Scale(g, h))
    ensures StepN(s, g, h, lib, n).frame.pos
         == Add(StepN(s, g, h, lib, n - 1).frame.pos, Scale(StepN(s, g, h, lib, n).linVel, h))
  {
    var p := StepN(s, g, h, lib, n - 1);
    assert p.accumForce == Zero;
    assert DivScalar(Zero, p.mass) == Zero;
    assert Add(Zero, g) == g;
  }

  /** One more step of the velocity closed form. */
  lemma FallVelocityStep(v0: Vec3, g: Vec3, h: real, k: nat)
    ensures Add(FallVelocity(v0, g, h, k), Scale(g, h)) == FallVelocity(v0, g, h, k + 1)
  {
    var kr := k as real;
    assert (k + 1) as real == kr + 1.0;
    GravitySpeedStep(v0.x, g.x, h, kr);
    GravitySpeedStep(v0.y, g.y, h, kr);
    GravitySpeedStep(v0.z, g.z, h, kr);
  }

  /** One more step of the position closed form, moving by the new velocity. */
  lemma FallPositionStep(p0: Vec3, v0: Vec3, g: Vec3, h: real, k: nat)
    ensures Add(FallPosition(p0, v0, g, h, k), Scale(FallVelocity(v0, g, h, k + 1), h))
         == FallPosition(p0, v0, g, h, k + 1)
  {
    var kr := k as real;
    assert (k + 1) as real == kr + 1.0;
    GravityDistanceStep(p0.x, v0.x, g.x, h, kr);
    GravityDistanceStep(p0.y, v0.y, g.y, h, kr);
    GravityDistanceStep(p0.z, v0.z, g.z, h, kr);
  }

  lemma GravitySpeedStep(v0: real, g: real, h: real, k: real)
    ensures FallSpeed(v0, g, h, k) + g * h == FallSpeed(v0, g, h, k + 1.0)
  {
  }

  lemma GravityDistanceStep(p0: real, v0: real, g: real, h: real, k: real)
    ensures FallDistance(p0, v0, g, h, k) + FallSpeed(v0, g, h, k + 1.0) * h
         == FallDistance(p0, v0, g, h, k + 1.0)
  {
  }

  /** A torque acts for exactly one step: after n >= 1 steps the angular
      momentum has gained the accumulated torque times h once, and no more. */
  lemma {:induction false} TorqueActsOnce(s: BodyState, g: Vec3, h: real, lib: MathLib, n: nat)
    requires s.mass > 0.0 && n >= 1
    ensures StepN(s, g, h, lib, n).angMom == Add(s.angMom, Scale(s.accumTorque, h))
  {
    if n > 1 {
      TorqueActsOnce(s, g, h, lib, n - 1);
      var p := StepN(s, g, h, lib, n - 1);
      assert Add(p.angMom, Scale(Zero, h)) == p.angMom;
    }
  }
}
