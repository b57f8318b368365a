# Fixed-timestep rigid-body driver

This project models the physics core of the game client in Dafny. The core is
`server/public/scripts/game/sim.js`, and it has three parts:

- **`Sim`** is the driver. It keeps an append-only registry of rigid bodies
  and a second one of static collision objects. `tick` turns a variable frame
  delta into fixed steps of `timeStep`:
  - a delta that is not positive is ignored;
  - a larger delta is capped at 0.1 and added to an accumulator;
  - while a whole step fits in the accumulator, one step is taken out of it;
  - finally, each body caches a state interpolated at the fraction of a step
    that is left over (`alpha`).

  One `step` notifies subscribers, integrates every body and advances the
  clock. Integration is two passes: every body records its state, then every
  body ticks. `collidePoint` and `collideSphereList` query the static objects
  for contacts.
- **`ReferenceFrame`** is a position and an orientation. It caches the rotation
  matrix and its transpose, and it transforms vectors and points between local
  and world coordinates.
- **`RigidBody`** is a reference frame plus the following:
  - mass and principal moments, which `setMassCuboid` sets from a cuboid;
  - linear and angular velocity, and angular momentum;
  - force and torque accumulators, which the `add*` methods fill;
  - a snapshot that `recordState` takes and `getState` blends with the current
    state;
  - `tick`, a semi-implicit Euler step.

Layout:

- `geometry.dfy` (`Geometry`) has vectors, quaternions, 3x3 matrices and the
  host math library. Normalisation, the rotation matrix of a quaternion and the
  quaternion product are function-valued fields of a `MathLib` value.
- `frames.dfy` (`ReferenceFrames`) has the frame as a value, `updateMatrices`,
  and the four transforms with their round trips.
- `bodies.dfy` (`Bodies`) has the body state as a value. Each thing a body does
  is a function of that value, and the lemmas about those functions live here
  too: free fall in closed form, a torque acting for one step, the blend
  bounds, and the mass formula against the textbook cuboid moments.
- `contacts.dfy` (`Contacts`) has the contact lists of `collidePoint` and
  `collideSphereList` as functions, with their ordering and emptiness lemmas.
- `schedule.dfy` (`Schedule`) covers the rest of the driver's bookkeeping:
  - the delta cap;
  - the step count as a floor;
  - the order of calls within a step, recorded as a trace of events: the
    notification, then each `recordState`, then each `tick`.
- `sim.dfy` (`Simulation`) has `Sim` and `RigidBody` as classes whose methods
  update their fields in place. Each method is proved to produce the state
  that the matching function above describes. The driver's loops carry
  invariants over every registered body.

## Model

| member | source | states |
|---|---|---|
| Simulation.Sim.constructor | server/public/scripts/game/sim.js:22-30 | gravity is (0, 0, -9.81), both registries are empty, time, accumulator and alpha are zero, and the driver is valid |
| Simulation.Sim.Restart | server/public/scripts/game/sim.js:32-36 | time, accumulator and alpha become zero; with valid bodies, the driver is valid again |
| Simulation.Sim.AddObject | server/public/scripts/game/sim.js:38-40 | the body is appended to the registry and nothing else changes; the driver stays valid |
| Simulation.Sim.AddStaticObject | server/public/scripts/game/sim.js:42-44 | the static object is appended to its registry |
| Schedule.ClampDelta | server/public/scripts/game/sim.js:49-50 | the capped delta is at most 0.1 and at most the delta, and is one of the two, so it is min(delta, 0.1); it stays positive when the delta is |
| Simulation.Sim.InterpolatedTime | server/public/scripts/game/sim.js:73-75 | with the accumulator in [0, timeStep), as between frames, the interpolated clock lies in [time, time + timeStep); Tick states how it grows |
| Simulation.Sim.Tick | server/public/scripts/game/sim.js:46-65 | a delta <= 0 changes nothing: no clock field, no trace entry and no body state or cached interpolation; otherwise time + accumulator grows by exactly the capped delta; the steps taken are floor((old accumulator + capped delta) / timeStep); each body has gone through that many record-then-tick steps; afterwards the accumulator is in [0, timeStep), alpha = accumulator / timeStep is in [0, 1), and every body caches getState() |
| Simulation.Sim.Advance | server/public/scripts/game/sim.js:53-64 | for a positive capped delta: time + accumulator grows by exactly delta; the steps taken are floor((old accumulator + delta) / timeStep); time grows by that many timeSteps; the trace grows by that many steps' calls; every body is that many record-then-tick steps further on; every body caches getState(); and the driver invariant holds again |
| Simulation.Sim.Accumulate | server/public/scripts/game/sim.js:53 | the accumulator grows by delta, and no body moves |
| Simulation.Sim.CatchUp | server/public/scripts/game/sim.js:53-57 | the loop ends with the accumulator in [0, timeStep); accumulator + elapsed step time equals the old accumulator plus the delta; time grows by the steps taken; the trace grows by that many steps' calls; every body is that many steps further on, and no body's cached interpolation changes |
| Simulation.Sim.DrainAndStep | server/public/scripts/game/sim.js:55-56 | one timeStep leaves the accumulator, time grows by one timeStep, the trace grows by one step's calls, and every body goes through one record-then-tick step with its cached interpolation unchanged |
| Simulation.Sim.Settle | server/public/scripts/game/sim.js:58-64 | alpha is set from the remainder, the driver is valid, the step count is the floor of the total over timeStep, and every body caches its interpolated state without its state changing |
| Simulation.Sim.CacheInterpolated | server/public/scripts/game/sim.js:60-64 | every registered body's cached interpolation equals its getState(), and no body state changes |
| Schedule.StepCount | server/public/scripts/game/sim.js:54-59 | when an accumulated total is k steps plus a remainder below one step, k is the floor of total / timeStep |
| Schedule.FractionBelowOne | server/public/scripts/game/sim.js:59 | a remainder in [0, timeStep) gives alpha in [0, 1) |
| Schedule.DrainOneStep | server/public/scripts/game/sim.js:54-55 | while the loop runs, accumulator / timeStep is at least 1 and falls by exactly 1 per step, so the loop ends |
| Schedule.ElapsedIsProduct | server/public/scripts/game/sim.js:54-56 | k steps of timeStep add up to k * timeStep |
| Simulation.Sim.Step | server/public/scripts/game/sim.js:67-71 | the trace grows by the notification, then every body's record, then every body's tick; time grows by one timeStep; every body is one record-then-tick step further on; cached interpolations are untouched |
| Simulation.Sim.Log | server/public/scripts/game/sim.js:68 | the publish appends its events to the trace, and no body's state or cached interpolation changes |
| Simulation.Sim.AdvanceClock | server/public/scripts/game/sim.js:70 | time grows by one timeStep, and no body's state or cached interpolation changes |
| Schedule.StepOpensWithNotification | server/public/scripts/game/sim.js:67-71 | the notification is the first call of a step and is not made again in that step |
| Simulation.Sim.Integrate | server/public/scripts/game/sim.js:77-87 | every body's new state is its recorded state advanced by delta, and the calls are all records followed by all ticks |
| Simulation.Sim.RecordAll | server/public/scripts/game/sim.js:79-83 | every registered body records its state, in registry order, and nothing else in it changes |
| Simulation.Sim.RecordOne | server/public/scripts/game/sim.js:80-82 | the i-th body records its snapshot, and every other body and every cached interpolation is unchanged |
| Simulation.Sim.TickAll | server/public/scripts/game/sim.js:84-86 | every registered body advances by delta, in registry order |
| Simulation.Sim.TickOne | server/public/scripts/game/sim.js:85 | the i-th body advances by delta, and every other body and every cached interpolation is unchanged |
| Schedule.IntegrateOrder | server/public/scripts/game/sim.js:77-87 | in one integrate over n bodies, the first n calls are recordState on bodies 0..n-1 in order and the next n are tick on bodies 0..n-1 in order, so every record precedes every tick |
| Schedule.CallsOnce | server/public/scripts/game/sim.js:77-87 | one step calls recordState exactly once and tick exactly once on each registered body |
| Schedule.CallsPerObject | server/public/scripts/game/sim.js:54-86 | over k steps, each body is ticked exactly k times and records exactly k times |
| Schedule.StepsTraceLength | server/public/scripts/game/sim.js:54-86 | k steps over n bodies make k * (2n + 1) calls |
| Contacts.ContactsFrom | server/public/scripts/game/sim.js:93-101 | a static object contributes its contact, depth filled in, exactly when it has a point query, the query answers, and the depth (surfacePos - pt) . normal is positive; otherwise it contributes nothing |
| Contacts.PointContacts | server/public/scripts/game/sim.js:90-105 | there are no more contacts than static objects, and every contact has depth (surfacePos - pt) . normal > 0 |
| Simulation.Sim.CollidePoint | server/public/scripts/game/sim.js:90-105 | the loop returns exactly PointContacts over the static registry |
| Contacts.PointContactsAppend | server/public/scripts/game/sim.js:92-104 | registration order is kept: the contacts of two runs of objects are the first run's followed by the second's |
| Contacts.PointContactsEmpty | server/public/scripts/game/sim.js:90-105 | the result is empty if and only if no static object reports a positive depth |
| Contacts.PointContactsComplete | server/public/scripts/game/sim.js:92-104 | every penetrating object's contact is in the result, right after the contacts of the objects registered before it |
| Simulation.Sim.CollideSphereList | server/public/scripts/game/sim.js:108-125 | the result is the point-probe contacts, sphere by sphere, followed by the static objects' own sphere-list answers in registration order |
| Simulation.Sim.ProbeSpheres | server/public/scripts/game/sim.js:111-117 | each sphere is probed at its centre plus the bounding centre, lowered by the bounding radius and its own radius, and the collidePoint results are concatenated in list order |
| Simulation.Sim.QuerySphereList | server/public/scripts/game/sim.js:119-123 | the sphere-list answers of the static objects that have the query, concatenated in registration order |
| Contacts.ProbePoint | server/public/scripts/game/sim.js:111-115 | each sphere is probed straight below its centre, after the centre is shifted by the list's bounding centre, at a depth of the bounding radius plus the sphere's own radius |
| Contacts.ProbeContacts | server/public/scripts/game/sim.js:111-117 | the point probes give at most (number of spheres) * (number of static objects) contacts in total |
| Contacts.ProbeContactsAppend | server/public/scripts/game/sim.js:111-117 | sphere order is kept: the probe contacts of two runs of spheres are those of the first run followed by those of the second, and one sphere contributes exactly collidePoint at its probe point |
| Contacts.BatchContacts | server/public/scripts/game/sim.js:119-123 | when no static object has its own sphere-list query, the batch part is empty |
| Contacts.BatchContactsAppend | server/public/scripts/game/sim.js:119-123 | registration order is kept: the batch contacts of two runs of static objects are those of the first run followed by those of the second, and one object contributes exactly its own query's answer, or nothing when it has no query |
| Contacts.ProbeContactsPenetrate | server/public/scripts/game/sim.js:113-117 | every contact from a point probe penetrates |
| Contacts.NoBatchQueries | server/public/scripts/game/sim.js:108-125 | with no static object offering a sphere-list query, the batch part is empty and every contact of collideSphereList penetrates |
| ReferenceFrames.UpdateMatrices | server/public/scripts/game/sim.js:138-142 | the position is kept, the orientation is normalised, the matrix is the rotation of the normalised orientation, and the inverse is its transpose |
| ReferenceFrames.LocalToWorldVector | server/public/scripts/game/sim.js:146-150 | in a consistent frame the vector is rotated without being stretched: its length is kept |
| ReferenceFrames.WorldToLocalVector | server/public/scripts/game/sim.js:152-156 | in a consistent frame the inverse rotation keeps the vector's length too |
| ReferenceFrames.LocalToWorldPoint | server/public/scripts/game/sim.js:158-163 | in a consistent frame a local point lands as far from the frame's position as it was from the local origin |
| ReferenceFrames.WorldToLocalPoint | server/public/scripts/game/sim.js:165-169 | in a consistent frame a world point's distance from the frame's position becomes its distance from the local origin |
| ReferenceFrames.InitialFrameConsistent | server/public/scripts/game/sim.js:127-136 | a new frame's identity matrices form a rotation and its inverse |
| ReferenceFrames.UpdateMatricesConsistent | server/public/scripts/game/sim.js:138-142 | when the host's rotation matrix is orthogonal, the cached inverse really inverts it |
| ReferenceFrames.VectorRoundTrip | server/public/scripts/game/sim.js:146-156 | local-to-world and world-to-local vector transforms undo each other, in both orders |
| ReferenceFrames.PointRoundTrip | server/public/scripts/game/sim.js:158-169 | local-to-world and world-to-local point transforms undo each other, in both orders |
| Simulation.RigidBody.constructor | server/public/scripts/game/sim.js:171-198 | the new body is a unit cuboid of mass 1 at rest at the origin, its snapshot is its state, it has no cached interpolation, and it is appended to the driver's registry, which stays valid |
| Bodies.InitialBodyIsUnitCuboid | server/public/scripts/game/sim.js:177-197 | the constructor's state is what setMassCuboid(1, (1, 1, 1)) and then recordState make of a blank body; its mass properties are valid and its snapshot is its current state |
| Simulation.RigidBody.RecordState | server/public/scripts/game/sim.js:201-207 | the snapshot becomes the current position, orientation, linear and angular velocity, and nothing else changes |
| Bodies.Recorded | server/public/scripts/game/sim.js:201-207 | the snapshot equals the current kinematics, which are unchanged, and only the snapshot differs from the old state |
| Simulation.RigidBody.GetState | server/public/scripts/game/sim.js:209-230 | the result is the snapshot at alpha = 0 and the current state at alpha = 1; for alpha in [0, 1], position and both velocities lie coordinate by coordinate between the snapshot's and the current ones |
| Bodies.Blend | server/public/scripts/game/sim.js:211-229 | the blend gives a at fraction 0 and b at fraction 1, and a when a and b agree |
| Bodies.BlendBetween | server/public/scripts/game/sim.js:211-229 | for alpha in [0, 1], every blended coordinate of position, orientation and both velocities lies between the snapshot's and the current one |
| Bodies.Interpolated | server/public/scripts/game/sim.js:209-230 | the blend is the recorded snapshot at fraction 0 and the current state at 1; a body that has not moved since recording reports its current state at every fraction |
| Bodies.InterpolationSpansStep | server/public/scripts/game/sim.js:209-230 | right after a step, getState runs from the state before the step (alpha 0) to the state after it (alpha 1) |
| Simulation.RigidBody.SetMassCuboid | server/public/scripts/game/sim.js:232-252 | the new state is WithMassCuboid of the old one, and the mass properties are valid afterwards if they were before or the input was accepted |
| Bodies.WithMassCuboid | server/public/scripts/game/sim.js:232-252 | a mass or half-extent that is not positive leaves the state unchanged; otherwise only the mass, the moments and their reciprocals change, the moments are positive, and the inverse is their reciprocal |
| Bodies.CuboidAngMass | server/public/scripts/game/sim.js:240-247 | the stored moments are 1.5 times the textbook principal moments of a solid cuboid with those half-extents |
| Bodies.CuboidAngMassPositive | server/public/scripts/game/sim.js:233-247 | accepted input always gives positive moments, so the reciprocals are defined |
| Bodies.Reciprocal | server/public/scripts/game/sim.js:249-251 | each component times the original component is 1, and all components stay positive |
| Simulation.RigidBody.AddForce | server/public/scripts/game/sim.js:258-260 | the force is added to the force accumulator and nothing else changes |
| Simulation.RigidBody.AddLocForce | server/public/scripts/game/sim.js:262-264 | the force, taken to world axes, is added to the force accumulator |
| Simulation.RigidBody.AddForceAtPoint | server/public/scripts/game/sim.js:266-271 | the force is added, and so is the torque cross(pt - pos, frc) |
| Simulation.RigidBody.AddLocForceAtPoint | server/public/scripts/game/sim.js:273-275 | as AddForceAtPoint, with the force taken to world axes |
| Simulation.RigidBody.AddForceAtLocPoint | server/public/scripts/game/sim.js:277-279 | as AddForceAtPoint, with the point taken to world coordinates |
| Simulation.RigidBody.AddLocForceAtLocPoint | server/public/scripts/game/sim.js:281-284 | as AddForceAtPoint, with both force and point taken to world |
| Simulation.RigidBody.AddTorque | server/public/scripts/game/sim.js:286-288 | the torque is added to the torque accumulator and nothing else changes |
| Simulation.RigidBody.AddLocTorque | server/public/scripts/game/sim.js:290-292 | the torque, taken to world axes, is added to the torque accumulator |
| Bodies.WithForce | server/public/scripts/game/sim.js:258-260 | the force accumulator grows by the force, and nothing else in the body changes |
| Bodies.WithTorque | server/public/scripts/game/sim.js:286-288 | the torque accumulator grows by the torque, and nothing else in the body changes |
| Bodies.AccumulationOrderFree | server/public/scripts/game/sim.js:258-288 | two forces, or two torques, applied in either order act as their sum |
| Bodies.TorqueAbout | server/public/scripts/game/sim.js:268-269 | the torque of a force about the body's position is perpendicular to the force and to the lever arm |
| Bodies.WithForceAtPoint | server/public/scripts/game/sim.js:266-271 | the force accumulator grows by the force, the torque accumulator by the torque about the body's position, and nothing else changes |
| Bodies.ForceAtPointTorque | server/public/scripts/game/sim.js:266-271 | a force applied at any point on the line through the body's position along the force adds no torque, so it acts as a plain addForce |
| Simulation.RigidBody.GetLinearVelAtPoint | server/public/scripts/game/sim.js:294-299 | at the body's position the point velocity is the linear velocity; the velocity at pt is the velocity at any point p plus angVel x (pt - p), which with p the position fixes it as linVel + angVel x (pt - pos); its rotational part is perpendicular to the lever arm |
| Bodies.LinearVelAtPoint | server/public/scripts/game/sim.js:294-299 | a body that does not spin gives every point its linear velocity, and the spin never adds velocity along the spin axis |
| Bodies.LinearVelAtPointRigid | server/public/scripts/game/sim.js:294-299 | at the body's position the point velocity is the linear velocity, and the rotational part never moves a point towards or away from the position |
| Bodies.LinearVelTransport | server/public/scripts/game/sim.js:294-299 | the velocity field of a rigid body: the velocity at q is the velocity at p plus angVel x (q - p), for every p and q |
| Simulation.RigidBody.Tick | server/public/scripts/game/sim.js:301-342 | the new state is Advanced of the old one under the driver's gravity, and the mass properties stay valid |
| Bodies.Advanced | server/public/scripts/game/sim.js:301-342 | semi-implicit Euler: the velocity gains (force / mass + gravity) * delta first, and the position moves by the new velocity; angular momentum gains torque * delta; angular velocity is derived from it through the moments in body axes; the orientation gains the spin multiply((angVel * delta / 2, 0), ori), computed from the new angular velocity and the old orientation, and is then normalised; the matrix is rebuilt from the new orientation and the inverse is its transpose; both accumulators are zero afterwards; mass properties and the snapshot are untouched |
| Bodies.AngVelFromMomentum | server/public/scripts/game/sim.js:318-322 | in a consistent frame, a body with equal principal moments spins about the axis of its angular momentum, at the momentum scaled by the inverse moment |
| Bodies.SpinDependsOnRotation | server/public/scripts/game/sim.js:324-329 | the spin depends on angVel and delta only through their product: spinning at angVel for delta is spinning at angVel * delta for one time unit |
| Bodies.Stepped | server/public/scripts/game/sim.js:79-86 | after record-then-tick, the snapshot is the state before the step, and valid mass properties stay valid |
| Bodies.StepN | server/public/scripts/game/sim.js:54-57 | n steps keep the mass properties, and after at least one step both accumulators are zero |
| Bodies.CoastingStep | server/public/scripts/game/sim.js:304-316 | with no force, torque or gravity the velocity and angular momentum are kept and the position moves by velocity times delta |
| Bodies.GravityStep | server/public/scripts/game/sim.js:305-310 | starting from an empty force accumulator, every step adds gravity * h to the velocity and then moves the position by the new velocity |
| Bodies.GravityOnly | server/public/scripts/game/sim.js:305-310 | under gravity alone, after n steps of h the velocity is v0 + g n h and the position is p0 + v0 n h + g h^2 n (n + 1) / 2 per coordinate |
| Bodies.TorqueActsOnce | server/public/scripts/game/sim.js:316-341 | after n >= 1 steps the angular momentum has gained the accumulated torque times h exactly once, because the accumulator is cleared after the first step |

## Left out

- The host math library's numerics: `normalize`, `setRotationFromQuaternion` and `Quaternion.multiply` are function-valued parameters (`Geometry.MathLib`). The frame round trips therefore assume that the host's rotation matrix is orthogonal. That the orientation stays unit length after the additive quaternion update is not modelled.
- Floating point: every quantity is a `real`, so rounding is not modelled.
- The publish/subscribe hub: `step`'s publish is recorded as the `Published` event of a ghost trace. Subscribers and their effects are outside the model.
- Shared scratch vectors: `getLinearVelAtPoint` returns a module-level temporary that the next call overwrites. `accumTorque` is scaled in place before it is cleared. Values are returned fresh here, so aliasing is not modelled.
- `collidePoint` writes the depth into the contact object returned by the static object's query, even when the contact is then rejected. Queries are pure functions here, so that write-back to the caller's object is not modelled.
- `typeof ... === 'function'` guards in `tick` and `integrate`: the source accepts any object in its registry, and skips `getState` and `recordState` on objects that lack them. The model registers only `RigidBody` objects, which always have both, so the skip branches are not modelled.
- `GetLinearVel` (`server/public/scripts/game/sim.js:254-256`) is modelled as `Simulation.RigidBody.GetLinearVel`. It has no row, because a plain getter has nothing to state.
- Simulation.Sim.constructor: requires `timeStep > 0`. With `timeStep` of zero or less, `tick`'s loop never ends for a positive delta, and the source does not check.
- Simulation.Sim.AddObject: requires a valid body, owned by this driver and not yet registered. Its only caller in `sim.js`, the `RigidBody` constructor, guarantees all three; the source accepts any value.
- Simulation.RigidBody.constructor: assigns the unit-cuboid mass properties directly and registers the body last, while the source registers first and then calls `setMassCuboid`. `Bodies.InitialBodyIsUnitCuboid` proves that the resulting state is the same, and nothing can observe the order in between.
- Simulation.Sim.Tick: the loops of `tick` and `integrate` are split into helper methods (`CatchUp`, `Settle`, `CacheInterpolated`, `RecordAll`, `TickAll`), each with its own loop. The number of steps is a ghost out-parameter, so that it can be stated.
- Bodies.Spin: the quaternion product is the host library's `multiply`, so nothing is stated about the spin's value beyond the pure quaternion it is built from. `Bodies.SpinDependsOnRotation` and the `Bodies.Advanced` row state how it enters the update.
- Contacts.BatchContacts: the answers of static objects' own `collideSphereList` queries are taken as given. Their geometry is outside the driver.
