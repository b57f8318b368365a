/** The simulation driver and its rigid bodies, as objects that change in
    place. Sim keeps a registry of bodies and one of static collision
    objects, turns variable frame deltas into fixed steps, and caches an
    interpolated state on every body after each frame. RigidBody holds a
    reference frame, mass properties, velocities, force and torque
    accumulators and a snapshot of its previous state.

    Every state change is specified by the value-level function in Bodies,
    Schedule or Contacts that it performs, so the properties proved there
    carry over to these objects. */
module Simulation {
  import opened Options
  import opened Geometry
  import opened ReferenceFrames
  import opened Bodies
  import opened Contacts
  import opened Schedule

  /** No body is registered twice: each body registers itself once, from
      its constructor. */
  predicate Distinct(bodies: seq<RigidBody>) {
    forall i, j :: 0 <= i < j < |bodies| ==> bodies[i] != bodies[j]
  }

  class Sim {
    var gravity: Vec3
    var objects: seq<RigidBody>
    var staticObjects: seq<StaticObject>
    const timeStep: real
    const lib: MathLib
    var time: real
    var timeAccumulator: real
    var alpha: real
    /** The calls the driver has made into subscribers and bodies. */
    ghost var trace: seq<Event>

    /** Every registered body is valid, belongs to this driver, and is
        registered once. */
    ghost predicate BodiesValid()
      reads this, objects
    {
      && Distinct(objects)
      && forall i :: 0 <= i < |objects| ==> objects[i].Valid() && objects[i].sim == this
    }

    /** Between frames less than one step of time is left over, and alpha is
        that remainder as a fraction of a step. */
    ghost predicate Valid()
      reads this, objects
    {
      timeStep > 0.0
      && 0.0 <= timeAccumulator < timeStep
      && alpha == timeAccumulator / timeStep
      && 0.0 <= alpha < 1.0
      && BodiesValid()
    }

    /** A driver with standard gravity, no objects, and the clock at zero. */
    constructor (timeStep: real, lib: MathLib)
      requires timeStep > 0.0
      ensures Valid()
      ensures this.timeStep == timeStep && this.lib == lib
      ensures gravity == Vec3(0.0, 0.0, -9.81)
      ensures objects == [] && staticObjects == []
      ensures time == 0.0 && timeAccumulator == 0.0 && alpha == 0.0
      ensures trace == []
    {
      gravity := Vec3(0.0, 0.0, -9.81);
      objects := [];
      staticObjects := [];
      this.timeStep := timeStep;
      this.lib := lib;
      trace := [];
      new;
      Restart();
    }

    /** Resets the clock, the accumulator and the interpolation fraction. */
    method Restart()
      modifies this`time, this`timeAccumulator, this`alpha
      ensures time == 0.0 && timeAccumulator == 0.0 && alpha == 0.0
      ensures timeStep > 0.0 && BodiesValid() ==> Valid()
    {
      time := 0.0;
      timeAccumulator := 0.0;
      alpha := 0.0;
    }

    method AddObject(obj: RigidBody)
      requires Valid() && obj.Valid() && obj.sim == this && obj !in objects
      modifies this`objects
      ensures objects == old(objects) + [obj]
      ensures Valid()
    {
      objects := objects + [obj];
    }

    method AddStaticObject(obj: StaticObject)
      modifies this`staticObjects
      ensures staticObjects == old(staticObjects) + [obj]
    {
      staticObjects := staticObjects + [obj];
    }

    /** The clock including the time not yet stepped; between frames it lies
        within the step that time starts. */
    function InterpolatedTime(): (t: real)
      reads this
      ensures 0.0 <= timeAccumulator < timeStep ==> time <= t < time + timeStep
    {
      time + timeAccumulator
    }

    /** Advances the simulation by a frame delta: nothing for a delta that is
        not positive, otherwise as many fixed steps as the accumulated time
        holds, with the delta capped at MaxDelta, then caches every body's
        interpolated state. */
    method Tick(delta: real) returns (ghost steps: nat)
      requires Valid()
      modifies this`time, this`timeAccumulator, this`alpha, this`trace, objects
      ensures Valid()
      // time never runs backwards: a delta that is not positive changes nothing
      ensures delta <= 0.0 ==>
        steps == 0 && time == old(time) && timeAccumulator == old(timeAccumulator)
        && alpha == old(alpha) && trace == old(trace)
      ensures delta <= 0.0 ==> forall i :: 0 <= i < |objects| ==>
        objects[i].State() == old(objects[i].State()) && objects[i].interp == old(objects[i].interp)
      // the interpolated clock advances by exactly the capped delta
      ensures delta > 0.0 ==> InterpolatedTime() == old(InterpolatedTime()) + ClampDelta(delta)
      // the number of steps is the number of whole steps in the accumulated time
      ensures delta > 0.0 ==> steps == ((old(timeAccumulator) + ClampDelta(delta)) / timeStep).Floor
      ensures time == old(time) + Elapsed(steps, timeStep)
      ensures trace == old(trace) + StepsTrace(|objects|, steps)
      ensures forall i :: 0 <= i < |objects| ==>
        objects[i].State()
          == StepN(old(objects[i].State()), gravity, timeStep, lib, steps)
      ensures delta > 0.0 ==> forall i :: 0 <= i < |objects| ==>
        objects[i].interp == Some(objects[i].GetState())
    {
      steps := 0;
      if delta <= 0.0 {
        return;
      }
      var d := if delta > MaxDelta then MaxDelta else delta;
      steps := Advance(d);
    }

    /** Tick for a positive, capped delta d: accumulate it, take the whole
        steps it completes, and cache the interpolated states. */
    method Advance(d: real) returns (ghost steps: nat)
      requires Valid() && d > 0.0
      modifies this`time, this`timeAccumulator, this`alpha, this`trace, objects
      ensures Valid()
      ensures InterpolatedTime() == old(InterpolatedTime()) + d
      ensures steps == ((old(timeAccumulator) + d) / timeStep).Floor
      ensures time == old(time) + Elapsed(steps, timeStep)
      ensures trace == old(trace) + StepsTrace(|objects|, steps)
      ensures forall i :: 0 <= i < |objects| ==>
        objects[i].State()
          == StepN(old(objects[i].State()), gravity, timeStep, lib, steps)
      ensures forall i :: 0 <= i < |objects| ==>
        objects[i].interp == Some(objects[i].GetState())
    {
      steps := CatchUp(d);
      Settle(old(timeAccumulator) + d, steps);
    }

    /** The body of CatchUp's loop: one step's worth of time leaves the
        accumulator, then one fixed step is taken. */
    method DrainAndStep()
      requires BodiesValid()
      modifies this`time, this`timeAccumulator, this`trace, objects
      ensures BodiesValid()
      ensures timeAccumulator == old(timeAccumulator) - timeStep
      ensures time == old(time) + timeStep
      ensures trace == old(trace) + StepTrace(|objects|)
      ensures forall i :: 0 <= i < |objects| ==>
        objects[i].State() == Stepped(old(objects[i].State()), gravity, timeStep, lib)
        && objects[i].interp == old(objects[i].interp)
    {
      timeAccumulator := timeAccumulator - timeStep;
      Step();
    }

    /** Adds a frame delta to the accumulator; no body is touched. */
    method Accumulate(d: real)
      modifies this`timeAccumulator
      ensures timeAccumulator == old(timeAccumulator) + d
      ensures forall i :: 0 <= i < |objects| ==> objects[i].State() == old(objects[i].State())
    {
      timeAccumulator := timeAccumulator + d;
    }

    /** The end of Tick: alpha becomes the leftover time as a fraction of a
        step, and every body caches its interpolated state. */
    method Settle(ghost total: real, ghost steps: nat)
      requires timeStep > 0.0 && 0.0 <= timeAccumulator < timeStep && BodiesValid()
      requires total == Elapsed(steps, timeStep) + timeAccumulator
      modifies this`alpha, objects
      ensures Valid()
      ensures steps == (total / timeStep).Floor
      ensures forall i :: 0 <= i < |objects| ==>
        objects[i].State() == old(objects[i].State()) && objects[i].interp == Some(objects[i].GetState())
    {
      StepCount(total, timeStep, steps, timeAccumulator);
      FractionBelowOne(timeAccumulator, timeStep);
      alpha := timeAccumulator / timeStep;
      CacheInterpolated();
    }

    /** The loop of Tick: add d to the accumulator, then take fixed steps
        while a whole step of time is accumulated. */
    method CatchUp(d: real) returns (ghost steps: nat)
      requires timeStep > 0.0 && 0.0 <= timeAccumulator && d > 0.0 && BodiesValid()
      modifies this`time, this`timeAccumulator, this`trace, objects
      ensures BodiesValid()
      ensures 0.0 <= timeAccumulator < timeStep
      ensures timeAccumulator + Elapsed(steps, timeStep) == old(timeAccumulator) + d
      ensures time == old(time) + Elapsed(steps, timeStep)
      ensures trace == old(trace) + StepsTrace(|objects|, steps)
      ensures forall i :: 0 <= i < |objects| ==>
        objects[i].State()
          == StepN(old(objects[i].State()), gravity, timeStep, lib, steps)
        && objects[i].interp == old(objects[i].interp)
    {
      Accumulate(d);
      steps := 0;
      var ts := timeStep;
      while timeAccumulator >= ts
        invariant 0.0 <= timeAccumulator
        invariant timeAccumulator + Elapsed(steps, ts) == old(timeAccumulator) + d
        invariant time == old(time) + Elapsed(steps, ts)
        invariant trace == old(trace) + StepsTrace(|objects|, steps)
        invariant BodiesValid()
        invariant forall i :: 0 <= i < |objects| ==>
          objects[i].State()
            == StepN(old(objects[i].State()), gravity, ts, lib, steps)
          && objects[i].interp == old(objects[i].interp)
        decreases timeAccumulator / ts
      {
        DrainOneStep(timeAccumulator, ts);
        DrainAndStep();
        steps := steps + 1;
      }
    }

    /** The last part of Tick: every body caches the state GetState reports. */
    method CacheInterpolated()
      requires BodiesValid()
      modifies objects
      ensures BodiesValid()
      ensures forall i :: 0 <= i < |objects| ==>
        objects[i].State() == old(objects[i].State()) && objects[i].interp == Some(objects[i].GetState())
    {
      var i := 0;
      while i < |objects|
        invariant 0 <= i <= |objects|
        invariant BodiesValid()
        invariant forall j :: 0 <= j < |objects| ==>
          objects[j].State() == old(objects[j].State())
          && (j < i ==> objects[j].interp == Some(objects[j].GetState()))
      {
        var body := objects[i];
        body.interp := Some(body.GetState());
        i := i + 1;
      }
    }

    /** One fixed step: notify subscribers, integrate every object over one
        time step, advance the clock. */
    method Step()
      requires BodiesValid()
      modifies this`time, this`trace, objects
      ensures BodiesValid()
      ensures time == old(time) + timeStep
      ensures trace == old(trace) + StepTrace(|objects|)
      ensures forall i :: 0 <= i < |objects| ==> objects[i].interp == old(objects[i].interp)
      ensures forall i :: 0 <= i < |objects| ==>
        objects[i].State()
          == Stepped(old(objects[i].State()), gravity, timeStep, lib)
    {
      Log([Published]);
      Integrate(timeStep);
      AdvanceClock();
    }

    /** Appends to the record of calls; no body is touched. */
    ghost method Log(events: seq<Event>)
      modifies this`trace
      ensures trace == old(trace) + events
      ensures old(BodiesValid()) ==> BodiesValid()
      ensures forall i :: 0 <= i < |objects| ==>
        objects[i].State() == old(objects[i].State()) && objects[i].interp == old(objects[i].interp)
    {
      trace := trace + events;
    }

    /** The clock moves on by one step; no body is touched. */
    method AdvanceClock()
      modifies this`time
      ensures time == old(time) + timeStep
      ensures old(BodiesValid()) ==> BodiesValid()
      ensures forall i :: 0 <= i < |objects| ==>
        objects[i].State() == old(objects[i].State()) && objects[i].interp == old(objects[i].interp)
    {
      time := time + timeStep;
    }

    /** Every object records its state, then every object ticks. */
    method Integrate(delta: real)
      requires BodiesValid()
      modifies this`trace, objects
      ensures BodiesValid()
      ensures trace == old(trace) + IntegrateTrace(|objects|)
      ensures forall i :: 0 <= i < |objects| ==> objects[i].interp == old(objects[i].interp)
      ensures forall i :: 0 <= i < |objects| ==>
        objects[i].State()
          == Stepped(old(objects[i].State()), gravity, delta, lib)
    {
      RecordAll();
      TickAll(delta);
    }

    /** The first pass of Integrate: each registered body records its state. */
    method RecordAll()
      requires BodiesValid()
      modifies this`trace, objects
      ensures BodiesValid()
      ensures trace == old(trace) + RecordCalls(|objects|)
      ensures forall i :: 0 <= i < |objects| ==> objects[i].interp == old(objects[i].interp)
      ensures forall i :: 0 <= i < |objects| ==> objects[i].State() == Recorded(old(objects[i].State()))
    {
      var i := 0;
      ghost var calls: seq<Event> := [];
      while i < |objects|
        invariant 0 <= i <= |objects|
        invariant BodiesValid()
        invariant calls == RecordCalls(i) && trace == old(trace)
        invariant forall j :: 0 <= j < |objects| ==>
          objects[j].interp == old(objects[j].interp)
          && objects[j].State() == if j < i then Recorded(old(objects[j].State())) else old(objects[j].State())
      {
        RecordOne(i);
        calls := calls + [RecordCall(i)];
        i := i + 1;
      }
      Log(calls);
    }

    /** The body of RecordAll's loop: the i-th body records, the others stay. */
    method RecordOne(i: nat)
      requires BodiesValid() && i < |objects|
      modifies objects[i]
      ensures BodiesValid()
      ensures objects[i].State() == Recorded(old(objects[i].State()))
      ensures forall j :: 0 <= j < |objects| && j != i ==> objects[j].State() == old(objects[j].State())
      ensures forall j :: 0 <= j < |objects| ==> objects[j].interp == old(objects[j].interp)
    {
      objects[i].RecordState();
    }

    /** The second pass of Integrate: each registered body advances by delta. */
    method TickAll(delta: real)
      requires BodiesValid()
      modifies this`trace, objects
      ensures BodiesValid()
      ensures trace == old(trace) + TickCalls(|objects|)
      ensures forall i :: 0 <= i < |objects| ==> objects[i].interp == old(objects[i].interp)
      ensures forall i :: 0 <= i < |objects| ==>
        objects[i].State()
          == Advanced(old(objects[i].State()), gravity, delta, lib)
    {
      var i := 0;
      ghost var calls: seq<Event> := [];
      while i < |objects|
        invariant 0 <= i <= |objects|
        invariant BodiesValid()
        invariant calls == TickCalls(i) && trace == old(trace)
        invariant forall j :: 0 <= j < |objects| ==>
          objects[j].interp == old(objects[j].interp)
          && objects[j].State()
             == if j < i then Advanced(old(objects[j].State()), gravity, delta, lib) else old(objects[j].State())
      {
        TickOne(i, delta);
        calls := calls + [TickCall(i)];
        i := i + 1;
      }
      Log(calls);
    }

    /** The body of TickAll's loop: the i-th body advances, the others stay. */
    method TickOne(i: nat, delta: real)
      requires BodiesValid() && i < |objects|
      modifies objects[i]
      ensures BodiesValid()
      ensures objects[i].State() == Advanced(old(objects[i].State()), gravity, delta, lib)
      ensures forall j :: 0 <= j < |objects| && j != i ==> objects[j].State() == old(objects[j].State())
      ensures forall j :: 0 <= j < |objects| ==> objects[j].interp == old(objects[j].interp)
    {
      objects[i].Tick(delta);
    }

    /** The contacts of a point with the static objects, in registration order. */
    method CollidePoint(pt: Vec3) returns (contacts: seq<Contact>)
      ensures contacts == PointContacts(staticObjects, pt)
    {
      contacts := [];
      var i := 0;
      while i < |staticObjects|
        invariant 0 <= i <= |staticObjects|
        invariant contacts == PointContacts(staticObjects[..i], pt)
      {
        var obj := staticObjects[i];
        if obj.getContact.Some? {
          var found := obj.getContact.value(pt);
          if found.Some? {
            var contact := found.value;
            contact := contact.(depth := Dot(Sub(contact.surfacePos, pt), contact.normal));
            if contact.depth > 0.0 {
              contacts := contacts + [contact];
            }
          }
        }
        assert staticObjects[..i + 1][..i] == staticObjects[..i];
        i := i + 1;
      }
      assert staticObjects[..i] == staticObjects;
    }

    /** The contacts of a sphere list: a point probe under each sphere first,
        then the static objects' own sphere-list queries. */
    method CollideSphereList(list: SphereList) returns (contacts: seq<Contact>)
      ensures contacts == ProbeContacts(staticObjects, list, list.points) + BatchContacts(staticObjects, list)
    {
      var probed := ProbeSpheres(list);
      var batched := QuerySphereList(list);
      contacts := probed + batched;
    }

    /** The first loop of CollideSphereList: collidePoint under each sphere. */
    method ProbeSpheres(list: SphereList) returns (probed: seq<Contact>)
      ensures probed == ProbeContacts(staticObjects, list, list.points)
    {
      var offset := Add(Vec3(0.0, 0.0, -list.radius), list.center);
      probed := [];
      var i := 0;
      while i < |list.points|
        invariant 0 <= i <= |list.points|
        invariant probed == ProbeContacts(staticObjects, list, list.points[..i])
      {
        var point := list.points[i];
        var probe := Add(point.pos, offset);
        probe := probe.(z := probe.z - point.radius);
        assert probe == ProbePoint(list, point);
        var found := CollidePoint(probe);
        ghost var prefix := list.points[..i + 1];
        assert prefix[..i] == list.points[..i] && prefix[i] == point;
        assert ProbeContacts(staticObjects, list, prefix)
          == ProbeContacts(staticObjects, list, list.points[..i]) + found;
        probed := probed + found;
        i := i + 1;
      }
      assert list.points[..i] == list.points;
    }

    /** The second loop of CollideSphereList: the static objects' own
        sphere-list queries, in registration order. */
    method QuerySphereList(list: SphereList) returns (batched: seq<Contact>)
      ensures batched == BatchContacts(staticObjects, list)
    {
      batched := [];
      var i := 0;
      while i < |staticObjects|
        invariant 0 <= i <= |staticObjects|
        invariant batched == BatchContacts(staticObjects[..i], list)
      {
        var obj := staticObjects[i];
        if obj.collideSphereList.Some? {
          batched := batched + obj.collideSphereList.value(list);
        }
        assert staticObjects[..i + 1][..i] == staticObjects[..i];
        i := i + 1;
      }
      assert staticObjects[..i] == staticObjects;
    }
  }

  class RigidBody {
    const sim: Sim
    var frame: Frame
    var mass: real
    var angMass: Vec3
    var angMassInv: Vec3
    var linVel: Vec3
    var angVel: Vec3
    var angMom: Vec3
    var accumForce: Vec3
    var accumTorque: Vec3
    /** The state recorded by RecordState (the source's `old`). */
    var snapshot: Kinematics
    /** The interpolated state Sim.Tick caches; absent before the first tick. */
    var interp: Option<Kinematics>

    /** The body's fields as one value. */
    function State(): BodyState
      reads this
    {
      BodyState(frame, mass, angMass, angMassInv, linVel, angVel, angMom, accumForce, accumTorque, snapshot)
    }

    ghost predicate Valid()
      reads this
    {
      MassValid(State())
    }

    /** A unit cuboid of mass 1 at rest at the origin, registered with sim.
        The mass properties are assigned as setMassCuboid(1, (1, 1, 1))
        computes them (Bodies.InitialBodyIsUnitCuboid), and the body is
        registered once they are set, so that the registry only ever holds
        bodies with valid mass; nothing can observe the order in between. */
    constructor (sim: Sim)
      requires sim.Valid()
      modifies sim`objects
      ensures this.sim == sim
      ensures State() == InitialBody && interp == None
      ensures sim.objects == old(sim.objects) + [this]
      ensures Valid() && sim.Valid()
    {
      this.sim := sim;
      frame := InitialFrame;
      mass := 1.0;
      angMass := Vec3(1.0, 1.0, 1.0);
      angMassInv := Vec3(1.0, 1.0, 1.0);
      linVel := Zero;
      angVel := Zero;
      angMom := Zero;
      accumForce := Zero;
      accumTorque := Zero;
      snapshot := RestKinematics;
      interp := None;
      new;
      RecordState();
      UnitReciprocal();
      sim.AddObject(this);
    }

    method RecordState()
      modifies this`snapshot
      ensures State() == Recorded(old(State()))
    {
      snapshot := Kinematics(frame.pos, frame.ori, linVel, angVel);
    }

    /** The state between the snapshot and the current state at the driver's
        interpolation fraction. */
    function GetState(): (k: Kinematics)
      reads this, sim
      ensures sim.alpha == 0.0 ==> k == snapshot
      ensures sim.alpha == 1.0 ==> k == Current(State())
      ensures k == Interpolated(State(), sim.alpha)
      ensures 0.0 <= sim.alpha <= 1.0 ==>
        BetweenVec(snapshot.pos, frame.pos, k.pos) && BetweenVec(snapshot.linVel, linVel, k.linVel)
        && BetweenVec(snapshot.angVel, angVel, k.angVel)
    {
      if 0.0 <= sim.alpha <= 1.0 then
        BlendBetween(snapshot, Current(State()), sim.alpha);
        Interpolated(State(), sim.alpha)
      else
        Interpolated(State(), sim.alpha)
    }

    /** Mass and moments of a solid cuboid with the given half extents; a
        mass or half extent that is not positive leaves the body as it is. */
    method SetMassCuboid(mass: real, halfExtents: Vec3)
      modifies this`mass, this`angMass, this`angMassInv
      ensures State() == WithMassCuboid(old(State()), mass, halfExtents)
      ensures old(Valid()) || CuboidAccepted(mass, halfExtents) ==> Valid()
    {
      if mass <= 0.0 || halfExtents.x <= 0.0 || halfExtents.y <= 0.0 || halfExtents.z <= 0.0 {
        return;
      }
      this.mass := mass;
      var fudgedMass := mass * 1.5;
      var mx := Sq(halfExtents.x) * fudgedMass / 3.0;
      var my := Sq(halfExtents.y) * fudgedMass / 3.0;
      var mz := Sq(halfExtents.z) * fudgedMass / 3.0;
      angMass := Vec3(my + mz, mz + mx, mx + my);
      CuboidAngMassPositive(mass, halfExtents);
      angMassInv := Vec3(1.0 / angMass.x, 1.0 / angMass.y, 1.0 / angMass.z);
    }

    function GetLinearVel(): Vec3
      reads this
    {
      linVel
    }

    method AddForce(frc: Vec3)
      modifies this`accumForce
      ensures State() == WithForce(old(State()), frc)
    {
      accumForce := Add(accumForce, frc);
    }

    method AddLocForce(frc: Vec3)
      modifies this`accumForce
      ensures State() == WithForce(old(State()), LocalToWorldVector(frame, frc))
    {
      AddForce(LocalToWorldVector(frame, frc));
    }

    method AddForceAtPoint(frc: Vec3, pt: Vec3)
      modifies this`accumForce, this`accumTorque
      ensures State() == WithForceAtPoint(old(State()), frc, pt)
    {
      accumForce := Add(accumForce, frc);
      var ptOffset := Sub(pt, frame.pos);
      var torque := Cross(ptOffset, frc);
      AddTorque(torque);
    }

    method AddLocForceAtPoint(frc: Vec3, pt: Vec3)
      modifies this`accumForce, this`accumTorque
      ensures State() == WithForceAtPoint(old(State()), LocalToWorldVector(frame, frc), pt)
    {
      AddForceAtPoint(LocalToWorldVector(frame, frc), pt);
    }

    method AddForceAtLocPoint(frc: Vec3, pt: Vec3)
      modifies this`accumForce, this`accumTorque
      ensures State() == WithForceAtPoint(old(State()), frc, LocalToWorldPoint(frame, pt))
    {
      AddForceAtPoint(frc, LocalToWorldPoint(frame, pt));
    }

    method AddLocForceAtLocPoint(frc: Vec3, pt: Vec3)
      modifies this`accumForce, this`accumTorque
      ensures State()
        == WithForceAtPoint(old(State()), LocalToWorldVector(frame, frc), LocalToWorldPoint(frame, pt))
    {
      AddForceAtPoint(LocalToWorldVector(frame, frc), LocalToWorldPoint(frame, pt));
    }

    method AddTorque(trq: Vec3)
      modifies this`accumTorque
      ensures State() == WithTorque(old(State()), trq)
    {
      accumTorque := Add(accumTorque, trq);
    }

    method AddLocTorque(trq: Vec3)
      modifies this`accumTorque
      ensures State() == WithTorque(old(State()), LocalToWorldVector(frame, trq))
    {
      AddTorque(LocalToWorldVector(frame, trq));
    }

    /** The world velocity of the material point at pt. */
    function GetLinearVelAtPoint(pt: Vec3): (v: Vec3)
      reads this
      ensures pt == frame.pos ==> v == linVel
      ensures Dot(Sub(v, linVel), Sub(pt, frame.pos)) == 0.0
      // the rigid velocity field: from any other point p, add angVel x (pt - p)
      ensures forall p :: v == Add(LinearVelAtPoint(State(), p), Cross(angVel, Sub(pt, p)))
    {
      LinearVelAtPointRigid(State(), pt);
      LinearVelTransportFrom(State(), pt);
      LinearVelAtPoint(State(), pt)
    }

    /** One semi-implicit Euler step of length delta under the driver's gravity. */
    method Tick(delta: real)
      requires Valid()
      modifies this`frame, this`linVel, this`angVel, this`angMom, this`accumForce, this`accumTorque
      ensures Valid()
      ensures State() == Advanced(old(State()), sim.gravity, delta, sim.lib)
    {
      var linAccel := Add(DivScalar(accumForce, mass), sim.gravity);
      linVel := Add(linVel, Scale(linAccel, delta));
      frame := frame.(pos := Add(frame.pos, Scale(linVel, delta)));

      angMom := Add(angMom, Scale(accumTorque, delta));
      angVel := LocalToWorldVector(frame, Mul(WorldToLocalVector(frame, angMom), angMassInv));

      var spin := Spin(frame.ori, angVel, delta, sim.lib);
      frame := UpdateMatrices(frame.(ori := QuatAdd(frame.ori, spin)), sim.lib);

      accumForce := Zero;
      accumTorque := Zero;
    }
  }
}
