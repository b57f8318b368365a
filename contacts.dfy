/** Collision queries against static geometry: the contact list that
    Sim.collidePoint builds for one probe point, and the one that
    Sim.collideSphereList builds for a batch of probe spheres. The static
    objects are outside the driver; each offers a point query, a sphere-list
    query, both, or neither, and the driver dispatches on which it has. */
module Contacts {
  import opened Geometry
  import opened Options

  /** A contact: a surface point, the surface normal, and the penetration
      depth, which collidePoint fills in. */
  datatype Contact = Contact(surfacePos: Vec3, normal: Vec3, depth: real)

  /** One sphere of a sphere list: its centre and its own radius. */
  datatype SpherePoint = SpherePoint(pos: Vec3, radius: real)

  /** A batch of probe spheres, with the radius and centre of its bounding sphere. */
  datatype SphereList = SphereList(radius: real, center: Vec3, points: seq<SpherePoint>)

  /** A static object, given by the queries it offers (getContact and
      collideSphereList in the source). */
  datatype StaticObject = StaticObject(
    getContact: Option<Vec3 -> Option<Contact>>,
    collideSphereList: Option<SphereList -> seq<Contact>>)

  /** How far pt lies behind the surface, measured along the normal. */
  function Depth(c: Contact, pt: Vec3): real {
    Dot(Sub(c.surfacePos, pt), c.normal)
  }

  /** The static object has a point query, it answers for pt, and the answer
      lies strictly in front of pt along the normal. */
  predicate Penetrates(obj: StaticObject, pt: Vec3) {
    obj.getContact.Some? && obj.getContact.value(pt).Some?
    && Depth(obj.getContact.value(pt).value, pt) > 0.0
  }

  /** The contact a penetrating object reports, with its depth filled in. */
  function Penetration(obj: StaticObject, pt: Vec3): Contact
    requires Penetrates(obj, pt)
  {
    var c := obj.getContact.value(pt).value;
    c.(depth := Depth(c, pt))
  }

  /** What one static object adds to collidePoint(pt). */
  function ContactsFrom(obj: StaticObject, pt: Vec3): (cs: seq<Contact>)
    ensures Penetrates(obj, pt) ==> cs == [Penetration(obj, pt)]
    ensures !Penetrates(obj, pt) ==> cs == []
  {
    match obj.getContact
    case None => []
    case Some(query) =>
      match query(pt)
      case None => []
      case Some(c) =>
        var d := Depth(c, pt);
        if d > 0.0 then [c.(depth := d)] else []
  }

  /** collidePoint(pt) over the static objects in registration order. */
  function PointContacts(statics: seq<StaticObject>, pt: Vec3): (cs: seq<Contact>)
    ensures |cs| <= |statics|
    ensures forall c :: c in cs ==> c.depth > 0.0 && c.depth == Depth(c, pt)
    decreases |statics|
  {
    if |statics| == 0 then []
    else PointContacts(statics[..|statics| - 1], pt) + ContactsFrom(statics[|statics| - 1], pt)
  }

  /** Registration order is kept: the contacts for two runs of static objects
      are the contacts for the first run followed by those for the second. */
  lemma {:induction false} PointContactsAppend(a: seq<StaticObject>, b: seq<StaticObject>, pt: Vec3)
    ensures PointContacts(a + b, pt) == PointContacts(a, pt) + PointContacts(b, pt)
    decreases |b|
  {
    if |b| == 0 {
      assert a + b == a;
    } else {
      var b' := b[..|b| - 1];
      assert (a + b)[..|a + b| - 1] == a + b';
      assert (a + b)[|a + b| - 1] == b[|b| - 1];
      PointContactsAppend(a, b', pt);
    }
  }

  /** The result is empty exactly when no static object reports a positive
      depth for pt. */
  lemma {:induction false} PointContactsEmpty(statics: seq<StaticObject>, pt: Vec3)
    ensures PointContacts(statics, pt) == [] <==>
      forall i :: 0 <= i < |statics| ==> !Penetrates(statics[i], pt)
    decreases |statics|
  {
    if |statics| > 0 {
      var front := statics[..|statics| - 1];
      PointContactsEmpty(front, pt);
      assert forall i :: 0 <= i < |front| ==> front[i] == statics[i];
    }
  }

  /** Every static object that reports a positive depth contributes its
      contact, at the position given by the objects registered before it. */
  lemma PointContactsComplete(statics: seq<StaticObject>, pt: Vec3, i: nat)
    requires i < |statics| && Penetrates(statics[i], pt)
    ensures |PointContacts(statics[..i], pt)| < |PointContacts(statics, pt)|
    ensures PointContacts(statics, pt)[|PointContacts(statics[..i], pt)|] == Penetration(statics[i], pt)
  {
    var before, after := statics[..i], statics[i + 1..];
    assert statics == before + [statics[i]] + after;
    PointContactsAppend(before + [statics[i]], after, pt);
    PointContactsAppend(before, [statics[i]], pt);
    assert [statics[i]][..0] == [];
  }

  /** Where collideSphereList probes for one sphere: the sphere's centre moved
      by the list's bounding centre, down by the bounding radius, and down
      again by the sphere's own radius. */
  function ProbePoint(list: SphereList, p: SpherePoint): (q: Vec3)
    ensures Sub(Add(p.pos, list.center), q) == Vec3(0.0, 0.0, list.radius + p.radius)
  {
    var offset := Add(Vec3(0.0, 0.0, -list.radius), list.center);
    var t := Add(p.pos, offset);
    t.(z := t.z - p.radius)
  }

  /** The point-probe part of collideSphereList: collidePoint for each sphere
      in turn, concatenated. */
  function ProbeContacts(statics: seq<StaticObject>, list: SphereList, points: seq<SpherePoint>): (cs: seq<Contact>)
    ensures |cs| <= |points| * |statics|
    decreases |points|
  {
    if |points| == 0 then []
    else
      assert (|points| - 1) * |statics| + |statics| == |points| * |statics|;
      ProbeContacts(statics, list, points[..|points| - 1])
      + PointContacts(statics, ProbePoint(list, points[|points| - 1]))
  }

  /** Sphere order is kept: the probe contacts for two runs of spheres are
      those for the first run followed by those for the second, and a single
      sphere contributes exactly collidePoint at its probe point. */
  lemma {:induction false} ProbeContactsAppend(statics: seq<StaticObject>, list: SphereList, a: seq<SpherePoint>, b: seq<SpherePoint>)
    ensures ProbeContacts(statics, list, a + b) == ProbeContacts(statics, list, a) + ProbeContacts(statics, list, b)
    ensures forall x :: ProbeContacts(statics, list, [x]) == PointContacts(statics, ProbePoint(list, x))
    decreases |b|
  {
    forall x ensures ProbeContacts(statics, list, [x]) == PointContacts(statics, ProbePoint(list, x)) {
      assert [x][..0] == [];
    }
    if |b| == 0 {
      assert a + b == a;
    } else {
      var b' := b[..|b| - 1];
      assert (a + b)[..|a + b| - 1] == a + b';
      assert (a + b)[|a + b| - 1] == b[|b| - 1];
      ProbeContactsAppend(statics, list, a, b');
    }
  }

  /** Every contact a point probe reports penetrates. */
  lemma {:induction false} ProbeContactsPenetrate(statics: seq<StaticObject>, list: SphereList, points: seq<SpherePoint>)
    ensures forall c :: c in ProbeContacts(statics, list, points) ==> c.depth > 0.0
    decreases |points|
  {
    if |points| > 0 {
      ProbeContactsPenetrate(statics, list, points[..|points| - 1]);
    }
  }

  /** The batch part of collideSphereList: the answers of the static objects
      that have a sphere-list query, in registration order. */
  function BatchContacts(statics: seq<StaticObject>, list: SphereList): (cs: seq<Contact>)
    ensures (forall i :: 0 <= i < |statics| ==> statics[i].collideSphereList.None?) ==> cs == []
    decreases |statics|
  {
    if |statics| == 0 then []
    else
      var last := statics[|statics| - 1];
      BatchContacts(statics[..|statics| - 1], list) + BatchAnswer(last, list)
  }

  /** The answer of one static object to the batch query: its own
      collideSphereList's contacts, or nothing when it has no such query. */
  function BatchAnswer(obj: StaticObject, list: SphereList): seq<Contact> {
    match obj.collideSphereList
    case None => []
    case Some(query) => query(list)
  }

  /** Registration order is kept: the batch contacts for two runs of static
      objects are those for the first run followed by those for the second,
      and a single object contributes exactly its own answer. */
  lemma {:induction false} BatchContactsAppend(a: seq<StaticObject>, b: seq<StaticObject>, list: SphereList)
    ensures BatchContacts(a + b, list) == BatchContacts(a, list) + BatchContacts(b, list)
    ensures forall o :: BatchContacts([o], list) == BatchAnswer(o, list)
    decreases |b|
  {
    forall o ensures BatchContacts([o], list) == BatchAnswer(o, list) {
      assert [o][..0] == [];
    }
    if |b| == 0 {
      assert a + b == a;
    } else {
      var b' := b[..|b| - 1];
      assert (a + b)[..|a + b| - 1] == a + b';
      assert (a + b)[|a + b| - 1] == b[|b| - 1];
      BatchContactsAppend(a, b', list);
    }
  }

  /** With no static object offering a sphere-list query, every contact of
      collideSphereList comes from a point probe and so penetrates. */
  lemma NoBatchQueries(statics: seq<StaticObject>, list: SphereList)
    requires forall i :: 0 <= i < |statics| ==> statics[i].collideSphereList.None?
    ensures BatchContacts(statics, list) == []
    ensures forall c :: c in ProbeContacts(statics, list, list.points) + BatchContacts(statics, list) ==> c.depth > 0.0
  {
    ProbeContactsPenetrate(statics, list, list.points);
  }
}
