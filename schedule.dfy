/** The bookkeeping of Sim.tick, Sim.step and Sim.integrate that does not
    depend on what a body is: how a frame delta is capped, how many fixed
    steps an accumulated time yields, and the order in which one step calls
    into the registered objects. That order is recorded as a trace of events
    so that it can be stated and proved about. */
module Schedule {
  import opened Geometry

  /** tick never advances by more than this in one call (10 frames per second). */
  const MaxDelta: real := 0.1

  /** tick's cap on a frame delta. */
  function ClampDelta(delta: real): (d: real)
    ensures d <= MaxDelta && d <= delta
    ensures d == delta || d == MaxDelta
    ensures delta > 0.0 ==> d > 0.0
  {
    if delta > MaxDelta then MaxDelta else delta
  }

  /** One observable call the driver makes while stepping: the 'step'
      notification to subscribers, an object's recordState, an object's tick.
      Objects are named by their index in the registry. */
  datatype Event = Published | RecordCall(index: nat) | TickCall(index: nat)

  /** recordState on objects 0 .. n-1, in registry order. */
  function RecordCalls(n: nat): (t: seq<Event>)
    ensures |t| == n
  {
    if n == 0 then [] else RecordCalls(n - 1) + [RecordCall(n - 1)]
  }

  /** The p-th call of RecordCalls(n) is on object p. */
  lemma {:induction false} RecordCallsAt(n: nat)
    ensures forall p :: 0 <= p < n ==> RecordCalls(n)[p] == RecordCall(p)
  {
    if n > 0 {
      RecordCallsAt(n - 1);
    }
  }

  /** tick on objects 0 .. n-1, in registry order. */
  function TickCalls(n: nat): (t: seq<Event>)
    ensures |t| == n
  {
    if n == 0 then [] else TickCalls(n - 1) + [TickCall(n - 1)]
  }

  /** The p-th call of TickCalls(n) is on object p. */
  lemma {:induction false} TickCallsAt(n: nat)
    ensures forall p :: 0 <= p < n ==> TickCalls(n)[p] == TickCall(p)
  {
    if n > 0 {
      TickCallsAt(n - 1);
    }
  }

  /** Sim.integrate over n objects: every object records, then every object ticks. */
  function IntegrateTrace(n: nat): seq<Event> {
    RecordCalls(n) + TickCalls(n)
  }

  /** Sim.step over n objects: the notification, then integrate. */
  function StepTrace(n: nat): seq<Event> {
    [Published] + IntegrateTrace(n)
  }

  /** The calls of one step, made k times over. */
  function Repeat(calls: seq<Event>, k: nat): seq<Event> {
    if k == 0 then [] else Repeat(calls, k - 1) + calls
  }

  /** k steps over n objects. */
  function StepsTrace(n: nat, k: nat): seq<Event> {
    Repeat(StepTrace(n), k)
  }

  /** k steps over n objects make k * (2n + 1) calls. */
  lemma {:induction false} StepsTraceLength(n: nat, k: nat)
    ensures |StepsTrace(n, k)| == k * (2 * n + 1)
  {
    if k > 0 {
      StepsTraceLength(n, k - 1);
      IntegrateOrder(n);
      assert StepsTrace(n, k) == StepsTrace(n, k - 1) + StepTrace(n);
      assert |StepsTrace(n, k)| == (k - 1) * (2 * n + 1) + (2 * n + 1);
    }
  }

  /** Within one step every object has recorded its state before any object
      ticks, and both passes visit the objects in registry order. */
  lemma IntegrateOrder(n: nat)
    ensures |IntegrateTrace(n)| == 2 * n
    ensures forall p :: 0 <= p < n ==> IntegrateTrace(n)[p] == RecordCall(p)
    ensures forall p :: n <= p < 2 * n ==> IntegrateTrace(n)[p] == TickCall(p - n)
  {
    RecordCallsAt(n);
    TickCallsAt(n);
    forall p | n <= p < 2 * n
      ensures IntegrateTrace(n)[p] == TickCall(p - n)
    {
      assert IntegrateTrace(n)[p] == TickCalls(n)[p - n];
    }
  }

  /** The notification opens every step, before any object is touched. */
  lemma StepOpensWithNotification(n: nat)
    ensures StepTrace(n)[0] == Published
    ensures forall p :: 1 <= p < |StepTrace(n)| ==> StepTrace(n)[p] != Published
  {
    var calls := IntegrateTrace(n);
    IntegrateOrder(n);
    assert StepTrace(n) == [Published] + calls;
    forall p | 1 <= p < |StepTrace(n)|
      ensures StepTrace(n)[p] != Published
    {
      assert StepTrace(n)[p] == calls[p - 1];
    }
  }

  /** How many times e occurs in a trace. */
  function Count(t: seq<Event>, e: Event): nat {
    if |t| == 0 then 0 else Count(t[..|t| - 1], e) + (if t[|t| - 1] == e then 1 else 0)
  }

  /** Over k steps, each object is ticked exactly k times and records its
      state exactly k times. */
  lemma CallsPerObject(n: nat, k: nat, i: nat)
    requires i < n
    ensures Count(StepsTrace(n, k), TickCall(i)) == k
    ensures Count(StepsTrace(n, k), RecordCall(i)) == k
  {
    CallsOnce(n, i);
    CountOverSteps(StepTrace(n), k, TickCall(i));
    CountOverSteps(StepTrace(n), k, RecordCall(i));
  }

  /** A call made once in a sequence of calls is made k times when the
      sequence is repeated k times. */
  lemma {:induction false} CountOverSteps(calls: seq<Event>, k: nat, e: Event)
    requires Count(calls, e) == 1
    ensures Count(Repeat(calls, k), e) == k
    decreases k
  {
    if k > 0 {
      CountOverSteps(calls, k - 1, e);
      CountSplit(Repeat(calls, k - 1), calls, e);
    }
  }

  /** Counting over a concatenation adds the counts of the parts. */
  lemma {:induction false} CountSplit(a: seq<Event>, b: seq<Event>, e: Event)
    ensures Count(a + b, e) == Count(a, e) + Count(b, e)
    decreases |b|
  {
    if |b| == 0 {
      assert a + b == a;
    } else {
      var front := b[..|b| - 1];
      assert (a + b)[..|a + b| - 1] == a + front;
      CountSplit(a, front, e);
    }
  }

  /** One step calls recordState and tick exactly once on each object. */
  lemma CallsOnce(n: nat, i: nat)
    requires i < n
    ensures Count(StepTrace(n), TickCall(i)) == 1
    ensures Count(StepTrace(n), RecordCall(i)) == 1
  {
    IntegrateCounts(n, i);
    CountSplit([Published], IntegrateTrace(n), TickCall(i));
    CountSplit([Published], IntegrateTrace(n), RecordCall(i));
    assert [Published][..0] == [];
  }

  lemma IntegrateCounts(n: nat, i: nat)
    requires i < n
    ensures Count(IntegrateTrace(n), TickCall(i)) == 1
    ensures Count(IntegrateTrace(n), RecordCall(i)) == 1
  {
    RecordCounts(n, i);
    TickCounts(n, i);
    CountSplit(RecordCalls(n), TickCalls(n), TickCall(i));
    CountSplit(RecordCalls(n), TickCalls(n), RecordCall(i));
  }

  /** The counts of the calls in the recording pass over n objects: once
      for each object, and no tick among them. */
  lemma {:induction false} RecordCounts(n: nat, i: nat)
    ensures Count(RecordCalls(n), RecordCall(i)) == (if i < n then 1 else 0)
    ensures Count(RecordCalls(n), TickCall(i)) == 0
    decreases n
  {
    if n > 0 {
      RecordCounts(n - 1, i);
      assert RecordCalls(n)[..n - 1] == RecordCalls(n - 1);
    }
  }

  /** The counts of the calls in the ticking pass over n objects: once for
      each object, and no recording among them. */
  lemma {:induction false} TickCounts(n: nat, i: nat)
    ensures Count(TickCalls(n), TickCall(i)) == (if i < n then 1 else 0)
    ensures Count(TickCalls(n), RecordCall(i)) == 0
    decreases n
  {
    if n > 0 {
      TickCounts(n - 1, i);
      assert TickCalls(n)[..n - 1] == TickCalls(n - 1);
    }
  }

  // ------------------------------------------------ accumulator arithmetic

  /** The number of whole steps in an accumulated time: writing the total as
      k steps plus a remainder below one step, k is the floor of total / ts. */
  lemma StepCount(total: real, ts: real, k: nat, rem: real)
    requires ts > 0.0 && 0.0 <= rem < ts
    requires total == Elapsed(k, ts) + rem
    ensures (total / ts).Floor == k
  {
    ElapsedIsProduct(k, ts);
    FractionBelowOne(rem, ts);
    assert total / ts == k as real + rem / ts;
  }

  /** The interpolation fraction of a remainder below one step lies in [0, 1). */
  lemma FractionBelowOne(rem: real, ts: real)
    requires ts > 0.0 && 0.0 <= rem < ts
    ensures 0.0 <= rem / ts < 1.0
  {
    var q := rem / ts;
    assert q * ts == rem;
    if q < 0.0 {
      MulPos(-q, ts);
    }
    if q >= 1.0 {
      MulNonneg(q - 1.0, ts);
    }
  }

  /** The time k steps of length ts span, one step at a time. */
  function Elapsed(k: nat, ts: real): real {
    if k == 0 then 0.0 else Elapsed(k - 1, ts) + ts
  }

  /** k steps of length ts span k * ts. */
  lemma {:induction false} ElapsedIsProduct(k: nat, ts: real)
    ensures Elapsed(k, ts) == k as real * ts
  {
    if k > 0 {
      ElapsedIsProduct(k - 1, ts);
      assert k as real * ts == (k - 1) as real * ts + ts;
    }
  }

  /** Taking one step off the accumulator lowers acc / ts by one. */
  lemma DrainOneStep(acc: real, ts: real)
    requires ts > 0.0 && acc >= ts
    ensures acc / ts >= 1.0
    ensures (acc - ts) / ts == acc / ts - 1.0
  {
    var q := acc / ts;
    assert q * ts == acc;
    if q < 1.0 {
      MulPos(1.0 - q, ts);
    }
    var r := (acc - ts) / ts;
    assert r * ts == acc - ts;
    assert (r - (q - 1.0)) * ts == 0.0;
    if r > q - 1.0 {
      MulPos(r - (q - 1.0), ts);
    } else if r < q - 1.0 {
      MulPos(q - 1.0 - r, ts);
    }
  }
}
