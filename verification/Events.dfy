/**
 Events: rt_event_send and rt_event_recv, rt-thread/src/ipc.c:1028-1236.
 */
module Events {
  import opened Queues
  import opened Threads
  import opened Ipc
  import opened Scheduler

  datatype Event = Event(bits: Bits, w: int, prioFlag: bool)
  datatype Outcome = Done(err: Err, got: Bits) | Blocks

  /** RT_EVENT_FLAG_AND asks for all bits of i.bits, RT_EVENT_FLAG_OR for any of them. */
  predicate Satisfied(i: Interest, bits: Bits) {
    if i.all then i.bits <= bits else i.bits * bits != {}
  }

  /** What a waiter is told it got. */
  function Got(i: Interest, bits: Bits): Interest {
    if i.all then i else i.(bits := i.bits * bits)
  }

  /** The waiter that gets its events consumes them if it asked for RT_EVENT_FLAG_CLEAR. */
  function Left(i: Interest, bits: Bits): Bits {
    if i.clear then bits - Got(i, bits).bits else bits
  }

  /** The loop of rt_event_send over the waiters q. */
  function Swept(k: Sched, bits: Bits, q: seq<int>): (Sched, Bits)
    decreases |q|
  {
    if q == [] then (k, bits)
    else
      var i := At(k, q[0]).interest;
      if Satisfied(i, bits) then
        Swept(Resumed(With(k, q[0], At(k, q[0]).(interest := Got(i, bits))), q[0]), Left(i, bits), q[1..])
      else Swept(k, bits, q[1..])
  }

  /** rt_event_send up to its call of rt_schedule. */
  function Sent(k: Sched, e: Event, bits: Bits): (Sched, Event, Err) {
    if bits == {} then (k, e, Failed)
    else var r := Swept(k, e.bits + bits, Waiting(k, e.w)); (r.0, e.(bits := r.1), Ok)
  }

  /** rt_event_recv up to its call of rt_schedule, run by the current thread. */
  function Received(k: Sched, e: Event, i: Interest, time: int): (Sched, Event, Outcome) {
    var t := k.current;
    if i.bits == {} then (k, e, Done(Failed, {}))
    else
      var k1 := With(k, t, At(k, t).(err := Ok));
      if Satisfied(i, e.bits) then (k1, e.(bits := if i.clear then e.bits - i.bits else e.bits), Done(Ok, e.bits * i.bits))
      else if time == 0 then (With(k, t, At(k, t).(err := TimedOut)), e, Done(TimedOut, {}))
      else (Blocked(With(k1, t, At(k1, t).(interest := i)), e.w, e.prioFlag, time > 0), e, Blocks)
  }

  // ----- the invariant: nobody waits for what is there

  /** `asked` is what a thread inside rt_event_recv asked for. */
  ghost predicate WaiterOk(k: Sched, w: int, asked: map<int, Interest>, t: int)
    requires t in asked
  {
    var i := At(k, t).interest;
    && t in k.tcb
    && (In(k, w, t) ==> At(k, t).err == Ok && i == asked[t] && i.bits != {})
    && (!In(k, w, t) ==> !At(k, t).timer && (At(k, t).err == Ok || At(k, t).err == TimedOut))
    && (!In(k, w, t) && At(k, t).err == Ok ==> i == Got(asked[t], i.bits) && i.bits != {})
  }

  /** No thread that waits, but for those in `rest`, has its condition satisfied. */
  ghost predicate Partial(k: Sched, e: Event, asked: map<int, Interest>, rest: seq<int>) {
    && Valid(k)
    && (forall t {:trigger In(k, e.w, t)} :: In(k, e.w, t) ==> t in asked)
    && (forall t {:trigger WaiterOk(k, e.w, asked, t)} :: t in asked ==> WaiterOk(k, e.w, asked, t))
    && (forall t {:trigger Satisfied(At(k, t).interest, e.bits)} :: In(k, e.w, t) && t !in rest ==> !Satisfied(At(k, t).interest, e.bits))
  }

  ghost predicate EventInv(k: Sched, e: Event, asked: map<int, Interest>) {
    Partial(k, e, asked, [])
  }

  lemma EventRely(k: Sched, k': Sched, e: Event, asked: map<int, Interest>)
    requires EventInv(k, e, asked) && Rely(k, k', e.w, asked.Keys) && Valid(k')
    ensures EventInv(k', e, asked)
  {
    forall t | In(k', e.w, t) ensures t in asked && In(k, e.w, t) { InFewer(k, k', e.w, t); }
    forall t | t in asked ensures WaiterOk(k', e.w, asked, t) && At(k', t).interest == At(k, t).interest {
      assert WaiterOk(k, e.w, asked, t) && Kept(k, k', e.w, t);
    }
    forall t | In(k', e.w, t) ensures !Satisfied(At(k', t).interest, e.bits) {
      assert Satisfied(At(k, t).interest, e.bits) == Satisfied(At(k', t).interest, e.bits);
    }
  }

  /** Fewer events satisfy no more waiters. */
  lemma FewerSatisfyNoMore(i: Interest, bits: Bits, fewer: Bits)
    requires !Satisfied(i, bits) && fewer <= bits
    ensures !Satisfied(i, fewer)
  {
    assert i.bits * fewer <= i.bits * bits;
  }

  /** One waiter of the sweep, its condition satisfied. */
  lemma WakeKeeps(k: Sched, e: Event, asked: map<int, Interest>, q: seq<int>)
    requires Partial(k, e, asked, q) && q != [] && In(k, e.w, q[0]) && NoDup(q)
    requires Satisfied(At(k, q[0]).interest, e.bits)
    ensures var i, h := At(k, q[0]).interest, q[0];
      var k' := Resumed(With(k, h, At(k, h).(interest := Got(i, e.bits))), h);
      Partial(k', e.(bits := Left(i, e.bits)), asked, q[1..])
      && forall t {:trigger In(k', e.w, t)} :: In(k', e.w, t) <==> In(k, e.w, t) && t != h
  {
    var h, i := q[0], At(k, q[0]).interest;
    assert WaiterOk(k, e.w, asked, h) && WaitOk(k, e.w) && ThreadOk(k, h);
    var c := At(k, h).(interest := Got(i, e.bits));
    FieldsValid(k, h, c);
    var k1 := With(k, h, c);
    assert Waiting(k1, e.w) == Waiting(k, e.w);
    ResumedValid(k1, h);
    ResumedIn(k1, h, e.w);
    var k', e' := Resumed(k1, h), e.(bits := Left(i, e.bits));
    assert In(k1, e.w, h);
    forall t ensures In(k', e.w, t) <==> In(k, e.w, t) && t != h { assert In(k1, e.w, t) == In(k, e.w, t); }
    forall t | t in asked ensures WaiterOk(k', e.w, asked, t) {
      assert WaiterOk(k, e.w, asked, t);
      if t == h { GotIsGot(i, e.bits); }
    }
    assert q == [q[0]] + q[1..];
    forall t | In(k', e.w, t) && t !in q[1..] ensures !Satisfied(At(k', t).interest, e'.bits) {
      assert !Satisfied(At(k, t).interest, e.bits);
      FewerSatisfyNoMore(At(k, t).interest, e.bits, e'.bits);
    }
  }

  lemma GotMeans(i: Interest, g: Interest)
    requires g == Got(i, g.bits)
    ensures if i.all then g == i else g.bits <= i.bits
  {
  }

  lemma GotIsGot(i: Interest, bits: Bits)
    requires Satisfied(i, bits) && i.bits != {}
    ensures var g := Got(i, bits); g == Got(i, g.bits) && g.bits != {}
  {
    assert i.bits * (i.bits * bits) == i.bits * bits;
  }

  lemma {:induction false} SweepKeeps(k: Sched, e: Event, asked: map<int, Interest>, q: seq<int>)
    requires Partial(k, e, asked, q) && NoDup(q) && forall t {:trigger t in q} :: t in q ==> In(k, e.w, t)
    ensures var r := Swept(k, e.bits, q); EventInv(r.0, e.(bits := r.1), asked)
    decreases |q|
  {
    if q != [] {
      var h, i := q[0], At(k, q[0]).interest;
      assert h in q && q == [h] + q[1..];
      TailNoDup(q);
      if Satisfied(i, e.bits) {
        WakeKeeps(k, e, asked, q);
        var k' := Resumed(With(k, h, At(k, h).(interest := Got(i, e.bits))), h);
        forall t | t in q[1..] ensures In(k', e.w, t) { assert t in q; }
        SweepKeeps(k', e.(bits := Left(i, e.bits)), asked, q[1..]);
      } else {
        forall t | t in q[1..] ensures In(k, e.w, t) { assert t in q; }
        SweepKeeps(k, e, asked, q[1..]);
      }
    }
  }

  /** After a send no thread that still waits has its condition satisfied, although earlier waiters may have consumed events. */
  lemma SendKeeps(k: Sched, e: Event, asked: map<int, Interest>, bits: Bits)
    requires EventInv(k, e, asked)
    ensures var r := Sent(k, e, bits); EventInv(r.0, r.1, asked)
  {
    if bits != {} {
      var e1, q := e.(bits := e.bits + bits), Waiting(k, e.w);
      assert WaitOk(k, e.w);
      forall t | In(k, e.w, t) ensures t in q {}
      SweepKeeps(k, e1, asked, q);
    }
  }

  lemma EventInside(k: Sched, e: Event, asked: map<int, Interest>)
    requires EventInv(k, e, asked)
    ensures Inside(k, e.w, asked.Keys)
  {
    forall t | t in asked ensures t in k.tcb && (!In(k, e.w, t) ==> !At(k, t).timer) { assert WaiterOk(k, e.w, asked, t); }
  }

  function Askers(k: Sched, asked: map<int, Interest>, i: Interest, r: Outcome): map<int, Interest> {
    if r.Blocks? then asked[k.current := i] else asked
  }

  lemma FieldsKeep(k: Sched, e: Event, asked: map<int, Interest>, c: Tcb)
    requires EventInv(k, e, asked) && k.current !in asked
    requires c == At(k, k.current).(err := c.err, interest := c.interest)
    ensures EventInv(With(k, k.current, c), e, asked)
  {
    assert ThreadOk(k, k.current);
    FieldsValid(k, k.current, c);
    EventInside(k, e, asked);
    WithRely(k, k.current, c, e.w, asked.Keys);
    EventRely(k, With(k, k.current, c), e, asked);
  }

  lemma ReceiveKeeps(k: Sched, e: Event, asked: map<int, Interest>, i: Interest, time: int)
    requires EventInv(k, e, asked) && k.current !in asked && At(k, k.current).stat == Running
    ensures var r := Received(k, e, i, time); EventInv(r.0, r.1, Askers(k, asked, i, r.2))
  {
    var t := k.current;
    if i.bits != {} {
      FieldsKeep(k, e, asked, At(k, t).(err := Ok));
      FieldsKeep(k, e, asked, At(k, t).(err := TimedOut));
      if Satisfied(i, e.bits) {
        ConsumeKeeps(With(k, t, At(k, t).(err := Ok)), e, asked, i);
      } else if time != 0 {
        FieldsKeep(k, e, asked, At(k, t).(err := Ok, interest := i));
        WaitKeeps(With(k, t, At(k, t).(err := Ok, interest := i)), e, asked, i, time > 0);
        assert k.tcb[t := At(k, t).(err := Ok)][t := At(k, t).(err := Ok, interest := i)] == k.tcb[t := At(k, t).(err := Ok, interest := i)];
      }
    }
  }

  lemma ConsumeKeeps(k: Sched, e: Event, asked: map<int, Interest>, i: Interest)
    requires EventInv(k, e, asked)
    ensures EventInv(k, e.(bits := if i.clear then e.bits - i.bits else e.bits), asked)
  {
    var e' := e.(bits := if i.clear then e.bits - i.bits else e.bits);
    forall t | In(k, e.w, t) ensures !Satisfied(At(k, t).interest, e'.bits) {
      assert !Satisfied(At(k, t).interest, e.bits);
      FewerSatisfyNoMore(At(k, t).interest, e.bits, e'.bits);
    }
  }

  lemma WaitKeeps(k: Sched, e: Event, asked: map<int, Interest>, i: Interest, timed: bool)
    requires EventInv(k, e, asked) && k.current !in asked && At(k, k.current).stat == Running && At(k, k.current).err == Ok
    requires At(k, k.current).interest == i && i.bits != {} && !Satisfied(i, e.bits)
    ensures EventInv(Blocked(k, e.w, e.prioFlag, timed), e, asked[k.current := i])
  {
    var t := k.current;
    assert ThreadOk(k, t) && WaitOk(k, e.w);
    BlockedValid(k, e.w, e.prioFlag, timed);
    BlockedIn(k, e.w, e.prioFlag, timed);
    var k', asked' := Blocked(k, e.w, e.prioFlag, timed), asked[t := i];
    forall u | u in asked' ensures WaiterOk(k', e.w, asked', u) {
      if u != t { assert WaiterOk(k, e.w, asked, u); }
    }
    forall u | In(k', e.w, u) ensures !Satisfied(At(k', u).interest, e.bits) {
      assert At(k', u).interest == At(k, u).interest;
      assert u != t ==> !Satisfied(At(k, u).interest, e.bits);
    }
  }

  /** After a wait rt_event_recv either times out or returns events it asked for: all of them, or at least one. */
  lemma ReturnKeeps(k: Sched, e: Event, asked: map<int, Interest>)
    requires EventInv(k, e, asked) && k.current in asked && At(k, k.current).stat == Running
    ensures EventInv(k, e, asked - {k.current})
    ensures At(k, k.current).err == Ok || At(k, k.current).err == TimedOut
    ensures At(k, k.current).err == Ok ==>
      var i, got := asked[k.current], At(k, k.current).interest.bits;
      got != {} && (if i.all then got == i.bits else got <= i.bits)
  {
    var t, asked' := k.current, asked - {k.current};
    assert WaitOk(k, e.w) && WaiterOk(k, e.w, asked, t);
    if At(k, t).err == Ok { GotMeans(asked[t], At(k, t).interest); }
    forall u | u in asked' ensures WaiterOk(k, e.w, asked', u) { assert WaiterOk(k, e.w, asked, u); }
  }

  // ----- the code

  /** Some waiter has its condition satisfied. */
  predicate Wakes(k: Sched, bits: Bits, q: seq<int>)
    decreases |q|
  {
    q != [] && (Satisfied(At(k, q[0]).interest, bits) || Wakes(k, bits, q[1..]))
  }

  /** rt_event_send calls rt_schedule exactly if it wakes a thread. */
  lemma {:induction false} WakesIff(k: Sched, bits: Bits, q: seq<int>)
    ensures Wakes(k, bits, q) <==> exists t {:trigger At(k, t)} :: t in q && Satisfied(At(k, t).interest, bits)
    decreases |q|
  {
    if q != [] {
      WakesIff(k, bits, q[1..]);
      assert q == [q[0]] + q[1..];
    }
  }

  class EventObject {
    var e: Event

    constructor (w: int, prioFlag: bool)
      ensures e == Event({}, w, prioFlag)
    {
      e := Event({}, w, prioFlag);
    }

    /** A waiter that gets its events: it is told which, clears them if it asked for that, and is resumed. */
    method Wake(s: Scheduler, t: int)
      requires s.Inv() && t in s.tcb && Satisfied(s.Tc(t).interest, e.bits)
      modifies this, s
      ensures s.Inv() && s.tcb.Keys == old(s.tcb.Keys) && e == old(e).(bits := Left(old(s.Tc(t)).interest, old(e).bits))
      ensures var k := old(s.Abs()); s.Abs() == Resumed(With(k, t, At(k, t).(interest := Got(At(k, t).interest, old(e).bits))), t)
    {
      var j := s.Tc(t).interest;
      s.SetInterest(t, Got(j, e.bits));
      e := e.(bits := Left(j, e.bits));
      var ok := s.ResumeThread(t);
    }

    /** rt_event_send. */
    method Send(s: Scheduler, bits: Bits) returns (r: Err)
      requires s.Inv()
      modifies this, s
      ensures s.Inv() && r == Sent(old(s.Abs()), old(e), bits).2 && e == Sent(old(s.Abs()), old(e), bits).1
      ensures var k := Sent(old(s.Abs()), old(e), bits).0;
        s.Abs() == if bits != {} && Wakes(old(s.Abs()), old(e).bits + bits, Waiting(old(s.Abs()), old(e).w)) then Scheduled(k) else k
    {
      if bits == {} {
        return Failed;
      }
      var needSchedule := false;
      e := e.(bits := e.bits + bits);
      ghost var k0, b0 := s.Abs(), e.bits;
      var q := if e.w in s.waits then s.waits[e.w] else [];
      WaitersExist(k0, e.w);
      var i := 0;
      while i < |q|
        invariant i <= |q| && s.Inv() && s.tcb.Keys == k0.tcb.Keys
        invariant e == old(e).(bits := e.bits)
        invariant Swept(s.Abs(), e.bits, q[i..]) == Swept(k0, b0, q)
        invariant needSchedule ==> Wakes(k0, b0, q)
        invariant !needSchedule ==> s.Abs() == k0 && e.bits == b0 && Wakes(k0, b0, q) == Wakes(k0, b0, q[i..])
      {
        var t := q[i];
        assert q[i..][0] == t && q[i..][1..] == q[i+1..] && t in q;
        i := i + 1;
        if Satisfied(s.Tc(t).interest, e.bits) {
          Wake(s, t);
          needSchedule := true;
        }
      }
      if needSchedule {
        s.Schedule();
      }
      return Ok;
    }

    /** rt_event_recv up to its call of rt_schedule. */
    method Receive(s: Scheduler, i: Interest, time: int) returns (r: Outcome)
      requires s.Inv() && s.Tc(s.current).stat == Running
      modifies this, s
      ensures s.Inv() && (s.Abs(), e, r) == Received(old(s.Abs()), old(e), i, time)
    {
      if i.bits == {} {
        return Done(Failed, {});
      }
      var t := s.current;
      s.SetError(t, Ok);
      if Satisfied(i, e.bits) {
        r := Done(Ok, e.bits * i.bits);
        e := e.(bits := if i.clear then e.bits - i.bits else e.bits);
      } else if time == 0 {
        s.SetError(t, TimedOut);
        assert s.tcb == With(old(s.Abs()), t, At(old(s.Abs()), t).(err := TimedOut)).tcb;
        r := Done(TimedOut, {});
      } else {
        s.SetInterest(t, i);
        s.Block(e.w, e.prioFlag, time > 0);
        r := Blocks;
      }
    }
  }

  lemma WaitersExist(k: Sched, w: int)
    requires Valid(k)
    ensures forall t {:trigger t in Waiting(k, w)} :: t in Waiting(k, w) ==> t in k.tcb
  {
    assert WaitOk(k, w);
    forall t | t in Waiting(k, w) ensures t in k.tcb { assert In(k, w, t); }
  }

  // ----- whole runs

  datatype Step = Send(bits: Bits) | Receive(i: Interest, time: int) | Return | Other(next: Sched)
  datatype State = State(k: Sched, e: Event, asked: map<int, Interest>)

  ghost predicate Enabled(s: State, step: Step) {
    match step
    case Send(_) => true
    case Receive(_, _) => s.k.current !in s.asked && At(s.k, s.k.current).stat == Running
    case Return => s.k.current in s.asked && At(s.k, s.k.current).stat == Running
    case Other(next) => Valid(next) && Rely(s.k, next, s.e.w, s.asked.Keys)
  }

  function Next(s: State, step: Step): State {
    match step
    case Send(bits) => var r := Sent(s.k, s.e, bits); State(r.0, r.1, s.asked)
    case Receive(i, time) => var r := Received(s.k, s.e, i, time); State(r.0, r.1, Askers(s.k, s.asked, i, r.2))
    case Return => s.(asked := s.asked - {s.k.current})
    case Other(next) => s.(k := next)
  }

  ghost predicate Run(s: State, steps: seq<Step>)
    decreases |steps|
  {
    steps == [] || (Enabled(s, steps[0]) && Run(Next(s, steps[0]), steps[1..]))
  }

  function After(s: State, steps: seq<Step>): State
    decreases |steps|
  {
    if steps == [] then s else After(Next(s, steps[0]), steps[1..])
  }

  /** In every run no thread waits for events that are there. */
  lemma {:induction false} NoneSatisfied(s: State, steps: seq<Step>, t: int)
    requires EventInv(s.k, s.e, s.asked) && Run(s, steps)
    ensures var r := After(s, steps);
      EventInv(r.k, r.e, r.asked) && (In(r.k, r.e.w, t) ==> t in r.asked && !Satisfied(r.asked[t], r.e.bits))
    decreases |steps|
  {
    if steps == [] {
      if In(s.k, s.e.w, t) {
        assert WaiterOk(s.k, s.e.w, s.asked, t) && !Satisfied(At(s.k, t).interest, s.e.bits);
      }
    } else {
      match steps[0] {
        case Send(bits) => SendKeeps(s.k, s.e, s.asked, bits);
        case Receive(i, time) => ReceiveKeeps(s.k, s.e, s.asked, i, time);
        case Return => ReturnKeeps(s.k, s.e, s.asked);
        case Other(next) => EventRely(s.k, next, s.e, s.asked);
      }
      NoneSatisfied(Next(s, steps[0]), steps[1..], t);
    }
  }

  lemma {:induction false} SweptRely(k: Sched, e: Event, asked: map<int, Interest>, q: seq<int>, w: int, ts: set<int>)
    requires Partial(k, e, asked, q) && NoDup(q) && forall t {:trigger t in q} :: t in q ==> In(k, e.w, t)
    requires w != e.w && Inside(k, w, ts) && ts !! asked.Keys
    ensures Rely(k, Swept(k, e.bits, q).0, w, ts)
    decreases |q|
  {
    RelyRefl(k, w, ts);
    if q != [] {
      var h, i := q[0], At(k, q[0]).interest;
      assert h in q && q == [h] + q[1..];
      assert In(k, e.w, h) && (In(k, w, h) ==> w == e.w);
      TailNoDup(q);
      if Satisfied(i, e.bits) {
        WakeKeeps(k, e, asked, q);
        var k1 := With(k, h, At(k, h).(interest := Got(i, e.bits)));
        var k2 := Resumed(k1, h);
        assert WaitOk(k, e.w);
        WithRely(k, h, At(k, h).(interest := Got(i, e.bits)), w, ts);
        InsideRely(k, k1, w, ts);
        assert In(k1, w, h) == In(k, w, h);
        ResumedRely(k1, h, w, ts);
        RelyTrans(k, k1, k2, w, ts);
        InsideRely(k, k2, w, ts);
        forall t | t in q[1..] ensures In(k2, e.w, t) { assert t in q; }
        var e2 := e.(bits := Left(i, e.bits));
        SweptRely(k2, e2, asked, q[1..], w, ts);
        RelyTrans(k, k2, Swept(k2, e2.bits, q[1..]).0, w, ts);
      } else {
        forall t | t in q[1..] ensures In(k, e.w, t) { assert t in q; }
        SweptRely(k, e, asked, q[1..], w, ts);
      }
    }
  }

  /** What the steps of an event are to another list, whose threads are not inside calls on this event. */
  lemma StepRely(s: State, step: Step, w: int, ts: set<int>)
    requires EventInv(s.k, s.e, s.asked) && Enabled(s, step) && !step.Other? && w != s.e.w && Inside(s.k, w, ts) && ts !! s.asked.Keys
    requires step.Receive? ==> s.k.current !in ts
    ensures Rely(s.k, Next(s, step).k, w, ts)
  {
    RelyRefl(s.k, w, ts);
    match step
    case Send(bits) =>
      if bits != {} {
        var e1 := s.e.(bits := s.e.bits + bits);
        assert WaitOk(s.k, s.e.w);
        forall t | In(s.k, s.e.w, t) ensures t in Waiting(s.k, s.e.w) {}
        SweptRely(s.k, e1, s.asked, Waiting(s.k, s.e.w), w, ts);
      }
    case Receive(i, time) => ReceiveRely(s, i, time, w, ts);
    case Return =>
  }

  lemma ReceiveRely(s: State, i: Interest, time: int, w: int, ts: set<int>)
    requires EventInv(s.k, s.e, s.asked) && Enabled(s, Receive(i, time)) && w != s.e.w && Inside(s.k, w, ts) && s.k.current !in ts
    ensures Rely(s.k, Received(s.k, s.e, i, time).0, w, ts)
  {
    var t, k := s.k.current, s.k;
    RelyRefl(k, w, ts);
    WithRely(k, t, At(k, t).(err := Ok), w, ts);
    WithRely(k, t, At(k, t).(err := TimedOut), w, ts);
    if i.bits != {} && !Satisfied(i, s.e.bits) && time != 0 {
      FieldsKeep(k, s.e, s.asked, At(k, t).(err := Ok, interest := i));
      var k1 := With(k, t, At(k, t).(err := Ok, interest := i));
      WithRely(k, t, At(k, t).(err := Ok, interest := i), w, ts);
      InsideRely(k, k1, w, ts);
      BlockedRely(k1, s.e.w, s.e.prioFlag, time > 0, w, ts);
      RelyTrans(k, k1, Blocked(k1, s.e.w, s.e.prioFlag, time > 0), w, ts);
      assert k.tcb[t := At(k, t).(err := Ok)][t := At(k, t).(err := Ok, interest := i)] == k1.tcb;
    }
  }

  lemma {:induction false} SweptTcb(k: Sched, bits: Bits, q: seq<int>)
    ensures k.tcb.Keys <= Swept(k, bits, q).0.tcb.Keys
    decreases |q|
  {
    if q != [] {
      var i := At(k, q[0]).interest;
      if Satisfied(i, bits) {
        SweptTcb(Resumed(With(k, q[0], At(k, q[0]).(interest := Got(i, bits))), q[0]), Left(i, bits), q[1..]);
      } else {
        SweptTcb(k, bits, q[1..]);
      }
    }
  }

  /** No step removes a thread. */
  lemma SweptKeys(k: Sched, e: Event, asked: map<int, Interest>, step: Step)
    requires !step.Other?
    ensures k.tcb.Keys <= Next(State(k, e, asked), step).k.tcb.Keys
  {
    if step.Send? { SweptTcb(k, e.bits + step.bits, Waiting(k, e.w)); }
  }
}
