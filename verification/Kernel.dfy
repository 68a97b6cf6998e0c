/**
 The whole system: the scheduler and any number of semaphores, mutexes, events, mailboxes and message
 queues.  One invariant holds in every run: the scheduler's and that of every object.
 */
module Kernel {
  import opened Threads
  import opened Ipc
  import Semaphores
  import Mutexes
  import Events
  import Mailboxes
  import MessageQueues

  /** An object with the threads inside calls on it; the k of a message queue's record is not used. */
  datatype Obj =
    | Sem(sem: Semaphores.Sem)
    | Mutex(m: Mutexes.Mutex, ts: set<int>)
    | Event(e: Events.Event, asked: map<int, Interest>)
    | Mailbox(b: Mailboxes.Box)
    | Queue(q: MessageQueues.State)

  function Lists(o: Obj): set<int> {
    match o
    case Sem(sem) => {sem.side.w}
    case Mutex(m, _) => {m.w}
    case Event(e, _) => {e.w}
    case Mailbox(b) => {b.recv.w, b.send.w}
    case Queue(q) => {q.recv.w}
  }

  /** The threads inside a call on o that has waited or waits. */
  function Members(o: Obj): set<int> {
    match o
    case Sem(sem) => sem.side.ts
    case Mutex(_, ts) => ts
    case Event(_, asked) => asked.Keys
    case Mailbox(b) => b.recv.ts + b.send.ts
    case Queue(q) => q.recv.ts
  }

  ghost predicate ObjInv(k: Sched, o: Obj) {
    match o
    case Sem(sem) => Semaphores.SemInv(k, sem)
    case Mutex(m, ts) => Mutexes.MutexInv(k, m, ts)
    case Event(e, asked) => Events.EventInv(k, e, asked)
    case Mailbox(b) => Mailboxes.BoxInv(k, b)
    case Queue(q) => MessageQueues.QueueInv(q.(k := k))
  }

  /** The lists of o with the threads inside calls that may wait there. */
  function Sides(o: Obj): seq<(int, set<int>)> {
    match o
    case Sem(sem) => [(sem.side.w, sem.side.ts)]
    case Mutex(m, ts) => [(m.w, ts)]
    case Event(e, asked) => [(e.w, asked.Keys)]
    case Mailbox(b) => [(b.recv.w, b.recv.ts), (b.send.w, b.send.ts)]
    case Queue(q) => [(q.recv.w, q.recv.ts)]
  }

  ghost predicate RelyAt(k: Sched, k': Sched, side: (int, set<int>)) {
    Rely(k, k', side.0, side.1)
  }

  ghost predicate ObjRely(k: Sched, k': Sched, o: Obj) {
    k.tcb.Keys <= k'.tcb.Keys && forall i {:trigger RelyAt(k, k', Sides(o)[i])} :: 0 <= i < |Sides(o)| ==> RelyAt(k, k', Sides(o)[i])
  }

  lemma ObjKept(k: Sched, k': Sched, o: Obj)
    requires ObjInv(k, o) && ObjRely(k, k', o) && Valid(k')
    ensures ObjInv(k', o)
  {
    assert RelyAt(k, k', Sides(o)[0]);
    match o
    case Sem(sem) => SideRely(k, k', sem.side);
    case Mutex(m, ts) => Mutexes.MutexRely(k, k', m, ts);
    case Event(e, asked) => Events.EventRely(k, k', e, asked);
    case Mailbox(b) =>
      assert RelyAt(k, k', Sides(o)[1]);
      Mailboxes.BoxRely(k, k', b);
    case Queue(q) => ServedRely(k, k', q.recv, |q.d|);
  }

  /** The threads inside calls on o exist, and those not waiting have no timer running. */
  lemma ObjInside(k: Sched, o: Obj, i: nat)
    requires ObjInv(k, o) && i < |Sides(o)|
    ensures Inside(k, Sides(o)[i].0, Sides(o)[i].1) && Sides(o)[i].0 in Lists(o) && Sides(o)[i].1 <= Members(o)
  {
    match o
    case Sem(sem) => SideInside(k, sem.side);
    case Mutex(m, ts) => Mutexes.MutexInside(k, m, ts);
    case Event(e, asked) => Events.EventInside(k, e, asked);
    case Mailbox(b) =>
      SideInside(k, b.recv);
      SideInside(k, b.send);
    case Queue(q) => SideInside(k, q.recv);
  }

  datatype ObjStep =
    | SemStep(s: Semaphores.Step)
    | MutexStep(m: Mutexes.Step)
    | EventStep(e: Events.Step)
    | MailboxStep(b: Mailboxes.Step)
    | QueueStep(q: MessageQueues.Step)

  /** The step is one of the object's own, and may be made. */
  ghost predicate ObjEnabled(k: Sched, o: Obj, step: ObjStep) {
    match (o, step)
    case (Sem(sem), SemStep(s)) => !s.Other? && Semaphores.Enabled(k, sem, s)
    case (Mutex(m, ts), MutexStep(s)) => !s.Other? && Mutexes.Enabled(Mutexes.State(k, m, ts), s)
    case (Event(e, asked), EventStep(s)) => !s.Other? && Events.Enabled(Events.State(k, e, asked), s)
    case (Mailbox(b), MailboxStep(s)) => !s.Other? && Mailboxes.Enabled(Mailboxes.State(k, b), s)
    case (Queue(q), QueueStep(s)) => !s.Other? && MessageQueues.Enabled(q.(k := k), s)
    case _ => false
  }

  function ObjNext(k: Sched, o: Obj, step: ObjStep): (Sched, Obj) {
    match (o, step)
    case (Sem(sem), SemStep(s)) => var r := Semaphores.Next(k, sem, s); (r.0, Sem(r.1))
    case (Mutex(m, ts), MutexStep(s)) => var r := Mutexes.Next(Mutexes.State(k, m, ts), s); (r.k, Mutex(r.o, r.ts))
    case (Event(e, asked), EventStep(s)) => var r := Events.Next(Events.State(k, e, asked), s); (r.k, Event(r.e, r.asked))
    case (Mailbox(b), MailboxStep(s)) => var r := Mailboxes.Next(Mailboxes.State(k, b), s); (r.k, Mailbox(r.b))
    case (Queue(q), QueueStep(s)) => var r := MessageQueues.Next(q.(k := k), s); (r.k, Queue(r))
    case _ => (k, o)
  }

  lemma ObjStepKeeps(k: Sched, o: Obj, step: ObjStep)
    requires ObjInv(k, o) && ObjEnabled(k, o, step)
    ensures ObjInv(ObjNext(k, o, step).0, ObjNext(k, o, step).1)
  {
    match (o, step)
    case (Sem(sem), SemStep(s)) => Semaphores.Conservation(k, sem, [s]);
    case (Mutex(m, ts), MutexStep(s)) => Mutexes.Safety(Mutexes.State(k, m, ts), [s]);
    case (Event(e, asked), EventStep(s)) => Events.NoneSatisfied(Events.State(k, e, asked), [s], 0);
    case (Mailbox(b), MailboxStep(s)) => Mailboxes.BoundedFifo(Mailboxes.State(k, b), [s]);
    case (Queue(q), QueueStep(s)) => MessageQueues.NoLostWakeup(q.(k := k), [s]);
    case _ =>
  }

  /** The step is made by the current thread in its own name. */
  ghost predicate ByThread(o: Obj, step: ObjStep) {
    match (o, step)
    case (Sem(sem), SemStep(s)) => s.Take? && sem.value == 0 && s.time != 0
    case (Mutex(_, _), MutexStep(_)) => true
    case (Event(_, _), EventStep(s)) => s.Receive?
    case (Mailbox(b), MailboxStep(s)) => Mailboxes.ByThread(b, s)
    case (Queue(q), QueueStep(s)) => s.Fetch? && q.d == [] && (s.time != 0 || s.again)
    case _ => false
  }

  lemma ObjStepRely(k: Sched, o: Obj, step: ObjStep, w: int, ts: set<int>)
    requires ObjInv(k, o) && ObjEnabled(k, o, step) && w !in Lists(o) && Inside(k, w, ts) && ts !! Members(o)
    requires ByThread(o, step) ==> k.current !in ts
    ensures Rely(k, ObjNext(k, o, step).0, w, ts)
  {
    match (o, step)
    case (Sem(sem), SemStep(s)) => Semaphores.StepRely(k, sem, s, w, ts);
    case (Mutex(m, S1), MutexStep(s)) => Mutexes.StepRely(Mutexes.State(k, m, S1), s, w, ts);
    case (Event(e, asked), EventStep(s)) => Events.StepRely(Events.State(k, e, asked), s, w, ts);
    case (Mailbox(b), MailboxStep(s)) => Mailboxes.StepRely(Mailboxes.State(k, b), s, w, ts);
    case (Queue(q), QueueStep(s)) => MessageQueues.StepRely(q.(k := k), s, w, ts);
    case _ =>
  }

  // ----- the steps of the system

  datatype Step =
    | On(i: int, step: ObjStep)
    | Reschedule                       // rt_schedule, after any region, or rt_thread_yield
    | Expire(t: int)                   // the timer of t, rt_thread_timeout
    | Sleep                            // rt_thread_sleep
    | Create(t: int, prio: nat, tick: nat)
    | Startup(t: int)
    | SuspendThread(t: int)
    | ResumeThread(t: int)
    | SetPriority(t: int, prio: nat)
    | CloseThread(t: int)
    | Tick
    | Lock
    | Unlock

  datatype State = State(k: Sched, objs: map<int, Obj>)

  ghost predicate Inv(s: State) {
    && Valid(s.k)
    && (forall i {:trigger s.objs[i]} :: i in s.objs ==> ObjInv(s.k, s.objs[i]))
    && (forall i, j {:trigger s.objs[i], s.objs[j]} :: i in s.objs && j in s.objs && i != j ==>
          Lists(s.objs[i]) !! Lists(s.objs[j]) && Members(s.objs[i]) !! Members(s.objs[j]))
  }

  ghost predicate Outside(s: State, t: int) {
    forall i {:trigger s.objs[i]} :: i in s.objs ==> t !in Members(s.objs[i])
  }

  ghost predicate OutsideBut(s: State, t: int, j: int) {
    forall i {:trigger s.objs[i]} :: i in s.objs && i != j ==> t !in Members(s.objs[i])
  }

  /** Preconditions of the interface: no thread is deleted, or resumed by others, while it waits for an object. */
  ghost predicate Enabled(s: State, step: Step) {
    var k := s.k;
    match step
    case On(i, os) => i in s.objs && ObjEnabled(k, s.objs[i], os) && (Joins(s, i, os) ==> OutsideBut(s, k.current, i))
    case Reschedule => true
    case Expire(t) => t in k.tcb && At(k, t).timer
    case Sleep => At(k, k.current).stat == Running && Outside(s, k.current)
    case Create(t, prio, tick) => t !in k.tcb && prio < |k.ready| && tick > 0
    case Startup(t) => t in k.tcb && At(k, t).stat == Init && Outside(s, t)
    case SuspendThread(t) => t in k.tcb
    case ResumeThread(t) => t in k.tcb && forall w {:trigger In(k, w, t)} :: !In(k, w, t)
    case SetPriority(t, prio) => t in k.tcb && prio < |k.ready|
    case CloseThread(t) => t in k.tcb && At(k, t).stat != Init && Outside(s, t) && forall w {:trigger In(k, w, t)} :: !In(k, w, t)
    case Tick => true
    case Lock => true
    case Unlock => k.lock > 0
  }

  /** The step is the current thread's, or makes it a member. */
  ghost predicate Joins(s: State, i: int, os: ObjStep)
    requires i in s.objs
  {
    ByThread(s.objs[i], os) || s.k.current in Members(ObjNext(s.k, s.objs[i], os).1)
  }

  ghost function SchedNext(k: Sched, step: Step): Sched {
    match step
    case On(_, _) => k
    case Reschedule => Scheduled(k)
    case Expire(t) => TimedOutThread(k, t)
    case Sleep => Asleep(k)
    case Create(t, prio, tick) => With(k, t, Created(prio, tick))
    case Startup(t) => Started(k, t)
    case SuspendThread(t) => Suspended(k, t)
    case ResumeThread(t) => Resumed(k, t)
    case SetPriority(t, prio) => Reprioritized(k, t, prio)
    case CloseThread(t) => Closed(k, t)
    case Tick => Ticked(k)
    case Lock => k.(lock := k.lock + 1)
    case Unlock => if k.lock > 0 then k.(lock := k.lock - 1) else k
  }

  ghost function Next(s: State, step: Step): State {
    match step
    case On(i, os) =>
      if i in s.objs then var r := ObjNext(s.k, s.objs[i], os); State(r.0, s.objs[i := r.1]) else s
    case _ => s.(k := SchedNext(s.k, step))
  }

  lemma SchedKeys(k: Sched, step: Step)
    ensures k.tcb.Keys <= SchedNext(k, step).tcb.Keys
  {
  }

  lemma SchedStepValid(s: State, step: Step)
    requires Inv(s) && Enabled(s, step) && !step.On?
    ensures Valid(SchedNext(s.k, step)) && s.k.tcb.Keys <= SchedNext(s.k, step).tcb.Keys
  {
    var k := s.k;
    SchedKeys(k, step);
    match step
    case Reschedule => ScheduledValid(k);
    case Expire(t) => TimeoutValid(k, t);
    case Sleep => AsleepValid(k);
    case Create(t, prio, tick) => CreatedValid(k, t, prio, tick);
    case Startup(t) => StartedValid(k, t);
    case SuspendThread(t) => if At(k, t).stat == Ready || At(k, t).stat == Running { SuspendedValid(k, t, false); }
    case ResumeThread(t) => ResumedValid(k, t);
    case SetPriority(t, prio) => ReprioritizedValid(k, t, prio);
    case CloseThread(t) => ClosedValid(k, t);
    case Tick => TickedValid(k);
    case Lock => LockValid(k, k.lock + 1);
    case Unlock => LockValid(k, k.lock - 1);
  }

  lemma SchedStepRely(s: State, step: Step, w: int, ts: set<int>)
    requires Inv(s) && Enabled(s, step) && !step.On? && Inside(s.k, w, ts)
    requires step.Sleep? ==> s.k.current !in ts
    requires step.Startup? || step.CloseThread? ==> step.t !in ts
    ensures Rely(s.k, SchedNext(s.k, step), w, ts)
  {
    var k := s.k;
    match step
    case Reschedule => ScheduledRely(k, w, ts);
    case Expire(t) => TimeoutRely(k, t, w, ts);
    case Sleep => AsleepRely(k, w, ts);
    case Create(t, prio, tick) => WithRely(k, t, Created(prio, tick), w, ts);
    case Startup(t) => StartedRely(k, t, w, ts);
    case SuspendThread(t) => SuspendedRely(k, t, w, ts);
    case ResumeThread(t) => ResumedRely(k, t, w, ts);
    case SetPriority(t, prio) => ReprioritizedRely(k, t, prio, w, ts);
    case CloseThread(t) => ClosedRely(k, t, w, ts);
    case Tick => TickedRely(k, w, ts);
    case Lock => RelySame(k, k.(lock := k.lock + 1), w, ts);
    case Unlock => RelySame(k, k.(lock := k.lock - 1), w, ts);
  }

  lemma SchedStepKeeps(s: State, step: Step)
    requires Inv(s) && Enabled(s, step) && !step.On?
    ensures Inv(Next(s, step))
  {
    SchedStepValid(s, step);
    forall i | i in s.objs ensures ObjInv(Next(s, step).k, s.objs[i]) {
      OtherRely(s, step, i);
      ObjKept(s.k, Next(s, step).k, s.objs[i]);
    }
  }

  /** What a step leaves to every object but the one it is made on. */
  lemma OtherRely(s: State, step: Step, j: int)
    requires Inv(s) && Enabled(s, step) && j in s.objs && (step.On? ==> j != step.i)
    ensures ObjRely(s.k, Next(s, step).k, s.objs[j])
  {
    var other := s.objs[j];
    if step.On? {
      ObjStepFrame(s.k, s.objs[step.i], step.step);
    } else {
      SchedStepValid(s, step);
    }
    forall n | 0 <= n < |Sides(other)| ensures RelyAt(s.k, Next(s, step).k, Sides(other)[n]) {
      ObjInside(s.k, other, n);
      if step.On? {
        ObjStepRely(s.k, s.objs[step.i], step.step, Sides(other)[n].0, Sides(other)[n].1);
      } else {
        SchedStepRely(s, step, Sides(other)[n].0, Sides(other)[n].1);
      }
    }
  }

  lemma ObjStepFrame(k: Sched, o: Obj, step: ObjStep)
    requires ObjEnabled(k, o, step)
    ensures var r := ObjNext(k, o, step);
      Lists(r.1) == Lists(o) && Members(r.1) <= Members(o) + {k.current} && k.tcb.Keys <= r.0.tcb.Keys
  {
    match (o, step)
    case (Sem(sem), SemStep(s)) => SemFrame(k, sem, s);
    case (Mutex(m, ts), MutexStep(s)) => MutexFrame(k, m, ts, s);
    case (Event(e, asked), EventStep(s)) => Events.SweptKeys(k, e, asked, s);
    case (Mailbox(b), MailboxStep(s)) => BoxFrame(k, b, s);
    case (Queue(q), QueueStep(s)) => QueueFrame(q.(k := k), s);
    case _ =>
  }

  lemma BlockedKeys(k: Sched, v: int, prioFlag: bool, timed: bool)
    ensures k.tcb.Keys <= Blocked(k, v, prioFlag, timed).tcb.Keys
  {
  }

  lemma SignalledKeys(k: Sched, s: Side)
    ensures k.tcb.Keys <= Signalled(k, s).0.tcb.Keys && Signalled(k, s).1.w == s.w && Signalled(k, s).1.ts == s.ts
  {
  }

  lemma SemFrame(k: Sched, o: Semaphores.Sem, s: Semaphores.Step)
    requires !s.Other?
    ensures var r := Semaphores.Next(k, o, s);
      r.1.side.w == o.side.w && r.1.side.ts <= o.side.ts + {k.current} && k.tcb.Keys <= r.0.tcb.Keys
  {
    match s
    case Take(time) => BlockedKeys(SetErr(k, k.current, Ok), o.side.w, o.prioFlag, time > 0);
    case Release => SignalledKeys(k, o.side);
    case Return =>
  }

  lemma MutexFrame(k: Sched, m: Mutexes.Mutex, ts: set<int>, s: Mutexes.Step)
    requires !s.Other?
    ensures var r := Mutexes.Next(Mutexes.State(k, m, ts), s); r.o.w == m.w && r.ts <= ts + {k.current} && k.tcb.Keys <= r.k.tcb.Keys
  {
    match s
    case Take(time) =>
      var k1 := Mutexes.Boosted(SetErr(k, k.current, Ok), m);
      assert k.tcb.Keys <= k1.tcb.Keys;
      BlockedKeys(k1, m.w, m.prioFlag, time > 0);
    case Release =>
      var k1 := Mutexes.Restored(k, m);
      assert k.tcb.Keys <= k1.tcb.Keys;
    case Return =>
  }

  lemma BoxFrame(k: Sched, b: Mailboxes.Box, s: Mailboxes.Step)
    requires !s.Other?
    ensures var r := Mailboxes.Next(Mailboxes.State(k, b), s);
      && r.b.recv.w == b.recv.w && r.b.send.w == b.send.w
      && r.b.recv.ts + r.b.send.ts <= b.recv.ts + b.send.ts + {k.current} && k.tcb.Keys <= r.k.tcb.Keys
  {
    SignalledKeys(k, b.recv);
    SignalledKeys(k, b.send);
    match s
    case Receive(time, _) => BlockedKeys(SetErr(k, k.current, Ok), b.recv.w, b.prioFlag, time > 0);
    case Send(_, time, _) => BlockedKeys(SetErr(k, k.current, Ok), b.send.w, b.prioFlag, time > 0);
    case _ =>
  }

  lemma QueueFrame(q: MessageQueues.State, s: MessageQueues.Step)
    requires !s.Other?
    ensures var r := MessageQueues.Next(q, s);
      r.recv.w == q.recv.w && r.recv.ts <= q.recv.ts + {q.k.current} && q.k.tcb.Keys <= r.k.tcb.Keys
  {
    SignalledKeys(q.k, q.recv);
    match s
    case Fetch(time, _) => BlockedKeys(SetErr(q.k, q.k.current, Ok), q.recv.w, q.prioFlag, time > 0);
    case _ =>
  }

  lemma OnKeeps(s: State, i: int, os: ObjStep)
    requires Inv(s) && Enabled(s, On(i, os))
    ensures Inv(Next(s, On(i, os)))
  {
    var o := s.objs[i];
    var (k', o') := ObjNext(s.k, o, os);
    ObjStepKeeps(s.k, o, os);
    ObjStepFrame(s.k, o, os);
    ObjInvValid(k', o');
    forall j | j in s.objs && j != i
      ensures ObjInv(k', s.objs[j]) && Lists(o') !! Lists(s.objs[j]) && Members(o') !! Members(s.objs[j])
    {
      OtherRely(s, On(i, os), j);
      ObjKept(s.k, k', s.objs[j]);
    }
  }

  lemma ObjInvValid(k: Sched, o: Obj)
    requires ObjInv(k, o)
    ensures Valid(k)
  {
  }

  ghost predicate Run(s: State, steps: seq<Step>)
    decreases |steps|
  {
    steps == [] || (Enabled(s, steps[0]) && Run(Next(s, steps[0]), steps[1..]))
  }

  ghost function After(s: State, steps: seq<Step>): State
    decreases |steps|
  {
    if steps == [] then s else After(Next(s, steps[0]), steps[1..])
  }

  /**
   In every run of the system the invariant holds.  Then every started, unclosed thread is the current
   one, or ready in exactly the queue of its priority, or suspended in at most one wait list, and a
   thread whose timer is running is suspended.
   */
  lemma {:induction false} KernelSafety(s: State, steps: seq<Step>, t: int)
    requires Inv(s) && Run(s, steps)
    ensures var e := After(s, steps); Inv(e) && (t in e.k.tcb ==> InOnePlace(e.k, t))
    decreases |steps|
  {
    if steps == [] {
      if t in s.k.tcb { OnePlaceOnly(s.k, t); }
    } else {
      match steps[0] {
        case On(i, os) => OnKeeps(s, i, os);
        case _ => SchedStepKeeps(s, steps[0]);
      }
      KernelSafety(Next(s, steps[0]), steps[1..], t);
    }
  }

  /** Where a thread can be. */
  ghost predicate InOnePlace(k: Sched, t: int) {
    var c := At(k, t);
    && (c.stat == Running ==> t == k.current)
    && (c.stat == Ready ==> t != k.current && c.prio < |k.ready| && t in k.ready[c.prio] && forall w {:trigger In(k, w, t)} :: !In(k, w, t))
    && (forall p {:trigger k.ready[p]} :: 0 <= p < |k.ready| && t in k.ready[p] ==> c.stat == Ready && p == c.prio)
    && (forall v, w {:trigger In(k, v, t), In(k, w, t)} :: In(k, v, t) && In(k, w, t) ==> v == w && c.stat == Suspend)
    && (c.timer ==> c.stat == Suspend)
    && (c.stat == Init || c.stat == Close ==> !c.timer && forall w {:trigger In(k, w, t)} :: !In(k, w, t))
  }

  lemma OnePlaceOnly(k: Sched, t: int)
    requires Valid(k) && t in k.tcb
    ensures InOnePlace(k, t)
  {
    assert ThreadOk(k, t);
    forall p | 0 <= p < |k.ready| && t in k.ready[p] ensures At(k, t).stat == Ready && p == At(k, t).prio && t != k.current {
      assert QueueOk(k, p);
    }
    forall w | In(k, w, t) ensures At(k, t).stat == Suspend { assert WaitOk(k, w); }
  }

  /** An object as its init function leaves it. */
  ghost predicate Fresh(o: Obj) {
    match o
    case Sem(sem) => sem.value == sem.start && sem.released == 0 && sem.taken == 0 && sem.side.ts == {} && sem.side.woken == {}
    case Mutex(m, ts) => m.value == 1 && m.owner == Mutexes.Nobody && m.hold == 0 && ts == {}
    case Event(_, asked) => asked == map[]
    case Mailbox(b) =>
      && b.q == [] && b.sent == [] && b.got == [] && b.recv.w != b.send.w
      && b.recv.ts == {} && b.recv.woken == {} && b.send.ts == {} && b.send.woken == {}
    case Queue(q) => q.d == [] && q.linked == multiset{} && q.fetched == multiset{} && q.recv.ts == {} && q.recv.woken == {}
  }

  /** The system starts in a state that satisfies the invariant. */
  lemma BootInv(n: nat, idle: int, prio: nat, tick: nat, objs: map<int, Obj>)
    requires prio < n <= PRIORITY_LIMIT && tick > 0
    requires forall i {:trigger objs[i]} :: i in objs ==> Fresh(objs[i])
    requires forall i, j {:trigger objs[i], objs[j]} :: i in objs && j in objs && i != j ==> Lists(objs[i]) !! Lists(objs[j])
    ensures Inv(State(Booted(n, idle, prio, tick), objs))
  {
    var k := Booted(n, idle, prio, tick);
    BootedValid(n, idle, prio, tick);
    forall i | i in objs ensures ObjInv(k, objs[i]) && Members(objs[i]) == {} {
      assert forall w, t :: !In(k, w, t);
    }
  }
}
