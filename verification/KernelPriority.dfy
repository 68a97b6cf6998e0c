/**
 Priority inheritance in the whole system: every mutex is ordered by priority, no thread takes a second
 mutex while it owns one, and nobody changes a thread's priority from outside.
 */
module KernelPriority {
  import opened Threads
  import opened Ipc
  import opened Kernel
  import M = Mutexes
  import P = MutexPriority

  // ----- what the steps do to priorities

  /** No started thread becomes an initial one, and no thread outside xs gets another priority. */
  ghost predicate Steady(k: Sched, k': Sched, xs: set<int>) {
    forall u {:trigger At(k', u)} :: u in k.tcb ==>
      u in k'.tcb && (u !in xs ==> At(k', u).prio == At(k, u).prio) && (At(k, u).stat != Init ==> At(k', u).stat != Init)
  }

  lemma SteadyTrans(k: Sched, k1: Sched, k2: Sched, xs: set<int>)
    requires Steady(k, k1, xs) && Steady(k1, k2, xs)
    ensures Steady(k, k2, xs)
  {
    forall u | u in k.tcb
      ensures u in k2.tcb && (u !in xs ==> At(k2, u).prio == At(k, u).prio) && (At(k, u).stat != Init ==> At(k2, u).stat != Init)
    {
      var c, d := At(k1, u), At(k2, u);
      assert u in k1.tcb && (u !in xs ==> c.prio == At(k, u).prio);
      assert u in k2.tcb && (u !in xs ==> d.prio == c.prio);
    }
  }

  lemma ScheduledSteady(k: Sched, xs: set<int>)
    ensures Steady(k, Scheduled(k), xs)
  {
  }

  lemma BlockedSteady(k: Sched, w: int, prioFlag: bool, timed: bool, xs: set<int>)
    ensures Steady(k, Blocked(k, w, prioFlag, timed), xs)
  {
  }

  lemma SignalledSteady(k: Sched, side: Side, xs: set<int>)
    ensures Steady(k, Signalled(k, side).0, xs)
  {
  }

  lemma ErrBlockedSteady(k: Sched, w: int, prioFlag: bool, timed: bool, xs: set<int>)
    ensures Steady(k, Blocked(SetErr(k, k.current, Ok), w, prioFlag, timed), xs)
  {
    BlockedSteady(SetErr(k, k.current, Ok), w, prioFlag, timed, xs);
    SteadyTrans(k, SetErr(k, k.current, Ok), Blocked(SetErr(k, k.current, Ok), w, prioFlag, timed), xs);
  }

  lemma TickedSteady(k: Sched, xs: set<int>)
    ensures Steady(k, Ticked(k), xs)
  {
    var c := At(k, k.current);
    if c.remaining == 1 {
      var k1 := With(k, k.current, c.(remaining := c.initTick));
      ScheduledSteady(k1, xs);
      SteadyTrans(k, k1, Scheduled(k1), xs);
    }
  }

  lemma SchedSteady(s: State, step: Step, xs: set<int>)
    requires Inv(s) && Enabled(s, step) && !step.On? && !step.SetPriority? && (step.Startup? ==> step.t in xs)
    ensures Steady(s.k, SchedNext(s.k, step), xs)
  {
    var k := s.k;
    match step
    case Reschedule => ScheduledSteady(k, xs);
    case Tick => TickedSteady(k, xs);
    case _ =>
  }

  lemma {:induction false} SweptSteady(k: Sched, bits: Bits, q: seq<int>, xs: set<int>)
    ensures Steady(k, Events.Swept(k, bits, q).0, xs)
    decreases |q|
  {
    if q != [] {
      var i, h := At(k, q[0]).interest, q[0];
      if Events.Satisfied(i, bits) {
        var k1 := Resumed(With(k, h, At(k, h).(interest := Events.Got(i, bits))), h);
        SweptSteady(k1, Events.Left(i, bits), q[1..], xs);
        SteadyTrans(k, k1, Events.Swept(k1, Events.Left(i, bits), q[1..]).0, xs);
      } else {
        SweptSteady(k, bits, q[1..], xs);
      }
    }
  }

  lemma EventSteady(k: Sched, e: Events.Event, asked: map<int, Interest>, step: Events.Step, xs: set<int>)
    requires !step.Other?
    ensures Steady(k, Events.Next(Events.State(k, e, asked), step).k, xs)
  {
    match step
    case Send(bits) => SweptSteady(k, e.bits + bits, Waiting(k, e.w), xs);
    case Receive(i, time) =>
      var k1 := With(k, k.current, At(k, k.current).(err := Ok));
      var k2 := With(k1, k.current, At(k1, k.current).(interest := i));
      BlockedSteady(k2, e.w, e.prioFlag, time > 0, xs);
      SteadyTrans(k, k2, Blocked(k2, e.w, e.prioFlag, time > 0), xs);
    case Return =>
  }

  lemma MailboxSteady(k: Sched, b: Mailboxes.Box, step: Mailboxes.Step, xs: set<int>)
    requires Mailboxes.Enabled(Mailboxes.State(k, b), step) && !step.Other?
    ensures Steady(k, Mailboxes.Next(Mailboxes.State(k, b), step).k, xs)
  {
    SignalledSteady(k, b.recv, xs);
    SignalledSteady(k, b.send, xs);
    if step.Receive? && b.q == [] && step.time != 0 { ErrBlockedSteady(k, b.recv.w, b.prioFlag, step.time > 0, xs); }
    if step.Send? && |b.q| >= b.size && step.time != 0 { ErrBlockedSteady(k, b.send.w, b.prioFlag, step.time > 0, xs); }
  }

  lemma SemSteady(k: Sched, o: Semaphores.Sem, step: Semaphores.Step, xs: set<int>)
    requires !step.Other?
    ensures Steady(k, Semaphores.Next(k, o, step).0, xs)
  {
    SignalledSteady(k, o.side, xs);
    if step.Take? && o.value == 0 && step.time != 0 { ErrBlockedSteady(k, o.side.w, o.prioFlag, step.time > 0, xs); }
  }

  lemma QueueSteady(q: MessageQueues.State, step: MessageQueues.Step, xs: set<int>)
    requires !step.Other?
    ensures Steady(q.k, MessageQueues.Next(q, step).k, xs)
  {
    SignalledSteady(q.k, q.recv, xs);
    if step.Fetch? && q.d == [] && step.time != 0 { ErrBlockedSteady(q.k, q.recv.w, q.prioFlag, step.time > 0, xs); }
  }

  /** The steps on semaphores, events, mailboxes and message queues. */
  lemma ObjSteady(k: Sched, o: Obj, step: ObjStep, xs: set<int>)
    requires ObjInv(k, o) && ObjEnabled(k, o, step) && !o.Mutex?
    ensures Steady(k, ObjNext(k, o, step).0, xs)
  {
    match (o, step)
    case (Sem(sem), SemStep(s)) => SemSteady(k, sem, s, xs);
    case (Event(e, asked), EventStep(s)) => EventSteady(k, e, asked, s, xs);
    case (Mailbox(b), MailboxStep(s)) => MailboxSteady(k, b, s, xs);
    case (Queue(q), QueueStep(s)) => QueueSteady(q.(k := k), s, xs);
    case _ =>
  }

  /** A step on a mutex changes the priority of nobody but its owner. */
  lemma MutexSteady(k: Sched, o: M.Mutex, ts: set<int>, step: M.Step, xs: set<int>)
    requires M.MutexInv(k, o, ts) && M.Enabled(M.State(k, o, ts), step) && !step.Other? && (o.owner.Owner? ==> o.owner.t in xs)
    ensures Steady(k, M.Next(M.State(k, o, ts), step).k, xs)
  {
    match step
    case Take(time) =>
      var k1 := SetErr(k, k.current, Ok);
      if o.owner != M.Owner(k.current) && o.value == 0 && time != 0 {
        assert Steady(k, k1, xs) && Steady(k1, M.Boosted(k1, o), xs);
        BlockedSteady(M.Boosted(k1, o), o.w, o.prioFlag, time > 0, xs);
        SteadyTrans(k, k1, M.Boosted(k1, o), xs);
        SteadyTrans(k, M.Boosted(k1, o), Blocked(M.Boosted(k1, o), o.w, o.prioFlag, time > 0), xs);
      }
    case Release =>
      if o.owner == M.Owner(k.current) && o.hold == 1 {
        var k1 := M.Restored(k, o);
        assert Steady(k, k1, xs);
        if Waiting(k1, o.w) != [] {
          assert Steady(k1, Resumed(k1, Waiting(k1, o.w)[0]), xs);
          SteadyTrans(k, k1, Resumed(k1, Waiting(k1, o.w)[0]), xs);
        }
      }
    case Return =>
  }

  // ----- the invariant

  ghost predicate Owns(s: State, i: int, t: int) {
    i in s.objs && s.objs[i].Mutex? && s.objs[i].m.owner == M.Owner(t)
  }

  /** Mutex i has the invariant of a mutex ordered by priority, and a started thread owns it, if any. */
  ghost predicate PrioOk(s: State, i: int) {
    i in s.objs && s.objs[i].Mutex? ==>
      var m := s.objs[i].m;
      P.PrioInv(s.k, m, s.objs[i].ts, m.original) && (m.owner.Owner? ==> At(s.k, m.owner.t).stat != Init)
  }

  /** The owner of mutex i is not inside a call on mutex j, and does not own it. */
  ghost predicate Apart(s: State, i: int, j: int) {
    forall t {:trigger Owns(s, i, t)} :: Owns(s, i, t) && j in s.objs && s.objs[j].Mutex? ==> t !in s.objs[j].ts && !Owns(s, j, t)
  }

  ghost predicate Inherits(s: State) {
    && (forall i {:trigger PrioOk(s, i)} :: i in s.objs ==> PrioOk(s, i))
    && (forall i, j {:trigger Apart(s, i, j)} :: i in s.objs && j in s.objs && i != j ==> Apart(s, i, j))
  }

  /** What callers must observe: no priority is changed by rt_thread_control, and who takes a mutex owns no other. */
  ghost predicate Disciplined(s: State, step: Step) {
    && !step.SetPriority?
    && (step.On? && step.step.MutexStep? && step.step.m.Take? ==>
      forall j {:trigger Owns(s, j, s.k.current)} :: j in s.objs && j != step.i ==> !Owns(s, j, s.k.current))
  }

  /** The mutex that the step is made on. */
  lemma OwnPrio(k: Sched, o: M.Mutex, ts: set<int>, step: M.Step)
    requires P.PrioInv(k, o, ts, o.original) && M.Enabled(M.State(k, o, ts), step) && !step.Other?
    requires o.owner.Owner? ==> At(k, o.owner.t).stat != Init
    ensures var r := M.Next(M.State(k, o, ts), step);
      && P.PrioInv(r.k, r.o, r.ts, r.o.original)
      && (r.o.owner.Owner? ==> At(r.k, r.o.owner.t).stat != Init)
      && (r.o.owner.Owner? && r.o.owner != o.owner ==> r.o.original == At(k, r.o.owner.t).prio && ((step.Take? && r.o.owner.t == k.current) || r.o.owner.t in ts))
      && (r.o.owner.Owner? && r.o.owner == o.owner ==> r.o.original == o.original)
  {
    MutexSteady(k, o, ts, step, if o.owner.Owner? then {o.owner.t} else {});
    match step
    case Take(time) => P.TakePrio(k, o, ts, o.original, time);
    case Release => OwnRelease(k, o, ts);
    case Return => M.ReturnKeeps(k, o, ts);
  }

  lemma OwnRelease(k: Sched, o: M.Mutex, ts: set<int>)
    requires P.PrioInv(k, o, ts, o.original) && k.current !in ts
    requires o.owner.Owner? ==> At(k, o.owner.t).stat != Init
    ensures var r := M.Released(k, o);
      && P.PrioInv(r.0, r.1, ts, r.1.original)
      && (r.1.owner.Owner? ==> At(r.0, r.1.owner.t).stat != Init)
      && (r.1.owner.Owner? && r.1.owner != o.owner ==> r.1.original == At(k, r.1.owner.t).prio && r.1.owner.t in ts)
      && (r.1.owner.Owner? && r.1.owner == o.owner ==> r.1.original == o.original)
  {
    P.ReleasePrio(k, o, ts, o.original);
    if o.owner == M.Owner(k.current) && o.hold == 1 {
      P.RestorePrio(k, o, ts, o.original);
      var k1 := M.Restored(k, o);
      if Waiting(k1, o.w) != [] {
        var h := Waiting(k1, o.w)[0];
        assert In(k1, o.w, h) && WaitOk(k1, o.w) && At(k1, h).prio == At(k, h).prio;
        assert M.TakerOk(k, o, h);
      }
    }
  }

  /** Another mutex. */
  lemma OtherPrio(s: State, step: Step, j: int)
    requires Inv(s) && Enabled(s, step) && Inherits(s) && Disciplined(s, step)
    requires j in s.objs && s.objs[j].Mutex? && (step.On? ==> j != step.i)
    ensures PrioOk(Next(s, step), j)
  {
    var o, k' := s.objs[j], Next(s, step).k;
    var xs := StepSteady(s, step, j);
    assert PrioOk(s, j);
    OtherRely(s, step, j);
    assert RelyAt(s.k, k', Sides(o)[0]);
    StepValid(s, step);
    forall t | t in o.ts ensures At(k', t).prio == At(s.k, t).prio {
      assert M.TakerOk(s.k, o.m, t);
    }
    P.PrioRely(s.k, k', o.m, o.ts, o.m.original);
  }

  lemma StepValid(s: State, step: Step)
    requires Inv(s) && Enabled(s, step)
    ensures Valid(Next(s, step).k)
  {
    if step.On? { OnKeeps(s, step.i, step.step); } else { SchedStepValid(s, step); }
  }

  /** No step changes the priority of the owner of another mutex or of a thread inside a call on it. */
  lemma StepSteady(s: State, step: Step, j: int) returns (xs: set<int>)
    requires Inv(s) && Enabled(s, step) && Inherits(s) && Disciplined(s, step)
    requires j in s.objs && s.objs[j].Mutex? && (step.On? ==> j != step.i)
    ensures Steady(s.k, Next(s, step).k, xs) && forall t {:trigger t in xs} :: t in xs ==> t !in s.objs[j].ts && !Owns(s, j, t)
  {
    xs := {};
    if step.On? {
      var o := s.objs[step.i];
      if o.Mutex? {
        if o.m.owner.Owner? {
          xs := {o.m.owner.t};
          assert Apart(s, step.i, j) && Owns(s, step.i, o.m.owner.t);
        }
        MutexSteady(s.k, o.m, o.ts, step.step.m, xs);
      } else {
        ObjSteady(s.k, o, step.step, xs);
      }
    } else {
      if step.Startup? {
        xs := {step.t};
        assert PrioOk(s, j);
      }
      SchedSteady(s, step, xs);
    }
  }

  lemma StepInherits(s: State, step: Step)
    requires Inv(s) && Enabled(s, step) && Inherits(s) && Disciplined(s, step)
    ensures Inherits(Next(s, step))
  {
    var s' := Next(s, step);
    forall i | i in s'.objs ensures PrioOk(s', i) {
      if s.objs[i].Mutex? {
        if step.On? && step.i == i {
          assert PrioOk(s, i);
          OwnPrio(s.k, s.objs[i].m, s.objs[i].ts, step.step.m);
        } else {
          OtherPrio(s, step, i);
        }
      }
    }
    forall i, j | i in s'.objs && j in s'.objs && i != j ensures Apart(s', i, j) {
      StepApart(s, step, i, j);
    }
  }

  /** A new owner was the taker, who owned no other mutex, or a waiter, who was inside no other call. */
  lemma StepApart(s: State, step: Step, i: int, j: int)
    requires Inv(s) && Enabled(s, step) && Inherits(s) && Disciplined(s, step)
    requires i in s.objs && j in s.objs && i != j
    ensures Apart(Next(s, step), i, j)
  {
    var s' := Next(s, step);
    assert Apart(s, i, j) && Apart(s, j, i);
    assert Members(s.objs[i]) !! Members(s.objs[j]);
    forall t | Owns(s', i, t) && s'.objs[j].Mutex? ensures t !in s'.objs[j].ts && !Owns(s', j, t) {
      if step.On? && step.i == i {
        assert PrioOk(s, i);
        OwnPrio(s.k, s.objs[i].m, s.objs[i].ts, step.step.m);
        assert Owns(s, i, t) || (!Owns(s, j, t) && t !in s.objs[j].ts);
      } else if step.On? && step.i == j {
        assert PrioOk(s, j) && Owns(s, i, t);
        OwnPrio(s.k, s.objs[j].m, s.objs[j].ts, step.step.m);
      } else {
        assert Owns(s, i, t);
      }
    }
  }

  // ----- whole runs

  /** The priority that the owner of mutex i had when it became the owner, after a step; `base` is the one before it. */
  ghost function BaseAfter(s: State, step: Step, i: int, base: nat): nat {
    var s' := Next(s, step);
    if i in s.objs && i in s'.objs && s.objs[i].Mutex? && s'.objs[i].Mutex? && s'.objs[i].m.owner.Owner? && s'.objs[i].m.owner != s.objs[i].m.owner
    then At(s.k, s'.objs[i].m.owner.t).prio else base
  }

  ghost function BaseAtEnd(s: State, steps: seq<Step>, i: int, base: nat): nat
    decreases |steps|
  {
    if steps == [] then base else BaseAtEnd(Next(s, steps[0]), steps[1..], i, BaseAfter(s, steps[0], i, base))
  }

  ghost predicate AllDisciplined(s: State, steps: seq<Step>)
    decreases |steps|
  {
    steps == [] || (Disciplined(s, steps[0]) && AllDisciplined(Next(s, steps[0]), steps[1..]))
  }

  lemma BaseKept(s: State, step: Step, i: int, base: nat)
    requires Inv(s) && Enabled(s, step) && Inherits(s) && Disciplined(s, step) && i in s.objs && s.objs[i].Mutex?
    requires s.objs[i].m.owner.Owner? ==> s.objs[i].m.original == base
    ensures var o' := Next(s, step).objs[i]; o'.Mutex? && (o'.m.owner.Owner? ==> o'.m.original == BaseAfter(s, step, i, base))
  {
    assert PrioOk(s, i);
    if step.On? && step.i == i { OwnPrio(s.k, s.objs[i].m, s.objs[i].ts, step.step.m); }
  }

  /**
   In every run in which callers observe the discipline, the owner of every mutex is at least as urgent as every
   thread that waits for it, and the priority the last release will restore is the one it had when it became the owner.
   */
  lemma {:induction false} KernelInheritance(s: State, steps: seq<Step>, i: int, base: nat)
    requires Inv(s) && Inherits(s) && Run(s, steps) && AllDisciplined(s, steps) && i in s.objs && s.objs[i].Mutex?
    requires s.objs[i].m.owner.Owner? ==> s.objs[i].m.original == base
    ensures var e := After(s, steps);
      && Inv(e) && Inherits(e) && i in e.objs && e.objs[i].Mutex?
      && (e.objs[i].m.owner.Owner? ==>
        P.AtLeast(e.k, e.objs[i].m.owner.t, Waiting(e.k, e.objs[i].m.w)) && e.objs[i].m.original == BaseAtEnd(s, steps, i, base))
    decreases |steps|
  {
    if steps == [] {
      assert PrioOk(s, i);
    } else {
      StepInherits(s, steps[0]);
      BaseKept(s, steps[0], i, base);
      KernelSafety(s, [steps[0]], 0);
      assert After(Next(s, steps[0]), []) == Next(s, steps[0]);
      KernelInheritance(Next(s, steps[0]), steps[1..], i, BaseAfter(s, steps[0], i, base));
    }
  }

  /** The system starts in such a state. */
  lemma BootInherits(n: nat, idle: int, prio: nat, tick: nat, objs: map<int, Obj>)
    requires prio < n <= PRIORITY_LIMIT && tick > 0
    requires forall i {:trigger objs[i]} :: i in objs ==> Fresh(objs[i]) && (objs[i].Mutex? ==> objs[i].m.prioFlag)
    requires forall i, j {:trigger objs[i], objs[j]} :: i in objs && j in objs && i != j ==> Lists(objs[i]) !! Lists(objs[j])
    ensures var s := State(Booted(n, idle, prio, tick), objs); Inv(s) && Inherits(s)
  {
    var s := State(Booted(n, idle, prio, tick), objs);
    BootInv(n, idle, prio, tick, objs);
    forall i | i in objs ensures PrioOk(s, i) {
      if objs[i].Mutex? { assert ObjInv(s.k, objs[i]) && Waiting(s.k, objs[i].m.w) == []; }
    }
    forall i, j | i in objs && j in objs && i != j ensures Apart(s, i, j) {
      forall t ensures !Owns(s, i, t) { assert i in objs ==> Fresh(objs[i]); }
    }
  }

  /** From the start on, whatever the number of priorities, threads and objects. */
  lemma BootedInheritance(n: nat, idle: int, prio: nat, tick: nat, objs: map<int, Obj>, steps: seq<Step>, i: int)
    requires prio < n <= PRIORITY_LIMIT && tick > 0
    requires forall i {:trigger objs[i]} :: i in objs ==> Fresh(objs[i]) && (objs[i].Mutex? ==> objs[i].m.prioFlag)
    requires forall i, j {:trigger objs[i], objs[j]} :: i in objs && j in objs && i != j ==> Lists(objs[i]) !! Lists(objs[j])
    requires var s := State(Booted(n, idle, prio, tick), objs); Run(s, steps) && AllDisciplined(s, steps)
    requires i in objs && objs[i].Mutex?
    ensures var s := State(Booted(n, idle, prio, tick), objs);
      var e := After(s, steps);
      && i in e.objs && e.objs[i].Mutex? && P.PrioInv(e.k, e.objs[i].m, e.objs[i].ts, e.objs[i].m.original)
      && (e.objs[i].m.owner.Owner? ==>
        P.AtLeast(e.k, e.objs[i].m.owner.t, Waiting(e.k, e.objs[i].m.w)) && e.objs[i].m.original == BaseAtEnd(s, steps, i, 0))
  {
    var s := State(Booted(n, idle, prio, tick), objs);
    BootInherits(n, idle, prio, tick, objs);
    assert Fresh(objs[i]);
    KernelInheritance(s, steps, i, 0);
    assert PrioOk(After(s, steps), i);
  }
}
