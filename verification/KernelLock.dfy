/**
 The scheduler lock, rt-thread/src/scheduler.c:415-427 and 860-940: while it is taken nothing changes
 the running thread, however the steps of the system interleave, and the nesting count is the number
 of rt_enter_critical calls that no rt_exit_critical has matched.
 */
module KernelLock {
  import opened Threads
  import opened Ipc
  import opened Kernel
  import Semaphores
  import Mutexes
  import Events
  import Mailboxes
  import MessageQueues

  /** Neither the running thread nor the lock differs. */
  ghost predicate SameLock(k: Sched, k': Sched) {
    k'.current == k.current && k'.lock == k.lock
  }

  lemma {:induction false} SweptLock(k: Sched, bits: Bits, q: seq<int>)
    ensures SameLock(k, Events.Swept(k, bits, q).0)
    decreases |q|
  {
    if q != [] {
      var i := At(k, q[0]).interest;
      if Events.Satisfied(i, bits) {
        SweptLock(Resumed(With(k, q[0], At(k, q[0]).(interest := Events.Got(i, bits))), q[0]), Events.Left(i, bits), q[1..]);
      } else {
        SweptLock(k, bits, q[1..]);
      }
    }
  }

  lemma SemLock(k: Sched, o: Semaphores.Sem, s: Semaphores.Step)
    requires !s.Other?
    ensures SameLock(k, Semaphores.Next(k, o, s).0)
  {
  }

  lemma MutexLock(s: Mutexes.State, step: Mutexes.Step)
    requires !step.Other?
    ensures SameLock(s.k, Mutexes.Next(s, step).k)
  {
  }

  lemma BoxLock(s: Mailboxes.State, step: Mailboxes.Step)
    requires !step.Other?
    ensures SameLock(s.k, Mailboxes.Next(s, step).k)
  {
  }

  lemma QueueLock(s: MessageQueues.State, step: MessageQueues.Step)
    requires !step.Other?
    ensures SameLock(s.k, MessageQueues.Next(s, step).k)
  {
  }

  /** No operation of an object switches threads before its call of rt_schedule. */
  lemma ObjLock(k: Sched, o: Obj, step: ObjStep)
    requires ObjEnabled(k, o, step)
    ensures SameLock(k, ObjNext(k, o, step).0)
  {
    match (o, step)
    case (Sem(sem), SemStep(s)) => SemLock(k, sem, s);
    case (Mutex(m, ts), MutexStep(s)) => MutexLock(Mutexes.State(k, m, ts), s);
    case (Event(e, asked), EventStep(s)) => if s.Send? { SweptLock(k, e.bits + s.bits, Waiting(k, e.w)); }
    case (Mailbox(b), MailboxStep(s)) => BoxLock(Mailboxes.State(k, b), s);
    case (Queue(q), QueueStep(s)) => QueueLock(q.(k := k), s);
    case _ =>
  }

  /** While the scheduler is locked no step of the system changes the running thread. */
  lemma LockedStep(s: State, step: Step)
    requires Enabled(s, step) && s.k.lock > 0
    ensures Next(s, step).k.current == s.k.current
  {
    if step.On? { ObjLock(s.k, s.objs[step.i], step.step); }
  }

  /** How a step changes the number of unmatched rt_enter_critical calls. */
  function Nesting(step: Step): int {
    if step.Lock? then 1 else if step.Unlock? then -1 else 0
  }

  function Unmatched(steps: seq<Step>): int {
    if steps == [] then 0 else Nesting(steps[0]) + Unmatched(steps[1..])
  }

  lemma LockStep(s: State, step: Step)
    requires Enabled(s, step)
    ensures Next(s, step).k.lock == s.k.lock + Nesting(step)
  {
    if step.On? { ObjLock(s.k, s.objs[step.i], step.step); }
  }

  lemma {:induction false} RunPrefix(s: State, steps: seq<Step>, i: nat)
    requires Run(s, steps) && i <= |steps|
    ensures Run(s, steps[..i])
    decreases i
  {
    if i > 0 {
      assert steps[..i][1..] == steps[1..][..i-1];
      RunPrefix(Next(s, steps[0]), steps[1..], i - 1);
    }
  }

  /** The nesting count is the number of rt_enter_critical calls minus that of rt_exit_critical calls. */
  lemma {:induction false} LockCounts(s: State, steps: seq<Step>)
    requires Run(s, steps)
    ensures After(s, steps).k.lock == s.k.lock + Unmatched(steps)
    decreases |steps|
  {
    if steps != [] {
      LockStep(s, steps[0]);
      LockCounts(Next(s, steps[0]), steps[1..]);
    }
  }

  ghost predicate LockedAt(s: State, steps: seq<Step>, i: nat)
    requires i <= |steps|
  {
    After(s, steps[..i]).k.lock > 0
  }

  lemma AfterTail(s: State, steps: seq<Step>, i: nat)
    requires steps != [] && 0 < i <= |steps|
    ensures After(s, steps[..i]) == After(Next(s, steps[0]), steps[1..][..i-1])
  {
    assert steps[..i][1..] == steps[1..][..i-1];
  }

  /** In every run whose states all have the scheduler locked, the thread that runs at the end is the one that ran at the start. */
  lemma {:induction false} LockedRun(s: State, steps: seq<Step>)
    requires Run(s, steps) && forall i {:trigger LockedAt(s, steps, i)} :: 0 <= i <= |steps| ==> LockedAt(s, steps, i)
    ensures After(s, steps).k.current == s.k.current
    decreases |steps|
  {
    if steps != [] {
      var s1, rest := Next(s, steps[0]), steps[1..];
      assert LockedAt(s, steps, 0);
      LockedStep(s, steps[0]);
      forall i | 0 <= i <= |rest| ensures LockedAt(s1, rest, i) {
        AfterTail(s, steps, i + 1);
        assert LockedAt(s, steps, i + 1);
      }
      LockedRun(s1, rest);
    }
  }

  ghost predicate Inside(steps: seq<Step>, i: nat)
    requires i <= |steps|
  {
    Unmatched(steps[..i]) > 0
  }

  /**
   A critical section: from an rt_enter_critical on, as long as there have been fewer calls of
   rt_exit_critical than of rt_enter_critical, the thread that made the first call is the one that runs.
   */
  lemma CriticalSection(s: State, steps: seq<Step>)
    requires Run(s, [Lock] + steps)
    requires forall i {:trigger Inside([Lock] + steps, i)} :: 1 <= i <= |steps| + 1 ==> Inside([Lock] + steps, i)
    ensures After(s, [Lock] + steps).k.current == s.k.current
  {
    var all, s1 := [Lock] + steps, Next(s, Lock);
    assert all[1..] == steps;
    forall i | 0 <= i <= |steps| ensures LockedAt(s1, steps, i) {
      assert Inside(all, i + 1);
      RunPrefix(s, all, i + 1);
      LockCounts(s, all[..i+1]);
      AfterTail(s, all, i + 1);
    }
    LockedRun(s1, steps);
  }

  // ----- rt_enter_critical and rt_exit_critical

  /** n calls of rt_enter_critical. */
  function Entered(k: Sched, n: nat): Sched {
    k.(lock := k.lock + n)
  }

  /** n calls of rt_exit_critical, as Scheduler.Scheduler.ExitCritical does each. */
  function Exits(k: Sched, n: nat): Sched {
    if n == 0 then k else Exited(Exits(k, n - 1))
  }

  lemma {:induction false} FewerExits(k: Sched, n: nat)
    requires n < k.lock
    ensures Exits(k, n) == k.(lock := k.lock - n)
  {
    if n > 0 { FewerExits(k, n - 1); }
  }

  /**
   After n calls of rt_enter_critical fewer than n of rt_exit_critical change nothing but the count;
   with the n-th no ready thread is left more urgent than the running one.
   */
  lemma CriticalExit(k: Sched, n: nat, m: nat, t: int)
    requires Valid(k) && 0 < n && m <= n && (At(k, k.current).stat == Running || SomeReady(k))
    ensures m < n ==> Exits(Entered(k, n), m) == k.(lock := k.lock + n - m)
    ensures m == n && k.lock == 0 ==>
      var k' := Exits(Entered(k, n), n);
      && Valid(k') && k'.lock == 0 && At(k', k'.current).stat == Running
      && (t in k'.tcb && At(k', t).stat == Ready ==> At(k', k'.current).prio <= At(k', t).prio)
  {
    if m < n {
      FewerExits(Entered(k, n), m);
    } else if k.lock == 0 {
      FewerExits(Entered(k, n), n - 1);
      assert Exits(Entered(k, n), n) == Scheduled(k);
      ScheduledValid(k);
      ScheduleRunsHighest(k, t);
      SwitchKeepsLock(k);
    }
  }

  lemma SwitchKeepsLock(k: Sched)
    ensures Scheduled(k).lock == k.lock
  {
  }

  /** The last rt_exit_critical of a run, with its call of rt_schedule. */
  lemma LastExit(s: State, t: int)
    requires Inv(s) && s.k.lock == 1 && (At(s.k, s.k.current).stat == Running || SomeReady(s.k))
    ensures var k := After(s, [Unlock, Reschedule]).k;
      At(k, k.current).stat == Running && (t in k.tcb && At(k, t).stat == Ready ==> At(k, k.current).prio <= At(k, t).prio)
  {
    var k := s.k.(lock := 0);
    LockValid(s.k, 0);
    assert [Unlock, Reschedule][1..] == [Reschedule];
    assert After(s, [Unlock, Reschedule]).k == Scheduled(k);
    if SomeReady(s.k) {
      var u :| u in s.k.tcb && At(s.k, u).stat == Ready;
      assert u in k.tcb && At(k, u).stat == Ready;
    }
    ScheduleRunsHighest(k, t);
  }
}
