/**
 Semaphores: rt_sem_take and rt_sem_release, rt-thread/src/ipc.c:323-471.

 rt_sem_take has two regions with interrupts disabled, separated by its call of rt_schedule:
 `Taken` is the first, and after a wait the thread returns with its error field.
 */
module Semaphores {
  import opened Queues
  import opened Threads
  import opened Ipc
  import opened Scheduler

  datatype Outcome = Done(err: Err) | Blocks

  /** The first region of rt_sem_take, run by the current thread. */
  function Taken(k: Sched, value: nat, w: int, prioFlag: bool, time: int): (r: (Sched, nat, Outcome)) {
    if value > 0 then (k, value - 1, Done(Ok))
    else if time == 0 then (k, value, Done(TimedOut))
    else (Blocked(With(k, k.current, At(k, k.current).(err := Ok)), w, prioFlag, time > 0), value, Blocks)
  }

  /** rt_sem_release up to its call of rt_schedule. */
  function Released(k: Sched, value: nat, w: int): (Sched, nat) {
    if Waiting(k, w) != [] then (Resumed(k, Waiting(k, w)[0]), value) else (k, value + 1)
  }

  class Semaphore {
    var value: nat
    const prioFlag: bool
    const w: int

    constructor (value: nat, prioFlag: bool, w: int)
      ensures this.value == value && this.prioFlag == prioFlag && this.w == w
    {
      this.value, this.prioFlag, this.w := value, prioFlag, w;
    }

    /** rt_sem_take up to its call of rt_schedule. */
    method Take(s: Scheduler, time: int) returns (r: Outcome)
      requires s.Inv() && (value == 0 && time != 0 ==> s.Tc(s.current).stat == Running)
      modifies this, s
      ensures s.Inv() && (s.Abs(), value, r) == Taken(old(s.Abs()), old(value), w, prioFlag, time)
    {
      if value > 0 {
        value := value - 1;
        return Done(Ok);
      }
      if time == 0 {
        return Done(TimedOut);
      }
      s.SetError(s.current, Ok);
      s.Block(w, prioFlag, time > 0);
      return Blocks;
    }

    /** rt_sem_release. */
    method Release(s: Scheduler)
      requires s.Inv()
      modifies this, s
      ensures s.Inv() && value == Released(old(s.Abs()), old(value), w).1
      ensures s.Abs() == if Waiting(old(s.Abs()), w) != [] then Scheduled(Released(old(s.Abs()), old(value), w).0) else old(s.Abs())
    {
      var needSchedule := false;
      if w in s.waits && s.waits[w] != [] {
        s.ResumeFirst(w);
        needSchedule := true;
      } else {
        value := value + 1;
      }
      if needSchedule {
        s.Schedule();
      }
    }
  }

  // ----- what is counted

  /**
   A semaphore and its history: `start` is its first value, `released` counts the releases and
   `taken` the calls of rt_sem_take that returned RT_EOK.  The woken threads of its side are those
   to which a release has handed a unit and whose call has not returned yet.
   */
  datatype Sem = Sem(value: nat, prioFlag: bool, side: Side, start: nat, released: nat, taken: nat)

  ghost predicate SemInv(k: Sched, o: Sem) {
    && SideOk(k, o.side)
    && o.start + o.released == o.value + o.taken + |o.side.woken|
    && (o.value > 0 ==> Waiting(k, o.side.w) == [])
  }

  /** The state after the first region of rt_sem_take. */
  function AfterTake(k: Sched, o: Sem, time: int): (Sched, Sem) {
    var r := Taken(k, o.value, o.side.w, o.prioFlag, time);
    match r.2
    case Done(err) => (r.0, o.(value := r.1, taken := if err == Ok then o.taken + 1 else o.taken))
    case Blocks => (r.0, o.(value := r.1, side := Join(o.side, k.current)))
  }

  lemma TakeKeeps(k: Sched, o: Sem, time: int)
    requires SemInv(k, o)
    requires o.value == 0 && time != 0 ==> At(k, k.current).stat == Running && k.current !in o.side.ts
    ensures var r := AfterTake(k, o, time); SemInv(r.0, r.1)
  {
    if o.value == 0 && time != 0 {
      SideBlock(k, o.side, o.prioFlag, time > 0);
      assert o.side.woken - {k.current} == o.side.woken;
    }
  }

  /** The state after rt_sem_release. */
  function AfterRelease(k: Sched, o: Sem): (Sched, Sem) {
    var r, s := Released(k, o.value, o.side.w), Signalled(k, o.side);
    (r.0, o.(value := r.1, released := o.released + 1, side := s.1))
  }

  lemma ReleaseKeeps(k: Sched, o: Sem)
    requires SemInv(k, o)
    ensures var r := AfterRelease(k, o); SemInv(r.0, r.1)
  {
    SideSignal(k, o.side);
  }

  /** A thread that has waited returns from rt_sem_take with its error field. */
  function AfterReturn(k: Sched, o: Sem): Sem {
    o.(side := Leave(o.side, k.current), taken := if At(k, k.current).err == Ok then o.taken + 1 else o.taken)
  }

  /** It returns RT_EOK if a release handed it a unit, and -RT_ETIMEOUT otherwise. */
  lemma ReturnKeeps(k: Sched, o: Sem)
    requires SemInv(k, o) && k.current in o.side.ts && At(k, k.current).stat == Running
    ensures SemInv(k, AfterReturn(k, o))
    ensures At(k, k.current).err == if k.current in o.side.woken then Ok else TimedOut
  {
    SideLeave(k, o.side, k.current);
    if k.current !in o.side.woken { assert o.side.woken - {k.current} == o.side.woken; }
  }

  // ----- whole runs

  datatype Step = Take(time: int) | Release | Return | Other(next: Sched)

  ghost predicate Enabled(k: Sched, o: Sem, step: Step) {
    match step
    case Take(time) => o.value == 0 && time != 0 ==> At(k, k.current).stat == Running && k.current !in o.side.ts
    case Release => true
    case Return => k.current in o.side.ts && At(k, k.current).stat == Running
    case Other(next) => Valid(next) && Rely(k, next, o.side.w, o.side.ts)
  }

  function Next(k: Sched, o: Sem, step: Step): (Sched, Sem) {
    match step
    case Take(time) => AfterTake(k, o, time)
    case Release => AfterRelease(k, o)
    case Return => (k, AfterReturn(k, o))
    case Other(next) => (next, o)
  }

  /** A run from (k, o) through the given steps, each enabled when it is made. */
  ghost predicate Run(k: Sched, o: Sem, steps: seq<Step>)
    decreases |steps|
  {
    steps == [] || (Enabled(k, o, steps[0]) && var s := Next(k, o, steps[0]); Run(s.0, s.1, steps[1..]))
  }

  function After(k: Sched, o: Sem, steps: seq<Step>): (Sched, Sem)
    decreases |steps|
  {
    if steps == [] then (k, o) else var s := Next(k, o, steps[0]); After(s.0, s.1, steps[1..])
  }

  lemma StepKeeps(k: Sched, o: Sem, step: Step)
    requires SemInv(k, o) && Enabled(k, o, step)
    ensures SemInv(Next(k, o, step).0, Next(k, o, step).1)
  {
    match step
    case Take(time) => TakeKeeps(k, o, time);
    case Release => ReleaseKeeps(k, o);
    case Return => ReturnKeeps(k, o);
    case Other(next) => SideRely(k, next, o.side);
  }

  /** In every run the units add up, and a positive value means that nobody waits. */
  lemma {:induction false} Conservation(k: Sched, o: Sem, steps: seq<Step>)
    requires SemInv(k, o) && Run(k, o, steps)
    ensures var (k', o') := After(k, o, steps);
      SemInv(k', o') && o'.start + o'.released == o'.value + o'.taken + |o'.side.woken| && (o'.value > 0 ==> Waiting(k', o'.side.w) == [])
    decreases |steps|
  {
    if steps != [] {
      StepKeeps(k, o, steps[0]);
      var s := Next(k, o, steps[0]);
      Conservation(s.0, s.1, steps[1..]);
    }
  }

  /** How many units a step brings, and how many it hands out: a take that returns RT_EOK, at once or after a wait. */
  function UnitsIn(step: Step): nat {
    if step.Release? then 1 else 0
  }

  function UnitsOut(k: Sched, o: Sem, step: Step): nat {
    if step.Take? && Taken(k, o.value, o.side.w, o.prioFlag, step.time).2 == Done(Ok) then 1
    else if step.Return? && At(k, k.current).err == Ok then 1
    else 0
  }

  function Brought(steps: seq<Step>): nat {
    if steps == [] then 0 else UnitsIn(steps[0]) + Brought(steps[1..])
  }

  function HandedOut(k: Sched, o: Sem, steps: seq<Step>): nat
    decreases |steps|
  {
    if steps == [] then 0
    else var s := Next(k, o, steps[0]); UnitsOut(k, o, steps[0]) + HandedOut(s.0, s.1, steps[1..])
  }

  lemma StepCounts(k: Sched, o: Sem, step: Step)
    requires SemInv(k, o) && Enabled(k, o, step)
    ensures var s := Next(k, o, step);
      s.1.start == o.start && s.1.released == o.released + UnitsIn(step) && s.1.taken == o.taken + UnitsOut(k, o, step)
  {
  }

  /** In every run: as many takes returned RT_EOK as there were units at first and releases, but for those left and those on their way to a woken thread. */
  lemma {:induction false} UnitsAddUp(k: Sched, o: Sem, steps: seq<Step>)
    requires SemInv(k, o) && Run(k, o, steps)
    ensures var (k', o') := After(k, o, steps);
      && o'.released == o.released + Brought(steps) && o'.taken == o.taken + HandedOut(k, o, steps)
      && o.value + |o.side.woken| + Brought(steps) == o'.value + |o'.side.woken| + HandedOut(k, o, steps)
    decreases |steps|
  {
    if steps != [] {
      var s := Next(k, o, steps[0]);
      StepKeeps(k, o, steps[0]);
      StepCounts(k, o, steps[0]);
      UnitsAddUp(s.0, s.1, steps[1..]);
    }
  }

  /** The thread that begins to wait with a step. */
  function Arrival(k: Sched, o: Sem, step: Step): seq<int> {
    if step.Take? && o.value == 0 && step.time != 0 then [k.current] else []
  }

  /** `came` and then the threads that begin to wait in a run, in the order in which they do. */
  ghost function Arrivals(k: Sched, o: Sem, steps: seq<Step>, came: seq<int>): seq<int>
    decreases |steps|
  {
    if steps == [] then came
    else var s := Next(k, o, steps[0]); Arrivals(s.0, s.1, steps[1..], came + Arrival(k, o, steps[0]))
  }

  lemma {:induction false} SubsequenceMore(a: seq<int>, b: seq<int>, c: seq<int>)
    requires Subsequence(a, b)
    ensures Subsequence(a + c, b + c)
    decreases |b|
  {
    if b == [] {
      assert a + c == c && b + c == c;
      SubsequenceRefl(c);
    } else if a != [] && a[0] == b[0] {
      assert (a + c)[1..] == a[1..] + c && (b + c)[1..] == b[1..] + c;
      SubsequenceMore(a[1..], b[1..], c);
    } else {
      assert (b + c)[1..] == b[1..] + c;
      SubsequenceMore(a, b[1..], c);
      SubsequenceSkip(a + c, b[1..] + c, b[0]);
      assert [b[0]] + (b[1..] + c) == b + c;
    }
  }

  lemma SubsequenceSkip(a: seq<int>, b: seq<int>, x: int)
    requires Subsequence(a, b)
    ensures Subsequence(a, [x] + b)
  {
    if a != [] && a[0] == x {
      SubsequenceDrop(a, b);
      assert ([x] + b)[1..] == b;
    }
  }

  lemma {:induction false} SubsequenceBehind(a: seq<int>, b: seq<int>, c: seq<int>)
    requires Subsequence(b, c)
    ensures Subsequence(a + b, a + c)
  {
    if a == [] {
      assert a + b == b && a + c == c;
    } else {
      SubsequenceBehind(a[1..], b, c);
      assert (a + b)[1..] == a[1..] + b && (a + c)[1..] == a[1..] + c;
    }
  }

  /** Those of q that are not in r. */
  function Gone(q: seq<int>, r: seq<int>): seq<int> {
    if q == [] then [] else (if q[0] in r then [] else [q[0]]) + Gone(q[1..], r)
  }

  lemma {:induction false} NoneGone(q: seq<int>, r: seq<int>)
    requires forall i {:trigger q[i]} :: 0 <= i < |q| ==> q[i] in r
    ensures Gone(q, r) == []
  {
    if q != [] {
      NoneGone(q[1..], r);
      assert q[0] in r;
    }
  }

  /** `served` and then the threads that the releases of a run wake, in the order in which they do. */
  ghost function Wakeups(k: Sched, o: Sem, steps: seq<Step>, served: seq<int>): seq<int>
    decreases |steps|
  {
    if steps == [] then served
    else
      var s := Next(k, o, steps[0]);
      Wakeups(s.0, s.1, steps[1..], served + if steps[0].Release? then Gone(Waiting(k, o.side.w), Waiting(s.0, o.side.w)) else [])
  }

  /** What one step does to the order of a first-come semaphore's waiters. */
  lemma WaitersStep(k: Sched, o: Sem, step: Step, came: seq<int>, served: seq<int>)
    requires SemInv(k, o) && Enabled(k, o, step) && !o.prioFlag && Subsequence(served + Waiting(k, o.side.w), came)
    ensures var s := Next(k, o, step);
      var now := served + if step.Release? then Gone(Waiting(k, o.side.w), Waiting(s.0, o.side.w)) else [];
      s.1.side.w == o.side.w && s.1.prioFlag == o.prioFlag && Subsequence(now + Waiting(s.0, o.side.w), came + Arrival(k, o, step))
  {
    var w, t := o.side.w, k.current;
    var q := Waiting(k, w);
    assert came + [] == came && served + [] == served;
    match step
    case Take(time) =>
      if o.value == 0 && time != 0 {
        assert ThreadOk(k, t);
        FieldsValid(k, t, At(k, t).(err := Ok));
        FifoArrival(SetErr(k, t, Ok), w, time > 0);
        SubsequenceMore(served + q, came, [t]);
        assert served + q + [t] == served + (q + [t]);
      }
    case Release => ReleaseOrder(k, o, served);
    case Return =>
    case Other(next) =>
      SubsequenceBehind(served, Waiting(next, w), q);
      SubsequenceTrans(served + Waiting(next, w), served + q, came);
  }

  /** A release wakes the first waiter, so that the order of those woken and those waiting is as before. */
  lemma ReleaseOrder(k: Sched, o: Sem, served: seq<int>)
    requires SemInv(k, o)
    ensures var q, r := Waiting(k, o.side.w), Waiting(AfterRelease(k, o).0, o.side.w);
      served + Gone(q, r) + r == served + q
  {
    var q := Waiting(k, o.side.w);
    SignalledFirst(k, o.side);
    if q == [] {
      assert served + [] + [] == served + [];
    } else {
      assert WaitOk(k, o.side.w);
      TailNoDup(q);
      NoneGone(q[1..], q[1..]);
      assert served + [q[0]] + q[1..] == served + q;
    }
  }

  /**
   In every run of a first-come semaphore the threads woken by releases, followed by those that wait, stand in the
   order in which they came.
   */
  lemma {:induction false} FirstCome(k: Sched, o: Sem, steps: seq<Step>, came: seq<int>, served: seq<int>)
    requires SemInv(k, o) && Run(k, o, steps) && !o.prioFlag && Subsequence(served + Waiting(k, o.side.w), came)
    ensures Subsequence(Wakeups(k, o, steps, served) + Waiting(After(k, o, steps).0, o.side.w), Arrivals(k, o, steps, came))
    decreases |steps|
  {
    if steps != [] {
      var s := Next(k, o, steps[0]);
      WaitersStep(k, o, steps[0], came, served);
      StepKeeps(k, o, steps[0]);
      FirstCome(s.0, s.1, steps[1..], came + Arrival(k, o, steps[0]),
                served + if steps[0].Release? then Gone(Waiting(k, o.side.w), Waiting(s.0, o.side.w)) else []);
    }
  }

  /** What the steps of a semaphore are to another list. */
  lemma StepRely(k: Sched, o: Sem, step: Step, w: int, ts: set<int>)
    requires SemInv(k, o) && Enabled(k, o, step) && !step.Other? && w != o.side.w && Inside(k, w, ts)
    requires step.Take? && o.value == 0 && step.time != 0 ==> k.current !in ts
    ensures Rely(k, Next(k, o, step).0, w, ts)
  {
    RelyRefl(k, w, ts);
    match step
    case Take(time) => if o.value == 0 && time != 0 { WaitRely(k, o.side.w, o.prioFlag, time > 0, w, ts); }
    case Release => if Waiting(k, o.side.w) != [] { FirstRely(k, o.side.w, w, ts); }
    case Return =>
  }
}
