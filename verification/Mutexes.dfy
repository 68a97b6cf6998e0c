/**
 Mutexes: rt_mutex_take and rt_mutex_release, rt-thread/src/ipc.c:653-881, without the retry after a signal.

 `Taken` is the first region of rt_mutex_take with interrupts disabled; a thread that has waited
 returns with its error field.
 */
module Mutexes {
  import opened Threads
  import opened Ipc
  import opened Scheduler

  datatype Owner = Nobody | Owner(t: int)
  datatype Outcome = Done(err: Err) | Blocks

  const NO_PRIORITY: nat := 0xFF

  /** The fields of struct rt_mutex; w is its list, prioFlag its RT_IPC_FLAG_PRIO. */
  datatype Mutex = Mutex(value: nat, owner: Owner, original: nat, hold: nat, w: int, prioFlag: bool)

  /** A thread about to wait raises the owner to its own priority. */
  function Boosted(k: Sched, o: Mutex): Sched {
    if o.owner.Owner? && At(k, k.current).prio < At(k, o.owner.t).prio
    then Reprioritized(k, o.owner.t, At(k, k.current).prio) else k
  }

  /** rt_mutex_take up to its call of rt_schedule. */
  function Taken(k: Sched, o: Mutex, time: int): (Sched, Mutex, Outcome) {
    var t, k1 := k.current, SetErr(k, k.current, Ok);
    if o.owner == Owner(t) then (k1, o.(hold := o.hold + 1), Done(Ok))
    else if o.value > 0 then
      (k1, o.(value := o.value - 1, owner := Owner(t), original := At(k1, t).prio, hold := o.hold + 1), Done(Ok))
    else if time == 0 then (SetErr(k, t, TimedOut), o, Done(TimedOut))
    else (Blocked(Boosted(k1, o), o.w, o.prioFlag, time > 0), o, Blocks)
  }

  /** The owner back at the priority it had when it became the owner. */
  function Restored(k: Sched, o: Mutex): Sched {
    if o.owner.Owner? && o.original != At(k, o.owner.t).prio then Reprioritized(k, o.owner.t, o.original) else k
  }

  /** rt_mutex_release up to its call of rt_schedule. */
  function Released(k: Sched, o: Mutex): (Sched, Mutex, Err) {
    if o.owner != Owner(k.current) || o.hold == 0 then (SetErr(k, k.current, Failed), o, Failed)
    else if o.hold > 1 then (k, o.(hold := o.hold - 1), Ok)
    else
      var k1 := Restored(k, o);
      if Waiting(k1, o.w) != [] then
        var h := Waiting(k1, o.w)[0];
        (Resumed(k1, h), o.(owner := Owner(h), original := At(k1, h).prio), Ok)
      else (k1, o.(value := o.value + 1, owner := Nobody, original := NO_PRIORITY, hold := 0), Ok)
  }

  /** The release hands the mutex on, and is followed by a call of rt_schedule. */
  predicate Wakes(k: Sched, o: Mutex) {
    o.owner == Owner(k.current) && o.hold == 1 && Waiting(Restored(k, o), o.w) != []
  }

  // ----- safety

  /** ts are the threads inside rt_mutex_take: a waiting one has no error yet, one that has left the list owns the mutex or has timed out. */
  ghost predicate TakerOk(k: Sched, o: Mutex, t: int) {
    && t in k.tcb
    && (In(k, o.w, t) ==> At(k, t).err == Ok && o.owner != Owner(t) && o.owner.Owner?)
    && (!In(k, o.w, t) ==> !At(k, t).timer && At(k, t).err == if o.owner == Owner(t) then Ok else TimedOut)
  }

  ghost predicate MutexInv(k: Sched, o: Mutex, ts: set<int>) {
    && Valid(k)
    && o.value <= 1 && (o.value == 1 <==> o.owner == Nobody) && (o.owner == Nobody <==> o.hold == 0)
    && (o.owner.Owner? ==> o.owner.t in k.tcb && o.original < |k.ready|)
    && (forall t {:trigger In(k, o.w, t)} :: In(k, o.w, t) ==> t in ts)
    && (forall t {:trigger TakerOk(k, o, t)} :: t in ts ==> TakerOk(k, o, t))
  }

  lemma MutexInside(k: Sched, o: Mutex, ts: set<int>)
    requires MutexInv(k, o, ts)
    ensures Inside(k, o.w, ts)
  {
    forall t | t in ts ensures t in k.tcb && (!In(k, o.w, t) ==> !At(k, t).timer) {
      assert TakerOk(k, o, t);
    }
  }

  lemma MutexRely(k: Sched, k': Sched, o: Mutex, ts: set<int>)
    requires MutexInv(k, o, ts) && Rely(k, k', o.w, ts) && Valid(k') && (o.owner.Owner? ==> o.owner.t in k'.tcb)
    ensures MutexInv(k', o, ts)
  {
    forall t | In(k', o.w, t) ensures t in ts { InFewer(k, k', o.w, t); }
    forall t | t in ts ensures TakerOk(k', o, t) {
      assert TakerOk(k, o, t) && Kept(k, k', o.w, t);
      if In(k', o.w, t) { InFewer(k, k', o.w, t); }
    }
  }

  /** What a region makes of ts. */
  function Takers(k: Sched, ts: set<int>, r: Outcome): set<int> {
    if r.Blocks? then ts + {k.current} else ts
  }

  lemma TakeKeeps(k: Sched, o: Mutex, ts: set<int>, time: int)
    requires MutexInv(k, o, ts) && k.current !in ts && At(k, k.current).stat == Running
    ensures var r := Taken(k, o, time); MutexInv(r.0, r.1, Takers(k, ts, r.2))
  {
    var t, r := k.current, Taken(k, o, time);
    assert ThreadOk(k, t);
    ErrKeeps(k, o, ts, Ok);
    if o.owner != Owner(t) && o.value == 0 {
      if time == 0 {
        ErrKeeps(k, o, ts, TimedOut);
      } else {
        WaitKeeps(SetErr(k, t, Ok), o, ts, time > 0);
      }
    } else {
      var k' := r.0;
      forall u | u in ts ensures TakerOk(k', r.1, u) { assert TakerOk(k', o, u) && WaitOk(k', o.w); }
    }
  }

  lemma ErrKeeps(k: Sched, o: Mutex, ts: set<int>, e: Err)
    requires MutexInv(k, o, ts) && k.current !in ts
    ensures MutexInv(SetErr(k, k.current, e), o, ts)
  {
    var t := k.current;
    assert ThreadOk(k, t);
    FieldsValid(k, t, At(k, t).(err := e));
    MutexInside(k, o, ts);
    WithRely(k, t, At(k, t).(err := e), o.w, ts);
    MutexRely(k, SetErr(k, t, e), o, ts);
  }

  lemma BoostKeeps(k: Sched, o: Mutex, ts: set<int>, p: nat)
    requires MutexInv(k, o, ts) && o.owner.Owner? && p < |k.ready|
    ensures MutexInv(Reprioritized(k, o.owner.t, p), o, ts)
    ensures Waiting(Reprioritized(k, o.owner.t, p), o.w) == Waiting(k, o.w)
  {
    var t := o.owner.t;
    ReprioritizedValid(k, t, p);
    MutexInside(k, o, ts);
    ReprioritizedRely(k, t, p, o.w, ts);
    MutexRely(k, Reprioritized(k, t, p), o, ts);
    assert WaitOk(k, o.w);
    assert In(k, o.w, t) ==> TakerOk(k, o, t);
    UnlinkedElsewhere(k, t, o.w);
  }

  lemma WaitKeeps(k: Sched, o: Mutex, ts: set<int>, timed: bool)
    requires MutexInv(k, o, ts) && k.current !in ts && At(k, k.current).stat == Running && At(k, k.current).err == Ok
    requires o.value == 0 && o.owner != Owner(k.current)
    ensures MutexInv(Blocked(Boosted(k, o), o.w, o.prioFlag, timed), o, ts + {k.current})
  {
    var t := k.current;
    assert ThreadOk(k, t);
    BoostKeeps(k, o, ts, At(k, t).prio);
    var k1 := Boosted(k, o);
    assert WaitOk(k1, o.w) && ThreadOk(k1, t);
    BlockedValid(k1, o.w, o.prioFlag, timed);
    BlockedIn(k1, o.w, o.prioFlag, timed);
    var k' := Blocked(k1, o.w, o.prioFlag, timed);
    forall u | u in ts + {t} ensures TakerOk(k', o, u) {
      if u != t { assert TakerOk(k1, o, u); }
    }
  }

  lemma ReleaseKeeps(k: Sched, o: Mutex, ts: set<int>)
    requires MutexInv(k, o, ts) && k.current !in ts
    ensures var r := Released(k, o); MutexInv(r.0, r.1, ts)
  {
    var t, r := k.current, Released(k, o);
    if o.owner != Owner(t) {
      ErrKeeps(k, o, ts, Failed);
    } else if o.hold > 1 {
      forall u | u in ts ensures TakerOk(k, r.1, u) { assert TakerOk(k, o, u); }
    } else {
      BoostKeeps(k, o, ts, o.original);
      var k1 := Restored(k, o);
      FinalReleaseKeeps(k1, k, o, ts);
    }
  }

  lemma FinalReleaseKeeps(k1: Sched, k: Sched, o: Mutex, ts: set<int>)
    requires MutexInv(k1, o, ts) && o.owner == Owner(k.current) && o.hold == 1 && k.current !in ts && k1 == Restored(k, o)
    ensures var r := Released(k, o); MutexInv(r.0, r.1, ts)
  {
    var r := Released(k, o);
    if Waiting(k1, o.w) != [] {
      var h := Waiting(k1, o.w)[0];
      assert In(k1, o.w, h) && TakerOk(k1, o, h) && WaitOk(k1, o.w) && ThreadOk(k1, h);
      ResumedValid(k1, h);
      ResumedIn(k1, h, o.w);
    }
    forall u | u in ts ensures TakerOk(r.0, r.1, u) { assert TakerOk(k1, o, u); }
  }

  /** After a wait rt_mutex_take returns RT_EOK exactly when its caller owns the mutex. */
  lemma ReturnKeeps(k: Sched, o: Mutex, ts: set<int>)
    requires MutexInv(k, o, ts) && k.current in ts && At(k, k.current).stat == Running
    ensures MutexInv(k, o, ts - {k.current})
    ensures At(k, k.current).err == if o.owner == Owner(k.current) then Ok else TimedOut
  {
    assert WaitOk(k, o.w) && TakerOk(k, o, k.current);
    forall u | u in ts - {k.current} ensures TakerOk(k, o, u) { assert TakerOk(k, o, u); }
  }

  // ----- whole runs

  datatype Step = Take(time: int) | Release | Return | Other(next: Sched)
  datatype State = State(k: Sched, o: Mutex, ts: set<int>)

  ghost predicate Enabled(s: State, step: Step) {
    match step
    case Take(time) => s.k.current !in s.ts && At(s.k, s.k.current).stat == Running
    case Release => s.k.current !in s.ts
    case Return => s.k.current in s.ts && At(s.k, s.k.current).stat == Running
    case Other(next) => Valid(next) && Rely(s.k, next, s.o.w, s.ts) && (s.o.owner.Owner? ==> s.o.owner.t in next.tcb)
  }

  function Next(s: State, step: Step): State {
    match step
    case Take(time) => var r := Taken(s.k, s.o, time); State(r.0, r.1, Takers(s.k, s.ts, r.2))
    case Release => var r := Released(s.k, s.o); State(r.0, r.1, s.ts)
    case Return => s.(ts := s.ts - {s.k.current})
    case Other(next) => s.(k := next)
  }

  ghost predicate Run(s: State, steps: seq<Step>)
    decreases |steps|
  {
    steps == [] || (Enabled(s, steps[0]) && Run(Next(s, steps[0]), steps[1..]))
  }

  function After(s: State, steps: seq<Step>): State
    decreases |steps|
  {
    if steps == [] then s else After(Next(s, steps[0]), steps[1..])
  }

  lemma WaitedForIsOwned(k: Sched, o: Mutex, ts: set<int>, h: int)
    requires MutexInv(k, o, ts) && In(k, o.w, h)
    ensures o.owner.Owner?
  {
    assert h in ts && TakerOk(k, o, h);
  }

  lemma NobodyWaits(k: Sched, o: Mutex, ts: set<int>)
    requires MutexInv(k, o, ts) && o.owner == Nobody
    ensures Waiting(k, o.w) == []
  {
    if Waiting(k, o.w) != [] {
      WaitedForIsOwned(k, o, ts, Waiting(k, o.w)[0]);
    }
  }

  /** In every run the mutex is free iff nobody owns it iff it is held 0 times, and nobody waits for a free mutex. */
  lemma {:induction false} Safety(s: State, steps: seq<Step>)
    requires MutexInv(s.k, s.o, s.ts) && Run(s, steps)
    ensures var e := After(s, steps);
      && MutexInv(e.k, e.o, e.ts)
      && (e.o.value == 1 <==> e.o.owner == Nobody) && (e.o.owner == Nobody <==> e.o.hold == 0)
      && (e.o.owner == Nobody ==> Waiting(e.k, e.o.w) == [])
    decreases |steps|
  {
    if steps == [] {
      if s.o.owner == Nobody { NobodyWaits(s.k, s.o, s.ts); }
    } else {
      match steps[0] {
        case Take(time) => TakeKeeps(s.k, s.o, s.ts, time);
        case Release => ReleaseKeeps(s.k, s.o, s.ts);
        case Return => ReturnKeeps(s.k, s.o, s.ts);
        case Other(next) => MutexRely(s.k, next, s.o, s.ts);
      }
      Safety(Next(s, steps[0]), steps[1..]);
    }
  }

  lemma SetErrRely(k: Sched, e: Err, w: int, ts: set<int>)
    requires Inside(k, w, ts) && k.current !in ts
    ensures Rely(k, SetErr(k, k.current, e), w, ts) && Inside(SetErr(k, k.current, e), w, ts)
  {
    WithRely(k, k.current, At(k, k.current).(err := e), w, ts);
    InsideRely(k, SetErr(k, k.current, e), w, ts);
  }

  /** What the steps of a mutex, made by a thread outside ts, are to another list. */
  lemma StepRely(s: State, step: Step, w: int, ts: set<int>)
    requires MutexInv(s.k, s.o, s.ts) && Enabled(s, step) && !step.Other? && w != s.o.w && Inside(s.k, w, ts)
    requires s.k.current !in ts
    ensures Rely(s.k, Next(s, step).k, w, ts)
  {
    RelyRefl(s.k, w, ts);
    SetErrRely(s.k, Ok, w, ts);
    SetErrRely(s.k, TimedOut, w, ts);
    SetErrRely(s.k, Failed, w, ts);
    match step
    case Take(time) =>
      if s.o.owner != Owner(s.k.current) && s.o.value == 0 && time != 0 { WaitStepRely(s, time > 0, w, ts); }
    case Release =>
      if s.o.owner == Owner(s.k.current) && s.o.hold == 1 { LastReleaseRely(s, w, ts); }
    case Return =>
  }

  lemma WaitStepRely(s: State, timed: bool, w: int, ts: set<int>)
    requires MutexInv(s.k, s.o, s.ts) && s.k.current !in s.ts && w != s.o.w && Inside(s.k, w, ts) && s.k.current !in ts
    requires At(s.k, s.k.current).stat == Running && s.o.owner != Owner(s.k.current) && s.o.value == 0
    ensures Rely(s.k, Blocked(Boosted(SetErr(s.k, s.k.current, Ok), s.o), s.o.w, s.o.prioFlag, timed), w, ts)
  {
    var k1 := SetErr(s.k, s.k.current, Ok);
    ErrKeeps(s.k, s.o, s.ts, Ok);
    SetErrRely(s.k, Ok, w, ts);
    var t := s.o.owner.t;
    assert ThreadOk(k1, k1.current);
    BoostKeeps(k1, s.o, s.ts, At(k1, k1.current).prio);
    ReprioritizedRely(k1, t, At(k1, k1.current).prio, w, ts);
    RelyRefl(k1, w, ts);
    var k2 := Boosted(k1, s.o);
    InsideRely(k1, k2, w, ts);
    BlockedRely(k2, s.o.w, s.o.prioFlag, timed, w, ts);
    RelyTrans(s.k, k1, k2, w, ts);
    RelyTrans(s.k, k2, Blocked(k2, s.o.w, s.o.prioFlag, timed), w, ts);
  }

  lemma LastReleaseRely(s: State, w: int, ts: set<int>)
    requires MutexInv(s.k, s.o, s.ts) && w != s.o.w && Inside(s.k, w, ts) && s.o.owner == Owner(s.k.current) && s.o.hold == 1
    ensures Rely(s.k, Released(s.k, s.o).0, w, ts)
  {
    var k1 := Restored(s.k, s.o);
    BoostKeeps(s.k, s.o, s.ts, s.o.original);
    ReprioritizedRely(s.k, s.k.current, s.o.original, w, ts);
    RelyRefl(s.k, w, ts);
    InsideRely(s.k, k1, w, ts);
    if Waiting(k1, s.o.w) != [] {
      FirstRely(k1, s.o.w, w, ts);
      RelyTrans(s.k, k1, Resumed(k1, Waiting(k1, s.o.w)[0]), w, ts);
    }
  }

  class MutexObject {
    var m: Mutex

    constructor (w: int, prioFlag: bool)
      ensures m == Mutex(1, Nobody, NO_PRIORITY, 0, w, prioFlag)
    {
      m := Mutex(1, Nobody, NO_PRIORITY, 0, w, prioFlag);
    }

    /** rt_mutex_take up to its call of rt_schedule. */
    method Take(s: Scheduler, time: int) returns (r: Outcome)
      requires s.Inv() && s.Tc(s.current).stat == Running && (m.owner.Owner? ==> m.owner.t in s.tcb)
      requires m.value == 0 ==> m.owner.Owner?
      modifies this, s
      ensures s.Inv() && (s.Abs(), m, r) == Taken(old(s.Abs()), old(m), time)
    {
      var t := s.current;
      s.SetError(t, Ok);
      if m.owner == Owner(t) {
        m := m.(hold := m.hold + 1);
        return Done(Ok);
      }
      if m.value > 0 {
        m := m.(value := m.value - 1, owner := Owner(t), original := s.Tc(t).prio, hold := m.hold + 1);
        return Done(Ok);
      }
      if time == 0 {
        s.SetError(t, TimedOut);
        assert s.tcb == SetErr(old(s.Abs()), t, TimedOut).tcb;
        return Done(TimedOut);
      }
      assert ThreadOk(s.Abs(), t);
      if s.Tc(t).prio < s.Tc(m.owner.t).prio {
        s.ChangePriority(m.owner.t, s.Tc(t).prio);
      }
      s.Block(m.w, m.prioFlag, time > 0);
      return Blocks;
    }

    /** rt_mutex_release. */
    method Release(s: Scheduler) returns (r: Err)
      requires s.Inv() && (m.owner == Owner(s.current) ==> m.hold > 0 && m.original < s.priorities)
      modifies this, s
      ensures s.Inv() && m == Released(old(s.Abs()), old(m)).1 && r == Released(old(s.Abs()), old(m)).2
      ensures s.Abs() == (var k := Released(old(s.Abs()), old(m)).0; if Wakes(old(s.Abs()), old(m)) then Scheduled(k) else k)
    {
      var needSchedule := false;
      var t := s.current;
      if m.owner != Owner(t) {
        s.SetError(t, Failed);
        return Failed;
      }
      m := m.(hold := m.hold - 1);
      if m.hold == 0 {
        if m.original != s.Tc(t).prio {
          s.ChangePriority(t, m.original);
        }
        needSchedule := HandOn(s);
      }
      if needSchedule {
        s.Schedule();
      }
      return Ok;
    }

    /** The end of the last release: the first waiter has the mutex, or nobody. */
    method HandOn(s: Scheduler) returns (needSchedule: bool)
      requires s.Inv() && m.hold == 0
      modifies this, s
      ensures s.Inv() && needSchedule == (Waiting(old(s.Abs()), old(m).w) != [])
      ensures needSchedule ==>
        var h := Waiting(old(s.Abs()), old(m).w)[0];
        s.Abs() == Resumed(old(s.Abs()), h) && m == old(m).(owner := Owner(h), original := At(old(s.Abs()), h).prio, hold := 1)
      ensures !needSchedule ==> s.Abs() == old(s.Abs()) && m == old(m).(value := old(m).value + 1, owner := Nobody, original := NO_PRIORITY)
    {
      needSchedule := false;
      if m.w in s.waits && s.waits[m.w] != [] {
        var h := s.waits[m.w][0];
        assert In(s.Abs(), m.w, h) && WaitOk(s.Abs(), m.w);
        m := m.(owner := Owner(h), original := s.Tc(h).prio);
        m := m.(hold := m.hold + 1);
        s.ResumeFirst(m.w);
        needSchedule := true;
      } else {
        m := m.(value := m.value + 1, owner := Nobody, original := NO_PRIORITY);
      }
    }
  }
}
