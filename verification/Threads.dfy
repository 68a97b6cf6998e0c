/**
 The scheduler's state and what its operations do to it: rt-thread/src/scheduler.c (one CPU) and
 rt-thread/src/thread.c.  Threads are numbered; a thread's list node lies in one of the ready
 queues, in one of the wait lists, or nowhere.
 */
module Threads {
  import opened Queues
  import opened Words

  /** The ready words have room for so many priorities. */
  const PRIORITY_LIMIT: nat := 256

  datatype Stat = Init | Ready | Running | Suspend | Close
  datatype Err = Ok | TimedOut | Failed   // RT_EOK, -RT_ETIMEOUT, -RT_ERROR

  /** A 32-bit event word, as the set of the positions of its 1 bits. */
  type Bits = set<nat>

  /** What a thread waits for at an event: all of `bits` or any of them, and whether to clear what it got. */
  datatype Interest = Interest(bits: Bits, all: bool, clear: bool)

  /** The words of a thread that say where the ready words record its priority; number and highMask serve more than 32 priorities. */
  datatype Mask = Mask(number: nat, numberMask: nat, highMask: nat)

  const NO_MASK := Mask(0, 0, 0)

  /** The words of priority p, out of n priorities. */
  function MaskOf(p: nat, n: nat): Mask {
    if n > 32 then Mask(p / 8, One(p / 8), One(p % 8)) else Mask(0, One(p), 0)
  }

  /** The fields of struct rt_thread. */
  datatype Tcb = Tcb(stat: Stat, prio: nat, initPrio: nat, mask: Mask, err: Err, timer: bool, interest: Interest, initTick: nat, remaining: nat)

  /** There is a ready queue for each of the RT_THREAD_PRIORITY_MAX priorities. */
  datatype Sched = Sched(tcb: map<int, Tcb>, ready: seq<seq<int>>, current: int, lock: nat, waits: map<int, seq<int>>)

  const NOBODY := Tcb(Init, 0, 0, NO_MASK, Ok, false, Interest({}, false, false), 1, 1)

  function At(k: Sched, t: int): Tcb {
    if t in k.tcb then k.tcb[t] else NOBODY
  }

  /** The threads suspended in list w. */
  function Waiting(k: Sched, w: int): seq<int> {
    if w in k.waits then k.waits[w] else []
  }

  function With(k: Sched, t: int, c: Tcb): Sched {
    k.(tcb := k.tcb[t := c])
  }

  /** The control block that _rt_thread_init sets up. */
  function Created(prio: nat, tick: nat): Tcb {
    Tcb(Init, prio, prio, NO_MASK, Ok, false, Interest({}, false, false), tick, tick)
  }

  function EmptyQueues(n: nat): (q: seq<seq<int>>)
    ensures |q| == n && forall p {:trigger q[p]} :: 0 <= p < n ==> q[p] == []
  {
    seq(n, p => [])
  }

  /** n priorities and one thread, running: the idle thread after rt_system_scheduler_start. */
  function Booted(n: nat, idle: int, prio: nat, tick: nat): Sched {
    Sched(map[idle := Created(prio, tick).(stat := Running, mask := MaskOf(prio, n))], EmptyQueues(n), idle, 0, map[])
  }

  // ----- the operations

  /** rt_list_remove of t's node, wherever it is. */
  function Unlink(k: Sched, t: int): Sched {
    k.(ready := seq(|k.ready|, p requires 0 <= p < |k.ready| => Removed(k.ready[p], t)),
       waits := map w | w in k.waits :: Removed(k.waits[w], t))
  }

  /** rt_schedule_insert_thread. */
  function Insert(k: Sched, t: int): Sched {
    var c := At(k, t);
    if t == k.current then With(k, t, c.(stat := Running))
    else if c.prio < |k.ready| then With(k, t, c.(stat := Ready)).(ready := k.ready[c.prio := k.ready[c.prio] + [t]])
    else k
  }

  /** rt_thread_suspend; it refuses a thread that is neither ready nor running. */
  function Suspended(k: Sched, t: int): Sched {
    if At(k, t).stat == Ready || At(k, t).stat == Running
    then With(Unlink(k, t), t, At(k, t).(stat := Suspend, timer := false))
    else k
  }

  /** rt_thread_resume; it refuses a thread that is not suspended. */
  function Resumed(k: Sched, t: int): Sched {
    if At(k, t).stat == Suspend then Insert(With(Unlink(k, t), t, At(k, t).(timer := false)), t) else k
  }

  /** The first part of rt_thread_timeout, run when t's timer has expired. */
  function TimedOutThread(k: Sched, t: int): Sched {
    Insert(With(Unlink(k, t), t, At(k, t).(timer := false, err := TimedOut)), t)
  }

  /** rt_thread_startup without the call of rt_schedule. */
  function Started(k: Sched, t: int): Sched {
    var c := At(k, t);
    Resumed(With(k, t, c.(prio := c.initPrio, mask := MaskOf(c.initPrio, |k.ready|), stat := Suspend)), t)
  }

  /** rt_thread_control with RT_THREAD_CTRL_CHANGE_PRIORITY. */
  function Reprioritized(k: Sched, t: int, p: nat): Sched {
    var c := At(k, t);
    if c.stat == Ready then Insert(With(Unlink(k, t), t, c.(prio := p, mask := MaskOf(p, |k.ready|))), t)
    else With(k, t, c.(prio := p, mask := MaskOf(p, |k.ready|)))
  }

  /** rt_thread_exit, rt_thread_detach and rt_thread_delete of a started thread. */
  function Closed(k: Sched, t: int): Sched {
    With(Unlink(k, t), t, At(k, t).(stat := Close, timer := false))
  }

  /** The least priority number from p on whose queue is not empty, or their number. */
  function HighestFrom(ready: seq<seq<int>>, p: nat): (h: nat)
    requires p <= |ready|
    ensures p <= h <= |ready| && (h < |ready| ==> ready[h] != [])
    ensures forall q {:trigger ready[q]} :: p <= q < h ==> ready[q] == []
    decreases |ready| - p
  {
    if p == |ready| || ready[p] != [] then p else HighestFrom(ready, p + 1)
  }

  /** The running thread gives way to `to`, whose node leaves its queue. */
  function SwitchTo(k: Sched, to: int): Sched {
    var from := k.current;
    var k1 := k.(current := to);
    var k2 := if At(k, from).stat == Running then Insert(k1, from) else k1;
    With(Unlink(k2, to), to, At(k2, to).(stat := Running))
  }

  /** rt_schedule. */
  function Scheduled(k: Sched): Sched {
    var h := HighestFrom(k.ready, 0);
    if k.lock > 0 || h == |k.ready| then k
    else if At(k, k.current).stat == Running && At(k, k.current).prio < h then k
    else SwitchTo(k, k.ready[h][0])
  }

  /** rt_exit_critical. */
  function Exited(k: Sched): Sched {
    var lock: nat := if k.lock > 0 then k.lock - 1 else 0;
    if lock == 0 then Scheduled(k.(lock := 0)) else k.(lock := lock)
  }

  /** Where rt_ipc_list_suspend puts the current thread: behind every waiter of its priority or a higher one, or last. */
  function PlaceIn(k: Sched, q: seq<int>, t: int, prioFlag: bool): (i: nat)
    ensures i <= |q|
  {
    if !prioFlag then |q|
    else if q == [] then 0
    else if At(k, t).prio < At(k, q[0]).prio then 0
    else 1 + PlaceIn(k, q[1..], t, prioFlag)
  }

  /** rt_ipc_list_suspend of the current thread in list w, and the start of its timer when it waits for a limited time. */
  function Blocked(k: Sched, w: int, prioFlag: bool, timed: bool): Sched {
    var t := k.current;
    var k1 := Suspended(k, t);
    var q := Waiting(k1, w);
    With(k1, t, At(k1, t).(timer := timed)).(waits := k1.waits[w := Put(q, PlaceIn(k1, q, t, prioFlag), t)])
  }

  /** rt_thread_sleep up to its call of rt_schedule. */
  function Asleep(k: Sched): Sched {
    var k1 := Suspended(k, k.current);
    With(k1, k.current, At(k1, k.current).(timer := true))
  }

  /** rt_tick_increase up to its check of the timers: the running thread's slice gets shorter and, when it ends, the others of its priority get their turn. */
  function Ticked(k: Sched): Sched {
    var c := At(k, k.current);
    if c.remaining == 1 then Scheduled(With(k, k.current, c.(remaining := c.initTick)))
    else if c.remaining > 1 then With(k, k.current, c.(remaining := c.remaining - 1))
    else k
  }

  // ----- the invariant

  ghost predicate In(k: Sched, w: int, t: int) {
    t in Waiting(k, w)
  }

  /** The thread's words are those of its priority. */
  ghost predicate Masked(k: Sched, t: int) {
    At(k, t).mask == MaskOf(At(k, t).prio, |k.ready|)
  }

  ghost predicate ThreadOk(k: Sched, t: int) {
    var c := At(k, t);
    && c.prio < |k.ready| && c.initPrio < |k.ready| && (c.stat != Init ==> Masked(k, t))
    && (c.stat == Ready ==> t in k.ready[c.prio])
    && (c.stat == Running ==> t == k.current)
    && (t == k.current ==> c.stat == Running || c.stat == Suspend || c.stat == Close)
    && (c.timer ==> c.stat == Suspend)
    && 0 < c.remaining <= c.initTick
  }

  /** Queue p holds ready threads of priority p, none twice. */
  ghost predicate QueueOk(k: Sched, p: nat) {
    p < |k.ready| && NoDup(k.ready[p])
    && forall t {:trigger t in k.ready[p]} :: t in k.ready[p] ==> t in k.tcb && At(k, t).stat == Ready && At(k, t).prio == p && t != k.current
  }

  /** Wait list w holds suspended threads, none twice. */
  ghost predicate WaitOk(k: Sched, w: int) {
    NoDup(Waiting(k, w)) && forall t {:trigger In(k, w, t)} :: In(k, w, t) ==> t in k.tcb && At(k, t).stat == Suspend
  }

  ghost predicate OnePlace(k: Sched) {
    forall t, v, w {:trigger In(k, v, t), In(k, w, t)} :: In(k, v, t) && In(k, w, t) ==> v == w
  }

  ghost predicate Valid(k: Sched) {
    && 0 < |k.ready| <= PRIORITY_LIMIT && k.current in k.tcb
    && (forall t {:trigger ThreadOk(k, t)} :: t in k.tcb ==> ThreadOk(k, t))
    && (forall p {:trigger QueueOk(k, p)} :: 0 <= p < |k.ready| ==> QueueOk(k, p))
    && (forall w {:trigger WaitOk(k, w)} :: WaitOk(k, w))
    && OnePlace(k)
  }

  ghost predicate Unqueued(k: Sched, p: nat, t: int)
    requires p < |k.ready|
  {
    t !in k.ready[p]
  }

  /** Valid, but for thread t, whose node is in no list. */
  ghost predicate Detached(k: Sched, t: int) {
    && 0 < |k.ready| <= PRIORITY_LIMIT && k.current in k.tcb && t in k.tcb
    && (forall u {:trigger ThreadOk(k, u)} :: u in k.tcb && u != t ==> ThreadOk(k, u))
    && (forall p {:trigger QueueOk(k, p)} :: 0 <= p < |k.ready| ==> QueueOk(k, p))
    && (forall w {:trigger WaitOk(k, w)} :: WaitOk(k, w))
    && OnePlace(k)
    && (forall p {:trigger Unqueued(k, p, t)} :: 0 <= p < |k.ready| ==> Unqueued(k, p, t))
    && (forall w {:trigger In(k, w, t)} :: !In(k, w, t))
    && Sane(At(k, t), |k.ready|)
  }

  /** For n priorities. */
  ghost predicate Sane(c: Tcb, n: nat) {
    c.prio < n && c.initPrio < n && 0 < c.remaining <= c.initTick
  }

  // ----- the invariant is kept

  lemma UnlinkDetached(k: Sched, t: int)
    requires Valid(k) && t in k.tcb
    ensures Detached(Unlink(k, t), t)
  {
    var k' := Unlink(k, t);
    forall p | 0 <= p < |k.ready|
      ensures QueueOk(k', p) && Unqueued(k', p, t) && forall u {:trigger u in k'.ready[p]} :: u in k'.ready[p] <==> u in k.ready[p] && u != t
    {
      assert QueueOk(k, p);
      RemovedMembers(k.ready[p], t);
    }
    UnlinkWaits(k, t);
    forall u | u in k'.tcb && u != t ensures ThreadOk(k', u) {
      assert ThreadOk(k, u);
    }
    assert ThreadOk(k, t);
  }

  lemma UnlinkWaits(k: Sched, t: int)
    requires Valid(k)
    ensures forall w {:trigger WaitOk(Unlink(k, t), w)} :: WaitOk(Unlink(k, t), w)
    ensures forall w, u {:trigger In(Unlink(k, t), w, u)} :: In(Unlink(k, t), w, u) <==> In(k, w, u) && u != t
    ensures OnePlace(Unlink(k, t))
  {
    var k' := Unlink(k, t);
    forall w ensures Waiting(k', w) == Removed(Waiting(k, w), t) {}
    forall w, u ensures In(k', w, u) <==> In(k, w, u) && u != t {
      assert WaitOk(k, w);
      RemovedMembers(Waiting(k, w), t);
    }
    forall w ensures WaitOk(k', w) {
      assert WaitOk(k, w);
      RemovedMembers(Waiting(k, w), t);
    }
  }

  lemma WithDetached(k: Sched, t: int, c: Tcb)
    requires Detached(k, t) && Sane(c, |k.ready|)
    ensures Detached(With(k, t, c), t)
  {
    var k' := With(k, t, c);
    forall u | u in k'.tcb && u != t ensures ThreadOk(k', u) {
      assert ThreadOk(k, u);
    }
    forall p | 0 <= p < |k.ready| ensures QueueOk(k', p) && Unqueued(k', p, t) {
      assert QueueOk(k, p) && Unqueued(k, p, t);
    }
    forall w, u ensures In(k', w, u) == In(k, w, u) {}
    forall w ensures WaitOk(k', w) {
      assert WaitOk(k, w) && !In(k, w, t);
    }
  }

  /** A thread linked into no list and neither ready nor running. */
  lemma AsideValid(k: Sched, t: int)
    requires Detached(k, t) && (At(k, t).stat == Suspend || At(k, t).stat == Close) && Masked(k, t)
    requires At(k, t).timer ==> At(k, t).stat == Suspend
    ensures Valid(k)
  {
    assert ThreadOk(k, t);
  }

  lemma InsertValid(k: Sched, t: int)
    requires Detached(k, t) && Masked(k, t) && !At(k, t).timer
    ensures Valid(Insert(k, t))
  {
    var k', c := Insert(k, t), At(k, t);
    forall u | u in k'.tcb ensures ThreadOk(k', u) {
      if u != t { assert ThreadOk(k, u); }
    }
    forall p | 0 <= p < |k.ready| ensures QueueOk(k', p) {
      assert QueueOk(k, p) && Unqueued(k, p, t);
      AppendMembers(k.ready[p], t);
    }
    forall w, u ensures In(k', w, u) == In(k, w, u) {}
    forall w ensures WaitOk(k', w) {
      assert WaitOk(k, w) && !In(k, w, t);
    }
  }

  /** Only thread t may differ. */
  ghost predicate OthersSame(k: Sched, k': Sched, t: int) {
    k'.current == k.current && k'.lock == k.lock && forall u {:trigger At(k', u)} :: u != t ==> At(k', u) == At(k, u)
  }

  /** t is linked into no wait list. */
  ghost predicate Loose(k: Sched, t: int) {
    forall w {:trigger In(k, w, t)} :: !In(k, w, t)
  }

  lemma SuspendedValid(k: Sched, t: int, timed: bool)
    requires Valid(k) && t in k.tcb && (At(k, t).stat == Ready || At(k, t).stat == Running)
    ensures var k1 := Suspended(k, t);
      && Valid(k1) && Valid(With(k1, t, At(k1, t).(timer := timed))) && (forall w {:trigger In(k1, w, t)} :: !In(k1, w, t))
      && At(k1, t) == At(k, t).(stat := Suspend, timer := false) && OthersSame(k, k1, t)
  {
    assert ThreadOk(k, t);
    UnlinkDetached(k, t);
    var u := Unlink(k, t);
    var c := At(k, t).(stat := Suspend, timer := false);
    WithDetached(u, t, c);
    AsideValid(With(u, t, c), t);
    WithDetached(With(u, t, c), t, c.(timer := timed));
    AsideValid(With(With(u, t, c), t, c.(timer := timed)), t);
    assert With(u, t, c) == Suspended(k, t);
  }

  lemma AsleepValid(k: Sched)
    requires Valid(k) && At(k, k.current).stat == Running
    ensures Valid(Asleep(k)) && OthersSame(k, Asleep(k), k.current) && Loose(Asleep(k), k.current)
    ensures At(Asleep(k), k.current) == At(k, k.current).(stat := Suspend, timer := true)
  {
    SuspendedValid(k, k.current, true);
    forall w ensures !In(Asleep(k), w, k.current) { assert In(Asleep(k), w, k.current) == In(Suspended(k, k.current), w, k.current); }
  }

  lemma ResumedValid(k: Sched, t: int)
    requires Valid(k) && t in k.tcb
    ensures Valid(Resumed(k, t)) && OthersSame(k, Resumed(k, t), t)
    ensures if At(k, t).stat == Suspend then
        Loose(Resumed(k, t), t) && At(Resumed(k, t), t) == At(k, t).(stat := if t == k.current then Running else Ready, timer := false)
      else Resumed(k, t) == k
  {
    if At(k, t).stat == Suspend {
      assert ThreadOk(k, t);
      UnlinkDetached(k, t);
      forall w ensures !In(Resumed(k, t), w, t) { assert In(Resumed(k, t), w, t) == In(Unlink(k, t), w, t); }
      WithDetached(Unlink(k, t), t, At(k, t).(timer := false));
      InsertValid(With(Unlink(k, t), t, At(k, t).(timer := false)), t);
    }
  }

  /** The assertion in rt_thread_timeout: a thread whose timer is running is suspended. */
  lemma TimeoutValid(k: Sched, t: int)
    requires Valid(k) && t in k.tcb && At(k, t).timer
    ensures At(k, t).stat == Suspend && Valid(TimedOutThread(k, t)) && OthersSame(k, TimedOutThread(k, t), t) && Loose(TimedOutThread(k, t), t)
    ensures At(TimedOutThread(k, t), t) == At(k, t).(stat := if t == k.current then Running else Ready, timer := false, err := TimedOut)
  {
    assert ThreadOk(k, t);
    UnlinkDetached(k, t);
    forall w ensures !In(TimedOutThread(k, t), w, t) { assert In(TimedOutThread(k, t), w, t) == In(Unlink(k, t), w, t); }
    var c := At(k, t).(timer := false, err := TimedOut);
    WithDetached(Unlink(k, t), t, c);
    InsertValid(With(Unlink(k, t), t, c), t);
  }

  lemma StartedValid(k: Sched, t: int)
    requires Valid(k) && t in k.tcb && At(k, t).stat == Init
    ensures Valid(Started(k, t)) && At(Started(k, t), t).stat == Ready && OthersSame(k, Started(k, t), t)
    ensures At(Started(k, t), t).prio == At(k, t).initPrio && !At(Started(k, t), t).timer
  {
    assert ThreadOk(k, t);
    var c := At(k, t).(prio := At(k, t).initPrio, mask := MaskOf(At(k, t).initPrio, |k.ready|), stat := Suspend);
    UnlinkDetached(k, t);
    var k1 := With(k, t, c);
    assert Unlink(k1, t) == With(Unlink(k, t), t, c);
    WithDetached(Unlink(k, t), t, c);
    WithDetached(Unlink(k1, t), t, c.(timer := false));
    InsertValid(With(Unlink(k1, t), t, c.(timer := false)), t);
  }

  lemma ReprioritizedValid(k: Sched, t: int, p: nat)
    requires Valid(k) && t in k.tcb && p < |k.ready|
    ensures Valid(Reprioritized(k, t, p)) && OthersSame(k, Reprioritized(k, t, p), t)
    ensures var c, c' := At(k, t), At(Reprioritized(k, t, p), t);
      c'.prio == p && c'.stat == c.stat && c'.initPrio == c.initPrio && c'.err == c.err && c'.timer == c.timer && c'.interest == c.interest
  {
    assert ThreadOk(k, t);
    var c := At(k, t).(prio := p, mask := MaskOf(p, |k.ready|));
    if c.stat == Ready {
      UnlinkDetached(k, t);
      WithDetached(Unlink(k, t), t, c);
      InsertValid(With(Unlink(k, t), t, c), t);
    } else {
      var k' := With(k, t, c);
      forall u | u in k'.tcb ensures ThreadOk(k', u) { assert ThreadOk(k, u); }
      forall q | 0 <= q < |k.ready| ensures QueueOk(k', q) { assert QueueOk(k, q); }
      forall w, u ensures In(k', w, u) == In(k, w, u) {}
      forall w ensures WaitOk(k', w) { assert WaitOk(k, w); }
    }
  }

  lemma ClosedValid(k: Sched, t: int)
    requires Valid(k) && t in k.tcb && At(k, t).stat != Init
    ensures Valid(Closed(k, t)) && OthersSame(k, Closed(k, t), t) && Loose(Closed(k, t), t)
    ensures At(Closed(k, t), t) == At(k, t).(stat := Close, timer := false)
  {
    assert ThreadOk(k, t);
    UnlinkDetached(k, t);
    forall w ensures !In(Closed(k, t), w, t) { assert In(Closed(k, t), w, t) == In(Unlink(k, t), w, t); }
    var c := At(k, t).(stat := Close, timer := false);
    WithDetached(Unlink(k, t), t, c);
    AsideValid(With(Unlink(k, t), t, c), t);
  }

  /** A suspended thread that is in no list put into a wait list. */
  lemma EnqueueValid(k: Sched, t: int, w: int, i: nat)
    requires Valid(k) && t in k.tcb && At(k, t).stat == Suspend
    requires forall v {:trigger In(k, v, t)} :: !In(k, v, t)
    requires i <= |Waiting(k, w)|
    ensures Valid(k.(waits := k.waits[w := Put(Waiting(k, w), i, t)]))
  {
    var k' := k.(waits := k.waits[w := Put(Waiting(k, w), i, t)]);
    assert WaitOk(k, w) && !In(k, w, t);
    PutMembers(Waiting(k, w), i, t);
    forall v, u ensures In(k', v, u) <==> In(k, v, u) || (v == w && u == t) {}
    forall v ensures WaitOk(k', v) { assert WaitOk(k, v); }
    forall u | u in k'.tcb ensures ThreadOk(k', u) { assert ThreadOk(k, u); }
    forall q | 0 <= q < |k.ready| ensures QueueOk(k', q) { assert QueueOk(k, q); }
  }

  lemma BlockedValid(k: Sched, w: int, prioFlag: bool, timed: bool)
    requires Valid(k) && At(k, k.current).stat == Running
    ensures Valid(Blocked(k, w, prioFlag, timed)) && In(Blocked(k, w, prioFlag, timed), w, k.current)
    ensures OthersSame(k, Blocked(k, w, prioFlag, timed), k.current)
    ensures At(Blocked(k, w, prioFlag, timed), k.current) == At(k, k.current).(stat := Suspend, timer := timed)
  {
    var t := k.current;
    SuspendedValid(k, t, timed);
    var k1 := Suspended(k, t);
    var k2 := With(k1, t, At(k1, t).(timer := timed));
    forall v ensures !In(k2, v, t) { assert !In(k1, v, t); }
    EnqueueValid(k2, t, w, PlaceIn(k1, Waiting(k1, w), t, prioFlag));
  }

  // ----- the order of a wait list

  /** No more urgent waiter stands behind a less urgent one. */
  ghost predicate ByPriority(k: Sched, q: seq<int>) {
    forall i, j {:trigger At(k, q[i]), At(k, q[j])} :: 0 <= i < j < |q| ==> At(k, q[i]).prio <= At(k, q[j]).prio
  }

  /** Waiters before position i are at least as urgent as t, the one at i is less urgent. */
  ghost predicate Behind(k: Sched, q: seq<int>, t: int, i: nat) {
    && i <= |q| && (i < |q| ==> At(k, t).prio < At(k, q[i]).prio)
    && forall j {:trigger q[j]} :: 0 <= j < i ==> At(k, q[j]).prio <= At(k, t).prio
  }

  lemma {:induction false} PlacedBehind(k: Sched, q: seq<int>, t: int)
    ensures Behind(k, q, t, PlaceIn(k, q, t, true))
  {
    if q != [] && At(k, t).prio >= At(k, q[0]).prio {
      PlacedBehind(k, q[1..], t);
      var i := PlaceIn(k, q[1..], t, true);
      forall j | 0 <= j < 1 + i ensures At(k, q[j]).prio <= At(k, t).prio {
        if j > 0 { assert q[j] == q[1..][j-1]; }
      }
    }
  }

  lemma BlockedList(k: Sched, w: int, prioFlag: bool, timed: bool)
    requires Valid(k) && At(k, k.current).stat == Running
    ensures var q := Waiting(k, w);
      Waiting(Blocked(k, w, prioFlag, timed), w) == Put(q, PlaceIn(Suspended(k, k.current), q, k.current, prioFlag), k.current)
  {
    assert WaitOk(k, w);
    assert !In(k, w, k.current);
    RemovedAbsent(Waiting(k, w), k.current);
  }

  /** A first-come list: the thread that blocks goes last, and the others stay in the order in which they came. */
  lemma FifoArrival(k: Sched, w: int, timed: bool)
    requires Valid(k) && At(k, k.current).stat == Running
    ensures Waiting(Blocked(k, w, false, timed), w) == Waiting(k, w) + [k.current]
  {
    BlockedList(k, w, false, timed);
  }

  /**
   A list by priority: the thread that blocks goes behind all waiters in front that are as urgent as it or
   more, and in front of a less urgent one; the others stay in their order, and the list stays sorted.
   */
  lemma PriorityArrival(k: Sched, w: int, timed: bool) returns (i: nat)
    requires Valid(k) && At(k, k.current).stat == Running
    ensures var q, k' := Waiting(k, w), Blocked(k, w, true, timed);
      && Behind(k, q, k.current, i) && Waiting(k', w) == q[..i] + [k.current] + q[i..]
      && (ByPriority(k, q) ==> ByPriority(k', Waiting(k', w)))
  {
    var q, t, k1, k' := Waiting(k, w), k.current, Suspended(k, k.current), Blocked(k, w, true, timed);
    BlockedList(k, w, true, timed);
    i := PlaceIn(k1, q, t, true);
    PlacedBehind(k1, q, t);
    assert forall u :: At(k1, u).prio == At(k, u).prio && At(k', u).prio == At(k, u).prio;
    assert Behind(k, q, t, i);
    var r := q[..i] + [t] + q[i..];
    if ByPriority(k, q) {
      forall a, b | 0 <= a < b < |r| ensures At(k', r[a]).prio <= At(k', r[b]).prio {
        var a', b' := if a < i then a else a - 1, if b < i then b else b - 1;
        if a != i && b != i {
          assert At(k, q[a']).prio <= At(k, q[b']).prio;
        } else if a == i {
          assert i < b' ==> At(k, q[i]).prio <= At(k, q[b']).prio;
        }
      }
    }
  }

  // ----- rt_schedule

  lemma SwitchValid(k: Sched, h: nat)
    requires Valid(k) && h < |k.ready| && k.ready[h] != []
    ensures Valid(SwitchTo(k, k.ready[h][0]))
  {
    var from, to := k.current, k.ready[h][0];
    assert QueueOk(k, h) && to in k.ready[h];
    assert ThreadOk(k, to) && ThreadOk(k, from);
    UnlinkDetached(k, to);
    var c := At(k, to).(stat := Running);
    WithDetached(Unlink(k, to), to, c);
    var k1 := With(Unlink(k, to), to, c);
    var k2 := k1.(current := to);
    TakeOver(k, k1, to);
    if At(k, from).stat == Running {
      InsertValid(k2, from);
      SwitchSame(k, to);
    }
  }

  /** `to`, out of its queue and running, takes the place of the current thread. */
  lemma TakeOver(k: Sched, k1: Sched, to: int)
    requires Detached(k1, to) && At(k1, to).stat == Running && Masked(k1, to) && !At(k1, to).timer && to != k1.current
    requires Valid(k) && k.current == k1.current && At(k1, k1.current) == At(k, k.current)
    ensures var k2, from := k1.(current := to), k1.current;
      if At(k1, from).stat == Running then Detached(k2, from) && Masked(k2, from) && !At(k2, from).timer else Valid(k2)
  {
    var k2, from := k1.(current := to), k1.current;
    assert ThreadOk(k1, from);
    forall u | u in k2.tcb && (u != from || At(k1, from).stat != Running) ensures ThreadOk(k2, u) {
      if u != to { assert ThreadOk(k1, u); }
    }
    forall q | 0 <= q < |k1.ready| ensures QueueOk(k2, q) && (At(k1, from).stat == Running ==> Unqueued(k2, q, from)) {
      assert QueueOk(k1, q) && Unqueued(k1, q, to);
    }
    forall w, u ensures In(k2, w, u) == In(k1, w, u) {}
    forall w ensures WaitOk(k2, w) && (At(k1, from).stat == Running ==> !In(k2, w, from)) { assert WaitOk(k1, w); }
  }

  /** The order of the two queue operations in a switch does not matter. */
  lemma SwitchSame(k: Sched, to: int)
    requires Valid(k) && to in k.tcb && to != k.current && At(k, k.current).stat == Running
    ensures SwitchTo(k, to) == Insert(With(Unlink(k, to), to, At(k, to).(stat := Running)).(current := to), k.current)
  {
    var from := k.current;
    assert ThreadOk(k, from);
    var p := At(k, from).prio;
    RemovedAppend(k.ready[p], from, to);
    var a := SwitchTo(k, to);
    var b := Insert(With(Unlink(k, to), to, At(k, to).(stat := Running)).(current := to), from);
    assert a.ready == b.ready;
    assert a.tcb == b.tcb;
  }

  lemma ScheduledValid(k: Sched)
    requires Valid(k)
    ensures Valid(Scheduled(k))
  {
    var h := HighestFrom(k.ready, 0);
    if h < |k.ready| { SwitchValid(k, h); }
  }

  ghost predicate SomeReady(k: Sched) {
    exists t {:trigger At(k, t)} :: t in k.tcb && At(k, t).stat == Ready
  }

  lemma ReadyIsQueued(k: Sched, t: int)
    requires Valid(k) && t in k.tcb && At(k, t).stat == Ready
    ensures HighestFrom(k.ready, 0) <= At(k, t).prio < |k.ready|
  {
    assert ThreadOk(k, t);
    var p := At(k, t).prio;
    assert k.ready[p] != [];
  }

  /** After rt_schedule with the scheduler unlocked, the running thread is one of the most urgent. */
  lemma ScheduleRunsHighest(k: Sched, t: int)
    requires Valid(k) && k.lock == 0 && (At(k, k.current).stat == Running || SomeReady(k))
    ensures var k' := Scheduled(k);
      At(k', k'.current).stat == Running && (t in k'.tcb && At(k', t).stat == Ready ==> At(k', k'.current).prio <= At(k', t).prio)
  {
    var k', h := Scheduled(k), HighestFrom(k.ready, 0);
    assert ThreadOk(k, k.current);
    if SomeReady(k) {
      var u :| u in k.tcb && At(k, u).stat == Ready;
      ReadyIsQueued(k, u);
    }
    if t in k.tcb && At(k, t).stat == Ready { ReadyIsQueued(k, t); }
    if h < |k.ready| {
      assert QueueOk(k, h) && k.ready[h][0] in k.ready[h];
    }
  }

  /** A thread that has suspended itself does not get past rt_schedule until it is chosen again. */
  lemma ScheduleLeavesSuspended(k: Sched)
    requires Valid(k) && k.lock == 0 && At(k, k.current).stat != Running && SomeReady(k)
    ensures Scheduled(k).current != k.current
  {
    var u :| u in k.tcb && At(k, u).stat == Ready;
    ReadyIsQueued(k, u);
    var h := HighestFrom(k.ready, 0);
    assert QueueOk(k, h) && k.ready[h][0] in k.ready[h];
  }

  // ----- threads of equal priority take turns

  function Calls(k: Sched, n: nat): Sched {
    if n == 0 then k else Scheduled(Calls(k, n - 1))
  }

  /** The threads that compete for the processor: the running one and those queued behind it. */
  ghost function Ring(k: Sched): seq<int> {
    if At(k, k.current).prio < |k.ready| then [k.current] + k.ready[At(k, k.current).prio] else []
  }

  ghost predicate Top(k: Sched, p: nat) {
    && Valid(k) && k.lock == 0 && p < |k.ready| && At(k, k.current).stat == Running && At(k, k.current).prio == p
    && forall q {:trigger k.ready[q]} :: 0 <= q < p ==> k.ready[q] == []
  }

  /** One call of rt_schedule passes the processor on to the next thread in the ring. */
  lemma ScheduleRotates(k: Sched, p: nat)
    requires Top(k, p)
    ensures var r, k' := Ring(k), Scheduled(k);
      Top(k', p) && Ring(k') == r[1..] + [r[0]]
  {
    ScheduledValid(k);
    var q := k.ready[p];
    var from, h := k.current, HighestFrom(k.ready, 0);
    assert ThreadOk(k, from) && QueueOk(k, p);
    if q == [] {
      assert h > p;
    } else {
      var to := q[0];
      assert h == p && to in q;
      RemovedAppend(q, from, to);
      var k' := SwitchTo(k, to);
      assert k'.ready[p] == Removed(q + [from], to);
      assert forall i {:trigger k'.ready[i]} :: 0 <= i < p ==> k'.ready[i] == Removed(k.ready[i], to);
    }
  }

  lemma RotateOnce(r: seq<int>, n: nat)
    requires 0 < n <= |r|
    ensures var s := r[n-1..] + r[..n-1]; s[1..] + [s[0]] == r[n..] + r[..n]
  {
  }

  lemma {:induction false} CallsRotate(k: Sched, p: nat, n: nat)
    requires Top(k, p) && n <= |Ring(k)|
    ensures Top(Calls(k, n), p) && Ring(Calls(k, n)) == Ring(k)[n..] + Ring(k)[..n]
  {
    if n == 0 {
      assert Ring(k)[0..] + Ring(k)[..0] == Ring(k);
    } else {
      CallsRotate(k, p, n - 1);
      ScheduleRotates(Calls(k, n - 1), p);
      RotateOnce(Ring(k), n);
    }
  }

  /** The ring is what it is meant to be: the runnable threads of the top priority, each once. */
  lemma RingMembers(k: Sched, p: nat, t: int)
    requires Top(k, p)
    ensures NoDup(Ring(k))
    ensures t in Ring(k) <==> t in k.tcb && At(k, t).prio == p && (At(k, t).stat == Ready || At(k, t).stat == Running)
  {
    var r, q := Ring(k), k.ready[p];
    assert QueueOk(k, p) && ThreadOk(k, k.current);
    forall a, b | 0 <= a < b < |r| ensures Differ(r, a, b) {
      if a > 0 { assert Differ(q, a - 1, b - 1); } else { assert r[b] in q; }
    }
    assert t in r <==> t == k.current || t in q;
    if t in k.tcb { assert ThreadOk(k, t); }
  }

  /**
   With n runnable threads at the top priority, n consecutive calls of rt_schedule let each of them
   run exactly once, in queue order, and the last one returns to the first.
   */
  lemma RoundRobin(k: Sched, p: nat, i: nat)
    requires Top(k, p) && i <= |Ring(k)|
    ensures Calls(k, i).current == Ring(k)[if i == |Ring(k)| then 0 else i]
    ensures Ring(Calls(k, |Ring(k)|)) == Ring(k)
  {
    CallsRotate(k, p, i);
    CallsRotate(k, p, |Ring(k)|);
    var r := Ring(k);
    assert r[|r|..] + r[..|r|] == r;
    assert Ring(Calls(k, i))[0] == Calls(k, i).current;
  }

  /** A change of fields that decide no list membership. */
  lemma FieldsValid(k: Sched, t: int, c: Tcb)
    requires Valid(k) && t in k.tcb && c.stat == At(k, t).stat && c.prio == At(k, t).prio && c.mask == At(k, t).mask
    requires Sane(c, |k.ready|) && (c.timer ==> c.stat == Suspend)
    ensures Valid(With(k, t, c))
  {
    var k' := With(k, t, c);
    forall u | u in k'.tcb ensures ThreadOk(k', u) { assert ThreadOk(k, u); }
    forall p | 0 <= p < |k.ready| ensures QueueOk(k', p) { assert QueueOk(k, p); }
    forall w, u ensures In(k', w, u) == In(k, w, u) {}
    forall w ensures WaitOk(k', w) { assert WaitOk(k, w); }
  }

  lemma TickedValid(k: Sched)
    requires Valid(k)
    ensures Valid(Ticked(k)) && At(k, k.current).remaining > 0
  {
    var c := At(k, k.current);
    assert ThreadOk(k, k.current);
    if c.remaining == 1 {
      FieldsValid(k, k.current, c.(remaining := c.initTick));
      ScheduledValid(With(k, k.current, c.(remaining := c.initTick)));
    } else {
      FieldsValid(k, k.current, c.(remaining := c.remaining - 1));
    }
  }

  function Ticks(k: Sched, n: nat): Sched {
    if n == 0 then k else Ticked(Ticks(k, n - 1))
  }

  /** A running thread keeps the processor until its time slice is used up; the tick that uses it up passes the processor on. */
  lemma {:induction false} TimeSlice(k: Sched, p: nat, n: nat)
    requires Top(k, p) && n <= At(k, k.current).remaining
    ensures n < At(k, k.current).remaining ==> Ticks(k, n) == With(k, k.current, At(k, k.current).(remaining := At(k, k.current).remaining - n))
    ensures n == At(k, k.current).remaining ==> Ring(Ticks(k, n)) == Ring(k)[1..] + [Ring(k)[0]]
  {
    var c := At(k, k.current);
    assert ThreadOk(k, k.current);
    if n == 0 {
      assert With(k, k.current, c.(remaining := c.remaining)).tcb == k.tcb;
    } else {
      TimeSlice(k, p, n - 1);
      var k1 := Ticks(k, n - 1);
      if n < c.remaining {
        assert With(k1, k.current, c.(remaining := c.remaining - n)).tcb == With(k, k.current, c.(remaining := c.remaining - n)).tcb;
      } else {
        var k2 := With(k, k.current, c.(remaining := c.initTick));
        assert With(k1, k.current, c.(remaining := c.initTick)).tcb == k2.tcb;
        FieldsValid(k, k.current, c.(remaining := c.initTick));
        ScheduleRotates(k2, p);
      }
    }
  }

  lemma BootedValid(n: nat, idle: int, prio: nat, tick: nat)
    requires prio < n <= PRIORITY_LIMIT && tick > 0
    ensures Valid(Booted(n, idle, prio, tick))
  {
    var k := Booted(n, idle, prio, tick);
    assert forall w, t :: !In(k, w, t);
  }

  lemma CreatedValid(k: Sched, t: int, prio: nat, tick: nat)
    requires Valid(k) && t !in k.tcb && prio < |k.ready| && tick > 0
    ensures Valid(With(k, t, Created(prio, tick))) && At(With(k, t, Created(prio, tick)), t).stat == Init && Loose(With(k, t, Created(prio, tick)), t)
    ensures At(With(k, t, Created(prio, tick)), t).prio == prio && OthersSame(k, With(k, t, Created(prio, tick)), t)
  {
    var k' := With(k, t, Created(prio, tick));
    forall u | u in k'.tcb ensures ThreadOk(k', u) {
      if u != t { assert ThreadOk(k, u); }
    }
    forall p | 0 <= p < |k.ready| ensures QueueOk(k', p) { assert QueueOk(k, p); }
    forall w, u ensures In(k', w, u) == In(k, w, u) {}
    forall w ensures WaitOk(k', w) && !In(k', w, t) { assert WaitOk(k, w); }
  }

  lemma LockValid(k: Sched, lock: nat)
    requires Valid(k)
    ensures Valid(k.(lock := lock))
  {
    var k' := k.(lock := lock);
    forall u | u in k'.tcb ensures ThreadOk(k', u) { assert ThreadOk(k, u); }
    forall p | 0 <= p < |k.ready| ensures QueueOk(k', p) { assert QueueOk(k, p); }
    forall w, u ensures In(k', w, u) == In(k, w, u) {}
    forall w ensures WaitOk(k', w) { assert WaitOk(k, w); }
  }
}
