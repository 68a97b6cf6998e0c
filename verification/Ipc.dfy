/**
 What the objects of rt-thread/src/ipc.c rely on while others run: an object owns one wait list w,
 and ts are the threads inside a call on it that may block.  `Rely` is what every step of the rest of
 the system does to w and ts; the lemmas say so of each operation of the scheduler.
 */
module Ipc {
  import opened Queues
  import opened Threads

  /** t leaves w only by its timer. */
  ghost predicate Kept(k: Sched, k': Sched, w: int, t: int) {
    && t in k'.tcb && At(k', t).interest == At(k, t).interest
    && (At(k', t).err == if In(k, w, t) && !In(k', w, t) then TimedOut else At(k, t).err)
    && (!In(k', w, t) && (In(k, w, t) || !At(k, t).timer) ==> !At(k', t).timer)
  }

  ghost predicate Rely(k: Sched, k': Sched, w: int, ts: set<int>) {
    && |k'.ready| == |k.ready| && Subsequence(Waiting(k', w), Waiting(k, w))
    && forall t {:trigger Kept(k, k', w, t)} :: t in ts ==> Kept(k, k', w, t)
  }

  lemma InFewer(k: Sched, k': Sched, w: int, t: int)
    requires Subsequence(Waiting(k', w), Waiting(k, w)) && In(k', w, t)
    ensures In(k, w, t)
  {
    SubsequenceMember(Waiting(k', w), Waiting(k, w), t);
  }

  lemma RelyTrans(k: Sched, k1: Sched, k2: Sched, w: int, ts: set<int>)
    requires Rely(k, k1, w, ts) && Rely(k1, k2, w, ts)
    ensures Rely(k, k2, w, ts)
  {
    SubsequenceTrans(Waiting(k2, w), Waiting(k1, w), Waiting(k, w));
    forall t | t in ts ensures Kept(k, k2, w, t) {
      assert Kept(k, k1, w, t) && Kept(k1, k2, w, t);
      if In(k2, w, t) { InFewer(k1, k2, w, t); }
      if In(k1, w, t) { InFewer(k, k1, w, t); }
    }
  }

  /** The threads of ts exist, and those not in w have no timer running. */
  ghost predicate Inside(k: Sched, w: int, ts: set<int>) {
    forall t {:trigger t in ts} :: t in ts ==> t in k.tcb && (!In(k, w, t) ==> !At(k, t).timer)
  }

  /** Steps that leave list w as it is. */
  lemma RelySame(k: Sched, k': Sched, w: int, ts: set<int>)
    requires Inside(k, w, ts) && Waiting(k', w) == Waiting(k, w) && |k'.ready| == |k.ready|
    requires forall t {:trigger t in ts} :: t in ts ==>
      t in k'.tcb && At(k', t).interest == At(k, t).interest && At(k', t).err == At(k, t).err && (!At(k, t).timer ==> !At(k', t).timer)
    ensures Rely(k, k', w, ts)
  {
    SubsequenceRefl(Waiting(k, w));
    forall t | t in ts ensures Kept(k, k', w, t) {
      assert In(k', w, t) == In(k, w, t);
    }
  }

  lemma UnlinkedElsewhere(k: Sched, t: int, w: int)
    requires !In(k, w, t)
    ensures Waiting(Unlink(k, t), w) == Waiting(k, w)
  {
    RemovedAbsent(Waiting(k, w), t);
  }

  lemma ScheduledRely(k: Sched, w: int, ts: set<int>)
    requires Valid(k) && Inside(k, w, ts)
    ensures Rely(k, Scheduled(k), w, ts)
  {
    var h := HighestFrom(k.ready, 0);
    if h < |k.ready| {
      assert QueueOk(k, h) && k.ready[h][0] in k.ready[h] && WaitOk(k, w);
      UnlinkedElsewhere(k, k.ready[h][0], w);
    }
    RelySame(k, Scheduled(k), w, ts);
  }

  /** A thread that is not waiting in w resumed. */
  lemma ResumedRely(k: Sched, t: int, w: int, ts: set<int>)
    requires Inside(k, w, ts) && t in k.tcb && !In(k, w, t)
    ensures Rely(k, Resumed(k, t), w, ts)
  {
    UnlinkedElsewhere(k, t, w);
    RelySame(k, Resumed(k, t), w, ts);
  }

  /** The timer of any thread expires. */
  lemma TimeoutRely(k: Sched, t: int, w: int, ts: set<int>)
    requires Valid(k) && Inside(k, w, ts) && t in k.tcb && At(k, t).timer
    ensures Rely(k, TimedOutThread(k, t), w, ts)
  {
    var k' := TimedOutThread(k, t);
    assert WaitOk(k, w);
    RemovedMembers(Waiting(k, w), t);
    RemovedSubsequence(Waiting(k, w), t);
    assert Waiting(k', w) == Removed(Waiting(k, w), t);
    forall u | u in ts ensures Kept(k, k', w, u) {
      assert In(k', w, u) <==> In(k, w, u) && u != t;
    }
  }

  /** The current thread, not in ts, blocks in another list. */
  lemma BlockedRely(k: Sched, v: int, prioFlag: bool, timed: bool, w: int, ts: set<int>)
    requires Valid(k) && Inside(k, w, ts) && v != w && k.current !in ts && At(k, k.current).stat == Running
    ensures Rely(k, Blocked(k, v, prioFlag, timed), w, ts)
  {
    assert WaitOk(k, w);
    UnlinkedElsewhere(k, k.current, w);
    RelySame(k, Blocked(k, v, prioFlag, timed), w, ts);
  }

  lemma AsleepRely(k: Sched, w: int, ts: set<int>)
    requires Valid(k) && Inside(k, w, ts) && k.current !in ts && At(k, k.current).stat == Running
    ensures Rely(k, Asleep(k), w, ts)
  {
    assert WaitOk(k, w);
    UnlinkedElsewhere(k, k.current, w);
    RelySame(k, Asleep(k), w, ts);
  }

  /** rt_thread_suspend of a ready or running thread. */
  lemma SuspendedRely(k: Sched, t: int, w: int, ts: set<int>)
    requires Valid(k) && Inside(k, w, ts) && t in k.tcb
    ensures Rely(k, Suspended(k, t), w, ts)
  {
    assert WaitOk(k, w);
    if !In(k, w, t) { UnlinkedElsewhere(k, t, w); }
    RelySame(k, Suspended(k, t), w, ts);
  }

  lemma ReprioritizedRely(k: Sched, t: int, p: nat, w: int, ts: set<int>)
    requires Valid(k) && Inside(k, w, ts) && t in k.tcb
    ensures Rely(k, Reprioritized(k, t, p), w, ts)
  {
    assert WaitOk(k, w);
    if !In(k, w, t) { UnlinkedElsewhere(k, t, w); }
    RelySame(k, Reprioritized(k, t, p), w, ts);
  }

  /** A thread that is not in ts closed, or given other fields. */
  lemma ClosedRely(k: Sched, t: int, w: int, ts: set<int>)
    requires Valid(k) && Inside(k, w, ts) && t in k.tcb && t !in ts && !In(k, w, t)
    ensures Rely(k, Closed(k, t), w, ts)
  {
    UnlinkedElsewhere(k, t, w);
    RelySame(k, Closed(k, t), w, ts);
  }

  lemma WithRely(k: Sched, t: int, c: Tcb, w: int, ts: set<int>)
    requires Inside(k, w, ts) && t !in ts
    ensures Rely(k, With(k, t, c), w, ts)
  {
    RelySame(k, With(k, t, c), w, ts);
  }

  lemma StartedRely(k: Sched, t: int, w: int, ts: set<int>)
    requires Valid(k) && Inside(k, w, ts) && t in k.tcb && t !in ts && At(k, t).stat == Init
    ensures Rely(k, Started(k, t), w, ts)
  {
    assert WaitOk(k, w);
    var c := At(k, t).(prio := At(k, t).initPrio, mask := MaskOf(At(k, t).initPrio, |k.ready|), stat := Suspend);
    assert In(With(k, t, c), w, t) == In(k, w, t);
    UnlinkedElsewhere(With(k, t, c), t, w);
    RelySame(k, Started(k, t), w, ts);
  }

  lemma TickedRely(k: Sched, w: int, ts: set<int>)
    requires Valid(k) && Inside(k, w, ts)
    ensures Rely(k, Ticked(k), w, ts)
  {
    var c := At(k, k.current);
    assert ThreadOk(k, k.current);
    if c.remaining == 1 {
      var k1 := With(k, k.current, c.(remaining := c.initTick));
      FieldsValid(k, k.current, c.(remaining := c.initTick));
      assert forall t :: In(k1, w, t) == In(k, w, t);
      RelySame(k, k1, w, ts);
      ScheduledRely(k1, w, ts);
      RelyTrans(k, k1, Scheduled(k1), w, ts);
    } else {
      RelySame(k, Ticked(k), w, ts);
    }
  }

  // ----- what the operations of an object do to its own list

  lemma BlockedIn(k: Sched, w: int, prioFlag: bool, timed: bool)
    requires Valid(k) && At(k, k.current).stat == Running
    ensures var k' := Blocked(k, w, prioFlag, timed);
      forall u {:trigger In(k', w, u)} {:trigger In(k, w, u)} :: In(k', w, u) <==> In(k, w, u) || u == k.current
  {
    var t, k1 := k.current, Suspended(k, k.current);
    assert WaitOk(k, w) && !In(k, w, t);
    UnlinkedElsewhere(k, t, w);
    PutMembers(Waiting(k1, w), PlaceIn(k1, Waiting(k1, w), t, prioFlag), t);
  }

  lemma ResumedIn(k: Sched, t: int, w: int)
    requires Valid(k) && In(k, w, t)
    ensures var k' := Resumed(k, t);
      && At(k', t).stat != Suspend && !At(k', t).timer && At(k', t).err == At(k, t).err && At(k', t).interest == At(k, t).interest
      && forall u {:trigger In(k', w, u)} {:trigger In(k, w, u)} :: In(k', w, u) <==> In(k, w, u) && u != t
  {
    assert WaitOk(k, w) && ThreadOk(k, t);
    RemovedMembers(Waiting(k, w), t);
  }

  // ----- one side of an object: a wait list and the calls that may wait in it

  /** ts are the threads whose call has waited and not returned; `woken` those of them that the object has resumed since. */
  datatype Side = Side(w: int, ts: set<int>, woken: set<int>)

  /** A waiting thread has no error; one that is not waiting any more was woken or has timed out. */
  ghost predicate MemberOk(k: Sched, s: Side, t: int) {
    && t in k.tcb
    && (In(k, s.w, t) ==> At(k, t).err == Ok && t !in s.woken)
    && (!In(k, s.w, t) ==> !At(k, t).timer && At(k, t).err == if t in s.woken then Ok else TimedOut)
  }

  ghost predicate SideOk(k: Sched, s: Side) {
    && Valid(k) && s.woken <= s.ts
    && (forall t {:trigger In(k, s.w, t)} :: In(k, s.w, t) ==> t in s.ts)
    && (forall t {:trigger MemberOk(k, s, t)} :: t in s.ts ==> MemberOk(k, s, t))
  }

  lemma SideInside(k: Sched, s: Side)
    requires SideOk(k, s)
    ensures Inside(k, s.w, s.ts)
  {
    forall t | t in s.ts ensures t in k.tcb && (!In(k, s.w, t) ==> !At(k, t).timer) {
      assert MemberOk(k, s, t);
    }
  }

  lemma SideRely(k: Sched, k': Sched, s: Side)
    requires SideOk(k, s) && Rely(k, k', s.w, s.ts) && Valid(k')
    ensures SideOk(k', s)
    ensures Waiting(k, s.w) == [] ==> Waiting(k', s.w) == []
  {
    forall t | In(k', s.w, t) ensures t in s.ts { InFewer(k, k', s.w, t); }
    forall t | t in s.ts ensures MemberOk(k', s, t) {
      assert MemberOk(k, s, t) && Kept(k, k', s.w, t);
      if In(k', s.w, t) { InFewer(k, k', s.w, t); }
    }
  }

  function SetErr(k: Sched, t: int, e: Err): Sched {
    With(k, t, At(k, t).(err := e))
  }

  function Join(s: Side, t: int): Side {
    s.(ts := s.ts + {t}, woken := s.woken - {t})
  }

  function Leave(s: Side, t: int): Side {
    s.(ts := s.ts - {t}, woken := s.woken - {t})
  }

  /** The current thread waits: for the first time, or again after it was woken in vain. */
  lemma SideBlock(k: Sched, s: Side, prioFlag: bool, timed: bool)
    requires SideOk(k, s) && At(k, k.current).stat == Running
    ensures SideOk(Blocked(SetErr(k, k.current, Ok), s.w, prioFlag, timed), Join(s, k.current))
  {
    var t := k.current;
    assert ThreadOk(k, t) && WaitOk(k, s.w);
    FieldsValid(k, t, At(k, t).(err := Ok));
    var k1 := SetErr(k, t, Ok);
    BlockedValid(k1, s.w, prioFlag, timed);
    BlockedIn(k1, s.w, prioFlag, timed);
    var k', s' := Blocked(k1, s.w, prioFlag, timed), Join(s, t);
    forall u ensures In(k', s.w, u) <==> In(k, s.w, u) || u == t { assert In(k1, s.w, u) == In(k, s.w, u); }
    forall u | u in s'.ts ensures MemberOk(k', s', u) {
      if u != t { assert MemberOk(k, s, u); }
    }
  }

  /** Resuming the first waiter, if there is one. */
  function Signalled(k: Sched, s: Side): (Sched, Side) {
    if Waiting(k, s.w) == [] then (k, s) else (Resumed(k, Waiting(k, s.w)[0]), s.(woken := s.woken + {Waiting(k, s.w)[0]}))
  }

  lemma SideSignal(k: Sched, s: Side)
    requires SideOk(k, s)
    ensures SideOk(Signalled(k, s).0, Signalled(k, s).1)
    ensures Waiting(k, s.w) != [] ==> |Signalled(k, s).1.woken| == |s.woken| + 1
  {
    if Waiting(k, s.w) != [] {
      var h := Waiting(k, s.w)[0];
      var (k', s') := Signalled(k, s);
      assert In(k, s.w, h) && MemberOk(k, s, h) && WaitOk(k, s.w);
      ResumedValid(k, h);
      ResumedIn(k, h, s.w);
      forall u | u in s'.ts ensures MemberOk(k', s', u) { assert MemberOk(k, s, u); }
    }
  }

  /** The thread that is signalled is the one that stands first in the list; the others stay in their order. */
  lemma SignalledFirst(k: Sched, s: Side)
    requires Valid(k)
    ensures var q, k' := Waiting(k, s.w), Signalled(k, s).0;
      if q == [] then k' == k
      else Waiting(k', s.w) == q[1..] && At(k', q[0]).stat != Suspend && !At(k', q[0]).timer && OthersSame(k, k', q[0])
  {
    var q := Waiting(k, s.w);
    if q != [] {
      assert In(k, s.w, q[0]) && WaitOk(k, s.w);
      ResumedValid(k, q[0]);
      ResumedIn(k, q[0], s.w);
    }
  }

  /** A call that has waited returns or goes on. */
  lemma SideLeave(k: Sched, s: Side, t: int)
    requires SideOk(k, s) && t in s.ts && At(k, t).stat == Running
    ensures SideOk(k, Leave(s, t)) && At(k, t).err == if t in s.woken then Ok else TimedOut
  {
    assert WaitOk(k, s.w) && MemberOk(k, s, t);
    forall u | u in s.ts - {t} ensures MemberOk(k, Leave(s, t), u) { assert MemberOk(k, s, u); }
  }

  lemma SideErr(k: Sched, s: Side, t: int, e: Err)
    requires SideOk(k, s) && t in k.tcb && t !in s.ts
    ensures SideOk(SetErr(k, t, e), s)
  {
    assert ThreadOk(k, t);
    FieldsValid(k, t, At(k, t).(err := e));
    SideInside(k, s);
    WithRely(k, t, At(k, t).(err := e), s.w, s.ts);
    SideRely(k, SetErr(k, t, e), s);
  }

  // ----- no wakeup is lost: while threads wait, every one of the n items there are is matched by a woken thread that has yet to look

  ghost predicate Served(k: Sched, s: Side, n: nat) {
    SideOk(k, s) && (Waiting(k, s.w) != [] ==> n <= |s.woken|)
  }

  lemma ServedRely(k: Sched, k': Sched, s: Side, n: nat)
    requires Served(k, s, n) && Rely(k, k', s.w, s.ts) && Valid(k')
    ensures Served(k', s, n)
  {
    SideRely(k, k', s);
  }

  /** One item more, and a signal. */
  lemma ServedSignal(k: Sched, s: Side, n: nat)
    requires Served(k, s, n)
    ensures Served(Signalled(k, s).0, Signalled(k, s).1, n + 1)
  {
    SideSignal(k, s);
  }

  /** A woken thread takes an item, or finds that there is none and gives up. */
  lemma ServedLeave(k: Sched, s: Side, n: nat, t: int)
    requires Served(k, s, n) && t in s.woken && At(k, t).stat == Running
    ensures Served(k, Leave(s, t), if n == 0 then 0 else n - 1)
  {
    SideLeave(k, s, t);
  }

  /** A thread that has timed out returns. */
  lemma ServedReturn(k: Sched, s: Side, n: nat, t: int)
    requires Served(k, s, n) && t in s.ts && t !in s.woken && At(k, t).stat == Running
    ensures Served(k, Leave(s, t), n)
  {
    SideLeave(k, s, t);
    assert s.woken - {t} == s.woken;
  }

  // ----- what the steps of one object are to the list of another

  lemma InsideRely(k: Sched, k1: Sched, w: int, ts: set<int>)
    requires Inside(k, w, ts) && Rely(k, k1, w, ts)
    ensures Inside(k1, w, ts)
  {
    forall t | t in ts ensures t in k1.tcb && (!In(k1, w, t) ==> !At(k1, t).timer) {
      assert Kept(k, k1, w, t);
    }
  }

  lemma RelyRefl(k: Sched, w: int, ts: set<int>)
    requires Inside(k, w, ts)
    ensures Rely(k, k, w, ts)
  {
    RelySame(k, k, w, ts);
  }

  /** A thread outside ts waits in another list. */
  lemma WaitRely(k: Sched, v: int, prioFlag: bool, timed: bool, w: int, ts: set<int>)
    requires Valid(k) && Inside(k, w, ts) && w != v && k.current !in ts && At(k, k.current).stat == Running
    ensures Rely(k, Blocked(SetErr(k, k.current, Ok), v, prioFlag, timed), w, ts)
  {
    var t := k.current;
    assert ThreadOk(k, t);
    FieldsValid(k, t, At(k, t).(err := Ok));
    var k1 := SetErr(k, t, Ok);
    WithRely(k, t, At(k, t).(err := Ok), w, ts);
    InsideRely(k, k1, w, ts);
    BlockedRely(k1, v, prioFlag, timed, w, ts);
    RelyTrans(k, k1, Blocked(k1, v, prioFlag, timed), w, ts);
  }

  /** The first waiter of another list resumed. */
  lemma FirstRely(k: Sched, v: int, w: int, ts: set<int>)
    requires Valid(k) && Inside(k, w, ts) && w != v && Waiting(k, v) != []
    ensures Rely(k, Resumed(k, Waiting(k, v)[0]), w, ts)
  {
    var h := Waiting(k, v)[0];
    assert In(k, v, h) && WaitOk(k, v) && (In(k, w, h) ==> w == v);
    ResumedRely(k, h, w, ts);
  }
}
