/**
 Priority inheritance of a priority-ordered mutex whose owner and waiters take or wait for no second
 mutex and whose priorities nobody else changes: rt-thread/src/ipc.c:653-881.
 */
module MutexPriority {
  import opened Queues
  import opened Threads
  import opened Ipc
  import opened Mutexes

  /** x is at least as urgent as every thread of q. */
  ghost predicate AtLeast(k: Sched, x: int, q: seq<int>) {
    forall u {:trigger u in q} :: u in q ==> At(k, x).prio <= At(k, u).prio
  }

  /** The most urgent thread comes first. */
  ghost predicate Ascending(k: Sched, q: seq<int>) {
    q == [] || (AtLeast(k, q[0], q[1..]) && Ascending(k, q[1..]))
  }

  /** `base` is the priority the owner had when it became the owner. */
  ghost predicate PrioInv(k: Sched, o: Mutex, ts: set<int>, base: nat) {
    && MutexInv(k, o, ts) && o.prioFlag
    && Ascending(k, Waiting(k, o.w))
    && (o.owner.Owner? ==> At(k, o.owner.t).prio <= o.original == base && AtLeast(k, o.owner.t, Waiting(k, o.w)))
  }

  ghost predicate SamePrio(k: Sched, k': Sched, o: Mutex, ts: set<int>) {
    && (forall t {:trigger At(k', t)} :: t in ts ==> At(k', t).prio == At(k, t).prio)
    && (o.owner.Owner? ==> o.owner.t in k'.tcb && At(k', o.owner.t).prio == At(k, o.owner.t).prio)
  }

  ghost predicate SamePrios(k: Sched, k': Sched, q: seq<int>) {
    forall t {:trigger t in q} :: t in q ==> At(k', t).prio == At(k, t).prio
  }

  lemma SamePriosTail(k: Sched, k': Sched, q: seq<int>)
    requires SamePrios(k, k', q) && q != []
    ensures SamePrios(k, k', q[1..]) && At(k', q[0]).prio == At(k, q[0]).prio
  {
    assert q == [q[0]] + q[1..] && q[0] in q;
    forall t | t in q[1..] ensures At(k', t).prio == At(k, t).prio { assert t in q; }
  }

  lemma {:induction false} AscendingSub(k: Sched, k': Sched, a: seq<int>, b: seq<int>)
    requires Subsequence(a, b) && Ascending(k, b)
    requires SamePrios(k, k', a)
    ensures Ascending(k', a)
    decreases |b|
  {
    if a != [] {
      assert a == [a[0]] + a[1..];
      if a[0] == b[0] {
        SamePriosTail(k, k', a);
        AscendingSub(k, k', a[1..], b[1..]);
        forall u | u in a[1..] ensures At(k', a[0]).prio <= At(k', u).prio {
          SubsequenceMember(a[1..], b[1..], u);
          assert u in a && a[0] in a;
        }
      } else {
        AscendingSub(k, k', a, b[1..]);
      }
    }
  }

  /** Steps of the rest of the system that leave the priorities alone. */
  lemma PrioRely(k: Sched, k': Sched, o: Mutex, ts: set<int>, base: nat)
    requires PrioInv(k, o, ts, base) && Rely(k, k', o.w, ts) && Valid(k') && SamePrio(k, k', o, ts)
    ensures PrioInv(k', o, ts, base)
  {
    MutexRely(k, k', o, ts);
    forall t | t in Waiting(k', o.w) ensures In(k, o.w, t) && At(k', t).prio == At(k, t).prio {
      assert In(k', o.w, t);
      InFewer(k, k', o.w, t);
    }
    AscendingSub(k, k', Waiting(k', o.w), Waiting(k, o.w));
  }

  lemma {:induction false} PutAscending(k: Sched, q: seq<int>, t: int)
    requires Ascending(k, q)
    ensures Ascending(k, Put(q, PlaceIn(k, q, t, true), t))
  {
    var i := PlaceIn(k, q, t, true);
    var r := Put(q, i, t);
    if q == [] {
      assert r == [t];
    } else if i == 0 {
      assert r[1..] == q && q == [q[0]] + q[1..];
    } else {
      PutAscending(k, q[1..], t);
      var tail := Put(q[1..], i - 1, t);
      assert r[1..] == tail && r[0] == q[0];
      assert q[1..] == q[1..][..i-1] + q[1..][i-1..];
      forall u | u in tail ensures At(k, q[0]).prio <= At(k, u).prio {
        assert u in q[1..] || u == t;
      }
    }
  }

  lemma {:induction false} SamePlace(k: Sched, k': Sched, q: seq<int>, t: int)
    requires At(k', t).prio == At(k, t).prio && SamePrios(k, k', q)
    ensures PlaceIn(k', q, t, true) == PlaceIn(k, q, t, true)
  {
    if q != [] {
      SamePriosTail(k, k', q);
      SamePlace(k, k', q[1..], t);
    }
  }

  /** The owner's priority at least that of the current thread, and nothing else changed. */
  lemma BoostPrio(k: Sched, o: Mutex, ts: set<int>, base: nat)
    requires PrioInv(k, o, ts, base) && o.owner.Owner? && o.owner.t != k.current
    ensures PrioInv(Boosted(k, o), o, ts, base)
    ensures At(Boosted(k, o), o.owner.t).prio <= At(Boosted(k, o), k.current).prio
    ensures Boosted(k, o).current == k.current && At(Boosted(k, o), k.current) == At(k, k.current)
  {
    var t, k1 := o.owner.t, Boosted(k, o);
    assert ThreadOk(k, k.current);
    BoostKeeps(k, o, ts, At(k, k.current).prio);
    forall u | u in Waiting(k, o.w) ensures At(k1, u).prio == At(k, u).prio {
      assert In(k, o.w, u) && u in ts && TakerOk(k, o, u);
    }
    SubsequenceRefl(Waiting(k, o.w));
    AscendingSub(k, k1, Waiting(k1, o.w), Waiting(k, o.w));
  }

  lemma BlockPrio(k: Sched, o: Mutex, ts: set<int>, base: nat, timed: bool)
    requires PrioInv(k, o, ts, base) && k.current !in ts && At(k, k.current).stat == Running && At(k, k.current).err == Ok
    requires o.owner.Owner? && o.owner.t != k.current && At(k, o.owner.t).prio <= At(k, k.current).prio
    requires MutexInv(Blocked(k, o.w, true, timed), o, ts + {k.current})
    ensures PrioInv(Blocked(k, o.w, true, timed), o, ts + {k.current}, base)
  {
    var t := k.current;
    var k1, k' := Suspended(k, t), Blocked(k, o.w, true, timed);
    var q := Waiting(k, o.w);
    assert WaitOk(k, o.w) && !In(k, o.w, t);
    UnlinkedElsewhere(k, t, o.w);
    SamePlace(k, k1, q, t);
    PutAscending(k, q, t);
    var r := Put(q, PlaceIn(k, q, t, true), t);
    assert Waiting(k', o.w) == r;
    SubsequenceRefl(r);
    AscendingSub(k, k', r, r);
    PutMembers(q, PlaceIn(k, q, t, true), t);
  }

  /** The priority the owner had when it became the owner, after a take. */
  function BaseAfterTake(k: Sched, o: Mutex, base: nat): nat {
    if o.owner != Owner(k.current) && o.value > 0 then At(k, k.current).prio else base
  }

  lemma ErrPrio(k: Sched, o: Mutex, ts: set<int>, base: nat, e: Err)
    requires PrioInv(k, o, ts, base) && k.current !in ts
    ensures PrioInv(SetErr(k, k.current, e), o, ts, base)
  {
    var k' := SetErr(k, k.current, e);
    ErrKeeps(k, o, ts, e);
    assert Waiting(k', o.w) == Waiting(k, o.w);
    SubsequenceRefl(Waiting(k, o.w));
    AscendingSub(k, k', Waiting(k, o.w), Waiting(k, o.w));
  }

  lemma TakePrio(k: Sched, o: Mutex, ts: set<int>, base: nat, time: int)
    requires PrioInv(k, o, ts, base) && k.current !in ts && At(k, k.current).stat == Running
    ensures var r := Taken(k, o, time); PrioInv(r.0, r.1, Takers(k, ts, r.2), BaseAfterTake(k, o, base))
  {
    TakeKeeps(k, o, ts, time);
    ErrPrio(k, o, ts, base, Ok);
    ErrPrio(k, o, ts, base, TimedOut);
    var k1 := SetErr(k, k.current, Ok);
    if o.owner != Owner(k.current) {
      if o.value > 0 {
        NobodyWaits(k1, o, ts);
      } else if time != 0 {
        BoostPrio(k1, o, ts, base);
        BlockPrio(Boosted(k1, o), o, ts, base, time > 0);
      }
    }
  }

  function BaseAfterRelease(k: Sched, o: Mutex, base: nat): nat {
    if Wakes(k, o) then At(k, Waiting(k, o.w)[0]).prio else base
  }

  lemma RestorePrio(k: Sched, o: Mutex, ts: set<int>, base: nat)
    requires PrioInv(k, o, ts, base) && o.owner == Owner(k.current) && k.current !in ts
    ensures var k1 := Restored(k, o);
      && MutexInv(k1, o, ts) && Ascending(k1, Waiting(k1, o.w)) && Waiting(k1, o.w) == Waiting(k, o.w)
      && At(k1, k.current).prio == base && k1.current == k.current
      && forall u {:trigger At(k1, u)} :: u in ts ==> At(k1, u).prio == At(k, u).prio
  {
    var k1 := Restored(k, o);
    BoostKeeps(k, o, ts, o.original);
    forall u | u in Waiting(k, o.w) ensures At(k1, u).prio == At(k, u).prio {
      assert In(k, o.w, u) && u in ts;
    }
    SubsequenceRefl(Waiting(k, o.w));
    AscendingSub(k, k1, Waiting(k1, o.w), Waiting(k, o.w));
  }

  /** The final release gives its caller back the priority it had when it became the owner. */
  lemma ReleasePrio(k: Sched, o: Mutex, ts: set<int>, base: nat)
    requires PrioInv(k, o, ts, base) && k.current !in ts
    ensures var r := Released(k, o); PrioInv(r.0, r.1, ts, BaseAfterRelease(k, o, base))
    ensures o.owner == Owner(k.current) && o.hold == 1 ==> At(Released(k, o).0, k.current).prio == base
  {
    var r := Released(k, o);
    ReleaseKeeps(k, o, ts);
    if o.owner != Owner(k.current) {
      ErrPrio(k, o, ts, base, Failed);
    } else if o.hold == 1 {
      RestorePrio(k, o, ts, base);
      var k1 := Restored(k, o);
      if Waiting(k1, o.w) != [] { HandOver(k1, o, ts); }
    }
  }

  /** The new owner is the first of the list, so nobody still waiting is more urgent. */
  lemma HandOver(k1: Sched, o: Mutex, ts: set<int>)
    requires MutexInv(k1, o, ts) && Ascending(k1, Waiting(k1, o.w)) && Waiting(k1, o.w) != []
    ensures var h := Waiting(k1, o.w)[0]; var k' := Resumed(k1, h);
      Ascending(k', Waiting(k', o.w)) && AtLeast(k', h, Waiting(k', o.w)) && forall u {:trigger At(k', u)} :: At(k', u).prio == At(k1, u).prio
    ensures o.owner.Owner? ==> Waiting(k1, o.w)[0] != o.owner.t
  {
    var q := Waiting(k1, o.w);
    var h := q[0];
    assert In(k1, o.w, h) && TakerOk(k1, o, h) && WaitOk(k1, o.w);
    var k' := Resumed(k1, h);
    assert Waiting(k', o.w) == Removed(q, h) == q[1..];
    SubsequenceRefl(q[1..]);
    AscendingSub(k1, k', q[1..], q[1..]);
  }

  // ----- whole runs

  /** The other steps of the run leave the priorities of the owner and of the waiters alone. */
  ghost predicate Calm(s: State, steps: seq<Step>)
    decreases |steps|
  {
    steps == [] || ((steps[0].Other? ==> SamePrio(s.k, steps[0].next, s.o, s.ts)) && Calm(Next(s, steps[0]), steps[1..]))
  }

  function BaseAfter(s: State, base: nat, steps: seq<Step>): nat
    decreases |steps|
  {
    if steps == [] then base
    else
      var b := match steps[0]
        case Take(_) => BaseAfterTake(s.k, s.o, base)
        case Release => BaseAfterRelease(s.k, s.o, base)
        case _ => base;
      BaseAfter(Next(s, steps[0]), b, steps[1..])
  }

  /** In every run the owner is at least as urgent as every waiter, and will be restored to the priority it had when it became the owner. */
  lemma {:induction false} Inheritance(s: State, base: nat, steps: seq<Step>)
    requires PrioInv(s.k, s.o, s.ts, base) && Run(s, steps) && Calm(s, steps)
    ensures var e := After(s, steps);
      && PrioInv(e.k, e.o, e.ts, BaseAfter(s, base, steps))
      && (e.o.owner.Owner? ==> AtLeast(e.k, e.o.owner.t, Waiting(e.k, e.o.w)) && e.o.original == BaseAfter(s, base, steps))
    decreases |steps|
  {
    if steps != [] {
      var b := base;
      match steps[0] {
        case Take(time) =>
          TakePrio(s.k, s.o, s.ts, base, time);
          b := BaseAfterTake(s.k, s.o, base);
        case Release =>
          ReleasePrio(s.k, s.o, s.ts, base);
          b := BaseAfterRelease(s.k, s.o, base);
        case Return =>
          ReturnKeeps(s.k, s.o, s.ts);
        case Other(next) =>
          PrioRely(s.k, next, s.o, s.ts, base);
      }
      Inheritance(Next(s, steps[0]), b, steps[1..]);
    }
  }
}
