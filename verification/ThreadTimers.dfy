/**
 The timers of threads that wait or sleep for a limited time: rt_tick_increase runs rt_timer_check, which runs
 rt_thread_timeout of every thread whose deadline has come (rt-thread/src/clock.c:72-97, timer.c:494-553, thread.c:749-774).
 */
module ThreadTimers {
  import opened Store
  import opened Threads
  import Queues
  import opened TimerOrder
  import opened TimerRows
  import opened TimerDue

  /** The scheduler, and the bottom row of the timer list with its deadlines; a thread's timer has the thread's number. */
  datatype Clock = Clock(k: Sched, tick: Mem, stamp: Mem, next: int, row: seq<int>, now: int)

  /** Between ticks: a thread's timer is listed exactly while the thread waits for a limited time, and no deadline has been passed over. */
  ghost predicate Coupled(c: Clock) {
    && Valid(c.k) && RowSorted(c.tick, c.stamp, c.row, c.next) && Ahead(c.tick, c.row, c.now)
    && forall t {:trigger At(c.k, t)} :: t in c.k.tcb ==> (At(c.k, t).timer <==> t in c.row)
  }

  /** The timeout functions of the due timers, those of threads, one after the other. */
  function Woken(k: Sched, due: seq<int>): Sched
    decreases |due|
  {
    if due == [] then k
    else if due[0] in k.tcb && At(k, due[0]).timer then Woken(Scheduled(TimedOutThread(k, due[0])), due[1..])
    else Woken(k, due[1..])
  }

  /** rt_tick_increase. */
  ghost function Ticking(c: Clock): Clock {
    var now := (c.now + 1) % WRAP;
    var due := Due(c.tick, c.row, now);
    Clock(Woken(Ticked(c.k), due), c.tick, c.stamp, c.next, c.row[|due|..], now)
  }

  ghost predicate Awake(k: Sched, t: int) {
    At(k, t).stat == Ready || At(k, t).stat == Running
  }

  /** Thread u is as it was, but for who has the processor. */
  ghost predicate Alike(k: Sched, k': Sched, u: int) {
    && (u in k'.tcb <==> u in k.tcb) && At(k', u).timer == At(k, u).timer && At(k', u).err == At(k, u).err
    && (Awake(k', u) <==> Awake(k, u)) && (At(k', u).stat == Suspend <==> At(k, u).stat == Suspend)
  }

  lemma ScheduledAlike(k: Sched, u: int)
    requires Valid(k)
    ensures Alike(k, Scheduled(k), u)
  {
    var h := HighestFrom(k.ready, 0);
    if h < |k.ready| { assert QueueOk(k, h) && k.ready[h][0] in k.ready[h]; }
    assert ThreadOk(k, k.current);
  }

  lemma TickedAlike(k: Sched, u: int)
    requires Valid(k)
    ensures Valid(Ticked(k)) && Alike(k, Ticked(k), u)
  {
    TickedValid(k);
    var c := At(k, k.current);
    assert ThreadOk(k, k.current);
    if c.remaining == 1 {
      var k1 := With(k, k.current, c.(remaining := c.initTick));
      FieldsValid(k, k.current, c.(remaining := c.initTick));
      ScheduledAlike(k1, u);
      assert Alike(k, k1, u);
    }
  }

  lemma TimedOutIs(k: Sched, t: int, u: int)
    requires Valid(k) && t in k.tcb && At(k, t).timer
    ensures var k' := Scheduled(TimedOutThread(k, t));
      Valid(k') && (u != t ==> Alike(k, k', u)) && t in k'.tcb && Awake(k', t) && At(k', t).err == TimedOut && !At(k', t).timer
  {
    var k1 := TimedOutThread(k, t);
    TimeoutValid(k, t);
    ScheduledValid(k1);
    ScheduledAlike(k1, u);
    ScheduledAlike(k1, t);
    assert ThreadOk(k, t);
    assert u != t ==> Alike(k, k1, u);
  }

  /** The due threads are ready or running, with -RT_ETIMEOUT; the others are as they were. */
  lemma {:induction false} WokenIs(k: Sched, due: seq<int>, u: int)
    requires Valid(k)
    ensures Valid(Woken(k, due))
    ensures u in due && u in k.tcb && At(k, u).timer ==> Awake(Woken(k, due), u) && At(Woken(k, due), u).err == TimedOut && !At(Woken(k, due), u).timer
    ensures u !in due || u !in k.tcb || !At(k, u).timer ==> Alike(k, Woken(k, due), u)
    decreases |due|
  {
    if due != [] {
      assert due == [due[0]] + due[1..];
      if due[0] in k.tcb && At(k, due[0]).timer {
        TimedOutIs(k, due[0], u);
        WokenIs(Scheduled(TimedOutThread(k, due[0])), due[1..], u);
      } else {
        WokenIs(k, due[1..], u);
      }
    }
  }

  /** Which timers a tick takes off the row. */
  lemma RestOfRow(c: Clock, x: int)
    requires RowSorted(c.tick, c.stamp, c.row, c.next) && Ahead(c.tick, c.row, c.now)
    ensures var now, r := (c.now + 1) % WRAP, Ticking(c).row;
      && (x in Due(c.tick, c.row, now) <==> x in c.row && Diff(Rd(c.tick, x), now) == 0)
      && (x in r <==> x in c.row && Diff(Rd(c.tick, x), now) != 0)
  {
    var now := (c.now + 1) % WRAP;
    var due := Due(c.tick, c.row, now);
    AheadTick(c.tick, c.row, c.now);
    DueNow(c.tick, c.stamp, c.row, now, x);
    RowAhead(c);
    assert due == c.row[..|due|];
    SplitMember(c.row, |due|, x);
    NotNow(c.tick, c.row[|due|..], now, x);
  }

  lemma SplitMember(row: seq<int>, n: nat, x: int)
    requires n <= |row|
    ensures x in row <==> x in row[..n] || x in row[n..]
  {
    assert row == row[..n] + row[n..];
  }

  lemma NotNow(tick: Mem, row: seq<int>, now: int, x: int)
    requires Ahead(tick, row, now)
    ensures x in row ==> Diff(Rd(tick, x), now) != 0
  {
    if x in row { AheadMember(tick, row, now, x); }
  }

  lemma AheadMember(tick: Mem, row: seq<int>, now: int, x: int)
    requires Ahead(tick, row, now) && x in row
    ensures Diff(Rd(tick, x), now) != 0
  {
    var i :| 0 <= i < |row| && row[i] == x;
    assert Key(tick, row[i], now) > 0;
  }

  lemma RowAhead(c: Clock)
    requires RowSorted(c.tick, c.stamp, c.row, c.next) && Ahead(c.tick, c.row, c.now)
    ensures RowSorted(c.tick, c.stamp, Ticking(c).row, c.next) && Ahead(c.tick, Ticking(c).row, (c.now + 1) % WRAP)
  {
    AheadTick(c.tick, c.row, c.now);
    SuffixAhead(c.tick, c.stamp, c.row, (c.now + 1) % WRAP);
    NumberedSuffix(c.tick, c.stamp, c.row, c.next, |Due(c.tick, c.row, (c.now + 1) % WRAP)|);
  }

  lemma NumberedSuffix(tick: Mem, stamp: Mem, row: seq<int>, next: int, n: nat)
    requires RowSorted(tick, stamp, row, next) && n <= |row|
    ensures RowSorted(tick, stamp, row[n..], next)
  {
    forall i | 0 <= i < |row[n..]| ensures Numbered(stamp, row[n..][i], next) { assert Numbered(stamp, row[n + i], next); }
    forall i, j | 0 <= i < j < |row[n..]| ensures Before(tick, stamp, row[n..][i], row[n..][j]) { assert Before(tick, stamp, row[n + i], row[n + j]); }
  }

  lemma DueNow(tick: Mem, stamp: Mem, row: seq<int>, now: int, x: int)
    requires Ordered(tick, stamp, row) && Near(tick, row, now, now)
    ensures x in Due(tick, row, now) <==> x in row && Diff(Rd(tick, x), now) == 0
  {
    DueExactly(tick, stamp, row, now, now, x);
    if x in row {
      var i :| 0 <= i < |row| && row[i] == x;
      assert Key(tick, row[i], now) < HALF;
      DueIsNow(tick, x, now);
    }
  }

  lemma {:induction false} SuffixAhead(tick: Mem, stamp: Mem, row: seq<int>, now: int)
    requires Ordered(tick, stamp, row) && Near(tick, row, now, now)
    ensures var r := row[|Due(tick, row, now)|..]; Ordered(tick, stamp, r) && Ahead(tick, r, now)
    decreases |row|
  {
    if row == [] || !Reached(tick, row[0], now) {
      assert row[0..] == row;
      NoneDueAhead(tick, stamp, row, now);
    } else {
      NearTail(tick, stamp, row, now, now);
      SuffixAhead(tick, stamp, row[1..], now);
      assert row[1..][|Due(tick, row[1..], now)|..] == row[|Due(tick, row, now)|..];
    }
  }

  /** A tick makes ready exactly the threads whose deadline it is, and leaves the other waiting threads waiting. */
  lemma TickWakes(c: Clock, t: int)
    requires Coupled(c) && t in c.k.tcb && At(c.k, t).timer
    ensures var c' := Ticking(c);
      && Coupled(c') && t in c'.k.tcb
      && (Diff(Rd(c.tick, t), c'.now) == 0 ==> Awake(c'.k, t) && At(c'.k, t).err == TimedOut && !At(c'.k, t).timer)
      && (Diff(Rd(c.tick, t), c'.now) != 0 ==> At(c'.k, t).stat == Suspend && At(c'.k, t).timer)
  {
    TickCoupled(c);
    DueIff(c, t);
    ThreadWoken(c.k, Due(c.tick, c.row, (c.now + 1) % WRAP), t);
  }

  lemma DueIff(c: Clock, t: int)
    requires Coupled(c) && t in c.k.tcb && At(c.k, t).timer
    ensures var now := (c.now + 1) % WRAP; t in Due(c.tick, c.row, now) <==> Diff(Rd(c.tick, t), now) == 0
  {
    AheadTick(c.tick, c.row, c.now);
    DueNow(c.tick, c.stamp, c.row, (c.now + 1) % WRAP, t);
  }

  lemma ThreadWoken(k: Sched, due: seq<int>, t: int)
    requires Valid(k) && t in k.tcb && At(k, t).timer
    ensures var k' := Woken(Ticked(k), due);
      && t in k'.tcb
      && (t in due ==> Awake(k', t) && At(k', t).err == TimedOut && !At(k', t).timer)
      && (t !in due ==> At(k', t).stat == Suspend && At(k', t).timer)
  {
    TickedAlike(k, t);
    WokenIs(Ticked(k), due, t);
    SameThreads(Ticked(k), due, t);
    assert ThreadOk(k, t);
  }

  lemma TickCoupled(c: Clock)
    requires Coupled(c)
    ensures Coupled(Ticking(c))
  {
    var c' := Ticking(c);
    var due := Due(c.tick, c.row, c'.now);
    RowAhead(c);
    TickedAlike(c.k, 0);
    WokenIs(Ticked(c.k), due, 0);
    forall t | t in c'.k.tcb ensures At(c'.k, t).timer <==> t in c'.row { TickTimer(c, t); }
  }

  lemma TickTimer(c: Clock, t: int)
    requires Coupled(c)
    ensures var c' := Ticking(c); t in c'.k.tcb ==> (At(c'.k, t).timer <==> t in c'.row)
  {
    var due := Due(c.tick, c.row, (c.now + 1) % WRAP);
    RestOfRow(c, t);
    TickedAlike(c.k, t);
    WokenIs(Ticked(c.k), due, t);
    SameThreads(Ticked(c.k), due, t);
  }

  lemma {:induction false} SameThreads(k: Sched, due: seq<int>, u: int)
    requires Valid(k)
    ensures u in Woken(k, due).tcb <==> u in k.tcb
    decreases |due|
  {
    if due != [] {
      if due[0] in k.tcb && At(k, due[0]).timer {
        TimedOutIs(k, due[0], u);
        SameThreads(Scheduled(TimedOutThread(k, due[0])), due[1..], u);
      } else {
        SameThreads(k, due[1..], u);
      }
    }
  }

  /** The timeout functions of threads touch no timer: the expiry loop fires all that are due. */
  lemma {:induction false} QuietFires(due: seq<int>)
    ensures Fires(due, []) == due
    decreases |due|
  {
    if due != [] { QuietFires(due[1..]); }
  }

  // ----- the steps of the kernel that start and stop threads' timers

  /** Thread t, just suspended with its timer flag set, and its timer started for deadline d. */
  ghost function Armed(c: Clock, k: Sched, t: int, d: int): Clock {
    Clock(k, c.tick[t := d], c.stamp[t := c.next], c.next + 1, Inserted(c.tick[t := d], c.row, t), c.now)
  }

  lemma ArmedCoupled(c: Clock, k: Sched, t: int, d: int)
    requires Coupled(c) && Valid(k) && t in k.tcb && At(k, t).timer && !At(c.k, t).timer && t in c.k.tcb && 0 < Diff(d, c.now) < HALF
    requires forall u {:trigger At(k, u)} :: u in k.tcb && u != t ==> u in c.k.tcb && At(k, u).timer == At(c.k, u).timer
    ensures Coupled(Armed(c, k, t, d))
  {
    var c' := Armed(c, k, t, d);
    assert t !in c.row;
    AheadWindow(c.tick, c.row, c.now);
    StartedRow(c.tick, c.stamp, c.row, c.next, t, d, c.now);
    InsertedMembers(c'.tick, c.row, t);
    forall i | 0 <= i < |c'.row| ensures 0 < Key(c'.tick, c'.row[i], c.now) < HALF {
      var x := c'.row[i];
      assert x in c.row || x == t;
      if x != t {
        var j :| 0 <= j < |c.row| && c.row[j] == x;
        assert 0 < Key(c.tick, c.row[j], c.now);
      }
    }
    forall u | u in k.tcb ensures At(k, u).timer <==> u in c'.row {
      if u != t {
        assert At(k, u).timer == At(c.k, u).timer && u in c.k.tcb;
        assert At(c.k, u).timer <==> u in c.row;
      }
    }
  }

  lemma AheadWindow(tick: Mem, row: seq<int>, now: int)
    requires Ahead(tick, row, now)
    ensures InWindow(tick, row, now)
  {
    forall i | 0 <= i < |row| ensures Key(tick, row[i], now) < HALF { assert 0 < Key(tick, row[i], now); }
  }

  /** A wait for a limited time, and a sleep: the current thread is suspended and its timer started. */
  lemma WaitCoupled(c: Clock, w: int, prioFlag: bool, d: int)
    requires Coupled(c) && At(c.k, c.k.current).stat == Running && 0 < Diff(d, c.now) < HALF
    ensures Coupled(Armed(c, Blocked(c.k, w, prioFlag, true), c.k.current, d))
    ensures Coupled(Armed(c, Asleep(c.k), c.k.current, d))
  {
    assert ThreadOk(c.k, c.k.current);
    BlockedValid(c.k, w, prioFlag, true);
    SuspendedValid(c.k, c.k.current, true);
    ArmedCoupled(c, Blocked(c.k, w, prioFlag, true), c.k.current, d);
    ArmedCoupled(c, Asleep(c.k), c.k.current, d);
  }

  /** rt_thread_resume: the thread's timer is stopped. */
  lemma ResumeCoupled(c: Clock, t: int)
    requires Coupled(c) && t in c.k.tcb && At(c.k, t).stat == Suspend
    ensures Coupled(c.(k := Resumed(c.k, t), row := Queues.Removed(c.row, t)))
  {
    var c' := c.(k := Resumed(c.k, t), row := Queues.Removed(c.row, t));
    ResumedValid(c.k, t);
    RowRemoved(c.tick, c.stamp, c.row, c.next, t);
    forall i | 0 <= i < |c'.row| ensures 0 < Key(c.tick, c'.row[i], c.now) < HALF {
      assert c'.row[i] in Queues.Removed(c.row, t);
      var j :| 0 <= j < |c.row| && c.row[j] == c'.row[i];
      assert 0 < Key(c.tick, c.row[j], c.now);
    }
    forall u | u in c'.k.tcb ensures At(c'.k, u).timer <==> u in c'.row {
      assert u in c.k.tcb && (At(c.k, u).timer <==> u in c.row);
    }
  }

  lemma RowRemoved(tick: Mem, stamp: Mem, row: seq<int>, next: int, t: int)
    requires RowSorted(tick, stamp, row, next)
    ensures RowSorted(tick, stamp, Queues.Removed(row, t), next)
    ensures forall x {:trigger x in Queues.Removed(row, t)} :: x in Queues.Removed(row, t) <==> x in row && x != t
  {
    TimerRows.RemovedMembers(tick, stamp, [row], next, t, 0);
  }

  // ----- whole runs

  /** A tick, or whatever else happens between ticks. */
  datatype Step = Tick | Other(next: Clock)

  /** Other steps keep the coupling, the tick, and the timer of thread t: nobody resumes or stops it. */
  ghost predicate Enabled(c: Clock, step: Step, t: int) {
    step.Other? ==>
      && Coupled(step.next) && step.next.now == c.now
      && t in step.next.k.tcb && At(step.next.k, t).timer && Rd(step.next.tick, t) == Rd(c.tick, t)
  }

  ghost function Next(c: Clock, step: Step): Clock {
    match step
    case Tick => Ticking(c)
    case Other(next) => next
  }

  ghost predicate Run(c: Clock, steps: seq<Step>, t: int)
    decreases |steps|
  {
    steps == [] || (Enabled(c, steps[0], t) && Run(Next(c, steps[0]), steps[1..], t))
  }

  ghost function After(c: Clock, steps: seq<Step>): Clock
    decreases |steps|
  {
    if steps == [] then c else After(Next(c, steps[0]), steps[1..])
  }

  function Ticks(steps: seq<Step>): nat {
    if steps == [] then 0 else (if steps[0].Tick? then 1 else 0) + Ticks(steps[1..])
  }

  /**
   A thread that waits or sleeps for n more ticks, and is not resumed before, is suspended until n ticks have passed,
   and ready or running, with -RT_ETIMEOUT, as soon as they have.
   */
  lemma {:induction false} WakesOnTime(c: Clock, steps: seq<Step>, t: int)
    requires Coupled(c) && t in c.k.tcb && At(c.k, t).timer && Run(c, steps, t) && 0 <= c.now < WRAP
    requires Ticks(steps) < Diff(Rd(c.tick, t), c.now) || (Ticks(steps) == Diff(Rd(c.tick, t), c.now) && steps != [] && steps[|steps|-1].Tick?)
    ensures var e := After(c, steps);
      if Ticks(steps) < Diff(Rd(c.tick, t), c.now) then At(e.k, t).stat == Suspend && At(e.k, t).timer
      else Awake(e.k, t) && At(e.k, t).err == TimedOut && !At(e.k, t).timer
    decreases |steps|
  {
    assert ThreadOk(c.k, t);
    if steps != [] {
      var c1, rest := Next(c, steps[0]), steps[1..];
      assert rest != [] ==> rest[|rest|-1] == steps[|steps|-1];
      if steps[0].Tick? {
        TickWakes(c, t);
        Nearer(c, t);
        if rest == [] {
          assert Ticks(steps) == 1;
        } else {
          LastTick(rest);
          WakesOnTime(c1, rest, t);
        }
      } else {
        WakesOnTime(c1, rest, t);
      }
    }
  }

  /** A tick brings a deadline one tick nearer. */
  lemma Nearer(c: Clock, t: int)
    requires Coupled(c) && t in c.k.tcb && At(c.k, t).timer
    ensures 0 < Diff(Rd(c.tick, t), c.now) && Diff(Rd(c.tick, t), Ticking(c).now) == Diff(Rd(c.tick, t), c.now) - 1
  {
    AheadMember(c.tick, c.row, c.now, t);
    NextTick(Rd(c.tick, t), c.now);
  }

  lemma {:induction false} LastTick(steps: seq<Step>)
    requires steps != []
    ensures steps[|steps|-1].Tick? ==> Ticks(steps) > 0
  {
    if |steps| > 1 { LastTick(steps[1..]); }
  }
}
