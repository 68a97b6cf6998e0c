/**
 rt-thread/src/scheduler.c and rt-thread/src/thread.c for one CPU and any number of priorities up to
 256: the globals with the ready words, which have two levels when there are more than 32 priorities.
 */
module Scheduler {
  import opened Queues
  import opened Threads
  import opened Words
  import TwoLevel

  /** The bitmap has a bit for every queue that is not empty, and no other. */
  ghost predicate GroupOk(group: nat, ready: seq<seq<int>>) {
    Below(group, 32) && forall p {:trigger Bit(group, p)} :: 0 <= p < 32 ==> (Bit(group, p) <==> p < |ready| && ready[p] != [])
  }

  /** The ready words agree with the queues, on one level or two. */
  ghost predicate WordsOk(group: nat, table: seq<nat>, ready: seq<seq<int>>) {
    |table| == 32 && if |ready| > 32 then TwoLevel.TableOk(group, table, ready) else GroupOk(group, ready)
  }

  class Scheduler {
    const priorities: nat         // RT_THREAD_PRIORITY_MAX
    var tcb: map<int, Tcb>
    var ready: seq<seq<int>>      // rt_thread_priority_table
    var group: nat                // rt_thread_ready_priority_group
    var table: seq<nat>           // rt_thread_ready_table
    var current: int              // rt_current_thread
    var lock: nat                 // rt_scheduler_lock_nest
    var waits: map<int, seq<int>>

    ghost function Abs(): Sched
      reads this
    {
      Sched(tcb, ready, current, lock, waits)
    }

    ghost predicate Inv()
      reads this
    {
      Valid(Abs()) && |ready| == priorities && WordsOk(group, table, ready)
    }

    ghost predicate Bits()
      reads this
    {
      0 < |ready| == priorities <= PRIORITY_LIMIT && WordsOk(group, table, ready)
    }

    constructor (n: nat, idle: int, prio: nat, tick: nat)
      requires prio < n <= PRIORITY_LIMIT && tick > 0
      ensures Inv() && priorities == n && Abs() == Booted(n, idle, prio, tick)
    {
      priorities := n;
      tcb := map[idle := Created(prio, tick).(stat := Running, mask := MaskOf(prio, n))];
      ready := EmptyQueues(n);
      group, table, current, lock, waits := 0, seq(32, i => 0), idle, 0, map[];
      new;
      BootedValid(n, idle, prio, tick);
      NoWords(table, ready);
    }

    /** _rt_thread_init. */
    method InitThread(t: int, prio: nat, tick: nat)
      requires Inv() && t !in tcb && prio < priorities && tick > 0
      modifies this`tcb
      ensures Inv() && Abs() == With(old(Abs()), t, Created(prio, tick))
    {
      CreatedValid(Abs(), t, prio, tick);
      tcb := tcb[t := Created(prio, tick)];
    }

    function Tc(t: int): Tcb
      reads this
    {
      if t in tcb then tcb[t] else NOBODY
    }

    /** rt_schedule_insert_thread. */
    method InsertThread(t: int)
      requires Bits() && Tc(t).prio < priorities && Tc(t).mask == MaskOf(Tc(t).prio, priorities)
      modifies this
      ensures Bits() && Abs() == Insert(old(Abs()), t)
    {
      if t == current {
        tcb := tcb[t := Tc(t).(stat := Running)];
        return;
      }
      tcb := tcb[t := Tc(t).(stat := Ready)];
      var p, mask := Tc(t).prio, Tc(t).mask;
      EnterKeeps(group, table, ready, p, t);
      ready := ready[p := ready[p] + [t]];
      if priorities > 32 {
        table := table[mask.number := Or(table[mask.number], mask.highMask)];
      }
      group := Or(group, mask.numberMask);
    }

    /** rt_schedule_remove_thread. */
    method RemoveThread(t: int)
      requires Bits() && Tc(t).prio < priorities && Tc(t).mask == MaskOf(Tc(t).prio, priorities)
      requires forall p {:trigger ready[p]} :: 0 <= p < priorities && p != Tc(t).prio ==> t !in ready[p]
      modifies this
      ensures Bits() && Abs() == Unlink(old(Abs()), t)
    {
      var mask := Tc(t).mask;
      LeaveKeeps(group, table, ready, t, Tc(t).prio);
      ListRemove(t);
      assert ready == Less(old(ready), t);
      if ready[Tc(t).prio] == [] {
        if priorities > 32 {
          table := table[mask.number := AndNot(table[mask.number], mask.highMask)];
          if table[mask.number] == 0 {
            group := AndNot(group, mask.numberMask);
          }
        } else {
          group := AndNot(group, mask.numberMask);
        }
      }
    }

    /** rt_list_remove of t's node. */
    method ListRemove(t: int)
      modifies this`ready, this`waits
      ensures Abs() == Unlink(old(Abs()), t)
    {
      ready := seq(|ready|, p requires 0 <= p < |ready| reads this => Removed(ready[p], t));
      waits := map w | w in waits :: Removed(waits[w], t);
    }

    /** _get_highest_priority_thread, with the bitmap not zero. */
    method Highest() returns (h: nat, t: int)
      requires Bits() && group != 0
      ensures h == HighestFrom(ready, 0) < priorities && t == ready[h][0]
    {
      var r := Ffs(group);
      if priorities > 32 {
        TwoLevel.LowestIsHighest(group, table, ready);
        var number := r - 1;
        r := Ffs(table[number]);
        h := 8 * number + r - 1;
      } else {
        LowestIsHighest(group, ready);
        h := r - 1;
      }
      t := ready[h][0];
    }

    /** rt_schedule. */
    method Schedule()
      requires Inv()
      modifies this
      ensures Inv() && Abs() == Scheduled(old(Abs()))
    {
      ScheduledValid(Abs());
      if lock == 0 {
        if group != 0 {
          var needInsertFrom := false;
          var h, to := Highest();
          assert ThreadOk(Abs(), current) && QueueOk(Abs(), h) && to in ready[h];
          if Tc(current).stat == Running {
            if Tc(current).prio < h {
              to := current;
            } else {
              needInsertFrom := true;
            }
          }
          if to != current {
            Switch(h, to, needInsertFrom);
          } else {
            Stay(Abs());
            RemoveThread(current);
            tcb := tcb[current := Tc(current).(stat := Running)];
            assert tcb == old(tcb);
          }
        } else {
          NoneReady(group, table, ready);
        }
      }
    }

    /** The switch from the current thread to `to`. */
    method Switch(h: nat, to: int, needInsertFrom: bool)
      requires Inv() && h < priorities && ready[h] != [] && to == ready[h][0]
      requires needInsertFrom == (Tc(current).stat == Running)
      modifies this
      ensures Bits() && Abs() == SwitchTo(old(Abs()), to)
    {
      assert ThreadOk(Abs(), current) && ThreadOk(Abs(), to) && QueueOk(Abs(), h) && to in ready[h];
      OnlyInOwn(Abs(), to, current);
      var from := current;
      current := to;
      if needInsertFrom {
        InsertThread(from);
      }
      RemoveThread(to);
      tcb := tcb[to := Tc(to).(stat := Running)];
    }

    /** rt_thread_startup without the call of rt_schedule. */
    method Startup(t: int)
      requires Inv() && t in tcb && Tc(t).stat == Init
      modifies this
      ensures Inv() && Abs() == Started(old(Abs()), t)
    {
      StartedValid(Abs(), t);
      assert ThreadOk(Abs(), t);
      tcb := tcb[t := Tc(t).(prio := Tc(t).initPrio, mask := MaskOf(Tc(t).initPrio, priorities), stat := Suspend)];
      ghost var k1 := Abs();
      SuspendedIsUnqueued(old(Abs()), t);
      ListRemove(t);
      UnlinkUnqueued(k1, t);
      tcb := tcb[t := Tc(t).(timer := false)];
      InsertThread(t);
    }

    /** rt_thread_suspend. */
    method SuspendThread(t: int) returns (ok: bool)
      requires Inv() && t in tcb
      modifies this
      ensures Inv() && Abs() == Suspended(old(Abs()), t)
      ensures ok <==> old(Tc(t)).stat == Ready || old(Tc(t)).stat == Running
    {
      if Tc(t).stat != Ready && Tc(t).stat != Running {
        return false;
      }
      assert ThreadOk(Abs(), t);
      SuspendedValid(Abs(), t, false);
      OnlyInOwn(Abs(), t, t);
      RemoveThread(t);
      tcb := tcb[t := Tc(t).(stat := Suspend, timer := false)];
      return true;
    }

    /** rt_thread_resume. */
    method ResumeThread(t: int) returns (ok: bool)
      requires Inv() && t in tcb
      modifies this
      ensures Inv() && Abs() == Resumed(old(Abs()), t)
      ensures ok <==> old(Tc(t)).stat == Suspend
    {
      if Tc(t).stat != Suspend {
        return false;
      }
      assert ThreadOk(Abs(), t);
      ResumedValid(Abs(), t);
      SuspendedIsUnqueued(Abs(), t);
      UnlinkUnqueued(Abs(), t);
      ListRemove(t);
      tcb := tcb[t := Tc(t).(timer := false)];
      InsertThread(t);
      return true;
    }

    /** rt_thread_timeout, called by the timer of t; its first statement asserts what `suspended` says. */
    method Timeout(t: int) returns (suspended: bool)
      requires Inv() && t in tcb && Tc(t).timer
      modifies this
      ensures Inv() && suspended && Abs() == Scheduled(TimedOutThread(old(Abs()), t))
    {
      TimeoutValid(Abs(), t);
      assert ThreadOk(Abs(), t);
      SuspendedIsUnqueued(Abs(), t);
      UnlinkUnqueued(Abs(), t);
      suspended := Tc(t).stat == Suspend;
      tcb := tcb[t := Tc(t).(timer := false, err := TimedOut)];
      ListRemove(t);
      InsertThread(t);
      Schedule();
    }

    /** rt_thread_control with RT_THREAD_CTRL_CHANGE_PRIORITY. */
    method ChangePriority(t: int, p: nat)
      requires Inv() && t in tcb && p < priorities
      modifies this
      ensures Inv() && Abs() == Reprioritized(old(Abs()), t, p)
    {
      ReprioritizedValid(Abs(), t, p);
      assert ThreadOk(Abs(), t);
      if Tc(t).stat == Ready {
        OnlyInOwn(Abs(), t, t);
        RemoveThread(t);
        tcb := tcb[t := Tc(t).(prio := p, mask := MaskOf(p, priorities))];
        InsertThread(t);
      } else {
        tcb := tcb[t := Tc(t).(prio := p, mask := MaskOf(p, priorities))];
      }
    }

    /** rt_thread_exit up to its call of rt_schedule, rt_thread_detach and rt_thread_delete of a started thread. */
    method CloseThread(t: int)
      requires Inv() && t in tcb && Tc(t).stat != Init
      modifies this
      ensures Inv() && Abs() == Closed(old(Abs()), t)
    {
      ClosedValid(Abs(), t);
      assert ThreadOk(Abs(), t);
      OnlyInOwn(Abs(), t, t);
      RemoveThread(t);
      tcb := tcb[t := Tc(t).(timer := false, stat := Close)];
    }

    /** rt_ipc_list_suspend of the current thread in list w; a thread that waits for a limited time starts its timer. */
    method Block(w: int, prioFlag: bool, timed: bool)
      requires Inv() && Tc(current).stat == Running
      modifies this
      ensures Inv() && Abs() == Blocked(old(Abs()), w, prioFlag, timed)
    {
      BlockedValid(Abs(), w, prioFlag, timed);
      var t := current;
      var ok := SuspendThread(t);
      var q := if w in waits then waits[w] else [];
      var i := |q|;
      if prioFlag {
        i := 0;
        while i < |q|
          invariant i <= |q| && PlaceIn(Abs(), q, t, true) == i + PlaceIn(Abs(), q[i..], t, true)
        {
          if Tc(t).prio < Tc(q[i]).prio {
            break;
          }
          i := i + 1;
        }
      }
      waits := waits[w := Put(q, i, t)];
      tcb := tcb[t := Tc(t).(timer := timed)];
    }

    /** rt_thread_sleep up to its call of rt_schedule. */
    method Sleep()
      requires Inv() && Tc(current).stat == Running
      modifies this
      ensures Inv() && Abs() == Asleep(old(Abs()))
    {
      SuspendedValid(Abs(), current, true);
      var ok := SuspendThread(current);
      tcb := tcb[current := Tc(current).(timer := true)];
    }

    /** rt_ipc_list_resume: the first thread of list w. */
    method ResumeFirst(w: int)
      requires Inv() && Waiting(Abs(), w) != []
      modifies this
      ensures Inv() && Abs() == Resumed(old(Abs()), Waiting(old(Abs()), w)[0])
    {
      assert WaitOk(Abs(), w) && In(Abs(), w, waits[w][0]);
      var ok := ResumeThread(waits[w][0]);
    }

    /** thread->error. */
    method SetError(t: int, e: Err)
      requires Inv() && t in tcb
      modifies this`tcb
      ensures Inv() && Abs() == With(old(Abs()), t, At(old(Abs()), t).(err := e))
    {
      assert ThreadOk(Abs(), t);
      FieldsValid(Abs(), t, Tc(t).(err := e));
      tcb := tcb[t := Tc(t).(err := e)];
    }

    /** thread->event_set and thread->event_info. */
    method SetInterest(t: int, i: Interest)
      requires Inv() && t in tcb
      modifies this`tcb
      ensures Inv() && Abs() == With(old(Abs()), t, At(old(Abs()), t).(interest := i))
    {
      assert ThreadOk(Abs(), t);
      FieldsValid(Abs(), t, Tc(t).(interest := i));
      tcb := tcb[t := Tc(t).(interest := i)];
    }

    /** rt_tick_increase up to its check of the timers. */
    method TickIncrease()
      requires Inv()
      modifies this
      ensures Inv() && Abs() == Ticked(old(Abs()))
    {
      TickedValid(Abs());
      assert ThreadOk(Abs(), current);
      var left := Tc(current).remaining - 1;
      if left == 0 {
        FieldsValid(Abs(), current, Tc(current).(remaining := Tc(current).initTick));
        tcb := tcb[current := Tc(current).(remaining := Tc(current).initTick)];
        Schedule();
      } else {
        tcb := tcb[current := Tc(current).(remaining := left)];
      }
    }

    /** rt_enter_critical. */
    method EnterCritical()
      requires Inv()
      modifies this`lock
      ensures Inv() && lock == old(lock) + 1
    {
      LockValid(Abs(), lock + 1);
      lock := lock + 1;
    }

    /** rt_exit_critical; a count that is 0 already stays 0. */
    method ExitCritical()
      requires Inv()
      modifies this
      ensures Inv() && Abs() == Exited(old(Abs()))
    {
      LockValid(Abs(), if lock > 0 then lock - 1 else 0);
      lock := if lock > 0 then lock - 1 else 0;
      if lock == 0 {
        Schedule();
      }
    }
  }

  lemma NoWords(table: seq<nat>, ready: seq<seq<int>>)
    requires |table| == 32 && |ready| <= PRIORITY_LIMIT
    requires forall i {:trigger table[i]} :: 0 <= i < 32 ==> table[i] == 0
    requires forall p {:trigger ready[p]} :: 0 <= p < |ready| ==> ready[p] == []
    ensures WordsOk(0, table, ready)
  {
    ZeroBelow(8);
    ZeroBelow(32);
    forall i: nat ensures !Bit(0, i) { NoBits(i); }
    forall n | 0 <= n < 32 ensures TwoLevel.NumberOk(0, table, n) {}
    forall n, b | 0 <= n < 32 && 0 <= b < 8 ensures TwoLevel.ByteOk(table, ready, n, b) {}
  }

  /** What rt_schedule_insert_thread makes of the ready words. */
  lemma EnterKeeps(group: nat, table: seq<nat>, ready: seq<seq<int>>, p: nat, t: int)
    requires WordsOk(group, table, ready) && p < |ready| <= PRIORITY_LIMIT
    ensures var mask := MaskOf(p, |ready|);
      && mask.number < 32
      && WordsOk(Or(group, mask.numberMask), if |ready| > 32 then table[mask.number := Or(table[mask.number], mask.highMask)] else table, ready[p := ready[p] + [t]])
  {
    if |ready| > 32 {
      OrOne(group, p / 8);
      OrOne(table[p / 8], p % 8);
      TwoLevel.EnterKeeps(group, table, ready, p, t);
    } else {
      OrOne(group, p);
      SetKeeps(group, ready, p, t);
    }
  }

  lemma SetKeeps(group: nat, ready: seq<seq<int>>, p: nat, t: int)
    requires GroupOk(group, ready) && p < |ready| <= 32
    ensures GroupOk(SetBit(group, p), ready[p := ready[p] + [t]])
  {
    SetBelow(group, p, 32);
    var ready' := ready[p := ready[p] + [t]];
    forall q | 0 <= q < 32 ensures Bit(SetBit(group, p), q) <==> q < |ready'| && ready'[q] != [] {
      SetBitIs(group, p, q);
      assert Bit(group, q) <==> q < |ready| && ready[q] != [];
    }
  }

  ghost function Less(ready: seq<seq<int>>, t: int): (r: seq<seq<int>>)
    ensures |r| == |ready| && forall p {:trigger r[p]} :: 0 <= p < |r| ==> r[p] == Removed(ready[p], t)
  {
    seq(|ready|, p requires 0 <= p < |ready| => Removed(ready[p], t))
  }

  /** A thread in no other queue. */
  lemma LessIs(ready: seq<seq<int>>, t: int, p: nat)
    requires p < |ready| && forall q {:trigger ready[q]} :: 0 <= q < |ready| && q != p ==> t !in ready[q]
    ensures Less(ready, t) == ready[p := Removed(ready[p], t)]
  {
    forall q | 0 <= q < |ready| && q != p ensures Removed(ready[q], t) == ready[q] { RemovedAbsent(ready[q], t); }
  }

  /** What rt_schedule_remove_thread makes of the ready words. */
  lemma LeaveKeeps(group: nat, table: seq<nat>, ready: seq<seq<int>>, t: int, p: nat)
    requires WordsOk(group, table, ready) && p < |ready| <= PRIORITY_LIMIT
    requires forall q {:trigger ready[q]} :: 0 <= q < |ready| && q != p ==> t !in ready[q]
    ensures var mask := MaskOf(p, |ready|);
      && mask.number < 32
      && var table' := if |ready| > 32 then table[mask.number := AndNot(table[mask.number], mask.highMask)] else table;
        WordsOk(if Removed(ready[p], t) == [] && (|ready| > 32 ==> table'[mask.number] == 0) then AndNot(group, mask.numberMask) else group,
          if Removed(ready[p], t) == [] then table' else table, Less(ready, t))
  {
    LessIs(ready, t, p);
    if |ready| > 32 {
      AndNotOne(group, p / 8);
      AndNotOne(table[p / 8], p % 8);
      TwoLevel.LeaveKeeps(group, table, ready, p, t);
    } else {
      AndNotOne(group, p);
      ClearKeeps(group, ready, t, p);
    }
  }

  lemma ClearKeeps(group: nat, ready: seq<seq<int>>, t: int, p: nat)
    requires GroupOk(group, ready) && p < |ready| <= 32
    ensures GroupOk(if Removed(ready[p], t) == [] then ClearBit(group, p) else group, ready[p := Removed(ready[p], t)])
  {
    ClearBelow(group, p, 32);
    var ready' := ready[p := Removed(ready[p], t)];
    var group' := if ready'[p] == [] then ClearBit(group, p) else group;
    forall q | 0 <= q < 32 ensures Bit(group', q) <==> q < |ready'| && ready'[q] != [] {
      ClearBitIs(group, p, q);
      assert Bit(group, q) <==> q < |ready| && ready[q] != [];
      if q == p && ready[p] == [] { RemovedAbsent(ready[p], t); }
    }
  }

  lemma LowestIsHighest(group: nat, ready: seq<seq<int>>)
    requires GroupOk(group, ready) && group > 0 && |ready| <= 32
    ensures Lowest(group) == HighestFrom(ready, 0) < |ready|
  {
    var l, h := Lowest(group), HighestFrom(ready, 0);
    LowestBelow(group, 32);
    assert Bit(group, l);
    if h < |ready| {
      assert Bit(group, h);
      LowestIsLeast(group, h);
    }
    assert ready[l] != [];
  }

  lemma NoneReady(group: nat, table: seq<nat>, ready: seq<seq<int>>)
    requires WordsOk(group, table, ready) && group == 0
    ensures HighestFrom(ready, 0) == |ready|
  {
    forall p | 0 <= p < |ready| ensures ready[p] == [] {
      if |ready| > 32 {
        NoBits(p / 8);
        NoBits(p % 8);
        assert TwoLevel.NumberOk(group, table, p / 8) && TwoLevel.ByteOk(table, ready, p / 8, p % 8);
      } else {
        NoBits(p);
        assert Bit(group, p) <==> ready[p] != [];
      }
    }
  }

  /** A thread's node is in no ready queue but that of its priority. */
  lemma OnlyInOwn(k: Sched, t: int, from: int)
    requires Valid(k) && t in k.tcb && from in k.tcb
    ensures forall p {:trigger k.ready[p]} :: 0 <= p < |k.ready| && p != At(k, t).prio ==> t !in k.ready[p]
  {
    forall p | 0 <= p < |k.ready| && p != At(k, t).prio ensures t !in k.ready[p] {
      assert QueueOk(k, p);
    }
  }

  lemma SuspendedIsUnqueued(k: Sched, t: int)
    requires Valid(k) && t in k.tcb && At(k, t).stat != Ready
    ensures forall p {:trigger k.ready[p]} :: 0 <= p < |k.ready| ==> t !in k.ready[p]
  {
    forall p | 0 <= p < |k.ready| ensures t !in k.ready[p] {
      assert QueueOk(k, p);
    }
  }

  lemma UnlinkUnqueued(k: Sched, t: int)
    requires forall p {:trigger k.ready[p]} :: 0 <= p < |k.ready| ==> t !in k.ready[p]
    ensures Unlink(k, t).ready == k.ready
  {
    forall p | 0 <= p < |k.ready| ensures Removed(k.ready[p], t) == k.ready[p] {
      RemovedAbsent(k.ready[p], t);
    }
  }

  /** The running thread is in no list: taking it out of its queue changes nothing. */
  lemma Stay(k: Sched)
    requires Valid(k) && At(k, k.current).stat == Running
    ensures Unlink(k, k.current) == k
    ensures forall p {:trigger k.ready[p]} :: 0 <= p < |k.ready| ==> k.current !in k.ready[p]
  {
    var t := k.current;
    SuspendedIsUnqueued(k, t);
    UnlinkUnqueued(k, t);
    forall w | w in k.waits ensures Removed(k.waits[w], t) == k.waits[w] {
      assert WaitOk(k, w);
      assert In(k, w, t) <==> t in k.waits[w];
      RemovedAbsent(k.waits[w], t);
    }
    assert Unlink(k, t).waits == k.waits;
  }
}
