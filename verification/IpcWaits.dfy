/**
 When the calls of rt-thread/src/ipc.c wait, and how: the answer of each call that may wait, and the state
 of a thread that waits, with a timer exactly if it waits for a limited time.
 */
module IpcWaits {
  import opened Threads
  import opened Ipc
  import Semaphores
  import Mutexes
  import Events
  import Mailboxes
  import MessageQueues

  /** The current thread is suspended in list w, with no error, and with its timer on exactly if the time is limited. */
  ghost predicate Waits(k: Sched, k': Sched, w: int, time: int) {
    var t := k.current;
    k'.current == t && In(k', w, t) && At(k', t).stat == Suspend && At(k', t).err == Ok && (At(k', t).timer <==> time > 0)
  }

  /** rt_sem_take succeeds at once exactly if there is a unit, which it takes; without one it waits, unless the time is 0. */
  lemma SemTakes(k: Sched, value: nat, w: int, prioFlag: bool, time: int)
    requires Valid(k) && At(k, k.current).stat == Running
    ensures var r := Semaphores.Taken(k, value, w, prioFlag, time);
      && (r.2 == Semaphores.Done(Ok) <==> value > 0) && (r.2 == Semaphores.Done(TimedOut) <==> value == 0 && time == 0)
      && (r.2.Done? ==> r.0 == k) && (r.2.Blocks? ==> Waits(k, r.0, w, time)) && r.1 == if value > 0 then value - 1 else 0
  {
  }

  /** rt_mutex_take waits exactly if another thread owns the mutex and the time is not 0. */
  lemma MutexTakes(s: Mutexes.State, time: int)
    requires Mutexes.MutexInv(s.k, s.o, s.ts) && s.k.current !in s.ts && At(s.k, s.k.current).stat == Running
    ensures var r := Mutexes.Taken(s.k, s.o, time);
      && (r.2.Blocks? <==> s.o.owner.Owner? && s.o.owner.t != s.k.current && time != 0)
      && (r.2.Blocks? ==> Waits(s.k, r.0, s.o.w, time) && r.1 == s.o)
  {
  }

  /** rt_event_recv, when what it asks for is not there. */
  lemma EventWaits(k: Sched, e: Events.Event, i: Interest, time: int)
    requires Valid(k) && At(k, k.current).stat == Running
    ensures var r := Events.Received(k, e, i, time);
      r.2.Blocks? ==> Waits(k, r.0, e.w, time) && At(r.0, k.current).interest == i
  {
  }

  /** rt_mb_recv and rt_mb_send_wait. */
  lemma MailboxWaits(k: Sched, b: Mailboxes.Box, value: int, time: int, again: bool)
    requires Valid(k) && At(k, k.current).stat == Running
    ensures var r := Mailboxes.Received(k, b, time, again); r.2.Blocks? ==> Waits(k, r.0, b.recv.w, time)
    ensures var r := Mailboxes.Sent(k, b, value, time, again); r.2.Blocks? ==> Waits(k, r.0, b.send.w, time)
  {
  }

  /** rt_mq_recv waits exactly if no message is queued and the time is not 0. */
  lemma QueueWaits(k: Sched, n: nat, w: int, prioFlag: bool, time: int, again: bool)
    requires Valid(k) && At(k, k.current).stat == Running
    ensures var r := MessageQueues.Fetched(k, n, w, prioFlag, time, again);
      && (r.1 == MessageQueues.Done(Ok) <==> n > 0) && (r.1.Blocks? <==> n == 0 && time != 0)
      && (r.1.Blocks? ==> Waits(k, r.0, w, time))
  {
  }
}
