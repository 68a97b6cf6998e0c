/**
 Mailboxes: rt_mb_send_wait and rt_mb_recv, rt-thread/src/ipc.c:1441-1713.

 Each call is a loop of regions with interrupts disabled: it stores or fetches if it can, and waits
 otherwise.  A thread that was woken looks again; one that has timed out returns its error.
 */
module Mailboxes {
  import opened Threads
  import opened Ipc
  import opened Scheduler

  datatype Outcome = Done(err: Err) | Full | Blocks   // Full is -RT_EFULL

  // ----- the ring

  function Wrap(i: nat, size: nat): nat {
    if i >= size then i - size else i
  }

  ghost predicate HoldsAt(pool: seq<int>, out: nat, q: seq<int>, i: nat)
    requires i < |q|
  {
    Wrap(out + i, |pool|) < |pool| && pool[Wrap(out + i, |pool|)] == q[i]
  }

  /** The ring holds q: its messages lie in order from the output offset on. */
  ghost predicate Holds(pool: seq<int>, out: nat, entry: nat, input: nat, q: seq<int>) {
    && |q| == entry <= |pool| && (out < |pool| || out == |pool| == 0)
    && input == Wrap(out + entry, |pool|)
    && forall i {:trigger HoldsAt(pool, out, q, i)} :: 0 <= i < |q| ==> HoldsAt(pool, out, q, i)
  }

  lemma PutHolds(pool: seq<int>, out: nat, entry: nat, input: nat, q: seq<int>, v: int)
    requires Holds(pool, out, entry, input, q) && entry < |pool|
    ensures input < |pool| && Holds(pool[input := v], out, entry + 1, Wrap(input + 1, |pool|), q + [v])
  {
    var pool', q' := pool[input := v], q + [v];
    forall i | 0 <= i < |q'| ensures HoldsAt(pool', out, q', i) {
      if i < |q| { assert HoldsAt(pool, out, q, i); }
    }
  }

  lemma GetHolds(pool: seq<int>, out: nat, entry: nat, input: nat, q: seq<int>)
    requires Holds(pool, out, entry, input, q) && entry > 0
    ensures pool[out] == q[0] && Holds(pool, Wrap(out + 1, |pool|), entry - 1, input, q[1..])
  {
    assert HoldsAt(pool, out, q, 0);
    var out', q' := Wrap(out + 1, |pool|), q[1..];
    forall i | 0 <= i < |q'| ensures HoldsAt(pool, out', q', i) {
      assert HoldsAt(pool, out, q, i + 1);
    }
  }

  // ----- one region of a call

  /**
   A mailbox: q are the messages in it, recv and send its two lists with the calls waiting there,
   sent and got all messages ever stored and fetched.
   */
  datatype Box = Box(q: seq<int>, size: nat, prioFlag: bool, recv: Side, send: Side, sent: seq<int>, got: seq<int>)

  /** The calling thread, if it has waited before, is done with waiting on side s. */
  function Past(k: Sched, s: Side, again: bool): Side {
    if again then Leave(s, k.current) else s
  }

  /** A region of rt_mb_recv up to a call of rt_schedule or the return; `again` says that the thread has waited before. */
  function Received(k: Sched, b: Box, time: int, again: bool): (Sched, Box, Outcome) {
    if b.q != [] then
      var s := Signalled(k, b.send);
      (s.0, b.(q := b.q[1..], got := b.got + [b.q[0]], recv := Past(k, b.recv, again), send := s.1), Done(Ok))
    else if time == 0 then
      (if again then SetErr(k, k.current, TimedOut) else k, b.(recv := Past(k, b.recv, again)), Done(TimedOut))
    else (Blocked(SetErr(k, k.current, Ok), b.recv.w, b.prioFlag, time > 0), b.(recv := Join(b.recv, k.current)), Blocks)
  }

  /** A region of rt_mb_send_wait. */
  function Sent(k: Sched, b: Box, value: int, time: int, again: bool): (Sched, Box, Outcome) {
    if |b.q| < b.size then
      var s := Signalled(k, b.recv);
      (s.0, b.(q := b.q + [value], sent := b.sent + [value], send := Past(k, b.send, again), recv := s.1), Done(Ok))
    else if time == 0 then
      (if again then SetErr(k, k.current, Ok) else k, b.(send := Past(k, b.send, again)), Full)
    else (Blocked(SetErr(k, k.current, Ok), b.send.w, b.prioFlag, time > 0), b.(send := Join(b.send, k.current)), Blocks)
  }

  // ----- the code

  class Mailbox {
    const pool: array<int>
    const size: nat
    const prioFlag: bool
    const recvList: int
    const sendList: int
    var entry: nat
    var inOffset: nat
    var outOffset: nat

    ghost predicate Valid(q: seq<int>)
      reads this, pool
    {
      pool.Length == size && Holds(pool[..], outOffset, entry, inOffset, q)
    }

    /** rt_mb_init. */
    constructor (pool: array<int>, prioFlag: bool, recvList: int, sendList: int)
      ensures Valid([]) && this.pool == pool && this.recvList == recvList && this.sendList == sendList && this.prioFlag == prioFlag
    {
      this.pool, this.size, this.prioFlag, this.recvList, this.sendList := pool, pool.Length, prioFlag, recvList, sendList;
      entry, inOffset, outOffset := 0, 0, 0;
    }

    /** One region of rt_mb_recv. */
    method Receive(s: Scheduler, time: int, again: bool, ghost b: Box) returns (r: Outcome, value: int)
      requires s.Inv() && Valid(b.q) && b.recv.w == recvList && b.send.w == sendList && b.prioFlag == prioFlag
      requires entry == 0 && time != 0 ==> s.Tc(s.current).stat == Running
      modifies this, s
      ensures s.Inv() && r == Received(old(s.Abs()), b, time, again).2 && Valid(Received(old(s.Abs()), b, time, again).1.q)
      ensures r == Done(Ok) ==> value == b.q[0]
      ensures s.Abs() == (var k := Received(old(s.Abs()), b, time, again).0;
        if r == Done(Ok) && Waiting(old(s.Abs()), sendList) != [] then Scheduled(k) else k)
    {
      value := 0;
      if entry == 0 {
        if time == 0 {
          if again {
            s.SetError(s.current, TimedOut);
          }
          return Done(TimedOut), 0;
        }
        s.SetError(s.current, Ok);
        s.Block(recvList, prioFlag, time > 0);
        return Blocks, 0;
      }
      GetHolds(pool[..], outOffset, entry, inOffset, b.q);
      value := pool[outOffset];
      outOffset := outOffset + 1;
      if outOffset >= size {
        outOffset := 0;
      }
      entry := entry - 1;
      if sendList in s.waits && s.waits[sendList] != [] {
        s.ResumeFirst(sendList);
        s.Schedule();
      }
      return Done(Ok), value;
    }

    /** One region of rt_mb_send_wait. */
    method Send(s: Scheduler, value: int, time: int, again: bool, ghost b: Box) returns (r: Outcome)
      requires s.Inv() && Valid(b.q) && b.size == size && b.recv.w == recvList && b.send.w == sendList && b.prioFlag == prioFlag
      requires entry == size && time != 0 ==> s.Tc(s.current).stat == Running
      modifies this, s, pool
      ensures s.Inv() && r == Sent(old(s.Abs()), b, value, time, again).2 && Valid(Sent(old(s.Abs()), b, value, time, again).1.q)
      ensures s.Abs() == (var k := Sent(old(s.Abs()), b, value, time, again).0;
        if r == Done(Ok) && Waiting(old(s.Abs()), recvList) != [] then Scheduled(k) else k)
    {
      if entry == size {
        if time == 0 {
          if again {
            s.SetError(s.current, Ok);
          }
          return Full;
        }
        s.SetError(s.current, Ok);
        s.Block(sendList, prioFlag, time > 0);
        return Blocks;
      }
      PutHolds(pool[..], outOffset, entry, inOffset, b.q, value);
      ghost var before := pool[..];
      pool[inOffset] := value;
      assert pool[..] == before[inOffset := value];
      inOffset := inOffset + 1;
      if inOffset >= size {
        inOffset := 0;
      }
      entry := entry + 1;
      if recvList in s.waits && s.waits[recvList] != [] {
        s.ResumeFirst(recvList);
        s.Schedule();
      }
      return Done(Ok);
    }
  }

  // ----- the invariant

  /**
   Messages come out in the order in which they went in; no more than fit; and no wakeup is lost:
   while a receiver sleeps, every message is matched by a woken receiver that has yet to look, and
   while a sender sleeps, every free place by a woken sender.
   */
  ghost predicate BoxInv(k: Sched, b: Box) {
    && b.sent == b.got + b.q && |b.q| <= b.size
    && b.recv.w != b.send.w && b.recv.ts !! b.send.ts
    && Served(k, b.recv, |b.q|) && Served(k, b.send, b.size - |b.q|)
  }

  lemma BoxRely(k: Sched, k': Sched, b: Box)
    requires BoxInv(k, b) && Rely(k, k', b.recv.w, b.recv.ts) && Rely(k, k', b.send.w, b.send.ts) && Valid(k')
    ensures BoxInv(k', b)
  {
    ServedRely(k, k', b.recv, |b.q|);
    ServedRely(k, k', b.send, b.size - |b.q|);
  }

  /** Who may run a region: any context if it does not wait, else a running thread that waits nowhere in the mailbox or was just woken. */
  ghost predicate MayRun(k: Sched, s: Side, other: Side, waits: bool, again: bool) {
    if again then k.current in s.woken && At(k, k.current).stat == Running
    else waits ==> k.current !in s.ts && k.current !in other.ts && At(k, k.current).stat == Running
  }

  /** The first waiter of one side resumed: the other side does not notice. */
  lemma SignalOther(k: Sched, s: Side, o: Side, n: nat)
    requires Served(k, s, n) && SideOk(k, o) && s.w != o.w
    ensures Served(Signalled(k, o).0, s, n)
  {
    if Waiting(k, o.w) != [] {
      SideInside(k, s);
      FirstRely(k, o.w, s.w, s.ts);
      SideSignal(k, o);
      ServedRely(k, Signalled(k, o).0, s, n);
    }
  }

  /** The current thread waits on one side: the other side does not notice. */
  lemma BlockOther(k: Sched, s: Side, v: int, n: nat, prioFlag: bool, timed: bool)
    requires Served(k, s, n) && s.w != v && k.current !in s.ts && At(k, k.current).stat == Running
    ensures Served(Blocked(SetErr(k, k.current, Ok), v, prioFlag, timed), s, n)
  {
    SideInside(k, s);
    WaitRely(k, v, prioFlag, timed, s.w, s.ts);
    assert ThreadOk(k, k.current);
    FieldsValid(k, k.current, At(k, k.current).(err := Ok));
    BlockedValid(SetErr(k, k.current, Ok), v, prioFlag, timed);
    ServedRely(k, Blocked(SetErr(k, k.current, Ok), v, prioFlag, timed), s, n);
  }

  lemma PastServed(k: Sched, s: Side, n: nat, again: bool)
    requires Served(k, s, n) && n > 0 && (again ==> k.current in s.woken && At(k, k.current).stat == Running)
    ensures Served(k, Past(k, s, again), n - 1)
  {
    if again { ServedLeave(k, s, n, k.current); }
  }

  /** A call that gives up: nothing to take, and no time left. */
  lemma GiveUp(k: Sched, s: Side, o: Side, n: nat, e: Err)
    requires Served(k, s, 0) && Served(k, o, n) && k.current in s.woken && At(k, k.current).stat == Running && s.ts !! o.ts
    ensures Served(SetErr(k, k.current, e), Leave(s, k.current), 0) && Served(SetErr(k, k.current, e), o, n)
  {
    var t := k.current;
    ServedLeave(k, s, 0, t);
    SideErr(k, Leave(s, t), t, e);
    SideErr(k, o, t, e);
    assert Waiting(SetErr(k, t, e), o.w) == Waiting(k, o.w);
  }

  lemma ReceiveKeeps(k: Sched, b: Box, time: int, again: bool)
    requires BoxInv(k, b) && MayRun(k, b.recv, b.send, b.q == [] && time != 0, again)
    ensures var r := Received(k, b, time, again); BoxInv(r.0, r.1)
  {
    var r := Received(k, b, time, again);
    if b.q != [] {
      assert b.got + b.q == b.got + [b.q[0]] + b.q[1..];
      PastServed(k, b.recv, |b.q|, again);
      SignalOther(k, Past(k, b.recv, again), b.send, |b.q| - 1);
      ServedSignal(k, b.send, b.size - |b.q|);
    } else if time == 0 {
      if again { GiveUp(k, b.recv, b.send, b.size, TimedOut); }
    } else {
      SideBlock(k, b.recv, b.prioFlag, time > 0);
      BlockOther(k, b.send, b.recv.w, b.size, b.prioFlag, time > 0);
    }
  }

  lemma SendKeeps(k: Sched, b: Box, value: int, time: int, again: bool)
    requires BoxInv(k, b) && MayRun(k, b.send, b.recv, |b.q| == b.size && time != 0, again)
    ensures var r := Sent(k, b, value, time, again); BoxInv(r.0, r.1)
  {
    if |b.q| < b.size {
      assert b.got + b.q + [value] == b.got + (b.q + [value]);
      PastServed(k, b.send, b.size - |b.q|, again);
      SignalOther(k, Past(k, b.send, again), b.recv, b.size - |b.q| - 1);
      ServedSignal(k, b.recv, |b.q|);
    } else if time == 0 {
      if again { GiveUp(k, b.send, b.recv, |b.q|, Ok); }
    } else {
      SideBlock(k, b.send, b.prioFlag, time > 0);
      BlockOther(k, b.recv, b.send.w, |b.q|, b.prioFlag, time > 0);
    }
  }

  /** A thread that has timed out returns. */
  lemma ReturnKeeps(k: Sched, b: Box)
    requires BoxInv(k, b) && At(k, k.current).stat == Running && At(k, k.current).err != Ok
    ensures k.current in b.recv.ts ==> BoxInv(k, b.(recv := Leave(b.recv, k.current)))
    ensures k.current in b.send.ts ==> BoxInv(k, b.(send := Leave(b.send, k.current)))
  {
    var t := k.current;
    if t in b.recv.ts {
      SideLeave(k, b.recv, t);
      ServedReturn(k, b.recv, |b.q|, t);
    }
    if t in b.send.ts {
      SideLeave(k, b.send, t);
      ServedReturn(k, b.send, b.size - |b.q|, t);
    }
  }

  // ----- whole runs

  datatype Step = Receive(time: int, again: bool) | Send(value: int, time: int, again: bool) | ReturnRecv | ReturnSend | Other(next: Sched)
  datatype State = State(k: Sched, b: Box)

  ghost predicate Enabled(s: State, step: Step) {
    match step
    case Receive(time, again) => MayRun(s.k, s.b.recv, s.b.send, s.b.q == [] && time != 0, again)
    case Send(_, time, again) => MayRun(s.k, s.b.send, s.b.recv, |s.b.q| == s.b.size && time != 0, again)
    case ReturnRecv => s.k.current in s.b.recv.ts && At(s.k, s.k.current).stat == Running && At(s.k, s.k.current).err != Ok
    case ReturnSend => s.k.current in s.b.send.ts && At(s.k, s.k.current).stat == Running && At(s.k, s.k.current).err != Ok
    case Other(next) => Valid(next) && Rely(s.k, next, s.b.recv.w, s.b.recv.ts) && Rely(s.k, next, s.b.send.w, s.b.send.ts)
  }

  function Next(s: State, step: Step): State {
    match step
    case Receive(time, again) => var r := Received(s.k, s.b, time, again); State(r.0, r.1)
    case Send(value, time, again) => var r := Sent(s.k, s.b, value, time, again); State(r.0, r.1)
    case ReturnRecv => s.(b := s.b.(recv := Leave(s.b.recv, s.k.current)))
    case ReturnSend => s.(b := s.b.(send := Leave(s.b.send, s.k.current)))
    case Other(next) => s.(k := next)
  }

  ghost predicate Run(s: State, steps: seq<Step>)
    decreases |steps|
  {
    steps == [] || (Enabled(s, steps[0]) && Run(Next(s, steps[0]), steps[1..]))
  }

  function After(s: State, steps: seq<Step>): State
    decreases |steps|
  {
    if steps == [] then s else After(Next(s, steps[0]), steps[1..])
  }

  lemma StepKeeps(s: State, step: Step)
    requires BoxInv(s.k, s.b) && Enabled(s, step)
    ensures BoxInv(Next(s, step).k, Next(s, step).b)
  {
    match step
    case Receive(time, again) => ReceiveKeeps(s.k, s.b, time, again);
    case Send(value, time, again) => SendKeeps(s.k, s.b, value, time, again);
    case ReturnRecv => ReturnKeeps(s.k, s.b);
    case ReturnSend => ReturnKeeps(s.k, s.b);
    case Other(next) => BoxRely(s.k, next, s.b);
  }

  /** In every run: what was received is a prefix of what was sent, at most `size` messages wait, and no wakeup is lost. */
  lemma {:induction false} BoundedFifo(s: State, steps: seq<Step>)
    requires BoxInv(s.k, s.b) && Run(s, steps)
    ensures var e := After(s, steps);
      && BoxInv(e.k, e.b)
      && e.b.got <= e.b.sent && |e.b.q| <= e.b.size
      && (Waiting(e.k, e.b.recv.w) != [] ==> |e.b.q| <= |e.b.recv.woken|)
      && (Waiting(e.k, e.b.send.w) != [] ==> e.b.size - |e.b.q| <= |e.b.send.woken|)
    decreases |steps|
  {
    if steps != [] {
      StepKeeps(s, steps[0]);
      BoundedFifo(Next(s, steps[0]), steps[1..]);
    }
  }

  /** The step is made by a thread for itself, and sets its error field. */
  ghost predicate ByThread(b: Box, step: Step) {
    match step
    case Receive(time, again) => b.q == [] && (time != 0 || again)
    case Send(_, time, again) => |b.q| == b.size && (time != 0 || again)
    case _ => false
  }

  /** What the steps of a mailbox are to another list. */
  lemma StepRely(s: State, step: Step, w: int, ts: set<int>)
    requires BoxInv(s.k, s.b) && Enabled(s, step) && !step.Other? && w != s.b.recv.w && w != s.b.send.w && Inside(s.k, w, ts)
    requires ByThread(s.b, step) ==> s.k.current !in ts
    ensures Rely(s.k, Next(s, step).k, w, ts)
  {
    var k, b := s.k, s.b;
    RelyRefl(k, w, ts);
    match step
    case Receive(time, again) =>
      if b.q != [] {
        if Waiting(k, b.send.w) != [] { FirstRely(k, b.send.w, w, ts); }
      } else if time != 0 {
        WaitRely(k, b.recv.w, b.prioFlag, time > 0, w, ts);
      } else if again {
        WithRely(k, k.current, At(k, k.current).(err := TimedOut), w, ts);
      }
    case Send(_, time, again) =>
      if |b.q| < b.size {
        if Waiting(k, b.recv.w) != [] { FirstRely(k, b.recv.w, w, ts); }
      } else if time != 0 {
        WaitRely(k, b.send.w, b.prioFlag, time > 0, w, ts);
      } else if again {
        WithRely(k, k.current, At(k, k.current).(err := Ok), w, ts);
      }
    case _ =>
  }
}
