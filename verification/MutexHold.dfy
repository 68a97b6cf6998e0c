/**
 The hold count of a mutex, rt-thread/src/ipc.c:683-697 and 815-862, against a ledger that is kept from
 what the calls return: how often the owner has taken the mutex since it came to own it, and how often
 it has released it.
 */
module MutexHold {
  import opened Threads
  import opened Ipc
  import opened Mutexes

  /** The owner with its successful takes and releases since it became the owner; being handed the mutex counts as a take. */
  datatype Ledger = Ledger(owner: Owner, takes: nat, releases: nat)

  const FREE := Ledger(Nobody, 0, 0)

  /** The ledger after a take of t that returned r. */
  function TakeEntry(l: Ledger, t: int, r: Outcome): Ledger {
    if r != Done(Ok) then l
    else if l.owner == Owner(t) then l.(takes := l.takes + 1)
    else Ledger(Owner(t), 1, 0)
  }

  /** The ledger after a release that returned r; `waiters` stood in the mutex's list. */
  function ReleaseEntry(l: Ledger, r: Err, waiters: seq<int>): Ledger {
    if r != Ok then l
    else if l.releases + 1 < l.takes then l.(releases := l.releases + 1)
    else if waiters != [] then Ledger(Owner(waiters[0]), 1, 0)
    else FREE
  }

  function Entry(s: State, step: Step, l: Ledger): Ledger {
    match step
    case Take(time) => TakeEntry(l, s.k.current, Taken(s.k, s.o, time).2)
    case Release => ReleaseEntry(l, Released(s.k, s.o).2, Waiting(s.k, s.o.w))
    case Return => l
    case Other(_) => l
  }

  function LedgerAfter(s: State, steps: seq<Step>, l: Ledger): Ledger
    decreases |steps|
  {
    if steps == [] then l else LedgerAfter(Next(s, steps[0]), steps[1..], Entry(s, steps[0], l))
  }

  /** The mutex holds what the ledger says. */
  ghost predicate Matches(o: Mutex, l: Ledger) {
    && o.owner == l.owner && o.hold == l.takes - l.releases
    && (if l.owner == Nobody then l == FREE else l.releases < l.takes)
  }

  /** What a call returns, by the ledger: a take succeeds at once for the owner and on a free mutex, a release for the owner. */
  ghost predicate Answered(s: State, step: Step, l: Ledger) {
    var me := Owner(s.k.current);
    match step
    case Take(time) =>
      Taken(s.k, s.o, time).2 ==
        if l.owner == Nobody || l.owner == me then Done(Ok) else if time == 0 then Done(TimedOut) else Blocks
    case Release => Released(s.k, s.o).2 == if l.owner == me then Ok else Failed
    case _ => true
  }

  lemma TakeMatches(s: State, time: int, l: Ledger)
    requires MutexInv(s.k, s.o, s.ts) && Matches(s.o, l)
    ensures Answered(s, Take(time), l)
    ensures Matches(Taken(s.k, s.o, time).1, Entry(s, Take(time), l))
  {
  }

  lemma ReleaseMatches(s: State, l: Ledger)
    requires MutexInv(s.k, s.o, s.ts) && Matches(s.o, l)
    ensures Answered(s, Release, l)
    ensures Matches(Released(s.k, s.o).1, Entry(s, Release, l))
  {
    if s.o.owner == Owner(s.k.current) && s.o.hold == 1 {
      BoostKeeps(s.k, s.o, s.ts, s.o.original);
    }
  }

  lemma StepMatches(s: State, step: Step, l: Ledger)
    requires MutexInv(s.k, s.o, s.ts) && Matches(s.o, l)
    ensures Answered(s, step, l) && Matches(Next(s, step).o, Entry(s, step, l))
  {
    match step
    case Take(time) => TakeMatches(s, time, l);
    case Release => ReleaseMatches(s, l);
    case _ =>
  }

  /**
   In every run: the hold count is the number of the owner's successful takes, a hand-over counting as one,
   minus its releases since it became the owner; and the next call is answered as the ledger says.
   */
  lemma {:induction false} HoldCount(s: State, steps: seq<Step>, l: Ledger, next: Step)
    requires MutexInv(s.k, s.o, s.ts) && Run(s, steps) && Matches(s.o, l)
    ensures var e, m := After(s, steps), LedgerAfter(s, steps, l);
      e.o.owner == m.owner && e.o.hold == m.takes - m.releases && Matches(e.o, m) && Answered(e, next, m)
    decreases |steps|
  {
    if steps == [] {
      StepMatches(s, next, l);
    } else {
      StepMatches(s, steps[0], l);
      StepSafe(s, steps[0]);
      HoldCount(Next(s, steps[0]), steps[1..], Entry(s, steps[0], l), next);
    }
  }

  lemma StepSafe(s: State, step: Step)
    requires MutexInv(s.k, s.o, s.ts) && Enabled(s, step)
    ensures var e := Next(s, step); MutexInv(e.k, e.o, e.ts)
  {
    match step
    case Take(time) => TakeKeeps(s.k, s.o, s.ts, time);
    case Release => ReleaseKeeps(s.k, s.o, s.ts);
    case Return => ReturnKeeps(s.k, s.o, s.ts);
    case Other(next) => MutexRely(s.k, next, s.o, s.ts);
  }

  /** An owner loses the mutex only by its own release that matches its first take; then the first waiter has it, or nobody. */
  lemma OwnerChange(s: State, step: Step, l: Ledger, t: int)
    requires MutexInv(s.k, s.o, s.ts) && Enabled(s, step) && Matches(s.o, l) && s.o.owner == Owner(t)
    ensures Next(s, step).o.owner != Owner(t) ==>
      && step.Release? && s.k.current == t && l.takes == l.releases + 1
      && Next(s, step).o.owner == if Waiting(s.k, s.o.w) == [] then Nobody else Owner(Waiting(s.k, s.o.w)[0])
    ensures step.Release? && s.k.current == t && l.takes == l.releases + 1 ==> Next(s, step).o.owner != Owner(t)
  {
    StepMatches(s, step, l);
    if Waiting(s.k, s.o.w) != [] {
      assert In(s.k, s.o.w, Waiting(s.k, s.o.w)[0]);
      assert TakerOk(s.k, s.o, Waiting(s.k, s.o.w)[0]);
    }
  }

  /** rt_mutex_release calls rt_schedule exactly if it hands the mutex on. */
  lemma WakesIff(s: State)
    requires MutexInv(s.k, s.o, s.ts)
    ensures Wakes(s.k, s.o) <==> Next(s, Release).o.owner.Owner? && Next(s, Release).o.owner != s.o.owner
  {
    if s.o.owner == Owner(s.k.current) && s.o.hold == 1 {
      BoostKeeps(s.k, s.o, s.ts, s.o.original);
      if Waiting(s.k, s.o.w) != [] {
        assert In(s.k, s.o.w, Waiting(s.k, s.o.w)[0]);
        assert TakerOk(s.k, s.o, Waiting(s.k, s.o.w)[0]);
      }
    }
  }

  /** Until its releases are as many as its takes, a thread that owns the mutex keeps it through every run. */
  lemma {:induction false} OwnerKeeps(s: State, steps: seq<Step>, l: Ledger, t: int)
    requires MutexInv(s.k, s.o, s.ts) && Run(s, steps) && Matches(s.o, l) && s.o.owner == Owner(t)
    requires OwnReleases(s, steps, t) < l.takes - l.releases
    ensures After(s, steps).o.owner == Owner(t)
    decreases |steps|
  {
    if steps != [] {
      OwnerChange(s, steps[0], l, t);
      StepMatches(s, steps[0], l);
      StepSafe(s, steps[0]);
      OwnerKeeps(Next(s, steps[0]), steps[1..], Entry(s, steps[0], l), t);
    }
  }

  /** How many of the steps are releases made by t. */
  function OwnReleases(s: State, steps: seq<Step>, t: int): nat
    decreases |steps|
  {
    if steps == [] then 0
    else (if steps[0].Release? && s.k.current == t then 1 else 0) + OwnReleases(Next(s, steps[0]), steps[1..], t)
  }
}
