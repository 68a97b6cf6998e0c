/**
 One timer followed through expiry loops: whether it is listed, its flag, its deadline, its time and
 its kind.  The timer list does to every timer what these functions say, and the lemmas say what
 that comes to: a periodic timer that expires runs again, a one-shot timer does not, and over the
 ticks a periodic timer of time p fires at every p-th tick and at no other.
 */
module TimerOne {
  import opened Store
  import opened Queues
  import opened TimerOrder
  import opened TimerRows
  import opened TimerDue

  datatype One = One(listed: bool, active: bool, deadline: int, time: int, periodic: bool)

  /** Timer x after one call that a timeout function made. */
  ghost function ActOn(o: One, x: int, a: Action, now: int): One {
    if a.t != x then o else
      match a
      case Start(_) => o.(listed := true, active := true, deadline := (now + o.time) % WRAP)
      case Stop(_) => o.(listed := false, active := false)
      case SetTime(_, time) => o.(time := time)
      case SetOneShot(_) => o.(periodic := false)
      case SetPeriodic(_) => o.(periodic := true)
  }

  ghost function ScriptOn(o: One, x: int, script: seq<Action>, now: int): One
    decreases |script|
  {
    if script == [] then o else ScriptOn(ActOn(o, x, script[0], now), x, script[1..], now)
  }

  /** The end of x's expiry, o being x when its timeout function has returned. */
  ghost function SettleOn(o: One, now: int): One {
    if o.periodic && o.active then o.(listed := true, deadline := (now + o.time) % WRAP) else o.(active := false)
  }

  /** Timer x after the expiry of t. */
  ghost function ExpireOn(o: One, x: int, t: int, script: seq<Action>, now: int): One {
    if x == t then SettleOn(ScriptOn(o.(listed := false), x, script, now), now) else ScriptOn(o, x, script, now)
  }

  /** Timer x after the expiries of `fired`, in order. */
  ghost function CheckOn(o: One, x: int, fired: seq<int>, scripts: seq<seq<Action>>, now: int): One
    decreases |fired|
  {
    if fired == [] then o
    else CheckOn(ExpireOn(o, x, fired[0], First(scripts), now), x, fired[1..], Rest(scripts), now)
  }

  lemma CheckOnNext(o: One, x: int, all: seq<int>, scripts: seq<seq<Action>>, k: nat, now: int)
    requires k < |all|
    ensures CheckOn(o, x, all[k..], From(scripts, k), now)
         == CheckOn(ExpireOn(o, x, all[k], ScriptOf(scripts, k), now), x, all[k+1..], From(scripts, k + 1), now)
  {
    assert all[k..][1..] == all[k+1..];
    assert Rest(From(scripts, k)) == From(scripts, k + 1);
  }

  // ----- what a script does to a timer

  ghost predicate Mentions(script: seq<Action>, x: int) {
    exists i {:trigger script[i]} :: 0 <= i < |script| && script[i].t == x
  }

  ghost predicate Starts(script: seq<Action>, x: int) {
    exists i {:trigger script[i]} :: 0 <= i < |script| && script[i] == Start(x)
  }

  ghost predicate Stops(script: seq<Action>, x: int) {
    exists i {:trigger script[i]} :: 0 <= i < |script| && script[i] == Stop(x)
  }

  /** The timeout functions from the k-th on do nothing to x. */
  ghost predicate LeftAlone(scripts: seq<seq<Action>>, k: nat, x: int) {
    forall j {:trigger scripts[j]} :: k <= j < |scripts| ==> !Mentions(scripts[j], x)
  }

  lemma TailScript(script: seq<Action>)
    requires script != []
    ensures forall i {:trigger script[1..][i]} :: 0 <= i < |script| - 1 ==> script[1..][i] == script[i+1]
    ensures forall x :: Mentions(script, x) <==> script[0].t == x || Mentions(script[1..], x)
    ensures forall x :: Starts(script, x) <==> script[0] == Start(x) || Starts(script[1..], x)
    ensures forall x :: Stops(script, x) <==> script[0] == Stop(x) || Stops(script[1..], x)
    ensures forall x :: Touches(script, x) <==> script[0] == Start(x) || script[0] == Stop(x) || Touches(script[1..], x)
  {
    assert script == [script[0]] + script[1..];
    forall i | 0 < i < |script| ensures script[i] == script[1..][i-1] {}
  }

  lemma {:induction false} ScriptLeaves(o: One, x: int, script: seq<Action>, now: int)
    requires !Mentions(script, x)
    ensures ScriptOn(o, x, script, now) == o
    decreases |script|
  {
    if script != [] {
      TailScript(script);
      ScriptLeaves(o, x, script[1..], now);
    }
  }

  /** A script that does not start x leaves x active exactly if x was and it does not stop it, and lists nothing. */
  lemma {:induction false} ScriptStops(o: One, x: int, script: seq<Action>, now: int)
    requires !Starts(script, x)
    ensures var p := ScriptOn(o, x, script, now);
      && (p.active <==> o.active && !Stops(script, x))
      && (p.listed <==> o.listed && !Stops(script, x))
      && p.deadline == o.deadline
    decreases |script|
  {
    if script != [] {
      TailScript(script);
      ScriptStops(ActOn(o, x, script[0], now), x, script[1..], now);
    }
  }

  lemma {:induction false} CheckLeaves(o: One, x: int, fired: seq<int>, scripts: seq<seq<Action>>, now: int)
    requires x !in fired && LeftAlone(scripts, 0, x)
    ensures CheckOn(o, x, fired, scripts, now) == o
    decreases |fired|
  {
    if fired != [] {
      assert fired == [fired[0]] + fired[1..];
      ScriptLeaves(o, x, First(scripts), now);
      CheckLeaves(o, x, fired[1..], Rest(scripts), now);
    }
  }

  /** A timer that no timeout function does anything to is changed by its own expiry and nothing else. */
  lemma {:induction false} CheckAlone(o: One, x: int, fired: seq<int>, scripts: seq<seq<Action>>, now: int)
    requires NoDup(fired) && LeftAlone(scripts, 0, x)
    ensures CheckOn(o, x, fired, scripts, now) == if x in fired then SettleOn(o.(listed := false), now) else o
    decreases |fired|
  {
    if x !in fired {
      CheckLeaves(o, x, fired, scripts, now);
    } else {
      TailNoDup(fired);
      assert fired == [fired[0]] + fired[1..];
      if fired[0] == x {
        ScriptLeaves(o.(listed := false), x, First(scripts), now);
        CheckLeaves(SettleOn(o.(listed := false), now), x, fired[1..], Rest(scripts), now);
      } else {
        ScriptLeaves(o, x, First(scripts), now);
        CheckAlone(o, x, fired[1..], Rest(scripts), now);
      }
    }
  }

  // ----- which scripts a timer that fires has been through

  lemma {:induction false} ActedDrops(due: seq<int>, script: seq<Action>, t: int)
    requires NoDup(due) && (t !in due || Touches(script, t))
    ensures t !in ActedAll(due, script)
    decreases |script|
  {
    if script != [] {
      TailScript(script);
      Queues.RemovedMembers(due, script[0].t);
      ActedDrops(Acted(due, script[0]), script[1..], t);
    }
  }

  lemma {:induction false} ActedNoDup(due: seq<int>, script: seq<Action>)
    requires NoDup(due)
    ensures NoDup(ActedAll(due, script))
    decreases |script|
  {
    if script != [] {
      Queues.RemovedMembers(due, script[0].t);
      ActedNoDup(Acted(due, script[0]), script[1..]);
    }
  }

  lemma FiresTail(due: seq<int>, scripts: seq<seq<Action>>)
    requires NoDup(due) && due != []
    ensures var rest := ActedAll(due[1..], First(scripts));
      && NoDup(rest) && due[0] !in rest && |rest| < |due|
      && Fires(due, scripts) == [due[0]] + Fires(rest, Rest(scripts)) && due[0] !in Fires(rest, Rest(scripts))
  {
    var rest := ActedAll(due[1..], First(scripts));
    TailNoDup(due);
    ActedNoDup(due[1..], First(scripts));
    ActedSubsequence(due[1..], First(scripts));
    SubsequenceDrop(rest, due[1..]);
    if due[0] in rest { SubsequenceMember(rest, due[1..], due[0]); }
    FiresInOrder(rest, Rest(scripts));
    if due[0] in Fires(rest, Rest(scripts)) { SubsequenceMember(Fires(rest, Rest(scripts)), rest, due[0]); }
  }

  lemma {:induction false} FiresNoDup(due: seq<int>, scripts: seq<seq<Action>>)
    requires NoDup(due)
    ensures NoDup(Fires(due, scripts))
    decreases |due|
  {
    if due != [] {
      var rest := ActedAll(due[1..], First(scripts));
      FiresTail(due, scripts);
      FiresNoDup(rest, Rest(scripts));
      var fired, more := Fires(due, scripts), Fires(rest, Rest(scripts));
      forall i, j | 0 <= i < j < |fired| ensures Differ(fired, i, j) {
        if i > 0 { assert Differ(more, i - 1, j - 1); } else { assert fired[j] == more[j-1] && more[j-1] in more; }
      }
    }
  }

  lemma DueNoDup(tick: Mem, stamp: Mem, row: seq<int>, now: int)
    requires Ordered(tick, stamp, row)
    ensures NoDup(Due(tick, row, now))
  {
    var due := Due(tick, row, now);
    forall i, j | 0 <= i < j < |due| ensures Differ(due, i, j) {
      assert due[i] == row[i] && due[j] == row[j];
      OrderedDistinct(tick, stamp, row, i, j);
    }
  }

  /** One tick, seen from a timer that no timeout function does anything to. */
  lemma AloneTick(o: One, x: int, tick: Mem, stamp: Mem, row: seq<int>, scripts: seq<seq<Action>>, now: int)
    requires Ordered(tick, stamp, row) && Near(tick, row, now, now) && LeftAlone(scripts, 0, x)
    requires (o.listed <==> x in row) && o.deadline == Rd(tick, x)
    ensures var fired := Fires(Due(tick, row, now), scripts);
      && (x in fired <==> FiresAt(o, now))
      && CheckOn(o, x, fired, scripts, now) == TickOn(o, now)
  {
    var due := Due(tick, row, now);
    var fired := Fires(due, scripts);
    DueNoDup(tick, stamp, row, now);
    FiresNoDup(due, scripts);
    CheckAlone(o, x, fired, scripts, now);
    DueExactly(tick, stamp, row, now, now, x);
    if x in row {
      var i :| 0 <= i < |row| && row[i] == x;
      assert Key(tick, row[i], now) < HALF;
      DueIsNow(tick, x, now);
    }
    if x in due {
      forall i | 0 <= i < |scripts| ensures !Touches(scripts[i], x) { NotTouched(scripts[i], x); assert !Mentions(scripts[i], x); }
      FiresAll(due, scripts, x);
    }
    if x in fired {
      FiresInOrder(due, scripts);
      SubsequenceMember(fired, due, x);
    }
  }

  /** What is left of a timer that fired: it runs again exactly if it is periodic and its timeout function did not stop it. */
  ghost predicate Settled(o: One, stopped: bool, now: int) {
    && (o.listed <==> o.periodic && !stopped)
    && (o.active <==> o.listed)
    && (o.listed ==> o.deadline == (now + o.time) % WRAP)
  }

  /** The expiry of the k-th timer to fire, which no later timeout function does anything to. */
  lemma {:induction false} FiredSettles(o: One, x: int, due: seq<int>, scripts: seq<seq<Action>>, k: nat, now: int)
    requires NoDup(due) && k < |Fires(due, scripts)| && x == Fires(due, scripts)[k] && o.active
    requires !Starts(ScriptOf(scripts, k), x) && LeftAlone(scripts, k + 1, x)
    ensures Settled(CheckOn(o, x, Fires(due, scripts), scripts, now), Stops(ScriptOf(scripts, k), x), now)
    decreases |due|
  {
    var fired, script := Fires(due, scripts), First(scripts);
    var rest := ActedAll(due[1..], script);
    FiresTail(due, scripts);
    assert fired[1..] == Fires(rest, Rest(scripts));
    if k == 0 {
      var p := ScriptOn(o.(listed := false), x, script, now);
      ScriptStops(o.(listed := false), x, script, now);
      CheckLeaves(SettleOn(p, now), x, fired[1..], Rest(scripts), now);
    } else {
      assert fired[1..][k-1] == x && x in fired[1..];
      FiresInOrder(rest, Rest(scripts));
      SubsequenceMember(fired[1..], rest, x);
      TailNoDup(due);
      if Touches(script, x) { ActedDrops(due[1..], script, x); }
      NotTouched(script, x);
      ScriptStops(o, x, script, now);
      assert ScriptOf(Rest(scripts), k - 1) == ScriptOf(scripts, k);
      FiredSettles(ScriptOn(o, x, script, now), x, rest, Rest(scripts), k - 1, now);
    }
  }

  lemma NotTouched(script: seq<Action>, x: int)
    ensures Touches(script, x) <==> Starts(script, x) || Stops(script, x)
  {
    if i :| 0 <= i < |script| && script[i] == Start(x) { assert Touches(script, x); }
    if i :| 0 <= i < |script| && script[i] == Stop(x) { assert Touches(script, x); }
  }

  // ----- runs of ticks

  /** A timer due at tick `now` fires at it. */
  ghost predicate FiresAt(o: One, now: int) {
    o.listed && Diff(o.deadline, now) == 0
  }

  /** A timer that nobody touches, after the tick `now`. */
  ghost function TickOn(o: One, now: int): One {
    if FiresAt(o, now) then SettleOn(o.(listed := false), now) else o
  }

  /** After n further ticks. */
  ghost function TicksOn(o: One, now: int, n: nat): One {
    if n == 0 then o else TickOn(TicksOn(o, now, n - 1), (now + n) % WRAP)
  }

  /** The n-th tick after `now` fires the timer. */
  ghost predicate FiresAtTick(o: One, now: int, n: nat)
    requires n > 0
  {
    FiresAt(TicksOn(o, now, n - 1), (now + n) % WRAP)
  }

  /** A timer that has just been started with time p. */
  ghost predicate JustStarted(o: One, now: int, p: int) {
    o.listed && o.active && o.time == p && o.deadline == (now + p) % WRAP
  }

  lemma DeadlineDistance(now: int, a: int, b: int)
    requires 0 <= a - b < WRAP
    ensures Diff((now + a) % WRAP, (now + b) % WRAP) == a - b
  {
    var x, y := now + a, now + b;
    assert x == x / WRAP * WRAP + x % WRAP && y == y / WRAP * WRAP + y % WRAP;
    var d := x % WRAP - y % WRAP;
    assert d == a - b + (y / WRAP - x / WRAP) * WRAP;
    ModShift(a - b, y / WRAP - x / WRAP);
  }

  /** After n ticks an untouched periodic timer is due in p - n % p ticks. */
  lemma {:induction false} PeriodicNext(o: One, now: int, p: int, n: nat)
    requires JustStarted(o, now, p) && o.periodic && 0 < p < WRAP
    ensures TicksOn(o, now, n) == o.(deadline := (now + n + p - n % p) % WRAP)
  {
    if n > 0 {
      PeriodicNext(o, now, p, n - 1);
      var left := p - (n - 1) % p;
      DeadlineDistance(now, n - 1 + left, n);
      NextMod(n - 1, p);
      if left == 1 {
        DiffMod(now + n, -p);
        assert Diff((now + n) % WRAP, -p) == ((now + n) % WRAP + p) % WRAP;
      }
    }
  }

  lemma NextMod(n: nat, p: int)
    requires p > 0
    ensures (n + 1) % p == if n % p == p - 1 then 0 else n % p + 1
  {
    var q, r := n / p, n % p;
    assert n + 1 == q * p + (r + 1);
    if r == p - 1 {
      assert n + 1 == (q + 1) * p;
      RestOf(q + 1, p, 0);
    } else {
      RestOf(q, p, r + 1);
    }
  }

  lemma PeriodicFires(o: One, now: int, p: int, n: nat)
    requires JustStarted(o, now, p) && o.periodic && 0 < p < WRAP && n > 0
    ensures FiresAtTick(o, now, n) <==> n % p == 0
  {
    PeriodicNext(o, now, p, n - 1);
    var left := p - (n - 1) % p;
    DeadlineDistance(now, n - 1 + left, n);
    NextMod(n - 1, p);
  }

  lemma {:induction false} OneShotFires(o: One, now: int, p: int, n: nat)
    requires JustStarted(o, now, p) && !o.periodic && 0 < p < WRAP && n > 0
    ensures FiresAtTick(o, now, n) <==> n == p
    ensures TicksOn(o, now, n) == if n < p then o else o.(listed := false, active := false)
  {
    if n > 1 { OneShotFires(o, now, p, n - 1); }
    if n <= p { DeadlineDistance(now, p, n); }
  }

  /** One step of a run of ticks: what Timers.TimerList.Tick promises about a timer left alone. */
  ghost predicate TickStep(before: One, fires: bool, after: One, now: int) {
    (fires <==> FiresAt(before, now)) && after == TickOn(before, now)
  }

  /** A run of ticks after `now`: seen[i] is the timer after i ticks, fires[i] whether the next tick fired it. */
  ghost predicate TickRun(seen: seq<One>, fires: seq<bool>, now: int) {
    && |seen| == |fires| + 1
    && forall i {:trigger fires[i]} :: 0 <= i < |fires| ==> TickStep(seen[i], fires[i], seen[i+1], (now + i + 1) % WRAP)
  }

  lemma {:induction false} RunTicks(seen: seq<One>, fires: seq<bool>, now: int, i: nat)
    requires TickRun(seen, fires, now) && i < |seen|
    ensures seen[i] == TicksOn(seen[0], now, i)
  {
    if i > 0 {
      RunTicks(seen, fires, now, i - 1);
      assert TickStep(seen[i-1], fires[i-1], seen[i], (now + i) % WRAP);
    }
  }

  /**
   A periodic timer started with time p, and left alone by every timeout function, fires at every p-th
   tick after its start and at no other.
   */
  lemma PeriodicRun(seen: seq<One>, fires: seq<bool>, now: int, p: int, i: nat)
    requires TickRun(seen, fires, now) && i < |fires|
    requires JustStarted(seen[0], now, p) && seen[0].periodic && 0 < p < WRAP
    ensures fires[i] <==> (i + 1) % p == 0
  {
    RunTicks(seen, fires, now, i);
    PeriodicFires(seen[0], now, p, i + 1);
  }

  /** A one-shot timer started with time p, and left alone, fires at the p-th tick after its start and never again. */
  lemma OneShotRun(seen: seq<One>, fires: seq<bool>, now: int, p: int, i: nat)
    requires TickRun(seen, fires, now) && i < |fires|
    requires JustStarted(seen[0], now, p) && !seen[0].periodic && 0 < p < WRAP
    ensures fires[i] <==> i + 1 == p
  {
    RunTicks(seen, fires, now, i);
    OneShotFires(seen[0], now, p, i + 1);
  }
}
