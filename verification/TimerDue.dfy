/**
 The timers that rt_timer_check will fire: those at the front of the bottom row whose deadline the
 tick has reached.
 */
module TimerDue {
  import opened Store
  import opened Queues
  import opened TimerOrder
  import opened TimerRows

  /** The test of the expiry loop. */
  predicate Reached(tick: Mem, x: int, now: int) {
    Diff(now, Rd(tick, x)) < HALF
  }

  ghost function Due(tick: Mem, row: seq<int>, now: int): (due: seq<int>)
    ensures due <= row
  {
    if row == [] || !Reached(tick, row[0], now) then [] else [row[0]] + Due(tick, row[1..], now)
  }

  /** Deadlines and the tick lie in one window. */
  ghost predicate Near(tick: Mem, row: seq<int>, now: int, base: int) {
    InWindow(tick, row, base) && Diff(now, base) < HALF
  }

  /** In a window the test says that the deadline is not after the tick. */
  lemma ReachedKey(tick: Mem, x: int, now: int, base: int)
    requires Key(tick, x, base) < HALF && Diff(now, base) < HALF
    ensures Reached(tick, x, now) <==> Key(tick, x, base) <= Diff(now, base)
  {
    var a := Rd(tick, x);
    if Diff(now, base) >= Diff(a, base) {
      assert Diff(now, a) == Diff(now, base) - Diff(a, base);
    } else {
      assert Diff(now, a) == WRAP - (Diff(a, base) - Diff(now, base));
    }
  }

  lemma NearTail(tick: Mem, stamp: Mem, row: seq<int>, now: int, base: int)
    requires Ordered(tick, stamp, row) && Near(tick, row, now, base) && row != []
    ensures Ordered(tick, stamp, row[1..]) && Near(tick, row[1..], now, base)
  {
    TailOrdered(tick, stamp, row);
    TailWindow(tick, row, base);
  }

  /** The first timer is the first due: if it is not, none is. */
  lemma FirstIsFirst(tick: Mem, stamp: Mem, row: seq<int>, now: int, base: int, i: nat)
    requires Ordered(tick, stamp, row) && Near(tick, row, now, base) && i < |row| && !Reached(tick, row[0], now)
    ensures !Reached(tick, row[i], now)
  {
    if i > 0 {
      assert Before(tick, stamp, row[0], row[i]);
      KeyOrder(tick, stamp, row[0], row[i], base);
      ReachedKey(tick, row[0], now, base);
      ReachedKey(tick, row[i], now, base);
    }
  }

  /** Due lists every timer of the row whose deadline has been reached, and no other. */
  lemma {:induction false} DueExactly(tick: Mem, stamp: Mem, row: seq<int>, now: int, base: int, x: int)
    requires Ordered(tick, stamp, row) && Near(tick, row, now, base)
    ensures x in Due(tick, row, now) <==> x in row && Reached(tick, x, now)
  {
    if row != [] {
      if Reached(tick, row[0], now) {
        NearTail(tick, stamp, row, now, base);
        DueExactly(tick, stamp, row[1..], now, base, x);
        assert row == [row[0]] + row[1..];
      } else if x in row {
        var i :| 0 <= i < |row| && row[i] == x;
        FirstIsFirst(tick, stamp, row, now, base, i);
      }
    }
  }

  lemma {:induction false} DueRemoved(tick: Mem, stamp: Mem, row: seq<int>, now: int, base: int, t: int)
    requires Ordered(tick, stamp, row) && Near(tick, row, now, base)
    ensures Due(tick, Removed(row, t), now) == Removed(Due(tick, row, now), t)
  {
    if row != [] {
      NearTail(tick, stamp, row, now, base);
      if row[0] == t {
        if !Reached(tick, t, now) && |row| > 1 {
          FirstIsFirst(tick, stamp, row, now, base, 1);
        }
      } else {
        DueRemoved(tick, stamp, row[1..], now, base, t);
      }
    }
  }

  lemma {:induction false} DueInserted(tick: Mem, stamp: Mem, row: seq<int>, now: int, base: int, t: int)
    requires Near(tick, row, now, base) && Key(tick, t, base) < HALF && !Reached(tick, t, now)
    ensures Due(tick, Inserted(tick, row, t), now) == Due(tick, row, now)
  {
    if row != [] {
      KeyOrder(tick, stamp, row[0], t, base);
      ReachedKey(tick, t, now, base);
      ReachedKey(tick, row[0], now, base);
      if !Later(tick, row[0], t) {
        TailWindow(tick, row, base);
        DueInserted(tick, stamp, row[1..], now, base, t);
      }
    }
  }

  lemma {:induction false} DueFrame(tick: Mem, tick': Mem, row: seq<int>, now: int)
    requires forall i {:trigger row[i]} :: 0 <= i < |row| ==> Rd(tick', row[i]) == Rd(tick, row[i])
    ensures Due(tick', row, now) == Due(tick, row, now)
  {
    if row != [] {
      DueFrame(tick, tick', row[1..], now);
    }
  }

  /** Leaving t out loses nothing else. */
  lemma {:induction false} RemovedKeeps(a: seq<int>, t: int, x: int)
    requires x in a && x != t
    ensures x in Removed(a, t)
  {
    assert a == [a[0]] + a[1..];
    if a[0] != t && x != a[0] { RemovedKeeps(a[1..], t, x); }
  }

  // ----- starts and stops while timers are due

  lemma RemovedNear(tick: Mem, stamp: Mem, row: seq<int>, now: int, base: int, t: int)
    requires Ordered(tick, stamp, row) && Near(tick, row, now, base)
    ensures Ordered(tick, stamp, Removed(row, t)) && Near(tick, Removed(row, t), now, base)
  {
    RemovedOrdered(tick, stamp, row, t);
    var w := Removed(row, t);
    forall i | 0 <= i < |w| ensures Key(tick, w[i], base) < HALF {
      assert w[i] in w;
      var j :| 0 <= j < |row| && row[j] == w[i];
      assert Key(tick, row[j], base) < HALF;
    }
  }

  /** Starting t for a later tick takes it off the due timers, wherever it was. */
  lemma StartedDue(tick: Mem, stamp: Mem, row: seq<int>, now: int, base: int, t: int, d: int)
    requires Ordered(tick, stamp, row) && Near(tick, row, now, base)
    requires Diff(d, base) < HALF && !Reached(tick[t := d], t, now)
    ensures var tick', r := tick[t := d], Inserted(tick[t := d], Removed(row, t), t);
      && Near(tick', r, now, base)
      && Due(tick', r, now) == Removed(Due(tick, row, now), t) && t !in Due(tick', r, now)
  {
    var tick', w := tick[t := d], Removed(row, t);
    assert forall i :: 0 <= i < |Due(tick, w, now)| ==> Due(tick, w, now)[i] in w;
    RemovedNear(tick, stamp, row, now, base, t);
    RemovedOrdered(tick, stamp, row, t);
    forall i | 0 <= i < |w| ensures Rd(tick', w[i]) == Rd(tick, w[i]) && Key(tick', w[i], base) < HALF {
      assert w[i] in w && Key(tick, w[i], base) < HALF;
    }
    DueRemoved(tick, stamp, row, now, base, t);
    DueFrame(tick, tick', w, now);
    DueInserted(tick', stamp, w, now, base, t);
    InsertedMembers(tick', w, t);
    var r := Inserted(tick', w, t);
    forall i | 0 <= i < |r| ensures Key(tick', r[i], base) < HALF {
      assert r[i] in r;
      if r[i] != t {
        var j :| 0 <= j < |w| && w[j] == r[i];
        assert Key(tick, w[j], base) < HALF;
      }
    }
  }

  ghost predicate SameAt(tick: Mem, tick': Mem, x: int) {
    Rd(tick', x) == Rd(tick, x)
  }

  /** The timers of `due` have kept their deadlines. */
  ghost predicate SameDue(tick: Mem, tick': Mem, due: seq<int>) {
    forall i {:trigger SameAt(tick, tick', due[i])} :: 0 <= i < |due| ==> SameAt(tick, tick', due[i])
  }

  lemma SameDeadlines(tick: Mem, due: seq<int>, t: int, d: int)
    requires t !in due
    ensures SameDue(tick, tick[t := d], due)
  {
    forall i | 0 <= i < |due| ensures SameAt(tick, tick[t := d], due[i]) { assert due[i] in due; }
  }

  lemma SameDueTail(tick: Mem, tick': Mem, due: seq<int>)
    requires SameDue(tick, tick', due) && due != []
    ensures SameDue(tick, tick', due[1..])
  {
    forall i | 0 <= i < |due| - 1 ensures SameAt(tick, tick', due[1..][i]) {
      assert SameAt(tick, tick', due[i+1]);
    }
  }

  lemma SameDueTrans(tick: Mem, tick1: Mem, tick2: Mem, due1: seq<int>, due2: seq<int>)
    requires SameDue(tick, tick1, due1) && SameDue(tick1, tick2, due2) && Subsequence(due2, due1)
    ensures SameDue(tick, tick2, due2)
  {
    forall i | 0 <= i < |due2| ensures SameAt(tick, tick2, due2[i]) {
      SubsequenceMember(due2, due1, due2[i]);
      var j :| 0 <= j < |due1| && due1[j] == due2[i];
      assert SameAt(tick, tick1, due1[j]) && SameAt(tick1, tick2, due2[i]);
    }
  }

  // ----- what timeout functions may do to other timers

  datatype Action = Start(t: int) | Stop(t: int) | SetTime(t: int, time: int) | SetOneShot(t: int) | SetPeriodic(t: int)

  /** The due timers that an action leaves due. */
  ghost function Acted(due: seq<int>, a: Action): (r: seq<int>) {
    if a.Start? || a.Stop? then Removed(due, a.t) else due
  }

  ghost function ActedAll(due: seq<int>, script: seq<Action>): (r: seq<int>)
    decreases |script|
  {
    if script == [] then due else ActedAll(Acted(due, script[0]), script[1..])
  }

  lemma ActedSubsequence1(due: seq<int>, a: Action)
    ensures Subsequence(Acted(due, a), due)
  {
    SubsequenceRefl(due);
    RemovedSubsequence(due, a.t);
  }

  lemma {:induction false} ActedSubsequence(due: seq<int>, script: seq<Action>)
    ensures Subsequence(ActedAll(due, script), due)
    decreases |script|
  {
    SubsequenceRefl(due);
    if script != [] {
      RemovedSubsequence(due, script[0].t);
      ActedSubsequence(Acted(due, script[0]), script[1..]);
      SubsequenceTrans(ActedAll(due, script), Acted(due, script[0]), due);
    }
  }

  ghost function First(scripts: seq<seq<Action>>): seq<Action> {
    if scripts == [] then [] else scripts[0]
  }

  ghost function Rest(scripts: seq<seq<Action>>): seq<seq<Action>> {
    if scripts == [] then [] else scripts[1..]
  }

  /** The timers an expiry loop fires when `due` are due and its i-th timeout function does scripts[i]. */
  ghost function Fires(due: seq<int>, scripts: seq<seq<Action>>): (r: seq<int>)
    decreases |due|
  {
    if due == [] then [] else
      (ActedSubsequence(due[1..], First(scripts));
       SubsequenceDrop(ActedAll(due[1..], First(scripts)), due[1..]);
       [due[0]] + Fires(ActedAll(due[1..], First(scripts)), Rest(scripts)))
  }

  ghost function From(scripts: seq<seq<Action>>, k: nat): seq<seq<Action>> {
    if k <= |scripts| then scripts[k..] else []
  }

  ghost function ScriptOf(scripts: seq<seq<Action>>, k: nat): seq<Action> {
    if k < |scripts| then scripts[k] else []
  }

  ghost predicate FiredAt(tick: Mem, x: int, d: int) {
    Rd(tick, x) == d
  }

  /** Every timer fired at the deadline it had in `tick`. */
  ghost predicate OnTime(tick: Mem, fired: seq<int>, at: seq<int>) {
    |at| == |fired| && forall i {:trigger FiredAt(tick, fired[i], at[i])} :: 0 <= i < |at| ==> FiredAt(tick, fired[i], at[i])
  }

  /** In the middle of an expiry loop that fires `all`: `fired` have fired, `due` are due, with their first deadlines. */
  ghost predicate Progress(all: seq<int>, tick0: Mem, scripts: seq<seq<Action>>, tick: Mem, due: seq<int>, fired: seq<int>, at: seq<int>) {
    && all == fired + Fires(due, From(scripts, |fired|))
    && SameDue(tick0, tick, due) && OnTime(tick0, fired, at)
  }

  lemma ProgressStart(tick: Mem, due: seq<int>, scripts: seq<seq<Action>>)
    ensures Progress(Fires(due, scripts), tick, scripts, tick, due, [], [])
  {
    assert From(scripts, 0) == scripts;
    forall i | 0 <= i < |due| ensures SameAt(tick, tick, due[i]) {}
  }

  lemma ProgressNext(all: seq<int>, tick0: Mem, scripts: seq<seq<Action>>, tick: Mem, due: seq<int>, fired: seq<int>, at: seq<int>)
    requires Progress(all, tick0, scripts, tick, due, fired, at) && due != []
    ensures |fired| < |all| && all[|fired|] == due[0]
    ensures |ActedAll(due[1..], ScriptOf(scripts, |fired|))| < |due|
  {
    ActedSubsequence(due[1..], ScriptOf(scripts, |fired|));
    SubsequenceDrop(ActedAll(due[1..], ScriptOf(scripts, |fired|)), due[1..]);
  }

  lemma FireStep(all: seq<int>, fired: seq<int>, due: seq<int>, scripts: seq<seq<Action>>, script: seq<Action>)
    requires all == fired + Fires(due, From(scripts, |fired|)) && due != []
    requires script == ScriptOf(scripts, |fired|)
    ensures all == fired + [due[0]] + Fires(ActedAll(due[1..], script), From(scripts, |fired| + 1))
  {
    var rest := From(scripts, |fired|);
    assert First(rest) == script && Rest(rest) == From(scripts, |fired| + 1);
    var more := Fires(ActedAll(due[1..], First(rest)), Rest(rest));
    assert Fires(due, rest) == [due[0]] + more;
    assert fired + ([due[0]] + more) == fired + [due[0]] + more;
  }

  lemma DueStep(tick0: Mem, tick1: Mem, tick: Mem, due: seq<int>, script: seq<Action>)
    requires due != [] && SameDue(tick0, tick1, due) && SameDue(tick1, tick, ActedAll(due[1..], script))
    ensures FiredAt(tick0, due[0], Rd(tick1, due[0])) && SameDue(tick0, tick, ActedAll(due[1..], script))
  {
    assert SameAt(tick0, tick1, due[0]);
    SameDueTail(tick0, tick1, due);
    ActedSubsequence(due[1..], script);
    SameDueTrans(tick0, tick1, tick, due[1..], ActedAll(due[1..], script));
  }

  lemma OnTimeMore(tick: Mem, fired: seq<int>, at: seq<int>, x: int, d: int)
    requires OnTime(tick, fired, at) && FiredAt(tick, x, d)
    ensures OnTime(tick, fired + [x], at + [d])
  {
    var fired', at' := fired + [x], at + [d];
    forall i | 0 <= i < |at'| ensures FiredAt(tick, fired'[i], at'[i]) {
      assert i < |at| ==> FiredAt(tick, fired[i], at[i]);
    }
  }

  /** One turn of the loop. */
  lemma ProgressStep(all: seq<int>, tick0: Mem, scripts: seq<seq<Action>>, tick1: Mem, due1: seq<int>, tick: Mem, fired: seq<int>, at: seq<int>)
    requires Progress(all, tick0, scripts, tick1, due1, fired, at) && due1 != []
    requires SameDue(tick1, tick, ActedAll(due1[1..], ScriptOf(scripts, |fired|)))
    ensures Progress(all, tick0, scripts, tick, ActedAll(due1[1..], ScriptOf(scripts, |fired|)), fired + [due1[0]], at + [Rd(tick1, due1[0])])
  {
    var script := ScriptOf(scripts, |fired|);
    FireStep(all, fired, due1, scripts, script);
    DueStep(tick0, tick1, tick, due1, script);
    OnTimeMore(tick0, fired, at, due1[0], Rd(tick1, due1[0]));
  }

  /** Timers fire in the order of their deadlines, each at most once, and only due ones. */
  lemma {:induction false} FiresInOrder(due: seq<int>, scripts: seq<seq<Action>>)
    ensures Subsequence(Fires(due, scripts), due)
    decreases |due|
  {
    if due != [] {
      var rest := ActedAll(due[1..], First(scripts));
      ActedSubsequence(due[1..], First(scripts));
      SubsequenceDrop(rest, due[1..]);
      FiresInOrder(rest, Rest(scripts));
      SubsequenceTrans(Fires(rest, Rest(scripts)), rest, due[1..]);
    }
  }

  ghost predicate Touches(script: seq<Action>, t: int) {
    exists i {:trigger script[i]} :: 0 <= i < |script| && script[i].t == t && (script[i].Start? || script[i].Stop?)
  }

  lemma {:induction false} ActedKeeps(due: seq<int>, script: seq<Action>, t: int)
    requires t in due && !Touches(script, t)
    ensures t in ActedAll(due, script)
    decreases |script|
  {
    if script != [] {
      var a := script[0];
      if a.Start? || a.Stop? { RemovedKeeps(due, a.t, t); }
      assert forall i {:trigger script[1..][i]} :: 0 <= i < |script| - 1 ==> script[1..][i] == script[i+1];
      ActedKeeps(Acted(due, a), script[1..], t);
    }
  }

  /** A due timer that no timeout function starts or stops fires. */
  lemma {:induction false} FiresAll(due: seq<int>, scripts: seq<seq<Action>>, t: int)
    requires t in due && forall i {:trigger scripts[i]} :: 0 <= i < |scripts| ==> !Touches(scripts[i], t)
    ensures t in Fires(due, scripts)
    decreases |due|
  {
    if due[0] != t {
      assert due == [due[0]] + due[1..];
      ActedKeeps(due[1..], First(scripts), t);
      ActedSubsequence(due[1..], First(scripts));
      SubsequenceDrop(ActedAll(due[1..], First(scripts)), due[1..]);
      FiresAll(ActedAll(due[1..], First(scripts)), Rest(scripts), t);
    }
  }

  // ----- between ticks

  /** Every running timer is due later than now. */
  ghost predicate Ahead(tick: Mem, row: seq<int>, now: int) {
    forall i {:trigger Key(tick, row[i], now)} :: 0 <= i < |row| ==> 0 < Key(tick, row[i], now) < HALF
  }

  lemma NextTick(a: int, now: int)
    requires 0 < Diff(a, now)
    ensures Diff(a, (now + 1) % WRAP) == Diff(a, now) - 1
  {
    assert (now + 1) % WRAP == now + 1 - (now + 1) / WRAP * WRAP;
    assert Diff(a, (now + 1) % WRAP) == (a - now - 1 + (now + 1) / WRAP * WRAP) % WRAP;
    ModShift(a - now - 1, (now + 1) / WRAP);
    assert a - now == (a - now) / WRAP * WRAP + Diff(a, now);
    assert a - now - 1 == (a - now) / WRAP * WRAP + (Diff(a, now) - 1);
  }

  /** When the tick advances by one, no deadline is passed over. */
  lemma AheadTick(tick: Mem, row: seq<int>, now: int)
    requires Ahead(tick, row, now)
    ensures Near(tick, row, (now + 1) % WRAP, (now + 1) % WRAP)
  {
    var next := (now + 1) % WRAP;
    forall i | 0 <= i < |row| ensures Key(tick, row[i], next) < HALF {
      assert 0 < Key(tick, row[i], now);
      NextTick(Rd(tick, row[i]), now);
    }
  }

  /** With no deadline passed over, the due timers are those whose deadline is now. */
  lemma DueIsNow(tick: Mem, x: int, now: int)
    requires Key(tick, x, now) < HALF
    ensures Reached(tick, x, now) <==> Diff(Rd(tick, x), now) == 0
  {
    ReachedKey(tick, x, now, now);
  }

  lemma NoneDueAhead(tick: Mem, stamp: Mem, row: seq<int>, now: int)
    requires Ordered(tick, stamp, row) && Near(tick, row, now, now) && Due(tick, row, now) == []
    ensures Ahead(tick, row, now)
  {
    forall i | 0 <= i < |row| ensures 0 < Key(tick, row[i], now) < HALF {
      DueExactly(tick, stamp, row, now, now, row[i]);
      DueIsNow(tick, row[i], now);
      assert Key(tick, row[i], now) < HALF;
    }
  }

  /** With no deadline passed over, a timer fires at its deadline. */
  lemma FiredNow(tick: Mem, stamp: Mem, row: seq<int>, now: int, scripts: seq<seq<Action>>, at: seq<int>)
    requires Ordered(tick, stamp, row) && Near(tick, row, now, now)
    requires OnTime(tick, Fires(Due(tick, row, now), scripts), at)
    ensures forall i {:trigger at[i]} :: 0 <= i < |at| ==> Diff(at[i], now) == 0
  {
    var due := Due(tick, row, now);
    var fired := Fires(due, scripts);
    FiresInOrder(due, scripts);
    forall i | 0 <= i < |at| ensures Diff(at[i], now) == 0 {
      assert FiredAt(tick, fired[i], at[i]);
      SubsequenceMember(fired, due, fired[i]);
      DueExactly(tick, stamp, row, now, now, fired[i]);
      var j :| 0 <= j < |row| && row[j] == fired[i];
      assert Key(tick, row[j], now) < HALF;
      DueIsNow(tick, fired[i], now);
    }
  }
}
