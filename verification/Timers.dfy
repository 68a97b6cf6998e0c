/**
 rt-thread/src/timer.c: the hard timers and their skip list, for any number of levels.

 Row 0 is the top row, row n - 1 lists every running timer.  `tick`, `init`, `active` and
 `periodic` are the timers' timeout_tick, init_tick and flags; the rows are linked through memory.
 The ghost rows say which timers each list holds; `stamp` numbers the starts.
 */
module Timers {
  import opened Store
  import opened RtService
  import opened Queues
  import opened TimerOrder
  import opened TimerRows
  import opened TimerRep
  import opened TimerDue
  import opened TimerOne

  class TimerList {
    const st: Memory
    const hd: int
    const n: nat
    var tick: Mem
    var init: Mem
    var active: set<int>
    var periodic: set<int>
    var now: int
    var random: int
    ghost var ts: set<int>
    ghost var rows: seq<seq<int>>
    ghost var stamp: Mem
    ghost var next: int

    ghost predicate Valid()
      reads this, st
    {
      && n > 0 && |rows| == n
      && Rows(st.m, hd, ts, rows)
      && Sorted(tick, stamp, rows, next)
      && 0 <= now < WRAP && 0 <= random < WRAP
    }

    /** The running timers. */
    ghost function Bottom(): seq<int>
      reads this
      requires |rows| == n > 0
    {
      rows[n - 1]
    }

    /** The flag RT_TIMER_FLAG_ACTIVATED tells which timers are running. */
    ghost predicate ActiveListed()
      reads this
      requires |rows| == n > 0
    {
      forall x {:trigger x in active} :: x in ts ==> (x in active <==> x in Bottom())
    }

    /** rt_system_timer_init. */
    constructor (st: Memory, hd: int, n: nat)
      requires n > 0
      modifies st
      ensures Valid() && ts == {} && Bottom() == [] && this.st == st
      ensures active == {} && now == 0
    {
      this.st, this.hd, this.n := st, hd, n;
      tick, init, stamp, next := map[], map[], map[], 0;
      active, periodic, ts := {}, {}, {};
      now, random := 0, 0;
      rows := seq(n, i => []);
      new;
      InitNodes(st, hd, n);
      EmptyRows(st.m, hd, rows);
    }

    /** rt_timer_init: t becomes a timer of the system, not running. */
    method Init(t: int, time: int, flagPeriodic: bool)
      requires Valid() && t !in ts && Space(hd, ts + {t}, n)
      modifies this`ts, this`tick, this`init, this`active, this`periodic, st
      ensures Valid() && ts == old(ts) + {t} && t !in Bottom()
      ensures tick == old(tick)[t := 0] && init == old(init)[t := time] && active == old(active) - {t}
      ensures periodic == if flagPeriodic then old(periodic) + {t} else old(periodic) - {t}
    {
      periodic := if flagPeriodic then periodic + {t} else periodic - {t};
      active := active - {t};
      ghost var m0, tick0 := st.m, tick;
      tick, init := tick[t := 0], init[t := time];
      InitNodes(st, t, n);
      RowsAdd(m0, st.m, hd, ts, rows, t);
      ts := ts + {t};
      NotYetListed(m0, hd, old(ts), rows, t);
      NewSorted(tick0, stamp, rows, next, t, 0);
    }

    /** _rt_timer_remove. */
    method RemoveAll(t: int)
      requires Valid() && t in ts
      modifies this`rows, st
      ensures Valid() && rows == RemovedRows(old(rows), t)
    {
      ghost var rows0 := rows;
      var l := 0;
      while l < n
        invariant 0 <= l <= n == |rows| == |rows0|
        invariant Rows(st.m, hd, ts, rows)
        invariant forall k {:trigger rows[k]} :: 0 <= k < n ==> rows[k] == if k < l then Removed(rows0[k], t) else rows0[k]
      {
        OnceInRow(rows0, l, t);
        RemoveNode(st, hd, l, t, ts, rows);
        rows := rows[l := Removed(rows[l], t)];
        l := l + 1;
      }
      assert rows == RemovedRows(rows0, t);
      RemovedSorted(tick, stamp, rows0, next, t);
    }

    lemma OnceInRow(rows0: seq<seq<int>>, l: nat, t: int)
      requires Sorted(tick, stamp, rows0, next) && l < |rows0|
      ensures Once(rows0[l], t)
    {
      assert RowSorted(tick, stamp, rows0[l], next);
      forall i, j | 0 <= i < j < |rows0[l]| ensures rows0[l][i] != t || rows0[l][j] != t {
        OrderedDistinct(tick, stamp, rows0[l], i, j);
      }
    }

    // ----- rt_timer_start

    /** The search loop in one row. */
    method SearchRow(l: nat, start: int, t: int, ghost k0: nat) returns (p: int, ghost k: nat)
      requires Valid() && l < n && Entry(tick, hd, rows[l], l, start, k0, t)
      ensures Place(tick, hd, rows[l], l, p, k, t)
    {
      ghost var row, r := rows[l], Ring(hd, l, rows[l]);
      assert RowOk(st.m, hd, ts, row, l);
      Neighbours(st.m, r, 0);
      p, k := start, k0;
      while p != Rd(st.m, Node(hd, l) + 4)
        invariant Entry(tick, hd, row, l, p, k, t)
        decreases |row| - k
      {
        Neighbours(st.m, r, k);
        var q := Rd(st.m, p);
        var x := q - ROW - 8 * l;
        var d := Diff(Rd(tick, x), Rd(tick, t));
        if d != 0 && d < HALF {
          break;
        }
        p, k := q, k + 1;
      }
      if k < |row| { RtService.NodesApart(r, k, |row|); }
    }

    /** The search through all rows: each row is entered where the search in the row above stopped. */
    method Search(t: int, ghost base: int) returns (heads: seq<int>, ghost ks: seq<nat>)
      requires Valid() && InWindow(tick, Bottom(), base) && Key(tick, t, base) < HALF
      ensures |heads| == |ks| == n
      ensures forall l {:trigger Place(tick, hd, rows[l], l, heads[l], ks[l], t)} :: 0 <= l < n ==> Place(tick, hd, rows[l], l, heads[l], ks[l], t)
    {
      heads, ks := [], [];
      var start := Node(hd, 0);
      ghost var k0: nat := 0;
      while |heads| < n
        invariant |heads| == |ks| <= n
        invariant forall l {:trigger Place(tick, hd, rows[l], l, heads[l], ks[l], t)} :: 0 <= l < |heads| ==> Place(tick, hd, rows[l], l, heads[l], ks[l], t)
        invariant |heads| < n ==> Entry(tick, hd, rows[|heads|], |heads|, start, k0, t)
        decreases n - |heads|
      {
        ghost var l := |heads|;
        var p, k := SearchRow(|heads|, start, t, k0);
        ghost var heads0, ks0 := heads, ks;
        heads, ks := heads + [p], ks + [k];
        forall j | 0 <= j < |heads| ensures Place(tick, hd, rows[j], j, heads[j], ks[j], t) {
          if j < l { assert Place(tick, hd, rows[j], j, heads0[j], ks0[j], t); }
        }
        start := p + 8;
        if l + 1 < n {
          k0 := Below(l, p, k, t, base);
        }
      }
    }

    lemma Below(l: nat, p: int, k: nat, t: int, base: int) returns (k0: nat)
      requires Valid() && l + 1 < n && Place(tick, hd, rows[l], l, p, k, t)
      requires InWindow(tick, Bottom(), base) && Key(tick, t, base) < HALF
      ensures Entry(tick, hd, rows[l+1], l + 1, p + 8, k0, t)
    {
      var row, below := rows[l], rows[l+1];
      if k == 0 {
        k0 := 0;
      } else {
        assert Above(rows, l);
        assert row[k-1] in below;
        var i :| 0 <= i < |below| && below[i] == row[k-1];
        AllInBottom(rows, l + 1);
        WithinWindow(tick, below, Bottom(), base);
        assert RowSorted(tick, stamp, below, next);
        Descend(tick, stamp, below, next, t, i, base);
        k0 := i + 1;
      }
    }

    /** t's node put into row l at its place. */
    method InsertRow(t: int, l: nat, p: int, ghost k: nat)
      requires Rows(st.m, hd, ts, rows) && l < |rows| && t in ts && t !in rows[l] && Place(tick, hd, rows[l], l, p, k, t)
      modifies this`rows, st
      ensures Rows(st.m, hd, ts, rows) && rows == old(rows)[l := Inserted(tick, old(rows)[l], t)]
    {
      InsertNode(st, hd, l, t, p, ts, rows, k);
      InsertedAt(tick, rows[l], t, k);
      rows := rows[l := Inserted(tick, rows[l], t)];
    }

    /** The first insertion. */
    method InsertBottom(t: int, p: int, ghost k: nat)
      requires n > 0 && |rows| == n && Rows(st.m, hd, ts, rows) && t in ts && t !in rows[n-1] && Place(tick, hd, rows[n-1], n - 1, p, k, t)
      modifies this`rows, st
      ensures Rows(st.m, hd, ts, rows) && rows == InsertedRows(tick, old(rows), t, 1)
    {
      ghost var rs := rows;
      InsertRow(t, n - 1, p, k);
      InsertedRowsNext(tick, rs, t, 0);
      assert InsertedRows(tick, rs, t, 0) == rs;
    }

    /** The insertions: into the bottom row, then upwards while the low bits of the start counter are zero. */
    method InsertAll(t: int, heads: seq<int>, ghost ks: seq<nat>)
      requires n > 0 && |rows| == n && Rows(st.m, hd, ts, rows) && t in ts && random >= 0
      requires |heads| == |ks| == n
      requires forall l {:trigger Place(tick, hd, rows[l], l, heads[l], ks[l], t)} :: 0 <= l < n ==> Place(tick, hd, rows[l], l, heads[l], ks[l], t)
      requires forall l {:trigger rows[l]} :: 0 <= l < n ==> t !in rows[l]
      modifies this`rows, st
      ensures Rows(st.m, hd, ts, rows) && rows == InsertedRows(tick, old(rows), t, Height(random, n))
    {
      ghost var rs := rows;
      var tst := random;
      assert Place(tick, hd, rs[n-1], n - 1, heads[n-1], ks[n-1], t);
      InsertBottom(t, heads[n-1], ks[n-1]);
      var h := 1;
      while h < n && tst % 4 == 0
        invariant 1 <= h <= n && tst >= 0
        invariant Height(random, n) == h - 1 + Height(tst, n - h + 1)
        invariant Rows(st.m, hd, ts, rows) && rows == InsertedRows(tick, rs, t, h)
      {
        var l := n - 1 - h;
        assert Place(tick, hd, rs[l], l, heads[l], ks[l], t) && rows[l] == rs[l];
        assert Height(tst, n - h + 1) == 1 + Height(tst / 4, n - h);
        InsertRow(t, l, heads[l], ks[l]);
        InsertedRowsNext(tick, rs, t, h);
        tst := tst / 4;
        h := h + 1;
      }
    }

    /** The part of rt_timer_start that puts t, unlisted and with its new deadline, into the rows. */
    method Enter(t: int, ghost rows0: seq<seq<int>>, ghost base: int)
      requires rows == RemovedRows(rows0, t)
      requires Valid() && t in ts && InWindow(tick, Bottom(), base) && Key(tick, t, base) < HALF
      requires forall l {:trigger rows[l]} :: 0 <= l < n ==> t !in rows[l]
      modifies this`rows, this`random, st
      ensures Rows(st.m, hd, ts, rows) && random == (old(random) + 1) % WRAP
      ensures rows == StartedRows(tick, rows0, t, Height(random, n))
    {
      var heads, ks := Search(t, base);
      random := (random + 1) % WRAP;
      InsertAll(t, heads, ks);
    }

    /** The first part of rt_timer_start: t unlisted, its deadline set. */
    method Unlist(t: int, ghost base: int)
      requires Valid() && t in ts && InWindow(tick, Removed(Bottom(), t), base)
      modifies this`tick, this`rows, this`active, st
      ensures Valid() && rows == RemovedRows(old(rows), t) && tick == old(tick)[t := Deadline(now, init, t)]
      ensures active == old(active) - {t} && InWindow(tick, Bottom(), base)
      ensures forall l {:trigger rows[l]} :: 0 <= l < n ==> t !in rows[l]
    {
      StartKeeps(tick, stamp, rows, next, t, Deadline(now, init, t), base);
      RemoveAll(t);
      active := active - {t};
      tick := tick[t := Deadline(now, init, t)];
    }

    /** rt_timer_start. */
    method Start(t: int, ghost base: int)
      requires Valid() && t in ts && 0 <= Rd(init, t) < HALF
      requires InWindow(tick, Removed(Bottom(), t), base) && Diff(Deadline(now, init, t), base) < HALF
      modifies this`tick, this`rows, this`stamp, this`next, this`random, this`active, st
      ensures Valid()
      ensures tick == old(tick)[t := Deadline(now, init, t)] && stamp == old(stamp)[t := old(next)]
      ensures random == (old(random) + 1) % WRAP && active == old(active) + {t}
      ensures rows == StartedRows(tick, old(rows), t, Height(random, n)) && next == old(next) + 1
    {
      ghost var rows1 := AfterStart(t, base);
      Relist(t, base);
      active := active + {t};
      stamp, next := stamp[t := next], next + 1;
      assert rows == rows1;
    }

    /** rt_timer_start up to the point where t is in the rows. */
    method Relist(t: int, ghost base: int)
      requires Valid() && t in ts && 0 <= Rd(init, t) < HALF
      requires InWindow(tick, Removed(Bottom(), t), base) && Diff(Deadline(now, init, t), base) < HALF
      modifies this`tick, this`rows, this`random, this`active, st
      ensures Rows(st.m, hd, ts, rows) && tick == old(tick)[t := Deadline(now, init, t)] && active == old(active) - {t}
      ensures random == (old(random) + 1) % WRAP && rows == StartedRows(tick, old(rows), t, Height(random, n))
    {
      ghost var rows0 := rows;
      Unlist(t, base);
      Enter(t, rows0, base);
    }

    /** The rows that a start of t leads to. */
    lemma AfterStart(t: int, base: int) returns (rows1: seq<seq<int>>)
      requires Valid() && InWindow(tick, Removed(Bottom(), t), base) && Diff(Deadline(now, init, t), base) < HALF
      ensures rows1 == StartedRows(tick[t := Deadline(now, init, t)], rows, t, Height((random + 1) % WRAP, n))
      ensures Sorted(tick[t := Deadline(now, init, t)], stamp[t := next], rows1, next + 1)
    {
      var h := Height((random + 1) % WRAP, n);
      rows1 := StartedRows(tick[t := Deadline(now, init, t)], rows, t, h);
      StartedSorted(tick, stamp, rows, next, t, Deadline(now, init, t), h, base);
    }

    /** rt_timer_stop; false is -RT_ERROR. */
    method Stop(t: int) returns (ok: bool)
      requires Valid() && t in ts
      modifies this`rows, this`active, st
      ensures Valid() && (ok <==> t in old(active))
      ensures ok ==> rows == RemovedRows(old(rows), t) && active == old(active) - {t}
      ensures !ok ==> rows == old(rows) && active == old(active) && st.m == old(st.m)
    {
      if t !in active {
        return false;
      }
      RemoveAll(t);
      active := active - {t};
      return true;
    }

    // ----- the expiry loop

    /** Deadlines and the tick lie less than RT_TICK_MAX/2 apart, and so will those of the timers in rs when started. */
    ghost predicate Window(base: int, rs: set<int>)
      reads this
      requires |rows| == n > 0
    {
      && Near(tick, Bottom(), now, base)
      && rs <= ts && periodic * ts <= rs
      && forall x {:trigger Fit(init, x, Diff(now, base))} :: x in rs ==> Fit(init, x, Diff(now, base))
    }

    static ghost predicate Fit(init: Mem, x: int, lag: int) {
      1 <= Rd(init, x) && lag + Rd(init, x) < HALF
    }

    /** While `own`'s timeout function runs: own is unlisted, and every other timer is active iff listed. */
    ghost predicate Expiring(own: int)
      reads this
      requires |rows| == n > 0
    {
      own in ts && own !in Bottom()
      && forall x {:trigger x in active} :: x in ts && x != own ==> (x in active <==> x in Bottom())
    }

    /** What a timeout function may do: start other timers with times of one tick and more. */
    ghost predicate Allowed(a: Action, own: int, lag: int, rs: set<int>)
      reads this`ts
    {
      && a.t in ts
      && (a.Start? ==> a.t in rs && a.t != own)
      && (a.SetPeriodic? ==> a.t in rs)
      && (a.SetTime? && a.t in rs ==> 1 <= a.time && lag + a.time < HALF)
    }

    ghost function DueNow(): seq<int>
      reads this
      requires |rows| == n > 0
    {
      Due(tick, Bottom(), now)
    }

    /** A timer that may be started from within the expiry loop gets a deadline that is not yet due. */
    lemma StartLater(t: int, base: int, rs: set<int>)
      requires Valid() && Window(base, rs) && t in rs
      ensures Diff(Deadline(now, init, t), base) < HALF && 0 <= Rd(init, t) < HALF
      ensures InWindow(tick, Removed(Bottom(), t), base)
      ensures var tick', r := tick[t := Deadline(now, init, t)], Inserted(tick[t := Deadline(now, init, t)], Removed(Bottom(), t), t);
        Near(tick', r, now, base) && Due(tick', r, now) == Removed(DueNow(), t) && t !in Due(tick', r, now)
    {
      var d := Deadline(now, init, t);
      assert Fit(init, t, Diff(now, base));
      DiffMod(now + Rd(init, t), base);
      ReachedKey(tick[t := d], t, now, base);
      assert RowSorted(tick, stamp, rows[n-1], next);
      RemovedNear(tick, stamp, Bottom(), now, base, t);
      StartedDue(tick, stamp, Bottom(), now, base, t, d);
    }

    /** Timer x as it is now. */
    ghost function Seen(x: int): One
      reads this
      requires |rows| == n > 0
    {
      One(x in Bottom(), x in active, Rd(tick, x), Rd(init, x), x in periodic)
    }

    /** A start from within the expiry loop. */
    method Restart(t: int, ghost base: int, ghost rs: set<int>)
      requires Valid() && Window(base, rs) && t in rs
      modifies this`tick, this`rows, this`stamp, this`next, this`random, this`active, st
      ensures Valid() && Window(base, rs)
      ensures DueNow() == Removed(old(DueNow()), t) && active == old(active) + {t}
      ensures tick == old(tick)[t := Deadline(now, init, t)] && t !in DueNow()
      ensures Bottom() == Inserted(tick, Removed(old(Bottom()), t), t)
      ensures forall x {:trigger Seen(x)} :: Seen(x) == ActOn(old(Seen(x)), x, Action.Start(t), now)
    {
      ghost var row := Bottom();
      StartLater(t, base, rs);
      assert Ordered(tick, stamp, row) by { assert RowSorted(tick, stamp, rows[n-1], next); }
      StartedMembers(tick, stamp, row, t, tick[t := Deadline(now, init, t)]);
      Start(t, base);
      assert Bottom() == Inserted(tick, Removed(row, t), t);
    }

    /** A stop from within the expiry loop. */
    method Cancel(t: int, ghost base: int, ghost rs: set<int>)
      requires Valid() && Window(base, rs) && t in ts && (t !in active ==> t !in Bottom())
      modifies this`rows, this`active, st
      ensures Valid() && Window(base, rs)
      ensures DueNow() == Removed(old(DueNow()), t) && active == old(active) - {t}
      ensures Bottom() == Removed(old(Bottom()), t)
      ensures forall x :: x in Bottom() <==> x in old(Bottom()) && x != t
      ensures forall x {:trigger Seen(x)} :: Seen(x) == ActOn(old(Seen(x)), x, Action.Stop(t), now)
    {
      ghost var row := Bottom();
      assert RowSorted(tick, stamp, rows[n-1], next);
      RemovedNear(tick, stamp, row, now, base, t);
      RemovedOrdered(tick, stamp, row, t);
      DueRemoved(tick, stamp, row, now, base, t);
      var ok := Stop(t);
      if !ok { RemovedAbsent(row, t); }
    }

    /** One call that a timeout function makes. */
    method Act(a: Action, own: int, ghost base: int, ghost rs: set<int>)
      requires Valid() && Window(base, rs) && Expiring(own) && Allowed(a, own, Diff(now, base), rs)
      modifies this`tick, this`init, this`rows, this`stamp, this`next, this`random, this`active, this`periodic, st
      ensures Valid() && Window(base, rs) && Expiring(own)
      ensures DueNow() == Acted(old(DueNow()), a)
      ensures SameDue(old(tick), tick, DueNow())
      ensures forall x {:trigger Seen(x)} :: Seen(x) == ActOn(old(Seen(x)), x, a, now)
      ensures a.Start? ==> Bottom() == Inserted(tick, Removed(old(Bottom()), a.t), a.t) && tick == old(tick)[a.t := Deadline(now, init, a.t)]
      ensures a.Stop? ==> Bottom() == Removed(old(Bottom()), a.t)
      ensures !a.Start? && !a.Stop? ==> rows == old(rows) && active == old(active)
      ensures !a.Start? ==> tick == old(tick)
      ensures init == if a.SetTime? then old(init)[a.t := a.time] else old(init)
      ensures periodic == if a.SetOneShot? then old(periodic) - {a.t} else if a.SetPeriodic? then old(periodic) + {a.t} else old(periodic)
    {
      match a
      case Start(t) =>
        assert RowSorted(tick, stamp, rows[n-1], next);
        StartedMembers(tick, stamp, Bottom(), t, tick[t := Deadline(now, init, t)]);
        Restart(t, base, rs);
        SameDeadlines(old(tick), DueNow(), t, Rd(tick, t));
      case Stop(t) =>
        Cancel(t, base, rs);
      case SetTime(t, time) =>
        forall x | x in rs ensures Fit(init[t := time], x, Diff(now, base)) {
          assert Fit(init, x, Diff(now, base));
        }
        init := init[t := time];
      case SetOneShot(t) =>
        periodic := periodic - {t};
      case SetPeriodic(t) =>
        periodic := periodic + {t};
    }

    /** A timeout function: the calls it makes, one after the other. */
    method Callback(script: seq<Action>, own: int, ghost base: int, ghost rs: set<int>)
      requires Valid() && Window(base, rs) && Expiring(own) && AllAllowed(script, own, Diff(now, base), rs)
      modifies this`tick, this`init, this`rows, this`stamp, this`next, this`random, this`active, this`periodic, st
      ensures Valid() && Window(base, rs) && Expiring(own)
      ensures DueNow() == ActedAll(old(DueNow()), script) && SameDue(old(tick), tick, DueNow())
      ensures forall x {:trigger Seen(x)} :: Seen(x) == ScriptOn(old(Seen(x)), x, script, now)
    {
      var i := 0;
      ghost var due0, tick0 := DueNow(), tick;
      while i < |script|
        invariant i <= |script| && Valid() && Window(base, rs) && Expiring(own)
        invariant ActedAll(DueNow(), script[i..]) == ActedAll(due0, script)
        invariant SameDue(tick0, tick, DueNow())
        invariant forall x {:trigger Seen(x)} :: ScriptOn(Seen(x), x, script[i..], now) == ScriptOn(old(Seen(x)), x, script, now)
      {
        ghost var due1, tick1 := DueNow(), tick;
        assert Allowed(script[i], own, Diff(now, base), rs) by { assert AllAllowed(script, own, Diff(now, base), rs); }
        assert script[i..][0] == script[i] && script[i..][1..] == script[i+1..];
        Act(script[i], own, base, rs);
        ActedSubsequence1(due1, script[i]);
        SameDueTrans(tick0, tick1, tick, due1, DueNow());
        i := i + 1;
      }
    }

    ghost predicate AllAllowed(script: seq<Action>, own: int, lag: int, rs: set<int>)
      reads this`ts
    {
      forall i {:trigger script[i]} :: 0 <= i < |script| ==> Allowed(script[i], own, lag, rs)
    }

    /** t is the running timer with the earliest deadline, and that has been reached. */
    ghost predicate FirstDue(t: int)
      reads this
      requires |rows| == n > 0
    {
      Bottom() != [] && t == Bottom()[0] && t in ts && Reached(tick, t, now)
    }

    /** The first running timer taken out of every row; its flag stays set while its timeout function runs. */
    method TakeFirst(t: int, ghost base: int, ghost rs: set<int>)
      requires Valid() && Window(base, rs) && ActiveListed() && FirstDue(t)
      modifies this`rows, st
      ensures Valid() && Window(base, rs) && Expiring(t) && DueNow() == old(DueNow())[1..]
      ensures forall x {:trigger Seen(x)} :: Seen(x) == if x == t then old(Seen(x)).(listed := false) else old(Seen(x))
    {
      ghost var row := Bottom();
      assert Ordered(tick, stamp, row) by { assert RowSorted(tick, stamp, rows[n-1], next); }
      RemovedNear(tick, stamp, row, now, base, t);
      RemovedOrdered(tick, stamp, row, t);
      RemoveAll(t);
    }

    /** The test of the expiry loop. */
    method Peek() returns (due: bool, t: int)
      requires Valid()
      ensures due <==> DueNow() != []
      ensures due ==> FirstDue(t)
    {
      assert RowOk(st.m, hd, ts, rows[n-1], n - 1);
      var empty := IsEmpty(st, Node(hd, n - 1), Ring(hd, n - 1, Bottom()));
      if empty {
        return false, 0;
      }
      Neighbours(st.m, Ring(hd, n - 1, Bottom()), 0);
      t := Rd(st.m, Node(hd, n - 1)) - ROW - 8 * (n - 1);
      due := Diff(now, Rd(tick, t)) < HALF;
    }

    /** One turn of the expiry loop. */
    method Expire(t: int, script: seq<Action>, ghost base: int, ghost rs: set<int>)
      requires Valid() && Window(base, rs) && ActiveListed() && FirstDue(t)
      requires AllAllowed(script, t, Diff(now, base), rs)
      modifies this`tick, this`init, this`rows, this`stamp, this`next, this`random, this`active, this`periodic, st
      ensures Valid() && Window(base, rs) && ActiveListed()
      ensures DueNow() == ActedAll(old(DueNow())[1..], script) && SameDue(old(tick), tick, DueNow())
      ensures forall x {:trigger Seen(x)} :: Seen(x) == ExpireOn(old(Seen(x)), x, t, script, now)
    {
      TakeFirst(t, base, rs);
      ghost var tick1 := tick;
      Callback(script, t, base, rs);
      ghost var tick2 := tick;
      Settle(t, base, rs);
      SubsequenceRefl(DueNow());
      SameDueTrans(tick1, tick2, tick, DueNow(), DueNow());
    }

    /** The end of the turn: the timer that has just expired starts again if it is periodic and still active. */
    method Settle(t: int, ghost base: int, ghost rs: set<int>)
      requires Valid() && Window(base, rs) && Expiring(t)
      modifies this`tick, this`rows, this`stamp, this`next, this`random, this`active, st
      ensures Valid() && Window(base, rs) && ActiveListed()
      ensures DueNow() == old(DueNow()) && SameDue(old(tick), tick, DueNow())
      ensures forall x {:trigger Seen(x)} :: Seen(x) == if x == t then SettleOn(old(Seen(x)), now) else old(Seen(x))
    {
      if t in periodic && t in active {
        active := active - {t};
        Rerun(t, base, rs);
      } else {
        active := active - {t};
        assert forall i :: 0 <= i < |DueNow()| ==> SameAt(tick, tick, DueNow()[i]);
      }
    }

    /** The start of the periodic timer that has just expired. */
    method Rerun(t: int, ghost base: int, ghost rs: set<int>)
      requires Valid() && Window(base, rs) && Expiring(t) && t in rs
      modifies this`tick, this`rows, this`stamp, this`next, this`random, this`active, st
      ensures Valid() && Window(base, rs) && ActiveListed()
      ensures DueNow() == old(DueNow()) && SameDue(old(tick), tick, DueNow())
      ensures forall x {:trigger Seen(x)} :: Seen(x) == ActOn(old(Seen(x)), x, Action.Start(t), now)
    {
      ghost var due := DueNow();
      assert t !in due by {
        assert forall i :: 0 <= i < |due| ==> due[i] == Bottom()[i];
      }
      RemovedAbsent(due, t);
      SameDeadlines(tick, due, t, Deadline(now, init, t));
      assert Ordered(tick, stamp, Bottom()) by { assert RowSorted(tick, stamp, rows[n-1], next); }
      StartedMembers(tick, stamp, Bottom(), t, tick[t := Deadline(now, init, t)]);
      Restart(t, base, rs);
    }

    /** The i-th timeout function makes calls it may make. */
    ghost predicate ScriptsAllowed(scripts: seq<seq<Action>>, fired: seq<int>, lag: int, rs: set<int>)
      reads this`ts
    {
      forall i {:trigger AllAllowed(scripts[i], fired[i], lag, rs)} ::
        0 <= i < |scripts| && i < |fired| ==> AllAllowed(scripts[i], fired[i], lag, rs)
    }

    /** One turn of the loop, within the whole loop's history. */
    method Turn(t: int, script: seq<Action>, ghost all: seq<int>, ghost tick0: Mem, ghost scripts: seq<seq<Action>>, ghost fired: seq<int>, ghost at: seq<int>,
                ghost base: int, ghost rs: set<int>)
      requires Valid() && Window(base, rs) && ActiveListed() && FirstDue(t)
      requires Progress(all, tick0, scripts, tick, DueNow(), fired, at) && script == ScriptOf(scripts, |fired|)
      requires ScriptsAllowed(scripts, all, Diff(now, base), rs)
      modifies this`tick, this`init, this`rows, this`stamp, this`next, this`random, this`active, this`periodic, st
      ensures Valid() && Window(base, rs) && ActiveListed() && |DueNow()| < |old(DueNow())|
      ensures Progress(all, tick0, scripts, tick, DueNow(), fired + [t], at + [Rd(old(tick), t)]) && |fired| < |all|
      ensures forall x {:trigger Seen(x)} :: CheckOn(Seen(x), x, all[|fired|+1..], From(scripts, |fired| + 1), now)
                                          == CheckOn(old(Seen(x)), x, all[|fired|..], From(scripts, |fired|), now)
    {
      ghost var k, due1, tick1 := |fired|, DueNow(), tick;
      ProgressNext(all, tick0, scripts, tick1, due1, fired, at);
      MayCall(scripts, all, k, Diff(now, base), rs);
      forall x ensures CheckOn(Seen(x), x, all[k..], From(scripts, k), now)
                    == CheckOn(ExpireOn(Seen(x), x, t, script, now), x, all[k+1..], From(scripts, k + 1), now) {
        CheckOnNext(Seen(x), x, all, scripts, k, now);
      }
      Expire(t, script, base, rs);
      ProgressStep(all, tick0, scripts, tick1, due1, tick, fired, at);
    }

    /** The loop of rt_timer_check. */
    method FireDue(scripts: seq<seq<Action>>, ghost base: int, ghost rs: set<int>) returns (fired: seq<int>, at: seq<int>)
      requires Valid() && Window(base, rs) && ActiveListed()
      requires ScriptsAllowed(scripts, Fires(DueNow(), scripts), Diff(now, base), rs)
      modifies this`tick, this`init, this`rows, this`stamp, this`next, this`random, this`active, this`periodic, st
      ensures Valid() && Window(base, rs) && ActiveListed()
      ensures fired == Fires(old(DueNow()), scripts) && DueNow() == []
      ensures OnTime(old(tick), fired, at)
      ensures forall x {:trigger Seen(x)} :: Seen(x) == CheckOn(old(Seen(x)), x, fired, scripts, now)
    {
      fired, at := [], [];
      ghost var all, tick0 := Fires(DueNow(), scripts), tick;
      assert all[0..] == all && From(scripts, 0) == scripts;
      ProgressStart(tick, DueNow(), scripts);
      var due, t := Peek();
      while due
        invariant Valid() && Window(base, rs) && ActiveListed()
        invariant due == (DueNow() != []) && (due ==> FirstDue(t))
        invariant Progress(all, tick0, scripts, tick, DueNow(), fired, at)
        invariant forall x {:trigger Seen(x)} ::
          CheckOn(Seen(x), x, all[|fired|..], From(scripts, |fired|), now) == CheckOn(old(Seen(x)), x, all, scripts, now)
        decreases |DueNow()|
      {
        var script := if |fired| < |scripts| then scripts[|fired|] else [];
        var deadline := Rd(tick, t);
        Turn(t, script, all, tick0, scripts, fired, at, base, rs);
        fired, at := fired + [t], at + [deadline];
        due, t := Peek();
      }
      assert fired == all;
      assert all[|fired|..] == [];
    }

    /**
     rt_timer_check: `fired` are the timers whose timeout functions were called, in order, and
     `at[i]` is the deadline fired[i] had then; the i-th call does scripts[i].
     */
    method Check(scripts: seq<seq<Action>>, ghost base: int, ghost rs: set<int>) returns (fired: seq<int>, at: seq<int>)
      requires Valid() && Window(base, rs) && ActiveListed()
      requires ScriptsAllowed(scripts, Fires(DueNow(), scripts), Diff(now, base), rs)
      modifies this`tick, this`init, this`rows, this`stamp, this`next, this`random, this`active, this`periodic, st
      ensures Valid() && Window(base, rs) && ActiveListed()
      ensures fired == Fires(old(DueNow()), scripts) && DueNow() == []
      ensures OnTime(old(tick), fired, at)
      ensures forall x {:trigger Seen(x)} :: Seen(x) == CheckOn(old(Seen(x)), x, fired, scripts, now)
      ensures forall k {:trigger fired[k]} :: 0 <= k < |fired| && LeftAlone(scripts, k + 1, fired[k]) ==>
        RunsOn(fired[k], Stops(ScriptOf(scripts, k), fired[k]))
    {
      ghost var due0 := DueNow();
      DueDistinct();
      fired, at := FireDue(scripts, base, rs);
      forall k | 0 <= k < |fired| && LeftAlone(scripts, k + 1, fired[k])
        ensures RunsOn(fired[k], Stops(ScriptOf(scripts, k), fired[k])) {
        FiredRuns(old(Seen(fired[k])), due0, scripts, fired, k, Diff(now, base), rs);
      }
    }

    /** The k-th timer to fire, o being that timer before the loop. */
    lemma FiredRuns(o: One, due: seq<int>, scripts: seq<seq<Action>>, fired: seq<int>, k: nat, lag: int, rs: set<int>)
      requires Valid() && fired == Fires(due, scripts) && ScriptsAllowed(scripts, fired, lag, rs) && NoDup(due)
      requires k < |fired| && LeftAlone(scripts, k + 1, fired[k]) && (fired[k] in due ==> o.active)
      requires Seen(fired[k]) == CheckOn(o, fired[k], fired, scripts, now)
      ensures RunsOn(fired[k], Stops(ScriptOf(scripts, k), fired[k]))
    {
      FiresInOrder(due, scripts);
      SubsequenceMember(fired, due, fired[k]);
      MayCall(scripts, fired, k, lag, rs);
      FiredSettles(o, fired[k], due, scripts, k, now);
      SettledRuns(fired[k], Stops(ScriptOf(scripts, k), fired[k]));
    }

    /** What becomes of a timer that has fired: it runs again, or it is in no row. */
    ghost predicate RunsOn(t: int, stopped: bool)
      reads this
      requires |rows| == n > 0
    {
      if t in periodic && !stopped then
        t in Bottom() && t in active && Rd(tick, t) == (now + Rd(init, t)) % WRAP
      else
        t !in active && forall l {:trigger rows[l]} :: 0 <= l < n ==> t !in rows[l]
    }

    lemma SettledRuns(t: int, stopped: bool)
      requires Valid() && Settled(Seen(t), stopped, now)
      ensures RunsOn(t, stopped)
    {
      forall l | 0 <= l < n && t !in Bottom() ensures t !in rows[l] {
        AllInBottom(rows, l);
      }
    }

    /** No timer is due twice, and the due timers are running. */
    lemma DueDistinct()
      requires Valid() && ActiveListed()
      ensures NoDup(DueNow()) && forall x {:trigger x in DueNow()} :: x in DueNow() ==> x in active
    {
      assert RowSorted(tick, stamp, rows[n-1], next);
      DueNoDup(tick, stamp, Bottom(), now);
      assert RowOk(st.m, hd, ts, rows[n-1], n - 1);
      forall x | x in DueNow() ensures x in active {
        var i :| 0 <= i < |DueNow()| && DueNow()[i] == x;
        assert Bottom()[i] == x;
      }
    }

    lemma MayCall(scripts: seq<seq<Action>>, all: seq<int>, k: nat, lag: int, rs: set<int>)
      requires ScriptsAllowed(scripts, all, lag, rs) && k < |all|
      ensures AllAllowed(ScriptOf(scripts, k), all[k], lag, rs) && !Starts(ScriptOf(scripts, k), all[k])
    {
      if k < |scripts| { assert AllAllowed(scripts[k], all[k], lag, rs); }
    }

    // ----- whole runs

    /** Between two ticks; rs are the timers that may be started, with times below RT_TICK_MAX/2 and of one tick and more. */
    ghost predicate AtRest(rs: set<int>)
      reads this, st
    {
      && Valid() && ActiveListed() && Ahead(tick, Bottom(), now)
      && rs <= ts && periodic * ts <= rs
      && forall x {:trigger Fit(init, x, 0)} :: x in rs ==> Fit(init, x, 0)
    }

    lemma RestWindow(rs: set<int>)
      requires AtRest(rs)
      ensures Window(now, rs)
    {
      forall i | 0 <= i < |Bottom()| ensures Key(tick, Bottom()[i], now) < HALF {
        assert 0 < Key(tick, Bottom()[i], now) < HALF;
      }
      forall x | x in rs ensures Fit(init, x, Diff(now, now)) {
        assert Fit(init, x, 0);
      }
    }

    lemma WindowRest(rs: set<int>)
      requires Valid() && Window(now, rs) && ActiveListed() && DueNow() == []
      ensures AtRest(rs)
    {
      assert RowSorted(tick, stamp, rows[n-1], next);
      NoneDueAhead(tick, stamp, Bottom(), now);
      forall x | x in rs ensures Fit(init, x, 0) {
        assert Fit(init, x, Diff(now, now));
      }
    }

    lemma NoneDue(rs: set<int>)
      requires AtRest(rs)
      ensures DueNow() == []
    {
      if Bottom() != [] {
        assert 0 < Key(tick, Bottom()[0], now) < HALF;
        DueIsNow(tick, Bottom()[0], now);
      }
    }

    /** A timer started between two ticks. */
    method StartAtRest(t: int, ghost rs: set<int>)
      requires AtRest(rs) && t in rs
      modifies this`tick, this`rows, this`stamp, this`next, this`random, this`active, st
      ensures AtRest(rs) && tick == old(tick)[t := Deadline(now, init, t)]
      ensures Bottom() == Inserted(tick, Removed(old(Bottom()), t), t) && JustStarted(Seen(t), now, Rd(init, t))
      ensures forall x {:trigger Seen(x)} :: x != t ==> Seen(x) == old(Seen(x))
    {
      RestWindow(rs);
      NoneDue(rs);
      assert RowSorted(tick, stamp, rows[n-1], next);
      StartedMembers(tick, stamp, Bottom(), t, tick[t := Deadline(now, init, t)]);
      Restart(t, now, rs);
      WindowRest(rs);
    }

    /** A timer stopped between two ticks. */
    method StopAtRest(t: int, ghost rs: set<int>)
      requires AtRest(rs) && t in ts
      modifies this`rows, this`active, st
      ensures AtRest(rs) && Bottom() == Removed(old(Bottom()), t)
      ensures t !in active && forall l {:trigger rows[l]} :: 0 <= l < n ==> t !in rows[l]
      ensures forall x {:trigger Seen(x)} :: x != t ==> Seen(x) == old(Seen(x))
    {
      RestWindow(rs);
      NoneDue(rs);
      Cancel(t, now, rs);
      forall l | 0 <= l < n ensures t !in rows[l] { AllInBottom(rows, l); }
      WindowRest(rs);
    }

    /** The timer part of rt_tick_increase: the tick advances and the timers whose deadline it is fire. */
    method Tick(scripts: seq<seq<Action>>, ghost rs: set<int>) returns (fired: seq<int>, at: seq<int>)
      requires AtRest(rs)
      requires ScriptsAllowed(scripts, Fires(Due(tick, Bottom(), (now + 1) % WRAP), scripts), 0, rs)
      modifies this`now, this`tick, this`init, this`rows, this`stamp, this`next, this`random, this`active, this`periodic, st
      ensures AtRest(rs) && now == (old(now) + 1) % WRAP
      ensures fired == Fires(Due(old(tick), old(Bottom()), now), scripts) && OnTime(old(tick), fired, at)
      ensures forall i {:trigger at[i]} :: 0 <= i < |at| ==> Diff(at[i], now) == 0
      ensures forall k {:trigger fired[k]} :: 0 <= k < |fired| && LeftAlone(scripts, k + 1, fired[k]) ==>
        RunsOn(fired[k], Stops(ScriptOf(scripts, k), fired[k]))
      ensures forall x {:trigger Seen(x)} :: LeftAlone(scripts, 0, x) ==> TickStep(old(Seen(x)), x in fired, Seen(x), now)
    {
      ghost var tick0, stamp0, row0 := tick, stamp, Bottom();
      assert Ordered(tick0, stamp0, row0) by { assert RowSorted(tick, stamp, rows[n-1], next); }
      AheadTick(tick, Bottom(), now);
      now := (now + 1) % WRAP;
      assert Window(now, rs) by {
        forall x | x in rs ensures Fit(init, x, Diff(now, now)) { assert Fit(init, x, 0); }
      }
      label L:
      fired, at := Check(scripts, now, rs);
      FiredNow(tick0, stamp0, row0, now, scripts, at);
      forall x | LeftAlone(scripts, 0, x)
        ensures TickStep(old(Seen(x)), x in fired, Seen(x), now) {
        AloneTick(old(Seen(x)), x, tick0, stamp0, row0, scripts, now);
        assert old@L(Seen(x)) == old(Seen(x));
      }
      WindowRest(rs);
    }
  }
}
