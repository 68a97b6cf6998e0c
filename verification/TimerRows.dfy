/**
 All the rows of the timer skip list together: rows[|rows| - 1] lists every running timer, each
 row above lists some of the timers of the row below.
 */
module TimerRows {
  import opened Store
  import opened Queues
  import opened TimerOrder

  ghost predicate RowSorted(tick: Mem, stamp: Mem, row: seq<int>, next: int) {
    Ordered(tick, stamp, row) && forall i {:trigger Numbered(stamp, row[i], next)} :: 0 <= i < |row| ==> Numbered(stamp, row[i], next)
  }

  /** Row l lists only timers of row l + 1. */
  ghost predicate Above(rows: seq<seq<int>>, l: nat)
    requires l + 1 < |rows|
  {
    Within(rows[l], rows[l+1])
  }

  ghost predicate Sorted(tick: Mem, stamp: Mem, rows: seq<seq<int>>, next: int) {
    && (forall l {:trigger RowSorted(tick, stamp, rows[l], next)} :: 0 <= l < |rows| ==> RowSorted(tick, stamp, rows[l], next))
    && (forall l {:trigger Above(rows, l)} :: 0 <= l < |rows| - 1 ==> Above(rows, l))
  }

  /** An ordered row lies in the window that starts at its first deadline. */
  lemma OwnWindow(tick: Mem, stamp: Mem, row: seq<int>)
    requires Ordered(tick, stamp, row) && row != []
    ensures InWindow(tick, row, Rd(tick, row[0]))
  {
    forall i | 0 <= i < |row| ensures Key(tick, row[i], Rd(tick, row[0])) < HALF {
      if i > 0 { assert Before(tick, stamp, row[0], row[i]); }
    }
  }

  /** The skip list: every row is a subsequence of the one below it. */
  lemma SkipList(tick: Mem, stamp: Mem, rows: seq<seq<int>>, next: int, l: nat)
    requires Sorted(tick, stamp, rows, next) && l + 1 < |rows|
    ensures Subsequence(rows[l], rows[l+1])
  {
    assert Above(rows, l) && RowSorted(tick, stamp, rows[l], next) && RowSorted(tick, stamp, rows[l+1], next);
    assert |rows[l]| == 0 || rows[l][0] in rows[l+1];
    if rows[l+1] != [] {
      OwnWindow(tick, stamp, rows[l+1]);
      OrderedSubsequence(tick, stamp, rows[l], rows[l+1], Rd(tick, rows[l+1][0]));
    }
  }

  lemma {:induction false} AllInBottom(rows: seq<seq<int>>, l: nat)
    requires l < |rows| && forall k {:trigger Above(rows, k)} :: 0 <= k < |rows| - 1 ==> Above(rows, k)
    ensures Within(rows[l], rows[|rows|-1])
    decreases |rows| - l
  {
    if l + 1 < |rows| {
      assert Above(rows, l);
      AllInBottom(rows, l + 1);
    } else {
      forall i | 0 <= i < |rows[l]| ensures rows[l][i] in rows[l] {}
    }
  }

  // ----- removal from every row

  ghost function RemovedRows(rows: seq<seq<int>>, t: int): (r: seq<seq<int>>)
    ensures |r| == |rows| && forall l {:trigger r[l]} :: 0 <= l < |r| ==> r[l] == Removed(rows[l], t)
  {
    seq(|rows|, l requires 0 <= l < |rows| => Removed(rows[l], t))
  }

  lemma RemovedMembers(tick: Mem, stamp: Mem, rows: seq<seq<int>>, next: int, t: int, l: nat)
    requires Sorted(tick, stamp, rows, next) && l < |rows|
    ensures RowSorted(tick, stamp, Removed(rows[l], t), next)
    ensures t !in Removed(rows[l], t)
    ensures forall x :: x in Removed(rows[l], t) <==> x in rows[l] && x != t
  {
    assert RowSorted(tick, stamp, rows[l], next);
    RemovedOrdered(tick, stamp, rows[l], t);
    var w := Removed(rows[l], t);
    forall i | 0 <= i < |w| ensures Numbered(stamp, w[i], next) {
      assert w[i] in w;
      var j :| 0 <= j < |rows[l]| && rows[l][j] == w[i];
      assert Numbered(stamp, rows[l][j], next);
    }
  }

  lemma RemovedSorted(tick: Mem, stamp: Mem, rows: seq<seq<int>>, next: int, t: int)
    requires Sorted(tick, stamp, rows, next)
    ensures Sorted(tick, stamp, RemovedRows(rows, t), next)
  {
    var r := RemovedRows(rows, t);
    forall l | 0 <= l < |r| ensures RowSorted(tick, stamp, r[l], next) {
      RemovedMembers(tick, stamp, rows, next, t, l);
    }
    forall l | 0 <= l < |r| - 1 ensures Above(r, l) {
      assert Above(rows, l);
      RemovedMembers(tick, stamp, rows, next, t, l);
      RemovedMembers(tick, stamp, rows, next, t, l + 1);
      forall i | 0 <= i < |r[l]| ensures r[l][i] in r[l+1] {
        assert r[l][i] in r[l];
        var j :| 0 <= j < |rows[l]| && rows[l][j] == r[l][i];
      }
    }
  }

  // ----- the order does not depend on the deadline and start number of an unlisted timer

  lemma UnlistedSorted(tick: Mem, stamp: Mem, row: seq<int>, next: int, t: int, d: int)
    requires RowSorted(tick, stamp, row, next) && t !in row
    ensures RowSorted(tick[t := d], stamp[t := next], row, next)
  {
    var tick', stamp' := tick[t := d], stamp[t := next];
    forall i | 0 <= i < |row| ensures Numbered(stamp', row[i], next) {
      assert row[i] in row && Numbered(stamp, row[i], next);
    }
    forall i, j | 0 <= i < j < |row| ensures Before(tick', stamp', row[i], row[j]) {
      assert Before(tick, stamp, row[i], row[j]) && row[i] in row && row[j] in row;
    }
  }

  lemma NumberedMore(stamp: Mem, row: seq<int>, next: int, more: int)
    requires forall i {:trigger Numbered(stamp, row[i], next)} :: 0 <= i < |row| ==> Numbered(stamp, row[i], next)
    requires next <= more
    ensures forall i {:trigger Numbered(stamp, row[i], more)} :: 0 <= i < |row| ==> Numbered(stamp, row[i], more)
  {
    forall i | 0 <= i < |row| ensures Numbered(stamp, row[i], more) {
      assert Numbered(stamp, row[i], next);
    }
  }

  /** Giving an unlisted timer a deadline changes no row. */
  lemma NewSorted(tick: Mem, stamp: Mem, rows: seq<seq<int>>, next: int, t: int, d: int)
    requires Sorted(tick, stamp, rows, next) && forall l {:trigger rows[l]} :: 0 <= l < |rows| ==> t !in rows[l]
    ensures Sorted(tick[t := d], stamp, rows, next)
  {
    var tick' := tick[t := d];
    forall l | 0 <= l < |rows| ensures RowSorted(tick', stamp, rows[l], next) {
      var row := rows[l];
      assert RowSorted(tick, stamp, row, next);
      forall i, j | 0 <= i < j < |row| ensures Before(tick', stamp, row[i], row[j]) {
        assert Before(tick, stamp, row[i], row[j]) && row[i] in row && row[j] in row;
      }
      forall i | 0 <= i < |row| ensures Numbered(stamp, row[i], next) {}
    }
    forall l | 0 <= l < |rows| - 1 ensures Above(rows, l) {}
  }

  // ----- a start

  /** t's deadline when it is started now. */
  function Deadline(now: int, init: Mem, t: int): int {
    (now + Rd(init, t)) % WRAP
  }

  /** How many rows a start enters: one, and one more for each pair of low bits of the start counter that is zero. */
  function Height(tst: nat, n: nat): (h: nat)
    requires n > 0
    ensures 1 <= h <= n
  {
    if n > 1 && tst % 4 == 0 then 1 + Height(tst / 4, n - 1) else 1
  }

  lemma RestOf(q: int, p: int, r: int)
    requires 0 <= r < p
    ensures (q * p + r) % p == r
  {
    var m := q * p + r;
    var d := m / p - q;
    assert m == m / p * p + m % p;
    assert d * p == r - m % p;
    assert d >= 1 ==> d * p >= p;
    assert d <= -1 ==> d * p <= -p;
  }

  function Pow4(n: nat): (p: nat)
    ensures p > 0
  {
    if n == 0 then 1 else 4 * Pow4(n - 1)
  }

  lemma ModScaled(q: nat, p: nat)
    requires p > 0
    ensures (4 * q) % (4 * p) == 4 * (q % p)
  {
    var d, r := q / p, q % p;
    assert q == d * p + r;
    assert 4 * q == d * (4 * p) + 4 * r;
    RestOf(d, 4 * p, 4 * r);
  }

  /** The start counter ends in as many pairs of zero bits as the start enters rows above the bottom one, and in no more unless it enters all. */
  lemma {:induction false} HeightExact(tst: nat, n: nat)
    requires n > 0
    ensures var h := Height(tst, n); tst % Pow4(h - 1) == 0 && (h < n ==> tst % Pow4(h) != 0)
    decreases n
  {
    if n > 1 && tst % 4 == 0 {
      var h := Height(tst / 4, n - 1);
      HeightExact(tst / 4, n - 1);
      assert tst == 4 * (tst / 4);
      ModScaled(tst / 4, Pow4(h - 1));
      ModScaled(tst / 4, Pow4(h));
    }
  }

  /** t put, by deadline, into the lowest h rows. */
  ghost function InsertedRows(tick: Mem, rows: seq<seq<int>>, t: int, h: nat): (r: seq<seq<int>>)
    ensures |r| == |rows|
    ensures forall l {:trigger r[l]} :: 0 <= l < |r| ==> r[l] == if l + h >= |rows| then Inserted(tick, rows[l], t) else rows[l]
  {
    seq(|rows|, l requires 0 <= l < |rows| => if l + h >= |rows| then Inserted(tick, rows[l], t) else rows[l])
  }

  /** t removed from every row and put back into the lowest h rows. */
  ghost function StartedRows(tick: Mem, rows: seq<seq<int>>, t: int, h: nat): (r: seq<seq<int>>)
    ensures |r| == |rows|
  {
    InsertedRows(tick, RemovedRows(rows, t), t, h)
  }

  lemma InsertedRowsNext(tick: Mem, rows: seq<seq<int>>, t: int, h: nat)
    requires h < |rows|
    ensures var l := |rows| - 1 - h;
      InsertedRows(tick, rows, t, h + 1) == InsertedRows(tick, rows, t, h)[l := Inserted(tick, rows[l], t)]
  {
  }

  lemma InsertedMembers(tick: Mem, row: seq<int>, t: int)
    ensures forall x :: x in Inserted(tick, row, t) <==> x in row || x == t
  {
    InsertedElements(tick, row, t);
    forall x ensures x in Inserted(tick, row, t) <==> x in row || x == t {
      assert x in Inserted(tick, row, t) <==> x in multiset(Inserted(tick, row, t));
      assert x in row <==> x in multiset(row);
    }
  }

  /** One row after a start: still ordered, and it lists what it should. */
  lemma StartedRow(tick: Mem, stamp: Mem, row: seq<int>, next: int, t: int, d: int, base: int)
    requires RowSorted(tick, stamp, row, next) && t !in row
    requires InWindow(tick, row, base) && Diff(d, base) < HALF
    ensures RowSorted(tick[t := d], stamp[t := next], Inserted(tick[t := d], row, t), next + 1)
  {
    var tick', stamp' := tick[t := d], stamp[t := next];
    UnlistedSorted(tick, stamp, row, next, t, d);
    forall i | 0 <= i < |row| ensures Key(tick', row[i], base) < HALF {
      assert row[i] in row && Key(tick, row[i], base) < HALF;
    }
    InsertedOrdered(tick', stamp', row, t, base);
    var w := Inserted(tick', row, t);
    InsertedMembers(tick', row, t);
    forall i | 0 <= i < |w| ensures Numbered(stamp', w[i], next + 1) {
      assert w[i] in w;
      if w[i] != t {
        var j :| 0 <= j < |row| && row[j] == w[i];
        assert Numbered(stamp', row[j], next);
      }
    }
  }

  lemma WithinWindow(tick: Mem, a: seq<int>, b: seq<int>, base: int)
    requires Within(a, b) && InWindow(tick, b, base)
    ensures InWindow(tick, a, base)
  {
    forall i | 0 <= i < |a| ensures Key(tick, a[i], base) < HALF {
      var j :| 0 <= j < |b| && b[j] == a[i];
      assert Key(tick, b[j], base) < HALF;
    }
  }

  lemma StartedRowAt(tick: Mem, stamp: Mem, rows: seq<seq<int>>, next: int, t: int, d: int, h: nat, base: int, l: nat)
    requires Sorted(tick, stamp, rows, next) && l < |rows|
    requires InWindow(tick, Removed(rows[|rows|-1], t), base) && Diff(d, base) < HALF
    ensures RowSorted(tick[t := d], stamp[t := next], StartedRows(tick[t := d], rows, t, h)[l], next + 1)
  {
    var r := RemovedRows(rows, t);
    RemovedSorted(tick, stamp, rows, next, t);
    RemovedMembers(tick, stamp, rows, next, t, l);
    AllInBottom(r, l);
    WithinWindow(tick, r[l], r[|r|-1], base);
    if l + h >= |rows| {
      StartedRow(tick, stamp, r[l], next, t, d, base);
    } else {
      UnlistedSorted(tick, stamp, r[l], next, t, d);
      NumberedMore(stamp[t := next], r[l], next, next + 1);
    }
  }

  lemma StartedAbove(tick: Mem, stamp: Mem, rows: seq<seq<int>>, next: int, t: int, tick': Mem, h: nat, l: nat)
    requires Sorted(tick, stamp, rows, next) && l + 1 < |rows|
    ensures Above(StartedRows(tick', rows, t, h), l)
  {
    var r := RemovedRows(rows, t);
    RemovedSorted(tick, stamp, rows, next, t);
    assert Above(r, l);
    RemovedMembers(tick, stamp, rows, next, t, l);
    var s := StartedRows(tick', rows, t, h);
    InsertedMembers(tick', r[l], t);
    InsertedMembers(tick', r[l+1], t);
    forall i | 0 <= i < |s[l]| ensures s[l][i] in s[l+1] {
      assert s[l][i] in s[l];
      if s[l][i] != t {
        var j :| 0 <= j < |r[l]| && r[l][j] == s[l][i];
        assert r[l][j] in r[l+1];
      }
    }
  }

  /** Starting t, whose new deadline d shares a window with the other running timers, keeps every row in order. */
  lemma StartedSorted(tick: Mem, stamp: Mem, rows: seq<seq<int>>, next: int, t: int, d: int, h: nat, base: int)
    requires Sorted(tick, stamp, rows, next) && |rows| > 0
    requires InWindow(tick, Removed(rows[|rows|-1], t), base) && Diff(d, base) < HALF
    ensures Sorted(tick[t := d], stamp[t := next], StartedRows(tick[t := d], rows, t, h), next + 1)
  {
    var s := StartedRows(tick[t := d], rows, t, h);
    forall l | 0 <= l < |s| ensures RowSorted(tick[t := d], stamp[t := next], s[l], next + 1) {
      StartedRowAt(tick, stamp, rows, next, t, d, h, base, l);
    }
    forall l | 0 <= l < |s| - 1 ensures Above(s, l) {
      StartedAbove(tick, stamp, rows, next, t, tick[t := d], h, l);
    }
  }

  /** A start adds t, and no other timer, to those the row lists. */
  lemma StartedMembers(tick: Mem, stamp: Mem, row: seq<int>, t: int, tick': Mem)
    requires Ordered(tick, stamp, row)
    ensures forall x {:trigger x in row} :: x in Inserted(tick', Removed(row, t), t) <==> x in row || x == t
  {
    RemovedOrdered(tick, stamp, row, t);
    InsertedMembers(tick', Removed(row, t), t);
  }

  lemma DiffMod(a: int, b: int)
    ensures Diff(a % WRAP, b) == Diff(a, b)
  {
    assert a == a / WRAP * WRAP + a % WRAP;
    assert (a - b) % WRAP == (a % WRAP - b + a / WRAP * WRAP) % WRAP;
    ModShift(a % WRAP - b, a / WRAP);
  }

  lemma {:induction false} ModShift(x: int, k: int)
    ensures (x + k * WRAP) % WRAP == x % WRAP
  {
    var q := x / WRAP;
    assert x == q * WRAP + x % WRAP;
    assert x + k * WRAP == (q + k) * WRAP + x % WRAP;
  }

  /** The state in which the search runs: t unlisted, its new deadline d already set. */
  lemma StartKeeps(tick: Mem, stamp: Mem, rows: seq<seq<int>>, next: int, t: int, d: int, base: int)
    requires Sorted(tick, stamp, rows, next) && |rows| > 0
    requires InWindow(tick, Removed(rows[|rows|-1], t), base)
    ensures Sorted(tick[t := d], stamp, RemovedRows(rows, t), next)
    ensures forall l {:trigger RemovedRows(rows, t)[l]} :: 0 <= l < |rows| ==> t !in RemovedRows(rows, t)[l]
    ensures InWindow(tick[t := d], Removed(rows[|rows|-1], t), base)
  {
    var r := RemovedRows(rows, t);
    RemovedSorted(tick, stamp, rows, next, t);
    forall l | 0 <= l < |r| ensures t !in r[l] {
      RemovedMembers(tick, stamp, rows, next, t, l);
    }
    NewSorted(tick, stamp, r, next, t, d);
    var bottom := r[|r|-1];
    forall i | 0 <= i < |bottom| ensures Key(tick[t := d], bottom[i], base) < HALF {
      assert bottom[i] in bottom && Key(tick, bottom[i], base) < HALF;
    }
  }

  /** The search enters the row below at the position of the timer it stopped at; nothing before that is due later. */
  lemma Descend(tick: Mem, stamp: Mem, below: seq<int>, next: int, t: int, k: nat, base: int)
    requires RowSorted(tick, stamp, below, next) && k < |below| && !Later(tick, below[k], t)
    requires InWindow(tick, below, base) && Key(tick, t, base) < HALF
    ensures forall i {:trigger Later(tick, below[i], t)} :: 0 <= i <= k ==> !Later(tick, below[i], t)
  {
    forall i | 0 <= i <= k ensures !Later(tick, below[i], t) {
      KeyOrder(tick, stamp, below[i], t, base);
      KeyOrder(tick, stamp, below[k], t, base);
      if i < k {
        assert Before(tick, stamp, below[i], below[k]);
        KeyOrder(tick, stamp, below[i], below[k], base);
      }
    }
  }
}
