/**
 The order of the timer list (rt-thread/src/timer.c): deadlines compared modulo 2^32, and
 timers with the same deadline kept in the order in which they were started.

 Rows of the skip list are sequences of timers.  `tick` gives a timer's deadline, `stamp` the
 number of its latest start.
 */
module TimerOrder {
  import opened Store
  import opened Queues

  const WRAP := 0x1_0000_0000
  const HALF := 0x7FFF_FFFF     // RT_TICK_MAX / 2

  /** a - b in 32-bit unsigned arithmetic. */
  function Diff(a: int, b: int): (d: int)
    ensures 0 <= d < WRAP
  {
    (a - b) % WRAP
  }

  /** x comes before y: its deadline is earlier, or the same and x was started first. */
  ghost predicate Before(tick: Mem, stamp: Mem, x: int, y: int) {
    Diff(Rd(tick, y), Rd(tick, x)) < HALF && (Diff(Rd(tick, y), Rd(tick, x)) == 0 ==> Rd(stamp, x) < Rd(stamp, y))
  }

  /** x's latest start has a number below next. */
  ghost predicate Numbered(stamp: Mem, x: int, next: int) {
    Rd(stamp, x) < next
  }

  ghost predicate Ordered(tick: Mem, stamp: Mem, row: seq<int>) {
    forall i, j {:trigger Before(tick, stamp, row[i], row[j])} :: 0 <= i < j < |row| ==> Before(tick, stamp, row[i], row[j])
  }

  /** How long after base x is due. */
  function Key(tick: Mem, x: int, base: int): int {
    Diff(Rd(tick, x), base)
  }

  /** All deadlines of the row lie in the window of RT_TICK_MAX/2 ticks from base. */
  ghost predicate InWindow(tick: Mem, row: seq<int>, base: int) {
    forall i {:trigger Key(tick, row[i], base)} :: 0 <= i < |row| ==> Key(tick, row[i], base) < HALF
  }

  /** The test of the insertion loop: x is due later than the new timer t. */
  predicate Later(tick: Mem, x: int, t: int) {
    0 < Diff(Rd(tick, x), Rd(tick, t)) < HALF
  }

  /** The row with t placed before the first timer that is due later. */
  ghost function Inserted(tick: Mem, row: seq<int>, t: int): (r: seq<int>)
  {
    if row == [] then [t]
    else if Later(tick, row[0], t) then [t] + row
    else [row[0]] + Inserted(tick, row[1..], t)
  }

  // ----- in a window, the order is that of the distances from its base

  lemma KeyOrder(tick: Mem, stamp: Mem, x: int, y: int, base: int)
    requires Key(tick, x, base) < HALF && Key(tick, y, base) < HALF
    ensures Before(tick, stamp, x, y) <==>
      Key(tick, x, base) < Key(tick, y, base) || (Key(tick, x, base) == Key(tick, y, base) && Rd(stamp, x) < Rd(stamp, y))
    ensures Later(tick, x, y) <==> Key(tick, x, base) > Key(tick, y, base)
  {
    var a, b := Rd(tick, x), Rd(tick, y);
    if Diff(a, base) >= Diff(b, base) {
      assert Diff(a, b) == Diff(a, base) - Diff(b, base);
      assert Diff(a, b) > 0 ==> Diff(b, a) == WRAP - Diff(a, b);
      assert Diff(a, b) == 0 ==> Diff(b, a) == 0;
    } else {
      assert Diff(b, a) == Diff(b, base) - Diff(a, base);
      assert Diff(a, b) == WRAP - Diff(b, a);
    }
  }

  // ----- insertion

  lemma {:induction false} InsertedAt(tick: Mem, row: seq<int>, t: int, k: nat)
    requires k <= |row|
    requires forall i :: 0 <= i < k ==> !Later(tick, row[i], t)
    requires k < |row| ==> Later(tick, row[k], t)
    ensures Inserted(tick, row, t) == row[..k] + [t] + row[k..]
  {
    if k == 0 {
      assert row[..0] + [t] + row[0..] == [t] + row;
    } else {
      InsertedAt(tick, row[1..], t, k - 1);
      assert row[..k] + [t] + row[k..] == [row[0]] + (row[1..][..k-1] + [t] + row[1..][k-1..]);
    }
  }

  /** Where t goes. */
  lemma {:induction false} InsertPoint(tick: Mem, row: seq<int>, t: int) returns (k: nat)
    ensures k <= |row| && (forall i :: 0 <= i < k ==> !Later(tick, row[i], t)) && (k < |row| ==> Later(tick, row[k], t))
  {
    k := 0;
    while k < |row| && !Later(tick, row[k], t)
      invariant k <= |row| && forall i :: 0 <= i < k ==> !Later(tick, row[i], t)
    {
      k := k + 1;
    }
  }

  lemma NotLaterBefore(tick: Mem, stamp: Mem, x: int, t: int, base: int)
    requires Key(tick, x, base) < HALF && Key(tick, t, base) < HALF && !Later(tick, x, t) && Rd(stamp, x) < Rd(stamp, t)
    ensures Before(tick, stamp, x, t)
  {
    KeyOrder(tick, stamp, x, t, base);
  }

  lemma BeforeLater(tick: Mem, stamp: Mem, t: int, x: int, y: int, base: int)
    requires Key(tick, t, base) < HALF && Key(tick, x, base) < HALF && Key(tick, y, base) < HALF
    requires Later(tick, x, t) && (x == y || Before(tick, stamp, x, y))
    ensures Before(tick, stamp, t, y)
  {
    KeyOrder(tick, stamp, x, t, base);
    KeyOrder(tick, stamp, t, y, base);
    KeyOrder(tick, stamp, x, y, base);
  }

  /** Starting t keeps a row in order, given that all its deadlines and the new one share a window. */
  lemma InsertedOrdered(tick: Mem, stamp: Mem, row: seq<int>, t: int, base: int)
    requires Ordered(tick, stamp, row) && InWindow(tick, row, base) && Key(tick, t, base) < HALF
    requires forall i {:trigger Numbered(stamp, row[i], Rd(stamp, t))} :: 0 <= i < |row| ==> Numbered(stamp, row[i], Rd(stamp, t))
    ensures Ordered(tick, stamp, Inserted(tick, row, t))
  {
    var k := InsertPoint(tick, row, t);
    InsertedAt(tick, row, t, k);
    PutOrdered(tick, stamp, row, t, base, k);
  }

  lemma PutOrdered(tick: Mem, stamp: Mem, row: seq<int>, t: int, base: int, k: nat)
    requires Ordered(tick, stamp, row) && InWindow(tick, row, base) && Key(tick, t, base) < HALF
    requires forall i {:trigger Numbered(stamp, row[i], Rd(stamp, t))} :: 0 <= i < |row| ==> Numbered(stamp, row[i], Rd(stamp, t))
    requires k <= |row| && (forall i :: 0 <= i < k ==> !Later(tick, row[i], t)) && (k < |row| ==> Later(tick, row[k], t))
    ensures Ordered(tick, stamp, Put(row, k, t))
  {
    var r := Put(row, k, t);
    forall i, j | 0 <= i < j < |r| ensures Before(tick, stamp, r[i], r[j]) {
      var x, y := if i < k then i else i - 1, if j < k then j else j - 1;
      if i < k && j == k {
        assert Numbered(stamp, row[i], Rd(stamp, t)) && Key(tick, row[i], base) < HALF;
        NotLaterBefore(tick, stamp, row[i], t, base);
      } else if i == k {
        assert Key(tick, row[k], base) < HALF && Key(tick, row[y], base) < HALF;
        assert k < y ==> Before(tick, stamp, row[k], row[y]);
        BeforeLater(tick, stamp, t, row[k], row[y], base);
      } else {
        assert Before(tick, stamp, row[x], row[y]);
      }
    }
  }

  lemma {:induction false} InsertedElements(tick: Mem, row: seq<int>, t: int)
    ensures multiset(Inserted(tick, row, t)) == multiset(row) + multiset{t}
  {
    var k := InsertPoint(tick, row, t);
    InsertedAt(tick, row, t, k);
    assert row == row[..k] + row[k..];
  }

  // ----- removal

  /** An ordered row lists a timer at most once. */
  lemma OrderedDistinct(tick: Mem, stamp: Mem, row: seq<int>, i: nat, j: nat)
    requires Ordered(tick, stamp, row) && i < |row| && j < |row| && i != j
    ensures row[i] != row[j]
  {
    assert Before(tick, stamp, row[if i < j then i else j], row[if i < j then j else i]);
  }

  lemma RemovedOrdered(tick: Mem, stamp: Mem, row: seq<int>, t: int)
    requires Ordered(tick, stamp, row)
    ensures Ordered(tick, stamp, Removed(row, t))
    ensures t !in Removed(row, t) && forall x :: x in Removed(row, t) <==> x in row && x != t
  {
    if t in row {
      var k :| 0 <= k < |row| && row[k] == t;
      forall i | 0 <= i < |row| && i != k ensures row[i] != t { OrderedDistinct(tick, stamp, row, i, k); }
      RemovedAt(row, t, k);
      MemberRemove(row, k);
      var r := Without(row, k);
      forall i, j | 0 <= i < j < |r| ensures Before(tick, stamp, r[i], r[j]) {
        assert Before(tick, stamp, row[if i < k then i else i + 1], row[if j < k then j else j + 1]);
      }
      assert forall i :: 0 <= i < |r| ==> r[i] != t;
    } else {
      RemovedAbsent(row, t);
    }
  }

  // ----- rows of a skip list

  /** a lists only timers of b. */
  ghost predicate Within(a: seq<int>, b: seq<int>) {
    forall i {:trigger a[i]} :: 0 <= i < |a| ==> a[i] in b
  }

  /** Of two ordered rows, one that lists only timers of the other is a subsequence of it. */
  lemma {:induction false} OrderedSubsequence(tick: Mem, stamp: Mem, a: seq<int>, b: seq<int>, base: int)
    requires Ordered(tick, stamp, a) && Ordered(tick, stamp, b) && InWindow(tick, b, base)
    requires Within(a, b)
    ensures Subsequence(a, b)
    decreases |b|
  {
    if a != [] {
      assert a[0] in b;
      var i :| 0 <= i < |b| && b[i] == a[0];
      assert b == [b[0]] + b[1..];
      TailOrdered(tick, stamp, b);
      TailWindow(tick, b, base);
      if i == 0 {
        TailOrdered(tick, stamp, a);
        forall j | 0 <= j < |a[1..]| ensures a[1..][j] in b[1..] {
          OrderedDistinct(tick, stamp, a, 0, j + 1);
          assert a[j+1] in b;
        }
        OrderedSubsequence(tick, stamp, a[1..], b[1..], base);
      } else {
        assert Before(tick, stamp, b[0], b[i]);
        KeyOrder(tick, stamp, b[0], b[i], base);
        KeyOrder(tick, stamp, b[i], b[0], base);
        forall j | 0 <= j < |a| ensures a[j] != b[0] && a[j] in b[1..] {
          if j > 0 { assert Before(tick, stamp, a[0], a[j]); }
          assert a[j] in b;
        }
        OrderedSubsequence(tick, stamp, a, b[1..], base);
      }
    }
  }

  lemma TailWindow(tick: Mem, row: seq<int>, base: int)
    requires InWindow(tick, row, base) && row != []
    ensures InWindow(tick, row[1..], base)
  {
    forall i | 0 <= i < |row[1..]| ensures Key(tick, row[1..][i], base) < HALF {
      assert Key(tick, row[i+1], base) < HALF;
    }
  }

  lemma TailOrdered(tick: Mem, stamp: Mem, row: seq<int>)
    requires Ordered(tick, stamp, row) && row != []
    ensures Ordered(tick, stamp, row[1..])
  {
    var r := row[1..];
    forall i, j | 0 <= i < j < |r| ensures Before(tick, stamp, r[i], r[j]) {
      assert Before(tick, stamp, row[i+1], row[j+1]);
    }
  }
}
