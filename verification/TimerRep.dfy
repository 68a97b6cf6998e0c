/**
 The rows of the timer skip list in memory: timer t carries one list node per level, the level-l
 node at Node(t, l), and the heads of the rows lie next to each other like the nodes of one more
 timer.
 */
module TimerRep {
  import opened Store
  import opened RtService
  import opened Queues
  import opened TimerOrder

  const ROW := 20   // offset of struct rt_timer's row array

  /** The address of the level-l list node of timer t. */
  function Node(t: int, l: nat): int {
    t + ROW + 8 * l
  }

  /** Row l as a list: its head, then the nodes of its timers. */
  ghost function Ring(hd: int, l: nat, row: seq<int>): (r: seq<int>)
    ensures |r| == |row| + 1 && r[0] == Node(hd, l)
    ensures forall i {:trigger r[i]} :: 0 < i < |r| ==> r[i] == Node(row[i-1], l)
  {
    [Node(hd, l)] + seq(|row|, i requires 0 <= i < |row| => Node(row[i], l))
  }

  /** The timers of the system and the row heads do not overlap. */
  ghost predicate Space(hd: int, ts: set<int>, n: nat) {
    hd !in ts && forall x, y {:trigger x in ts + {hd}, y in ts + {hd}} ::
      x in ts + {hd} && y in ts + {hd} && x != y ==> x + 8 * n <= y || y + 8 * n <= x
  }

  lemma NodesApart(hd: int, ts: set<int>, n: nat, x: int, l: nat, y: int, k: nat)
    requires Space(hd, ts, n) && x in ts + {hd} && y in ts + {hd} && l < n && k < n
    requires x != y || l != k
    ensures Apart(Node(x, l), Node(y, k))
  {
  }

  ghost predicate RowOk(m: Mem, hd: int, ts: set<int>, row: seq<int>, l: nat) {
    && IsList(m, Ring(hd, l, row))
    && (forall i {:trigger row[i]} :: 0 <= i < |row| ==> row[i] in ts)
    && (forall t {:trigger Alone(m, Node(t, l))} :: t in ts && t !in row ==> Alone(m, Node(t, l)))
  }

  /** Every row is a list, and the node of a timer that is not in a row is linked to itself. */
  ghost predicate Rows(m: Mem, hd: int, ts: set<int>, rows: seq<seq<int>>) {
    && Space(hd, ts, |rows|) && |rows| > 0
    && forall l {:trigger RowOk(m, hd, ts, rows[l], l)} :: 0 <= l < |rows| ==> RowOk(m, hd, ts, rows[l], l)
  }

  /** A list operation on row l with the node of t changes no other node. */
  lemma NodeKept(m: Mem, m': Mem, hd: int, ts: set<int>, n: nat, row: seq<int>, l: nat, t: int, x: int, k: nat)
    requires Space(hd, ts, n) && l < n && k < n && x in ts + {hd} && t in ts
    requires forall i {:trigger row[i]} :: 0 <= i < |row| ==> row[i] in ts
    requires OnlyLinks(m, m', Ring(hd, l, row), Node(t, l))
    requires k != l || (x != hd && x !in row && x != t)
    ensures Rd(m', Node(x, k)) == Rd(m, Node(x, k)) && Rd(m', Node(x, k) + 4) == Rd(m, Node(x, k) + 4)
  {
    var r, a := Ring(hd, l, row), Node(x, k);
    NodesApart(hd, ts, n, x, k, t, l);
    forall i | 0 <= i < |r| ensures Apart(r[i], a) {
      if i > 0 { assert row[i-1] in ts; }
      NodesApart(hd, ts, n, if i == 0 then hd else row[i-1], l, x, k);
    }
  }

  lemma OtherRow(m: Mem, m': Mem, hd: int, ts: set<int>, rows: seq<seq<int>>, l: nat, t: int, k: nat)
    requires Rows(m, hd, ts, rows) && l < |rows| && k < |rows| && k != l && t in ts
    requires OnlyLinks(m, m', Ring(hd, l, rows[l]), Node(t, l))
    ensures RowOk(m', hd, ts, rows[k], k)
  {
    assert RowOk(m, hd, ts, rows[k], k) && RowOk(m, hd, ts, rows[l], l);
    var r := Ring(hd, k, rows[k]);
    forall i | 0 <= i < |r|
      ensures Rd(m', r[i] + LINK) == Rd(m, r[i] + LINK) && Rd(m', r[i] + LINK + 4) == Rd(m, r[i] + LINK + 4)
    {
      if i > 0 { assert rows[k][i-1] in ts; }
      NodeKept(m, m', hd, ts, |rows|, rows[l], l, t, if i == 0 then hd else rows[k][i-1], k);
    }
    LinkedFrame(m, m', LINK, r);
    forall x | x in ts && x !in rows[k] ensures Alone(m', Node(x, k)) {
      assert Alone(m, Node(x, k));
      NodeKept(m, m', hd, ts, |rows|, rows[l], l, t, x, k);
    }
  }

  /** t's node taken out of row l at position i. */
  lemma RowWithout(m: Mem, m': Mem, hd: int, ts: set<int>, n: nat, row: seq<int>, l: nat, i: nat)
    requires Space(hd, ts, n) && l < n && RowOk(m, hd, ts, row, l) && i < |row|
    requires row[i] !in Without(row, i)
    requires IsList(m', Without(Ring(hd, l, row), i + 1)) && Alone(m', Node(row[i], l))
    requires OnlyLinks(m, m', Ring(hd, l, row), Node(row[i], l))
    ensures RowOk(m', hd, ts, Without(row, i), l)
  {
    var w := Without(row, i);
    assert Ring(hd, l, w) == Without(Ring(hd, l, row), i + 1);
    forall j | 0 <= j < |w| ensures w[j] in ts {
      assert w[j] == row[if j < i then j else j + 1];
    }
    assert row[i] in ts;
    MemberRemove(row, i);
    forall x | x in ts && x !in w ensures Alone(m', Node(x, l)) {
      if x != row[i] {
        assert Alone(m, Node(x, l));
        NodeKept(m, m', hd, ts, n, row, l, row[i], x, l);
      }
    }
  }

  /** t's node put into row l behind the first i timers. */
  lemma RowWith(m: Mem, m': Mem, hd: int, ts: set<int>, n: nat, row: seq<int>, l: nat, t: int, i: nat)
    requires Space(hd, ts, n) && l < n && RowOk(m, hd, ts, row, l) && i <= |row| && t in ts && t !in row
    requires IsList(m', InsertedAfter(Ring(hd, l, row), i, Node(t, l)))
    requires OnlyLinks(m, m', Ring(hd, l, row), Node(t, l))
    ensures RowOk(m', hd, ts, row[..i] + [t] + row[i..], l)
  {
    var w := row[..i] + [t] + row[i..];
    assert Ring(hd, l, w) == InsertedAfter(Ring(hd, l, row), i, Node(t, l));
    forall j | 0 <= j < |w| ensures w[j] in ts {
      assert w[j] == if j < i then row[j] else if j == i then t else row[j-1];
    }
    assert row == row[..i] + row[i..];
    forall x | x in ts && x !in w ensures Alone(m', Node(x, l)) {
      assert x !in row && x != t;
      assert Alone(m, Node(x, l));
      NodeKept(m, m', hd, ts, n, row, l, t, x, l);
    }
  }

  /** Row l replaced, by an operation that kept to row l and the node of t. */
  lemma RowsAfter(m: Mem, m': Mem, hd: int, ts: set<int>, rows: seq<seq<int>>, l: nat, t: int, row: seq<int>)
    requires Rows(m, hd, ts, rows) && l < |rows| && t in ts
    requires OnlyLinks(m, m', Ring(hd, l, rows[l]), Node(t, l))
    requires RowOk(m', hd, ts, row, l)
    ensures Rows(m', hd, ts, rows[l := row])
  {
    var r := rows[l := row];
    forall k | 0 <= k < |r| ensures RowOk(m', hd, ts, r[k], k) {
      if k != l { OtherRow(m, m', hd, ts, rows, l, t, k); }
    }
  }

  lemma RowSame(m: Mem, m': Mem, hd: int, ts: set<int>, row: seq<int>, l: nat)
    requires RowOk(m, hd, ts, row, l) && forall x :: Rd(m', x) == Rd(m, x)
    ensures RowOk(m', hd, ts, row, l)
  {
    LinkedFrame(m, m', LINK, Ring(hd, l, row));
    forall x | x in ts && x !in row ensures Alone(m', Node(x, l)) {
      assert Alone(m, Node(x, l));
    }
  }

  /** t is at most once in the row. */
  ghost predicate Once(row: seq<int>, t: int) {
    forall i, j {:trigger row[i], row[j]} :: 0 <= i < j < |row| ==> row[i] != t || row[j] != t
  }

  lemma OnceAt(row: seq<int>, t: int, i: nat)
    requires Once(row, t) && i < |row| && row[i] == t
    ensures t !in Without(row, i) && Removed(row, t) == Without(row, i)
  {
    var w := Without(row, i);
    forall j | 0 <= j < |w| ensures w[j] != t {
      assert w[j] == row[if j < i then j else j + 1];
    }
    forall j | 0 <= j < i ensures row[..i][j] != t {
      assert row[..i][j] == row[j];
    }
    RemovedAt(row, t, i);
  }

  /** rt_list_remove of t's level-l node, listed or not. */
  method RemoveNode(st: Memory, hd: int, l: nat, t: int, ghost ts: set<int>, ghost rows: seq<seq<int>>)
    requires Rows(st.m, hd, ts, rows) && l < |rows| && t in ts && Once(rows[l], t)
    modifies st
    ensures Rows(st.m, hd, ts, rows[l := Removed(rows[l], t)])
  {
    ghost var row, m0 := rows[l], st.m;
    assert RowOk(m0, hd, ts, row, l);
    ghost var k := if t in row then (var i :| 0 <= i < |row| && row[i] == t; i + 1) else 0;
    assert k == 0 ==> Alone(m0, Node(t, l));
    Remove(st, Node(t, l), Ring(hd, l, row), k);
    if k > 0 {
      OnceAt(row, t, k - 1);
      RowWithout(m0, st.m, hd, ts, |rows|, row, l, k - 1);
    } else {
      RemovedAbsent(row, t);
      RowSame(m0, st.m, hd, ts, row, l);
    }
    RowsAfter(m0, st.m, hd, ts, rows, l, t, Removed(row, t));
  }

  /** rt_list_insert_after: t's level-l node behind the first i timers of row l. */
  method InsertNode(st: Memory, hd: int, l: nat, t: int, after: int, ghost ts: set<int>, ghost rows: seq<seq<int>>, ghost i: nat)
    requires Rows(st.m, hd, ts, rows) && l < |rows| && t in ts && t !in rows[l] && i <= |rows[l]|
    requires after == Node(if i == 0 then hd else rows[l][i-1], l)
    modifies st
    ensures Rows(st.m, hd, ts, rows[l := rows[l][..i] + [t] + rows[l][i..]])
  {
    ghost var row, m0 := rows[l], st.m;
    assert RowOk(m0, hd, ts, row, l);
    ghost var r := Ring(hd, l, row);
    forall j | 0 <= j < |r| ensures Apart(r[j], Node(t, l)) {
      if j > 0 { assert row[j-1] in ts; }
      NodesApart(hd, ts, |rows|, if j == 0 then hd else row[j-1], l, t, l);
    }
    InsertAfter(st, after, Node(t, l), r, i);
    RowWith(m0, st.m, hd, ts, |rows|, row, l, t, i);
    RowsAfter(m0, st.m, hd, ts, rows, l, t, row[..i] + [t] + row[i..]);
  }

  /** p is the place in row l to insert t after: the head, or the last timer that is not due later than t. */
  ghost predicate Place(tick: Mem, hd: int, row: seq<int>, l: nat, p: int, k: nat, t: int) {
    && k <= |row| && p == Ring(hd, l, row)[k]
    && (forall i {:trigger Later(tick, row[i], t)} :: 0 <= i < k ==> !Later(tick, row[i], t))
    && (k < |row| ==> Later(tick, row[k], t))
  }

  /** Where the search may enter row l. */
  ghost predicate Entry(tick: Mem, hd: int, row: seq<int>, l: nat, p: int, k: nat, t: int) {
    k <= |row| && p == Ring(hd, l, row)[k] && forall i {:trigger Later(tick, row[i], t)} :: 0 <= i < k ==> !Later(tick, row[i], t)
  }

  // ----- initialisation

  ghost predicate AllAlone(m: Mem, x: int, n: nat) {
    forall l {:trigger Node(x, l)} :: 0 <= l < n ==> Alone(m, Node(x, l))
  }

  ghost predicate SameOutside(m: Mem, m': Mem, x: int, n: nat) {
    forall a :: !(Node(x, 0) <= a < Node(x, n)) ==> Rd(m', a) == Rd(m, a)
  }

  /** The loop that initialises the nodes of a timer or of the row heads. */
  method InitNodes(st: Memory, x: int, n: nat)
    modifies st
    ensures AllAlone(st.m, x, n) && SameOutside(old(st.m), st.m, x, n)
  {
    var l := 0;
    while l < n
      invariant l <= n && AllAlone(st.m, x, l) && SameOutside(old(st.m), st.m, x, l)
    {
      ghost var m1 := st.m;
      ListInit(st, Node(x, l));
      forall k | 0 <= k <= l ensures Alone(st.m, Node(x, k)) {
        assert k < l ==> Alone(m1, Node(x, k));
      }
      l := l + 1;
    }
  }

  lemma EmptyRows(m: Mem, hd: int, rows: seq<seq<int>>)
    requires |rows| > 0 && AllAlone(m, hd, |rows|) && forall l {:trigger rows[l]} :: 0 <= l < |rows| ==> rows[l] == []
    ensures Rows(m, hd, {}, rows)
  {
    forall l | 0 <= l < |rows| ensures RowOk(m, hd, {}, rows[l], l) {
      assert Alone(m, Node(hd, l));
    }
  }

  lemma NotYetListed(m: Mem, hd: int, ts: set<int>, rows: seq<seq<int>>, t: int)
    requires Rows(m, hd, ts, rows) && t !in ts
    ensures forall l {:trigger rows[l]} :: 0 <= l < |rows| ==> t !in rows[l]
  {
    forall l | 0 <= l < |rows| ensures t !in rows[l] {
      assert RowOk(m, hd, ts, rows[l], l);
    }
  }

  lemma RowsAdd(m: Mem, m': Mem, hd: int, ts: set<int>, rows: seq<seq<int>>, t: int)
    requires Rows(m, hd, ts, rows) && t !in ts && Space(hd, ts + {t}, |rows|)
    requires AllAlone(m', t, |rows|) && SameOutside(m, m', t, |rows|)
    ensures Rows(m', hd, ts + {t}, rows)
  {
    forall l | 0 <= l < |rows| ensures RowOk(m', hd, ts + {t}, rows[l], l) {
      RowAdd(m, m', hd, ts, rows[l], l, t, |rows|);
    }
  }

  lemma RowAdd(m: Mem, m': Mem, hd: int, ts: set<int>, row: seq<int>, l: nat, t: int, n: nat)
    requires RowOk(m, hd, ts, row, l) && t !in ts && Space(hd, ts + {t}, n) && l < n
    requires AllAlone(m', t, n) && SameOutside(m, m', t, n)
    ensures RowOk(m', hd, ts + {t}, row, l)
  {
    var r := Ring(hd, l, row);
    forall i | 0 <= i < |r|
      ensures Rd(m', r[i] + LINK) == Rd(m, r[i] + LINK) && Rd(m', r[i] + LINK + 4) == Rd(m, r[i] + LINK + 4)
    {
      OutsideNode(m, m', hd, ts, if i == 0 then hd else row[i-1], l, t, n);
    }
    LinkedFrame(m, m', LINK, r);
    forall x | x in ts + {t} && x !in row ensures Alone(m', Node(x, l)) {
      if x != t {
        assert Alone(m, Node(x, l));
        OutsideNode(m, m', hd, ts, x, l, t, n);
      }
    }
  }

  lemma OutsideNode(m: Mem, m': Mem, hd: int, ts: set<int>, x: int, l: nat, t: int, n: nat)
    requires x in ts + {hd} && t !in ts && Space(hd, ts + {t}, n) && l < n && SameOutside(m, m', t, n)
    ensures Rd(m', Node(x, l)) == Rd(m, Node(x, l)) && Rd(m', Node(x, l) + 4) == Rd(m, Node(x, l) + 4)
  {
    assert x in ts + {t} + {hd} && t in ts + {t} + {hd};
  }
}
