/**
 The ready words as rt-thread/src/scheduler.c keeps them when there are more than 32 priorities:
 priority p = 8 n + b has bit b in the n-th byte of the table, and bit n of the group says that this byte is not zero.
 */
module TwoLevel {
  import opened Queues
  import opened Threads
  import opened Words

  ghost predicate ByteOk(table: seq<nat>, ready: seq<seq<int>>, n: nat, b: nat)
    requires n < |table|
  {
    Bit(table[n], b) <==> 8 * n + b < |ready| && ready[8 * n + b] != []
  }

  ghost predicate NumberOk(group: nat, table: seq<nat>, n: nat)
    requires n < |table|
  {
    Below(table[n], 8) && (Bit(group, n) <==> table[n] != 0)
  }

  ghost predicate TableOk(group: nat, table: seq<nat>, ready: seq<seq<int>>) {
    && |ready| <= PRIORITY_LIMIT && |table| == 32 && Below(group, 32)
    && (forall n {:trigger NumberOk(group, table, n)} :: 0 <= n < 32 ==> NumberOk(group, table, n))
    && (forall n, b {:trigger ByteOk(table, ready, n, b)} :: 0 <= n < 32 && 0 <= b < 8 ==> ByteOk(table, ready, n, b))
  }

  lemma {:induction false} BelowMore(w: nat, k: nat, m: nat)
    requires Below(w, k) && k <= m
    ensures Below(w, m)
    decreases m
  {
    if k > 0 {
      BelowMore(w / 2, k - 1, m - 1);
    } else if m > 0 {
      BelowMore(0, 0, m - 1);
    }
  }

  lemma SetNonZero(w: nat, i: nat)
    ensures SetBit(w, i) != 0
  {
    SetBitIs(w, i, i);
    NoBits(i);
  }

  lemma EnterKeeps(group: nat, table: seq<nat>, ready: seq<seq<int>>, p: nat, t: int)
    requires TableOk(group, table, ready) && p < |ready|
    ensures var n := p / 8;
      TableOk(SetBit(group, n), table[n := SetBit(table[n], p % 8)], ready[p := ready[p] + [t]])
  {
    var n, b := p / 8, p % 8;
    var group', table', ready' := SetBit(group, n), table[n := SetBit(table[n], b)], ready[p := ready[p] + [t]];
    assert NumberOk(group, table, n);
    SetBelow(group, n, 32);
    SetBelow(table[n], b, 8);
    SetNonZero(table[n], b);
    forall m | 0 <= m < 32 ensures NumberOk(group', table', m) {
      SetBitIs(group, n, m);
      assert NumberOk(group, table, m);
    }
    forall m, c | 0 <= m < 32 && 0 <= c < 8 ensures ByteOk(table', ready', m, c) {
      SetBitIs(table[n], b, c);
      assert ByteOk(table, ready, m, c);
      assert 8 * m + c == p <==> m == n && c == b;
    }
  }

  lemma LeaveKeeps(group: nat, table: seq<nat>, ready: seq<seq<int>>, p: nat, t: int)
    requires TableOk(group, table, ready) && p < |ready|
    ensures var n, q := p / 8, Removed(ready[p], t);
      var table' := if q == [] then table[n := ClearBit(table[n], p % 8)] else table;
      TableOk(if table'[n] == 0 then ClearBit(group, n) else group, table', ready[p := q])
  {
    var n, b, q := p / 8, p % 8, Removed(ready[p], t);
    var table' := if q == [] then table[n := ClearBit(table[n], b)] else table;
    var group' := if table'[n] == 0 then ClearBit(group, n) else group;
    var ready' := ready[p := q];
    ClearBelow(group, n, 32);
    assert NumberOk(group, table, n);
    forall m | 0 <= m < 32 ensures NumberOk(group', table', m) {
      assert NumberOk(group, table, m);
      ClearBitIs(group, n, m);
      ClearBelow(table[n], b, 8);
      if m == n && table[n] == 0 { ZeroCleared(b); }
    }
    forall m, c | 0 <= m < 32 && 0 <= c < 8 ensures ByteOk(table', ready', m, c) {
      ClearBitIs(table[n], b, c);
      assert ByteOk(table, ready, m, c);
      assert 8 * m + c == p <==> m == n && c == b;
    }
  }

  lemma LowestIsHighest(group: nat, table: seq<nat>, ready: seq<seq<int>>)
    requires TableOk(group, table, ready) && group > 0
    ensures Lowest(group) < 32 && table[Lowest(group)] > 0 && Below(table[Lowest(group)], 32)
    ensures 8 * Lowest(group) + Lowest(table[Lowest(group)]) == HighestFrom(ready, 0) < |ready|
  {
    var n, h := Lowest(group), HighestFrom(ready, 0);
    LowestBelow(group, 32);
    assert NumberOk(group, table, n);
    var b := Lowest(table[n]);
    LowestBelow(table[n], 8);
    BelowMore(table[n], 8, 32);
    assert ByteOk(table, ready, n, b);
    assert ready[8 * n + b] != [];
    var m, c := h / 8, h % 8;
    assert h == 8 * m + c && ByteOk(table, ready, m, c) && NumberOk(group, table, m);
    NoBits(c);
    LowestIsLeast(group, m);
    if m == n { LowestIsLeast(table[n], c); }
  }
}
