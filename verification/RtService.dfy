/**
 rt-thread/include/rtservice.h: the intrusive circular list every kernel structure is built on.
 A list is its head followed by its elements, r = [head] + elements; `ghost r` and `k` say which
 list a call works on and where.
 */
module RtService {
  import opened Store

  const LINK := 0   // next lies at the node's address, prev four bytes on

  ghost predicate IsList(m: Mem, r: seq<int>) {
    |r| > 0 && Spaced(r) && Linked(m, LINK, r)
  }

  /** Node n is in no list: it is linked to itself. */
  ghost predicate Alone(m: Mem, n: int) {
    Edge(m, LINK, n, n)
  }

  ghost predicate Off(n: int, r: seq<int>) {
    forall i {:trigger Apart(r[i], n)} :: 0 <= i < |r| ==> Apart(r[i], n)
  }

  /** Only the link words of nodes in r and of n may differ. */
  ghost predicate OnlyLinks(m: Mem, m': Mem, r: seq<int>, n: int) {
    forall x :: x != n && x != n + 4 && (forall i {:trigger r[i]} :: 0 <= i < |r| ==> x != r[i] && x != r[i] + 4) ==> Rd(m', x) == Rd(m, x)
  }

  method ListInit(st: Memory, l: int)
    modifies st
    ensures Alone(st.m, l) && forall x :: x != l && x != l + 4 ==> Rd(st.m, x) == Rd(old(st.m), x)
  {
    st.Put(l + 4, l);
    st.Put(l, l);
  }

  /** The writes of rt_list_insert_after, in order. */
  method WriteInsertAfter(st: Memory, l: int, n: int)
    requires Apart(l, n) && Apart(Rd(st.m, l), n) && (Rd(st.m, l) == l || Apart(Rd(st.m, l), l))
    modifies st
    ensures var q := Rd(old(st.m), l);
      && Edge(st.m, LINK, l, n) && Edge(st.m, LINK, n, q)
      && forall x :: x != q + 4 && x != n && x != l && x != n + 4 ==> Rd(st.m, x) == Rd(old(st.m), x)
  {
    st.Put(Rd(st.m, l) + 4, n);
    st.Put(n, Rd(st.m, l));
    st.Put(l, n);
    st.Put(n + 4, l);
  }

  /** The writes of rt_list_insert_before, in order. */
  method WriteInsertBefore(st: Memory, l: int, n: int)
    requires Apart(l, n) && Apart(Rd(st.m, l + 4), n) && (Rd(st.m, l + 4) == l || Apart(Rd(st.m, l + 4), l))
    modifies st
    ensures var p := Rd(old(st.m), l + 4);
      && Edge(st.m, LINK, p, n) && Edge(st.m, LINK, n, l)
      && forall x :: x != p && x != n && x != l + 4 && x != n + 4 ==> Rd(st.m, x) == Rd(old(st.m), x)
  {
    st.Put(Rd(st.m, l + 4), n);
    st.Put(n + 4, Rd(st.m, l + 4));
    st.Put(l + 4, n);
    st.Put(n, l);
  }

  /** The writes of rt_list_remove, in order. */
  method WriteRemove(st: Memory, n: int)
    requires var p, q := Rd(st.m, n + 4), Rd(st.m, n);
      (p == n && q == n) || (Apart(p, n) && Apart(q, n) && (p == q || Apart(p, q)))
    modifies st
    ensures var p, q := Rd(old(st.m), n + 4), Rd(old(st.m), n);
      && Alone(st.m, n) && (p != n ==> Edge(st.m, LINK, p, q))
      && forall x :: x != p && x != q + 4 && x != n && x != n + 4 ==> Rd(st.m, x) == Rd(old(st.m), x)
  {
    st.Put(Rd(st.m, n) + 4, Rd(st.m, n + 4));
    st.Put(Rd(st.m, n + 4), Rd(st.m, n));
    st.Put(n + 4, n);
    st.Put(n, n);
  }

  /** The neighbours of a list's k-th node. */
  lemma Neighbours(m: Mem, r: seq<int>, k: nat)
    requires IsList(m, r) && k < |r|
    ensures Rd(m, r[k]) == r[Succ(k, |r|)] && Rd(m, r[k] + 4) == r[if k == 0 then |r| - 1 else k - 1]
  {
    assert Edge(m, LINK, r[k], r[Succ(k, |r|)]);
    var p := if k == 0 then |r| - 1 else k - 1;
    assert Edge(m, LINK, r[p], r[Succ(p, |r|)]);
  }

  lemma NodesApart(r: seq<int>, i: nat, j: nat)
    requires Spaced(r) && i < |r| && j < |r|
    ensures i != j ==> Apart(r[i], r[j])
  {
  }

  lemma SpacedInsert(r: seq<int>, k: nat, n: int)
    requires Spaced(r) && k < |r| && Off(n, r)
    ensures Spaced(InsertedAfter(r, k, n))
  {
    var s := InsertedAfter(r, k, n);
    forall i, j | 0 <= i < |s| && 0 <= j < |s| && i != j ensures Apart(s[i], s[j]) {
      var x, y := if i <= k then i else i - 1, if j <= k then j else j - 1;
      if i != k + 1 && j != k + 1 {
        assert Apart(r[x], r[y]);
      } else if i == k + 1 {
        assert Apart(r[y], n);
      } else {
        assert Apart(r[x], n);
      }
    }
  }

  lemma SpacedRemove(r: seq<int>, k: nat)
    requires Spaced(r) && k < |r|
    ensures Spaced(Without(r, k))
  {
    var s := Without(r, k);
    forall i, j | 0 <= i < |s| && 0 <= j < |s| && i != j ensures Apart(s[i], s[j]) {
      assert Apart(r[if i < k then i else i + 1], r[if j < k then j else j + 1]);
    }
  }

  /** rt_list_insert_after: n follows r[k]. */
  method InsertAfter(st: Memory, l: int, n: int, ghost r: seq<int>, ghost k: nat)
    requires IsList(st.m, r) && k < |r| && r[k] == l && Off(n, r)
    modifies st
    ensures IsList(st.m, InsertedAfter(r, k, n)) && OnlyLinks(old(st.m), st.m, r, n)
  {
    Neighbours(st.m, r, k);
    assert Apart(r[k], n) && Apart(r[Succ(k, |r|)], n);
    NodesApart(r, k, Succ(k, |r|));
    WriteInsertAfter(st, l, n);
    forall i | 0 <= i < |r|
      ensures i != k ==> Rd(st.m, r[i] + LINK) == Rd(old(st.m), r[i] + LINK)
      ensures i != Succ(k, |r|) ==> Rd(st.m, r[i] + LINK + 4) == Rd(old(st.m), r[i] + LINK + 4)
    {
      assert Apart(r[i], n);
      NodesApart(r, i, k);
      NodesApart(r, i, Succ(k, |r|));
    }
    InsertLinks(old(st.m), st.m, LINK, r, k, n);
    SpacedInsert(r, k, n);
  }

  /** rt_list_insert_before: n precedes r[Succ(k)]; before the head it becomes the last element. */
  method InsertBefore(st: Memory, l: int, n: int, ghost r: seq<int>, ghost k: nat)
    requires IsList(st.m, r) && k < |r| && r[Succ(k, |r|)] == l && Off(n, r)
    modifies st
    ensures IsList(st.m, InsertedAfter(r, k, n)) && OnlyLinks(old(st.m), st.m, r, n)
  {
    Neighbours(st.m, r, Succ(k, |r|));
    assert Apart(r[k], n) && Apart(r[Succ(k, |r|)], n);
    NodesApart(r, k, Succ(k, |r|));
    WriteInsertBefore(st, l, n);
    forall i | 0 <= i < |r|
      ensures i != k ==> Rd(st.m, r[i] + LINK) == Rd(old(st.m), r[i] + LINK)
      ensures i != Succ(k, |r|) ==> Rd(st.m, r[i] + LINK + 4) == Rd(old(st.m), r[i] + LINK + 4)
    {
      assert Apart(r[i], n);
      NodesApart(r, i, k);
      NodesApart(r, i, Succ(k, |r|));
    }
    InsertLinks(old(st.m), st.m, LINK, r, k, n);
    SpacedInsert(r, k, n);
  }

  /** What rt_list_remove's writes do to a list that has the node at k. */
  lemma AfterRemove(m: Mem, m': Mem, r: seq<int>, k: nat)
    requires IsList(m, r) && 0 < k < |r|
    requires Edge(m', LINK, r[k-1], r[Succ(k, |r|)])
    requires forall x :: x != r[k-1] && x != r[Succ(k, |r|)] + 4 && x != r[k] && x != r[k] + 4 ==> Rd(m', x) == Rd(m, x)
    ensures IsList(m', Without(r, k))
  {
    forall i | 0 <= i < |r|
      ensures i != k && i != k - 1 ==> Rd(m', r[i] + LINK) == Rd(m, r[i] + LINK)
      ensures i != k && i != Succ(k, |r|) ==> Rd(m', r[i] + LINK + 4) == Rd(m, r[i] + LINK + 4)
    {
      NodesApart(r, i, k);
      NodesApart(r, i, k - 1);
      NodesApart(r, i, Succ(k, |r|));
    }
    RemoveLinks(m, m', LINK, r, k);
    SpacedRemove(r, k);
  }

  /** rt_list_remove: n is the k-th node of r or, when k is 0, in no list; then nothing changes. */
  method Remove(st: Memory, n: int, ghost r: seq<int>, ghost k: nat)
    requires IsList(st.m, r) && k < |r| && if k == 0 then Alone(st.m, n) else r[k] == n
    modifies st
    ensures Alone(st.m, n) && OnlyLinks(old(st.m), st.m, r, n)
    ensures k == 0 ==> forall x :: Rd(st.m, x) == Rd(old(st.m), x)
    ensures k > 0 ==> IsList(st.m, Without(r, k))
  {
    if k > 0 {
      Neighbours(st.m, r, k);
      NodesApart(r, k - 1, k);
      NodesApart(r, k, Succ(k, |r|));
      NodesApart(r, k - 1, Succ(k, |r|));
    }
    WriteRemove(st, n);
    if k > 0 {
      AfterRemove(old(st.m), st.m, r, k);
    }
  }

  /** rt_list_isempty. */
  method IsEmpty(st: Memory, l: int, ghost r: seq<int>) returns (empty: bool)
    requires IsList(st.m, r) && r[0] == l
    ensures empty <==> |r| == 1
  {
    Neighbours(st.m, r, 0);
    NodesApart(r, 0, Succ(0, |r|));
    empty := Rd(st.m, l) == l;
  }

  /** rt_list_len. */
  method Len(st: Memory, l: int, ghost r: seq<int>) returns (len: nat)
    requires IsList(st.m, r) && r[0] == l
    ensures len == |r| - 1
  {
    len := 0;
    var p := l;
    Neighbours(st.m, r, 0);
    while Rd(st.m, p) != l
      invariant len < |r| && p == r[len] && Rd(st.m, p) == r[Succ(len, |r|)]
      decreases |r| - len
    {
      p := Rd(st.m, p);
      len := len + 1;
      Neighbours(st.m, r, len);
    }
    NodesApart(r, 0, Succ(len, |r|));
  }
}
