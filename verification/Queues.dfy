/**
 Queues of threads and timers: what the kernel's intrusive lists hold, in link order.
 */
module Queues {
  import opened Store

  /** The queue without (the first) t. */
  function Removed(q: seq<int>, t: int): (r: seq<int>)
  {
    if q == [] then []
    else if q[0] == t then q[1..]
    else [q[0]] + Removed(q[1..], t)
  }

  lemma {:induction false} RemovedAt(q: seq<int>, t: int, k: nat)
    requires k < |q| && q[k] == t && t !in q[..k]
    ensures Removed(q, t) == Without(q, k)
  {
    if k > 0 {
      assert q[1..][..k-1] == q[..k][1..];
      RemovedAt(q[1..], t, k - 1);
      assert Without(q, k) == [q[0]] + Without(q[1..], k - 1);
    }
  }

  lemma {:induction false} RemovedAbsent(q: seq<int>, t: int)
    requires t !in q
    ensures Removed(q, t) == q
  {
    if q != [] { RemovedAbsent(q[1..], t); }
  }

  ghost predicate Differ(q: seq<int>, i: nat, j: nat)
    requires i < |q| && j < |q|
  {
    q[i] != q[j]
  }

  /** Nothing is queued twice. */
  ghost predicate NoDup(q: seq<int>) {
    forall i, j {:trigger Differ(q, i, j)} :: 0 <= i < j < |q| ==> Differ(q, i, j)
  }

  lemma RemovedMembers(q: seq<int>, t: int)
    requires NoDup(q)
    ensures NoDup(Removed(q, t))
    ensures forall x {:trigger x in q} {:trigger x in Removed(q, t)} :: x in Removed(q, t) <==> x in q && x != t
  {
    if t in q {
      var k :| 0 <= k < |q| && q[k] == t;
      forall i | 0 <= i < |q| && i != k ensures q[i] != t {
        assert Differ(q, if i < k then i else k, if i < k then k else i);
      }
      RemovedAt(q, t, k);
      MemberRemove(q, k);
      var r := Without(q, k);
      forall i, j | 0 <= i < j < |r| ensures Differ(r, i, j) {
        assert Differ(q, if i < k then i else i + 1, if j < k then j else j + 1);
      }
      assert forall i :: 0 <= i < |r| ==> r[i] != t;
      assert forall x :: x in r ==> x in q;
    } else {
      RemovedAbsent(q, t);
    }
  }

  lemma {:induction false} RemovedAppend(q: seq<int>, x: int, t: int)
    requires x != t
    ensures Removed(q + [x], t) == Removed(q, t) + [x]
  {
    if q == [] {
      assert q + [x] == [x];
    } else {
      assert (q + [x])[1..] == q[1..] + [x];
      RemovedAppend(q[1..], x, t);
    }
  }

  /** x put in at position i. */
  function Put(q: seq<int>, i: nat, x: int): seq<int>
    requires i <= |q|
  {
    q[..i] + [x] + q[i..]
  }

  lemma PutMembers(q: seq<int>, i: nat, x: int)
    requires NoDup(q) && i <= |q| && x !in q
    ensures NoDup(Put(q, i, x))
    ensures forall y {:trigger y in q} {:trigger y in Put(q, i, x)} :: y in Put(q, i, x) <==> y in q || y == x
  {
    var r := Put(q, i, x);
    forall j, k | 0 <= j < k < |r| ensures Differ(r, j, k) {
      if j != i && k != i {
        assert Differ(q, if j < i then j else j - 1, if k < i then k else k - 1);
      }
    }
    assert q == q[..i] + q[i..];
  }

  lemma AppendMembers(q: seq<int>, x: int)
    requires NoDup(q) && x !in q
    ensures NoDup(q + [x])
    ensures forall y {:trigger y in q} {:trigger y in q + [x]} :: y in q + [x] <==> y in q || y == x
  {
    var r := q + [x];
    forall j, k | 0 <= j < k < |r| ensures Differ(r, j, k) {
      if k < |q| { assert Differ(q, j, k); }
    }
  }

  /** a can be read off b by leaving timers out. */
  ghost predicate Subsequence(a: seq<int>, b: seq<int>) {
    if a == [] then true
    else if b == [] then false
    else if a[0] == b[0] then Subsequence(a[1..], b[1..])
    else Subsequence(a, b[1..])
  }

  lemma {:induction false} SubsequenceRefl(a: seq<int>)
    ensures Subsequence(a, a)
  {
    if a != [] { SubsequenceRefl(a[1..]); }
  }

  lemma {:induction false} SubsequenceDrop(a: seq<int>, b: seq<int>)
    requires Subsequence(a, b)
    ensures a != [] ==> Subsequence(a[1..], b)
    ensures |a| <= |b|
    decreases |b|
  {
    if a != [] {
      if a[0] == b[0] {
        SubsequenceDrop(a[1..], b[1..]);
      } else {
        SubsequenceDrop(a, b[1..]);
        if |a| > 1 && a[1] == b[0] {
          SubsequenceDrop(a[1..], b[1..]);
        }
      }
    }
  }

  lemma {:induction false} SubsequenceTrans(a: seq<int>, b: seq<int>, c: seq<int>)
    requires Subsequence(a, b) && Subsequence(b, c)
    ensures Subsequence(a, c)
    decreases |b| + |c|
  {
    if a != [] {
      if b[0] == c[0] {
        if a[0] == b[0] {
          SubsequenceTrans(a[1..], b[1..], c[1..]);
        } else {
          SubsequenceTrans(a, b[1..], c[1..]);
        }
      } else {
        SubsequenceTrans(a, b, c[1..]);
        if a[0] == c[0] {
          SubsequenceDrop(a, c[1..]);
        }
      }
    }
  }

  lemma {:induction false} RemovedSubsequence(a: seq<int>, t: int)
    ensures Subsequence(Removed(a, t), a)
  {
    if a != [] {
      if a[0] == t {
        SubsequenceRefl(a[1..]);
        if |a| > 1 && a[1] == t { SubsequenceDrop(a[1..], a[1..]); }
      } else {
        RemovedSubsequence(a[1..], t);
      }
    }
  }

  lemma {:induction false} SubsequenceMember(a: seq<int>, b: seq<int>, x: int)
    requires Subsequence(a, b) && x in a
    ensures x in b
    decreases |b|
  {
    assert b == [b[0]] + b[1..];
    if a[0] == b[0] {
      assert a == [a[0]] + a[1..];
      if x in a[1..] { SubsequenceMember(a[1..], b[1..], x); }
    } else {
      SubsequenceMember(a, b[1..], x);
    }
  }

  lemma TailNoDup(q: seq<int>)
    requires NoDup(q) && q != []
    ensures NoDup(q[1..]) && q[0] !in q[1..]
  {
    forall i, j | 0 <= i < j < |q| - 1 ensures Differ(q[1..], i, j) { assert Differ(q, i + 1, j + 1); }
    forall i | 0 <= i < |q| - 1 ensures q[1..][i] != q[0] { assert Differ(q, 0, i + 1); }
  }
}
