/**
 Word-addressed memory and the circular doubly linked lists the kernel threads through it.

 A memory maps a byte address to the word stored there; an address nobody has written reads
 as 0.  A list node is an object whose `next` pointer lies `off` bytes from the object's start
 and whose `prev` pointer lies 4 bytes further, so the same definitions serve `rt_list_t`
 (off 0), and the block list (off 8) and free list (off 16) of a memheap item.
 */
module Store {

  type Mem = map<int, int>

  function Rd(m: Mem, a: int): int {
    if a in m then m[a] else 0
  }

  /** The memory that the heaps of a system share. */
  class Memory {
    var m: Mem

    constructor ()
      ensures m == map[]
    {
      m := map[];
    }

    /** One word written. */
    method Put(a: int, v: int)
      modifies this
      ensures m == old(m)[a := v]
    {
      m := m[a := v];
    }
  }

  /** a's next pointer and b's prev pointer point at each other. */
  ghost predicate Edge(m: Mem, off: int, a: int, b: int) {
    Rd(m, a + off) == b && Rd(m, b + off + 4) == a
  }

  function Succ(i: nat, n: nat): nat
    requires i < n
  {
    if i + 1 == n then 0 else i + 1
  }

  /** The nodes `r`, in this order, form a circular doubly linked list. */
  ghost predicate Linked(m: Mem, off: int, r: seq<int>) {
    forall i {:trigger Edge(m, off, r[i], r[Succ(i, |r|)])} :: 0 <= i < |r| ==> Edge(m, off, r[i], r[Succ(i, |r|)])
  }

  /** Every edge of the list, except the one leaving position k, is there in memory m. */
  ghost predicate EdgesBut(m: Mem, off: int, r: seq<int>, skip: set<nat>) {
    forall i {:trigger Edge(m, off, r[i], r[Succ(i, |r|)])} :: 0 <= i < |r| && i !in skip ==> Edge(m, off, r[i], r[Succ(i, |r|)])
  }

  function Without<T>(r: seq<T>, k: nat): (s: seq<T>)
    requires k < |r|
    ensures |s| == |r| - 1
    ensures forall j {:trigger s[j]} :: 0 <= j < |s| ==> s[j] == if j < k then r[j] else r[j + 1]
  {
    r[..k] + r[k+1..]
  }

  function InsertedAfter<T>(r: seq<T>, k: nat, n: T): (s: seq<T>)
    requires k < |r|
    ensures |s| == |r| + 1
    ensures forall j {:trigger s[j]} :: 0 <= j < |s| ==> s[j] == if j <= k then r[j] else if j == k + 1 then n else r[j - 1]
  {
    r[..k+1] + [n] + r[k+1..]
  }

  lemma MemberInsert<T>(r: seq<T>, k: nat, n: T)
    requires k < |r|
    ensures forall x {:trigger x in r} :: x in r ==> x in InsertedAfter(r, k, n)
  {
    assert r == r[..k+1] + r[k+1..];
  }

  lemma MemberRemove<T>(r: seq<T>, k: nat)
    requires k < |r|
    ensures forall x {:trigger x in r} :: x in r && x != r[k] ==> x in Without(r, k)
  {
    assert r == r[..k] + [r[k]] + r[k+1..];
  }

  /** Replacing the edge that leaves r[k] by two edges through n inserts n after r[k]. */
  lemma LinkedInsert(m': Mem, off: int, r: seq<int>, k: nat, n: int)
    requires k < |r|
    requires EdgesBut(m', off, r, {k})
    requires Edge(m', off, r[k], n) && Edge(m', off, n, r[Succ(k, |r|)])
    ensures Linked(m', off, InsertedAfter(r, k, n))
  {
    var s := InsertedAfter(r, k, n);
    forall i | 0 <= i < |s|
      ensures Edge(m', off, s[i], s[Succ(i, |s|)])
    {
      if i < k {
        assert Edge(m', off, r[i], r[Succ(i, |r|)]);
      } else if i > k + 1 {
        assert Edge(m', off, r[i-1], r[Succ(i - 1, |r|)]);
      }
    }
  }

  /** Bridging the two edges around r[k] by one takes r[k] out. */
  lemma LinkedRemove(m': Mem, off: int, r: seq<int>, k: nat)
    requires 0 < k < |r|
    requires EdgesBut(m', off, r, {k - 1, k})
    requires Edge(m', off, r[k-1], r[Succ(k, |r|)])
    ensures Linked(m', off, Without(r, k))
  {
    var s := Without(r, k);
    forall i | 0 <= i < |s|
      ensures Edge(m', off, s[i], s[Succ(i, |s|)])
    {
      var j := if i < k then i else i + 1;
      if i != k - 1 {
        assert Edge(m', off, r[j], r[Succ(j, |r|)]);
      }
    }
  }

  /** Neither object's link words lie on the other's. */
  predicate Apart(a: int, b: int) {
    a != b && a + 4 != b && b + 4 != a
  }

  ghost predicate Spaced(r: seq<int>) {
    forall i, j {:trigger Apart(r[i], r[j])} :: 0 <= i < |r| && 0 <= j < |r| && i != j ==> Apart(r[i], r[j])
  }

  /** What an insertion of n after r[k] leaves alone in a list: every link word but these two. */
  ghost predicate SameLinksBut(m: Mem, m': Mem, off: int, r: seq<int>, k: nat, l: nat) {
    && (forall i :: 0 <= i < |r| && i != k ==> Rd(m', r[i] + off) == Rd(m, r[i] + off))
    && (forall i :: 0 <= i < |r| && i != l ==> Rd(m', r[i] + off + 4) == Rd(m, r[i] + off + 4))
  }

  /** The words of a list insertion: next of r[k], prev of its successor, both links of n. */
  lemma InsertLinks(m: Mem, m': Mem, off: int, r: seq<int>, k: nat, n: int)
    requires k < |r| && Linked(m, off, r)
    requires SameLinksBut(m, m', off, r, k, Succ(k, |r|))
    requires Edge(m', off, r[k], n) && Edge(m', off, n, r[Succ(k, |r|)])
    ensures Linked(m', off, InsertedAfter(r, k, n))
  {
    forall i | 0 <= i < |r| && i != k
      ensures Edge(m', off, r[i], r[Succ(i, |r|)])
    {
      assert Edge(m, off, r[i], r[Succ(i, |r|)]);
      assert Succ(i, |r|) != Succ(k, |r|);
    }
    LinkedInsert(m', off, r, k, n);
  }

  /** What the removal of r[k] leaves alone: every link word but two, and those of r[k] itself. */
  ghost predicate SameLinksAround(m: Mem, m': Mem, off: int, r: seq<int>, k: nat, l: nat) {
    && (forall i :: 0 <= i < |r| && i != k && i != k - 1 ==> Rd(m', r[i] + off) == Rd(m, r[i] + off))
    && (forall i :: 0 <= i < |r| && i != k && i != l ==> Rd(m', r[i] + off + 4) == Rd(m, r[i] + off + 4))
  }

  lemma RemoveLinks(m: Mem, m': Mem, off: int, r: seq<int>, k: nat)
    requires 0 < k < |r| && Linked(m, off, r)
    requires SameLinksAround(m, m', off, r, k, Succ(k, |r|))
    requires Edge(m', off, r[k-1], r[Succ(k, |r|)])
    ensures Linked(m', off, Without(r, k))
  {
    forall i | 0 <= i < |r| && i != k && i != k - 1
      ensures Edge(m', off, r[i], r[Succ(i, |r|)])
    {
      assert Edge(m, off, r[i], r[Succ(i, |r|)]);
      assert Succ(i, |r|) != Succ(k, |r|) && Succ(i, |r|) != k;
    }
    LinkedRemove(m', off, r, k);
  }

  ghost predicate SameLinks(m: Mem, m': Mem, off: int, r: seq<int>) {
    forall i :: 0 <= i < |r| ==> Rd(m', r[i] + off) == Rd(m, r[i] + off) && Rd(m', r[i] + off + 4) == Rd(m, r[i] + off + 4)
  }

  /** A list none of whose link words were written is still the same list. */
  lemma LinkedFrame(m: Mem, m': Mem, off: int, r: seq<int>)
    requires Linked(m, off, r) && SameLinks(m, m', off, r)
    ensures Linked(m', off, r)
  {
    forall i | 0 <= i < |r|
      ensures Edge(m', off, r[i], r[Succ(i, |r|)])
    {
      assert Edge(m, off, r[i], r[Succ(i, |r|)]);
    }
  }
}
