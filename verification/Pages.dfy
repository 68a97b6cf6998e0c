/**
 The page allocator of rt-thread/src/slab.c:236-345.  Addresses are counted in pages; page 0 is the
 null pointer.  The first page of a free run holds its header: the next run and the length.
 */
module Pages {
  import Store

  datatype Run = Run(start: int, n: nat)

  /** The runs in address order, none empty, none touching the next one. */
  ghost predicate Sorted(rs: seq<Run>) {
    rs == [] || (rs[0].start > 0 && rs[0].n > 0 && (|rs| > 1 ==> rs[0].start + rs[0].n < rs[1].start) && Sorted(rs[1..]))
  }

  /** Page p lies in one of the runs. */
  ghost predicate Covers(rs: seq<Run>, p: int) {
    rs != [] && (rs[0].start <= p < rs[0].start + rs[0].n || Covers(rs[1..], p))
  }

  // ----- what the operations do to the list

  /** rt_page_alloc takes the first run that is long enough, from its front. */
  function AllocStart(rs: seq<Run>, npages: nat): int {
    if rs == [] then 0 else if rs[0].n >= npages then rs[0].start else AllocStart(rs[1..], npages)
  }

  function AllocRest(rs: seq<Run>, npages: nat): seq<Run> {
    if rs == [] then []
    else if rs[0].n > npages then [Run(rs[0].start + npages, rs[0].n - npages)] + rs[1..]
    else if rs[0].n == npages then rs[1..]
    else [rs[0]] + AllocRest(rs[1..], npages)
  }

  /** rt_page_free merges the pages with the runs they touch. */
  function Freed(rs: seq<Run>, a: int, npages: nat): seq<Run> {
    if rs == [] then [Run(a, npages)]
    else if rs[0].start + rs[0].n == a then
      if |rs| > 1 && a + npages == rs[1].start then [Run(rs[0].start, rs[0].n + npages + rs[1].n)] + rs[2..]
      else [Run(rs[0].start, rs[0].n + npages)] + rs[1..]
    else if rs[0].start == a + npages then [Run(a, npages + rs[0].n)] + rs[1..]
    else if rs[0].start > a + npages then [Run(a, npages)] + rs
    else [rs[0]] + Freed(rs[1..], a, npages)
  }

  lemma {:induction false} AllBehind(rs: seq<Run>, p: int)
    requires Sorted(rs) && Covers(rs, p)
    ensures rs[0].start <= p
    decreases |rs|
  {
    if !(rs[0].start <= p < rs[0].start + rs[0].n) { AllBehind(rs[1..], p); }
  }

  /** An allocation keeps the list sorted and takes exactly the pages it returns. */
  lemma {:induction false} AllocKeeps(rs: seq<Run>, npages: nat, p: int)
    requires Sorted(rs) && npages > 0
    ensures Sorted(AllocRest(rs, npages))
    ensures var a := AllocStart(rs, npages);
      && (a == 0 ==> AllocRest(rs, npages) == rs)
      && (a != 0 && a <= p < a + npages ==> Covers(rs, p) && !Covers(AllocRest(rs, npages), p))
      && (!(a != 0 && a <= p < a + npages) ==> (Covers(AllocRest(rs, npages), p) <==> Covers(rs, p)))
    ensures AllocRest(rs, npages) != [] ==> rs != [] && AllocRest(rs, npages)[0].start >= rs[0].start
    decreases |rs|
  {
    if rs != [] {
      var b := rs[0];
      if b.n > npages {
        var r := AllocRest(rs, npages);
        assert r[1..] == rs[1..];
        if Covers(rs[1..], p) { AllBehind(rs[1..], p); }
      } else if b.n == npages {
        if Covers(rs[1..], p) { AllBehind(rs[1..], p); }
      } else {
        AllocKeeps(rs[1..], npages, p);
        var r := AllocRest(rs, npages);
        assert r[1..] == AllocRest(rs[1..], npages);
        AllocWithin(rs[1..], npages);
      }
    }
  }

  lemma {:induction false} AllocWithin(rs: seq<Run>, npages: nat)
    requires Sorted(rs)
    ensures AllocStart(rs, npages) != 0 ==> rs != [] && rs[0].start <= AllocStart(rs, npages)
    decreases |rs|
  {
    if rs != [] && rs[0].n < npages { AllocWithin(rs[1..], npages); }
  }

  /** rt_page_alloc fails exactly when no run is long enough. */
  lemma {:induction false} AllocFails(rs: seq<Run>, npages: nat)
    requires Sorted(rs)
    ensures AllocStart(rs, npages) == 0 <==> forall i {:trigger rs[i]} :: 0 <= i < |rs| ==> rs[i].n < npages
    decreases |rs|
  {
    if rs != [] {
      AllocFails(rs[1..], npages);
      assert rs[0].n >= npages ==> AllocStart(rs, npages) == rs[0].start;
      forall i {:trigger rs[i]} | 0 <= i < |rs| && rs[0].n < npages ensures rs[i].n < npages <==> (i == 0 || rs[1..][i - 1].n < npages) {}
      if forall i {:trigger rs[i]} :: 0 <= i < |rs| ==> rs[i].n < npages {
        forall i | 0 <= i < |rs| - 1 ensures rs[1..][i].n < npages { assert rs[i + 1].n < npages; }
      }
    }
  }

  /** Otherwise the pages are the first ones of the first run that is long enough. */
  lemma {:induction false} AllocFirst(rs: seq<Run>, npages: nat) returns (i: nat)
    requires Sorted(rs) && AllocStart(rs, npages) != 0
    ensures i < |rs| && rs[i].n >= npages && AllocStart(rs, npages) == rs[i].start
    ensures forall j {:trigger rs[j]} :: 0 <= j < i ==> rs[j].n < npages
    decreases |rs|
  {
    if rs[0].n >= npages {
      i := 0;
    } else {
      var k := AllocFirst(rs[1..], npages);
      i := k + 1;
      forall j | 0 <= j < i ensures rs[j].n < npages { if j > 0 { assert rs[j] == rs[1..][j-1]; } }
    }
  }

  /** None of the pages is free. */
  ghost predicate Taken(rs: seq<Run>, a: int, npages: nat) {
    forall p {:trigger Covers(rs, p)} :: a <= p < a + npages ==> !Covers(rs, p)
  }

  /** Freeing pages that are not free keeps the list sorted and without touching runs, and adds exactly those pages. */
  lemma {:induction false} FreedKeeps(rs: seq<Run>, a: int, npages: nat, p: int)
    requires Sorted(rs) && a > 0 && npages > 0 && Taken(rs, a, npages)
    ensures Sorted(Freed(rs, a, npages))
    ensures Covers(Freed(rs, a, npages), p) <==> Covers(rs, p) || a <= p < a + npages
    ensures rs == [] || Freed(rs, a, npages)[0].start == rs[0].start || Freed(rs, a, npages)[0].start == a
    decreases |rs|
  {
    if rs != [] {
      var b, r := rs[0], Freed(rs, a, npages);
      assert a <= b.start < a + npages ==> Covers(rs, b.start);
      assert b.start <= a < b.start + b.n ==> Covers(rs, a);
      TakenTail(rs, a, npages);
      if b.start + b.n == a {
        if |rs| > 1 {
          assert Covers(rs[1..], rs[1].start);
          assert Covers(rs, rs[1].start);
          if a + npages == rs[1].start { assert r[1..] == rs[2..]; } else { assert r[1..] == rs[1..]; }
        } else {
          assert r[1..] == rs[1..];
        }
      } else if b.start == a + npages {
        assert r[1..] == rs[1..];
      } else if b.start > a + npages {
        assert r[1..] == rs;
      } else {
        FreedKeeps(rs[1..], a, npages, p);
        assert r[1..] == Freed(rs[1..], a, npages);
      }
    }
  }

  lemma TakenTail(rs: seq<Run>, a: int, npages: nat)
    requires rs != [] && Taken(rs, a, npages)
    ensures Taken(rs[1..], a, npages)
  {
    forall p | a <= p < a + npages ensures !Covers(rs[1..], p) { assert !Covers(rs, p); }
  }

  lemma {:induction false} StartsApart(rs: seq<Run>, i: nat, j: nat)
    requires Sorted(rs) && i < j < |rs|
    ensures rs[i].start + rs[i].n < rs[j].start && rs[i].n > 0 && rs[i].start > 0
  {
    if i > 0 {
      StartsApart(rs[1..], i - 1, j - 1);
    } else if j > 1 {
      StartsApart(rs[1..], 0, j - 1);
    }
  }

  lemma {:induction false} RunPositive(rs: seq<Run>, i: nat)
    requires Sorted(rs) && i < |rs|
    ensures rs[i].n > 0 && rs[i].start > 0
  {
    if i > 0 { RunPositive(rs[1..], i - 1); }
  }

  // ----- the list in memory

  function StartOr0(rs: seq<Run>, i: nat): int {
    if i < |rs| then rs[i].start else 0
  }

  ghost predicate HeadAt(next: map<int, int>, page: map<int, int>, rs: seq<Run>, i: nat)
    requires i < |rs|
  {
    Store.Rd(next, rs[i].start) == StartOr0(rs, i + 1) && Store.Rd(page, rs[i].start) == rs[i].n
  }

  ghost predicate Rep(list: int, next: map<int, int>, page: map<int, int>, rs: seq<Run>) {
    list == StartOr0(rs, 0) && forall i {:trigger HeadAt(next, page, rs, i)} :: 0 <= i < |rs| ==> HeadAt(next, page, rs, i)
  }

  /** The link that leads to position i: the list head or the previous run's next word. */
  function Linked(list: int, next: map<int, int>, rs: seq<Run>, i: nat, x: int): (int, map<int, int>)
    requires i <= |rs|
  {
    if i == 0 then (x, next) else (list, next[rs[i - 1].start := x])
  }

  /** No run but the i-th starts at a. */
  ghost predicate OnlyAt(rs: seq<Run>, i: nat, a: int) {
    forall j {:trigger rs[j]} :: 0 <= j < |rs| && j != i ==> rs[j].start != a
  }

  /** Run i replaced by r, whose header was written, and linked. */
  lemma RepReplace(list: int, next: map<int, int>, page: map<int, int>, rs: seq<Run>, i: nat, r: Run)
    requires Rep(list, next, page, rs) && Sorted(rs) && i < |rs| && OnlyAt(rs, i, r.start)
    ensures var l := Linked(list, next[r.start := StartOr0(rs, i + 1)], rs, i, r.start);
      Rep(l.0, l.1, page[r.start := r.n], rs[i := r])
  {
    var l, rs' := Linked(list, next[r.start := StartOr0(rs, i + 1)], rs, i, r.start), rs[i := r];
    var next', page' := l.1, page[r.start := r.n];
    forall j | 0 <= j < |rs'| ensures HeadAt(next', page', rs', j) {
      assert HeadAt(next, page, rs, j) && (j != i ==> rs[j].start != r.start);
      if i > 0 && j != i - 1 { StartsApart(rs, if j < i - 1 then j else i - 1, if j < i - 1 then i - 1 else j); }
      assert i > 0 ==> rs[i - 1].start != r.start;
    }
  }

  lemma InsideOnly(rs: seq<Run>, i: nat, a: int)
    requires Sorted(rs) && i < |rs| && rs[i].start <= a < rs[i].start + rs[i].n
    ensures OnlyAt(rs, i, a)
  {
    forall j | 0 <= j < |rs| && j != i ensures rs[j].start != a {
      StartsApart(rs, if j < i then j else i, if j < i then i else j);
    }
  }

  /** The length of run i changed. */
  lemma RepGrow(list: int, next: map<int, int>, page: map<int, int>, rs: seq<Run>, i: nat, n: nat)
    requires Rep(list, next, page, rs) && Sorted(rs) && i < |rs|
    ensures Rep(list, next, page[rs[i].start := n], rs[i := Run(rs[i].start, n)])
  {
    var rs', page' := rs[i := Run(rs[i].start, n)], page[rs[i].start := n];
    forall j | 0 <= j < |rs'| ensures HeadAt(next, page', rs', j) {
      assert HeadAt(next, page, rs, j);
      if j != i { StartsApart(rs, if j < i then j else i, if j < i then i else j); }
    }
  }

  /** Run i made to reach over run i + 1, which is unlinked. */
  lemma RepMerge(list: int, next: map<int, int>, page: map<int, int>, rs: seq<Run>, i: nat, n: nat)
    requires Rep(list, next, page, rs) && Sorted(rs) && i + 1 < |rs|
    ensures Rep(list, next[rs[i].start := StartOr0(rs, i + 2)], page[rs[i].start := n], rs[..i] + [Run(rs[i].start, n)] + rs[i + 2..])
  {
    var rs' := rs[..i] + [Run(rs[i].start, n)] + rs[i + 2..];
    var next', page' := next[rs[i].start := StartOr0(rs, i + 2)], page[rs[i].start := n];
    forall j | 0 <= j < |rs'| ensures HeadAt(next', page', rs', j) {
      var k := if j <= i then j else j + 1;
      assert HeadAt(next, page, rs, k);
      if k != i { StartsApart(rs, if k < i then k else i, if k < i then i else k); }
    }
  }

  /** Run i unlinked. */
  lemma RepRemove(list: int, next: map<int, int>, page: map<int, int>, rs: seq<Run>, i: nat)
    requires Rep(list, next, page, rs) && Sorted(rs) && i < |rs|
    ensures var l := Linked(list, next, rs, i, StartOr0(rs, i + 1)); Rep(l.0, l.1, page, rs[..i] + rs[i + 1..])
  {
    var l, rs' := Linked(list, next, rs, i, StartOr0(rs, i + 1)), rs[..i] + rs[i + 1..];
    forall j | 0 <= j < |rs'| ensures HeadAt(l.1, page, rs', j) {
      var k := if j < i then j else j + 1;
      assert HeadAt(next, page, rs, k);
      if i > 0 && k != i - 1 { StartsApart(rs, if k < i - 1 then k else i - 1, if k < i - 1 then i - 1 else k); }
    }
  }

  /** A run linked in at position i. */
  lemma RepInsert(list: int, next: map<int, int>, page: map<int, int>, rs: seq<Run>, i: nat, r: Run)
    requires Rep(list, next, page, rs) && Sorted(rs) && i <= |rs|
    requires forall j {:trigger rs[j]} :: 0 <= j < |rs| ==> rs[j].start != r.start
    ensures var l := Linked(list, next[r.start := StartOr0(rs, i)], rs, i, r.start);
      Rep(l.0, l.1, page[r.start := r.n], rs[..i] + [r] + rs[i..])
  {
    var l, rs' := Linked(list, next[r.start := StartOr0(rs, i)], rs, i, r.start), rs[..i] + [r] + rs[i..];
    var next', page' := l.1, page[r.start := r.n];
    forall j | 0 <= j < |rs'| ensures HeadAt(next', page', rs', j) {
      if j < i {
        InsertBefore(next, page, rs, i, r, j);
      } else if j > i {
        InsertBehind(next, page, rs, i, r, j - 1);
      } else {
        InsertHere(list, next, page, rs, i, r);
      }
    }
  }

  lemma InsertHere(list: int, next: map<int, int>, page: map<int, int>, rs: seq<Run>, i: nat, r: Run)
    requires i <= |rs| && (i > 0 ==> rs[i - 1].start != r.start)
    ensures var l := Linked(list, next[r.start := StartOr0(rs, i)], rs, i, r.start);
      HeadAt(l.1, page[r.start := r.n], rs[..i] + [r] + rs[i..], i)
  {
    assert StartOr0(rs[..i] + [r] + rs[i..], i + 1) == StartOr0(rs, i);
  }

  lemma InsertBefore(next: map<int, int>, page: map<int, int>, rs: seq<Run>, i: nat, r: Run, j: nat)
    requires j < i <= |rs| && Sorted(rs) && HeadAt(next, page, rs, j) && rs[j].start != r.start
    ensures HeadAt(next[r.start := StartOr0(rs, i)][rs[i - 1].start := r.start], page[r.start := r.n], rs[..i] + [r] + rs[i..], j)
  {
    var rs' := rs[..i] + [r] + rs[i..];
    assert rs'[j] == rs[j] && rs'[j + 1] == if j + 1 < i then rs[j + 1] else r;
    if j < i - 1 { StartsApart(rs, j, i - 1); }
  }

  lemma InsertBehind(next: map<int, int>, page: map<int, int>, rs: seq<Run>, i: nat, r: Run, k: nat)
    requires i <= k < |rs| && Sorted(rs) && HeadAt(next, page, rs, k) && rs[k].start != r.start
    ensures var l := Linked(0, next[r.start := StartOr0(rs, i)], rs, i, r.start);
      HeadAt(l.1, page[r.start := r.n], rs[..i] + [r] + rs[i..], k + 1)
  {
    var rs' := rs[..i] + [r] + rs[i..];
    assert rs'[k + 1] == rs[k] && StartOr0(rs', k + 2) == StartOr0(rs, k + 1);
    if i > 0 { StartsApart(rs, i - 1, k); }
  }

  class PageAllocator {
    const lo: int
    const hi: int
    var list: int                // rt_page_list
    var next: map<int, int>      // the headers' fields
    var page: map<int, int>
    ghost var runs: seq<Run>
    ghost var out: set<int>      // the pages handed out

    /** The list is sorted and without touching runs, and every page of the region is either free or handed out. */
    ghost predicate Valid()
      reads this
    {
      && 0 < lo < hi && Rep(list, next, page, runs) && Sorted(runs)
      && (forall p {:trigger Covers(runs, p)} {:trigger p in out} :: Covers(runs, p) <==> lo <= p < hi && p !in out)
      && (forall p {:trigger p in out} :: p in out ==> lo <= p < hi)
    }

    /** rt_page_init. */
    constructor (addr: int, npages: nat)
      requires addr > 0 && npages > 0
      ensures Valid() && lo == addr && hi == addr + npages && out == {} && runs == [Run(addr, npages)]
    {
      lo, hi := addr, addr + npages;
      list, next, page := addr, map[addr := 0], map[addr := npages];
      runs, out := [Run(addr, npages)], {};
      new;
      assert forall p :: Covers(runs, p) <==> addr <= p < addr + npages;
    }

    /** The assignment through the pointer `prev`. */
    method SetLink(prev: int, x: int, ghost rs: seq<Run>, ghost i: nat)
      requires i <= |rs| && prev == (if i == 0 then 0 else rs[i - 1].start) && (i > 0 ==> prev != 0)
      modifies this`list, this`next
      ensures (list, next) == Linked(old(list), old(next), rs, i, x)
    {
      if prev == 0 {
        list := x;
      } else {
        next := next[prev := x];
      }
    }

    /** The loop of rt_page_alloc. */
    method Take(npages: nat) returns (b: int)
      requires Rep(list, next, page, runs) && Sorted(runs) && npages > 0
      modifies this`list, this`next, this`page, this`runs
      ensures Rep(list, next, page, runs)
      ensures b == AllocStart(old(runs), npages) && runs == AllocRest(old(runs), npages)
    {
      ghost var rs, i := runs, 0;
      var prev := 0;
      b := list;
      assert rs[0..] == rs;
      while b != 0
        invariant i <= |rs| && b == StartOr0(rs, i) && prev == (if i == 0 then 0 else rs[i - 1].start) && (i > 0 ==> prev != 0)
        invariant AllocStart(rs, npages) == AllocStart(rs[i..], npages)
        invariant AllocRest(rs, npages) == rs[..i] + AllocRest(rs[i..], npages)
        invariant Rep(list, next, page, rs)
        decreases |rs| - i
      {
        assert HeadAt(next, page, rs, i);
        RunPositive(rs, i);
        AllocStep(rs, i, npages);
        if Store.Rd(page, b) > npages {
          Split(prev, b, npages, rs, i);
          runs := AllocRest(rs, npages);
          return;
        }
        if Store.Rd(page, b) == npages {
          RepRemove(list, next, page, rs, i);
          SetLink(prev, Store.Rd(next, b), rs, i);
          runs := AllocRest(rs, npages);
          return;
        }
        prev := b;
        b := Store.Rd(next, b);
        i := i + 1;
      }
      EndOfRuns(rs, i);
      assert rs[..i] + [] == rs;
      runs := AllocRest(rs, npages);
    }

    /** The branch of rt_page_alloc that splits a run. */
    method Split(prev: int, b: int, npages: nat, ghost rs: seq<Run>, ghost i: nat)
      requires i < |rs| && Rep(list, next, page, rs) && Sorted(rs) && b == rs[i].start && rs[i].n > npages > 0
      requires prev == (if i == 0 then 0 else rs[i - 1].start) && (i > 0 ==> prev != 0)
      modifies this`list, this`next, this`page
      ensures Rep(list, next, page, rs[i := Run(b + npages, rs[i].n - npages)])
    {
      assert HeadAt(next, page, rs, i);
      InsideOnly(rs, i, b + npages);
      RepReplace(list, next, page, rs, i, Run(b + npages, rs[i].n - npages));
      var n := b + npages;
      next := next[n := Store.Rd(next, b)];
      page := page[n := Store.Rd(page, b) - npages];
      SetLink(prev, n, rs, i);
    }

    /** rt_page_alloc. */
    method Alloc(npages: nat) returns (b: int)
      requires Valid()
      modifies this`list, this`next, this`page, this`runs, this`out
      ensures Valid()
      ensures npages == 0 ==> b == 0 && runs == old(runs)
      ensures npages > 0 ==> b == AllocStart(old(runs), npages) && runs == AllocRest(old(runs), npages)
      ensures out == if b == 0 then old(out) else old(out) + PageSet(b, npages)
      ensures b != 0 ==> old(out) !! PageSet(b, npages) && lo <= b && b + npages <= hi
    {
      b := 0;
      if npages == 0 {
        return;
      }
      AllocPages(runs, npages);
      AllocRegion(runs, npages, lo, hi, out);
      b := Take(npages);
      out := out + if b == 0 then {} else PageSet(b, npages);
    }

    /** The loop of rt_page_free. */
    method Give(n: int, npages: nat)
      requires Rep(list, next, page, runs) && Sorted(runs) && n > 0 && npages > 0 && Taken(runs, n, npages)
      modifies this`list, this`next, this`page, this`runs
      ensures Rep(list, next, page, runs) && runs == Freed(old(runs), n, npages)
    {
      ghost var rs, i := runs, 0;
      var prev, b := 0, list;
      assert rs[0..] == rs;
      while b != 0
        invariant i <= |rs| && b == StartOr0(rs, i) && prev == (if i == 0 then 0 else rs[i - 1].start) && (i > 0 ==> prev != 0)
        invariant Freed(rs, n, npages) == rs[..i] + Freed(rs[i..], n, npages)
        invariant Rep(list, next, page, rs) && runs == rs
        decreases |rs| - i
      {
        assert HeadAt(next, page, rs, i);
        RunPositive(rs, i);
        FreeStep(rs, i, n, npages);
        if b + Store.Rd(page, b) == n {
          Extend(b, npages, rs, i);
          runs := Freed(rs, n, npages);
          return;
        }
        if b == n + npages {
          Precede(prev, b, n, npages, rs, i);
          runs := Freed(rs, n, npages);
          return;
        }
        if b > n + npages {
          break;
        }
        prev, b, i := b, Store.Rd(next, b), i + 1;
      }
      FreeEnd(rs, i, n, npages);
      Insert(prev, b, n, npages, rs, i);
      runs := Freed(rs, n, npages);
    }

    /** The branch that merges the pages with run b behind them. */
    method Precede(prev: int, b: int, n: int, npages: nat, ghost rs: seq<Run>, ghost i: nat)
      requires i < |rs| && Rep(list, next, page, rs) && Sorted(rs) && b == rs[i].start && npages > 0 && Taken(rs, n, npages)
      requires prev == (if i == 0 then 0 else rs[i - 1].start) && (i > 0 ==> prev != 0)
      modifies this`list, this`next, this`page
      ensures Rep(list, next, page, rs[i := Run(n, npages + rs[i].n)])
    {
      TakenStarts(rs, n, npages);
      assert HeadAt(next, page, rs, i);
      RepReplace(list, next, page, rs, i, Run(n, npages + rs[i].n));
      page := page[n := Store.Rd(page, b) + npages];
      next := next[n := Store.Rd(next, b)];
      SetLink(prev, n, rs, i);
    }

    /** The statements behind the loop: the pages become a run of their own. */
    method Insert(prev: int, b: int, n: int, npages: nat, ghost rs: seq<Run>, ghost i: nat)
      requires i <= |rs| && Rep(list, next, page, rs) && Sorted(rs) && b == StartOr0(rs, i) && npages > 0 && Taken(rs, n, npages)
      requires prev == (if i == 0 then 0 else rs[i - 1].start) && (i > 0 ==> prev != 0)
      modifies this`list, this`next, this`page
      ensures Rep(list, next, page, rs[..i] + [Run(n, npages)] + rs[i..])
    {
      TakenStarts(rs, n, npages);
      RepInsert(list, next, page, rs, i, Run(n, npages));
      page := page[n := npages];
      next := next[n := b];
      SetLink(prev, n, rs, i);
    }

    /** The branch of rt_page_free that extends run b, and merges it with the next one if it reaches it. */
    method Extend(b: int, npages: nat, ghost rs: seq<Run>, ghost i: nat)
      requires i < |rs| && Rep(list, next, page, rs) && Sorted(rs) && b == rs[i].start && npages > 0
      modifies this`next, this`page
      ensures Rep(list, next, page, Extended(rs, i, npages))
    {
      assert HeadAt(next, page, rs, i);
      RunPositive(rs, i);
      RepGrow(list, next, page, rs, i, rs[i].n + npages);
      ghost var page0 := page;
      page := page[b := Store.Rd(page, b) + npages];
      if b + Store.Rd(page, b) == Store.Rd(next, b) {
        assert HeadAt(next, page0, rs, i + 1);
        StartsApart(rs, i, i + 1);
        RepMerge(list, next, page0, rs, i, rs[i].n + npages + rs[i + 1].n);
        var m := Store.Rd(next, b);
        page := page[b := Store.Rd(page, b) + Store.Rd(page, m)];
        next := next[b := Store.Rd(next, m)];
        assert page == page0[b := rs[i].n + npages + rs[i + 1].n];
      }
    }

    /** rt_page_free of pages that are handed out. */
    method Free(addr: int, npages: nat)
      requires Valid() && npages > 0 && PageSet(addr, npages) <= out
      modifies this`list, this`next, this`page, this`runs, this`out
      ensures Valid() && runs == Freed(old(runs), addr, npages) && out == old(out) - PageSet(addr, npages)
    {
      assert addr in PageSet(addr, npages);
      forall p | addr <= p < addr + npages ensures !Covers(runs, p) { assert p in PageSet(addr, npages); }
      FreedPages(runs, addr, npages);
      ghost var rs, out0, s := runs, out, PageSet(addr, npages);
      Give(addr, npages);
      out := out - s;
      forall p ensures Covers(runs, p) <==> lo <= p < hi && p !in out {
        assert Covers(rs, p) <==> lo <= p < hi && p !in out0;
        assert p in s ==> p in out0;
      }
    }
  }

  /** The four branches of rt_page_free at run i. */
  ghost function FreeAt(rs: seq<Run>, i: nat, a: int, npages: nat): seq<Run>
    requires i < |rs|
  {
    var b := rs[i];
    if b.start + b.n == a then Extended(rs, i, npages)
    else if b.start == a + npages then rs[i := Run(a, npages + b.n)]
    else if b.start > a + npages then rs[..i] + [Run(a, npages)] + rs[i..]
    else rs[..i + 1] + Freed(rs[i + 1..], a, npages)
  }

  /** Run i extended by npages, and by the next run if it then touches that. */
  ghost function Extended(rs: seq<Run>, i: nat, npages: nat): seq<Run>
    requires i < |rs|
  {
    var b := rs[i];
    if i + 1 < |rs| && b.start + b.n + npages == rs[i + 1].start then rs[..i] + [Run(b.start, b.n + npages + rs[i + 1].n)] + rs[i + 2..]
    else rs[i := Run(b.start, b.n + npages)]
  }

  lemma FreeStep(rs: seq<Run>, i: nat, a: int, npages: nat)
    requires i < |rs| && Freed(rs, a, npages) == rs[..i] + Freed(rs[i..], a, npages)
    ensures Freed(rs, a, npages) == FreeAt(rs, i, a, npages)
  {
    var b := rs[i];
    assert rs[i..][0] == b && rs[i..][1..] == rs[i + 1..];
    if b.start + b.n == a {
      FreeExtends(rs, i, a, npages);
    } else if b.start == a + npages {
      assert rs[..i] + ([Run(a, npages + b.n)] + rs[i + 1..]) == rs[i := Run(a, npages + b.n)];
    } else if b.start > a + npages {
      assert rs[..i] + ([Run(a, npages)] + rs[i..]) == rs[..i] + [Run(a, npages)] + rs[i..];
    } else {
      assert rs[..i] + ([b] + Freed(rs[i + 1..], a, npages)) == rs[..i + 1] + Freed(rs[i + 1..], a, npages);
    }
  }

  lemma FreeExtends(rs: seq<Run>, i: nat, a: int, npages: nat)
    requires i < |rs| && rs[i].start + rs[i].n == a
    ensures rs[..i] + Freed(rs[i..], a, npages) == Extended(rs, i, npages)
  {
    var t, b := rs[i..], rs[i];
    assert t[0] == b && t[1..] == rs[i + 1..];
    if i + 1 < |rs| && a + npages == rs[i + 1].start {
      var r := Run(b.start, b.n + npages + rs[i + 1].n);
      assert t[1] == rs[i + 1] && t[2..] == rs[i + 2..];
      assert rs[..i] + ([r] + rs[i + 2..]) == rs[..i] + [r] + rs[i + 2..];
    } else {
      assert rs[..i] + ([Run(b.start, b.n + npages)] + rs[i + 1..]) == rs[i := Run(b.start, b.n + npages)];
    }
  }

  lemma FreeEnd(rs: seq<Run>, i: nat, a: int, npages: nat)
    requires Sorted(rs) && i <= |rs| && Freed(rs, a, npages) == rs[..i] + Freed(rs[i..], a, npages)
    requires StartOr0(rs, i) == 0 || (i < |rs| && rs[i].start > a + npages && rs[i].start + rs[i].n != a)
    ensures Freed(rs, a, npages) == rs[..i] + [Run(a, npages)] + rs[i..]
  {
    if StartOr0(rs, i) == 0 {
      EndOfRuns(rs, i);
    } else {
      FreeStep(rs, i, a, npages);
    }
  }

  /** The pages to be freed are no run's first page. */
  lemma TakenStarts(rs: seq<Run>, a: int, npages: nat)
    requires Sorted(rs) && npages > 0 && Taken(rs, a, npages)
    ensures forall j {:trigger rs[j]} :: 0 <= j < |rs| ==> rs[j].start != a
  {
    forall j | 0 <= j < |rs| ensures rs[j].start != a {
      RunCovers(rs, j);
      assert Covers(rs, rs[j].start);
    }
  }

  lemma {:induction false} RunCovers(rs: seq<Run>, j: nat)
    requires Sorted(rs) && j < |rs|
    ensures Covers(rs, rs[j].start)
  {
    if j > 0 { RunCovers(rs[1..], j - 1); }
  }

  lemma FreedPages(rs: seq<Run>, a: int, npages: nat)
    requires Sorted(rs) && a > 0 && npages > 0 && Taken(rs, a, npages)
    ensures Sorted(Freed(rs, a, npages))
    ensures forall p {:trigger Covers(Freed(rs, a, npages), p)} :: Covers(Freed(rs, a, npages), p) <==> Covers(rs, p) || a <= p < a + npages
  {
    forall p ensures Covers(Freed(rs, a, npages), p) <==> Covers(rs, p) || a <= p < a + npages {
      FreedKeeps(rs, a, npages, p);
    }
    FreedKeeps(rs, a, npages, a);
  }

  lemma EndOfRuns(rs: seq<Run>, i: nat)
    requires Sorted(rs) && i <= |rs| && StartOr0(rs, i) == 0
    ensures i == |rs|
  {
    if i < |rs| { RunPositive(rs, i); }
  }

  lemma AllocRegion(rs: seq<Run>, npages: nat, lo: int, hi: int, out: set<int>)
    requires Sorted(rs) && npages > 0
    requires forall p {:trigger Covers(rs, p)} {:trigger p in out} :: Covers(rs, p) <==> lo <= p < hi && p !in out
    ensures var a := AllocStart(rs, npages);
      a != 0 ==> lo <= a && a + npages <= hi && out !! PageSet(a, npages)
  {
    var a := AllocStart(rs, npages);
    AllocPages(rs, npages);
    if a != 0 {
      assert Covers(rs, a) && Covers(rs, a + npages - 1);
      forall p | p in PageSet(a, npages) ensures p !in out { assert Covers(rs, p); }
    }
  }

  ghost predicate InRun(p: int, a: int, npages: nat) {
    a <= p < a + npages
  }

  ghost function PageSet(a: int, npages: nat): (s: set<int>)
    ensures forall p {:trigger p in s} :: p in s <==> a <= p < a + npages
  {
    set p {:trigger InRun(p, a, npages)} | a <= p < a + npages && InRun(p, a, npages)
  }

  lemma AllocStep(rs: seq<Run>, i: nat, npages: nat)
    requires i < |rs| && npages > 0
    requires AllocRest(rs, npages) == rs[..i] + AllocRest(rs[i..], npages)
    ensures rs[i].n > npages ==> AllocRest(rs, npages) == rs[i := Run(rs[i].start + npages, rs[i].n - npages)]
    ensures rs[i].n == npages ==> AllocRest(rs, npages) == rs[..i] + rs[i + 1..]
    ensures rs[i].n < npages ==> AllocRest(rs, npages) == rs[..i + 1] + AllocRest(rs[i + 1..], npages)
    ensures AllocStart(rs[i..], npages) == if rs[i].n >= npages then rs[i].start else AllocStart(rs[i + 1..], npages)
  {
    var t := rs[i..];
    assert t[0] == rs[i] && t[1..] == rs[i + 1..];
    assert rs[..i + 1] == rs[..i] + [rs[i]];
  }

  lemma AllocPages(rs: seq<Run>, npages: nat)
    requires Sorted(rs) && npages > 0
    ensures Sorted(AllocRest(rs, npages))
    ensures var a := AllocStart(rs, npages);
      forall p {:trigger Covers(AllocRest(rs, npages), p)} ::
        Covers(AllocRest(rs, npages), p) <==> Covers(rs, p) && !(a != 0 && a <= p < a + npages)
    ensures var a := AllocStart(rs, npages); a != 0 ==> forall p {:trigger Covers(rs, p)} :: a <= p < a + npages ==> Covers(rs, p)
  {
    forall p ensures var a := AllocStart(rs, npages);
      (Covers(AllocRest(rs, npages), p) <==> Covers(rs, p) && !(a != 0 && a <= p < a + npages)) && (a != 0 && a <= p < a + npages ==> Covers(rs, p))
    {
      AllocKeeps(rs, npages, p);
    }
    AllocKeeps(rs, npages, 0);
  }
}
