/**
 rt-thread/src/memheap.c: one memory heap, operating on words of memory.
 */
module MemHeap {
  import opened Store
  import opened HeapLayout
  import opened HeapRep
  import opened HeapOps
  import W = HeapWrites
  import Kservice

  const NULL := W.NULL

  function AlignUp(size: int): (r: int)
    ensures r % 4 == 0 && size <= r < size + 4
  {
    (size + 3) / 4 * 4
  }

  function AlignDown(size: int): (r: int)
    ensures r % 4 == 0 && size - 4 < r <= size
  {
    size / 4 * 4
  }

  /** The size a request is rounded to. */
  function Need(size: int): int {
    if AlignUp(size) < MINI then MINI else AlignUp(size)
  }

  /** The block behind b is free and large enough for b to grow to `need` bytes. */
  ghost predicate CanGrow(bs: seq<Block>, b: Block, need: int) {
    exists a :: a in bs && !a.used && a.addr == b.End() && a.size + b.size > need + MINI
  }

  /** The block behind b is free. */
  ghost predicate FreeBehind(bs: seq<Block>, b: Block) {
    exists a {:trigger a in bs} :: a in bs && !a.used && a.addr == b.End()
  }

  lemma BehindIsRight(c: Ctl, bs: seq<Block>, i: nat)
    requires Shape(c.lo, c.hi, bs) && i + 1 < |bs|
    ensures FreeBehind(bs, bs[i]) <==> RightFree(bs, i)
  {
    assert Follows(bs, i + 1);
    if FreeBehind(bs, bs[i]) {
      var a :| a in bs && !a.used && a.addr == bs[i].End();
      assert bs[i+1].size >= 0;
      StartsApart(c.lo, c.hi, bs, i + 1, a);
    } else {
      assert bs[i+1] in bs;
    }
  }

  /** The bytes that become available when block i shrinks to `need`. */
  lemma ShrinkGain(c: Ctl, bs: seq<Block>, i: nat, need: int) returns (gain: int)
    requires Shape(c.lo, c.hi, bs) && i + 1 < |bs|
    ensures gain == Room(bs, i) - HDR - need - (if RightFree(bs, i) then bs[i+1].size else 0)
    ensures gain == bs[i].size - need - (if FreeBehind(bs, bs[i]) then 0 else HDR)
  {
    BehindIsRight(c, bs, i);
    gain := Room(bs, i) - HDR - need - (if RightFree(bs, i) then bs[i+1].size else 0);
  }

  /** The n bytes at dst are those that were at src. */
  ghost predicate SameBytes(m: Mem, m': Mem, dst: int, src: int, n: int) {
    forall x :: dst <= x < dst + n ==> Rd(m', x) == Rd(m, x - dst + src)
  }

  ghost predicate IsMax(x: int, s: seq<int>) {
    x in s && forall i :: 0 <= i < |s| ==> s[i] <= x
  }

  class Heap {
    const store: Memory
    const c: Ctl
    var available: int
    var maxUsed: int

    ghost var blocks: seq<Block>
    ghost var free: seq<int>
    ghost var usage: seq<int>   // bytes in use after every critical section so far

    ghost predicate Holds()
      reads this, store
    {
      Rep(store.m, c, blocks, free) && 0 <= c.lo
    }

    ghost predicate Valid()
      reads this, store
    {
      && Holds() && WellFormed(c.lo, c.hi, blocks) && Agree(blocks, free)
      && available == FreeSum(blocks)
      && |usage| > 0 && usage[|usage|-1] == c.hi - c.lo - available && IsMax(maxUsed, usage)
    }

    /** rt_memheap_init: one free block, then the used tail. */
    constructor (store: Memory, self: int, start: int, size: int, head: int)
      requires 0 <= start && start % 4 == 0
      requires AlignDown(size) >= 2 * HDR + MINI
      requires HeadApart(Ctl(self, start, start + AlignDown(size), head))
      modifies store
      ensures Valid() && this.store == store && c == Ctl(self, start, start + AlignDown(size), head)
      ensures blocks == [Block(start, AlignDown(size) - 2 * HDR, false), Block(c.hi - HDR, 0, true)]
      ensures free == [start] && usage == [2 * HDR]
      ensures OutsideUntouched(old(store.m), store.m, c)
    {
      this.store := store;
      var pool := AlignDown(size);
      c := Ctl(self, start, start + pool, head);
      available := pool - 2 * HDR;
      maxUsed := pool - (pool - 2 * HDR);
      blocks := [Block(start, pool - 2 * HDR, false), Block(start + pool - HDR, 0, true)];
      free := [start];
      usage := [2 * HDR];
      new;
      W.Format(store, self, start, pool, head);
      FormatRep(old(store.m), store.m, c);
      assert FreeSum(blocks) == available by {
        PairAmounts(blocks[0], blocks[1]);
      }
    }

    /** The free list's next node, read from memory. */
    lemma FreeEdge(k: nat)
      requires Holds() && k <= |free|
      ensures var r := [c.head] + free;
        Rd(store.m, r[k] + NEXT_FREE) == r[Succ(k, |r|)] && Rd(store.m, r[Succ(k, |r|)] + PREV_FREE) == r[k]
    {
      var r := [c.head] + free;
      assert Edge(store.m, NEXT_FREE, r[k], r[Succ(k, |r|)]);
    }

    lemma BlockEdge(i: nat)
      requires Holds() && i + 1 < |blocks|
      ensures Rd(store.m, blocks[i].addr + NEXT) == blocks[i+1].addr == blocks[i].End()
      ensures Rd(store.m, blocks[i+1].addr + PREV) == blocks[i].addr
    {
      var r := Addrs(blocks);
      assert Edge(store.m, NEXT, r[i], r[Succ(i, |r|)]);
      assert Follows(blocks, i + 1);
    }

    /** The block a listed address belongs to. */
    lemma ListedBlock(k: nat) returns (i: nat)
      requires Valid() && k < |free|
      ensures i + 1 < |blocks| && blocks[i].addr == free[k] && !blocks[i].used
    {
      i := NodeBlock(blocks, free, k);
      assert blocks[i].addr in free;
    }

    // ----- the groups of pointer writes

    method CutBlock(h: int, size: int, ghost i: nat) returns (n: int)
      requires Holds() && Cuttable(blocks, i, size) && h == blocks[i].addr
      modifies store, `blocks
      ensures Holds() && blocks == Cut(old(blocks), i, size) && n == h + HDR + size
      ensures forall b {:trigger Untouched(old(store.m), store.m, b)} :: b in old(blocks) && b != old(blocks)[i] ==> Untouched(old(store.m), store.m, b)
      ensures Untouched(old(store.m), store.m, old(blocks)[i].(size := size)) && OutsideUntouched(old(store.m), store.m, c)
    {
      BlockEdge(i);
      BlocksApart(c, blocks, i, i + 1);
      n := h + size + HDR;
      W.LinkHeader(store, c.self, h, n);
      assert CutWrites(old(store.m), store.m, c, blocks, i, size);
      CutRep(old(store.m), store.m, c, blocks, free, i, size);
      forall b | b in blocks
        ensures b != blocks[i] ==> Untouched(old(store.m), store.m, b)
        ensures Untouched(old(store.m), store.m, blocks[i].(size := size)) && OutsideUntouched(old(store.m), store.m, c)
      {
        CutPayload(old(store.m), store.m, c, blocks, i, size, b);
      }
      CutPayload(old(store.m), store.m, c, blocks, i, size, blocks[i]);
      blocks := Cut(blocks, i, size);
    }

    method UnlinkFree(h: int, clear: bool, ghost k: nat)
      requires Holds() && k < |free| && free[k] == h
      modifies store, `free
      ensures Holds() && free == Without(old(free), k)
      ensures forall b {:trigger Untouched(old(store.m), store.m, b)} :: b in blocks ==> Untouched(old(store.m), store.m, b)
      ensures OutsideUntouched(old(store.m), store.m, c)
    {
      FreeEdge(k);
      FreeEdge(k + 1);
      RingApart(c, blocks, free, k + 1, k);
      RingApart(c, blocks, free, k + 1, Succ(k + 1, |free| + 1));
      RingApart(c, blocks, free, k, Succ(k + 1, |free| + 1));
      W.UnlinkFree(store, h, clear);
      assert UnlinkWrites(old(store.m), store.m, c, free, k);
      UnlinkRep(old(store.m), store.m, c, blocks, free, k);
      forall b | b in blocks ensures Untouched(old(store.m), store.m, b) && OutsideUntouched(old(store.m), store.m, c) {
        FreePayload(old(store.m), store.m, c, blocks, b);
      }
      FreePayload(old(store.m), store.m, c, blocks, blocks[0]);
      free := Without(free, k);
    }

    method PushFree(h: int, ghost i: nat)
      requires Holds() && i < |blocks| && blocks[i].addr == h && h !in free
      modifies store, `free
      ensures Holds() && free == [h] + old(free)
      ensures forall b {:trigger Untouched(old(store.m), store.m, b)} :: b in blocks ==> Untouched(old(store.m), store.m, b)
      ensures OutsideUntouched(old(store.m), store.m, c)
    {
      FreeEdge(0);
      assert Addrs(blocks)[i] == h;
      HeadNotBlock(c, blocks, h);
      NodesApart(c, blocks, h, c.head);
      if free != [] {
        assert Listed(blocks, free, 0);
        NodesApart(c, blocks, h, free[0]);
        RingApart(c, blocks, free, 1, 0);
      }
      W.PushFree(store, c.head, h);
      assert PushWrites(old(store.m), store.m, c, free, h);
      PushRep(old(store.m), store.m, c, blocks, free, i);
      forall b | b in blocks ensures Untouched(old(store.m), store.m, b) && OutsideUntouched(old(store.m), store.m, c) {
        FreePayload(old(store.m), store.m, c, blocks, b);
      }
      FreePayload(old(store.m), store.m, c, blocks, blocks[0]);
      free := [h] + free;
    }

    /** Block i takes in block i + 1, which is not on the free list. */
    method AbsorbBlock(h: int, ghost i: nat)
      requires Holds() && i + 2 < |blocks| && blocks[i+1].addr == h && h !in free
      modifies store, `blocks
      ensures Holds() && blocks == Join(old(blocks), i)
      ensures forall b {:trigger Untouched(old(store.m), store.m, b)} :: b in old(blocks) ==> Untouched(old(store.m), store.m, b)
      ensures OutsideUntouched(old(store.m), store.m, c)
    {
      BlockEdge(i);
      BlockEdge(i + 1);
      BlocksApart(c, blocks, i, i + 1);
      BlocksApart(c, blocks, i + 1, i + 2);
      BlocksApart(c, blocks, i, i + 2);
      W.UnlinkBlock(store, h);
      JoinRep(old(store.m), store.m, c, blocks, free, i);
      forall b | b in blocks ensures Untouched(old(store.m), store.m, b) && OutsideUntouched(old(store.m), store.m, c) {
        JoinPayload(old(store.m), store.m, c, blocks, i, b);
      }
      JoinPayload(old(store.m), store.m, c, blocks, i, blocks[i]);
      blocks := Join(blocks, i);
    }

    /** Block i takes in block i + 1, which is free[k]. */
    method AbsorbFree(h: int, ghost i: nat, ghost k: nat)
      requires Holds() && i + 2 < |blocks| && blocks[i].addr == h && k < |free| && free[k] == blocks[i+1].addr
      modifies store, `blocks, `free
      ensures Holds() && blocks == Join(old(blocks), i) && free == Without(old(free), k)
      ensures forall b {:trigger Untouched(old(store.m), store.m, b)} :: b in old(blocks) ==> Untouched(old(store.m), store.m, b)
      ensures OutsideUntouched(old(store.m), store.m, c)
    {
      ghost var n, q, s, p := blocks[i+1].addr, blocks[i+2].addr, NextListed(c, free, k), PrevListed(c, free, k);
      AbsorbReads(store.m, c, blocks, free, i, k);
      AbsorbClear(c, blocks, free, i, k);
      W.AbsorbNext(store, h, n, q, s, p);
      ghost var mid := AbsorbOrder(old(store.m), h, n, q, s, p);
      UnlinkRep(old(store.m), mid, c, blocks, free, k);
      AbsorbRep(old(store.m), mid, store.m, c, blocks, free, i, k);
      AbsorbPayloads(old(store.m), mid, store.m, c, blocks, i);
      blocks := Join(blocks, i);
      free := Without(free, k);
    }

    /** Sets or clears the used bit of block i. */
    method SetUsed(h: int, used: bool, ghost i: nat)
      requires Holds() && i + 1 < |blocks| && blocks[i].addr == h
      modifies store, `blocks
      ensures Holds() && blocks == Mark(old(blocks), i, used)
      ensures forall b {:trigger Untouched(old(store.m), store.m, b)} :: b in old(blocks) ==> Untouched(old(store.m), store.m, b)
      ensures OutsideUntouched(old(store.m), store.m, c)
    {
      assert HeaderAt(store.m, c, blocks[i]);
      WithUsedMagic(blocks[i].used, used);
      store.Put(h, WithUsed(Rd(store.m, h), used));
      MarkRep(old(store.m), store.m, c, blocks, free, i, used);
      MarkPayloads(old(store.m), store.m, c, blocks, i);
      blocks := Mark(blocks, i, used);
    }

    // ----- allocation

    /** Books the new number of available bytes; `usage` records the bytes in use. */
    method Account(n: int)
      requires |usage| > 0 && IsMax(maxUsed, usage)
      modifies `available, `maxUsed, `usage
      ensures available == n && usage == old(usage) + [c.hi - c.lo - n] && IsMax(maxUsed, usage)
    {
      available := n;
      if c.hi - c.lo - available > maxUsed {
        maxUsed := c.hi - c.lo - available;
      }
      usage := usage + [c.hi - c.lo - n];
      assert usage[|usage|-1] == c.hi - c.lo - n;
      assert forall x :: x in old(usage) ==> x in usage;
    }

    /** The search loop of rt_memheap_alloc: the first listed block that is large enough. */
    method FirstFit(need: int) returns (h: int, freeSize: int, ghost k: nat, ghost i: nat)
      requires Valid() && need > 0
      ensures k <= |free| && forall l, a :: 0 <= l < k && a in blocks && a.addr == free[l] ==> a.size < need
      ensures freeSize >= need ==> (k < |free| && i + 1 < |blocks| && !blocks[i].used
        && h == free[k] == blocks[i].addr && freeSize == blocks[i].size)
      ensures freeSize < need ==> k == |free|
    {
      k, i := 0, 0;
      freeSize := 0;
      FreeEdge(0);
      h := Rd(store.m, c.head + NEXT_FREE);
      while h != c.head && freeSize < need
        invariant k <= |free| && h == ([c.head] + free)[Succ(k, |free| + 1)]
        invariant forall l, a :: 0 <= l < k && a in blocks && a.addr == free[l] ==> a.size < need
        invariant freeSize >= need ==> (k < |free| && i + 1 < |blocks| && !blocks[i].used
                    && h == free[k] == blocks[i].addr && freeSize == blocks[i].size)
        decreases |free| - k, if freeSize < need then 1 else 0
      {
        i := ListedBlock(k);
        BlockEdge(i);
        freeSize := Rd(store.m, h + NEXT) - h - HDR;
        if freeSize < need {
          forall a | a in blocks && a.addr == free[k] ensures a.size < need {
            var j :| 0 <= j < |blocks| && blocks[j] == a;
            if j != i { BlocksApart(c, blocks, i, j); }
          }
          FreeEdge(k + 1);
          h := Rd(store.m, h + NEXT_FREE);
          k := k + 1;
        }
      }
      if freeSize < need && k < |free| {
        assert Listed(blocks, free, k);
        HeadNotBlock(c, blocks, free[k]);
        assert false;
      }
    }

    /** rt_memheap_alloc. */
    method Alloc(size: int) returns (ptr: int, ghost k: nat, ghost b: Block)
      requires Valid() && 0 <= size
      modifies this, store
      ensures Valid()
      ensures ptr == NULL <==> Need(size) >= old(available) || forall a :: a in old(blocks) && !a.used ==> a.size < Need(size)
      ensures ptr == NULL ==> unchanged(this) && unchanged(store)
      ensures ptr != NULL ==>
        && k < |old(free)| && ptr == old(free)[k] + HDR
        && (forall l, a :: 0 <= l < k && a in old(blocks) && a.addr == old(free)[l] ==> a.size < Need(size))
        && b in old(blocks) && !b.used && b.Payload() == ptr && b.size >= Need(size)
        && Live(blocks) == Live(old(blocks)) + {Allocated(b, Need(size))[0]}
        && free == ListAfterAlloc(b, Need(size), Without(old(free), k))
        && usage == old(usage) + [c.hi - c.lo - available]
      // the block is split if what is left over can be a block
      ensures ptr != NULL ==> var need, split := Need(size), b.size >= Need(size) + HDR + MINI;
        && Allocated(b, need)[0] == Block(ptr - HDR, if split then need else b.size, true)
        && available == old(available) - (if split then need + HDR else b.size)
      ensures forall a {:trigger Untouched(old(store.m), store.m, a)} :: a in Live(old(blocks)) ==> Untouched(old(store.m), store.m, a)
      ensures OutsideUntouched(old(store.m), store.m, c)
    {
      k, b := 0, blocks[0];
      var need := AlignUp(size);
      if need < MINI {
        need := MINI;
      }
      if need < available {
        var h, freeSize;
        ghost var i;
        h, freeSize, k, i := FirstFit(need);
        if freeSize >= need {
          b := blocks[i];
          InPool(c, blocks, i);
          Take(h, freeSize, need, k, i);
          return h + HDR, k, b;
        }
        forall a | a in blocks && !a.used ensures a.size < need {
          var j :| 0 <= j < |blocks| && blocks[j] == a;
          assert blocks[j].addr in free;
          var l :| 0 <= l < |free| && free[l] == a.addr;
        }
      }
      return NULL, k, b;
    }

    /** The part of rt_memheap_alloc that takes `need` bytes from the block found. */
    method Take(h: int, freeSize: int, need: int, ghost k: nat, ghost i: nat)
      requires Valid() && MINI <= need <= freeSize && need % 4 == 0
      requires k < |free| && i + 1 < |blocks| && !blocks[i].used && h == free[k] == blocks[i].addr && freeSize == blocks[i].size
      modifies this, store
      ensures Valid()
      ensures blocks == Replace(old(blocks), i, 1, Allocated(old(blocks)[i], need))
      ensures free == ListAfterAlloc(old(blocks)[i], need, Without(old(free), k))
      ensures Live(blocks) == Live(old(blocks)) + {Allocated(old(blocks)[i], need)[0]}
      ensures available == old(available) - (if freeSize >= need + HDR + MINI then need + HDR else freeSize)
      ensures usage == old(usage) + [c.hi - c.lo - available]
      ensures forall a {:trigger Untouched(old(store.m), store.m, a)} :: a in Live(old(blocks)) ==> Untouched(old(store.m), store.m, a)
      ensures OutsideUntouched(old(store.m), store.m, c)
    {
      ghost var bs, fs, m0 := blocks, free, store.m;
      AllocOutcome(c.lo, c.hi, bs, fs, i, need, k);
      Detach(h, freeSize, need, k, i);
      ghost var m1, mid := store.m, blocks;
      SetUsed(h, true, i);
      forall a | a in Live(bs) ensures Untouched(m0, store.m, a) {
        assert Untouched(m0, m1, a) && a in mid;
        assert Untouched(m1, store.m, a);
      }
    }

    /** Takes the block off the free list, leaving what it does not need there, and books it. */
    method Detach(h: int, freeSize: int, need: int, ghost k: nat, ghost i: nat)
      requires Holds() && |usage| > 0 && IsMax(maxUsed, usage)
      requires MINI <= need <= freeSize && need % 4 == 0
      requires k < |free| && i + 1 < |blocks| && !blocks[i].used && h == free[k] == blocks[i].addr && freeSize == blocks[i].size
      modifies this, store
      ensures Holds() && i < |blocks| && Mark(blocks, i, true) == Replace(old(blocks), i, 1, Allocated(old(blocks)[i], need))
      ensures i + 1 < |blocks| && blocks[i].addr == h
      ensures free == ListAfterAlloc(old(blocks)[i], need, Without(old(free), k))
      ensures available == old(available) - (if freeSize >= need + HDR + MINI then need + HDR else freeSize)
      ensures usage == old(usage) + [c.hi - c.lo - available] && IsMax(maxUsed, usage)
      ensures forall a {:trigger Untouched(old(store.m), store.m, a)} :: a in Live(old(blocks)) ==> a in blocks && Untouched(old(store.m), store.m, a)
      ensures OutsideUntouched(old(store.m), store.m, c)
    {
      ghost var bs, m0 := blocks, store.m;
      if freeSize >= need + HDR + MINI {
        CutThenMark(blocks, i, need);
        SplitFree(h, need, k, i);
        Account(available - need - HDR);
      } else {
        WholeThenMark(blocks, i, need);
        Account(available - freeSize);
        UnlinkFree(h, true, k);
      }
      ghost var m1 := store.m;
      forall a | a in Live(bs) ensures a in blocks && Untouched(m0, m1, a) { }
    }

    /** Splits free[k]: the rest of it takes its place in the free list, at the front. */
    method SplitFree(h: int, need: int, ghost k: nat, ghost i: nat)
      requires Holds() && Cuttable(blocks, i, need) && k < |free| && !blocks[i].used && h == free[k] == blocks[i].addr
      modifies store, `blocks, `free
      ensures Holds()
      ensures blocks == Cut(old(blocks), i, need)
      ensures free == [h + HDR + need] + Without(old(free), k)
      ensures forall a {:trigger Untouched(old(store.m), store.m, a)} :: a in Live(old(blocks)) ==> a in blocks && Untouched(old(store.m), store.m, a)
      ensures OutsideUntouched(old(store.m), store.m, c)
    {
      ghost var bs, m0 := blocks, store.m;
      var n := CutBlock(h, need, i);
      ghost var m1 := store.m;
      CutApart(c, bs, free, i, need);
      UnlinkFree(h, true, k);
      ghost var m2 := store.m;
      assert blocks[i+1].addr == n;
      PushFree(n, i + 1);
      LiveThroughCut(m0, m1, m2, store.m, bs, i, need);
    }

    // ----- release

    /** The headers around a live block, read through its own. */
    lemma NeighbourMarks(i: nat)
      requires Holds() && 0 < i && i + 1 < |blocks|
      ensures Rd(store.m, Rd(store.m, blocks[i].addr + PREV)) == MagicWord(blocks[i-1].used)
      ensures Rd(store.m, Rd(store.m, blocks[i].addr + NEXT)) == MagicWord(blocks[i+1].used)
    {
      BlockEdge(i - 1);
      BlockEdge(i);
      assert HeaderAt(store.m, c, blocks[i-1]) && HeaderAt(store.m, c, blocks[i+1]);
    }

    /** The first block's prev pointer leads to the tail, which is in use. */
    lemma FirstPrevIsTail()
      requires Holds()
      ensures Rd(store.m, Rd(store.m, blocks[0].addr + PREV)) == MagicWord(true)
    {
      var r := Addrs(blocks);
      assert Edge(store.m, NEXT, r[|r|-1], r[Succ(|r| - 1, |r|)]);
      assert HeaderAt(store.m, c, blocks[|blocks|-1]);
    }

    /** Block i, not on the free list, joins a free left neighbour. */
    method MergeLeft(h: int, ghost i: nat) returns (g: int, insertHeader: bool)
      requires Holds() && i + 1 < |blocks| && blocks[i].addr == h && h !in free
      modifies store, `blocks, `available
      ensures Holds() && blocks == if i > 0 && !old(blocks)[i-1].used then Join(old(blocks), i - 1) else old(blocks)
      ensures insertHeader == (i == 0 || old(blocks)[i-1].used) && g == if insertHeader then h else old(blocks)[i-1].addr
      ensures available == old(available) + (if insertHeader then 0 else HDR)
      ensures forall a {:trigger Untouched(old(store.m), store.m, a)} :: a in old(blocks) ==> Untouched(old(store.m), store.m, a)
      ensures OutsideUntouched(old(store.m), store.m, c)
    {
      g := h;
      insertHeader := true;
      if i > 0 { NeighbourMarks(i); BlockEdge(i - 1); } else { FirstPrevIsTail(); }
      if Rd(store.m, Rd(store.m, h + PREV)) % 2 == 0 {
        available := available + HDR;
        g := Rd(store.m, h + PREV);
        AbsorbBlock(h, i - 1);
        insertHeader := false;
      }
    }

    /** The first half of rt_memheap_free: the block becomes free and joins a free left neighbour. */
    method FreeLeft(h: int, ghost i: nat) returns (g: int, insertHeader: bool)
      requires Valid() && i + 1 < |blocks| && blocks[i].used && blocks[i].addr == h
      modifies store, `blocks, `available
      ensures Holds() && blocks == FreedLeft(old(blocks), i)
      ensures First(old(blocks), i) < |blocks| && g == blocks[First(old(blocks), i)].addr && insertHeader == (First(old(blocks), i) == i)
      ensures available == old(available) + old(blocks)[i].size + (if First(old(blocks), i) < i then HDR else 0)
      ensures forall a {:trigger Untouched(old(store.m), store.m, a)} :: a in old(blocks) && a != old(blocks)[i] ==> Untouched(old(store.m), store.m, a)
      ensures OutsideUntouched(old(store.m), store.m, c)
    {
      ghost var bs, m0 := blocks, store.m;
      FreedLeftFacts(c.lo, c.hi, bs, i);
      assert bs[i].addr in free <==> !bs[i].used;
      SetUsed(h, false, i);
      ghost var m1 := store.m;
      BlockEdge(i);
      available := available + (Rd(store.m, h + NEXT) - h - HDR);
      g, insertHeader := MergeLeft(h, i);
      MarkKeeps(m0, m1, store.m, bs, i);
    }

    /** The second half: a free right neighbour is absorbed. */
    method FreeRight(g: int, ghost f: nat, ghost k: nat)
      requires Holds() && f + 1 < |blocks| && blocks[f].addr == g
      requires !blocks[f+1].used ==> k < |free| && free[k] == blocks[f+1].addr
      modifies store, `blocks, `available, `free
      ensures Holds() && f < |blocks| && blocks[f].addr == g
      ensures blocks == if old(blocks)[f+1].used then old(blocks) else Join(old(blocks), f)
      ensures free == if old(blocks)[f+1].used then old(free) else Without(old(free), k)
      ensures available == old(available) + (if old(blocks)[f+1].used then 0 else HDR)
      ensures forall a {:trigger Untouched(old(store.m), store.m, a)} :: a in old(blocks) ==> Untouched(old(store.m), store.m, a)
      ensures OutsideUntouched(old(store.m), store.m, c)
    {
      BlockEdge(f);
      assert HeaderAt(store.m, c, blocks[f+1]);
      if Rd(store.m, Rd(store.m, g + NEXT)) % 2 == 0 {
        available := available + HDR;
        AbsorbFree(g, f, k);
      }
    }

    /** Both halves, and the insertion into the free list if there was no left merge. */
    method Release(h: int, ghost i: nat, ghost k: nat)
      requires Valid() && i + 1 < |blocks| && blocks[i].used && blocks[i].addr == h
      requires RightListed(blocks, free, i, k)
      modifies store, `blocks, `available, `free
      ensures Holds() && blocks == Freed(old(blocks), i)
      ensures free == ListAfterFree(old(blocks), old(free), i, k)
      ensures available == old(available) + old(blocks)[i].size + Reclaimed(old(blocks), i)
      ensures forall a {:trigger Untouched(old(store.m), store.m, a)} :: a in Live(old(blocks)) && a != old(blocks)[i] ==> Untouched(old(store.m), store.m, a)
      ensures OutsideUntouched(old(store.m), store.m, c)
    {
      ghost var bs, fs, m0 := blocks, free, store.m;
      ghost var f := First(bs, i);
      FreedLeftFacts(c.lo, c.hi, bs, i);
      assert bs[i].addr in fs <==> !bs[i].used;
      var g, insertHeader := FreeLeft(h, i);
      ghost var m1, cs := store.m, blocks;
      FreeRight(g, f, k);
      ghost var m2, mid := store.m, free;
      FreedBoth(c.lo, c.hi, bs, i, cs, blocks);
      if insertHeader {
        PushFree(g, f);
      } else {
        NothingTouched(m2, blocks);
      }
      ListFreed(bs, fs, i, k, mid, free);
      ReleaseKeeps(c.lo, c.hi, m0, m1, m2, store.m, bs, i, cs, blocks);
    }

    /** Where a live block and a free right neighbour stand. */
    lemma Locate(b: Block) returns (i: nat, k: nat)
      requires Valid() && b in Live(blocks) && b.End() < c.hi
      ensures i + 1 < |blocks| && blocks[i] == b && b.used && RightListed(blocks, free, i, k) && Sized(b)
    {
      i :| 0 <= i < |blocks| && blocks[i] == b;
      k := 0;
      if Last(blocks, i) > i {
        assert blocks[i+1].addr in free;
        k :| 0 <= k < |free| && free[k] == blocks[i+1].addr;
      }
    }

    /** rt_memheap_free. */
    method Free(ptr: int, ghost b: Block) returns (ghost i: nat, ghost k: nat)
      requires Valid()
      requires ptr != NULL ==> b in Live(blocks) && b.Payload() == ptr && b.End() < c.hi
      modifies this, store
      ensures Valid()
      ensures ptr == NULL ==> unchanged(this) && unchanged(store)
      ensures ptr != NULL ==>
        && i + 1 < |old(blocks)| && old(blocks)[i] == b && RightListed(old(blocks), old(free), i, k)
        && Live(blocks) == Live(old(blocks)) - {b}
        && free == ListAfterFree(old(blocks), old(free), i, k)
        && usage == old(usage) + [c.hi - c.lo - available]
      ensures forall a {:trigger Untouched(old(store.m), store.m, a)} :: a in Live(old(blocks)) && a != b ==> Untouched(old(store.m), store.m, a)
      ensures OutsideUntouched(old(store.m), store.m, c)
    {
      i, k := 0, 0;
      if ptr == NULL {
        return;
      }
      i, k := Locate(b);
      FreeOutcome(c.lo, c.hi, blocks, free, i, k);
      Release(ptr - HDR, i, k);
      usage := usage + [c.hi - c.lo - available];
    }

    // ----- resizing

    /** The grow-in-place branch of rt_memheap_realloc. */
    method Grow(h: int, need: int, ghost i: nat, ghost k: nat)
      requires Holds() && i + 1 < |blocks| && blocks[i].addr == h && blocks[i].used
      requires RightFree(blocks, i) && RightListed(blocks, free, i, k)
      requires MINI <= need && need % 4 == 0 && blocks[i].size < need && need + HDR + MINI <= Room(blocks, i)
      modifies store, `blocks, `free
      ensures Holds() && blocks == ResizedTo(old(blocks), i, need)
      ensures free == ListAfterResize(old(blocks), old(free), i, k, need)
      ensures forall a {:trigger Untouched(old(store.m), store.m, a)} :: a in Live(old(blocks)) ==> Untouched(old(store.m), store.m, a)
      ensures OutsideUntouched(old(store.m), store.m, c)
    {
      ghost var bs, m0 := blocks, store.m;
      BlockEdge(i);
      GrowSteps(c.lo, c.hi, bs, i, need);
      var next := Rd(store.m, h + NEXT);
      NodesWithout(blocks, free, k);
      UnlinkFree(next, false, k);
      ghost var m1 := store.m;
      AbsorbBlock(next, i);
      ghost var m2 := store.m;
      assert blocks[i].addr == h;
      CutApart(c, blocks, free, i, need);
      var n := CutBlock(h, need, i);
      assert n !in free && n == bs[i].Payload() + need;
      ghost var m3 := store.m;
      assert blocks[i+1].addr == n;
      PushFree(n, i + 1);
      assert free == [n] + Without(old(free), k);
      GrowKeeps(c.lo, c.hi, m0, m1, m2, m3, store.m, bs, i, need);
    }

    static lemma NotInWithout(fs: seq<int>, k: nat, x: int)
      requires x !in fs && k < |fs|
      ensures x !in Without(fs, k)
    {
    }

    /** The shrinking branch of rt_memheap_realloc, after the size test. */
    method Shrink(h: int, need: int, ghost i: nat, ghost k: nat)
      requires Holds() && i + 1 < |blocks| && blocks[i].addr == h && blocks[i].used
      requires RightListed(blocks, free, i, k)
      requires MINI <= need && need % 4 == 0 && need + HDR + MINI <= blocks[i].size
      modifies store, `blocks, `free, `available
      ensures Holds() && blocks == ResizedTo(old(blocks), i, need)
      ensures free == ListAfterResize(old(blocks), old(free), i, k, need)
      ensures available == old(available) + Room(old(blocks), i) - HDR - need - (if RightFree(old(blocks), i) then old(blocks)[i+1].size else 0)
      ensures forall a {:trigger Untouched(old(store.m), store.m, a)} :: a in Live(old(blocks)) && a != old(blocks)[i] ==> Untouched(old(store.m), store.m, a)
      ensures Untouched(old(store.m), store.m, old(blocks)[i].(size := need))
      ensures OutsideUntouched(old(store.m), store.m, c)
    {
      ghost var bs, m0 := blocks, store.m;
      ShrinkSteps(c.lo, c.hi, bs, i, need);
      CutApart(c, blocks, free, i, need);
      var n := CutBlock(h, need, i);
      ghost var m1 := store.m;
      assert n !in free && n == bs[i].Payload() + need;
      BlockEdge(i + 1);
      assert HeaderAt(store.m, c, blocks[i+2]);
      var next := Rd(store.m, n + NEXT);
      if Rd(store.m, next) % 2 == 0 {
        BlockEdge(i + 2);
        available := available - (Rd(store.m, next + NEXT) - next - HDR);
        NotInWithout(free, k, n);
        AbsorbFree(n, i + 1, k);
      }
      ghost var m2 := store.m;
      assert blocks == ResizedTo(bs, i, need);
      assert n !in free && blocks[i+1].addr == n;
      PushFree(n, i + 1);
      BlockEdge(i + 1);
      available := available + (Rd(store.m, n + NEXT) - n - HDR);
      ShrinkKeeps(m0, m1, m2, store.m, bs, i, need);
    }

    /** In place: b keeps its address and gets `need` bytes. */
    method ResizeUp(h: int, oldsize: int, need: int, ghost b: Block)
      requires Valid() && oldsize == b.size && b in Live(blocks) && b.End() < c.hi && h == b.addr
      requires MINI <= need && need % 4 == 0 && b.size < need && CanGrow(blocks, b, need)
      modifies this, store
      ensures Valid() && Live(blocks) == Live(old(blocks)) - {b} + {b.(size := need)}
      ensures available == old(available) - (need - b.size)
      ensures usage == old(usage) + [c.hi - c.lo - available]
      ensures forall a {:trigger Untouched(old(store.m), store.m, a)} :: a in Live(old(blocks)) ==> Untouched(old(store.m), store.m, a)
      ensures OutsideUntouched(old(store.m), store.m, c)
    {
      ghost var i, k := Locate(b);
      ghost var a :| a in blocks && !a.used && a.addr == b.End() && a.size + b.size > need + MINI;
      GrowRoom(c.lo, c.hi, blocks, a, i);
      ResizeOutcome(c.lo, c.hi, blocks, i, 2, need);
      ResizeList(c.lo, c.hi, blocks, free, i, k, need);
      Account(available - (need - oldsize));
      Grow(h, need, i, k);
    }

    /** What shrinking block i amounts to. */
    lemma ShrinkOutcome(i: nat, k: nat, need: int) returns (gain: int)
      requires Valid() && i + 1 < |blocks| && blocks[i].used && RightListed(blocks, free, i, k)
      requires MINI <= need && need % 4 == 0 && need + HDR + MINI <= blocks[i].size
      ensures WellFormed(c.lo, c.hi, ResizedTo(blocks, i, need)) && Agree(ResizedTo(blocks, i, need), ListAfterResize(blocks, free, i, k, need))
      ensures Live(ResizedTo(blocks, i, need)) == Live(blocks) - {blocks[i]} + {blocks[i].(size := need)}
      ensures FreeSum(ResizedTo(blocks, i, need)) == FreeSum(blocks) + gain
      ensures gain == Room(blocks, i) - HDR - need - (if RightFree(blocks, i) then blocks[i+1].size else 0)
      ensures gain == blocks[i].size - need - (if FreeBehind(blocks, blocks[i]) then 0 else HDR)
    {
      gain := ShrinkGain(c, blocks, i, need);
      ResizeOutcome(c.lo, c.hi, blocks, i, Last(blocks, i) - i + 1, need);
      ResizeList(c.lo, c.hi, blocks, free, i, k, need);
    }

    method ResizeDown(h: int, need: int, ghost b: Block)
      requires Valid() && b in Live(blocks) && b.End() < c.hi && h == b.addr
      requires MINI <= need && need % 4 == 0 && need + HDR + MINI < b.size
      modifies this, store
      ensures Valid() && Live(blocks) == Live(old(blocks)) - {b} + {b.(size := need)}
      ensures available == old(available) + b.size - need - (if FreeBehind(old(blocks), b) then 0 else HDR)
      ensures usage == old(usage) + [c.hi - c.lo - available]
      ensures forall a {:trigger Untouched(old(store.m), store.m, a)} :: a in Live(old(blocks)) && a != b ==> Untouched(old(store.m), store.m, a)
      ensures Untouched(old(store.m), store.m, b.(size := need))
      ensures OutsideUntouched(old(store.m), store.m, c)
    {
      ghost var i, k := Locate(b);
      ghost var gain := ShrinkOutcome(i, k, need);
      Shrink(h, need, i, k);
      usage := usage + [c.hi - c.lo - available];
    }

    /** The moving branch: allocate, copy the old bytes, free. */
    method Move(ptr: int, oldsize: int, need: int, ghost b: Block) returns (res: int, ghost nb: Block)
      requires Valid() && b in Live(blocks) && b.End() < c.hi && b.Payload() == ptr && oldsize == b.size
      requires MINI <= need && need % 4 == 0 && b.size < need
      modifies this, store
      ensures Valid()
      ensures res == NULL <==> need >= old(available) || forall a :: a in old(blocks) && !a.used ==> a.size < need
      ensures res == NULL ==> unchanged(this) && unchanged(store)
      ensures res != NULL ==>
        && nb.used && nb.Payload() == res && need <= nb.size < need + HDR + MINI && nb !in Live(old(blocks))
        && Live(blocks) == Live(old(blocks)) - {b} + {nb}
        && SameBytes(old(store.m), store.m, res, ptr, b.size)
      ensures forall a {:trigger Untouched(old(store.m), store.m, a)} :: a in Live(old(blocks)) && a != b ==> Untouched(old(store.m), store.m, a)
      ensures OutsideUntouched(old(store.m), store.m, c)
    {
      ghost var bs, m0 := blocks, store.m;
      ghost var k, fb;
      ghost var _ := LiveIndex(b);
      res, k, fb := Alloc(need);
      nb := fb;
      if res != NULL {
        ghost var m1 := store.m;
        nb := Allocated(fb, need)[0];
        FreshIn(c, bs, fb, nb);
        WriteBytes(res, ptr, oldsize, nb, b);
        ghost var m2 := store.m;
        var _, _ := Free(ptr, b);
        assert nb != b && Live(blocks) == Live(bs) + {nb} - {b};
        MoveKeeps(m0, m1, m2, store.m, bs, b, nb);
      }
    }

    /** Over the three steps of a move, every other live block and the copied bytes stay. */
    lemma MoveKeeps(m0: Mem, m1: Mem, m2: Mem, m3: Mem, bs: seq<Block>, b: Block, nb: Block)
      requires b in Live(bs) && nb !in Live(bs) && b.size <= nb.size
      requires forall a {:trigger Untouched(m0, m1, a)} :: a in Live(bs) ==> Untouched(m0, m1, a)
      requires forall a {:trigger Untouched(m1, m2, a)} :: a in Live(bs) ==> Untouched(m1, m2, a)
      requires forall a {:trigger Untouched(m2, m3, a)} :: a in Live(bs) + {nb} && a != b ==> Untouched(m2, m3, a)
      requires SameBytes(m1, m2, nb.Payload(), b.Payload(), b.size)
      ensures forall a {:trigger Untouched(m0, m3, a)} :: a in Live(bs) && a != b ==> Untouched(m0, m3, a)
      ensures SameBytes(m0, m3, nb.Payload(), b.Payload(), b.size)
    {
      forall a | a in Live(bs) && a != b ensures Untouched(m0, m3, a) {
        assert Untouched(m0, m1, a) && Untouched(m1, m2, a) && Untouched(m2, m3, a);
      }
      assert Untouched(m2, m3, nb) && Untouched(m0, m1, b);
    }

    /** A block taken from a free one was not live before. */
    static lemma FreshIn(c: Ctl, bs: seq<Block>, fb: Block, nb: Block)
      requires Tiled(c.lo, c.hi, bs) && fb in bs && !fb.used && nb.addr == fb.addr
      ensures nb !in Live(bs)
    {
      if nb in Live(bs) {
        var i :| 0 <= i < |bs| && bs[i] == fb;
        StartsApart(c.lo, c.hi, bs, i, nb);
        assert false;
      }
    }

    /** Copies the first bytes of live block b into live block nb. */
    method WriteBytes(dst: int, src: int, n: int, ghost nb: Block, ghost b: Block)
      requires Valid() && b in Live(blocks) && nb in Live(blocks) && b != nb
      requires dst == nb.Payload() && src == b.Payload() && 0 <= n <= b.size && n <= nb.size
      modifies store
      ensures Valid()
      ensures SameBytes(old(store.m), store.m, dst, src, n)
      ensures forall a {:trigger Untouched(old(store.m), store.m, a)} :: a in blocks && a != nb ==> Untouched(old(store.m), store.m, a)
      ensures OutsideUntouched(old(store.m), store.m, c)
    {
      ghost var i :| 0 <= i < |blocks| && blocks[i] == nb;
      ghost var j :| 0 <= j < |blocks| && blocks[j] == b;
      BlocksApart(c, blocks, i, j);
      Kservice.Memcpy(store, dst, src, n);
      assert OnlyPayload(old(store.m), store.m, nb);
      PayloadRep(old(store.m), store.m, c, blocks, free, i);
      PayloadOthers(old(store.m), store.m, c, blocks, i);
    }

    /** rt_memheap_realloc. */
    method Realloc(ptr: int, newsize: int, ghost b: Block) returns (res: int, ghost nb: Block)
      requires Valid() && 0 <= newsize
      requires ptr != NULL ==> b in Live(blocks) && b.Payload() == ptr && b.End() < c.hi
      modifies this, store
      ensures Valid()
      // size 0 frees
      ensures newsize == 0 ==> res == NULL && Live(blocks) == Live(old(blocks)) - (if ptr == NULL then {} else {b})
      // failure changes nothing
      ensures newsize > 0 && res == NULL ==> unchanged(this) && unchanged(store)
      // success: one block instead of b, large enough and no larger than has to be, with the bytes of b
      ensures newsize > 0 && res != NULL ==>
        && nb.used && nb.Payload() == res && Need(newsize) <= nb.size <= Need(newsize) + HDR + MINI
        && Live(blocks) == Live(old(blocks)) - (if ptr == NULL then {} else {b}) + {nb}
        && (ptr != NULL ==> SameBytes(old(store.m), store.m, res, ptr, if nb.size < b.size then nb.size else b.size))
      // when it stays in place, and when it fails
      ensures newsize > 0 && ptr != NULL && (Need(newsize) <= b.size || CanGrow(old(blocks), b, Need(newsize))) ==> res == ptr
      // in place: the block gets what was asked for, but for a rest too small to be a block
      ensures newsize > 0 && ptr != NULL && Need(newsize) <= b.size <= Need(newsize) + HDR + MINI ==>
        nb == b && unchanged(this) && unchanged(store)
      ensures newsize > 0 && ptr != NULL && Need(newsize) + HDR + MINI < b.size ==>
        nb == b.(size := Need(newsize)) && available == old(available) + b.size - Need(newsize) - (if FreeBehind(old(blocks), b) then 0 else HDR)
      ensures newsize > 0 && ptr != NULL && b.size < Need(newsize) && CanGrow(old(blocks), b, Need(newsize)) ==>
        nb == b.(size := Need(newsize)) && available == old(available) - (Need(newsize) - b.size)
      ensures newsize > 0 && (ptr == NULL || !(Need(newsize) <= b.size || CanGrow(old(blocks), b, Need(newsize)))) ==>
        (res == NULL <==> Need(newsize) >= old(available) || forall a :: a in old(blocks) && !a.used ==> a.size < Need(newsize))
      ensures forall a {:trigger Untouched(old(store.m), store.m, a)} :: a in Live(old(blocks)) && (ptr != NULL ==> a != b) ==> Untouched(old(store.m), store.m, a)
      ensures OutsideUntouched(old(store.m), store.m, c)
    {
      nb := b;
      if newsize == 0 {
        var _, _ := Free(ptr, b);
        return NULL, b;
      }
      var need := AlignUp(newsize);
      if need < MINI {
        need := MINI;
      }
      if ptr == NULL {
        ghost var k, fb;
        res, k, fb := Alloc(need);
        nb := Allocated(fb, need)[0];
        return;
      }
      res, nb := Resize(ptr, need, b);
    }

    /** rt_memheap_realloc of a block, `need` being the size rounded up. */
    method Resize(ptr: int, need: int, ghost b: Block) returns (res: int, ghost nb: Block)
      requires Valid() && MINI <= need && need % 4 == 0 && b in Live(blocks) && b.Payload() == ptr && b.End() < c.hi
      modifies this, store
      ensures Valid()
      ensures res == NULL ==> unchanged(this) && unchanged(store)
      ensures res != NULL ==>
        && nb.used && nb.Payload() == res && need <= nb.size <= need + HDR + MINI
        && Live(blocks) == Live(old(blocks)) - {b} + {nb}
        && SameBytes(old(store.m), store.m, res, ptr, if nb.size < b.size then nb.size else b.size)
      ensures need <= b.size || CanGrow(old(blocks), b, need) ==> res == ptr
      ensures need <= b.size <= need + HDR + MINI ==> nb == b && unchanged(this) && unchanged(store)
      ensures need + HDR + MINI < b.size ==>
        nb == b.(size := need) && available == old(available) + b.size - need - (if FreeBehind(old(blocks), b) then 0 else HDR)
      ensures b.size < need && CanGrow(old(blocks), b, need) ==> nb == b.(size := need) && available == old(available) - (need - b.size)
      ensures !(need <= b.size || CanGrow(old(blocks), b, need)) ==>
        (res == NULL <==> need >= old(available) || forall a :: a in old(blocks) && !a.used ==> a.size < need)
      ensures forall a {:trigger Untouched(old(store.m), store.m, a)} :: a in Live(old(blocks)) && a != b ==> Untouched(old(store.m), store.m, a)
      ensures OutsideUntouched(old(store.m), store.m, c)
    {
      nb := b;
      ghost var i := LiveIndex(b);
      BlockEdge(i);
      var h := ptr - HDR;
      var oldsize := Rd(store.m, h + NEXT) - h - HDR;
      if need > oldsize {
        var grows := RoomBehind(h, oldsize, need, b);
        if grows {
          nb := b.(size := need);
          ResizeUp(h, oldsize, need, b);
          assert Untouched(old(store.m), store.m, b);
          return ptr, nb;
        }
        res, nb := Move(ptr, oldsize, need, b);
        return;
      }
      if need + HDR + MINI >= oldsize {
        return ptr, b;
      }
      nb := b.(size := need);
      ResizeDown(h, need, b);
      return ptr, nb;
    }

    lemma LiveIndex(b: Block) returns (i: nat)
      requires Valid() && b in Live(blocks) && b.End() < c.hi
      ensures i + 1 < |blocks| && blocks[i] == b && b.addr + HDR > NULL
    {
      i :| 0 <= i < |blocks| && blocks[i] == b;
      InPool(c, blocks, i);
    }

    /** The test of rt_memheap_realloc whether the block behind b can be used. */
    method RoomBehind(h: int, oldsize: int, need: int, ghost b: Block) returns (grows: bool)
      requires Valid() && b in Live(blocks) && b.End() < c.hi && h == b.addr && oldsize == b.size
      ensures grows <==> CanGrow(blocks, b, need)
    {
      ghost var i := LiveIndex(b);
      BlockEdge(i);
      var next := Rd(store.m, h + NEXT);
      assert HeaderAt(store.m, c, blocks[i+1]);
      grows := false;
      if Rd(store.m, next) % 2 == 0 {
        BlockEdge(i + 1);
        var nextsize := Rd(store.m, next + NEXT) - next - HDR;
        grows := nextsize + oldsize > need + MINI;
      }
      if CanGrow(blocks, b, need) {
        var a :| a in blocks && !a.used && a.addr == b.End() && a.size + b.size > need + MINI;
        GrowRoom(c.lo, c.hi, blocks, a, i);
      } else {
        assert blocks[i+1] in blocks;
      }
    }

    /** The owner of a live block writes a byte of it. */
    method UserWrite(x: int, v: int, ghost b: Block)
      requires Valid() && b in Live(blocks) && b.Payload() <= x < b.End()
      modifies store
      ensures Valid() && store.m == old(store.m)[x := v]
      ensures forall a {:trigger Untouched(old(store.m), store.m, a)} :: a in blocks && a != b ==> Untouched(old(store.m), store.m, a)
    {
      ghost var i :| 0 <= i < |blocks| && blocks[i] == b;
      store.Put(x, v);
      PayloadRep(old(store.m), store.m, c, blocks, free, i);
      PayloadOthers(old(store.m), store.m, c, blocks, i);
    }

    /** Writes that stay out of the heap's region leave it valid. */
    twostate lemma StaysValid()
      requires old(Valid()) && unchanged(this)
      requires SameRegion(old(store.m), store.m, c)
      ensures Valid()
    {
      RepFrame(old(store.m), store.m, c, blocks, free);
    }

    /** What was allocated and is freed again leaves the layout and the available bytes as they were. */
    method AllocThenFree(size: int) returns (ptr: int)
      requires Valid() && 0 <= size
      modifies this, store
      ensures Valid() && blocks == old(blocks) && available == old(available)
    {
      ghost var bs, k, b := blocks, 0, blocks[0];
      ptr, k, b := Alloc(size);
      if ptr != NULL {
        ghost var nb := Allocated(b, Need(size))[0];
        FreshIn(c, bs, b, nb);
        assert nb in Live(blocks) && nb.End() < c.hi by { NewBlockBelowTail(b, bs, nb); }
        var _, _ := Free(ptr, nb);
        assert Live(blocks) == Live(bs);
        LayoutDetermined(c.lo, c.hi, blocks, bs);
      }
    }

    /** A block carved from a free one ends below the pool's end. */
    lemma NewBlockBelowTail(b: Block, bs: seq<Block>, nb: Block)
      requires WellFormed(c.lo, c.hi, bs) && b in bs && !b.used
      requires nb.addr == b.addr && nb.size <= b.size
      ensures nb.End() < c.hi
    {
      var i :| 0 <= i < |bs| && bs[i] == b;
      Ordered(c.lo, c.hi, bs, i, |bs| - 1);
    }
  }
}
