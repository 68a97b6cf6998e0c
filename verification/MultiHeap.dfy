/**
 The system allocator of memheap.c over several heaps: rt_malloc falls back to the other heaps,
 rt_free finds the heap through the block's header, rt_realloc moves between heaps.
 */
module MultiHeap {
  import opened Store
  import opened HeapLayout
  import opened HeapRep
  import opened HeapOps
  import opened MemHeap
  import Kservice

  /** Neither heap's pool nor free-list header overlaps the other's. */
  ghost predicate Disjoint(c: Ctl, d: Ctl) {
    && (c.hi <= d.lo || d.hi <= c.lo)
    && (c.head + HDR <= d.lo || d.hi <= c.head)
    && (d.head + HDR <= c.lo || c.hi <= d.head)
    && (c.head + HDR <= d.head || d.head + HDR <= c.head)
    && c.self != d.self
  }

  /** The blocks kept their payload. */
  ghost predicate Kept(m: Mem, m': Mem, live: set<Block>) {
    forall a {:trigger Untouched(m, m', a)} :: a in live ==> Untouched(m, m', a)
  }

  lemma KeptTrans(m: Mem, m1: Mem, m2: Mem, live: set<Block>, live1: set<Block>)
    requires Kept(m, m1, live) && Kept(m1, m2, live1) && live <= live1
    ensures Kept(m, m2, live)
  {
    forall a | a in live ensures Untouched(m, m2, a) {
      assert Untouched(m, m1, a) && Untouched(m1, m2, a);
    }
  }

  predicate Outside(c: Ctl, x: int) {
    !(c.lo <= x < c.hi) && !(c.head <= x < c.head + HDR)
  }

  /** Nothing has changed outside the regions of two heaps. */
  ghost predicate OutsideBoth(m: Mem, m': Mem, c: Ctl, d: Ctl) {
    forall x {:trigger Rd(m', x)} :: Outside(c, x) && Outside(d, x) ==> Rd(m', x) == Rd(m, x)
  }

  lemma OutsideThen(m: Mem, m1: Mem, m2: Mem, c: Ctl, d: Ctl)
    requires OutsideUntouched(m, m1, d) && (OutsideUntouched(m1, m2, c) || OutsideBoth(m1, m2, c, d))
    ensures OutsideBoth(m, m2, c, d)
  {
    forall x | Outside(c, x) && Outside(d, x) ensures Rd(m2, x) == Rd(m, x) {
      assert Rd(m1, x) == Rd(m, x);
    }
  }

  lemma OutsideOne(m: Mem, m': Mem, c: Ctl)
    requires OutsideUntouched(m, m', c)
    ensures OutsideBoth(m, m', c, c)
  {
  }

  /** What happens in one heap's region leaves the blocks of another heap alone. */
  lemma KeptAlone(m: Mem, m': Mem, c: Ctl, d: Ctl, bs: seq<Block>)
    requires (Disjoint(c, d) || Disjoint(d, c)) && OutsideUntouched(m, m', c) && Shape(d.lo, d.hi, bs)
    ensures Kept(m, m', Live(bs))
  {
    forall a | a in Live(bs) ensures Untouched(m, m', a) {
      var j :| 0 <= j < |bs| && bs[j] == a;
      InPool(d, bs, j);
    }
  }

  /** What happens in the regions of two heaps leaves the blocks of another heap alone. */
  lemma KeptOutside(m: Mem, m': Mem, c: Ctl, e: Ctl, d: Ctl, bs: seq<Block>)
    requires (Disjoint(c, d) || Disjoint(d, c)) && (Disjoint(e, d) || Disjoint(d, e))
    requires OutsideBoth(m, m', c, e) && Shape(d.lo, d.hi, bs)
    ensures Kept(m, m', Live(bs))
  {
    forall a | a in Live(bs) ensures Untouched(m, m', a) {
      var j :| 0 <= j < |bs| && bs[j] == a;
      InPool(d, bs, j);
    }
  }

  class System {
    const store: Memory
    const list: seq<Heap>   // the memory heaps in the order of the object list
    const sys: nat          // the default heap's place in it

    constructor (store: Memory, list: seq<Heap>, sys: nat)
      ensures this.store == store && this.list == list && this.sys == sys
    {
      this.store, this.list, this.sys := store, list, sys;
    }

    ghost predicate Apart() {
      && sys < |list|
      && (forall i :: 0 <= i < |list| ==> list[i].store == store)
      && (forall i, j :: 0 <= i < j < |list| ==> list[i] != list[j] && Disjoint(list[i].c, list[j].c))
    }

    ghost predicate Valid()
      reads this, store, list
    {
      Apart() && forall i :: 0 <= i < |list| ==> list[i].Valid()
    }

    /** The blocks that were live in heap i, but for b, have kept their payload. */
    twostate predicate HeapKept(i: nat, b: set<Block>)
      requires i < |list|
      reads list, store
    {
      Kept(old(store.m), store.m, Live(old(list[i].blocks)) - b)
    }

    /** All heaps but those in except have kept the payload of their live blocks. */
    twostate predicate RestKept(except: set<int>)
      reads list, store
    {
      forall i {:trigger HeapKept(i, {})} :: 0 <= i < |list| && i !in except ==> HeapKept(i, {})
    }

    /** A change within the regions of two heaps leaves the blocks of the other heaps alone. */
    twostate lemma RegionsKept(p: (int, int))
      requires old(Valid()) && 0 <= p.0 < |list| && 0 <= p.1 < |list|
      requires OutsideBoth(old(store.m), store.m, list[p.0].c, list[p.1].c)
      ensures RestKept({p.0, p.1})
    {
      var (w, v) := p;
      forall i | 0 <= i < |list| && i != w && i != v ensures HeapKept(i, {}) {
        assert Disjoint(list[if w < i then w else i].c, list[if w < i then i else w].c);
        assert Disjoint(list[if v < i then v else i].c, list[if v < i then i else v].c);
        KeptOutside(old(store.m), store.m, list[w].c, list[v].c, list[i].c, old(list[i].blocks));
      }
    }

    twostate lemma RegionAlone(w: nat)
      requires old(Valid()) && w < |list| && OutsideUntouched(old(store.m), store.m, list[w].c)
      ensures RestKept({w})
    {
      forall i | 0 <= i < |list| && i != w ensures HeapKept(i, {}) {
        assert Disjoint(list[if w < i then w else i].c, list[if w < i then i else w].c);
        KeptAlone(old(store.m), store.m, list[w].c, list[i].c, old(list[i].blocks));
      }
    }

    /** An allocation of this size from the i-th heap would fail. */
    ghost predicate Fails(i: nat, size: int)
      requires i < |list|
      reads list
    {
      Need(size) >= list[i].available || forall a :: a in list[i].blocks && !a.used ==> a.size < Need(size)
    }

    /** Heap w changed and kept to its region: the others are as valid as before. */
    twostate lemma OthersValid(w: nat)
      requires old(Valid()) && w < |list| && list[w].Valid()
      requires forall i :: 0 <= i < |list| && i != w ==> unchanged(list[i])
      requires OutsideUntouched(old(store.m), store.m, list[w].c)
      ensures Valid()
    {
      forall i | 0 <= i < |list| && i != w ensures list[i].Valid() {
        assert Disjoint(list[if i < w then i else w].c, list[if i < w then w else i].c);
        list[i].StaysValid();
      }
    }

    /** Heap w got the new live block b; everything else is as it was. */
    twostate predicate Gave(w: nat, ptr: int, size: int, b: Block)
      requires w < |list|
      reads list, store
    {
      && b.used && b.Payload() == ptr && Need(size) <= b.size < Need(size) + HDR + MINI && b !in Live(old(list[w].blocks))
      && Live(list[w].blocks) == Live(old(list[w].blocks)) + {b}
      && (forall i :: 0 <= i < |list| && i != w ==> unchanged(list[i]))
      && (forall a {:trigger Untouched(old(store.m), store.m, a)} :: a in Live(old(list[w].blocks)) ==> Untouched(old(store.m), store.m, a))
      && OutsideUntouched(old(store.m), store.m, list[w].c)
    }

    method Try(n: nat, size: int) returns (ptr: int, ghost b: Block)
      requires Valid() && 0 <= size && n < |list|
      modifies list, store
      ensures Valid()
      ensures ptr == NULL <==> old(Fails(n, size))
      ensures ptr == NULL ==> unchanged(store) && forall i :: 0 <= i < |list| ==> unchanged(list[i])
      ensures ptr != NULL ==> Gave(n, ptr, size, b)
    {
      ghost var k, fb;
      ptr, k, fb := list[n].Alloc(size);
      OthersValid(n);
      b := Allocated(fb, Need(size))[0];
      if ptr != NULL {
        Heap.FreshIn(list[n].c, old(list[n].blocks), fb, b);
      }
    }

    /** rt_malloc: the default heap first, then the others in order. */
    method Malloc(size: int) returns (ptr: int, ghost w: nat, ghost b: Block)
      requires Valid() && 0 <= size
      modifies list, store
      ensures Valid()
      ensures ptr == NULL <==> forall i :: 0 <= i < |list| ==> old(Fails(i, size))
      ensures ptr == NULL ==> unchanged(store) && forall i :: 0 <= i < |list| ==> unchanged(list[i])
      ensures ptr != NULL ==>
        && w < |list| && !old(Fails(w, size))
        && (w != sys ==> old(Fails(sys, size)) && forall i :: 0 <= i < w ==> old(Fails(i, size)))
        && Gave(w, ptr, size, b)
    {
      w := sys;
      ptr, b := Try(sys, size);
      if ptr != NULL {
        return;
      }
      var n := 0;
      while n < |list|
        invariant 0 <= n <= |list| && Valid() && ptr == NULL && old(Fails(sys, size))
        invariant unchanged(store) && forall i :: 0 <= i < |list| ==> unchanged(list[i])
        invariant forall i :: 0 <= i < n ==> old(Fails(i, size))
      {
        if n != sys {
          w := n;
          ptr, b := Try(n, size);
          if ptr != NULL {
            assert !old(Fails(n, size));
            return;
          }
        }
        n := n + 1;
      }
    }

    // ----- release and resizing

    /** The heap a live block belongs to. */
    ghost predicate Owns(w: nat, ptr: int, b: Block)
      requires w < |list|
      reads list
    {
      b in Live(list[w].blocks) && b.Payload() == ptr && b.End() < list[w].c.hi
    }

    /** The heap named by the header in front of ptr. */
    method OwnerOf(ptr: int, ghost w: nat, ghost b: Block) returns (n: nat)
      requires Valid() && w < |list| && Owns(w, ptr, b)
      ensures n == w
    {
      ghost var i := list[w].LiveIndex(b);
      assert HeaderAt(store.m, list[w].c, list[w].blocks[i]);
      var self := Rd(store.m, ptr - HDR + POOL);
      n := 0;
      while n < |list| && list[n].c.self != self
        invariant n <= w
      {
        n := n + 1;
      }
      assert forall j :: 0 <= j < w ==> Disjoint(list[j].c, list[w].c);
    }

    /** rt_free. */
    method Free(ptr: int, ghost w: nat, ghost b: Block)
      requires Valid() && w < |list| && (ptr != NULL ==> Owns(w, ptr, b))
      modifies list, store
      ensures Valid()
      ensures ptr == NULL ==> unchanged(store) && forall i :: 0 <= i < |list| ==> unchanged(list[i])
      ensures ptr != NULL ==> Live(list[w].blocks) == Live(old(list[w].blocks)) - {b}
      ensures forall i :: 0 <= i < |list| && i != w ==> unchanged(list[i])
      ensures forall a {:trigger Untouched(old(store.m), store.m, a)} :: a in Live(old(list[w].blocks)) && a != b ==> Untouched(old(store.m), store.m, a)
      ensures OutsideUntouched(old(store.m), store.m, list[w].c)
      ensures RestKept({w})
    {
      if ptr == NULL {
        return;
      }
      var n := OwnerOf(ptr, w, b);
      var _, _ := list[n].Free(ptr, b);
      OthersValid(w);
      RegionAlone(w);
    }

    /** The bytes of live block b of heap w copied into block nb of another heap. */
    method CopyAcross(ghost w: nat, ghost v: nat, dst: int, src: int, n: int, ghost b: Block, ghost nb: Block)
      requires Valid() && w < |list| && v < |list| && w != v
      requires b in list[w].blocks && nb in list[v].blocks
      requires dst == nb.Payload() && src == b.Payload() && 0 <= n <= b.size && n <= nb.size
      modifies store
      ensures Valid()
      ensures SameBytes(old(store.m), store.m, dst, src, n)
      ensures OnlyPayload(old(store.m), store.m, nb)
      ensures SameRegion(old(store.m), store.m, list[w].c) && OutsideUntouched(old(store.m), store.m, list[v].c)
      ensures HeapKept(v, {nb})
    {
      ghost var i :| 0 <= i < |list[v].blocks| && list[v].blocks[i] == nb;
      ghost var j :| 0 <= j < |list[w].blocks| && list[w].blocks[j] == b;
      InPool(list[v].c, list[v].blocks, i);
      InPool(list[w].c, list[w].blocks, j);
      assert Disjoint(list[if w < v then w else v].c, list[if w < v then v else w].c);
      Kservice.Memcpy(store, dst, src, n);
      assert SameRegion(old(store.m), store.m, list[w].c) && OutsideUntouched(old(store.m), store.m, list[v].c);
      PayloadRep(old(store.m), store.m, list[v].c, list[v].blocks, list[v].free, i);
      PayloadOthers(old(store.m), store.m, list[v].c, list[v].blocks, i);
      OthersValid(v);
    }

    lemma OtherKept(w: nat, v: nat, m: Mem, m': Mem)
      requires Valid() && w < |list| && v < |list| && w != v && OutsideUntouched(m, m', list[w].c)
      ensures Kept(m, m', Live(list[v].blocks))
    {
      assert Disjoint(list[if w < v then w else v].c, list[if w < v then v else w].c);
      KeptAlone(m, m', list[w].c, list[v].c, list[v].blocks);
    }

    lemma RegionKept(w: nat, m: Mem, m': Mem)
      requires Valid() && w < |list| && SameRegion(m, m', list[w].c)
      ensures Kept(m, m', Live(list[w].blocks))
    {
      forall a | a in Live(list[w].blocks) ensures Untouched(m, m', a) {
        var i :| 0 <= i < |list[w].blocks| && list[w].blocks[i] == a;
        InPool(list[w].c, list[w].blocks, i);
      }
    }

    /** What heap w does to its region leaves a block of heap v alone. */
    lemma KeptApart(w: nat, v: nat, m: Mem, m': Mem, b: Block)
      requires Valid() && w < |list| && v < |list| && w != v && b in list[v].blocks
      requires OutsideUntouched(m, m', list[w].c)
      ensures Untouched(m, m', b)
    {
      var i :| 0 <= i < |list[v].blocks| && list[v].blocks[i] == b;
      InPool(list[v].c, list[v].blocks, i);
      assert Disjoint(list[if w < v then w else v].c, list[if w < v then v else w].c);
    }

    /** The block moved: out of heap w, into heap v, with its bytes. */
    twostate predicate Moved(w: nat, v: nat, ptr: int, res: int, size: int, b: Block, nb: Block)
      requires w < |list| && v < |list|
      reads list, store
    {
      && nb.used && nb.Payload() == res && Need(size) <= nb.size <= Need(size) + HDR + MINI
      && SameBytes(old(store.m), store.m, res, ptr, if nb.size < b.size then nb.size else b.size)
      && (v == w ==> Live(list[w].blocks) == Live(old(list[w].blocks)) - {b} + {nb})
      && (v != w ==> Live(list[w].blocks) == Live(old(list[w].blocks)) - {b} && Live(list[v].blocks) == Live(old(list[v].blocks)) + {nb})
      && (forall i :: 0 <= i < |list| && i != w && i != v ==> unchanged(list[i]))
      && HeapKept(w, {b}) && (v != w ==> HeapKept(v, {}))
      && OutsideBoth(old(store.m), store.m, list[w].c, list[v].c)
    }

    /**
     Copies the bytes of b to the new block nb of heap v and frees b.  Since memory m0 the new block has been allocated;
     was are the blocks of heap v that were live then.
     */
    method CopyAndFree(ptr: int, res: int, newsize: int, ghost w: nat, ghost b: Block, ghost v: nat, ghost nb: Block, ghost m0: Mem, ghost was: set<Block>)
      requires Valid() && w < |list| && v < |list| && w != v && ptr != NULL && Owns(w, ptr, b)
      requires nb in Live(list[v].blocks) && nb.Payload() == res && nb.size >= newsize > b.size
      requires was <= Live(list[v].blocks) - {nb} && Kept(m0, store.m, was) && Kept(m0, store.m, Live(list[w].blocks))
      requires OutsideUntouched(m0, store.m, list[v].c)
      modifies list, store
      ensures Valid()
      ensures Live(list[w].blocks) == Live(old(list[w].blocks)) - {b}
      ensures forall i :: 0 <= i < |list| && i != w ==> unchanged(list[i])
      ensures SameBytes(old(store.m), store.m, res, ptr, b.size)
      ensures Kept(m0, store.m, Live(old(list[w].blocks)) - {b}) && Kept(m0, store.m, was) && OutsideBoth(m0, store.m, list[w].c, list[v].c)
    {
      ghost var i := list[w].LiveIndex(b);
      ghost var own := Live(list[w].blocks);
      list[w].BlockEdge(i);
      var oldsize := Rd(store.m, ptr - HDR + NEXT) - (ptr - HDR) - HDR;
      CopyAcross(w, v, res, ptr, if newsize > oldsize then oldsize else newsize, b, nb);
      ghost var m2 := store.m;
      CopyKept(w, v, m0, old(store.m), m2, own, was);
      Free(ptr, w, b);
      KeptApart(w, v, m2, store.m, nb);
      OtherKept(w, v, m2, store.m);
      KeptTrans(m0, m2, store.m, own - {b}, own - {b});
      KeptTrans(m0, m2, store.m, was, Live(list[v].blocks));
      OutsideThen(m0, m2, store.m, list[w].c, list[v].c);
    }

    /** The copy to heap v, seen from before the allocation there. */
    lemma CopyKept(w: nat, v: nat, m0: Mem, m1: Mem, m2: Mem, own: set<Block>, was: set<Block>)
      requires Valid() && w < |list| && v < |list| && own == Live(list[w].blocks) && SameRegion(m1, m2, list[w].c)
      requires Kept(m0, m1, own) && Kept(m0, m1, was) && Kept(m1, m2, was)
      requires OutsideUntouched(m0, m1, list[v].c) && OutsideUntouched(m1, m2, list[v].c)
      ensures Kept(m0, m2, own) && Kept(m0, m2, was) && OutsideUntouched(m0, m2, list[v].c)
    {
      RegionKept(w, m1, m2);
      KeptTrans(m0, m1, m2, own, own);
      KeptTrans(m0, m1, m2, was, was);
    }

    /** The fallback of rt_realloc when the owner cannot resize: another heap, a copy, a release. */
    method MoveElsewhere(ptr: int, newsize: int, ghost w: nat, ghost b: Block) returns (res: int, ghost v: nat, ghost nb: Block)
      requires Valid() && w < |list| && Owns(w, ptr, b) && ptr != NULL
      requires newsize > b.size && Fails(w, newsize)
      modifies list, store
      ensures Valid() && v < |list|
      ensures res == NULL <==> forall i :: 0 <= i < |list| ==> old(Fails(i, newsize))
      ensures res == NULL ==> v == w && unchanged(store) && forall i :: 0 <= i < |list| ==> unchanged(list[i])
      ensures res != NULL ==> v != w && !old(Fails(v, newsize)) && Moved(w, v, ptr, res, newsize, b, nb)
      ensures res != NULL && v != sys ==> old(Fails(sys, newsize)) && forall i :: 0 <= i < v ==> old(Fails(i, newsize))
    {
      res, v, nb := Malloc(newsize);
      if res == NULL {
        v := w;
        return;
      }
      KeptApart(v, w, old(store.m), store.m, b);
      OtherKept(v, w, old(store.m), store.m);
      CopyAndFree(ptr, res, newsize, w, b, v, nb, old(store.m), Live(old(list[v].blocks)));
    }

    /** Within its own heap the block gets what was asked for, but for a rest too small to be a block; the bytes available follow. */
    twostate predicate InPlace(w: nat, b: Block, need: int, nb: Block)
      requires w < |list|
      reads list
    {
      var h := list[w];
      && (need <= b.size <= need + HDR + MINI ==> nb == b && unchanged(h))
      && (need + HDR + MINI < b.size ==>
            nb == b.(size := need) && h.available == old(h.available) + b.size - need - (if FreeBehind(old(h.blocks), b) then 0 else HDR))
      && (b.size < need && CanGrow(old(h.blocks), b, need) ==> nb == b.(size := need) && h.available == old(h.available) - (need - b.size))
    }

    /** The block stays in the heap that owns it. */
    ghost predicate Stays(w: nat, b: Block, newsize: int)
      requires w < |list|
      reads list
    {
      Need(newsize) <= b.size || CanGrow(list[w].blocks, b, Need(newsize)) || !Fails(w, newsize)
    }

    /** rt_realloc. */
    method Realloc(ptr: int, newsize: int, ghost w: nat, ghost b: Block) returns (res: int, ghost v: nat, ghost nb: Block)
      requires Valid() && 0 <= newsize && w < |list| && (ptr != NULL ==> Owns(w, ptr, b))
      modifies list, store
      ensures Valid() && v < |list|
      // no block to resize: an allocation
      ensures ptr == NULL && res != NULL ==> Gave(v, res, newsize, nb) && RestKept({v})
      // size 0 frees
      ensures ptr != NULL && newsize == 0 ==>
        && res == NULL && Live(list[w].blocks) == Live(old(list[w].blocks)) - {b} && (forall i :: 0 <= i < |list| && i != w ==> unchanged(list[i]))
        && HeapKept(w, {b}) && RestKept({w}) && OutsideUntouched(old(store.m), store.m, list[w].c)
      // failure changes nothing, and happens when no heap has room
      ensures (ptr == NULL || newsize > 0) && res == NULL ==>
        unchanged(store) && forall i :: 0 <= i < |list| ==> unchanged(list[i]) && old(Fails(i, newsize))
      ensures (forall i :: 0 <= i < |list| ==> old(Fails(i, newsize))) && (ptr != NULL ==> !old(Stays(w, b, newsize))) ==> res == NULL
      // success: the block is resized in its heap or moved to another one
      ensures ptr != NULL && newsize > 0 ==> InPlace(w, b, Need(newsize), nb)
      ensures ptr != NULL && res != NULL ==> Moved(w, v, ptr, res, newsize, b, nb) && RestKept({w, v})
      ensures ptr != NULL && newsize > 0 ==> (res != NULL && v == w <==> old(Stays(w, b, newsize)))
      ensures ptr != NULL && newsize > 0 && (Need(newsize) <= b.size || CanGrow(old(list[w].blocks), b, Need(newsize))) ==> res == ptr
      ensures ptr != NULL && res != NULL && v != w ==>
        !old(Fails(v, newsize)) && (v != sys ==> old(Fails(sys, newsize)) && forall i :: 0 <= i < v ==> old(Fails(i, newsize)))
    {
      v, nb := w, b;
      if ptr == NULL {
        res, v, nb := Malloc(newsize);
        if res == NULL {
          v := w;
        } else {
          RegionAlone(v);
        }
        return;
      }
      if newsize == 0 {
        Free(ptr, w, b);
        return NULL, w, b;
      }
      res, v, nb := Resize(ptr, newsize, w, b);
      if res != NULL { RegionsKept((w, v)); }
    }

    /** rt_realloc of a block to a size that is not 0: within the owner, else elsewhere. */
    method Resize(ptr: int, newsize: int, ghost w: nat, ghost b: Block) returns (res: int, ghost v: nat, ghost nb: Block)
      requires Valid() && 0 < newsize && w < |list| && ptr != NULL && Owns(w, ptr, b)
      modifies list, store
      ensures Valid() && v < |list|
      ensures res == NULL ==> unchanged(store) && forall i :: 0 <= i < |list| ==> unchanged(list[i]) && old(Fails(i, newsize))
      ensures res == NULL <==> !old(Stays(w, b, newsize)) && forall i :: 0 <= i < |list| ==> old(Fails(i, newsize))
      ensures res != NULL ==> Moved(w, v, ptr, res, newsize, b, nb) && (v == w <==> old(Stays(w, b, newsize)))
      ensures InPlace(w, b, Need(newsize), nb)
      ensures Need(newsize) <= b.size || CanGrow(old(list[w].blocks), b, Need(newsize)) ==> res == ptr
      ensures res != NULL && v != w ==>
        !old(Fails(v, newsize)) && (v != sys ==> old(Fails(sys, newsize)) && forall i :: 0 <= i < v ==> old(Fails(i, newsize)))
    {
      v := w;
      res, nb := ReallocOwner(ptr, newsize, w, b);
      if res == NULL {
        assert store.m == old(store.m) && list[w].blocks == old(list[w].blocks);
        assert forall j :: 0 <= j < |list| ==> Fails(j, newsize) == old(Fails(j, newsize));
        res, v, nb := MoveElsewhere(ptr, newsize, w, b);
        assert list[v].Valid();
      }
    }

    /** The attempt of rt_realloc within the owner. */
    method ReallocOwner(ptr: int, newsize: int, ghost w: nat, ghost b: Block) returns (res: int, ghost nb: Block)
      requires Valid() && 0 < newsize && w < |list| && ptr != NULL && Owns(w, ptr, b)
      modifies list, store
      ensures Valid()
      ensures res == NULL <==> !old(Stays(w, b, newsize))
      ensures res == NULL ==> newsize > b.size && unchanged(store) && forall i :: 0 <= i < |list| ==> unchanged(list[i])
      ensures res != NULL ==> Moved(w, w, ptr, res, newsize, b, nb)
      ensures InPlace(w, b, Need(newsize), nb)
      ensures Need(newsize) <= b.size || CanGrow(old(list[w].blocks), b, Need(newsize)) ==> res == ptr
    {
      var n := OwnerOf(ptr, w, b);
      ghost var i := list[w].LiveIndex(b);
      assert Sized(list[w].blocks[i]);
      res, nb := list[n].Realloc(ptr, newsize, b);
      OthersValid(w);
      OutsideOne(old(store.m), store.m, list[w].c);
    }
  }
}
