/**
 The groups of pointer writes that memheap.c repeats, word by word in its order.
 */
module HeapWrites {
  import opened Store
  import opened HeapLayout
  import opened HeapRep

  const NULL := 0

  /** All six words of one header. */
  method PutHeader(st: Memory, a: int, magic: int, self: int, next: int, prev: int, nextFree: int, prevFree: int)
    modifies st
    ensures forall x :: !(a <= x < a + HDR) ==> Rd(st.m, x) == Rd(old(st.m), x)
    ensures Rd(st.m, a) == magic && Rd(st.m, a + POOL) == self && Rd(st.m, a + NEXT) == next && Rd(st.m, a + PREV) == prev
    ensures Rd(st.m, a + NEXT_FREE) == nextFree && Rd(st.m, a + PREV_FREE) == prevFree
  {
    st.Put(a, magic);
    st.Put(a + POOL, self);
    st.Put(a + NEXT, next);
    st.Put(a + PREV, prev);
    st.Put(a + NEXT_FREE, nextFree);
    st.Put(a + PREV_FREE, prevFree);
  }

  /** The headers of a pool with one free block, its tail, and the free-list header. */
  method Format(st: Memory, self: int, start: int, pool: int, head: int)
    requires pool >= 2 * HDR && HeadApart(Ctl(self, start, start + pool, head))
    modifies st
    ensures Formatted(old(st.m), st.m, Ctl(self, start, start + pool, head))
  {
    PutHeader(st, head, MAGIC, self, NULL, NULL, head, head);
    var tail := start + (pool - 2 * HDR) + HDR;
    PutHeader(st, start, MAGIC, self, tail, tail, start, start);
    PushFree(st, head, start);
    PutHeader(st, tail, MAGIC + 1, self, start, start, NULL, NULL);
  }

  /** Builds a free header at n and links it behind h in the block list. */
  method LinkHeader(st: Memory, self: int, h: int, n: int)
    requires var q := Rd(st.m, h + NEXT);
      h + HDR <= n && (q + HDR <= h || n + HDR <= q)
    modifies st
    ensures NewHeader(old(st.m), st.m, self, h, n, Rd(old(st.m), h + NEXT))
  {
    st.Put(n, MAGIC);
    st.Put(n + POOL, self);
    st.Put(n + PREV, h);
    st.Put(n + NEXT, Rd(st.m, h + NEXT));
    st.Put(Rd(st.m, h + NEXT) + PREV, n);
    st.Put(h + NEXT, n);
  }

  /** Takes h out of the free list. */
  method Unlink(st: Memory, h: int)
    requires var nx, pv := Rd(st.m, h + NEXT_FREE), Rd(st.m, h + PREV_FREE);
      Apart(nx, h) && Apart(pv, h) && (nx == pv || Apart(nx, pv))
    modifies st
    ensures Unlinked(old(st.m), st.m, Rd(old(st.m), h + PREV_FREE), h, Rd(old(st.m), h + NEXT_FREE))
  {
    st.Put(Rd(st.m, h + NEXT_FREE) + PREV_FREE, Rd(st.m, h + PREV_FREE));
    st.Put(Rd(st.m, h + PREV_FREE) + NEXT_FREE, Rd(st.m, h + NEXT_FREE));
  }

  /** Takes h out of the free list; alloc also clears its links. */
  method UnlinkFree(st: Memory, h: int, clear: bool)
    requires var nx, pv := Rd(st.m, h + NEXT_FREE), Rd(st.m, h + PREV_FREE);
      Apart(nx, h) && Apart(pv, h) && (nx == pv || Apart(nx, pv))
    modifies st
    ensures Unlinked(old(st.m), st.m, Rd(old(st.m), h + PREV_FREE), h, Rd(old(st.m), h + NEXT_FREE))
  {
    Unlink(st, h);
    if clear {
      st.Put(h + NEXT_FREE, NULL);
      st.Put(h + PREV_FREE, NULL);
    }
  }

  /** Takes h out of the block list. */
  method UnlinkBlock(st: Memory, h: int)
    requires var p, q := Rd(st.m, h + PREV), Rd(st.m, h + NEXT);
      Clear(p, h) && Clear(q, h) && Clear(p, q) && p != h && q != h
    modifies st
    ensures Bypass(old(st.m), st.m, Rd(old(st.m), h + PREV), Rd(old(st.m), h + NEXT))
  {
    st.Put(Rd(st.m, h + PREV) + NEXT, Rd(st.m, h + NEXT));
    st.Put(Rd(st.m, h + NEXT) + PREV, Rd(st.m, h + PREV));
  }

  /** Takes the block n after h out of the block list, then out of the free list. */
  method AbsorbNext(st: Memory, h: int, ghost n: int, ghost q: int, ghost s: int, ghost p: int)
    requires n == Rd(st.m, h + NEXT) && q == Rd(st.m, n + NEXT) && s == Rd(st.m, n + NEXT_FREE) && p == Rd(st.m, n + PREV_FREE)
    requires Clear(h, n) && Clear(n, q) && s != n
    requires Clear(n, s)
    modifies st
    ensures st.m == old(st.m)[q + PREV := h][h + NEXT := q][s + PREV_FREE := p][p + NEXT_FREE := s]
  {
    var next := Rd(st.m, h + NEXT);
    st.Put(Rd(st.m, next + NEXT) + PREV, h);
    assert Rd(st.m, next + NEXT) == q && Rd(st.m, next + NEXT_FREE) == s && Rd(st.m, next + PREV_FREE) == p;
    st.Put(h + NEXT, Rd(st.m, next + NEXT));
    assert Rd(st.m, next + NEXT_FREE) == s && Rd(st.m, next + PREV_FREE) == p;
    st.Put(Rd(st.m, next + NEXT_FREE) + PREV_FREE, Rd(st.m, next + PREV_FREE));
    assert Rd(st.m, next + NEXT_FREE) == s && Rd(st.m, next + PREV_FREE) == p;
    st.Put(Rd(st.m, next + PREV_FREE) + NEXT_FREE, Rd(st.m, next + NEXT_FREE));
  }

  /** Puts h at the front of the free list. */
  method PushFree(st: Memory, head: int, h: int)
    requires var nx := Rd(st.m, head + NEXT_FREE);
      Apart(h, head) && Apart(h, nx) && (nx == head || Apart(nx, head))
    modifies st
    ensures Pushed(old(st.m), st.m, head, h, Rd(old(st.m), head + NEXT_FREE))
  {
    st.Put(h + NEXT_FREE, Rd(st.m, head + NEXT_FREE));
    st.Put(h + PREV_FREE, head);
    st.Put(Rd(st.m, head + NEXT_FREE) + PREV_FREE, h);
    st.Put(head + NEXT_FREE, h);
  }
}
