/**
 rt_memcpy of rt-thread/src/kservice.c, used by realloc and by message queues.
 */
module Kservice {
  import opened Store

  const LONG := 4
  const BIGBLOCK := 16   // sizeof(long) << 2

  /** m' is m with the n bytes at src, as they were, also at dst. */
  ghost predicate Copied(m: Mem, m': Mem, dst: int, src: int, n: int) {
    && (forall x :: dst <= x < dst + n ==> Rd(m', x) == Rd(m, x - dst + src))
    && (forall x :: !(dst <= x < dst + n) ==> Rd(m', x) == Rd(m, x))
  }

  /** Copying on from where the copy stands. */
  lemma CopiedMore(m: Mem, m1: Mem, m2: Mem, dst: int, src: int, n: int, k: int)
    requires 0 <= n && 0 <= k && (dst + n + k <= src || src + n + k <= dst)
    requires Copied(m, m1, dst, src, n) && Copied(m1, m2, dst + n, src + n, k)
    ensures Copied(m, m2, dst, src, n + k)
  {
    forall x | dst <= x < dst + n + k ensures Rd(m2, x) == Rd(m, x - dst + src) {
      if x >= dst + n {
        assert Rd(m2, x) == Rd(m1, x - dst + src);
      }
    }
  }

  method CopyByte(st: Memory, dst: int, src: int)
    modifies st
    ensures Copied(old(st.m), st.m, dst, src, 1)
  {
    st.Put(dst, Rd(st.m, src));
  }

  method CopyLong(st: Memory, dst: int, src: int)
    requires dst + LONG <= src || src + LONG <= dst
    modifies st
    ensures Copied(old(st.m), st.m, dst, src, LONG)
  {
    st.Put(dst, Rd(st.m, src));
    st.Put(dst + 1, Rd(st.m, src + 1));
    st.Put(dst + 2, Rd(st.m, src + 2));
    st.Put(dst + 3, Rd(st.m, src + 3));
  }

  method CopyBigBlock(st: Memory, dst: int, src: int)
    requires dst + BIGBLOCK <= src || src + BIGBLOCK <= dst
    modifies st
    ensures Copied(old(st.m), st.m, dst, src, BIGBLOCK)
  {
    ghost var m0 := st.m;
    CopyLong(st, dst, src);
    ghost var m1 := st.m;
    CopyLong(st, dst + LONG, src + LONG);
    ghost var m2 := st.m;
    CopyLong(st, dst + 2 * LONG, src + 2 * LONG);
    ghost var m3 := st.m;
    CopyLong(st, dst + 3 * LONG, src + 3 * LONG);
    CopiedMore(m0, m1, m2, dst, src, LONG, LONG);
    CopiedMore(m0, m2, m3, dst, src, 2 * LONG, LONG);
    CopiedMore(m0, m3, st.m, dst, src, 3 * LONG, LONG);
  }

  /** rt_memcpy: four words at a time, then words, then bytes, when both ends are aligned. */
  method Memcpy(st: Memory, dst: int, src: int, count: nat)
    requires dst + count <= src || src + count <= dst
    modifies st
    ensures Copied(old(st.m), st.m, dst, src, count)
  {
    var len := count;
    if len >= BIGBLOCK && dst % LONG == 0 && src % LONG == 0 {
      while len >= BIGBLOCK
        invariant 0 <= len <= count && Copied(old(st.m), st.m, dst, src, count - len)
        decreases len
      {
        ghost var was := st.m;
        CopyBigBlock(st, dst + count - len, src + count - len);
        CopiedMore(old(st.m), was, st.m, dst, src, count - len, BIGBLOCK);
        len := len - BIGBLOCK;
      }
      while len >= LONG
        invariant 0 <= len <= count && Copied(old(st.m), st.m, dst, src, count - len)
        decreases len
      {
        ghost var was := st.m;
        CopyLong(st, dst + count - len, src + count - len);
        CopiedMore(old(st.m), was, st.m, dst, src, count - len, LONG);
        len := len - LONG;
      }
    }
    while len > 0
      invariant 0 <= len <= count && Copied(old(st.m), st.m, dst, src, count - len)
    {
      ghost var was := st.m;
      CopyByte(st, dst + count - len, src + count - len);
      CopiedMore(old(st.m), was, st.m, dst, src, count - len, 1);
      len := len - 1;
    }
  }
}
