/**
 How a memheap lies in memory: the header words of every block, the circular block list in
 address order, and the circular free list through the free-list header.

 Each lemma below takes a memory before and after one group of pointer writes of memheap.c and
 says which representation the new memory holds.  Nothing is assumed about where the written
 words lie except what the layout says, so a new header may overlap an old one.
 */
module HeapRep {
  import opened Store
  import opened HeapLayout

  const MAGIC := 0x1ea01ea0

  // byte offsets of the fields of struct rt_memheap_item
  const POOL := 4
  const NEXT := 8
  const PREV := 12
  const NEXT_FREE := 16
  const PREV_FREE := 20

  /** Where a heap lives: its control block, its pool [lo, hi) and its free-list header. */
  datatype Ctl = Ctl(self: int, lo: int, hi: int, head: int)

  function MagicWord(used: bool): int {
    if used then MAGIC + 1 else MAGIC
  }

  ghost predicate HeaderAt(m: Mem, c: Ctl, b: Block) {
    Rd(m, b.addr) == MagicWord(b.used) && Rd(m, b.addr + POOL) == c.self
  }

  ghost predicate Headers(m: Mem, c: Ctl, bs: seq<Block>) {
    forall i {:trigger HeaderAt(m, c, bs[i])} :: 0 <= i < |bs| ==> HeaderAt(m, c, bs[i])
  }

  /** fs[k] is the address of a block. */
  ghost predicate Listed(bs: seq<Block>, fs: seq<int>, k: int)
    requires 0 <= k < |fs|
  {
    fs[k] in Addrs(bs)
  }

  ghost predicate Differ(fs: seq<int>, k: int, l: int)
    requires 0 <= k < |fs| && 0 <= l < |fs|
  {
    fs[k] != fs[l]
  }

  /** The free list consists of blocks, each listed once. */
  ghost predicate FreeNodes(bs: seq<Block>, fs: seq<int>) {
    && (forall k {:trigger Listed(bs, fs, k)} :: 0 <= k < |fs| ==> Listed(bs, fs, k))
    && (forall k, l {:trigger Differ(fs, k, l)} :: 0 <= k < |fs| && 0 <= l < |fs| && k != l ==> Differ(fs, k, l))
  }

  /** The block at a listed address. */
  lemma NodeBlock(bs: seq<Block>, fs: seq<int>, k: nat) returns (j: nat)
    requires FreeNodes(bs, fs) && k < |fs|
    ensures j < |bs| && Addrs(bs)[j] == bs[j].addr == fs[k]
  {
    assert Listed(bs, fs, k);
    j :| 0 <= j < |Addrs(bs)| && Addrs(bs)[j] == fs[k];
  }

  /** Nodes stay blocks when the addresses of bs are kept in cs. */
  lemma NodesIn(bs: seq<Block>, cs: seq<Block>, fs: seq<int>)
    requires FreeNodes(bs, fs)
    requires forall x {:trigger x in Addrs(bs)} :: x in Addrs(bs) && x in fs ==> x in Addrs(cs)
    ensures FreeNodes(cs, fs)
  {
    forall k | 0 <= k < |fs| ensures Listed(cs, fs, k) {
      assert Listed(bs, fs, k);
    }
    forall k, l | 0 <= k < |fs| && 0 <= l < |fs| && k != l ensures Differ(fs, k, l) { }
  }

  lemma NodesWithout(bs: seq<Block>, fs: seq<int>, k: nat)
    requires FreeNodes(bs, fs) && k < |fs|
    ensures FreeNodes(bs, Without(fs, k)) && fs[k] !in Without(fs, k)
  {
    var gs := Without(fs, k);
    forall j | 0 <= j < |gs| ensures Listed(bs, gs, j) && gs[j] != fs[k] {
      var i := if j < k then j else j + 1;
      assert Listed(bs, fs, i) && Differ(fs, i, k);
    }
    forall j, l | 0 <= j < |gs| && 0 <= l < |gs| && j != l ensures Differ(gs, j, l) {
      assert Differ(fs, if j < k then j else j + 1, if l < k then l else l + 1);
    }
  }

  lemma NodesWith(bs: seq<Block>, fs: seq<int>, h: int)
    requires FreeNodes(bs, fs) && h in Addrs(bs) && h !in fs
    ensures FreeNodes(bs, [h] + fs)
  {
    var gs := [h] + fs;
    forall j | 0 <= j < |gs| ensures Listed(bs, gs, j) {
      if j > 0 { assert Listed(bs, fs, j - 1); }
    }
    forall j, l | 0 <= j < |gs| && 0 <= l < |gs| && j != l ensures Differ(gs, j, l) {
      if j > 0 && l > 0 { assert Differ(fs, j - 1, l - 1); }
    }
  }

  ghost predicate HeadApart(c: Ctl) {
    c.head + HDR <= c.lo || c.hi <= c.head
  }

  /** Memory m holds the layout bs, threaded by the block list, and the free list fs. */
  ghost predicate Rep(m: Mem, c: Ctl, bs: seq<Block>, fs: seq<int>) {
    && Shape(c.lo, c.hi, bs) && HeadApart(c)
    && Headers(m, c, bs)
    && Linked(m, NEXT, Addrs(bs))
    && FreeNodes(bs, fs)
    && Linked(m, NEXT_FREE, [c.head] + fs)
  }

  /** No payload byte of b has changed. */
  ghost predicate Untouched(m: Mem, m': Mem, b: Block) {
    forall x :: b.Payload() <= x < b.End() ==> Rd(m', x) == Rd(m, x)
  }

  /** Nothing outside the pool and the free-list header has changed. */
  ghost predicate OutsideUntouched(m: Mem, m': Mem, c: Ctl) {
    forall x :: !(c.lo <= x < c.hi) && !(c.head <= x < c.head + HDR) ==> Rd(m', x) == Rd(m, x)
  }

  // ----- the groups of words that are written

  /** A fresh free header at n, linked between h and q. */
  ghost predicate NewHeader(m: Mem, m': Mem, self: int, h: int, n: int, q: int) {
    && (forall x :: !(n <= x < n + HDR) && x != h + NEXT && x != q + PREV ==> Rd(m', x) == Rd(m, x))
    && Rd(m', n) == MAGIC && Rd(m', n + POOL) == self
    && Edge(m', NEXT, h, n) && Edge(m', NEXT, n, q)
  }

  /** The block list goes from h straight to q. */
  ghost predicate Bypass(m: Mem, m': Mem, h: int, q: int) {
    && (forall x :: x != h + NEXT && x != q + PREV ==> Rd(m', x) == Rd(m, x))
    && Edge(m', NEXT, h, q)
  }

  /** h linked into the free list between head and s. */
  ghost predicate Pushed(m: Mem, m': Mem, head: int, h: int, s: int) {
    && (forall x :: x != h + NEXT_FREE && x != h + PREV_FREE && x != head + NEXT_FREE && x != s + PREV_FREE
          ==> Rd(m', x) == Rd(m, x))
    && Edge(m', NEXT_FREE, head, h) && Edge(m', NEXT_FREE, h, s)
  }

  /** The free list goes from p straight to s; the links of h between them may be cleared. */
  ghost predicate Unlinked(m: Mem, m': Mem, p: int, h: int, s: int) {
    && (forall x :: x != h + NEXT_FREE && x != h + PREV_FREE && x != p + NEXT_FREE && x != s + PREV_FREE
          ==> Rd(m', x) == Rd(m, x))
    && Edge(m', NEXT_FREE, p, s)
  }

  /** What rt_memheap_init leaves in memory. */
  ghost predicate Formatted(m: Mem, m': Mem, c: Ctl) {
    var tail := c.hi - HDR;
    && OutsideUntouched(m, m', c)
    && Rd(m', c.lo) == MAGIC && Rd(m', c.lo + POOL) == c.self
    && Rd(m', tail) == MAGIC + 1 && Rd(m', tail + POOL) == c.self
    && Edge(m', NEXT, c.lo, tail) && Edge(m', NEXT, tail, c.lo)
    && Edge(m', NEXT_FREE, c.head, c.lo) && Edge(m', NEXT_FREE, c.lo, c.head)
  }

  lemma FormatRep(m: Mem, m': Mem, c: Ctl)
    requires Formatted(m, m', c) && HeadApart(c)
    requires c.lo % 4 == 0 && c.hi % 4 == 0 && c.hi - c.lo >= 2 * HDR + MINI
    ensures Rep(m', c, [Block(c.lo, c.hi - c.lo - 2 * HDR, false), Block(c.hi - HDR, 0, true)], [c.lo])
  {
    var bs := [Block(c.lo, c.hi - c.lo - 2 * HDR, false), Block(c.hi - HDR, 0, true)];
    assert Addrs(bs) == [c.lo, c.hi - HDR];
    assert Addrs(bs)[0] == c.lo;
    assert [c.head] + [c.lo] == [c.head, c.lo];
  }

  // ----- headers do not overlap

  lemma BlocksApart(c: Ctl, bs: seq<Block>, i: nat, j: nat)
    requires Shape(c.lo, c.hi, bs) && i < |bs| && j < |bs| && i != j
    ensures bs[i].End() <= bs[j].addr || bs[j].End() <= bs[i].addr
    ensures bs[i].addr + HDR <= bs[j].addr || bs[j].addr + HDR <= bs[i].addr
  {
    if i < j { Ordered(c.lo, c.hi, bs, i, j); } else { Ordered(c.lo, c.hi, bs, j, i); }
  }

  lemma InPool(c: Ctl, bs: seq<Block>, i: nat)
    requires Shape(c.lo, c.hi, bs) && i < |bs|
    ensures c.lo <= bs[i].addr && bs[i].End() <= c.hi
  {
    if i > 0 { Ordered(c.lo, c.hi, bs, 0, i); }
    if i < |bs| - 1 { Ordered(c.lo, c.hi, bs, i, |bs| - 1); }
  }

  /** Different words of the headers at a and b are different words of memory. */
  ghost predicate Clear(a: int, b: int) {
    && a + 4 != b && a + 8 != b && a + 12 != b
    && b + 4 != a && b + 8 != a && b + 12 != a
  }

  lemma BlocksClear(c: Ctl, bs: seq<Block>, a: int, b: int)
    requires Shape(c.lo, c.hi, bs) && HeadApart(c)
    requires (a == c.head || a in Addrs(bs)) && (b == c.head || b in Addrs(bs))
    ensures Clear(a, b)
  {
    if a in Addrs(bs) {
      var i :| 0 <= i < |bs| && Addrs(bs)[i] == a;
      InPool(c, bs, i);
      if b in Addrs(bs) {
        var j :| 0 <= j < |bs| && Addrs(bs)[j] == b;
        if i != j { BlocksApart(c, bs, i, j); }
      }
    } else if b in Addrs(bs) {
      var j :| 0 <= j < |bs| && Addrs(bs)[j] == b;
      InPool(c, bs, j);
    }
  }

  // ----- building a header inside block i

  /** A fresh free header at n, inside block i, linked between block i and its successor. */
  ghost predicate CutWrites(m: Mem, m': Mem, c: Ctl, bs: seq<Block>, i: nat, size: int)
    requires i + 1 < |bs|
  {
    NewHeader(m, m', c.self, bs[i].addr, bs[i].Payload() + size, bs[i+1].addr)
  }

  /** Every existing header is clear of the new one, and of the two link words written. */
  lemma CutLeaves(m: Mem, m': Mem, c: Ctl, bs: seq<Block>, i: nat, size: int, j: nat)
    requires Shape(c.lo, c.hi, bs) && Cuttable(bs, i, size) && j < |bs|
    requires CutWrites(m, m', c, bs, i, size)
    ensures Rd(m', bs[j].addr) == Rd(m, bs[j].addr) && Rd(m', bs[j].addr + POOL) == Rd(m, bs[j].addr + POOL)
    ensures Rd(m', bs[j].addr + NEXT_FREE) == Rd(m, bs[j].addr + NEXT_FREE)
    ensures Rd(m', bs[j].addr + PREV_FREE) == Rd(m, bs[j].addr + PREV_FREE)
    ensures j != i ==> Rd(m', bs[j].addr + NEXT) == Rd(m, bs[j].addr + NEXT)
    ensures j != i + 1 ==> Rd(m', bs[j].addr + PREV) == Rd(m, bs[j].addr + PREV)
  {
    if j != i { BlocksApart(c, bs, i, j); }
    if j != i + 1 { BlocksApart(c, bs, i + 1, j); }
  }

  lemma CutApart(c: Ctl, bs: seq<Block>, fs: seq<int>, i: nat, size: int)
    requires Shape(c.lo, c.hi, bs) && FreeNodes(bs, fs) && Cuttable(bs, i, size)
    ensures bs[i].Payload() + size !in fs
  {
    if bs[i].Payload() + size in fs {
      var k :| 0 <= k < |fs| && fs[k] == bs[i].Payload() + size;
      var j := NodeBlock(bs, fs, k);
      if j != i { BlocksApart(c, bs, i, j); }
      assert false;
    }
  }

  lemma CutHeaders(m: Mem, m': Mem, c: Ctl, bs: seq<Block>, i: nat, size: int)
    requires Shape(c.lo, c.hi, bs) && Cuttable(bs, i, size) && Headers(m, c, bs)
    requires CutWrites(m, m', c, bs, i, size)
    ensures Headers(m', c, Cut(bs, i, size))
  {
    var cs := Cut(bs, i, size);
    forall j | 0 <= j < |cs|
      ensures HeaderAt(m', c, cs[j])
    {
      if j != i + 1 {
        var k := if j <= i then j else j - 1;
        CutLeaves(m, m', c, bs, i, size, k);
        assert HeaderAt(m, c, bs[k]);
        assert cs[j].addr == bs[k].addr && cs[j].used == bs[k].used;
      }
    }
  }

  lemma CutLinks(m: Mem, m': Mem, c: Ctl, bs: seq<Block>, i: nat, size: int)
    requires Shape(c.lo, c.hi, bs) && Cuttable(bs, i, size) && Linked(m, NEXT, Addrs(bs))
    requires CutWrites(m, m', c, bs, i, size)
    ensures Linked(m', NEXT, Addrs(Cut(bs, i, size)))
  {
    var r, n := Addrs(bs), bs[i].Payload() + size;
    forall j | 0 <= j < |r|
      ensures j != i ==> Rd(m', r[j] + NEXT) == Rd(m, r[j] + NEXT)
      ensures j != i + 1 ==> Rd(m', r[j] + NEXT + 4) == Rd(m, r[j] + NEXT + 4)
    {
      CutLeaves(m, m', c, bs, i, size, j);
    }
    InsertLinks(m, m', NEXT, r, i, n);
    assert Addrs(Cut(bs, i, size)) == InsertedAfter(r, i, n);
  }

  /** The other blocks keep their bytes, block i the first `size` of its own. */
  lemma CutPayload(m: Mem, m': Mem, c: Ctl, bs: seq<Block>, i: nat, size: int, b: Block)
    requires Shape(c.lo, c.hi, bs) && Cuttable(bs, i, size) && b in bs
    requires CutWrites(m, m', c, bs, i, size)
    ensures b != bs[i] ==> Untouched(m, m', b)
    ensures Untouched(m, m', bs[i].(size := size))
    ensures OutsideUntouched(m, m', c)
  {
    var j :| 0 <= j < |bs| && bs[j] == b;
    BlocksApart(c, bs, i, i + 1);
    InPool(c, bs, i);
    InPool(c, bs, i + 1);
    if j != i { BlocksApart(c, bs, i, j); }
    if j != i + 1 { BlocksApart(c, bs, i + 1, j); }
  }

  lemma CutFreeList(m: Mem, m': Mem, c: Ctl, bs: seq<Block>, fs: seq<int>, i: nat, size: int)
    requires Shape(c.lo, c.hi, bs) && HeadApart(c) && Cuttable(bs, i, size)
    requires FreeNodes(bs, fs) && Linked(m, NEXT_FREE, [c.head] + fs)
    requires CutWrites(m, m', c, bs, i, size)
    ensures Linked(m', NEXT_FREE, [c.head] + fs)
  {
    var r := [c.head] + fs;
    forall k | 0 <= k < |r|
      ensures Rd(m', r[k] + NEXT_FREE) == Rd(m, r[k] + NEXT_FREE) && Rd(m', r[k] + NEXT_FREE + 4) == Rd(m, r[k] + NEXT_FREE + 4)
    {
      if k > 0 {
        assert r[k] == fs[k-1];
        var j := NodeBlock(bs, fs, k - 1);
        CutLeaves(m, m', c, bs, i, size, j);
      } else {
        InPool(c, bs, i);
        InPool(c, bs, i + 1);
      }
    }
    LinkedFrame(m, m', NEXT_FREE, r);
  }

  lemma CutRep(m: Mem, m': Mem, c: Ctl, bs: seq<Block>, fs: seq<int>, i: nat, size: int)
    requires Rep(m, c, bs, fs) && Cuttable(bs, i, size)
    requires CutWrites(m, m', c, bs, i, size)
    ensures Rep(m', c, Cut(bs, i, size), fs)
  {
    CutShape(c.lo, c.hi, bs, i, size);
    CutHeaders(m, m', c, bs, i, size);
    CutLinks(m, m', c, bs, i, size);
    CutFreeList(m, m', c, bs, fs, i, size);
    assert Addrs(Cut(bs, i, size)) == InsertedAfter(Addrs(bs), i, bs[i].Payload() + size);
    MemberInsert(Addrs(bs), i, bs[i].Payload() + size);
    NodesIn(bs, Cut(bs, i, size), fs);
  }

  // ----- absorbing the right neighbour

  /** The links around block i + 1 now bypass it. */
  ghost predicate JoinWrites(m: Mem, m': Mem, bs: seq<Block>, i: nat)
    requires i + 2 < |bs|
  {
    Bypass(m, m', bs[i].addr, bs[i+2].addr)
  }

  lemma JoinLeaves(m: Mem, m': Mem, c: Ctl, bs: seq<Block>, i: nat, j: nat)
    requires Shape(c.lo, c.hi, bs) && i + 2 < |bs| && j < |bs|
    requires JoinWrites(m, m', bs, i)
    ensures Rd(m', bs[j].addr) == Rd(m, bs[j].addr) && Rd(m', bs[j].addr + POOL) == Rd(m, bs[j].addr + POOL)
    ensures Rd(m', bs[j].addr + NEXT_FREE) == Rd(m, bs[j].addr + NEXT_FREE)
    ensures Rd(m', bs[j].addr + PREV_FREE) == Rd(m, bs[j].addr + PREV_FREE)
    ensures j != i ==> Rd(m', bs[j].addr + NEXT) == Rd(m, bs[j].addr + NEXT)
    ensures j != i + 2 ==> Rd(m', bs[j].addr + PREV) == Rd(m, bs[j].addr + PREV)
  {
    if j != i { BlocksApart(c, bs, i, j); }
    if j != i + 2 { BlocksApart(c, bs, i + 2, j); }
  }

  lemma JoinHeaders(m: Mem, m': Mem, c: Ctl, bs: seq<Block>, i: nat)
    requires Shape(c.lo, c.hi, bs) && i + 2 < |bs| && Headers(m, c, bs)
    requires JoinWrites(m, m', bs, i)
    ensures Headers(m', c, Join(bs, i))
  {
    var cs := Join(bs, i);
    forall j | 0 <= j < |cs|
      ensures HeaderAt(m', c, cs[j])
    {
      var k := if j <= i then j else j + 1;
      JoinLeaves(m, m', c, bs, i, k);
      assert HeaderAt(m, c, bs[k]);
      assert cs[j].addr == bs[k].addr && cs[j].used == bs[k].used;
    }
  }

  lemma JoinLinks(m: Mem, m': Mem, c: Ctl, bs: seq<Block>, i: nat)
    requires Shape(c.lo, c.hi, bs) && i + 2 < |bs| && Linked(m, NEXT, Addrs(bs))
    requires JoinWrites(m, m', bs, i)
    ensures Linked(m', NEXT, Addrs(Join(bs, i)))
  {
    var r := Addrs(bs);
    forall j | 0 <= j < |r|
      ensures j != i ==> Rd(m', r[j] + NEXT) == Rd(m, r[j] + NEXT)
      ensures j != i + 2 ==> Rd(m', r[j] + NEXT + 4) == Rd(m, r[j] + NEXT + 4)
    {
      JoinLeaves(m, m', c, bs, i, j);
    }
    RemoveLinks(m, m', NEXT, r, i + 1);
    assert Addrs(Join(bs, i)) == Without(r, i + 1);
  }

  lemma JoinPayload(m: Mem, m': Mem, c: Ctl, bs: seq<Block>, i: nat, b: Block)
    requires Shape(c.lo, c.hi, bs) && i + 2 < |bs| && b in bs
    requires JoinWrites(m, m', bs, i)
    ensures Untouched(m, m', b)
    ensures OutsideUntouched(m, m', c)
  {
    var j :| 0 <= j < |bs| && bs[j] == b;
    InPool(c, bs, i);
    InPool(c, bs, i + 2);
    if j != i { BlocksApart(c, bs, i, j); }
    if j != i + 2 { BlocksApart(c, bs, i + 2, j); }
  }

  lemma JoinFreeList(m: Mem, m': Mem, c: Ctl, bs: seq<Block>, fs: seq<int>, i: nat)
    requires Shape(c.lo, c.hi, bs) && HeadApart(c) && i + 2 < |bs|
    requires FreeNodes(bs, fs) && Linked(m, NEXT_FREE, [c.head] + fs)
    requires JoinWrites(m, m', bs, i)
    ensures Linked(m', NEXT_FREE, [c.head] + fs)
  {
    var r := [c.head] + fs;
    forall k | 0 <= k < |r|
      ensures Rd(m', r[k] + NEXT_FREE) == Rd(m, r[k] + NEXT_FREE) && Rd(m', r[k] + NEXT_FREE + 4) == Rd(m, r[k] + NEXT_FREE + 4)
    {
      if k > 0 {
        assert r[k] == fs[k-1];
        var j := NodeBlock(bs, fs, k - 1);
        JoinLeaves(m, m', c, bs, i, j);
      } else {
        InPool(c, bs, i);
        InPool(c, bs, i + 2);
      }
    }
    LinkedFrame(m, m', NEXT_FREE, r);
  }

  lemma JoinRep(m: Mem, m': Mem, c: Ctl, bs: seq<Block>, fs: seq<int>, i: nat)
    requires Rep(m, c, bs, fs) && i + 2 < |bs| && bs[i+1].addr !in fs
    requires JoinWrites(m, m', bs, i)
    ensures Rep(m', c, Join(bs, i), fs)
  {
    JoinShape(c.lo, c.hi, bs, i);
    JoinHeaders(m, m', c, bs, i);
    JoinLinks(m, m', c, bs, i);
    JoinFreeList(m, m', c, bs, fs, i);
    assert Addrs(Join(bs, i)) == Without(Addrs(bs), i + 1);
    MemberRemove(Addrs(bs), i + 1);
    NodesIn(bs, Join(bs, i), fs);
  }

  // ----- changing the used bit

  /** Setting or clearing bit 0 of a magic word. */
  function WithUsed(magic: int, used: bool): int {
    magic - magic % 2 + (if used then 1 else 0)
  }

  lemma WithUsedMagic(was: bool, used: bool)
    ensures WithUsed(MagicWord(was), used) == MagicWord(used)
  {
  }

  /** The word at a header's address is nobody's link word, and no other header's first words. */
  lemma MarkLeaves(c: Ctl, bs: seq<Block>, i: nat, j: nat)
    requires Shape(c.lo, c.hi, bs) && i < |bs| && j < |bs|
    ensures bs[j].addr + POOL != bs[i].addr && (j != i ==> bs[j].addr != bs[i].addr)
    ensures bs[j].addr + NEXT != bs[i].addr && bs[j].addr + NEXT + 4 != bs[i].addr
    ensures bs[j].addr + NEXT_FREE != bs[i].addr && bs[j].addr + NEXT_FREE + 4 != bs[i].addr
  {
    if j != i { BlocksApart(c, bs, i, j); }
  }

  lemma MarkLinks(m: Mem, m': Mem, c: Ctl, bs: seq<Block>, fs: seq<int>, i: nat)
    requires Shape(c.lo, c.hi, bs) && HeadApart(c) && FreeNodes(bs, fs) && i < |bs|
    requires Linked(m, NEXT, Addrs(bs)) && Linked(m, NEXT_FREE, [c.head] + fs)
    requires forall x :: x != bs[i].addr ==> Rd(m', x) == Rd(m, x)
    ensures Linked(m', NEXT, Addrs(bs)) && Linked(m', NEXT_FREE, [c.head] + fs)
  {
    var r, f := Addrs(bs), [c.head] + fs;
    assert SameLinks(m, m', NEXT, r) by {
      forall j | 0 <= j < |r| ensures r[j] + NEXT != bs[i].addr && r[j] + NEXT + 4 != bs[i].addr {
        MarkLeaves(c, bs, i, j);
      }
    }
    assert SameLinks(m, m', NEXT_FREE, f) by {
      forall k | 0 <= k < |f| ensures f[k] + NEXT_FREE != bs[i].addr && f[k] + NEXT_FREE + 4 != bs[i].addr {
        if k > 0 {
          assert f[k] == fs[k-1];
          var j := NodeBlock(bs, fs, k - 1);
          MarkLeaves(c, bs, i, j);
        } else {
          InPool(c, bs, i);
        }
      }
    }
    LinkedFrame(m, m', NEXT, r);
    LinkedFrame(m, m', NEXT_FREE, f);
  }

  lemma MarkHeaders(m: Mem, m': Mem, c: Ctl, bs: seq<Block>, i: nat, used: bool)
    requires Shape(c.lo, c.hi, bs) && Headers(m, c, bs) && i < |bs|
    requires forall x :: x != bs[i].addr ==> Rd(m', x) == Rd(m, x)
    requires Rd(m', bs[i].addr) == MagicWord(used)
    ensures Headers(m', c, Mark(bs, i, used))
  {
    var cs := Mark(bs, i, used);
    forall j | 0 <= j < |cs|
      ensures HeaderAt(m', c, cs[j])
    {
      MarkLeaves(c, bs, i, j);
      assert HeaderAt(m, c, bs[j]);
      assert cs[j].addr == bs[j].addr;
    }
  }

  lemma MarkRep(m: Mem, m': Mem, c: Ctl, bs: seq<Block>, fs: seq<int>, i: nat, used: bool)
    requires Rep(m, c, bs, fs) && i + 1 < |bs|
    requires forall x :: x != bs[i].addr ==> Rd(m', x) == Rd(m, x)
    requires Rd(m', bs[i].addr) == MagicWord(used)
    ensures Rep(m', c, Mark(bs, i, used), fs)
  {
    MarkShape(c.lo, c.hi, bs, i, used);
    MarkLinks(m, m', c, bs, fs, i);
    MarkHeaders(m, m', c, bs, i, used);
    assert Addrs(Mark(bs, i, used)) == Addrs(bs);
    NodesIn(bs, Mark(bs, i, used), fs);
  }

  lemma MarkPayload(m: Mem, m': Mem, c: Ctl, bs: seq<Block>, i: nat, b: Block)
    requires Shape(c.lo, c.hi, bs) && i < |bs| && b in bs
    requires forall x :: x != bs[i].addr ==> Rd(m', x) == Rd(m, x)
    ensures Untouched(m, m', b) && OutsideUntouched(m, m', c)
  {
    var j :| 0 <= j < |bs| && bs[j] == b;
    InPool(c, bs, i);
    if j != i { BlocksApart(c, bs, i, j); }
  }

  lemma MarkPayloads(m: Mem, m': Mem, c: Ctl, bs: seq<Block>, i: nat)
    requires Shape(c.lo, c.hi, bs) && i < |bs|
    requires forall x :: x != bs[i].addr ==> Rd(m', x) == Rd(m, x)
    ensures forall b {:trigger Untouched(m, m', b)} :: b in bs ==> Untouched(m, m', b)
    ensures OutsideUntouched(m, m', c)
  {
    forall b | b in bs ensures Untouched(m, m', b) {
      MarkPayload(m, m', c, bs, i, b);
    }
    MarkPayload(m, m', c, bs, i, bs[i]);
  }

  // ----- changing the free list

  /** A word that can be written by a free-list operation: a link word of the head or of a block. */
  ghost predicate FreeWord(c: Ctl, bs: seq<Block>, x: int) {
    || x == c.head + NEXT_FREE || x == c.head + PREV_FREE
    || exists j :: 0 <= j < |bs| && (x == bs[j].addr + NEXT_FREE || x == bs[j].addr + PREV_FREE)
  }

  ghost predicate OnlyFreeWords(m: Mem, m': Mem, c: Ctl, bs: seq<Block>) {
    forall x :: Rd(m', x) != Rd(m, x) ==> FreeWord(c, bs, x)
  }

  /** A free-list operation leaves the other words of every header and every payload alone. */
  lemma FreeWordsElsewhere(m: Mem, m': Mem, c: Ctl, bs: seq<Block>, i: nat, x: int)
    requires Shape(c.lo, c.hi, bs) && HeadApart(c) && OnlyFreeWords(m, m', c, bs) && i < |bs|
    requires bs[i].addr <= x < bs[i].addr + NEXT_FREE || bs[i].Payload() <= x < bs[i].End()
    ensures Rd(m', x) == Rd(m, x)
  {
    if Rd(m', x) != Rd(m, x) {
      InPool(c, bs, i);
      if x != c.head + NEXT_FREE && x != c.head + PREV_FREE {
        var j :| 0 <= j < |bs| && (x == bs[j].addr + NEXT_FREE || x == bs[j].addr + PREV_FREE);
        if j != i { BlocksApart(c, bs, i, j); }
      }
      assert false;
    }
  }

  lemma FreePayload(m: Mem, m': Mem, c: Ctl, bs: seq<Block>, b: Block)
    requires Shape(c.lo, c.hi, bs) && HeadApart(c) && OnlyFreeWords(m, m', c, bs) && b in bs
    ensures Untouched(m, m', b) && OutsideUntouched(m, m', c)
  {
    var j :| 0 <= j < |bs| && bs[j] == b;
    forall x | b.Payload() <= x < b.End() ensures Rd(m', x) == Rd(m, x) {
      FreeWordsElsewhere(m, m', c, bs, j, x);
    }
    forall x | !(c.lo <= x < c.hi) && !(c.head <= x < c.head + HDR) ensures Rd(m', x) == Rd(m, x) {
      if Rd(m', x) != Rd(m, x) {
        var k :| 0 <= k < |bs| && (x == bs[k].addr + NEXT_FREE || x == bs[k].addr + PREV_FREE);
        InPool(c, bs, k);
        assert false;
      }
    }
  }

  lemma FreeKeepsBlocks(m: Mem, m': Mem, c: Ctl, bs: seq<Block>)
    requires Shape(c.lo, c.hi, bs) && HeadApart(c) && OnlyFreeWords(m, m', c, bs)
    requires Headers(m, c, bs) && Linked(m, NEXT, Addrs(bs))
    ensures Headers(m', c, bs) && Linked(m', NEXT, Addrs(bs))
  {
    var r := Addrs(bs);
    forall j | 0 <= j < |bs|
      ensures HeaderAt(m', c, bs[j])
      ensures Rd(m', r[j] + NEXT) == Rd(m, r[j] + NEXT) && Rd(m', r[j] + NEXT + 4) == Rd(m, r[j] + NEXT + 4)
    {
      assert HeaderAt(m, c, bs[j]);
      FreeWordsElsewhere(m, m', c, bs, j, bs[j].addr);
      FreeWordsElsewhere(m, m', c, bs, j, bs[j].addr + POOL);
      FreeWordsElsewhere(m, m', c, bs, j, bs[j].addr + NEXT);
      FreeWordsElsewhere(m, m', c, bs, j, bs[j].addr + PREV);
    }
    LinkedFrame(m, m', NEXT, r);
  }

  /** Two nodes of the free list, or a node and a block outside it, do not share link words. */
  lemma NodesApart(c: Ctl, bs: seq<Block>, a: int, b: int)
    requires Shape(c.lo, c.hi, bs) && HeadApart(c) && a != b
    requires (a == c.head || a in Addrs(bs)) && (b == c.head || b in Addrs(bs))
    ensures Apart(a, b)
  {
    if a != c.head {
      var i :| 0 <= i < |bs| && Addrs(bs)[i] == a;
      InPool(c, bs, i);
      if b != c.head {
        var j :| 0 <= j < |bs| && Addrs(bs)[j] == b;
        BlocksApart(c, bs, i, j);
      }
    } else {
      var j :| 0 <= j < |bs| && Addrs(bs)[j] == b;
      InPool(c, bs, j);
    }
  }

  lemma HeadNotBlock(c: Ctl, bs: seq<Block>, a: int)
    requires Shape(c.lo, c.hi, bs) && HeadApart(c) && a in Addrs(bs)
    ensures a != c.head
  {
    var i :| 0 <= i < |bs| && Addrs(bs)[i] == a;
    InPool(c, bs, i);
  }

  lemma RingApart(c: Ctl, bs: seq<Block>, fs: seq<int>, k: nat, l: nat)
    requires Shape(c.lo, c.hi, bs) && HeadApart(c) && FreeNodes(bs, fs) && k <= |fs| && l <= |fs|
    ensures var r := [c.head] + fs; k != l ==> Apart(r[k], r[l])
  {
    var r := [c.head] + fs;
    if k != l {
      if k > 0 { assert r[k] == fs[k-1] && Listed(bs, fs, k - 1); HeadNotBlock(c, bs, r[k]); }
      if l > 0 { assert r[l] == fs[l-1] && Listed(bs, fs, l - 1); HeadNotBlock(c, bs, r[l]); }
      if k > 0 && l > 0 { assert Differ(fs, k - 1, l - 1); }
      NodesApart(c, bs, r[k], r[l]);
    }
  }

  /** Block h put at the front of the free list. */
  ghost predicate PushWrites(m: Mem, m': Mem, c: Ctl, fs: seq<int>, h: int) {
    Pushed(m, m', c.head, h, if fs == [] then c.head else fs[0])
  }

  lemma PushLinks(m: Mem, m': Mem, c: Ctl, bs: seq<Block>, fs: seq<int>, h: int)
    requires Shape(c.lo, c.hi, bs) && HeadApart(c) && FreeNodes(bs, fs)
    requires Linked(m, NEXT_FREE, [c.head] + fs) && h in Addrs(bs) && h !in fs && h != c.head
    requires PushWrites(m, m', c, fs, h)
    ensures Linked(m', NEXT_FREE, [c.head] + ([h] + fs))
  {
    var r := [c.head] + fs;
    forall k | 0 <= k < |r|
      ensures k != 0 ==> Rd(m', r[k] + NEXT_FREE) == Rd(m, r[k] + NEXT_FREE)
      ensures k != Succ(0, |r|) ==> Rd(m', r[k] + NEXT_FREE + 4) == Rd(m, r[k] + NEXT_FREE + 4)
    {
      assert k > 0 ==> r[k] == fs[k-1] && Listed(bs, fs, k - 1);
      NodesApart(c, bs, r[k], h);
      RingApart(c, bs, fs, k, 0);
      RingApart(c, bs, fs, k, Succ(0, |r|));
    }
    InsertLinks(m, m', NEXT_FREE, r, 0, h);
    assert InsertedAfter(r, 0, h) == [c.head] + ([h] + fs);
  }

  lemma PushRep(m: Mem, m': Mem, c: Ctl, bs: seq<Block>, fs: seq<int>, i: nat)
    requires Rep(m, c, bs, fs) && i < |bs| && bs[i].addr !in fs
    requires PushWrites(m, m', c, fs, bs[i].addr)
    ensures Rep(m', c, bs, [bs[i].addr] + fs) && OnlyFreeWords(m, m', c, bs)
  {
    assert Addrs(bs)[i] == bs[i].addr;
    assert OnlyFreeWords(m, m', c, bs) by {
      if fs != [] {
        var j := NodeBlock(bs, fs, 0);
      }
    }
    FreeKeepsBlocks(m, m', c, bs);
    HeadNotBlock(c, bs, bs[i].addr);
    PushLinks(m, m', c, bs, fs, bs[i].addr);
    NodesWith(bs, fs, bs[i].addr);
  }

  /** The free list bypasses its node k, whose own links may be cleared. */
  ghost predicate UnlinkWrites(m: Mem, m': Mem, c: Ctl, fs: seq<int>, k: nat)
    requires k < |fs|
  {
    Unlinked(m, m', if k == 0 then c.head else fs[k-1], fs[k], if k + 1 == |fs| then c.head else fs[k+1])
  }

  lemma UnlinkLinks(m: Mem, m': Mem, c: Ctl, bs: seq<Block>, fs: seq<int>, k: nat)
    requires Shape(c.lo, c.hi, bs) && HeadApart(c) && FreeNodes(bs, fs) && k < |fs|
    requires Linked(m, NEXT_FREE, [c.head] + fs)
    requires UnlinkWrites(m, m', c, fs, k)
    ensures Linked(m', NEXT_FREE, [c.head] + Without(fs, k))
  {
    var r := [c.head] + fs;
    forall l | 0 <= l < |r|
      ensures l != k + 1 && l != k ==> Rd(m', r[l] + NEXT_FREE) == Rd(m, r[l] + NEXT_FREE)
      ensures l != k + 1 && l != Succ(k + 1, |r|) ==> Rd(m', r[l] + NEXT_FREE + 4) == Rd(m, r[l] + NEXT_FREE + 4)
    {
      RingApart(c, bs, fs, l, k + 1);
      RingApart(c, bs, fs, l, k);
      RingApart(c, bs, fs, l, Succ(k + 1, |r|));
    }
    assert r[k] == if k == 0 then c.head else fs[k-1];
    RemoveLinks(m, m', NEXT_FREE, r, k + 1);
    assert Without(r, k + 1) == [c.head] + Without(fs, k);
  }

  lemma UnlinkRep(m: Mem, m': Mem, c: Ctl, bs: seq<Block>, fs: seq<int>, k: nat)
    requires Rep(m, c, bs, fs) && k < |fs|
    requires UnlinkWrites(m, m', c, fs, k)
    ensures Rep(m', c, bs, Without(fs, k)) && OnlyFreeWords(m, m', c, bs)
  {
    assert OnlyFreeWords(m, m', c, bs) by {
      forall l | 0 <= l < |fs| ensures FreeWord(c, bs, fs[l] + NEXT_FREE) && FreeWord(c, bs, fs[l] + PREV_FREE) {
        var j := NodeBlock(bs, fs, l);
      }
    }
    FreeKeepsBlocks(m, m', c, bs);
    UnlinkLinks(m, m', c, bs, fs, k);
    NodesWithout(bs, fs, k);
  }

  // ----- absorbing a free right neighbour

  /** The two pairs of writes of AbsorbNext can be seen in either order. */
  lemma AbsorbOrder(m: Mem, h: int, n: int, q: int, s: int, p: int) returns (mid: Mem)
    requires Clear(h, s) && Clear(h, p) && Clear(q, s) && Clear(q, p) && Clear(s, p) && Clear(h, q)
    ensures Unlinked(m, mid, p, n, s)
    ensures Bypass(mid, m[q + PREV := h][h + NEXT := q][s + PREV_FREE := p][p + NEXT_FREE := s], h, q)
  {
    mid := m[s + PREV_FREE := p][p + NEXT_FREE := s];
    assert mid[q + PREV := h][h + NEXT := q] == m[q + PREV := h][h + NEXT := q][s + PREV_FREE := p][p + NEXT_FREE := s];
  }

  ghost function PrevListed(c: Ctl, fs: seq<int>, k: nat): int
    requires k < |fs|
  {
    if k == 0 then c.head else fs[k-1]
  }

  ghost function NextListed(c: Ctl, fs: seq<int>, k: nat): int
    requires k < |fs|
  {
    if k + 1 == |fs| then c.head else fs[k+1]
  }

  /** The four pointers around block i + 1 = fs[k], as they are read. */
  lemma AbsorbReads(m: Mem, c: Ctl, bs: seq<Block>, fs: seq<int>, i: nat, k: nat)
    requires Rep(m, c, bs, fs) && i + 2 < |bs| && k < |fs| && fs[k] == bs[i+1].addr
    ensures Rd(m, bs[i].addr + NEXT) == bs[i+1].addr && Rd(m, bs[i+1].addr + NEXT) == bs[i+2].addr
    ensures Rd(m, fs[k] + NEXT_FREE) == NextListed(c, fs, k) && Rd(m, fs[k] + PREV_FREE) == PrevListed(c, fs, k)
  {
    var a, r := Addrs(bs), [c.head] + fs;
    assert Edge(m, NEXT, a[i], a[Succ(i, |a|)]) && Edge(m, NEXT, a[i+1], a[Succ(i + 1, |a|)]);
    assert Edge(m, NEXT_FREE, r[k], r[Succ(k, |r|)]) && Edge(m, NEXT_FREE, r[k+1], r[Succ(k + 1, |r|)]);
    assert r[k] == PrevListed(c, fs, k) && r[Succ(k + 1, |r|)] == NextListed(c, fs, k);
  }

  /** The words around it do not overlap. */
  lemma AbsorbClear(c: Ctl, bs: seq<Block>, fs: seq<int>, i: nat, k: nat)
    requires Shape(c.lo, c.hi, bs) && HeadApart(c) && FreeNodes(bs, fs)
    requires i + 2 < |bs| && k < |fs| && fs[k] == bs[i+1].addr
    ensures var h, n, q, s, p := bs[i].addr, bs[i+1].addr, bs[i+2].addr, NextListed(c, fs, k), PrevListed(c, fs, k);
      && Clear(h, n) && Clear(h, q) && Clear(n, q) && Clear(h, s) && Clear(h, p) && Clear(q, s)
      && Clear(q, p) && Clear(s, p) && Clear(n, s) && s != n
  {
    var h, n, q, s, p := bs[i].addr, bs[i+1].addr, bs[i+2].addr, NextListed(c, fs, k), PrevListed(c, fs, k);
    assert Addrs(bs)[i] == h && Addrs(bs)[i+1] == n && Addrs(bs)[i+2] == q;
    HeadNotBlock(c, bs, n);
    assert k > 0 ==> Listed(bs, fs, k - 1) && Differ(fs, k - 1, k);
    assert k + 1 < |fs| ==> Listed(bs, fs, k + 1) && Differ(fs, k + 1, k);
    BlocksClear(c, bs, h, n); BlocksClear(c, bs, h, q); BlocksClear(c, bs, n, q);
    BlocksClear(c, bs, h, s); BlocksClear(c, bs, h, p); BlocksClear(c, bs, q, s);
    BlocksClear(c, bs, q, p); BlocksClear(c, bs, s, p); BlocksClear(c, bs, n, s);
  }

  lemma AbsorbRep(m: Mem, mid: Mem, m': Mem, c: Ctl, bs: seq<Block>, fs: seq<int>, i: nat, k: nat)
    requires Rep(m, c, bs, fs) && i + 2 < |bs| && k < |fs| && fs[k] == bs[i+1].addr
    requires UnlinkWrites(m, mid, c, fs, k) && JoinWrites(mid, m', bs, i)
    ensures Rep(m', c, Join(bs, i), Without(fs, k))
  {
    UnlinkRep(m, mid, c, bs, fs, k);
    NodesWithout(bs, fs, k);
    JoinRep(mid, m', c, bs, Without(fs, k), i);
  }

  lemma AbsorbPayloads(m: Mem, mid: Mem, m': Mem, c: Ctl, bs: seq<Block>, i: nat)
    requires Shape(c.lo, c.hi, bs) && HeadApart(c) && i + 2 < |bs|
    requires OnlyFreeWords(m, mid, c, bs) && JoinWrites(mid, m', bs, i)
    ensures forall b {:trigger Untouched(m, m', b)} :: b in bs ==> Untouched(m, m', b)
    ensures OutsideUntouched(m, m', c)
  {
    forall b | b in bs ensures Untouched(m, m', b) {
      FreePayload(m, mid, c, bs, b);
      JoinPayload(mid, m', c, bs, i, b);
    }
    FreePayload(m, mid, c, bs, bs[i]);
    JoinPayload(mid, m', c, bs, i, bs[i]);
  }

  // ----- writing into a payload

  /** Only payload bytes of block i differ. */
  ghost predicate OnlyPayload(m: Mem, m': Mem, b: Block) {
    forall x :: !(b.Payload() <= x < b.End()) ==> Rd(m', x) == Rd(m, x)
  }

  /** A header word is no payload byte. */
  lemma HeaderNotPayload(c: Ctl, bs: seq<Block>, i: nat, a: int, d: int)
    requires Shape(c.lo, c.hi, bs) && HeadApart(c) && i < |bs| && 0 <= d < HDR
    requires a == c.head || a in Addrs(bs)
    ensures !(bs[i].Payload() <= a + d < bs[i].End())
  {
    InPool(c, bs, i);
    if a != c.head {
      var j :| 0 <= j < |bs| && Addrs(bs)[j] == a;
      if j != i { BlocksApart(c, bs, i, j); }
    }
  }

  /** Whoever writes into the payload of a block leaves the heap as it is. */
  lemma PayloadRep(m: Mem, m': Mem, c: Ctl, bs: seq<Block>, fs: seq<int>, i: nat)
    requires Rep(m, c, bs, fs) && i < |bs| && OnlyPayload(m, m', bs[i])
    ensures Rep(m', c, bs, fs)
  {
    var r, f := Addrs(bs), [c.head] + fs;
    forall j | 0 <= j < |bs|
      ensures HeaderAt(m', c, bs[j])
      ensures Rd(m', r[j] + NEXT) == Rd(m, r[j] + NEXT) && Rd(m', r[j] + NEXT + 4) == Rd(m, r[j] + NEXT + 4)
    {
      assert HeaderAt(m, c, bs[j]) && r[j] == bs[j].addr;
      HeaderNotPayload(c, bs, i, r[j], 0);
      HeaderNotPayload(c, bs, i, r[j], POOL);
      HeaderNotPayload(c, bs, i, r[j], NEXT);
      HeaderNotPayload(c, bs, i, r[j], PREV);
    }
    forall k | 0 <= k < |f|
      ensures Rd(m', f[k] + NEXT_FREE) == Rd(m, f[k] + NEXT_FREE) && Rd(m', f[k] + NEXT_FREE + 4) == Rd(m, f[k] + NEXT_FREE + 4)
    {
      if k > 0 { assert f[k] == fs[k-1] && Listed(bs, fs, k - 1); }
      HeaderNotPayload(c, bs, i, f[k], NEXT_FREE);
      HeaderNotPayload(c, bs, i, f[k], PREV_FREE);
    }
    LinkedFrame(m, m', NEXT, r);
    LinkedFrame(m, m', NEXT_FREE, f);
  }

  lemma PayloadOthers(m: Mem, m': Mem, c: Ctl, bs: seq<Block>, i: nat)
    requires Shape(c.lo, c.hi, bs) && i < |bs| && OnlyPayload(m, m', bs[i])
    ensures forall b {:trigger Untouched(m, m', b)} :: b in bs && b != bs[i] ==> Untouched(m, m', b)
    ensures OutsideUntouched(m, m', c)
  {
    forall b | b in bs && b != bs[i] ensures Untouched(m, m', b) {
      var j :| 0 <= j < |bs| && bs[j] == b;
      BlocksApart(c, bs, i, j);
    }
    InPool(c, bs, i);
  }

  // ----- what a heap depends on

  ghost predicate SameRegion(m: Mem, m': Mem, c: Ctl) {
    forall x :: c.lo <= x < c.hi || c.head <= x < c.head + HDR ==> Rd(m', x) == Rd(m, x)
  }

  /** A heap depends on its pool and its free-list header alone. */
  lemma RepFrame(m: Mem, m': Mem, c: Ctl, bs: seq<Block>, fs: seq<int>)
    requires Rep(m, c, bs, fs) && SameRegion(m, m', c)
    ensures Rep(m', c, bs, fs)
  {
    var r, f := Addrs(bs), [c.head] + fs;
    forall j | 0 <= j < |bs|
      ensures HeaderAt(m', c, bs[j])
      ensures Rd(m', r[j] + NEXT) == Rd(m, r[j] + NEXT) && Rd(m', r[j] + NEXT + 4) == Rd(m, r[j] + NEXT + 4)
    {
      assert HeaderAt(m, c, bs[j]);
      InPool(c, bs, j);
    }
    forall k | 0 <= k < |f|
      ensures Rd(m', f[k] + NEXT_FREE) == Rd(m, f[k] + NEXT_FREE) && Rd(m', f[k] + NEXT_FREE + 4) == Rd(m, f[k] + NEXT_FREE + 4)
    {
      if k > 0 {
        assert f[k] == fs[k-1];
        var j := NodeBlock(bs, fs, k - 1);
        InPool(c, bs, j);
      }
    }
    LinkedFrame(m, m', NEXT, r);
    LinkedFrame(m, m', NEXT_FREE, f);
  }
}
