/**
 rt-thread/src/slab.c: the slab allocator in place, over the page allocator.
 */
module SlabHeaps {
  import opened Queues
  import opened SizeClasses
  import opened Zones
  import opened Pages
  import opened Slabs
  import opened Store
  import Kservice

  const MIN_ZONE_SIZE := 32 * 1024
  const MAX_ZONE_SIZE := 128 * 1024
  const RELEASE_THRESH := 2

  /** How many pages a large block of so many bytes has. */
  function PageCount(bytes: int): nat {
    if bytes > 0 then bytes / PAGE else 0
  }

  class SlabHeap {
    const pages: PageAllocator
    const zp: nat              // zone_page_cnt
    const limit: nat           // zone_limit
    const meta: int            // the pages of memusage
    const metaPages: nat
    var zones: map<int, Zone>  // the zone headers, by first page
    var table: seq<seq<int>>   // zone_array
    var idle: seq<int>         // zone_free
    var idleCount: int
    var usage: map<int, Usage> // memusage
    ghost var owner: map<int, int>
    ghost var lives: map<int, set<int>>
    ghost var larges: map<int, int>
    ghost var live: map<int, int>

    ghost function View(): State
      reads this
    {
      State(zp, zones, table, idle, usage, meta, metaPages, owner, lives, larges, live)
    }

    ghost predicate Valid()
      reads this, pages
    {
      && pages.Valid() && Inv(View(), 0) && owner.Keys == pages.out && metaPages > 0
      && idleCount == |idle| <= RELEASE_THRESH && ((zp == 8 && limit == 8192) || (zp >= 16 && limit == CLASS_LIMIT))
    }

    /** rt_system_heap_init. */
    constructor (begin: nat, end: nat)
      requires 0 < begin && RoundUp(begin, PAGE) < end / PAGE * PAGE
      ensures Valid() && live == map[] && fresh(pages)
      ensures idle == [] && forall i {:trigger table[i]} :: 0 <= i < NZONES ==> table[i] == []
      ensures var first, n := RoundUp(begin, PAGE) / PAGE, (end / PAGE * PAGE - RoundUp(begin, PAGE)) / PAGE;
        && pages.runs == AllocRest([Run(first, n)], RoundUp(n * 4, PAGE) / PAGE)
        && zp * PAGE == ZoneBytes(end / PAGE * PAGE - RoundUp(begin, PAGE)) && limit == if zp == 8 then 8192 else CLASS_LIMIT
    {
      var start, stop := RoundUp(begin, PAGE), end / PAGE * PAGE;
      var npages := (stop - start) / PAGE;
      RoundedUp(begin, PAGE);
      var p := new PageAllocator(start / PAGE, npages);
      var zoneSize := ZoneSize(stop - start);
      pages, zp := p, zoneSize / PAGE;
      limit := if zoneSize / 4 > CLASS_LIMIT then CLASS_LIMIT else zoneSize / 4;
      var k := RoundUp(npages * 4, PAGE) / PAGE;
      var b := p.Alloc(k);
      meta, metaPages := b, k;
      zones, table, idle, idleCount, usage := map[], seq(NZONES, i => []), [], 0, map[];
      owner, lives, larges, live := map p | p in PageSet(b, k) :: b, map[], map[], map[];
      new;
      InitInv(zp, b, k);
      assert View() == State(zp, map[], seq(NZONES, i => []), [], map[], b, k, map p | p in PageSet(b, k) :: b, map[], map[], map[]);
    }

    /** rt_malloc gives out so many bytes for a request. */
    function Granted(size: nat): nat {
      if size >= limit then RoundUp(size, PAGE) else ZoneIndex(size).1
    }

    /** No memory for a request: neither a zone with a free chunk nor an idle zone nor a long enough run of pages. */
    ghost predicate Exhausted(size: nat)
      requires |table| == NZONES
      reads this, pages
    {
      if size >= limit then NoRun(pages.runs, RoundUp(size, PAGE) / PAGE)
      else var i := ZoneIndex(size).0; 0 <= i < NZONES && table[i] == [] && idle == [] && NoRun(pages.runs, zp)
    }

    /** The page at which the zone or the run lies that serves a request: of its class's first zone, of the first idle zone, or of the first long enough run. */
    ghost function FirstPage(size: nat): int
      requires |table| == NZONES
      reads this, pages
    {
      if size >= limit then AllocStart(pages.runs, RoundUp(size, PAGE) / PAGE)
      else
        var i := ZoneIndex(size).0;
        if 0 <= i < NZONES && table[i] != [] then table[i][0]
        else if idle != [] then idle[0]
        else AllocStart(pages.runs, zp)
    }

    /** rt_malloc. */
    method Malloc(size: nat) returns (r: int)
      requires Valid()
      modifies this, pages
      ensures Valid()
      ensures r == 0 <==> size == 0 || old(Exhausted(size))
      ensures r == 0 ==> live == old(live) && pages.runs == old(pages.runs)
      ensures r != 0 ==> r !in old(live) && live == old(live)[r := Granted(size)] && Granted(size) >= size
      // a power-of-two request is aligned to its size exactly when that is not more than a page, or the first page is aligned to it
      ensures r != 0 && IsPow2(size) ==> (r % size == 0 <==> size <= PAGE || (old(FirstPage(size)) * PAGE) % size == 0)
    {
      if size == 0 {
        return 0;
      }
      if size >= limit {
        r := MallocPages(size);
        return;
      }
      var (zi, chunk) := ZoneIndex(size);
      BestFit(size);
      assert ChunkSize(zi) <= limit;
      if table[zi] != [] {
        r := TakeFrom(zi, chunk);
      } else {
        r := MallocZone(zi, chunk);
      }
      if r != 0 && IsPow2(size) {
        LiveChunk(View(), 0, old(FirstPage(size)), r);
        ChunkAlignedIff(View(), old(FirstPage(size)), r, size);
      }
    }

    /** rt_malloc, large requests. */
    method MallocPages(size: nat) returns (r: int)
      requires Valid() && size >= limit
      modifies this, pages
      ensures Valid()
      ensures r == 0 <==> old(Exhausted(size))
      ensures r == 0 ==> live == old(live) && pages.runs == old(pages.runs)
      ensures r != 0 ==> r !in old(live) && live == old(live)[r := RoundUp(size, PAGE)] && RoundUp(size, PAGE) >= size
      ensures r != 0 ==> r == old(FirstPage(size)) * PAGE
    {
      var n := RoundUp(size, PAGE) / PAGE;
      WholePages(size);
      RunFor(pages.runs, n);
      var b := pages.Alloc(n);
      if b == 0 {
        return 0;
      }
      BookPages(b, n);
      return b * PAGE;
    }

    /** The type of the first page set, the pages and the block booked. */
    method BookPages(b: int, n: nat)
      requires Inv(View(), 0) && metaPages > 0 && b > 0 && n > 0 && Foreign(View(), b, n)
      modifies this`usage, this`owner, this`larges, this`live
      ensures Inv(View(), 0) && owner == Held(old(owner), b, n)
      ensures b * PAGE !in old(live) && live == old(live)[b * PAGE := n * PAGE]
    {
      LargeTakeKeeps(View(), b, n);
      usage := usage[b := Large(n)];
      owner, larges, live := Held(owner, b, n), larges[b := n], live[b * PAGE := n * PAGE];
    }

    /** rt_malloc from the first zone of its class. */
    method TakeFrom(zi: nat, chunk: nat) returns (c: int)
      requires Valid() && zi < NZONES && table[zi] != [] && chunk == ChunkSize(zi)
      modifies this`zones, this`table, this`lives, this`live
      ensures Valid()
      ensures c != 0 && c !in old(live) && live == old(live)[c := chunk]
      ensures var a := old(table[zi][0]); a in zones && a in lives && c in lives[a]
    {
      Head(View(), zi);
      TakeKeeps(View(), zi);
      c := TakeFirst(zi, chunk);
    }

    /** The chunk and the changes to its zone and to the table. */
    method TakeFirst(zi: nat, chunk: nat) returns (c: int)
      requires Inv(View(), 0) && zi < NZONES && table[zi] != [] && chunk == ChunkSize(zi)
      modifies this`zones, this`table, this`lives, this`live
      ensures (View(), c) == TakeStep(old(View()), zi) && live == old(live)[c := chunk]
    {
      Head(View(), zi);
      var a := table[zi][0];
      var z: Zone;
      assert zones[a].chunk == chunk;
      z, c := NextChunk(zones[a], chunk);
      if z.nfree == 0 {
        table := table[zi := table[zi][1..]];
      }
      zones := zones[a := z];
      lives, live := lives[a := lives[a] + {c}], live[c := chunk];
    }

    /** rt_malloc with a new zone: an idle one, or one from the page allocator. */
    method MallocZone(zi: nat, chunk: nat) returns (c: int)
      requires Valid() && zi < NZONES && chunk == ChunkSize(zi) <= limit
      modifies this, pages
      ensures Valid()
      ensures c == 0 <==> old(idle) == [] && NoRun(old(pages.runs), zp)
      ensures c == 0 ==> live == old(live) && pages.runs == old(pages.runs)
      ensures c != 0 ==> c !in old(live) && live == old(live)[c := chunk]
      ensures c != 0 ==> var a := if old(idle) != [] then old(idle)[0] else AllocStart(old(pages.runs), zp); a in zones && a in lives && c in lives[a]
    {
      var a: int;
      if idle != [] {
        ReuseKeeps(View());
        a, idle, idleCount := idle[0], idle[1..], idleCount - 1;
      } else {
        a := NewZone();
        if a == 0 {
          return 0;
        }
      }
      c := Open(a, zi, chunk);
    }

    /** A zone from the page allocator, its pages marked. */
    method NewZone() returns (a: int)
      requires Valid() && idle == []
      modifies this`usage, this`owner, pages
      ensures a == AllocStart(old(pages.runs), zp) && (a == 0 <==> NoRun(old(pages.runs), zp))
      ensures a == 0 ==> Valid() && pages.runs == old(pages.runs)
      ensures a != 0 ==> pages.Valid() && a > 0 && Inv(View(), a) && owner.Keys == pages.out
    {
      RunFor(pages.runs, zp);
      a := pages.Alloc(zp);
      if a == 0 {
        return;
      }
      AcquireKeeps(View(), a);
      Mark(a);
      owner := Held(owner, a, zp);
    }

    /** The loop of rt_malloc over a zone's page types. */
    method Mark(a: int)
      modifies this`usage
      ensures usage == MarkSmall(old(usage), a, zp)
    {
      var off := 0;
      while off < zp
        invariant off <= zp && usage == MarkSmall(old(usage), a, off)
      {
        usage := usage[a + off := Small(off)];
        off := off + 1;
      }
    }

    /** The loop of rt_free over a zone's page types. */
    method Unmark(a: int)
      modifies this`usage
      ensures usage == MarkUnused(old(usage), a, zp)
    {
      var off := 0;
      while off < zp
        invariant off <= zp && usage == MarkUnused(old(usage), a, off)
      {
        usage := usage[a + off := Unused];
        off := off + 1;
      }
    }

    /** The zone at a laid out for its class; its first chunk is handed out. */
    method Open(a: int, zi: nat, chunk: nat) returns (c: int)
      requires a > 0 && Inv(View(), a) && zi < NZONES && chunk == ChunkSize(zi) <= limit <= zp * 1024
      modifies this`zones, this`table, this`lives, this`live
      ensures Inv(View(), 0) && c > 0 && c !in old(live) && live == old(live)[c := chunk]
      ensures a in zones && a in lives && c in lives[a]
    {
      ghost var s := View();
      OpenKeeps(s, a, zi);
      SizesGrow(zi, zi + 1);
      var z := FreshZone(a, zp, zi, chunk);
      zones := zones[a := z];
      c := z.base;
      table := table[zi := [a] + table[zi]];
      lives, live := lives[a := {c}], live[c := chunk];
      assert View() == OpenStep(s, a, zi).0;
    }

    /** The block is a chunk of a zone. */
    ghost predicate SmallAt(ptr: int)
      reads this
    {
      ptr / PAGE in usage && usage[ptr / PAGE].Small?
    }

    /** The zone of a chunk. */
    ghost function Home(ptr: int): int
      reads this
      requires SmallAt(ptr)
    {
      ptr / PAGE - usage[ptr / PAGE].off
    }

    /** The chunk is its zone's only live one, and its class has another zone with free chunks. */
    ghost predicate Empties(ptr: int)
      reads this
      requires SmallAt(ptr)
    {
      var a := Home(ptr);
      && a in zones && a in lives && lives[a] == {ptr} && zones[a].zi < |table|
      && Another(table[zones[a].zi], a)
    }

    /** rt_free. */
    method Free(ptr: int)
      requires Valid() && (ptr == 0 || ptr in live)
      modifies this, pages
      ensures Valid() && live == old(live) - {ptr}
      // the pages of a large block are free again
      ensures ptr != 0 && !old(SmallAt(ptr)) ==> idle == old(idle) && pages.runs == Freed(old(pages.runs), ptr / PAGE, PageCount(old(live)[ptr]))
      // a zone that the block leaves empty, unless its class has no other, is idle, or its pages are free when two are idle already
      ensures ptr != 0 && old(SmallAt(ptr)) ==>
        var a := old(Home(ptr));
        if old(Empties(ptr)) then
          && a !in zones
          && idle == (if |old(idle)| < RELEASE_THRESH then [a] + old(idle) else old(idle))
          && pages.runs == if |old(idle)| < RELEASE_THRESH then old(pages.runs) else Freed(old(pages.runs), a, zp)
        else a in zones && idle == old(idle) && pages.runs == old(pages.runs)
    {
      if ptr == 0 {
        NoNull(View());
        return;
      }
      Known(View(), ptr);
      var kup := usage[ptr / PAGE];
      if !kup.Small? {
        FreePages(ptr);
        return;
      }
      FreeChunk(ptr);
    }

    /** rt_free of a chunk. */
    method FreeChunk(ptr: int)
      requires Valid() && ptr in live && SmallAt(ptr)
      modifies this, pages
      ensures Valid() && live == old(live) - {ptr}
      ensures var a := old(Home(ptr));
        if old(Empties(ptr)) then
          && a !in zones
          && idle == (if |old(idle)| < RELEASE_THRESH then [a] + old(idle) else old(idle))
          && pages.runs == if |old(idle)| < RELEASE_THRESH then old(pages.runs) else Freed(old(pages.runs), a, zp)
        else a in zones && idle == old(idle) && pages.runs == old(pages.runs)
    {
      var a := PutBack(ptr);
      if zones[a].nfree == zones[a].nmax && table[zones[a].zi] != [a] {
        Retire(a);
        if idleCount > RELEASE_THRESH {
          ReleaseIdle();
        }
      }
    }

    /** rt_free of a large block. */
    method FreePages(ptr: int)
      requires Valid() && ptr in live && ptr / PAGE in usage && !usage[ptr / PAGE].Small?
      modifies this`usage, this`owner, this`larges, this`live, pages
      ensures Valid() && live == old(live) - {ptr} && pages.runs == Freed(old(pages.runs), ptr / PAGE, PageCount(old(live)[ptr]))
    {
      HomeLarge(View(), ptr);
      var b := ptr / PAGE;
      var n := usage[b].n;
      LargeFreeKeeps(View(), b);
      LargePages(View(), b);
      assert LargeOk(View(), b);
      assert n == PageCount(live[ptr]);
      usage := usage[b := Large(0)];
      owner, larges, live := owner - PageSet(b, n), larges - {b}, live - {ptr};
      pages.Free(b, n);
    }

    /** The chunk goes to its zone's free list; a zone that had no free chunk returns to the table. */
    method PutBack(ptr: int) returns (a: int)
      requires Valid() && ptr in live && ptr / PAGE in usage && usage[ptr / PAGE].Small?
      modifies this`zones, this`table, this`lives, this`live
      ensures Valid() && live == old(live) - {ptr} && a in zones && zones[a].zi < |table|
      ensures a == old(Home(ptr)) && (zones[a].nfree == zones[a].nmax && table[zones[a].zi] != [a] <==> old(Empties(ptr)))
    {
      HomeZone(View(), ptr);
      PutKeeps(View(), ptr);
      PutFree(View(), ptr);
      PutRow(View(), ptr);
      ghost var row := table[zones[Home(ptr)].zi];
      a := PutFirst(ptr);
      assert a in View().zones && ZoneOk(View(), a);
      RowAlone(table[zones[a].zi], a);
      SameOthers(row, table[zones[a].zi], a);
    }

    lemma SameOthers(q: seq<int>, r: seq<int>, a: int)
      requires forall b {:trigger b in r} :: b in r <==> b in q || b == a
      ensures Another(q, a) <==> Another(r, a)
    {
      if Another(q, a) {
        var b :| b in q && b != a;
        assert b in r;
      }
    }

    /** The changes to the chunk's zone and to the table. */
    method PutFirst(ptr: int) returns (a: int)
      requires Inv(View(), 0) && ptr in live && ptr / PAGE in usage && usage[ptr / PAGE].Small?
      modifies this`zones, this`table, this`lives, this`live
      ensures View() == PutStep(old(View()), ptr) && a == ptr / PAGE - usage[ptr / PAGE].off && live == old(live) - {ptr}
    {
      HomeZone(View(), ptr);
      a := ptr / PAGE - usage[ptr / PAGE].off;
      assert ZoneOk(View(), a);
      var z := zones[a];
      z := z.(freed := [ptr] + z.freed);
      if z.nfree == 0 {
        table := table[z.zi := [a] + table[z.zi]];
      }
      z := z.(nfree := z.nfree + 1);
      assert z == PutChunk(old(zones)[a], ptr);
      zones := zones[a := z];
      lives, live := lives[a := lives[a] - {ptr}], live - {ptr};
    }

    /** A zone without live chunks moves from the table to the idle list. */
    method Retire(a: int)
      requires Valid() && a in zones && zones[a].nfree == zones[a].nmax && zones[a].zi < |table|
      modifies this`zones, this`table, this`lives, this`idle, this`idleCount
      ensures pages.Valid() && Inv(View(), 0) && owner.Keys == pages.out && idle == [a] + old(idle) && idleCount == |idle|
      ensures a !in zones
    {
      ghost var s := View();
      RetireKeeps(s, a);
      var i := zones[a].zi;
      InRow(s, a);
      var row := Unlinked(table[i], a);
      table := table[i := row];
      zones := zones - {a};
      lives := lives - {a};
      idle, idleCount := [a] + idle, idleCount + 1;
      assert View() == RetireStep(s, a);
    }

    /** The first idle zone goes back to the page allocator. */
    method ReleaseIdle()
      requires pages.Valid() && Inv(View(), 0) && owner.Keys == pages.out && idle != [] && idleCount == |idle|
      modifies this`idle, this`idleCount, this`usage, this`owner, pages
      ensures pages.Valid() && Inv(View(), 0) && owner.Keys == pages.out && idle == old(idle[1..]) && idleCount == |idle|
      ensures pages.runs == Freed(old(pages.runs), old(idle[0]), zp)
    {
      ghost var s := View();
      ReuseKeeps(s);
      var a := idle[0];
      idle, idleCount := idle[1..], idleCount - 1;
      ReleaseKeeps(View(), a);
      ZonePages(View(), a);
      Unmark(a);
      owner := owner - PageSet(a, zp);
      pages.Free(a, zp);
    }

    /** Whether a live block is a chunk, and its size. */
    method Class(ptr: int) returns (small: bool, bytes: nat)
      requires Valid() && ptr in live
      ensures live[ptr] == bytes && small == SmallAt(ptr)
    {
      ghost var s := View();
      Known(s, ptr);
      small := usage[ptr / PAGE].Small?;
      if small {
        HomeZone(s, ptr);
        LiveChunk(s, 0, ptr / PAGE - usage[ptr / PAGE].off, ptr);
        bytes := zones[ptr / PAGE - usage[ptr / PAGE].off].chunk;
      } else {
        HomeLarge(s, ptr);
        assert LargeOk(s, ptr / PAGE);
        bytes := usage[ptr / PAGE].n * PAGE;
      }
    }

    /** rt_realloc: a block of the same class stays where it is. */
    method Realloc(st: Memory, ptr: int, size: nat) returns (r: int)
      requires Valid() && (ptr == 0 || ptr in live)
      modifies this, pages, st
      ensures Valid()
      ensures r == 0 ==> st.m == old(st.m)
      ensures r == 0 && size != 0 ==> live == old(live)
      ensures size == 0 ==> r == 0 && live == old(live) - {ptr}
      ensures r != 0 ==> (live - {r}) == old(live) - {ptr, r} && r in live && live[r] >= size && (r == ptr || r !in old(live))
      // a chunk stays exactly if the new size has its class; otherwise the block is one that rt_malloc gives for the size, or for its class
      ensures ptr == 0 && size != 0 ==> (r == 0 <==> old(Exhausted(size))) && (r != 0 ==> live[r] == Granted(size))
      ensures ptr != 0 && size != 0 ==>
        var request := if old(SmallAt(ptr)) then ZoneIndex(size).1 else size;
        && (r == ptr <==> old(SmallAt(ptr)) && old(live)[ptr] == request)
        && (r != ptr ==> (r == 0 <==> old(Exhausted(request))) && (r != 0 ==> live[r] == Granted(request)))
      // the bytes of the block, as far as the new size goes, and those of all other live blocks are preserved
      ensures r != 0 && ptr != 0 ==> SameBytes(old(st.m), st.m, r, ptr, if old(live)[ptr] < size then old(live)[ptr] else size)
      ensures Spared(old(st.m), st.m, old(live), ptr)
    {
      if ptr == 0 {
        NoNull(View());
        r := Malloc(size);
        return;
      }
      if size == 0 {
        Free(ptr);
        return 0;
      }
      var request := size;
      var small, oldsize := Class(ptr);
      if small {
        request := ZoneIndex(size).1;
        if size < CLASS_LIMIT { BestFit(size); }
        if oldsize == request {
          return ptr;
        }
      }
      r := Move(st, ptr, oldsize, request);
    }

    /** The last statements of rt_realloc: another block, the bytes copied, the old block freed. */
    method Move(st: Memory, ptr: int, oldsize: nat, request: nat) returns (r: int)
      requires Valid() && ptr in live && live[ptr] == oldsize && request > 0
      modifies this, pages, st
      ensures Valid()
      ensures r == 0 <==> old(Exhausted(request))
      ensures r == 0 ==> st.m == old(st.m) && live == old(live)
      ensures r != 0 ==> r !in old(live) && r in live && live[r] == Granted(request) >= request && live - {r} == old(live) - {ptr}
      ensures r != 0 ==> SameBytes(old(st.m), st.m, r, ptr, if request > oldsize then oldsize else request)
      ensures r != 0 ==> Spared(old(st.m), st.m, old(live), ptr)
    {
      r := Malloc(request);
      if r != 0 {
        CopyBlock(st, r, ptr, if request > oldsize then oldsize else request);
        SparedLess(old(st.m), st.m, old(live), live, r, ptr);
        Free(ptr);
      }
    }

    /** The first n bytes of a live block copied to another one. */
    method CopyBlock(st: Memory, dst: int, src: int, n: nat)
      requires Valid() && dst in live && src in live && dst != src && n <= live[dst] && n <= live[src]
      modifies st
      ensures SameBytes(old(st.m), st.m, dst, src, n) && Spared(old(st.m), st.m, live, dst)
    {
      LiveApart(View(), 0, dst, src);
      Kservice.Memcpy(st, dst, src, n);
      forall a | a in live && a != dst ensures SameBytes(old(st.m), st.m, a, a, live[a]) { LiveApart(View(), 0, a, dst); }
    }
  }

  /** The chunk that rt_malloc takes in a zone that has one. */
  method NextChunk(z: Zone, chunk: nat) returns (z': Zone, c: int)
    requires (z.uindex + 1 != z.nmax || z.freed != []) && chunk == z.chunk
    ensures (z', c) == TakeChunk(z)
  {
    z' := z.(nfree := z.nfree - 1);
    if z'.uindex + 1 != z'.nmax {
      z' := z'.(uindex := z'.uindex + 1);
      c := z'.base + z'.uindex * chunk;
    } else {
      c := z'.freed[0];
      z' := z'.(freed := z'.freed[1..]);
    }
  }

  /** The n bytes at dst are those that were at src. */
  ghost predicate SameBytes(m: Mem, m': Mem, dst: int, src: int, n: int) {
    forall x {:trigger Rd(m', x)} :: dst <= x < dst + n ==> Rd(m', x) == Rd(m, x - dst + src)
  }

  /** Live blocks but b have kept their bytes. */
  ghost predicate Spared(m: Mem, m': Mem, live: map<int, int>, b: int) {
    forall a {:trigger a in live} :: a in live && a != b ==> SameBytes(m, m', a, a, live[a])
  }

  lemma SparedLess(m: Mem, m': Mem, live: map<int, int>, more: map<int, int>, r: int, b: int)
    requires Spared(m, m', more, r) && r !in live && forall a {:trigger a in live} :: a in live ==> a in more && more[a] == live[a]
    ensures Spared(m, m', live, b)
  {
    forall a | a in live && a != b ensures SameBytes(m, m', a, a, live[a]) { assert a in more; }
  }

  /** The zone size for a pool of so many bytes. */
  function ZoneBytes(room: nat): nat {
    if 2 * MIN_ZONE_SIZE >= room / 1024 then MIN_ZONE_SIZE
    else if 4 * MIN_ZONE_SIZE >= room / 1024 then 2 * MIN_ZONE_SIZE
    else MAX_ZONE_SIZE
  }

  /** The loop that computes zone_size in rt_system_heap_init. */
  method ZoneSize(room: nat) returns (size: nat)
    ensures size == ZoneBytes(room)
    // the least of the three that is not below half of room / 1024, or the greatest
    ensures size == MIN_ZONE_SIZE || size == 2 * MIN_ZONE_SIZE || size == MAX_ZONE_SIZE
    ensures size < MAX_ZONE_SIZE ==> 2 * size >= room / 1024
    ensures size > MIN_ZONE_SIZE ==> size < room / 1024
  {
    size := MIN_ZONE_SIZE;
    while size < MAX_ZONE_SIZE && 2 * size < room / 1024
      invariant size == MIN_ZONE_SIZE || size == 2 * MIN_ZONE_SIZE || size == MAX_ZONE_SIZE
      invariant size > MIN_ZONE_SIZE ==> size < room / 1024
      decreases MAX_ZONE_SIZE - size
    {
      size := 2 * size;
    }
  }

  /** A run from rt_system_heap_init in which a power-of-two request is not aligned to its size: 8 KB from 20 pages, behind one page of memusage. */
  method MisalignedPages() returns (h: SlabHeap, r: int)
    ensures fresh(h) && h.Valid() && r in h.live && h.live[r] == 8192 && r % 8192 != 0
  {
    h := new SlabHeap(2 * PAGE, 22 * PAGE);
    assert IsPow2(8192) by { Powers(); }
    assert h.pages.runs == [Run(3, 19)] && h.limit == 8192;
    assert !NoRun(h.pages.runs, 2) by { assert h.pages.runs[0].n >= 2; }
    r := h.Malloc(8192);
  }

  /** The same with a chunk: in a pool of 17000 pages zones have 64 KB, and the first one starts at page 19. */
  method MisalignedChunk() returns (h: SlabHeap, r: int)
    ensures fresh(h) && h.Valid() && r in h.live && h.live[r] == 8192 && r % 8192 != 0
  {
    h := new SlabHeap(2 * PAGE, 17002 * PAGE);
    assert IsPow2(8192) by { Powers(); }
    assert h.zp == 16 && h.pages.runs == [Run(19, 16983)];
    assert !NoRun(h.pages.runs, 16) by { assert h.pages.runs[0].n >= 16; }
    assert ZoneIndex(8192) == (63, 8192) && h.table[63] == [];
    r := h.Malloc(8192);
  }

  /** The loop of rt_free that unlinks a zone from its row. */
  method Unlinked(q: seq<int>, a: int) returns (r: seq<int>)
    requires a in q
    ensures r == Removed(q, a)
  {
    var i := 0;
    while q[i] != a
      invariant i < |q| && a !in q[..i]
      decreases |q| - i
    {
      assert q == q[..i + 1] + q[i + 1..];
      i := i + 1;
    }
    RemovedAt(q, a, i);
    r := q[..i] + q[i + 1..];
  }

  ghost predicate NoRun(rs: seq<Run>, n: nat) {
    forall i {:trigger rs[i]} :: 0 <= i < |rs| ==> rs[i].n < n
  }

  lemma RunFor(rs: seq<Run>, n: nat)
    requires Sorted(rs) && n > 0
    ensures AllocStart(rs, n) == 0 <==> NoRun(rs, n)
    ensures AllocStart(rs, n) == 0 ==> AllocRest(rs, n) == rs
  {
    AllocFails(rs, n);
    AllocKeeps(rs, n, 0);
  }

  lemma WholePages(size: nat)
    requires size > 0
    ensures var r := RoundUp(size, PAGE); r / PAGE > 0 && r / PAGE * PAGE == r >= size
  {
    RoundedUp(size, PAGE);
  }
}
