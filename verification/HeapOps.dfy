/**
 What a whole operation of memheap.c does to the layout: it replaces a stretch of blocks by
 another stretch over the same bytes.  `Edited` says what must hold of such a replacement for
 the heap to stay well formed; the lemmas after it give the replacement for each operation.
 */
module HeapOps {
  import opened Store
  import opened HeapLayout
  import opened HeapRep

  /** The free list fs holds exactly the unused blocks of bs. */
  ghost predicate Agree(bs: seq<Block>, fs: seq<int>) {
    forall i {:trigger bs[i].addr in fs} :: 0 <= i < |bs| ==> (bs[i].addr in fs <==> !bs[i].used)
  }

  /** ns may replace bs[i..i+k]: same bytes, sized blocks, no free block next to another. */
  ghost predicate Fits(bs: seq<Block>, i: nat, k: nat, ns: seq<Block>) {
    && 0 < k && i + k < |bs|
    && Tiled(bs[i].addr, bs[i+k-1].End(), ns)
    && (forall j :: 0 <= j < |ns| ==> Sized(ns[j]))
    && NoFreeNeighbours(ns)
    && (i > 0 ==> bs[i-1].used || ns[0].used)
    && (ns[|ns|-1].used || bs[i+k].used)
  }

  lemma EditedNeighbours(bs: seq<Block>, i: nat, k: nat, ns: seq<Block>)
    requires NoFreeNeighbours(bs) && Fits(bs, i, k, ns)
    ensures NoFreeNeighbours(Replace(bs, i, k, ns))
  {
    var rs := Replace(bs, i, k, ns);
    forall j | 0 < j < |rs| ensures Parted(rs, j) {
      if j < i {
        assert Parted(bs, j);
        assert rs[j] == bs[j] && rs[j-1] == bs[j-1];
      } else if j == i {
        assert rs[j] == ns[0] && rs[j-1] == bs[j-1];
      } else if j < i + |ns| {
        assert Parted(ns, j - i);
        assert rs[j] == ns[j-i] && rs[j-1] == ns[j-i-1];
      } else if j == i + |ns| {
        assert rs[j] == bs[i+k] && rs[j-1] == ns[|ns|-1];
      } else {
        assert Parted(bs, j - |ns| + k);
        assert rs[j] == bs[j-|ns|+k] && rs[j-1] == bs[j-|ns|+k-1];
      }
    }
  }

  lemma Edited(lo: int, hi: int, bs: seq<Block>, i: nat, k: nat, ns: seq<Block>)
    requires WellFormed(lo, hi, bs) && Fits(bs, i, k, ns)
    ensures WellFormed(lo, hi, Replace(bs, i, k, ns))
    ensures FreeSum(Replace(bs, i, k, ns)) == FreeSum(bs) - FreeSum(bs[i..i+k]) + FreeSum(ns)
    ensures Live(Replace(bs, i, k, ns)) == Live(bs) - Live(bs[i..i+k]) + Live(ns)
  {
    ShapeReplace(lo, hi, bs, i, k, ns);
    EditedNeighbours(bs, i, k, ns);
    SumReplace(bs, i, k, ns);
    LiveReplace(lo, hi, bs, i, k, ns);
  }

  /** The free list follows: unchanged outside the stretch, the free blocks of ns inside it. */
  lemma EditedList(lo: int, hi: int, bs: seq<Block>, i: nat, k: nat, ns: seq<Block>, fs: seq<int>, gs: seq<int>)
    requires Tiled(lo, hi, bs) && Agree(bs, fs) && 0 < k && i + k < |bs|
    requires Tiled(bs[i].addr, bs[i+k-1].End(), ns)
    requires forall x :: !(bs[i].addr <= x < bs[i+k-1].End()) ==> (x in gs <==> x in fs)
    requires Agree(ns, gs)
    ensures Agree(Replace(bs, i, k, ns), gs)
  {
    var rs := Replace(bs, i, k, ns);
    forall j | 0 <= j < |rs| ensures rs[j].addr in gs <==> !rs[j].used {
      if j < i {
        Ordered(lo, hi, bs, j, i);
        assert rs[j] == bs[j];
      } else if j < i + |ns| {
        assert rs[j] == ns[j-i];
      } else {
        var l := j - |ns| + k;
        Ordered(lo, hi, bs, i + k - 1, l);
        assert rs[j] == bs[l];
      }
    }
  }

  // ----- the replacements

  /** alloc: block i becomes used, split if what is left over can be a block. */
  ghost function Allocated(b: Block, size: int): (ns: seq<Block>) {
    if b.size >= size + HDR + MINI then [Block(b.addr, size, true), Rest(b, size)] else [b.(used := true)]
  }

  /** free: the blocks from the first free or freed one to the last become one. */
  ghost function Merged(a: Block, z: Block): Block {
    Block(a.addr, z.End() - a.addr - HDR, false)
  }

  lemma AllocEdit(lo: int, hi: int, bs: seq<Block>, i: nat, size: int)
    requires WellFormed(lo, hi, bs) && i + 1 < |bs| && !bs[i].used
    requires MINI <= size <= bs[i].size && size % 4 == 0
    ensures Fits(bs, i, 1, Allocated(bs[i], size))
    ensures FreeSum(bs[i..i+1]) == bs[i].size && Live(bs[i..i+1]) == {}
    ensures FreeSum(Allocated(bs[i], size)) == if bs[i].size >= size + HDR + MINI then bs[i].size - size - HDR else 0
    ensures Live(Allocated(bs[i], size)) == {Allocated(bs[i], size)[0]}
  {
    assert Fits(bs, i, 1, Allocated(bs[i], size)) by {
      assert Sized(bs[i]) && (i > 0 ==> Parted(bs, i)) && Parted(bs, i + 1);
    }
    assert bs[i..i+1] == [bs[i]];
    SingleAmounts(bs[i]);
    if bs[i].size >= size + HDR + MINI {
      PairAmounts(Block(bs[i].addr, size, true), Rest(bs[i], size));
    } else {
      SingleAmounts(bs[i].(used := true));
    }
  }

  /** Blocks outside the replaced stretch are still there. */
  lemma OthersStay(bs: seq<Block>, i: nat, k: nat, ns: seq<Block>)
    requires i + k <= |bs|
    ensures forall b :: b in bs && b !in bs[i..i+k] ==> b in Replace(bs, i, k, ns)
  {
    assert bs == bs[..i] + bs[i..i+k] + bs[i+k..];
  }

  lemma CutThenMark(bs: seq<Block>, i: nat, size: int)
    requires i < |bs| && bs[i].size >= size + HDR + MINI
    ensures Mark(Cut(bs, i, size), i, true) == Replace(bs, i, 1, Allocated(bs[i], size))
  {
  }

  lemma WholeThenMark(bs: seq<Block>, i: nat, size: int)
    requires i < |bs| && bs[i].size < size + HDR + MINI
    ensures Mark(bs, i, true) == Replace(bs, i, 1, Allocated(bs[i], size))
  {
  }

  /** The blocks that stay keep their bytes over a sequence of writes that each leave them alone. */
  lemma LiveThroughCut(m0: Mem, m1: Mem, m2: Mem, m3: Mem, bs: seq<Block>, i: nat, size: int)
    requires i < |bs| && !bs[i].used
    requires forall b {:trigger Untouched(m0, m1, b)} :: b in bs && b != bs[i] ==> Untouched(m0, m1, b)
    requires forall b {:trigger Untouched(m1, m2, b)} :: b in Cut(bs, i, size) ==> Untouched(m1, m2, b)
    requires forall b {:trigger Untouched(m2, m3, b)} :: b in Cut(bs, i, size) ==> Untouched(m2, m3, b)
    ensures forall b {:trigger Untouched(m0, m3, b)} :: b in Live(bs) ==> b in Cut(bs, i, size) && Untouched(m0, m3, b)
  {
    OthersStay(bs, i, 1, [bs[i].(size := size), Rest(bs[i], size)]);
    assert bs[i..i+1] == [bs[i]];
    forall b | b in Live(bs) ensures b in Cut(bs, i, size) && Untouched(m0, m3, b) {
      assert Untouched(m0, m1, b) && Untouched(m1, m2, b) && Untouched(m2, m3, b);
    }
  }

  lemma AllocList(lo: int, hi: int, bs: seq<Block>, fs: seq<int>, i: nat, size: int, k: nat)
    requires WellFormed(lo, hi, bs) && i + 1 < |bs| && Agree(bs, fs) && FreeNodes(bs, fs)
    requires MINI <= size <= bs[i].size && size % 4 == 0
    requires k < |fs| && fs[k] == bs[i].addr
    ensures Agree(Replace(bs, i, 1, Allocated(bs[i], size)), ListAfterAlloc(bs[i], size, Without(fs, k)))
  {
    assert bs[i].addr in fs;
    AllocEdit(lo, hi, bs, i, size);
    MemberRemove(fs, k);
    NodesWithout(bs, fs, k);
    var gs := ListAfterAlloc(bs[i], size, Without(fs, k));
    forall x | x in fs && x != bs[i].addr ensures !(bs[i].addr <= x < bs[i].End()) {
      var n :| 0 <= n < |fs| && fs[n] == x;
      var j := NodeBlock(bs, fs, n);
      if i < j { Ordered(lo, hi, bs, i, j); } else { Ordered(lo, hi, bs, j, i); }
    }
    EditedList(lo, hi, bs, i, 1, Allocated(bs[i], size), fs, gs);
  }

  /** The free list after an allocation from block b, already taken off the list fs. */
  ghost function ListAfterAlloc(b: Block, size: int, fs: seq<int>): seq<int> {
    if b.size >= size + HDR + MINI then [b.Payload() + size] + fs else fs
  }

  /** What an allocation of `size` bytes from block i, the k-th of the free list, amounts to. */
  lemma AllocOutcome(lo: int, hi: int, bs: seq<Block>, fs: seq<int>, i: nat, size: int, k: nat)
    requires WellFormed(lo, hi, bs) && i + 1 < |bs| && Agree(bs, fs) && FreeNodes(bs, fs)
    requires MINI <= size <= bs[i].size && size % 4 == 0
    requires k < |fs| && fs[k] == bs[i].addr
    ensures var rs := Replace(bs, i, 1, Allocated(bs[i], size));
      && WellFormed(lo, hi, rs)
      && Agree(rs, ListAfterAlloc(bs[i], size, Without(fs, k)))
      && FreeSum(rs) == FreeSum(bs) - (if bs[i].size >= size + HDR + MINI then size + HDR else bs[i].size)
      && Live(rs) == Live(bs) + {Allocated(bs[i], size)[0]}
  {
    assert bs[i].addr in fs;
    AllocEdit(lo, hi, bs, i, size);
    Edited(lo, hi, bs, i, 1, Allocated(bs[i], size));
    AllocList(lo, hi, bs, fs, i, size, k);
  }

  // ----- release

  /** The first and the last block that merge when block i is freed. */
  ghost function First(bs: seq<Block>, i: nat): nat
    requires i < |bs|
  {
    if i > 0 && !bs[i-1].used then i - 1 else i
  }

  ghost function Last(bs: seq<Block>, i: nat): nat
    requires i < |bs|
  {
    if i + 1 < |bs| && !bs[i+1].used then i + 1 else i
  }

  /** The header bytes that merging makes available. */
  ghost function Reclaimed(bs: seq<Block>, i: nat): int
    requires i < |bs|
  {
    (if First(bs, i) < i then HDR else 0) + (if Last(bs, i) > i then HDR else 0)
  }

  /** The layout after block i is freed and merged with its free neighbours. */
  ghost function Freed(bs: seq<Block>, i: nat): seq<Block>
    requires i < |bs|
  {
    var f, l := First(bs, i), Last(bs, i);
    Replace(bs, f, l - f + 1, [Merged(bs[f], bs[l])])
  }

  /** The free list after it: a right neighbour, the k-th node, is dropped; block i is new unless it merged left. */
  ghost function ListAfterFree(bs: seq<Block>, fs: seq<int>, i: nat, k: nat): seq<int>
    requires i < |bs|
  {
    (if First(bs, i) == i then [bs[i].addr] else []) + (if Last(bs, i) > i && k < |fs| then Without(fs, k) else fs)
  }

  /** k is where the right neighbour of block i stands in the free list, if that neighbour is free. */
  ghost predicate RightListed(bs: seq<Block>, fs: seq<int>, i: nat, k: nat)
    requires i < |bs|
  {
    Last(bs, i) > i ==> k < |fs| && fs[k] == bs[i+1].addr
  }

  lemma FreedFits(lo: int, hi: int, bs: seq<Block>, i: nat)
    requires WellFormed(lo, hi, bs) && i + 1 < |bs| && bs[i].used
    ensures var f, l := First(bs, i), Last(bs, i); l + 1 < |bs| && Fits(bs, f, l - f + 1, [Merged(bs[f], bs[l])])
  {
    var f, l := First(bs, i), Last(bs, i);
    assert Sized(bs[i]);
    if f < i { assert Follows(bs, i) && Sized(bs[f]); }
    if l > i { assert Follows(bs, l) && Sized(bs[l]); }
    assert f > 0 ==> Parted(bs, f);
    assert Parted(bs, l + 1);
  }

  lemma FreedAmounts(lo: int, hi: int, bs: seq<Block>, i: nat, f: nat, k: nat)
    requires WellFormed(lo, hi, bs) && i + 1 < |bs| && bs[i].used
    requires f == First(bs, i) && f + k == Last(bs, i) + 1
    ensures f + k < |bs|
    ensures FreeSum(bs[f..f+k]) + bs[i].size + Reclaimed(bs, i) == Merged(bs[f], bs[f+k-1]).size
    ensures Live(bs[f..f+k]) == {bs[i]}
  {
    var l := Last(bs, i);
    FreedFits(lo, hi, bs, i);
    if f < i { assert Follows(bs, i); }
    if l > i { assert Follows(bs, l); }
    SingleAmounts(bs[i]);
    if f < i && l > i {
      assert bs[f..f+k] == [bs[f], bs[i]] + [bs[l]];
      FreeSumConcat([bs[f], bs[i]], [bs[l]]);
      PairAmounts(bs[f], bs[i]);
      SingleAmounts(bs[l]);
      assert Live([bs[f], bs[i]] + [bs[l]]) == Live([bs[f], bs[i]]) + Live([bs[l]]);
    } else if f < i {
      assert bs[f..f+k] == [bs[f], bs[i]];
      PairAmounts(bs[f], bs[i]);
    } else if l > i {
      assert f == i && k == 2 && l == i + 1;
      assert bs[i..i+2] == [bs[i], bs[i+1]];
      PairAmounts(bs[i], bs[l]);
    } else {
      assert bs[f..f+k] == [bs[i]];
    }
  }

  lemma FreedMembers(bs: seq<Block>, fs: seq<int>, i: nat, k: nat, x: int)
    requires i < |bs| && FreeNodes(bs, fs) && RightListed(bs, fs, i, k)
    ensures x in ListAfterFree(bs, fs, i, k) <==>
      (x in fs && (Last(bs, i) > i ==> x != fs[k])) || (First(bs, i) == i && x == bs[i].addr)
  {
    if Last(bs, i) > i { MemberRemove(fs, k); NodesWithout(bs, fs, k); }
  }

  lemma FreedList(lo: int, hi: int, bs: seq<Block>, fs: seq<int>, i: nat, k: nat)
    requires WellFormed(lo, hi, bs) && i + 1 < |bs| && bs[i].used && Agree(bs, fs) && FreeNodes(bs, fs)
    requires RightListed(bs, fs, i, k)
    ensures Agree(Freed(bs, i), ListAfterFree(bs, fs, i, k))
  {
    var f, l := First(bs, i), Last(bs, i);
    var ns, gs := [Merged(bs[f], bs[l])], ListAfterFree(bs, fs, i, k);
    FreedFits(lo, hi, bs, i);
    if l > i { Ordered(lo, hi, bs, i, l); }
    if f < i { Ordered(lo, hi, bs, f, i); assert bs[f].addr in fs; }
    forall x | !(bs[f].addr <= x < bs[l].End()) ensures x in gs <==> x in fs {
      FreedMembers(bs, fs, i, k, x);
    }
    FreedMembers(bs, fs, i, k, bs[f].addr);
    EditedList(lo, hi, bs, f, l - f + 1, ns, fs, gs);
  }

  lemma FreedLayout(lo: int, hi: int, bs: seq<Block>, i: nat)
    requires WellFormed(lo, hi, bs) && i + 1 < |bs| && bs[i].used
    ensures WellFormed(lo, hi, Freed(bs, i))
    ensures FreeSum(Freed(bs, i)) == FreeSum(bs) + bs[i].size + Reclaimed(bs, i)
    ensures Live(Freed(bs, i)) == Live(bs) - {bs[i]}
  {
    StretchFreed(lo, hi, bs, i, First(bs, i), Last(bs, i) - First(bs, i) + 1, Freed(bs, i));
  }

  lemma StretchFreed(lo: int, hi: int, bs: seq<Block>, i: nat, f: nat, k: nat, rs: seq<Block>)
    requires WellFormed(lo, hi, bs) && i + 1 < |bs| && bs[i].used
    requires f == First(bs, i) && f + k == Last(bs, i) + 1 && rs == Replace(bs, f, k, [Merged(bs[f], bs[f+k-1])])
    ensures WellFormed(lo, hi, rs)
    ensures FreeSum(rs) == FreeSum(bs) + bs[i].size + Reclaimed(bs, i)
    ensures Live(rs) == Live(bs) - {bs[i]}
  {
    var n := Merged(bs[f], bs[f+k-1]);
    FreedFits(lo, hi, bs, i);
    FreedAmounts(lo, hi, bs, i, f, k);
    SingleAmounts(n);
    Edited(lo, hi, bs, f, k, [n]);
  }

  /** What freeing block i amounts to. */
  lemma FreeOutcome(lo: int, hi: int, bs: seq<Block>, fs: seq<int>, i: nat, k: nat)
    requires WellFormed(lo, hi, bs) && i + 1 < |bs| && bs[i].used && Agree(bs, fs) && FreeNodes(bs, fs)
    requires RightListed(bs, fs, i, k)
    ensures WellFormed(lo, hi, Freed(bs, i)) && Agree(Freed(bs, i), ListAfterFree(bs, fs, i, k))
    ensures FreeSum(Freed(bs, i)) == FreeSum(bs) + bs[i].size + Reclaimed(bs, i)
    ensures Live(Freed(bs, i)) == Live(bs) - {bs[i]}
  {
    FreedList(lo, hi, bs, fs, i, k);
    FreedLayout(lo, hi, bs, i);
  }

  /** The layout after the used bit is cleared and the block absorbed into a free left neighbour. */
  ghost function FreedLeft(bs: seq<Block>, i: nat): seq<Block>
    requires i < |bs|
  {
    if First(bs, i) < i then Join(Mark(bs, i, false), First(bs, i)) else Mark(bs, i, false)
  }

  lemma FreedLeftFacts(lo: int, hi: int, bs: seq<Block>, i: nat)
    requires Tiled(lo, hi, bs) && i + 1 < |bs|
    ensures var f, cs := First(bs, i), FreedLeft(bs, i);
      && cs == Replace(bs, f, i - f + 1, [Merged(bs[f], bs[i])])
      && f + 1 < |cs| && cs[f] == Merged(bs[f], bs[i]) && cs[f+1] == bs[i+1]
  {
    var f := First(bs, i);
    if f < i {
      assert Follows(bs, i);
      assert Join(Mark(bs, i, false), f) == Replace(bs, f, 2, [Merged(bs[f], bs[i])]);
    } else {
      assert Merged(bs[i], bs[i]) == bs[i].(used := false);
    }
  }

  lemma ReplaceAgain(bs: seq<Block>, f: nat, k: nat, n: Block, m: Block)
    requires f + k < |bs|
    ensures Replace(Replace(bs, f, k, [n]), f, 2, [m]) == Replace(bs, f, k + 1, [m])
  {
  }

  /** Absorbing the right neighbour too gives the freed layout. */
  lemma FreedRight(lo: int, hi: int, bs: seq<Block>, i: nat)
    requires Tiled(lo, hi, bs) && i + 2 < |bs| && Last(bs, i) > i
    ensures First(bs, i) + 1 < |FreedLeft(bs, i)| && Join(FreedLeft(bs, i), First(bs, i)) == Freed(bs, i)
  {
    var f, cs := First(bs, i), FreedLeft(bs, i);
    FreedLeftFacts(lo, hi, bs, i);
    assert Follows(bs, i + 1);
    JoinedFreed(bs, i, f, cs);
    FreedIs(bs, i, f);
  }

  lemma FreedIs(bs: seq<Block>, i: nat, f: nat)
    requires i + 1 < |bs| && f == First(bs, i) && Last(bs, i) == i + 1
    ensures Freed(bs, i) == Replace(bs, f, i - f + 2, [Merged(bs[f], bs[i+1])])
  {
  }

  /** Block f of cs, which stands for blocks f to i of bs, joined with block i + 1. */
  lemma JoinedFreed(bs: seq<Block>, i: nat, f: nat, cs: seq<Block>)
    requires f <= i && i + 1 < |bs| && bs[i+1].addr == bs[i].End()
    requires cs == Replace(bs, f, i - f + 1, [Merged(bs[f], bs[i])])
    ensures f + 1 < |cs| && Join(cs, f) == Replace(bs, f, i - f + 2, [Merged(bs[f], bs[i+1])])
  {
    var m := Merged(bs[f], bs[i+1]);
    assert cs[f].(size := cs[f].size + HDR + cs[f+1].size) == m;
    if i + 2 < |bs| {
      ReplaceAgain(bs, f, i - f + 1, cs[f], m);
    }
  }

  lemma FreedStill(lo: int, hi: int, bs: seq<Block>, i: nat)
    requires Tiled(lo, hi, bs) && i + 1 < |bs| && Last(bs, i) == i
    ensures FreedLeft(bs, i) == Freed(bs, i)
  {
    FreedLeftFacts(lo, hi, bs, i);
  }

  lemma MarkKeeps(m0: Mem, m1: Mem, m2: Mem, bs: seq<Block>, i: nat)
    requires i < |bs|
    requires forall b {:trigger Untouched(m0, m1, b)} :: b in bs ==> Untouched(m0, m1, b)
    requires forall b {:trigger Untouched(m1, m2, b)} :: b in Mark(bs, i, false) ==> Untouched(m1, m2, b)
    ensures forall b {:trigger Untouched(m0, m2, b)} :: b in bs && b != bs[i] ==> Untouched(m0, m2, b)
  {
    OthersStay(bs, i, 1, [bs[i].(used := false)]);
    assert bs[i..i+1] == [bs[i]];
    forall b | b in bs && b != bs[i] ensures Untouched(m0, m2, b) {
      assert Untouched(m0, m1, b) && Untouched(m1, m2, b);
    }
  }

  lemma MergedStretch(bs: seq<Block>, i: nat, f: nat, l: nat, a: Block)
    requires i < |bs| && f == First(bs, i) && i <= l <= Last(bs, i) < |bs|
    requires a in bs[f..l+1] && a.used
    ensures a == bs[i]
  {
    var j :| 0 <= j < |bs[f..l+1]| && bs[f..l+1][j] == a;
    assert a == bs[f + j];
  }

  /** The other live blocks are there all along. */
  lemma FreedKeeps(lo: int, hi: int, bs: seq<Block>, i: nat, a: Block)
    requires Tiled(lo, hi, bs) && i + 1 < |bs| && a in Live(bs) && a != bs[i]
    ensures a in FreedLeft(bs, i) && a in Freed(bs, i)
  {
    var f, l := First(bs, i), Last(bs, i);
    FreedLeftFacts(lo, hi, bs, i);
    OthersStay(bs, f, i - f + 1, [Merged(bs[f], bs[i])]);
    OthersStay(bs, f, l - f + 1, [Merged(bs[f], bs[l])]);
    if a in bs[f..i+1] { MergedStretch(bs, i, f, i, a); }
    if a in bs[f..l+1] { MergedStretch(bs, i, f, l, a); }
  }

  /** Both halves of a release: cs after merging to the left, ds after merging to the right. */
  lemma FreedBoth(lo: int, hi: int, bs: seq<Block>, i: nat, cs: seq<Block>, ds: seq<Block>)
    requires Tiled(lo, hi, bs) && i + 1 < |bs| && bs[|bs|-1].used && cs == FreedLeft(bs, i)
    requires First(bs, i) + 1 < |cs| && ds == if cs[First(bs, i) + 1].used then cs else Join(cs, First(bs, i))
    ensures ds == Freed(bs, i) && (cs[First(bs, i) + 1].used <==> Last(bs, i) == i)
  {
    FreedLeftFacts(lo, hi, bs, i);
    if Last(bs, i) > i { FreedRight(lo, hi, bs, i); } else { FreedStill(lo, hi, bs, i); }
  }

  lemma ListFreed(bs: seq<Block>, fs: seq<int>, i: nat, k: nat, mid: seq<int>, gs: seq<int>)
    requires i < |bs| && RightListed(bs, fs, i, k)
    requires mid == (if Last(bs, i) > i then Without(fs, k) else fs) && gs == if First(bs, i) == i then [bs[i].addr] + mid else mid
    ensures gs == ListAfterFree(bs, fs, i, k)
  {
    assert [] + mid == mid;
  }

  /** The three steps of a release leave the other live blocks alone. */
  lemma ReleaseKeeps(lo: int, hi: int, m0: Mem, m1: Mem, m2: Mem, m3: Mem, bs: seq<Block>, i: nat, cs: seq<Block>, ds: seq<Block>)
    requires Tiled(lo, hi, bs) && i + 1 < |bs| && cs == FreedLeft(bs, i) && ds == Freed(bs, i)
    requires forall a {:trigger Untouched(m0, m1, a)} :: a in bs && a != bs[i] ==> Untouched(m0, m1, a)
    requires forall a {:trigger Untouched(m1, m2, a)} :: a in cs ==> Untouched(m1, m2, a)
    requires forall a {:trigger Untouched(m2, m3, a)} :: a in ds ==> Untouched(m2, m3, a)
    ensures forall a {:trigger Untouched(m0, m3, a)} :: a in Live(bs) && a != bs[i] ==> Untouched(m0, m3, a)
  {
    forall a | a in Live(bs) && a != bs[i] ensures Untouched(m0, m3, a) {
      FreedKeeps(lo, hi, bs, i, a);
      assert Untouched(m0, m1, a) && Untouched(m1, m2, a) && Untouched(m2, m3, a);
    }
  }

  lemma NothingTouched(m: Mem, bs: seq<Block>)
    ensures forall b {:trigger Untouched(m, m, b)} :: b in bs ==> Untouched(m, m, b)
  {
  }

  // ----- resizing in place

  /** Whether the block after i is free, so that its bytes can be used. */
  ghost predicate RightFree(bs: seq<Block>, i: nat)
    requires i < |bs|
  {
    Last(bs, i) > i
  }

  /** The bytes from the payload of block i to the end of the free block behind it, if any. */
  ghost function Room(bs: seq<Block>, i: nat): int
    requires i < |bs|
  {
    if RightFree(bs, i) then bs[i].size + HDR + bs[i+1].size else bs[i].size
  }

  /** The layout in which block i has `size` bytes and the rest of its room is one free block. */
  ghost function ResizedTo(bs: seq<Block>, i: nat, size: int): seq<Block>
    requires i < |bs|
  {
    Replace(bs, i, Last(bs, i) - i + 1, [bs[i].(size := size), Rest(bs[i].(size := Room(bs, i)), size)])
  }

  lemma ResizeFits(lo: int, hi: int, bs: seq<Block>, i: nat, size: int)
    requires WellFormed(lo, hi, bs) && i + 1 < |bs| && bs[i].used
    requires MINI <= size && size % 4 == 0 && size + HDR + MINI <= Room(bs, i)
    ensures Last(bs, i) + 1 < |bs|
    ensures Fits(bs, i, Last(bs, i) - i + 1, [bs[i].(size := size), Rest(bs[i].(size := Room(bs, i)), size)])
  {
    var l := Last(bs, i);
    assert Sized(bs[i]);
    if l > i { assert Follows(bs, l) && Sized(bs[l]); }
    assert Parted(bs, l + 1);
  }

  lemma ResizeOutcome(lo: int, hi: int, bs: seq<Block>, i: nat, k: nat, size: int)
    requires WellFormed(lo, hi, bs) && i + 1 < |bs| && bs[i].used && k == Last(bs, i) - i + 1
    requires MINI <= size && size % 4 == 0 && size + HDR + MINI <= Room(bs, i)
    ensures i + k < |bs| && WellFormed(lo, hi, ResizedTo(bs, i, size))
    ensures FreeSum(ResizedTo(bs, i, size)) == FreeSum(bs) + Room(bs, i) - HDR - size - (if RightFree(bs, i) then bs[i+1].size else 0)
    ensures Live(ResizedTo(bs, i, size)) == Live(bs) - {bs[i]} + {bs[i].(size := size)}
  {
    var n0, n1 := bs[i].(size := size), Rest(bs[i].(size := Room(bs, i)), size);
    ResizeFits(lo, hi, bs, i, size);
    StretchAmounts(bs, i, k);
    PairAmounts(n0, n1);
    Edited(lo, hi, bs, i, k, [n0, n1]);
  }

  /** A used block and the free neighbour behind it, if there is one. */
  lemma StretchAmounts(bs: seq<Block>, i: nat, k: nat)
    requires i < |bs| && bs[i].used && k == Last(bs, i) - i + 1
    ensures FreeSum(bs[i..i+k]) == (if RightFree(bs, i) then bs[i+1].size else 0) && Live(bs[i..i+k]) == {bs[i]}
  {
    if k == 2 {
      assert bs[i..i+2] == [bs[i], bs[i+1]];
      PairAmounts(bs[i], bs[i+1]);
    } else {
      assert bs[i..i+1] == [bs[i]];
      SingleAmounts(bs[i]);
    }
  }

  /** The free list after it: the new rest first, a free right neighbour dropped. */
  ghost function ListAfterResize(bs: seq<Block>, fs: seq<int>, i: nat, k: nat, size: int): seq<int>
    requires i < |bs|
  {
    [bs[i].Payload() + size] + (if RightFree(bs, i) && k < |fs| then Without(fs, k) else fs)
  }

  lemma ResizeList(lo: int, hi: int, bs: seq<Block>, fs: seq<int>, i: nat, k: nat, size: int)
    requires WellFormed(lo, hi, bs) && i + 1 < |bs| && bs[i].used && Agree(bs, fs) && FreeNodes(bs, fs)
    requires MINI <= size && size % 4 == 0 && size + HDR + MINI <= Room(bs, i)
    requires RightListed(bs, fs, i, k)
    ensures Agree(ResizedTo(bs, i, size), ListAfterResize(bs, fs, i, k, size))
  {
    var l, n := Last(bs, i), bs[i].Payload() + size;
    var ns, gs := [bs[i].(size := size), Rest(bs[i].(size := Room(bs, i)), size)], ListAfterResize(bs, fs, i, k, size);
    ResizeFits(lo, hi, bs, i, size);
    assert bs[i].addr in fs <==> !bs[i].used;
    if l > i { Ordered(lo, hi, bs, i, l); MemberRemove(fs, k); NodesWithout(bs, fs, k); }
    assert forall x :: x in gs ==> x in fs || x == n;
    assert forall x :: x in fs && (l > i ==> x != bs[l].addr) ==> x in gs;
    assert bs[i].addr !in gs;
    EditedList(lo, hi, bs, i, l - i + 1, ns, fs, gs);
  }

  // the steps of the code

  lemma ReplaceThenReplace(bs: seq<Block>, i: nat, k: nat, n: Block, ns: seq<Block>)
    requires i + k <= |bs|
    ensures Replace(Replace(bs, i, k, [n]), i, 1, ns) == Replace(bs, i, k, ns)
  {
  }

  /** Growing: take the free neighbour in, then cut. */
  lemma GrowSteps(lo: int, hi: int, bs: seq<Block>, i: nat, size: int)
    requires Tiled(lo, hi, bs) && i + 2 < |bs| && RightFree(bs, i)
    ensures |Join(bs, i)| == |bs| - 1 && Cut(Join(bs, i), i, size) == ResizedTo(bs, i, size)
  {
    var n := bs[i].(size := bs[i].size + HDR + bs[i+1].size);
    assert Join(bs, i)[i] == n;
    ReplaceThenReplace(bs, i, 2, n, [n.(size := size), Rest(n, size)]);
  }

  /** Shrinking: cut, then merge the rest with a free neighbour. */
  lemma ShrinkSteps(lo: int, hi: int, bs: seq<Block>, i: nat, size: int)
    requires Tiled(lo, hi, bs) && i + 1 < |bs|
    ensures i + 2 < |Cut(bs, i, size)| && Cut(bs, i, size)[i+1] == Rest(bs[i], size) && Cut(bs, i, size)[i+2] == bs[i+1]
    ensures RightFree(bs, i) ==> Join(Cut(bs, i, size), i + 1) == ResizedTo(bs, i, size)
    ensures !RightFree(bs, i) ==> Cut(bs, i, size) == ResizedTo(bs, i, size)
  {
    var cs := Cut(bs, i, size);
    assert |cs| == |bs| + 1 && cs[i+1] == Rest(bs[i], size) && cs[i+2] == bs[i+1];
    if RightFree(bs, i) {
      assert Follows(bs, i + 1);
      assert Join(cs, i + 1) == ResizedTo(bs, i, size);
    } else {
      assert bs[i].(size := Room(bs, i)) == bs[i];
      assert Cut(bs, i, size) == ResizedTo(bs, i, size);
    }
  }

  lemma GrowKeeps(lo: int, hi: int, m0: Mem, m1: Mem, m2: Mem, m3: Mem, m4: Mem, bs: seq<Block>, i: nat, size: int)
    requires Tiled(lo, hi, bs) && i + 1 < |bs| && RightFree(bs, i) && bs[i].size <= size
    requires forall b {:trigger Untouched(m0, m1, b)} :: b in bs ==> Untouched(m0, m1, b)
    requires forall b {:trigger Untouched(m1, m2, b)} :: b in bs ==> Untouched(m1, m2, b)
    requires forall b {:trigger Untouched(m2, m3, b)} :: b in Join(bs, i) && b != Join(bs, i)[i] ==> Untouched(m2, m3, b)
    requires Untouched(m2, m3, Join(bs, i)[i].(size := size))
    requires forall b {:trigger Untouched(m3, m4, b)} :: b in ResizedTo(bs, i, size) ==> Untouched(m3, m4, b)
    ensures forall b {:trigger Untouched(m0, m4, b)} :: b in Live(bs) ==> Untouched(m0, m4, b)
  {
    var n := bs[i].(size := size);
    OthersStay(bs, i, 2, [Join(bs, i)[i]]);
    OthersStay(bs, i, 2, [n, Rest(bs[i].(size := Room(bs, i)), size)]);
    assert bs[i..i+2] == [bs[i], bs[i+1]];
    assert ResizedTo(bs, i, size)[i] == n;
    forall b | b in Live(bs) ensures Untouched(m0, m4, b) {
      assert Untouched(m0, m1, b) && Untouched(m1, m2, b);
      if b == bs[i] {
        assert Untouched(m2, m3, n) && Untouched(m3, m4, n);
      } else {
        if b == Join(bs, i)[i] { StartsApart(lo, hi, bs, i, b); }
        assert Untouched(m2, m3, b) && Untouched(m3, m4, b);
      }
    }
  }

  lemma ShrinkKeeps(m0: Mem, m1: Mem, m2: Mem, m3: Mem, bs: seq<Block>, i: nat, size: int)
    requires i + 1 < |bs|
    requires forall b {:trigger Untouched(m0, m1, b)} :: b in bs && b != bs[i] ==> Untouched(m0, m1, b)
    requires Untouched(m0, m1, bs[i].(size := size))
    requires forall b {:trigger Untouched(m1, m2, b)} :: b in Cut(bs, i, size) ==> Untouched(m1, m2, b)
    requires forall b {:trigger Untouched(m2, m3, b)} :: b in ResizedTo(bs, i, size) ==> Untouched(m2, m3, b)
    ensures forall b {:trigger Untouched(m0, m3, b)} :: b in Live(bs) && b != bs[i] ==> Untouched(m0, m3, b)
    ensures Untouched(m0, m3, bs[i].(size := size))
  {
    var n := bs[i].(size := size);
    OthersStay(bs, i, 1, [n, Rest(bs[i], size)]);
    OthersStay(bs, i, Last(bs, i) - i + 1, [n, Rest(bs[i].(size := Room(bs, i)), size)]);
    assert bs[i..i+1] == [bs[i]];
    assert Last(bs, i) > i ==> bs[i..i+2] == [bs[i], bs[i+1]];
    assert Cut(bs, i, size)[i] == n && ResizedTo(bs, i, size)[i] == n;
    forall b | b in Live(bs) && b != bs[i] ensures Untouched(m0, m3, b) {
      assert Untouched(m0, m1, b) && Untouched(m1, m2, b) && Untouched(m2, m3, b);
    }
    assert Untouched(m1, m2, n) && Untouched(m2, m3, n);
  }

  /** A free block right behind block i is its right neighbour. */
  lemma GrowRoom(lo: int, hi: int, bs: seq<Block>, a: Block, i: nat)
    requires Tiled(lo, hi, bs) && i < |bs| && a in bs && a.addr == bs[i].End() && !a.used
    ensures i + 1 < |bs| && bs[i+1] == a && RightFree(bs, i) && Room(bs, i) == bs[i].size + HDR + a.size
  {
    var j :| 0 <= j < |bs| && bs[j] == a;
    if j < i { Ordered(lo, hi, bs, j, i); }
    assert i + 1 < |bs| ==> Follows(bs, i + 1);
    if i + 1 < j { Ordered(lo, hi, bs, i + 1, j); }
  }
}
