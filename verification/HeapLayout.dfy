/**
 The memheap pool as a sequence of blocks in address order, without pointers.

 The last block is the empty, used tail that keeps blocks from merging past the pool.
 The main result here is `LayoutDetermined`: the live blocks alone determine the whole layout,
 so two well-formed heaps with the same live blocks are the same however they came about.
 */
module HeapLayout {

  const HDR := 24    // RT_MEMHEAP_SIZE: six words
  const MINI := 12   // RT_MEMHEAP_MINIALLOC

  datatype Block = Block(addr: int, size: int, used: bool) {
    function End(): int { addr + HDR + size }
    function Payload(): int { addr + HDR }
    function Avail(): int { if used then 0 else size }
    ghost function Self(): set<Block> { if used then {this} else {} }
  }

  ghost predicate Follows(bs: seq<Block>, i: int)
    requires 0 < i < |bs|
  {
    bs[i].addr == bs[i-1].End()
  }

  ghost predicate Parted(bs: seq<Block>, i: int)
    requires 0 < i < |bs|
  {
    bs[i-1].used || bs[i].used
  }

  /** Blocks follow each other without gaps from lo to hi. */
  ghost predicate Tiled(lo: int, hi: int, bs: seq<Block>) {
    && |bs| > 0 && bs[0].addr == lo && bs[|bs|-1].End() == hi
    && (forall i :: 0 <= i < |bs| ==> bs[i].size >= 0)
    && (forall i {:trigger Follows(bs, i)} :: 0 < i < |bs| ==> Follows(bs, i))
  }

  /** What every block but the tail satisfies: aligned, and of at least the minimum size. */
  ghost predicate Sized(b: Block) {
    b.size >= MINI && b.size % 4 == 0 && b.addr % 4 == 0
  }

  /** Tiled, closed by the used tail, every other block aligned and of at least the minimum size. */
  ghost predicate Shape(lo: int, hi: int, bs: seq<Block>) {
    && Tiled(lo, hi, bs) && |bs| >= 2
    && bs[|bs|-1].size == 0 && bs[|bs|-1].used
    && (forall i {:trigger Sized(bs[i])} :: 0 <= i < |bs| - 1 ==> Sized(bs[i]))
  }

  ghost predicate NoFreeNeighbours(bs: seq<Block>) {
    forall i {:trigger Parted(bs, i)} :: 0 < i < |bs| ==> Parted(bs, i)
  }

  ghost predicate WellFormed(lo: int, hi: int, bs: seq<Block>) {
    Shape(lo, hi, bs) && NoFreeNeighbours(bs)
  }

  /** The blocks in use, the tail among them. */
  ghost function Live(bs: seq<Block>): set<Block> {
    set b | b in bs && b.used
  }

  /** The bytes available: the payloads of the free blocks. */
  ghost function FreeSum(bs: seq<Block>): int {
    if bs == [] then 0 else bs[0].Avail() + FreeSum(bs[1..])
  }

  ghost function Addrs(bs: seq<Block>): (r: seq<int>)
    ensures |r| == |bs| && forall i {:trigger r[i]} :: 0 <= i < |bs| ==> r[i] == bs[i].addr
  {
    seq(|bs|, i requires 0 <= i < |bs| => bs[i].addr)
  }

  // ----- edits of a layout

  /** bs with its k blocks from position i on replaced by ns. */
  ghost function Replace(bs: seq<Block>, i: nat, k: nat, ns: seq<Block>): (r: seq<Block>)
    requires i + k <= |bs|
    ensures |r| == |bs| - k + |ns|
    ensures forall j {:trigger r[j]} :: 0 <= j < |r| ==> r[j] == if j < i then bs[j] else if j < i + |ns| then ns[j-i] else bs[j-|ns|+k]
  {
    bs[..i] + ns + bs[i+k..]
  }

  /** Block i keeps `size` bytes; the rest becomes a free block behind it. */
  ghost function Cut(bs: seq<Block>, i: nat, size: int): (r: seq<Block>)
    requires i < |bs|
  {
    Replace(bs, i, 1, [bs[i].(size := size), Rest(bs[i], size)])
  }

  function Rest(b: Block, size: int): Block {
    Block(b.Payload() + size, b.size - HDR - size, false)
  }

  /** Block i swallows its right neighbour, header included. */
  ghost function Join(bs: seq<Block>, i: nat): (r: seq<Block>)
    requires i + 1 < |bs|
  {
    Replace(bs, i, 2, [bs[i].(size := bs[i].size + HDR + bs[i+1].size)])
  }

  ghost function Mark(bs: seq<Block>, i: nat, used: bool): (r: seq<Block>)
    requires i < |bs|
  {
    Replace(bs, i, 1, [bs[i].(used := used)])
  }

  // ----- consequences of tiling

  lemma {:induction false} Ordered(lo: int, hi: int, bs: seq<Block>, i: nat, j: nat)
    requires Tiled(lo, hi, bs) && i < j < |bs|
    ensures bs[i].End() <= bs[j].addr
    decreases j - i
  {
    assert Follows(bs, j);
    if i + 1 < j {
      Ordered(lo, hi, bs, i, j - 1);
    }
  }

  /** Distinct positions hold blocks that do not overlap; every block lies in the pool. */
  lemma Separate(lo: int, hi: int, bs: seq<Block>)
    requires Tiled(lo, hi, bs)
    ensures forall i, j :: 0 <= i < j < |bs| ==> bs[i].End() <= bs[j].addr
    ensures forall i :: 0 <= i < |bs| ==> lo <= bs[i].addr && bs[i].End() <= hi
  {
    forall i, j | 0 <= i < j < |bs| ensures bs[i].End() <= bs[j].addr {
      Ordered(lo, hi, bs, i, j);
    }
    forall i | 0 <= i < |bs| ensures lo <= bs[i].addr && bs[i].End() <= hi {
      if i > 0 { Ordered(lo, hi, bs, 0, i); }
      if i < |bs| - 1 { Ordered(lo, hi, bs, i, |bs| - 1); }
    }
  }

  // ----- sums

  lemma {:induction false} FreeSumConcat(xs: seq<Block>, bs: seq<Block>)
    ensures FreeSum(xs + bs) == FreeSum(xs) + FreeSum(bs)
  {
    if xs == [] {
      assert xs + bs == bs;
    } else {
      FreeSumConcat(xs[1..], bs);
      assert (xs + bs)[1..] == xs[1..] + bs;
    }
  }

  lemma FreeSumParts(xs: seq<Block>, ms: seq<Block>, cs: seq<Block>)
    ensures FreeSum(xs + ms + cs) == FreeSum(xs) + FreeSum(ms) + FreeSum(cs)
  {
    FreeSumConcat(xs + ms, cs);
    FreeSumConcat(xs, ms);
  }

  lemma SingleAmounts(b: Block)
    ensures FreeSum([b]) == b.Avail() && Live([b]) == b.Self()
  {
  }

  lemma PairAmounts(b: Block, c: Block)
    ensures FreeSum([b, c]) == b.Avail() + c.Avail() && Live([b, c]) == b.Self() + c.Self()
  {
    assert [b, c] == [b] + [c];
    FreeSumConcat([b], [c]);
  }

  // ----- replacing a stretch of the layout

  lemma SumReplace(bs: seq<Block>, i: nat, k: nat, ns: seq<Block>)
    requires i + k <= |bs|
    ensures FreeSum(Replace(bs, i, k, ns)) == FreeSum(bs) - FreeSum(bs[i..i+k]) + FreeSum(ns)
  {
    assert bs == bs[..i] + bs[i..i+k] + bs[i+k..];
    FreeSumParts(bs[..i], bs[i..i+k], bs[i+k..]);
    FreeSumParts(bs[..i], ns, bs[i+k..]);
  }

  lemma LiveConcat(xs: seq<Block>, ms: seq<Block>, cs: seq<Block>)
    ensures Live(xs + ms + cs) == Live(xs) + Live(ms) + Live(cs)
  {
  }

  /** No block occurs both inside and outside a stretch of a tiling. */
  lemma StretchApart(lo: int, hi: int, bs: seq<Block>, i: nat, k: nat)
    requires Tiled(lo, hi, bs) && i + k <= |bs|
    ensures Live(bs[i..i+k]) !! (Live(bs[..i]) + Live(bs[i+k..]))
  {
    var xs, ms, cs := bs[..i], bs[i..i+k], bs[i+k..];
    Separate(lo, hi, bs);
    forall j, l | 0 <= j < |xs| && 0 <= l < |ms| ensures xs[j] != ms[l] {
      assert bs[j] == xs[j] && bs[i + l] == ms[l];
    }
    forall j, l | 0 <= j < |cs| && 0 <= l < |ms| ensures cs[j] != ms[l] {
      assert bs[i + k + j] == cs[j] && bs[i + l] == ms[l];
    }
  }

  lemma LiveReplace(lo: int, hi: int, bs: seq<Block>, i: nat, k: nat, ns: seq<Block>)
    requires Tiled(lo, hi, bs) && i + k <= |bs|
    ensures Live(Replace(bs, i, k, ns)) == Live(bs) - Live(bs[i..i+k]) + Live(ns)
  {
    assert bs == bs[..i] + bs[i..i+k] + bs[i+k..];
    StretchApart(lo, hi, bs, i, k);
    LiveConcat(bs[..i], bs[i..i+k], bs[i+k..]);
    LiveConcat(bs[..i], ns, bs[i+k..]);
  }

  /** A replacement that covers the same bytes keeps the pool tiled. */
  lemma TiledReplace(lo: int, hi: int, bs: seq<Block>, i: nat, k: nat, ns: seq<Block>)
    requires Tiled(lo, hi, bs) && 0 < k && i + k <= |bs|
    requires Tiled(bs[i].addr, bs[i+k-1].End(), ns)
    ensures Tiled(lo, hi, Replace(bs, i, k, ns))
  {
    var rs := Replace(bs, i, k, ns);
    forall j | 0 < j < |rs| ensures Follows(rs, j) {
      if j < i {
        assert rs[j] == bs[j] && rs[j-1] == bs[j-1];
        assert Follows(bs, j);
      } else if j == i {
        assert rs[j] == ns[0] && rs[j-1] == bs[j-1];
        assert Follows(bs, i);
      } else if j < i + |ns| {
        assert rs[j] == ns[j-i] && rs[j-1] == ns[j-i-1];
        assert Follows(ns, j - i);
      } else {
        var l := j - |ns| + k;
        assert rs[j] == bs[l];
        assert Follows(bs, l);
      }
    }
    assert rs[0] == (if i == 0 then ns[0] else bs[0]);
    assert rs[|rs|-1] == if i + k == |bs| then ns[|ns|-1] else bs[|bs|-1];
    forall j | 0 <= j < |rs| ensures rs[j].size >= 0 { }
  }

  lemma ShapeReplace(lo: int, hi: int, bs: seq<Block>, i: nat, k: nat, ns: seq<Block>)
    requires Shape(lo, hi, bs) && 0 < k && i + k < |bs|
    requires Tiled(bs[i].addr, bs[i+k-1].End(), ns)
    requires forall j :: 0 <= j < |ns| ==> Sized(ns[j])
    ensures Shape(lo, hi, Replace(bs, i, k, ns))
  {
    TiledReplace(lo, hi, bs, i, k, ns);
  }

  // ----- what each edit does

  /** The bounds under which a block can be cut in two. */
  ghost predicate Cuttable(bs: seq<Block>, i: nat, size: int) {
    && i + 1 < |bs| && size % 4 == 0
    && MINI <= size && size + HDR + MINI <= bs[i].size
  }

  lemma CutShape(lo: int, hi: int, bs: seq<Block>, i: nat, size: int)
    requires Shape(lo, hi, bs) && Cuttable(bs, i, size)
    ensures Shape(lo, hi, Cut(bs, i, size))
  {
    assert Sized(bs[i]);
    ShapeReplace(lo, hi, bs, i, 1, [bs[i].(size := size), Rest(bs[i], size)]);
  }

  lemma JoinShape(lo: int, hi: int, bs: seq<Block>, i: nat)
    requires Shape(lo, hi, bs) && i + 2 < |bs|
    ensures Shape(lo, hi, Join(bs, i))
  {
    assert Sized(bs[i]) && Sized(bs[i+1]) && Follows(bs, i + 1);
    ShapeReplace(lo, hi, bs, i, 2, [bs[i].(size := bs[i].size + HDR + bs[i+1].size)]);
  }

  lemma MarkShape(lo: int, hi: int, bs: seq<Block>, i: nat, used: bool)
    requires Shape(lo, hi, bs) && i + 1 < |bs|
    ensures Shape(lo, hi, Mark(bs, i, used))
  {
    assert Sized(bs[i]);
    ShapeReplace(lo, hi, bs, i, 1, [bs[i].(used := used)]);
  }

  // ----- the live blocks determine the layout

  lemma {:induction false} SuffixTiled(lo: int, hi: int, bs: seq<Block>)
    requires Tiled(lo, hi, bs) && |bs| > 1
    ensures Tiled(bs[0].End(), hi, bs[1..])
  {
    assert Follows(bs, 1);
    forall i | 0 < i < |bs[1..]| ensures Follows(bs[1..], i) {
      assert Follows(bs, i+1);
    }
  }

  lemma SuffixParted(bs: seq<Block>)
    requires NoFreeNeighbours(bs) && |bs| > 1
    ensures NoFreeNeighbours(bs[1..])
  {
    forall i | 0 < i < |bs[1..]| ensures Parted(bs[1..], i) {
      assert Parted(bs, i + 1);
    }
  }

  /** In a tiling a block is the only one that starts where it does, and none starts inside it. */
  lemma StartsApart(lo: int, hi: int, bs: seq<Block>, i: nat, b: Block)
    requires Tiled(lo, hi, bs) && i < |bs| && b in bs && bs[i].addr <= b.addr < bs[i].End()
    ensures b == bs[i]
  {
    var j :| 0 <= j < |bs| && bs[j] == b;
    Separate(lo, hi, bs);
  }

  /** What the induction below needs of a layout; it also holds of the rest after the first block. */
  ghost predicate Gapless(lo: int, hi: int, bs: seq<Block>) {
    Tiled(lo, hi, bs) && bs[|bs|-1].used && NoFreeNeighbours(bs)
  }

  lemma {:induction false} SameFirst(lo: int, hi: int, xs: seq<Block>, bs: seq<Block>)
    requires Gapless(lo, hi, xs) && Gapless(lo, hi, bs) && Live(xs) == Live(bs)
    requires xs[0].size <= bs[0].size
    ensures xs[0] == bs[0]
  {
    if xs[0].used {
      assert xs[0] in Live(bs);
      StartsApart(lo, hi, bs, 0, xs[0]);
    } else if bs[0].used {
      assert bs[0] in Live(xs);
      StartsApart(lo, hi, xs, 0, bs[0]);
    } else {
      assert Parted(xs, 1) && Follows(xs, 1);
      assert xs[1] in Live(bs);
      if xs[0].size < bs[0].size {
        StartsApart(lo, hi, bs, 0, xs[1]);
        assert false;
      }
    }
  }

  lemma {:induction false} GaplessDetermined(lo: int, hi: int, xs: seq<Block>, bs: seq<Block>)
    requires Gapless(lo, hi, xs) && Gapless(lo, hi, bs) && Live(xs) == Live(bs)
    ensures xs == bs
    decreases |xs|
  {
    if xs[0].size <= bs[0].size { SameFirst(lo, hi, xs, bs); } else { SameFirst(lo, hi, bs, xs); }
    Separate(lo, hi, xs);
    Separate(lo, hi, bs);
    if |xs| > 1 && |bs| > 1 {
      SuffixTiled(lo, hi, xs);
      SuffixTiled(lo, hi, bs);
      assert xs == [xs[0]] + xs[1..] && bs == [bs[0]] + bs[1..];
      assert xs[0] !in xs[1..] && bs[0] !in bs[1..];
      assert Live(xs[1..]) == Live(xs) - {xs[0]};
      assert Live(bs[1..]) == Live(bs) - {bs[0]};
      SuffixParted(xs);
      SuffixParted(bs);
      GaplessDetermined(xs[0].End(), hi, xs[1..], bs[1..]);
    } else {
      assert xs[0].End() == hi;
    }
  }

  /** Two well-formed heaps over the same pool with the same live blocks have the same layout. */
  lemma LayoutDetermined(lo: int, hi: int, xs: seq<Block>, bs: seq<Block>)
    requires WellFormed(lo, hi, xs) && WellFormed(lo, hi, bs) && Live(xs) == Live(bs)
    ensures xs == bs
  {
    GaplessDetermined(lo, hi, xs, bs);
  }

  /** A heap in which nothing but the tail is live is one free block. */
  lemma AllFreeIsOneBlock(lo: int, hi: int, bs: seq<Block>)
    requires WellFormed(lo, hi, bs) && Live(bs) == {Block(hi - HDR, 0, true)}
    ensures bs == [Block(lo, hi - lo - 2 * HDR, false), Block(hi - HDR, 0, true)]
    ensures FreeSum(bs) == hi - lo - 2 * HDR
  {
    assert !bs[0].used by { if bs[0].used { assert bs[0] in Live(bs); assert Follows(bs, 1); Separate(lo, hi, bs); } }
    assert Parted(bs, 1) && bs[1] in Live(bs);
    if |bs| > 2 {
      assert Follows(bs, 2);
      Separate(lo, hi, bs);
      assert false;
    }
    assert Follows(bs, 1);
    assert bs == [bs[0]] + [bs[1]];
    FreeSumConcat([bs[0]], [bs[1]]);
  }
}
