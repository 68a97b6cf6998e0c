/**
 One zone of rt-thread/src/slab.c: its chunks and their bookkeeping.
 */
module Zones {
  import opened Queues
  import opened SizeClasses

  const PAGE := 4096
  const HEADER := 36 // sizeof(slab_zone)

  /** The header of a zone; `freed` is the list z_freechunk, `base` the address z_baseptr. */
  datatype Zone = Zone(nfree: int, nmax: int, uindex: int, base: int, chunk: nat, zi: nat, freed: seq<int>)

  /** The addresses of the first n chunks. */
  ghost function Slots(base: int, chunk: nat, n: nat): set<int> {
    if n == 0 then {} else Slots(base, chunk, n - 1) + {base + (n - 1) * chunk}
  }

  ghost function Members(q: seq<int>): (s: set<int>)
    ensures forall x {:trigger x in s} {:trigger x in q} :: x in s <==> x in q
  {
    set x | x in q
  }

  /**
   The chunks up to uindex are either live or on the free list, never both; nfree counts the never-used chunks and
   the freed ones.
   */
  ghost predicate ChunksOk(z: Zone, live: set<int>) {
    && 0 <= z.uindex < z.nmax && z.chunk > 0
    && z.nfree == (z.nmax - 1 - z.uindex) + |z.freed|
    && |live| + z.nfree == z.nmax
    && NoDup(z.freed) && live !! Members(z.freed)
    && live + Members(z.freed) == Slots(z.base, z.chunk, z.uindex + 1)
  }

  /** rt_malloc in a zone with free chunks: a never-used chunk as long as there is one, then the last one freed. */
  function TakeChunk(z: Zone): (Zone, int)
    requires z.uindex + 1 != z.nmax || z.freed != []
  {
    if z.uindex + 1 != z.nmax then
      (z.(nfree := z.nfree - 1, uindex := z.uindex + 1), z.base + (z.uindex + 1) * z.chunk)
    else
      (z.(nfree := z.nfree - 1, freed := z.freed[1..]), z.freed[0])
  }

  /** rt_free of a chunk. */
  function PutChunk(z: Zone, c: int): Zone {
    z.(nfree := z.nfree + 1, freed := [c] + z.freed)
  }

  lemma {:induction false} SlotsBound(base: int, chunk: nat, n: nat, a: int)
    requires a in Slots(base, chunk, n)
    ensures base <= a && a + chunk <= base + n * chunk && n > 0
  {
    if a != base + (n - 1) * chunk {
      SlotsBound(base, chunk, n - 1, a);
    }
    assert n * chunk == (n - 1) * chunk + chunk;
    Scaled(n - 1, chunk);
  }

  /** Two chunks do not overlap. */
  lemma {:induction false} SlotsApart(base: int, chunk: nat, n: nat, a: int, b: int)
    requires a in Slots(base, chunk, n) && b in Slots(base, chunk, n) && a != b
    ensures a + chunk <= b || b + chunk <= a
  {
    var last := base + (n - 1) * chunk;
    if a == last {
      SlotsBound(base, chunk, n - 1, b);
    } else if b == last {
      SlotsBound(base, chunk, n - 1, a);
    } else {
      SlotsApart(base, chunk, n - 1, a, b);
    }
  }

  lemma {:induction false} SlotsMore(base: int, chunk: nat, n: nat, m: nat)
    requires n <= m
    ensures Slots(base, chunk, n) <= Slots(base, chunk, m)
  {
    if n < m { SlotsMore(base, chunk, n, m - 1); }
  }

  lemma {:induction false} SlotsAligned(base: int, chunk: nat, n: nat, a: int, k: nat)
    requires a in Slots(base, chunk, n) && k > 0 && chunk % k == 0
    ensures a % k == base % k
  {
    if a == base + (n - 1) * chunk {
      var q := chunk / k;
      assert chunk == q * k;
      assert a == base + ((n - 1) * q) * k by { assert (n - 1) * (q * k) == ((n - 1) * q) * k; }
      Congruent(base, (n - 1) * q, k);
    } else {
      SlotsAligned(base, chunk, n - 1, a, k);
    }
  }

  lemma Congruent(x: int, d: int, k: nat)
    requires k > 0
    ensures (x + d * k) % k == x % k
  {
    var q, r := x / k, x % k;
    var q', r' := (x + d * k) / k, (x + d * k) % k;
    assert (q' - q - d) * k == r - r' by { assert (q' - q - d) * k == q' * k - q * k - d * k; }
    Scaled(q' - q - d, k);
  }

  /** A zone that counts free chunks has one, and taking it hands out a chunk that is not live. */
  lemma TakeOk(z: Zone, live: set<int>)
    requires ChunksOk(z, live) && z.nfree > 0
    ensures z.uindex + 1 != z.nmax || z.freed != []
    ensures var (z', c) := TakeChunk(z);
      c !in live && ChunksOk(z', live + {c}) && c in Slots(z'.base, z'.chunk, z'.uindex + 1)
  {
    if z.uindex + 1 != z.nmax { BumpOk(z, live); } else { PopOk(z, live); }
    var (z', c) := TakeChunk(z);
    LiveSlot(z', live + {c}, c);
  }

  lemma LiveSlot(z: Zone, live: set<int>, c: int)
    requires ChunksOk(z, live) && c in live
    ensures c in Slots(z.base, z.chunk, z.uindex + 1)
  {
    assert c in live + Members(z.freed);
  }

  lemma BumpOk(z: Zone, live: set<int>)
    requires ChunksOk(z, live) && z.uindex + 1 != z.nmax
    ensures var (z', c) := TakeChunk(z);
      c !in live && ChunksOk(z', live + {c})
  {
    var (z', c) := TakeChunk(z);
    if c in Slots(z.base, z.chunk, z.uindex + 1) { SlotsBound(z.base, z.chunk, z.uindex + 1, c); }
    assert c !in live + Members(z.freed);
    assert |live + {c}| == |live| + 1;
    assert (live + {c}) + Members(z.freed) == (live + Members(z.freed)) + {c};
  }

  lemma PopOk(z: Zone, live: set<int>)
    requires ChunksOk(z, live) && z.uindex + 1 == z.nmax && z.freed != []
    ensures var (z', c) := TakeChunk(z);
      c !in live && ChunksOk(z', live + {c})
  {
    var (z', c) := TakeChunk(z);
    var fs, fs' := Members(z.freed), Members(z'.freed);
    assert z.freed == [c] + z'.freed;
    TailNoDup(z.freed);
    assert c in fs && fs' == fs - {c};
    assert |live + {c}| == |live| + 1;
    SetMoves(live, fs', fs, c);
    SlotsSame(z, z');
    assert ChunksOk(z', live + {c});
  }

  lemma SlotsSame(z: Zone, z': Zone)
    requires z'.base == z.base && z'.chunk == z.chunk && z'.uindex == z.uindex >= 0
    ensures Slots(z'.base, z'.chunk, z'.uindex + 1) == Slots(z.base, z.chunk, z.uindex + 1)
  {}

  lemma SetMoves(a: set<int>, b: set<int>, b0: set<int>, c: int)
    requires b == b0 - {c} && c in b0 && a !! b0
    ensures (a + {c}) + b == a + b0 && (a + {c}) !! b && c in a + b0
  {}

  lemma PushNoDup(q: seq<int>, x: int)
    requires NoDup(q) && x !in q
    ensures NoDup([x] + q)
  {
    var r := [x] + q;
    forall i, j | 0 <= i < j < |r| ensures Differ(r, i, j) {
      if i > 0 { assert Differ(q, i - 1, j - 1); } else { assert r[j] == q[j - 1]; }
    }
  }

  lemma PutOk(z: Zone, live: set<int>, c: int)
    requires ChunksOk(z, live) && c in live
    ensures ChunksOk(PutChunk(z, c), live - {c})
  {
    assert c !in Members(z.freed);
    PushNoDup(z.freed, c);
    assert Members([c] + z.freed) == Members(z.freed) + {c};
  }

  /** All chunks are free exactly when none is live. */
  lemma AllFree(z: Zone, live: set<int>)
    requires ChunksOk(z, live)
    ensures z.nfree == z.nmax <==> live == {}
    ensures 0 <= z.nfree <= z.nmax
  {}

  // ----- a new zone

  /** Where the chunks start: behind the header, at a multiple of a chunk size that is a power of two. */
  function Offset(chunk: nat): nat
    requires chunk > 0
  {
    if PowerTest(chunk) then RoundUp(HEADER, chunk) else RoundUp(HEADER, 8)
  }

  /** The zone of `zp` pages at page a, laid out for class zi. */
  function FreshZone(a: nat, zp: nat, zi: nat, chunk: nat): Zone
    requires chunk > 0
  {
    var off, nmax := Offset(chunk), (zp * PAGE - Offset(chunk)) / chunk;
    Zone(nmax - 1, nmax, 0, a * PAGE + off, chunk, zi, [])
  }

  /** The chunks lie between the header and the end of the zone; those of a power-of-two size are aligned within it. */
  ghost predicate Laid(z: Zone, a: int, zp: nat) {
    && z.zi < NZONES && z.chunk == ChunkSize(z.zi) && z.nmax > 1
    && a * PAGE + HEADER <= z.base && z.base + z.nmax * z.chunk <= (a + zp) * PAGE
    && z.base % 8 == 0 && z.chunk % 8 == 0 && (IsPow2(z.chunk) ==> (z.base - a * PAGE) % z.chunk == 0)
  }

  lemma FreshOk(a: nat, zp: nat, zi: nat)
    requires zp >= 8 && zi < NZONES && ChunkSize(zi) <= zp * 1024
    ensures var chunk := ChunkSize(zi);
      var z := FreshZone(a, zp, zi, chunk);
      Laid(z, a, zp) && ChunksOk(z, {z.base}) && z.base in Slots(z.base, z.chunk, z.nmax)
  {
    var chunk := ChunkSize(zi);
    ChunkEights(zi);
    var off := Offset(chunk);
    OffsetOk(chunk);
    var room: nat := zp * PAGE - off;
    var nmax := room / chunk;
    RoomFor(room, chunk, 2);
    FreshLaid(a, zp, chunk, off, nmax);
    var z := FreshZone(a, zp, zi, chunk);
    assert z == Zone(nmax - 1, nmax, 0, a * PAGE + off, chunk, zi, []);
    FreshChunks(z);
  }

  lemma ChunkEights(i: nat)
    requires i < NZONES
    ensures ChunkSize(i) > 0 && ChunkSize(i) % 8 == 0
  {
  }

  lemma FreshLaid(a: nat, zp: nat, chunk: nat, off: nat, nmax: nat)
    requires off + nmax * chunk <= zp * PAGE && off % 8 == 0
    ensures var base := a * PAGE + off;
      base + nmax * chunk <= (a + zp) * PAGE && base % 8 == 0 && base - a * PAGE == off
  {}

  lemma FreshChunks(z: Zone)
    requires z.chunk > 0 && z.nmax > 0 && z.nfree == z.nmax - 1 && z.uindex == 0 && z.freed == []
    ensures ChunksOk(z, {z.base}) && z.base in Slots(z.base, z.chunk, z.nmax)
  {
    FirstSlot(z.base, z.chunk, z.nmax);
    assert {z.base} + Members([]) == {z.base};
  }

  lemma FirstSlot(base: int, chunk: nat, n: nat)
    requires n > 0
    ensures Slots(base, chunk, 1) == {base} && base in Slots(base, chunk, n)
  {
    assert Slots(base, chunk, 0) == {};
    SlotsMore(base, chunk, 1, n);
  }

  lemma RoomFor(x: nat, k: nat, n: nat)
    requires k > 0 && x >= n * k
    ensures x / k >= n && x / k * k <= x
  {
    Scaled(x / k + 1 - n, k);
    assert (x / k + 1 - n) * k == x / k * k + k - n * k;
  }

  lemma OffsetOk(chunk: nat)
    requires chunk > 0 && chunk % 8 == 0
    ensures HEADER <= Offset(chunk) < HEADER + chunk && Offset(chunk) % 8 == 0
    ensures IsPow2(chunk) ==> Offset(chunk) % chunk == 0
  {
    PowerTestExact(chunk);
    RoundedUp(HEADER, chunk);
    RoundedUp(HEADER, 8);
    if PowerTest(chunk) { EightDivides(Offset(chunk), chunk); }
  }

  lemma EightDivides(x: nat, k: nat)
    requires k > 0 && k % 8 == 0 && x % k == 0
    ensures x % 8 == 0
  {
    var m, q := x / k, k / 8;
    assert x == m * (q * 8) == (m * q) * 8;
    Congruent(0, m * q, 8);
  }
}
