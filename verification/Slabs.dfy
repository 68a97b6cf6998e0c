/**
 What the slab allocator of rt-thread/src/slab.c keeps: zones, the table of zones with free chunks, the idle zones,
 the page types and the live blocks.  Pages are numbered; byte addresses are page * PAGE + offset.
 */
module Slabs {
  import opened Queues
  import opened SizeClasses
  import opened Zones
  import opened Pages

  /** memusage: the page types FREE, SMALL with the distance from the zone's first page, LARGE with the page count. */
  datatype Usage = Unused | Small(off: int) | Large(n: int)

  /**
   The allocator's variables, and four maps that say what they mean: who holds a page that the page allocator handed
   out, the live chunks of each zone, the live large blocks by first page, and all live blocks with their sizes.
   */
  datatype State = State(
    zp: nat, zones: map<int, Zone>, table: seq<seq<int>>, idle: seq<int>, usage: map<int, Usage>, meta: int, metaPages: int,
    owner: map<int, int>, lives: map<int, set<int>>, larges: map<int, int>, live: map<int, int>)

  ghost predicate Holds(s: State, a: int, n: int) {
    forall p {:trigger p in s.owner} :: a <= p < a + n ==> p in s.owner && s.owner[p] == a
  }

  /** The zone-sized run at page a, marked as such. */
  ghost predicate Marked(s: State, a: int) {
    && a > 0 && a != s.meta && Holds(s, a, s.zp)
    && forall p {:trigger p in s.usage} :: a <= p < a + s.zp ==> p in s.usage && s.usage[p] == Small(p - a)
  }

  ghost predicate Sized(live: map<int, int>, cs: set<int>, chunk: int) {
    forall c {:trigger c in cs} :: c in cs ==> c in live && live[c] == chunk
  }

  /** A zone in use: it is in the table exactly when it has free chunks. */
  ghost predicate ZoneOk(s: State, a: int) {
    && a in s.zones && a in s.lives && Marked(s, a) && a !in s.idle
    && Laid(s.zones[a], a, s.zp) && ChunksOk(s.zones[a], s.lives[a]) && Sized(s.live, s.lives[a], s.zones[a].chunk)
    && s.zones[a].zi < |s.table| && (a in s.table[s.zones[a].zi] <==> s.zones[a].nfree > 0)
  }

  ghost predicate RowOk(s: State, i: nat) {
    && i < |s.table| && NoDup(s.table[i])
    && forall a {:trigger a in s.table[i]} :: a in s.table[i] ==> a in s.zones && s.zones[a].zi == i
  }

  ghost predicate LargeOk(s: State, a: int) {
    && a in s.larges && a > 0 && a != s.meta && s.larges[a] > 0 && Holds(s, a, s.larges[a])
    && a in s.usage && s.usage[a] == Large(s.larges[a])
    && a * PAGE in s.live && s.live[a * PAGE] == s.larges[a] * PAGE
  }

  /** A live block is a chunk of the zone that holds its page, or the large block that starts there. */
  ghost predicate LiveOk(s: State, c: int) {
    && c / PAGE in s.owner
    && var o := s.owner[c / PAGE];
      (o in s.lives && c in s.lives[o]) || (o in s.larges && c == o * PAGE)
  }

  /** Every page handed out belongs to a zone, an idle zone, a large block or memusage itself; x is one more zone-sized run, if not 0. */
  ghost predicate PageOk(s: State, p: int, x: int) {
    && p in s.owner
    && var o := s.owner[p];
      || ((o in s.zones || o in s.idle || (x != 0 && o == x)) && o <= p < o + s.zp)
      || (o in s.larges && o <= p < o + s.larges[o])
      || (o == s.meta && o <= p < o + s.metaPages)
  }

  ghost predicate Inv(s: State, x: int) {
    && s.zp >= 8 && |s.table| == NZONES && s.zones.Keys == s.lives.Keys && NoDup(s.idle) && Holds(s, s.meta, s.metaPages)
    && (forall a {:trigger ZoneOk(s, a)} :: a in s.zones ==> ZoneOk(s, a))
    && (forall i {:trigger RowOk(s, i)} :: 0 <= i < NZONES ==> RowOk(s, i))
    && (forall a {:trigger Marked(s, a)} :: a in s.idle ==> Marked(s, a))
    && (forall a {:trigger LargeOk(s, a)} :: a in s.larges ==> LargeOk(s, a))
    && (forall c {:trigger LiveOk(s, c)} :: c in s.live ==> LiveOk(s, c))
    && (forall p {:trigger PageOk(s, p, x)} :: p in s.owner ==> PageOk(s, p, x))
    && (x != 0 ==> Marked(s, x) && x !in s.idle && x !in s.zones)
  }

  // ----- live blocks

  /** The blocks at c and d do not overlap. */
  ghost predicate Clear(live: map<int, int>, c: int, d: int)
    requires c in live && d in live
  {
    c + live[c] <= d || d + live[d] <= c
  }

  /** The page of a chunk. */
  lemma ChunkPage(z: Zone, a: int, zp: nat, c: int)
    requires Laid(z, a, zp) && c in Slots(z.base, z.chunk, z.nmax)
    ensures a <= c / PAGE < a + zp && a * PAGE < c && c + z.chunk <= (a + zp) * PAGE && z.chunk > 0
  {
    SlotsBound(z.base, z.chunk, z.nmax, c);
    SizesGrow(z.zi, z.zi + 1);
  }

  lemma LiveChunk(s: State, x: int, a: int, c: int)
    requires Inv(s, x) && a in s.zones && c in s.lives[a]
    ensures ZoneOk(s, a) && c in s.live && s.live[c] == s.zones[a].chunk > 0 && c in Slots(s.zones[a].base, s.zones[a].chunk, s.zones[a].nmax)
    ensures a <= c / PAGE < a + s.zp && a * PAGE < c && c + s.live[c] <= (a + s.zp) * PAGE
    ensures c / PAGE in s.owner && s.owner[c / PAGE] == a
  {
    var z := s.zones[a];
    assert ZoneOk(s, a);
    SlotsMore(z.base, z.chunk, z.uindex + 1, z.nmax);
    ChunkPage(z, a, s.zp, c);
  }

  /** The pages of the holder of c contain the whole block. */
  lemma LiveInside(s: State, x: int, c: int) returns (o: int, n: int)
    requires Inv(s, x) && c in s.live
    ensures c / PAGE in s.owner && o == s.owner[c / PAGE] && n > 0 && Holds(s, o, n) && o * PAGE <= c && c + s.live[c] <= (o + n) * PAGE && s.live[c] > 0 && c > 0
    ensures (o in s.zones && n == s.zp && c in s.lives[o]) || (o in s.larges && n == s.larges[o] && c == o * PAGE)
  {
    assert LiveOk(s, c);
    o := s.owner[c / PAGE];
    if o in s.lives && c in s.lives[o] {
      n := s.zp;
      LiveChunk(s, x, o, c);
    } else {
      assert LargeOk(s, o);
      n := s.larges[o];
    }
  }

  lemma RunsApart(s: State, a: int, n: int, b: int, m: int)
    requires Holds(s, a, n) && Holds(s, b, m) && n > 0 && m > 0 && a != b
    ensures a + n <= b || b + m <= a
  {
    var p := if a < b then b else a;
    assert a <= p < a + n ==> p in s.owner && s.owner[p] == a;
    assert b <= p < b + m ==> p in s.owner && s.owner[p] == b;
  }

  lemma KindsDiffer(s: State, x: int, a: int)
    requires Inv(s, x)
    ensures a in s.larges ==> a !in s.zones && a !in s.idle && (x != 0 ==> a != x)
  {
    assert a in s.larges ==> LargeOk(s, a);
    assert a in s.zones ==> ZoneOk(s, a);
    assert a in s.idle ==> Marked(s, a);
  }

  /** No two live blocks overlap. */
  lemma LiveApart(s: State, x: int, c: int, d: int)
    requires Inv(s, x) && c in s.live && d in s.live && c != d
    ensures Clear(s.live, c, d)
  {
    var o, n := LiveInside(s, x, c);
    var o', n' := LiveInside(s, x, d);
    if o != o' {
      RunsApart(s, o, n, o', n');
    } else {
      KindsDiffer(s, x, o);
      LiveChunk(s, x, o, c);
      LiveChunk(s, x, o, d);
      SlotsApart(s.zones[o].base, s.zones[o].chunk, s.zones[o].nmax, c, d);
    }
  }

  // ----- steps that change one zone

  /** The maps agree but for a. */
  ghost predicate Agree<T>(m: map<int, T>, n: map<int, T>, a: int) {
    forall b {:trigger b in m} {:trigger b in n} :: b != a ==> (b in m <==> b in n) && (b in m && b in n ==> m[b] == n[b])
  }

  ghost predicate Alike(q: seq<int>, r: seq<int>, a: int) {
    forall b {:trigger b in q} {:trigger b in r} :: b != a ==> (b in q <==> b in r)
  }

  /** A step that changes the run at a, and one live address c, in its pages. */
  ghost predicate Local(s: State, t: State, a: int, c: int) {
    && t == s.(zones := t.zones, table := t.table, idle := t.idle, lives := t.lives, live := t.live)
    && |t.table| == |s.table| && t.zones.Keys == t.lives.Keys
    && Agree(s.zones, t.zones, a) && Agree(s.lives, t.lives, a) && Agree(s.live, t.live, c) && Alike(s.idle, t.idle, a)
    && (forall j {:trigger t.table[j]} :: 0 <= j < |s.table| ==> Alike(s.table[j], t.table[j], a))
    && c / PAGE in s.owner && s.owner[c / PAGE] == a && Marked(s, a)
    && a !in s.larges
  }

  lemma LocalMarked(s: State, t: State, a: int, c: int, b: int)
    requires Local(s, t, a, c) && Marked(s, b)
    ensures Marked(t, b)
  {
    assert t.owner == s.owner && t.usage == s.usage && t.zp == s.zp && t.meta == s.meta;
  }

  lemma ZoneKeeps(s: State, x: int, t: State, a: int, c: int, b: int)
    requires Inv(s, x) && Local(s, t, a, c) && b in s.zones && b != a
    ensures ZoneOk(t, b)
  {
    assert ZoneOk(s, b);
    forall d | d in s.lives[b] ensures d in t.live && t.live[d] == s.zones[b].chunk { LiveChunk(s, x, b, d); }
    assert Alike(s.table[s.zones[b].zi], t.table[s.zones[b].zi], a);
  }

  lemma LargeKeeps(s: State, x: int, t: State, a: int, c: int, b: int)
    requires Inv(s, x) && Local(s, t, a, c) && b in s.larges
    ensures LargeOk(t, b)
  {
    assert LargeOk(s, b) && b * PAGE / PAGE == b;
    assert b in s.owner && s.owner[b] == b;
  }

  lemma LiveKeeps(s: State, x: int, t: State, a: int, c: int, d: int)
    requires Inv(s, x) && Local(s, t, a, c) && d in s.live && d != c
    requires a in s.lives && d in s.lives[a] ==> a in t.lives && d in t.lives[a]
    ensures LiveOk(t, d)
  {
    assert LiveOk(s, d);
  }

  lemma PageKeeps(s: State, x: int, t: State, y: int, a: int, c: int, p: int)
    requires Inv(s, x) && Local(s, t, a, c) && p in s.owner && (x == 0 || x == a)
    requires a in t.zones || a in t.idle || (y != 0 && y == a)
    ensures PageOk(t, p, y)
  {
    assert PageOk(s, p, x);
    assert s.owner[p] == a && a != s.meta && a !in s.larges ==> a <= p < a + s.zp;
  }

  /** Such a step keeps the invariant if it leaves zone a and the rows of the table in order. */
  lemma LocalKeeps(s: State, x: int, t: State, y: int, a: int, c: int)
    requires Inv(s, x) && Local(s, t, a, c) && (x == 0 || x == a) && (y == 0 || y == a)
    requires a in t.zones || a in t.idle || (y != 0 && y == a)
    requires a in t.zones ==> ZoneOk(t, a)
    requires y != 0 ==> a !in t.zones && a !in t.idle
    requires NoDup(t.idle) && forall j {:trigger RowOk(t, j)} :: 0 <= j < NZONES ==> RowOk(t, j)
    requires forall d {:trigger d in s.lives[a]} :: a in s.lives && d in s.lives[a] && d != c ==> a in t.lives && d in t.lives[a]
    requires c in t.live ==> a in t.lives && c in t.lives[a]
    ensures Inv(t, y)
  {
    forall b | b in t.zones ensures ZoneOk(t, b) { if b != a { ZoneKeeps(s, x, t, a, c, b); } }
    forall b | b in t.idle ensures Marked(t, b) { assert b != a ==> b in s.idle; LocalMarked(s, t, a, c, b); }
    forall b | b in t.larges ensures LargeOk(t, b) { LargeKeeps(s, x, t, a, c, b); }
    forall d | d in t.live ensures LiveOk(t, d) { if d != c { LiveKeeps(s, x, t, a, c, d); } }
    forall p | p in t.owner ensures PageOk(t, p, y) { PageKeeps(s, x, t, y, a, c, p); }
  }

  lemma Head(s: State, i: nat)
    requires Inv(s, 0) && i < NZONES && s.table[i] != []
    ensures var a := s.table[i][0];
      && RowOk(s, i) && a in s.table[i] && ZoneOk(s, a) && s.zones[a].zi == i && s.zones[a].nfree > 0
      && (s.zones[a].uindex + 1 != s.zones[a].nmax || s.zones[a].freed != [])
  {
    var a := s.table[i][0];
    assert RowOk(s, i) && a in s.table[i];
    assert ZoneOk(s, a);
    TakeOk(s.zones[a], s.lives[a]);
  }

  /** rt_malloc, existing zone: a chunk of the first zone in row i; a zone without further free chunks leaves the row. */
  ghost function TakeStep(s: State, i: nat): (State, int)
    requires Inv(s, 0) && i < NZONES && s.table[i] != []
  {
    Head(s, i);
    var a := s.table[i][0];
    var (z, c) := TakeChunk(s.zones[a]);
    (s.(zones := s.zones[a := z], table := if z.nfree == 0 then s.table[i := s.table[i][1..]] else s.table,
        lives := s.lives[a := s.lives[a] + {c}], live := s.live[c := z.chunk]), c)
  }

  /** The chunk that is taken, and its zone. */
  lemma TakenChunk(s: State, i: nat)
    requires Inv(s, 0) && i < NZONES && s.table[i] != []
    ensures var (t, c) := TakeStep(s, i);
      var a := s.table[i][0];
      && a in s.lives && a in t.zones && Laid(t.zones[a], a, s.zp) && ChunksOk(t.zones[a], s.lives[a] + {c}) && c !in s.lives[a]
      && a * PAGE < c && c / PAGE in s.owner && s.owner[c / PAGE] == a && t.zones[a].zi == i && ZoneOk(s, a) && t.zones[a].chunk == s.zones[a].chunk
  {
    Head(s, i);
    var a := s.table[i][0];
    var z := s.zones[a];
    TakeOk(z, s.lives[a]);
    var (z', c) := TakeChunk(z);
    SlotsMore(z'.base, z'.chunk, z'.uindex + 1, z'.nmax);
    SameLayout(z, z', a, s.zp);
    ChunkPage(z', a, s.zp, c);
  }

  lemma SameLayout(z: Zone, z': Zone, a: int, zp: nat)
    requires Laid(z, a, zp) && z'.zi == z.zi && z'.chunk == z.chunk && z'.nmax == z.nmax && z'.base == z.base
    ensures Laid(z', a, zp)
  {}

  /** An address in the pages of a zone that is not one of its live chunks is not live. */
  lemma NotLive(s: State, x: int, a: int, c: int)
    requires Inv(s, x) && c / PAGE in s.owner && s.owner[c / PAGE] == a && a * PAGE < c && a !in s.larges
    requires a in s.lives ==> c !in s.lives[a]
    ensures c !in s.live
  {
    assert c in s.live ==> LiveOk(s, c);
  }

  lemma RowTail(q: seq<int>)
    requires q != [] && NoDup(q)
    ensures Alike(q, q[1..], q[0]) && q[0] !in q[1..] && NoDup(q[1..])
  {
    TailNoDup(q);
    assert q == [q[0]] + q[1..];
  }

  lemma TakeKeeps(s: State, i: nat)
    requires Inv(s, 0) && i < NZONES && s.table[i] != []
    ensures var (t, c) := TakeStep(s, i);
      Inv(t, 0) && c !in s.live && c > 0
  {
    var (t, c) := TakeStep(s, i);
    var a := s.table[i][0];
    TakenChunk(s, i);
    KindsDiffer(s, 0, a);
    NotLive(s, 0, a, c);
    TakeRows(s, i);
    assert ZoneOk(t, a);
    LocalKeeps(s, 0, t, 0, a, c);
  }

  lemma TakeRows(s: State, i: nat)
    requires Inv(s, 0) && i < NZONES && s.table[i] != []
    ensures var a, t := s.table[i][0], TakeStep(s, i).0;
      && a in t.zones && (forall j {:trigger RowOk(t, j)} :: 0 <= j < NZONES ==> RowOk(t, j))
      && (forall j {:trigger t.table[j]} :: 0 <= j < NZONES ==> Alike(s.table[j], t.table[j], a))
      && (a in t.table[i] <==> t.zones[a].nfree != 0)
  {
    Head(s, i);
    RowTail(s.table[i]);
    var t := TakeStep(s, i).0;
    forall j | 0 <= j < NZONES ensures RowOk(t, j) { assert RowOk(s, j); }
  }

  /** rt_malloc, new zone: the run at a is laid out for class i, and its first chunk is handed out. */
  ghost function OpenStep(s: State, a: nat, i: nat): (State, int)
    requires i < |s.table|
  {
    SizesGrow(i, i + 1);
    var z := FreshZone(a, s.zp, i, ChunkSize(i));
    (s.(zones := s.zones[a := z], table := s.table[i := [a] + s.table[i]], lives := s.lives[a := {z.base}],
        live := s.live[z.base := z.chunk]), z.base)
  }

  lemma OpenKeeps(s: State, a: nat, i: nat)
    requires Inv(s, a) && a > 0 && i < NZONES && ChunkSize(i) <= s.zp * 1024
    ensures var (t, c) := OpenStep(s, a, i);
      Inv(t, 0) && c !in s.live && c > 0
  {
    var (t, c) := OpenStep(s, a, i);
    FreshOk(a, s.zp, i);
    ChunkPage(t.zones[a], a, s.zp, c);
    assert c / PAGE in s.owner;
    KindsDiffer(s, a, a);
    NotLive(s, a, a, c);
    OpenRows(s, a, i);
    assert ZoneOk(t, a);
    LocalKeeps(s, a, t, 0, a, c);
  }

  lemma OpenRows(s: State, a: nat, i: nat)
    requires Inv(s, a) && a > 0 && i < NZONES
    ensures var t := OpenStep(s, a, i).0;
      && (forall j {:trigger RowOk(t, j)} :: 0 <= j < NZONES ==> RowOk(t, j))
      && (forall j {:trigger t.table[j]} :: 0 <= j < NZONES ==> Alike(s.table[j], t.table[j], a))
      && a in t.table[i]
  {
    var t := OpenStep(s, a, i).0;
    forall j | 0 <= j < NZONES ensures RowOk(s, j) && a !in s.table[j] { assert RowOk(s, j); }
    RowOnto(s.table[i], a);
    forall j | 0 <= j < NZONES ensures RowOk(t, j) { assert RowOk(s, j); }
  }

  lemma RowOnto(q: seq<int>, a: int)
    requires NoDup(q) && a !in q
    ensures Alike(q, [a] + q, a) && NoDup([a] + q) && a in [a] + q
  {
    PushNoDup(q, a);
  }

  /** The first idle zone leaves the idle list. */
  lemma ReuseKeeps(s: State)
    requires Inv(s, 0) && s.idle != []
    ensures Inv(s.(idle := s.idle[1..]), s.idle[0]) && s.idle[0] > 0
  {
    var a, t := s.idle[0], s.(idle := s.idle[1..]);
    assert a in s.idle && Marked(s, a) && a * PAGE / PAGE == a && a in s.owner;
    assert a in s.zones ==> ZoneOk(s, a);
    KindsDiffer(s, 0, a);
    RowTail(s.idle);
    forall j | 0 <= j < NZONES ensures RowOk(t, j) { assert RowOk(s, j); }
    forall j | 0 <= j < NZONES ensures Alike(s.table[j], t.table[j], a) {}
    if a * PAGE in s.live { LiveStart(s, 0, a); }
    LocalKeeps(s, 0, t, a, a, a * PAGE);
  }

  /** No live block starts at the first address of a zone. */
  lemma LiveStart(s: State, x: int, a: int)
    requires Inv(s, x) && a in s.owner && s.owner[a] == a && a !in s.larges
    ensures a * PAGE !in s.live
  {
    if a * PAGE in s.live {
      var o, n := LiveInside(s, x, a * PAGE);
      assert a * PAGE / PAGE == a;
      LiveChunk(s, x, a, a * PAGE);
    }
  }

  // ----- rt_free

  /** The zone of a chunk, as rt_free finds it from the type of the chunk's page. */
  lemma HomeZone(s: State, c: int)
    requires Inv(s, 0) && c in s.live && c / PAGE in s.usage && s.usage[c / PAGE].Small?
    ensures var a := c / PAGE - s.usage[c / PAGE].off;
      a in s.zones && a in s.lives && c in s.lives[a] && c / PAGE in s.owner && s.owner[c / PAGE] == a && a !in s.larges
  {
    var o, n := LiveInside(s, 0, c);
    KindsDiffer(s, 0, o);
    assert o * PAGE / PAGE == o;
    assert o in s.larges ==> LargeOk(s, o);
    assert o !in s.larges;
    LiveChunk(s, 0, o, c);
    assert Marked(s, o);
  }

  ghost function PutStep(s: State, c: int): State
    requires Inv(s, 0) && c in s.live && c / PAGE in s.usage && s.usage[c / PAGE].Small?
  {
    HomeZone(s, c);
    var a := c / PAGE - s.usage[c / PAGE].off;
    var z := s.zones[a];
    assert ZoneOk(s, a);
    s.(zones := s.zones[a := PutChunk(z, c)], table := if z.nfree == 0 then s.table[z.zi := [a] + s.table[z.zi]] else s.table,
       lives := s.lives[a := s.lives[a] - {c}], live := s.live - {c})
  }

  lemma PutKeeps(s: State, c: int)
    requires Inv(s, 0) && c in s.live && c / PAGE in s.usage && s.usage[c / PAGE].Small?
    ensures Inv(PutStep(s, c), 0)
  {
    HomeZone(s, c);
    var t, a := PutStep(s, c), c / PAGE - s.usage[c / PAGE].off;
    var z := s.zones[a];
    assert ZoneOk(s, a);
    PutOk(z, s.lives[a], c);
    AllFree(z, s.lives[a]);
    SameLayout(z, t.zones[a], a, s.zp);
    PutRows(s, c);
    assert ZoneOk(t, a);
    LocalKeeps(s, 0, t, 0, a, c);
  }

  lemma PutRows(s: State, c: int)
    requires Inv(s, 0) && c in s.live && c / PAGE in s.usage && s.usage[c / PAGE].Small?
    ensures var a, t := c / PAGE - s.usage[c / PAGE].off, PutStep(s, c);
      && a in s.zones && s.zones[a].zi < |t.table| == |s.table| && a in t.table[s.zones[a].zi]
      && (forall j {:trigger RowOk(t, j)} :: 0 <= j < NZONES ==> RowOk(t, j))
      && (forall j {:trigger t.table[j]} :: 0 <= j < NZONES ==> Alike(s.table[j], t.table[j], a))
  {
    HomeZone(s, c);
    var t, a := PutStep(s, c), c / PAGE - s.usage[c / PAGE].off;
    var z := s.zones[a];
    assert ZoneOk(s, a);
    AllFree(z, s.lives[a]);
    assert RowOk(s, z.zi);
    if z.nfree == 0 { RowOnto(s.table[z.zi], a); }
    forall j | 0 <= j < NZONES ensures RowOk(t, j) { assert RowOk(s, j); }
  }

  /** A zone without live chunks becomes idle. */
  ghost function RetireStep(s: State, a: int): State
    requires a in s.zones && s.zones[a].zi < |s.table|
  {
    var i := s.zones[a].zi;
    s.(zones := s.zones - {a}, lives := s.lives - {a}, table := s.table[i := Removed(s.table[i], a)], idle := [a] + s.idle)
  }

  lemma RetireKeeps(s: State, a: int)
    requires Inv(s, 0) && a in s.zones && s.zones[a].nfree == s.zones[a].nmax
    ensures s.zones[a].zi < |s.table| && Inv(RetireStep(s, a), 0)
  {
    assert ZoneOk(s, a);
    var t, i := RetireStep(s, a), s.zones[a].zi;
    AllFree(s.zones[a], s.lives[a]);
    assert RowOk(s, i);
    RemovedMembers(s.table[i], a);
    RowOnto(s.idle, a);
    KindsDiffer(s, 0, a);
    assert a in s.owner && a * PAGE / PAGE == a;
    LiveStart(s, 0, a);
    forall j | 0 <= j < NZONES ensures RowOk(t, j) { assert RowOk(s, j); }
    LocalKeeps(s, 0, t, 0, a, a * PAGE);
  }

  // ----- steps that take pages from the page allocator or give them back

  ghost predicate AgreeOutside<T>(m: map<int, T>, n: map<int, T>, b: int, k: int) {
    forall p {:trigger p in m} {:trigger p in n} :: !(b <= p < b + k) ==> (p in m <==> p in n) && (p in m && p in n ==> m[p] == n[p])
  }

  /** A step that changes only the n pages at b, which nobody else holds, and the large block there. */
  ghost predicate PagesChange(s: State, t: State, b: int, n: int) {
    && t == s.(owner := t.owner, usage := t.usage, larges := t.larges, live := t.live)
    && AgreeOutside(s.owner, t.owner, b, n) && AgreeOutside(s.usage, t.usage, b, n)
    && Agree(s.larges, t.larges, b) && Agree(s.live, t.live, b * PAGE)
    && (forall p {:trigger p in s.owner} :: b <= p < b + n && p in s.owner ==> s.owner[p] == b)
    && b > 0 && n > 0 && b !in s.zones && b !in s.idle && b != s.meta && (b in s.larges ==> s.larges[b] == n)
  }

  /** What others hold lies outside the pages. */
  lemma Outside(s: State, t: State, b: int, n: int, a: int, k: int, p: int)
    requires PagesChange(s, t, b, n) && Holds(s, a, k) && a != b && a <= p < a + k
    ensures !(b <= p < b + n) && p in t.owner && t.owner[p] == a
  {
    assert p in s.owner && s.owner[p] == a;
  }

  lemma HoldsKeeps(s: State, t: State, b: int, n: int, a: int, k: int)
    requires PagesChange(s, t, b, n) && Holds(s, a, k) && a != b
    ensures Holds(t, a, k)
  {
    forall p | a <= p < a + k ensures p in t.owner && t.owner[p] == a { Outside(s, t, b, n, a, k, p); }
  }

  lemma MarkedKeeps(s: State, t: State, b: int, n: int, a: int)
    requires PagesChange(s, t, b, n) && Marked(s, a) && a != b
    ensures Marked(t, a)
  {
    HoldsKeeps(s, t, b, n, a, s.zp);
    forall p | a <= p < a + s.zp ensures p in t.usage && t.usage[p] == Small(p - a) {
      Outside(s, t, b, n, a, s.zp, p);
      assert p in s.usage;
    }
  }

  lemma ZoneStays(s: State, x: int, t: State, b: int, n: int, a: int)
    requires Inv(s, x) && PagesChange(s, t, b, n) && a in s.zones
    ensures ZoneOk(t, a)
  {
    assert ZoneOk(s, a);
    MarkedKeeps(s, t, b, n, a);
    assert b * PAGE / PAGE == b;
    forall d | d in s.lives[a] ensures d in t.live && t.live[d] == s.zones[a].chunk { LiveChunk(s, x, a, d); }
  }

  lemma LargeStays(s: State, x: int, t: State, b: int, n: int, a: int)
    requires Inv(s, x) && PagesChange(s, t, b, n) && a in s.larges && a != b
    ensures LargeOk(t, a)
  {
    assert LargeOk(s, a);
    HoldsKeeps(s, t, b, n, a, s.larges[a]);
    assert a in s.owner;
  }

  lemma LiveStays(s: State, x: int, t: State, b: int, n: int, d: int)
    requires Inv(s, x) && PagesChange(s, t, b, n) && d in s.live && d != b * PAGE
    ensures LiveOk(t, d)
  {
    var o, k := LiveInside(s, x, d);
    assert o != b;
  }

  lemma PageStays(s: State, x: int, t: State, y: int, b: int, n: int, p: int)
    requires Inv(s, x) && PagesChange(s, t, b, n) && p in s.owner && !(b <= p < b + n) && (x == 0 || (x == b && n == s.zp))
    ensures PageOk(t, p, y)
  {
    assert PageOk(s, p, x);
  }

  lemma PagesKeep(s: State, x: int, t: State, y: int, b: int, n: int)
    requires Inv(s, x) && PagesChange(s, t, b, n) && (x == 0 || (x == b && n == s.zp)) && (y == 0 || y == b)
    requires y != 0 ==> Marked(t, y)
    requires b in t.larges ==> LargeOk(t, b)
    requires b * PAGE in t.live ==> LiveOk(t, b * PAGE)
    requires forall p {:trigger PageOk(t, p, y)} :: b <= p < b + n && p in t.owner ==> PageOk(t, p, y)
    ensures Inv(t, y)
  {
    HoldsKeeps(s, t, b, n, s.meta, s.metaPages);
    forall a | a in t.zones ensures ZoneOk(t, a) { ZoneStays(s, x, t, b, n, a); }
    forall j | 0 <= j < NZONES ensures RowOk(t, j) { assert RowOk(s, j); }
    forall a | a in t.idle ensures Marked(t, a) { assert Marked(s, a); MarkedKeeps(s, t, b, n, a); }
    forall a | a in t.larges ensures LargeOk(t, a) { if a != b { LargeStays(s, x, t, b, n, a); } }
    forall d | d in t.live ensures LiveOk(t, d) { if d != b * PAGE { LiveStays(s, x, t, b, n, d); } }
    forall p | p in t.owner ensures PageOk(t, p, y) { if !(b <= p < b + n) { PageStays(s, x, t, y, b, n, p); } }
  }

  /** The pages at b now held by b. */
  ghost function Held(m: map<int, int>, b: int, n: nat): map<int, int> {
    map p | p in m.Keys + PageSet(b, n) :: if b <= p < b + n then b else m[p]
  }

  function MarkSmall(u: map<int, Usage>, b: int, n: nat): map<int, Usage> {
    if n == 0 then u else MarkSmall(u, b, n - 1)[b + n - 1 := Small(n - 1)]
  }

  function MarkUnused(u: map<int, Usage>, b: int, n: nat): map<int, Usage> {
    if n == 0 then u else MarkUnused(u, b, n - 1)[b + n - 1 := Unused]
  }

  lemma {:induction false} MarksSmall(u: map<int, Usage>, b: int, n: nat)
    ensures var v := MarkSmall(u, b, n);
      AgreeOutside(u, v, b, n) && forall p {:trigger p in v} :: b <= p < b + n ==> p in v && v[p] == Small(p - b)
  {
    if n > 0 { MarksSmall(u, b, n - 1); }
  }

  lemma {:induction false} MarksUnused(u: map<int, Usage>, b: int, n: nat)
    ensures AgreeOutside(u, MarkUnused(u, b, n), b, n)
  {
    if n > 0 { MarksUnused(u, b, n - 1); }
  }

  ghost predicate Foreign(s: State, b: int, n: nat) {
    forall p {:trigger p in s.owner} :: b <= p < b + n ==> p !in s.owner
  }

  /** A new run is nobody's first page. */
  lemma ForeignIsNew(s: State, b: int, n: nat)
    requires Inv(s, 0) && Foreign(s, b, n) && n > 0 && s.metaPages > 0
    ensures b !in s.zones && b !in s.idle && b !in s.larges && b != s.meta && b * PAGE !in s.live
  {
    assert b !in s.owner && b * PAGE / PAGE == b;
    assert b in s.zones ==> ZoneOk(s, b);
    assert b in s.idle ==> Marked(s, b);
    assert b in s.larges ==> LargeOk(s, b);
    assert b * PAGE in s.live ==> LiveOk(s, b * PAGE);
  }

  /** A zone-sized run taken from the page allocator. */
  lemma AcquireKeeps(s: State, b: int)
    requires Inv(s, 0) && b > 0 && s.metaPages > 0 && Foreign(s, b, s.zp)
    ensures Inv(s.(owner := Held(s.owner, b, s.zp), usage := MarkSmall(s.usage, b, s.zp)), b)
  {
    var t := s.(owner := Held(s.owner, b, s.zp), usage := MarkSmall(s.usage, b, s.zp));
    ForeignIsNew(s, b, s.zp);
    MarksSmall(s.usage, b, s.zp);
    PagesKeep(s, 0, t, b, b, s.zp);
  }

  /** A zone-sized run given back. */
  lemma ReleaseKeeps(s: State, b: int)
    requires Inv(s, b) && b > 0
    ensures Inv(s.(owner := s.owner - PageSet(b, s.zp), usage := MarkUnused(s.usage, b, s.zp)), 0)
  {
    var t := s.(owner := s.owner - PageSet(b, s.zp), usage := MarkUnused(s.usage, b, s.zp));
    MarksUnused(s.usage, b, s.zp);
    KindsDiffer(s, b, b);
    assert b in s.owner;
    LiveStart(s, b, b);
    PagesKeep(s, b, t, 0, b, s.zp);
  }

  lemma LargeTakeKeeps(s: State, b: int, n: nat)
    requires Inv(s, 0) && b > 0 && n > 0 && s.metaPages > 0 && Foreign(s, b, n)
    ensures b * PAGE !in s.live
    ensures Inv(s.(owner := Held(s.owner, b, n), usage := s.usage[b := Large(n)], larges := s.larges[b := n], live := s.live[b * PAGE := n * PAGE]), 0)
  {
    var t := s.(owner := Held(s.owner, b, n), usage := s.usage[b := Large(n)], larges := s.larges[b := n], live := s.live[b * PAGE := n * PAGE]);
    ForeignIsNew(s, b, n);
    assert b * PAGE / PAGE == b;
    PagesKeep(s, 0, t, 0, b, n);
  }

  lemma LargeFreeKeeps(s: State, b: int)
    requires Inv(s, 0) && b in s.larges
    ensures s.larges[b] > 0
    ensures Inv(s.(owner := s.owner - PageSet(b, s.larges[b]), usage := s.usage[b := Large(0)], larges := s.larges - {b}, live := s.live - {b * PAGE}), 0)
  {
    assert LargeOk(s, b);
    var n := s.larges[b];
    var t := s.(owner := s.owner - PageSet(b, n), usage := s.usage[b := Large(0)], larges := s.larges - {b}, live := s.live - {b * PAGE});
    KindsDiffer(s, 0, b);
    PagesKeep(s, 0, t, 0, b, n);
  }

  /** The large block that rt_free finds from the type of the block's page. */
  lemma HomeLarge(s: State, c: int)
    requires Inv(s, 0) && c in s.live && c / PAGE in s.usage && !s.usage[c / PAGE].Small?
    ensures c / PAGE in s.larges && c == c / PAGE * PAGE && s.usage[c / PAGE] == Large(s.larges[c / PAGE])
  {
    var o, n := LiveInside(s, 0, c);
    assert o * PAGE / PAGE == o;
    assert o in s.zones ==> ZoneOk(s, o);
    if o in s.zones { LiveChunk(s, 0, o, c); }
    assert o in s.larges ==> LargeOk(s, o);
  }

  lemma NoNull(s: State)
    requires Inv(s, 0)
    ensures 0 !in s.live && s.live - {0} == s.live
  {
    if 0 in s.live { var o, n := LiveInside(s, 0, 0); }
  }

  /** The page of a live block has a type. */
  lemma Known(s: State, c: int)
    requires Inv(s, 0) && c in s.live
    ensures c / PAGE in s.usage
  {
    var o, n := LiveInside(s, 0, c);
    assert o in s.larges ==> LargeOk(s, o);
    assert o * PAGE / PAGE == o;
    if o in s.zones && c in s.lives[o] {
      LiveChunk(s, 0, o, c);
      assert Marked(s, o);
    }
  }

  lemma InRow(s: State, a: int)
    requires Inv(s, 0) && a in s.zones && s.zones[a].nfree == s.zones[a].nmax
    ensures s.zones[a].zi < |s.table| && a in s.table[s.zones[a].zi]
  {
    assert ZoneOk(s, a);
  }

  /** After freeing chunk c its zone has no live chunk left exactly if all its chunks are free. */
  lemma PutFree(s: State, c: int)
    requires Inv(s, 0) && c in s.live && c / PAGE in s.usage && s.usage[c / PAGE].Small?
    ensures var a, t := c / PAGE - s.usage[c / PAGE].off, PutStep(s, c);
      && a in s.zones && a in s.lives && a in t.zones && t.zones[a].zi == s.zones[a].zi < |s.table| == |t.table|
      && (t.zones[a].nfree == t.zones[a].nmax <==> s.lives[a] == {c})
  {
    HomeZone(s, c);
    var a, z := c / PAGE - s.usage[c / PAGE].off, s.zones[c / PAGE - s.usage[c / PAGE].off];
    assert ZoneOk(s, a);
    PutOk(z, s.lives[a], c);
    AllFree(PutChunk(z, c), s.lives[a] - {c});
    if s.lives[a] - {c} == {} { assert s.lives[a] == {c}; }
  }

  /** Its zone is then in its row, with the zones that were there. */
  lemma PutRow(s: State, c: int)
    requires Inv(s, 0) && c in s.live && c / PAGE in s.usage && s.usage[c / PAGE].Small?
    ensures var a, t := c / PAGE - s.usage[c / PAGE].off, PutStep(s, c);
      && a in s.zones && s.zones[a].zi < |s.table| == |t.table|
      && NoDup(t.table[s.zones[a].zi]) && a in t.table[s.zones[a].zi]
      && forall b {:trigger b in t.table[s.zones[a].zi]} :: b in t.table[s.zones[a].zi] <==> b in s.table[s.zones[a].zi] || b == a
  {
    HomeZone(s, c);
    PutRows(s, c);
    var a, t := c / PAGE - s.usage[c / PAGE].off, PutStep(s, c);
    var i := s.zones[a].zi;
    assert RowOk(t, i) && Alike(s.table[i], t.table[i], a);
  }

  ghost predicate Another(q: seq<int>, a: int) {
    exists b {:trigger b in q} :: b in q && b != a
  }

  /** A row that holds a holds nothing else exactly if it is [a]. */
  lemma RowAlone(q: seq<int>, a: int)
    requires NoDup(q) && a in q
    ensures q != [a] <==> Another(q, a)
  {
    if |q| > 1 {
      assert q[0] in q && q[1] in q && Differ(q, 0, 1);
    }
  }

  lemma LargePages(s: State, b: int)
    requires Inv(s, 0) && b in s.larges
    ensures s.larges[b] > 0 && PageSet(b, s.larges[b]) <= s.owner.Keys && b * PAGE in s.live
  {
    assert LargeOk(s, b);
    forall p | p in PageSet(b, s.larges[b]) ensures p in s.owner {}
  }

  lemma ZonePages(s: State, a: int)
    requires Inv(s, a) && a != 0
    ensures PageSet(a, s.zp) <= s.owner.Keys
  {
    forall p | p in PageSet(a, s.zp) ensures p in s.owner {}
  }

  // ----- alignment

  /** A chunk of a power-of-two size is aligned as the first page of its zone is. */
  lemma ChunkAligned(s: State, a: int, c: int)
    requires Inv(s, 0) && a in s.zones && c in s.lives[a] && IsPow2(s.zones[a].chunk)
    ensures c % s.zones[a].chunk == (a * PAGE) % s.zones[a].chunk
  {
    LiveChunk(s, 0, a, c);
    SlotAligned(s.zones[a], a, s.zp, c);
  }

  lemma SlotAligned(z: Zone, a: int, zp: nat, c: int)
    requires Laid(z, a, zp) && z.chunk > 0 && IsPow2(z.chunk) && c in Slots(z.base, z.chunk, z.nmax)
    ensures c % z.chunk == (a * PAGE) % z.chunk
  {
    Quotient(z.chunk, z.chunk, 1, 0);
    SlotsAligned(z.base, z.chunk, z.nmax, c, z.chunk);
    Shifted(a * PAGE, z.base - a * PAGE, z.chunk);
  }

  lemma Shifted(x: int, d: nat, k: nat)
    requires k > 0 && d % k == 0
    ensures (x + d) % k == x % k
  {
    assert d == d / k * k;
    Congruent(x, d / k, k);
  }

  /** A power-of-two request up to the page size gets a block aligned to its size. */
  lemma Aligned(s: State, c: int, size: nat)
    requires Inv(s, 0) && c in s.live && s.live[c] == ZoneIndex(size).1 && IsPow2(size) && size <= PAGE
    ensures c % size == 0
  {
    var o, n := LiveInside(s, 0, c);
    PageAligned(o, size);
    if o in s.zones && c in s.lives[o] {
      LiveChunk(s, 0, o, c);
      if size < 8 {
        SmallAligned(s.zones[o], o, s.zp, c, size);
      } else {
        PowerIsChunk(size);
        SlotAligned(s.zones[o], o, s.zp, c);
      }
    }
  }

  lemma PageAligned(o: int, size: nat)
    requires IsPow2(size) && size <= PAGE
    ensures (o * PAGE) % size == 0
  {
    Powers();
    PowersDivide(size, PAGE);
    Dividing(o, PAGE, size);
  }

  lemma SmallAligned(z: Zone, a: int, zp: nat, c: int, size: nat)
    requires Laid(z, a, zp) && z.chunk > 0 && c in Slots(z.base, z.chunk, z.nmax) && IsPow2(size) && size < 8
    ensures c % size == 0
  {
    Powers();
    PowersDivide(size, 8);
    SlotsAligned(z.base, z.chunk, z.nmax, c, 8);
    Dividing(c / 8, 8, size);
  }

  lemma Dividing(m: int, p: nat, k: nat)
    requires k > 0 && p % k == 0
    ensures (m * p) % k == 0
  {
    var q := p / k;
    assert m * p == m * (q * k) == (m * q) * k;
    Congruent(0, m * q, k);
  }

  /** The chunk handed out for a power of two is aligned to it exactly when that is not more than a page, or divides the zone's first address. */
  lemma ChunkAlignedIff(s: State, a: int, c: int, size: nat)
    requires Inv(s, 0) && a in s.zones && c in s.lives[a] && IsPow2(size) && size < CLASS_LIMIT && s.zones[a].chunk == ZoneIndex(size).1
    ensures c % size == 0 <==> size <= PAGE || (a * PAGE) % size == 0
  {
    LiveChunk(s, 0, a, c);
    if size <= PAGE {
      Aligned(s, c, size);
    } else {
      PowerIsChunk(size);
      ChunkAligned(s, a, c);
    }
  }

  // ----- the start

  /** Only memusage has been taken from the page allocator. */
  lemma InitInv(zp: nat, meta: int, n: nat)
    requires zp >= 8
    ensures Inv(State(zp, map[], seq(NZONES, i => []), [], map[], meta, n, map p | p in PageSet(meta, n) :: meta, map[], map[], map[]), 0)
  {
    var s := State(zp, map[], seq(NZONES, i => []), [], map[], meta, n, map p | p in PageSet(meta, n) :: meta, map[], map[], map[]);
    forall j | 0 <= j < NZONES ensures RowOk(s, j) {}
    forall p | p in s.owner ensures PageOk(s, p, 0) {}
  }
}
