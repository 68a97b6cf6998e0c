/**
 The size classes of rt-thread/src/slab.c:401-459: 72 chunk sizes up to 16 KB.
 */
module SizeClasses {
  import opened Words

  const NZONES := 72
  const CLASS_LIMIT := 0x4000

  /** (n + k - 1) & ~(k - 1), for a power of two k. */
  function RoundUp(n: nat, k: nat): (r: nat)
    requires k > 0
  {
    (n + k - 1) / k * k
  }

  lemma RoundedUp(n: nat, k: nat)
    requires k > 0
    ensures n <= RoundUp(n, k) < n + k && RoundUp(n, k) % k == 0
    ensures n % k == 0 ==> RoundUp(n, k) == n
  {
    var q := (n + k - 1) / k;
    Quotient(q * k, k, q, 0);
    if n % k == 0 {
      var d := n / k;
      Quotient(n + k - 1, k, d, k - 1);
    }
  }

  lemma Quotient(x: nat, k: nat, q: int, r: nat)
    requires r < k && x == q * k + r
    ensures x / k == q && x % k == r
  {
    var d := x / k - q;
    assert d * k == r - x % k by { assert x == x / k * k + x % k; assert d * k == x / k * k - q * k; }
    Scaled(d, k);
  }

  lemma Scaled(d: int, k: nat)
    ensures d > 0 ==> d * k >= k
    ensures d < 0 ==> d * k <= -1 * k
  {}

  /** zoneindex: the class of a request and its chunk size. */
  function ZoneIndex(n: nat): (int, nat) {
    if n < 128 then (var c := RoundUp(n, 8); (c / 8 - 1, c))
    else if n < 256 then (var c := RoundUp(n, 16); (c / 16 + 7, c))
    else if n < 512 then (var c := RoundUp(n, 32); (c / 32 + 15, c))
    else if n < 1024 then (var c := RoundUp(n, 64); (c / 64 + 23, c))
    else if n < 2048 then (var c := RoundUp(n, 128); (c / 128 + 31, c))
    else if n < 4096 then (var c := RoundUp(n, 256); (c / 256 + 39, c))
    else if n < 8192 then (var c := RoundUp(n, 512); (c / 512 + 47, c))
    else if n < 16384 then (var c := RoundUp(n, 1024); (c / 1024 + 55, c))
    else (0, n)
  }

  /** The chunk sizes in increasing order: sixteen 8 apart, then eight 16 apart, eight 32 apart and so on. */
  function ChunkSize(i: nat): nat {
    if i < 16 then 8 * (i + 1)
    else if i < 24 then 16 * (i - 7)
    else if i < 32 then 32 * (i - 15)
    else if i < 40 then 64 * (i - 23)
    else if i < 48 then 128 * (i - 31)
    else if i < 56 then 256 * (i - 39)
    else if i < 64 then 512 * (i - 47)
    else 1024 * (i - 55)
  }

  lemma SizesGrow(i: nat, j: nat)
    requires i < j
    ensures 0 < ChunkSize(i) < ChunkSize(j)
  {}

  /** zoneindex picks the least chunk size that is not below the request. */
  lemma BestFit(n: nat)
    requires 0 < n < CLASS_LIMIT
    ensures var (i, c) := ZoneIndex(n);
      0 <= i < NZONES && c == ChunkSize(i) && n <= c <= CLASS_LIMIT && (i > 0 ==> ChunkSize(i - 1) < n)
  {
    if n < 128 {
      BranchFits(n, 8, ZoneIndex(n).1);
    } else if n < 256 {
      BranchFits(n, 16, ZoneIndex(n).1);
    } else if n < 512 {
      BranchFits(n, 32, ZoneIndex(n).1);
    } else if n < 1024 {
      BranchFits(n, 64, ZoneIndex(n).1);
    } else if n < 2048 {
      BranchFits(n, 128, ZoneIndex(n).1);
    } else if n < 4096 {
      BranchFits(n, 256, ZoneIndex(n).1);
    } else if n < 8192 {
      BranchFits(n, 512, ZoneIndex(n).1);
    } else {
      BranchFits(n, 1024, ZoneIndex(n).1);
    }
  }

  /** The rounding in one branch of zoneindex. */
  lemma BranchFits(n: nat, k: nat, c: nat)
    requires n > 0 && k > 0 && c == RoundUp(n, k)
    ensures n <= c < n + k && c == c / k * k
  {
    RoundedUp(n, k);
  }

  /** Two requests get the same index exactly when they get the same chunk size. */
  lemma IndexIffChunk(m: nat, n: nat)
    requires 0 < m < CLASS_LIMIT && 0 < n < CLASS_LIMIT
    ensures ZoneIndex(m).0 == ZoneIndex(n).0 <==> ZoneIndex(m).1 == ZoneIndex(n).1
  {
    BestFit(m);
    BestFit(n);
    var i, j := ZoneIndex(m).0, ZoneIndex(n).0;
    if i < j { SizesGrow(i, j); }
    if j < i { SizesGrow(j, i); }
  }

  // ----- powers of two

  predicate IsPow2(n: nat) {
    n == 1 || (n > 0 && n % 2 == 0 && IsPow2(n / 2))
  }

  /** The test by which rt_malloc recognises a power of two. */
  predicate PowerTest(n: nat)
    requires n > 0
  {
    Or(n, n - 1) + 1 == 2 * n
  }

  lemma {:induction false} PowerTestExact(n: nat)
    requires n > 0
    ensures PowerTest(n) <==> IsPow2(n)
  {
    if n > 1 {
      if n % 2 == 1 {
        assert n / 2 == (n - 1) / 2;
        OrSelf(n / 2);
      } else {
        PowerTestExact(n / 2);
        assert (n - 1) / 2 == n / 2 - 1;
      }
    } else {
      assert Or(0, 0) == 0;
    }
  }

  lemma {:induction false} OrSelf(n: nat)
    ensures Or(n, n) == n
  {
    if n > 0 { OrSelf(n / 2); }
  }

  lemma {:induction false} PowersDivide(c: nat, p: nat)
    requires IsPow2(c) && IsPow2(p) && c <= p
    ensures p % c == 0
  {
    if c > 1 {
      PowersDivide(c / 2, p / 2);
      var q := (p / 2) / (c / 2);
      assert p / 2 == q * (c / 2);
      assert p == q * c by { assert p == 2 * (p / 2) && c == 2 * (c / 2); assert q * (2 * (c / 2)) == 2 * (q * (c / 2)); }
      Quotient(p, c, q, 0);
    }
  }

  /** A power of two from 8 on is its own chunk size. */
  lemma PowerIsChunk(n: nat)
    requires IsPow2(n) && 8 <= n < CLASS_LIMIT
    ensures ZoneIndex(n).1 == n
  {
    UnitPower(n);
    PowerKept(n, Unit(n));
  }

  /** The rounding unit of zoneindex. */
  function Unit(n: nat): nat {
    if n < 128 then 8 else if n < 256 then 16 else if n < 512 then 32 else if n < 1024 then 64 else if n < 2048 then 128
    else if n < 4096 then 256 else if n < 8192 then 512 else 1024
  }

  lemma UnitPower(n: nat)
    requires 8 <= n < CLASS_LIMIT
    ensures IsPow2(Unit(n)) && Unit(n) <= n
  {
    Powers();
  }

  lemma PowerKept(n: nat, k: nat)
    requires IsPow2(n) && IsPow2(k) && k <= n
    ensures RoundUp(n, k) == n
  {
    PowersDivide(k, n);
    RoundedUp(n, k);
  }

  lemma Powers()
    ensures IsPow2(8) && IsPow2(16) && IsPow2(32) && IsPow2(64) && IsPow2(128) && IsPow2(256) && IsPow2(512)
    ensures IsPow2(1024) && IsPow2(4096) && IsPow2(8192)
  {
    assert IsPow2(32);
    assert IsPow2(128);
    assert IsPow2(512);
    assert IsPow2(2048);
  }
}
