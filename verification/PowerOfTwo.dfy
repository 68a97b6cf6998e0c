/**
 pow2gt, packages/cJSON-latest/cJSON.c:123: the bits of x - 1 smeared to the right, plus one.
 */
module PowerOfTwo {
  import opened Words

  /** a >> k. */
  function Shr(a: nat, k: nat): nat {
    if k == 0 then a else Shr(a / 2, k - 1)
  }

  function Pow2(k: nat): nat {
    if k == 0 then 1 else 2 * Pow2(k - 1)
  }

  function NumBits(y: nat): nat {
    if y == 0 then 0 else 1 + NumBits(y / 2)
  }

  lemma {:induction false} OrBit(a: nat, b: nat, i: nat)
    ensures Bit(Or(a, b), i) <==> Bit(a, i) || Bit(b, i)
  {
    if a == 0 {
      NoBits(i);
    } else {
      var r := Or(a / 2, b / 2);
      var low := if a % 2 == 1 || b % 2 == 1 then 1 else 0;
      assert (low + 2 * r) / 2 == r && (low + 2 * r) % 2 == low;
      if i > 0 { OrBit(a / 2, b / 2, i - 1); }
    }
  }

  lemma {:induction false} ShrBit(a: nat, k: nat, i: nat)
    ensures Bit(Shr(a, k), i) <==> Bit(a, i + k)
  {
    if k > 0 { ShrBit(a / 2, k - 1, i); }
  }

  /** y has a bit among those from i to i + m - 1. */
  predicate Any(y: nat, i: nat, m: nat)
    decreases m
  {
    m > 0 && (Bit(y, i) || Any(y, i + 1, m - 1))
  }

  lemma {:induction false} AnySplit(y: nat, i: nat, m: nat, n: nat)
    ensures Any(y, i, m + n) <==> Any(y, i, m) || Any(y, i + m, n)
    decreases m
  {
    if m > 0 { AnySplit(y, i + 1, m - 1, n); }
  }

  /** Each bit of f says whether y has a bit there or up to m - 1 places to the left. */
  ghost predicate Smeared(y: nat, f: nat, m: nat) {
    forall i {:trigger Bit(f, i)} :: i >= 0 ==> (Bit(f, i) <==> Any(y, i, m))
  }

  lemma SmearTwice(y: nat, f: nat, m: nat)
    requires Smeared(y, f, m)
    ensures Smeared(y, Or(f, Shr(f, m)), m + m)
  {
    forall i: nat ensures Bit(Or(f, Shr(f, m)), i) <==> Any(y, i, m + m) {
      OrBit(f, Shr(f, m), i);
      ShrBit(f, m, i);
      AnySplit(y, i, m, m);
      assert Bit(f, i) == Any(y, i, m) && Bit(f, i + m) == Any(y, i + m, m);
    }
  }

  /** The highest bit of y, and no bit beyond it. */
  lemma {:induction false} TopBit(y: nat, i: nat)
    ensures i + 1 == NumBits(y) ==> Bit(y, i)
    ensures i >= NumBits(y) ==> !Bit(y, i)
  {
    if y == 0 {
      NoBits(i);
    } else if i > 0 {
      TopBit(y / 2, i - 1);
    }
  }

  lemma {:induction false} AnyBelowTop(y: nat, i: nat, m: nat)
    requires NumBits(y) <= m
    ensures Any(y, i, m) <==> i < NumBits(y)
  {
    if i < NumBits(y) {
      AnyFinds(y, i, m, NumBits(y) - 1 - i);
    } else {
      AnyNone(y, i, m);
    }
  }

  lemma {:induction false} AnyFinds(y: nat, i: nat, m: nat, d: nat)
    requires i + d + 1 == NumBits(y) && d < m
    ensures Any(y, i, m)
    decreases m
  {
    if d == 0 { TopBit(y, i); } else { AnyFinds(y, i + 1, m - 1, d - 1); }
  }

  lemma {:induction false} AnyNone(y: nat, i: nat, m: nat)
    requires i >= NumBits(y)
    ensures !Any(y, i, m)
    decreases m
  {
    TopBit(y, i);
    if m > 0 { AnyNone(y, i + 1, m - 1); }
  }

  /** A word whose k lowest bits are ones, and no other, is 2^k - 1. */
  lemma {:induction false} Ones(f: nat, k: nat)
    requires forall i {:trigger Bit(f, i)} :: i >= 0 ==> (Bit(f, i) <==> i < k)
    ensures f + 1 == Pow2(k)
    decreases k
  {
    assert Bit(f, 0) <==> 0 < k;
    if k == 0 {
      if f > 0 { var i := SomeBit(f); }
    } else {
      forall i: nat ensures Bit(f / 2, i) <==> i < k - 1 { assert Bit(f, i + 1) <==> i + 1 < k; }
      Ones(f / 2, k - 1);
    }
  }

  lemma {:induction false} BitsBound(y: nat)
    ensures y < Pow2(NumBits(y)) && (y > 0 ==> Pow2(NumBits(y)) <= 2 * y)
  {
    if y > 0 { BitsBound(y / 2); }
  }

  lemma {:induction false} FewBits(y: nat, k: nat)
    requires y < Pow2(k)
    ensures NumBits(y) <= k
  {
    if y > 0 { FewBits(y / 2, k - 1); }
  }

  function Smear(y: nat): nat {
    var a := Or(y, Shr(y, 1));
    var b := Or(a, Shr(a, 2));
    var c := Or(b, Shr(b, 4));
    var d := Or(c, Shr(c, 8));
    Or(d, Shr(d, 16))
  }

  lemma SmearOnes(y: nat)
    requires NumBits(y) <= 32
    ensures Smear(y) + 1 == Pow2(NumBits(y))
  {
    forall i: nat ensures Bit(y, i) <==> Any(y, i, 1) { assert Any(y, i + 1, 0) == false; }
    var a := Or(y, Shr(y, 1));
    var b := Or(a, Shr(a, 2));
    var c := Or(b, Shr(b, 4));
    var d := Or(c, Shr(c, 8));
    SmearTwice(y, y, 1);
    SmearTwice(y, a, 2);
    SmearTwice(y, b, 4);
    SmearTwice(y, c, 8);
    SmearTwice(y, d, 16);
    forall i: nat ensures Bit(Smear(y), i) <==> i < NumBits(y) { AnyBelowTop(y, i, 32); }
    Ones(Smear(y), NumBits(y));
  }

  const MAX_SIZE := 0x4000_0000

  /** pow2gt: the least power of two that is not less than x. */
  function Pow2gt(x: nat): (r: nat)
    requires 0 < x <= MAX_SIZE
    ensures x <= r == Pow2(NumBits(x - 1)) && (x > 1 ==> r < 2 * x)
  {
    assert Pow2(10) == 1024 && Pow2(20) == 0x10_0000 && Pow2(30) == 0x4000_0000;
    FewBits(x - 1, 30);
    SmearOnes(x - 1);
    BitsBound(x - 1);
    Smear(x - 1) + 1
  }
}
