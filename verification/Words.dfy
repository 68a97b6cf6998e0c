/**
 The priority bitmaps of the scheduler: 32-bit words, seen as natural numbers, and the table-driven
 search for the lowest bit (rt-thread/src/kservice.c:1271-1330).
 */
module Words {

  /** Bit i of w. */
  predicate Bit(w: nat, i: nat) {
    if i == 0 then w % 2 == 1 else Bit(w / 2, i - 1)
  }

  /** w | (1 << i). */
  function SetBit(w: nat, i: nat): nat {
    if i == 0 then w - w % 2 + 1 else w % 2 + 2 * SetBit(w / 2, i - 1)
  }

  /** w & ~(1 << i). */
  function ClearBit(w: nat, i: nat): nat {
    if i == 0 then w - w % 2 else w % 2 + 2 * ClearBit(w / 2, i - 1)
  }

  /** 1 << i. */
  function One(i: nat): nat {
    if i == 0 then 1 else 2 * One(i - 1)
  }

  /** a | b. */
  function Or(a: nat, b: nat): nat {
    if a == 0 then b else (if a % 2 == 1 || b % 2 == 1 then 1 else 0) + 2 * Or(a / 2, b / 2)
  }

  /** a & ~b. */
  function AndNot(a: nat, b: nat): nat {
    if a == 0 then 0 else (if a % 2 == 1 && b % 2 == 0 then 1 else 0) + 2 * AndNot(a / 2, b / 2)
  }

  lemma {:induction false} OrOne(w: nat, i: nat)
    ensures Or(w, One(i)) == SetBit(w, i)
  {
    if i > 0 {
      OrOne(w / 2, i - 1);
    } else if w > 0 {
      OrZero(w / 2);
    }
  }

  lemma {:induction false} OrZero(w: nat)
    ensures Or(w, 0) == w
  {
    if w > 0 { OrZero(w / 2); }
  }

  lemma {:induction false} AndNotOne(w: nat, i: nat)
    ensures AndNot(w, One(i)) == ClearBit(w, i)
  {
    if i > 0 {
      AndNotOne(w / 2, i - 1);
    } else if w > 0 {
      AndNotZero(w / 2);
    }
  }

  lemma {:induction false} AndNotZero(w: nat)
    ensures AndNot(w, 0) == w
  {
    if w > 0 { AndNotZero(w / 2); }
  }

  lemma {:induction false} SetBitIs(w: nat, i: nat, j: nat)
    ensures Bit(SetBit(w, i), j) <==> Bit(w, j) || i == j
  {
    if i > 0 {
      var v := SetBit(w / 2, i - 1);
      assert (w % 2 + 2 * v) / 2 == v && (w % 2 + 2 * v) % 2 == w % 2;
      if j > 0 { SetBitIs(w / 2, i - 1, j - 1); }
    } else {
      assert (w - w % 2 + 1) / 2 == w / 2;
    }
  }

  lemma {:induction false} ClearBitIs(w: nat, i: nat, j: nat)
    ensures Bit(ClearBit(w, i), j) <==> Bit(w, j) && i != j
  {
    if i > 0 {
      var v := ClearBit(w / 2, i - 1);
      assert (w % 2 + 2 * v) / 2 == v && (w % 2 + 2 * v) % 2 == w % 2;
      if j > 0 { ClearBitIs(w / 2, i - 1, j - 1); }
    } else {
      assert (w - w % 2) / 2 == w / 2;
    }
  }

  lemma {:induction false} NoBits(j: nat)
    ensures !Bit(0, j)
  {
    if j > 0 { NoBits(j - 1); }
  }

  /** A non-zero word has a bit. */
  lemma {:induction false} SomeBit(w: nat) returns (i: nat)
    requires w > 0
    ensures Bit(w, i)
  {
    if w % 2 == 1 {
      i := 0;
    } else {
      var j := SomeBit(w / 2);
      i := j + 1;
    }
  }

  /** The position of the lowest bit of w. */
  function Lowest(w: nat): (i: nat)
    requires w > 0
    ensures Bit(w, i)
  {
    if w % 2 == 1 then 0 else Lowest(w / 2) + 1
  }

  lemma {:induction false} LowestIsLeast(w: nat, j: nat)
    requires w > 0 && Bit(w, j)
    ensures Lowest(w) <= j
  {
    if w % 2 == 0 { LowestIsLeast(w / 2, j - 1); }
  }

  lemma Half(v: nat)
    requires v > 0
    ensures Lowest(2 * v) == Lowest(v) + 1
  {
    assert 2 * v / 2 == v;
  }

  /** Shifting out zero bits. */
  lemma LowestNibble(h: nat)
    requires h > 0
    ensures Lowest(16 * h) == Lowest(h) + 4
  {
    Half(h);
    Half(2 * h);
    Half(4 * h);
    Half(8 * h);
  }

  lemma LowestByte(w: nat)
    requires w > 0 && w % 256 == 0
    ensures Lowest(w) == Lowest(w / 256) + 8
  {
    var h := w / 256;
    LowestNibble(h);
    LowestNibble(16 * h);
  }

  /** x has no bit below k. */
  predicate Multiple(x: nat, k: nat) {
    if k == 0 then true else x % 2 == 0 && Multiple(x / 2, k - 1)
  }

  /** b has no bit from k on. */
  predicate Below(b: nat, k: nat) {
    if k == 0 then b == 0 else Below(b / 2, k - 1)
  }

  lemma {:induction false} LowestOfSum(x: nat, b: nat, k: nat)
    requires Multiple(x, k) && Below(b, k) && b > 0
    ensures Lowest(x + b) == Lowest(b)
  {
    if b % 2 == 0 {
      assert (x + b) / 2 == x / 2 + b / 2;
      LowestOfSum(x / 2, b / 2, k - 1);
    }
  }

  lemma NibbleParts(h: nat, b: nat)
    ensures Multiple(16 * h, 4)
    ensures b < 16 ==> Below(b, 4)
  {
    assert 16 * h / 2 == 8 * h && 8 * h / 2 == 4 * h && 4 * h / 2 == 2 * h && 2 * h / 2 == h;
    assert Multiple(2 * h, 1) && Multiple(4 * h, 2) && Multiple(8 * h, 3);
    assert b < 16 ==> Below(b / 2 / 2 / 2, 1) && Below(b / 2 / 2, 2) && Below(b / 2, 3);
  }

  lemma ByteParts(h: nat, b: nat)
    ensures Multiple(256 * h, 8)
    ensures b < 256 ==> Below(b, 8)
  {
    NibbleParts(h, b / 16);
    assert 256 * h / 2 == 128 * h && 128 * h / 2 == 64 * h && 64 * h / 2 == 32 * h && 32 * h / 2 == 16 * h;
    assert Multiple(32 * h, 5) && Multiple(64 * h, 6) && Multiple(128 * h, 7);
    assert b / 2 / 2 / 2 / 2 == b / 16;
    assert b < 256 ==> Below(b / 2 / 2 / 2, 5) && Below(b / 2 / 2, 6) && Below(b / 2, 7);
  }

  /** The lowest bit of a word whose low byte is not zero is that of the byte. */
  lemma LowestInByte(w: nat)
    requires w % 256 > 0
    ensures Lowest(w) == Lowest(w % 256)
  {
    ByteParts(w / 256, w % 256);
    LowestOfSum(256 * (w / 256), w % 256, 8);
  }

  lemma LowestInNibble(b: nat)
    requires b % 16 > 0
    ensures Lowest(b) == Lowest(b % 16)
  {
    NibbleParts(b / 16, b % 16);
    LowestOfSum(16 * (b / 16), b % 16, 4);
  }

  /** A row of __lowest_bit_bitmap, by its first entry. */
  function Row(first: nat): seq<nat> {
    [first, 0, 1, 0, 2, 0, 1, 0, 3, 0, 1, 0, 2, 0, 1, 0]
  }

  /** __lowest_bit_bitmap has 16 rows of 16 entries, which differ in their first entry. */
  const ROW_HEADS: seq<nat> := [0, 4, 5, 4, 6, 4, 5, 4, 7, 4, 5, 4, 6, 4, 5, 4]

  lemma RowHead(r: nat)
    requires 0 < r < 16
    ensures ROW_HEADS[r] == Lowest(r) + 4
  {
    if r < 8 {
      assert Lowest(1) == 0 && Lowest(2) == 1 && Lowest(3) == 0 && Lowest(4) == 2;
      assert Lowest(5) == 0 && Lowest(6) == 1 && Lowest(7) == 0;
    } else {
      assert Lowest(8) == 3 && Lowest(9) == 0 && Lowest(10) == 1 && Lowest(11) == 0;
      assert Lowest(12) == 2 && Lowest(13) == 0 && Lowest(14) == 1 && Lowest(15) == 0;
    }
  }

  lemma RowTail(first: nat, c: nat)
    requires 0 < c < 16
    ensures Row(first)[c] == Lowest(c)
  {
    if c < 8 {
      assert Lowest(1) == 0 && Lowest(2) == 1 && Lowest(3) == 0 && Lowest(4) == 2;
      assert Lowest(5) == 0 && Lowest(6) == 1 && Lowest(7) == 0;
    } else {
      assert Lowest(8) == 3 && Lowest(9) == 0 && Lowest(10) == 1 && Lowest(11) == 0;
      assert Lowest(12) == 2 && Lowest(13) == 0 && Lowest(14) == 1 && Lowest(15) == 0;
    }
  }

  /** An entry of the table, by the byte it is for. */
  function LowestBitOf(b: nat): nat
    requires b < 256
  {
    Row(ROW_HEADS[b / 16])[b % 16]
  }

  lemma {:induction false} LowestBelow(b: nat, k: nat)
    requires Below(b, k) && b > 0
    ensures Lowest(b) < k
  {
    if b % 2 == 0 { LowestBelow(b / 2, k - 1); }
  }

  lemma FirstOfRow(h: nat)
    requires 0 < h < 16
    ensures LowestBitOf(16 * h) == Lowest(16 * h)
  {
    RowHead(h);
    LowestNibble(h);
    assert 16 * h / 16 == h && 16 * h % 16 == 0;
  }

  lemma RestOfRow(b: nat)
    requires b < 256 && b % 16 > 0
    ensures LowestBitOf(b) == Lowest(b)
  {
    var h, c := ROW_HEADS[b / 16], b % 16;
    LowestInNibble(b);
    RowTail(h, c);
  }

  /** The table is right. */
  lemma TableRight(b: nat)
    requires 0 < b < 256
    ensures LowestBitOf(b) == Lowest(b) < 8
  {
    ByteParts(0, b);
    LowestBelow(b, 8);
    if b % 16 == 0 {
      assert b == 16 * (b / 16);
      FirstOfRow(b / 16);
    } else {
      RestOfRow(b);
    }
  }

  /** Shifting out a byte. */
  lemma ByteOff(w: nat, k: nat)
    requires Below(w, k + 8)
    ensures Below(w / 256, k)
  {
    assert w / 2 / 2 / 2 / 2 / 2 / 2 / 2 / 2 == w / 256;
    assert Below(w / 2, k + 7) && Below(w / 2 / 2, k + 6) && Below(w / 2 / 2 / 2, k + 5);
    assert Below(w / 2 / 2 / 2 / 2, k + 4) && Below(w / 2 / 2 / 2 / 2 / 2, k + 3);
    assert Below(w / 2 / 2 / 2 / 2 / 2 / 2, k + 2) && Below(w / 2 / 2 / 2 / 2 / 2 / 2 / 2, k + 1);
  }

  lemma BelowByte(w: nat)
    requires Below(w, 8)
    ensures w < 256
  {
    ByteOff(w, 0);
  }

  lemma {:induction false} SetBelow(w: nat, i: nat, k: nat)
    requires Below(w, k) && i < k
    ensures Below(SetBit(w, i), k)
  {
    if i > 0 {
      var v := SetBit(w / 2, i - 1);
      assert (w % 2 + 2 * v) / 2 == v;
      SetBelow(w / 2, i - 1, k - 1);
    } else {
      assert (w - w % 2 + 1) / 2 == w / 2;
    }
  }

  lemma {:induction false} ClearBelow(w: nat, i: nat, k: nat)
    requires Below(w, k)
    ensures Below(ClearBit(w, i), k)
  {
    if k == 0 {
      ZeroCleared(i);
    } else if i > 0 {
      var v := ClearBit(w / 2, i - 1);
      assert (w % 2 + 2 * v) / 2 == v;
      ClearBelow(w / 2, i - 1, k - 1);
    } else {
      assert (w - w % 2) / 2 == w / 2;
    }
  }

  lemma {:induction false} ZeroBelow(k: nat)
    ensures Below(0, k)
  {
    if k > 0 { ZeroBelow(k - 1); }
  }

  lemma {:induction false} ZeroCleared(i: nat)
    ensures ClearBit(0, i) == 0
  {
    if i > 0 { ZeroCleared(i - 1); }
  }

  /** __rt_ffs: one more than the position of the lowest bit, or 0 when there is none. */
  method Ffs(value: nat) returns (r: nat)
    requires Below(value, 32)
    ensures value == 0 ==> r == 0
    ensures value > 0 ==> r > 0 && r - 1 == Lowest(value)
  {
    if value == 0 {
      return 0;
    }
    if value % 0x100 != 0 {
      TableRight(value % 0x100);
      LowestInByte(value);
      return LowestBitOf(value % 0x100) + 1;
    }
    LowestByte(value);
    ByteOff(value, 24);
    var v1 := value / 0x100;
    if v1 % 0x100 != 0 {
      TableRight(v1 % 0x100);
      LowestInByte(v1);
      return LowestBitOf(v1 % 0x100) + 9;
    }
    LowestByte(v1);
    ByteOff(v1, 16);
    var v2 := v1 / 0x100;
    if v2 % 0x100 != 0 {
      TableRight(v2 % 0x100);
      LowestInByte(v2);
      return LowestBitOf(v2 % 0x100) + 17;
    }
    LowestByte(v2);
    ByteOff(v2, 8);
    var v3 := v2 / 0x100;
    BelowByte(v3);
    TableRight(v3);
    return LowestBitOf(v3) + 25;
  }
}
