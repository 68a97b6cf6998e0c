/**
 Numbers with a fraction and an exponent, packages/cJSON-latest/cJSON.c:142-162, against the grammar of
 section 6 of RFC 8259: the parser gives the decimal number that the text denotes.
 */
module JsonDecimal {
  import opened Json
  import opened JsonParse

  function Pow10(n: nat): nat {
    if n == 0 then 1 else 10 * Pow10(n - 1)
  }

  ghost predicate AllDigits(s: string) {
    forall i {:trigger s[i]} :: 0 <= i < |s| ==> IsDigit(s[i])
  }

  /** The number a run of decimal digits denotes. */
  ghost function Denotes(s: string): nat
    requires AllDigits(s)
    decreases |s|
  {
    if s == [] then 0
    else
      var k := |s| - 1;
      10 * Denotes(s[..k]) + (s[k] as nat - '0' as nat)
  }

  lemma TenTimes(x: nat, p: nat, y: nat, d: nat)
    ensures 10 * (x * p + y) + d == x * (10 * p) + (10 * y + d)
  {
    assert 10 * (x * p) == x * (10 * p);
  }

  lemma {:induction false} DenotesFront(s: string)
    requires AllDigits(s) && s != []
    ensures Denotes(s) == (s[0] as nat - '0' as nat) * Pow10(|s| - 1) + Denotes(s[1..])
    decreases |s|
  {
    var k := |s| - 1;
    if k > 0 {
      DenotesFront(s[..k]);
      assert s[1..][..k-1] == s[..k][1..] && s[1..][k-1] == s[k];
      TenTimes(s[0] as nat - '0' as nat, Pow10(k - 1), Denotes(s[..k][1..]), s[k] as nat - '0' as nat);
    }
  }

  lemma {:induction false} DenotesConcat(a: string, b: string)
    requires AllDigits(a) && AllDigits(b)
    ensures AllDigits(a + b) && Denotes(a + b) == Denotes(a) * Pow10(|b|) + Denotes(b)
    decreases |b|
  {
    if b == [] {
      assert a + b == a;
    } else {
      var k := |b| - 1;
      DenotesConcat(a, b[..k]);
      assert (a + b)[..|a|+k] == a + b[..k] && (a + b)[|a|+k] == b[k];
      TenTimes(Denotes(a), Pow10(k), Denotes(b[..k]), b[k] as nat - '0' as nat);
    }
  }

  lemma {:induction false} RunRead(n: nat, s: string, t: string)
    requires AllDigits(s) && !IsDigit(Ch(t))
    ensures Accumulate(n, s + t) == (n * Pow10(|s|) + Denotes(s), t)
    decreases |s|
  {
    if s == [] {
      assert s + t == t;
    } else {
      var d := (s[0] - '0') as nat;
      assert (s + t)[1..] == s[1..] + t;
      RunRead(n * 10 + d, s[1..], t);
      DenotesFront(s);
      Shifted(n, d, Pow10(|s| - 1));
    }
  }

  lemma Shifted(n: nat, d: nat, p: nat)
    ensures (n * 10 + d) * p == n * (10 * p) + d * p
  {
  }

  /** int of the grammar: 0, or digits that do not start with 0. */
  ghost predicate IsInt(s: string) {
    s != [] && AllDigits(s) && (s[0] == '0' ==> |s| == 1)
  }

  lemma IntegerRead(i: string, t: string)
    requires IsInt(i) && !IsDigit(Ch(t))
    ensures Integer(i + t) == (Denotes(i), t)
  {
    if i[0] == '0' {
      assert (i + t)[1..] == t;
      assert i[..0] == [];
    } else {
      RunRead(0, i, t);
    }
  }

  /** frac: a point and at least one digit, or nothing. */
  function Frac(f: string): string {
    if f == [] then [] else ['.'] + f
  }

  lemma RunJoined(i: string, f: string, t: string)
    requires AllDigits(i) && AllDigits(f) && !IsDigit(Ch(t))
    ensures AllDigits(i + f) && Accumulate(Denotes(i), f + t) == (Denotes(i + f), t)
  {
    DenotesConcat(i, f);
    RunRead(Denotes(i), f, t);
  }

  lemma FractionRead(n: nat, f: string, t: string, m: nat)
    requires AllDigits(f) && (f == [] ==> Ch(t) != '.' && m == n) && (f != [] ==> Accumulate(n, f + t) == (m, t))
    ensures Fraction(n, Frac(f) + t) == (m, -|f|, t)
  {
    var s := Frac(f) + t;
    if f == [] {
      assert s == t;
    } else {
      assert s[1..] == f + t && Ch(s) == '.' && Ch(f + t) == f[0];
    }
  }

  /** exp: e or E, a sign if there is one, and digits. */
  datatype Exp = NoExp | Exp(letter: char, sign: string, digits: string)

  ghost predicate IsExp(x: Exp) {
    x.Exp? ==> (x.letter == 'e' || x.letter == 'E') && (x.sign == [] || x.sign == ['+'] || x.sign == ['-']) && x.digits != [] && AllDigits(x.digits)
  }

  function ExpText(x: Exp): string {
    if x.NoExp? then [] else [x.letter] + (x.sign + x.digits)
  }

  ghost function ExpValue(x: Exp): int
    requires IsExp(x)
  {
    if x.NoExp? then 0 else if x.sign == ['-'] then -(Denotes(x.digits) as int) else Denotes(x.digits)
  }

  lemma ExponentRead(x: Exp, t: string)
    requires IsExp(x) && !IsDigit(Ch(t)) && (x.NoExp? ==> Ch(t) != 'e' && Ch(t) != 'E')
    ensures Exponent(ExpText(x) + t) == (ExpValue(x), t)
  {
    if x.NoExp? {
      assert ExpText(x) + t == t;
    } else {
      var t1 := x.sign + (x.digits + t);
      assert (ExpText(x) + t)[1..] == t1;
      if x.sign == [] {
        assert t1 == x.digits + t && Ch(t1) == x.digits[0];
      } else {
        assert t1[1..] == x.digits + t;
      }
      RunRead(0, x.digits, t);
    }
  }

  /** parse_number behind the sign: the digits, the power of ten, and the rest. */
  function ParseUnsigned(u: string): (nat, int, string) {
    var a := Integer(u);
    var b := Fraction(a.0, a.1);
    var c := Exponent(b.2);
    (b.0, b.1 + c.0, c.1)
  }

  /** parse_number makes of s the number n times ten to the power e, and leaves t. */
  ghost predicate Reads(s: string, n: int, e: int, t: string) {
    var r := ParseNumber(s);
    r.Done? && r.item.Number? && r.item.n == n && r.item.e == e && r.rest == t
  }

  lemma Negative(u: string)
    ensures var r := ParseUnsigned(u); Reads(['-'] + u, -(r.0 as int), r.1, r.2)
  {
    assert (['-'] + u)[1..] == u;
  }

  lemma Positive(u: string)
    requires Ch(u) != '-'
    ensures var r := ParseUnsigned(u); Reads(u, r.0, r.1, r.2)
  {
  }

  /** The number without its sign. */
  function Unsigned(i: string, f: string, x: Exp, t: string): string {
    i + (Frac(f) + (ExpText(x) + t))
  }

  /** What follows the number does not go on with it. */
  ghost predicate Ends(f: string, x: Exp, t: string) {
    !IsDigit(Ch(t)) && (x.NoExp? ==> Ch(t) != 'e' && Ch(t) != 'E' && (f == [] ==> Ch(t) != '.'))
  }

  lemma UnsignedParts(i: string, f: string, x: Exp, t: string)
    requires IsInt(i) && AllDigits(f) && IsExp(x) && Ends(f, x, t)
    ensures AllDigits(i + f)
    ensures var t2 := ExpText(x) + t; var t1 := Frac(f) + t2;
      && Integer(i + t1) == (Denotes(i), t1) && Fraction(Denotes(i), t1) == (Denotes(i + f), -|f|, t2) && Exponent(t2) == (ExpValue(x), t)
  {
    var t2 := ExpText(x) + t;
    ExponentRead(x, t);
    NotDigit(x, t);
    RunJoined(i, f, t2);
    if f == [] { assert i + f == i && Frac(f) + t2 == t2; }
    FractionRead(Denotes(i), f, t2, Denotes(i + f));
    IntegerRead(i, Frac(f) + t2);
  }

  lemma UnsignedRead(i: string, f: string, x: Exp, t: string)
    requires IsInt(i) && AllDigits(f) && IsExp(x) && Ends(f, x, t)
    ensures AllDigits(i + f)
    ensures var r := ParseUnsigned(Unsigned(i, f, x, t)); r.0 == Denotes(i + f) && r.1 == ExpValue(x) - |f| && r.2 == t
  {
    UnsignedParts(i, f, x, t);
  }

  lemma UnsignedFirst(i: string, f: string, x: Exp, t: string)
    requires IsInt(i)
    ensures Ch(Unsigned(i, f, x, t)) != '-'
  {
    assert Unsigned(i, f, x, t)[0] == i[0];
  }

  /**
   parse_number reads a number of the grammar: sign, integer part i, fraction digits f and exponent x make
   the number (i followed by f) times ten to the power x - |f|, and the rest of the text is what follows.
   */
  lemma NumberRead(negative: bool, i: string, f: string, x: Exp, t: string)
    requires IsInt(i) && AllDigits(f) && IsExp(x) && Ends(f, x, t)
    ensures AllDigits(i + f)
    ensures Reads(If(negative, ['-']) + Unsigned(i, f, x, t), if negative then -(Denotes(i + f) as int) else Denotes(i + f), ExpValue(x) - |f|, t)
  {
    UnsignedRead(i, f, x, t);
    if negative {
      Negative(Unsigned(i, f, x, t));
    } else {
      UnsignedFirst(i, f, x, t);
      Positive(Unsigned(i, f, x, t));
      assert [] + Unsigned(i, f, x, t) == Unsigned(i, f, x, t);
    }
  }

  lemma NotDigit(x: Exp, t: string)
    requires IsExp(x) && !IsDigit(Ch(t))
    ensures !IsDigit(Ch(ExpText(x) + t)) && (x.Exp? ==> Ch(ExpText(x) + t) != '.')
  {
    if x.NoExp? { assert ExpText(x) + t == t; }
  }

  // ----- what the printer writes for an integer

  /** The printed digits are the decimal numeral of n: no leading zero, and they denote n. */
  lemma {:induction false} DigitsDenote(n: nat)
    ensures IsInt(Digits(n)) && Denotes(Digits(n)) == n && (n > 0 ==> Digits(n)[0] != '0')
  {
    var s := Digits(n);
    if n < 10 {
      assert s[..0] == [];
    } else {
      DigitsDenote(n / 10);
      assert s[..|s|-1] == Digits(n / 10);
    }
  }

  /** An integer is printed as a numeral of the grammar, with a sign exactly if it is negative. */
  lemma IntegerText(n: int)
    ensures var i := Digits(if n < 0 then -n else n);
      IsInt(i) && IntText(n) == If(n < 0, ['-']) + i && Denotes(i) == (if n < 0 then -n else n)
  {
    DigitsDenote(if n < 0 then -n else n);
    assert [] + Digits(if n < 0 then -n else n) == Digits(if n < 0 then -n else n);
  }
}
