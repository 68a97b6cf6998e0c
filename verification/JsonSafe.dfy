/**
 Texts whose strings are well formed, as those of printed values are: in them the buffer that
 parse_string of packages/cJSON-latest/cJSON.c allocates is large enough.
 */
module JsonSafe {
  import opened Json
  import opened JsonParse
  import opened JsonRoundTrip

  // ----- texts whose strings are well formed

  /** A character that neither ends a string nor starts an escape. */
  predicate Inner(c: char) {
    c != '\"' && c != '\\' && c != NUL
  }

  /** From here to the next closing quote every backslash is followed by a character, and \u by four more that are neither quote nor backslash. */
  ghost predicate Body(t: string)
    decreases |t|
  {
    if t == [] || t[0] == '\"' || t[0] == NUL then true
    else if t[0] != '\\' then Body(t[1..])
    else if |t| < 2 || t[1] == NUL then false
    else if t[1] == 'u' then |t| >= 6 && Inner(t[2]) && Inner(t[3]) && Inner(t[4]) && Inner(t[5]) && Body(t[6..])
    else Body(t[2..])
  }

  /** After every quote there is such a body. */
  ghost predicate Safe(t: string) {
    t == [] || ((t[0] == '\"' ==> Body(t[1..])) && Safe(t[1..]))
  }

  lemma {:induction false} SafeDrop(t: string, n: nat)
    requires Safe(t)
    ensures Safe(Drop(t, n))
  {
    if n > 0 && t != [] {
      SafeDrop(t[1..], n - 1);
      assert n <= |t| ==> t[1..][n-1..] == t[n..];
    }
  }

  // ----- the text of a value is well formed

  ghost predicate Fine(t: string) {
    Body(t) && Safe(t)
  }

  lemma FinePlain(c: char, t: string)
    requires Fine(t) && c != '\\'
    ensures Fine([c] + t)
  {
    First(c, t);
  }

  lemma {:induction false} FinePrefix(w: string, t: string)
    requires Fine(t) && forall i {:trigger w[i]} :: 0 <= i < |w| ==> w[i] != '\\'
    ensures Fine(w + t)
  {
    if w == [] {
      assert w + t == t;
    } else {
      FinePrefix(w[1..], t);
      assert w + t == [w[0]] + (w[1..] + t);
      FinePlain(w[0], w[1..] + t);
    }
  }

  lemma FineEscaped(c: char, t: string)
    requires Fine(t) && c != NUL
    ensures Fine(Escaped(c) + t)
  {
    if c > 31 as char && c != '\"' && c != '\\' {
      FinePlain(c, t);
    } else {
      EscapedShape(c);
      if |Escaped(c)| == 2 {
        FineLetter(Escaped(c)[1], t);
        assert Escaped(c) == ['\\', Escaped(c)[1]];
      } else {
        FineControl(c, t);
      }
    }
  }

  lemma FineLetter(x: char, t: string)
    requires Fine(t) && x != 'u' && x != NUL
    ensures Fine(['\\', x] + t)
  {
    var u := ['\\', x] + t;
    assert u[1..] == [x] + t && u[2..] == t;
    First(x, t);
  }

  lemma FineControl(c: char, t: string)
    requires Fine(t) && NUL < c <= 31 as char
    ensures Fine(['\\', 'u', '0', '0', HexDigit(c as nat / 16), HexDigit(c as nat % 16)] + t)
  {
    var h, l := HexDigit(c as nat / 16), HexDigit(c as nat % 16);
    var u := ['\\', 'u', '0', '0', h, l] + t;
    HexBack(c as nat / 16);
    HexBack(c as nat % 16);
    assert u[6..] == t;
    FinePrefix(['u', '0', '0', h, l], t);
    assert u[1..] == ['u', '0', '0', h, l] + t;
  }

  lemma {:induction false} FineQuoted(s: string, t: string)
    requires Fine(t) && NulFree(s)
    ensures Fine(PutQuoted(s, t))
  {
    FinePlain('\"', t);
    FineEscapedAll(s, ['\"'] + t);
    First('\"', PutEscaped(s, ['\"'] + t));
  }

  lemma {:induction false} FineEscapedAll(s: string, t: string)
    requires Fine(t) && NulFree(s)
    ensures Fine(PutEscaped(s, t))
  {
    if s != [] {
      FineEscapedAll(s[1..], t);
      FineEscaped(s[0], PutEscaped(s[1..], t));
    }
  }

  lemma {:induction false} DigitsPlain(n: nat)
    ensures forall i {:trigger Digits(n)[i]} :: 0 <= i < |Digits(n)| ==> Digits(n)[i] != '\\'
  {
    if n >= 10 { DigitsPlain(n / 10); }
  }

  lemma {:induction false} FineValue(v: Value, depth: nat, fmt: bool, t: string)
    requires Printable(v) && Fine(t)
    ensures Fine(Put(v, depth, fmt, t))
    decreases v, 2
  {
    match v
    case Null => FinePrefix("null", t);
    case False => FinePrefix("false", t);
    case True => FinePrefix("true", t);
    case Number(n, _) =>
      DigitsPlain(if n < 0 then -n else n);
      FinePrefix(IntText(n), t);
    case Str(s) => FineQuoted(s, t);
    case Array(items) =>
      FinePlain(']', t);
      FineElems(items, depth + 1, fmt, [']'] + t);
      FinePlain('[', PutElems(items, depth + 1, fmt, [']'] + t));
    case Object(members) => FineObject(members, depth, fmt, t);
  }

  lemma FineObject(members: Members, depth: nat, fmt: bool, t: string)
    requires PrintableMembers(members) && Fine(t)
    ensures Fine(Put(Object(members), depth, fmt, t))
    decreases members, 2
  {
    var close := ['}'] + t;
    FinePlain('}', t);
    if members == None {
      FinePrefix(EmptyInside(depth, fmt), close);
      FinePlain('{', EmptyInside(depth, fmt) + close);
    } else {
      var end := If(fmt, Tabs(depth)) + close;
      FinePrefix(If(fmt, Tabs(depth)), close);
      FineMembers(members, depth + 1, fmt, end);
      var body := PutMembers(members, depth + 1, fmt, end);
      FinePrefix(If(fmt, ['\n']), body);
      FinePlain('{', If(fmt, ['\n']) + body);
    }
  }

  lemma {:induction false} FineElems(es: Elems, depth: nat, fmt: bool, t: string)
    requires PrintableElems(es) && Fine(t)
    ensures Fine(PutElems(es, depth, fmt, t))
    decreases es, 1
  {
    match es
    case Nil =>
    case Cons(head, Nil) => FineValue(head, depth, fmt, t);
    case Cons(head, tail) =>
      var rest := PutElems(tail, depth, fmt, t);
      FineElems(tail, depth, fmt, t);
      FinePrefix(If(fmt, [' ']), rest);
      FinePlain(',', If(fmt, [' ']) + rest);
      FineValue(head, depth, fmt, [','] + (If(fmt, [' ']) + rest));
  }

  lemma {:induction false} FineMembers(ms: Members, depth: nat, fmt: bool, t: string)
    requires PrintableMembers(ms) && Fine(t)
    ensures Fine(PutMembers(ms, depth, fmt, t)) && Fine(PutTail(ms, depth, fmt, t))
    decreases ms, 1
  {
    match ms
    case None => FinePrefix(If(fmt, ['\n']), t);
    case Member(name, value, tail) =>
      FineMembers(tail, depth, fmt, t);
      var v := Put(value, depth, fmt, PutTail(tail, depth, fmt, t));
      FineValue(value, depth, fmt, PutTail(tail, depth, fmt, t));
      FinePrefix(If(fmt, ['\t']), v);
      FinePlain(':', If(fmt, ['\t']) + v);
      var q := PutQuoted(name, [':'] + (If(fmt, ['\t']) + v));
      FineQuoted(name, [':'] + (If(fmt, ['\t']) + v));
      FinePrefix(If(fmt, Tabs(depth)), q);
      var ms' := PutMembers(ms, depth, fmt, t);
      FinePrefix(If(fmt, ['\n']), ms');
      FinePlain(',', If(fmt, ['\n']) + ms');
  }

  /** Every printed text may be parsed. */
  lemma PrintedSafe(v: Value, fmt: bool)
    requires Printable(v)
    ensures Safe(Text(v, 0, fmt))
  {
    FineValue(v, 0, fmt, []);
    PutText(v, 0, fmt, []);
    assert Text(v, 0, fmt) + [] == Text(v, 0, fmt);
  }

  // ----- the buffer of parse_string is large enough

  /** What the first loop of parse_string counts. */
  function Count(t: string): nat
    decreases |t|
  {
    if t == [] || t[0] == '\"' || t[0] == NUL then 0
    else 1 + Count(if t[0] == '\\' then Drop(t, 2) else t[1..])
  }

  /** Four such characters count four. */
  lemma CountFour(t: string)
    requires |t| >= 4 && Inner(t[0]) && Inner(t[1]) && Inner(t[2]) && Inner(t[3])
    ensures Count(t) == 4 + Count(t[4..])
  {
    assert t[1..][1..] == t[2..] && t[2..][1..] == t[3..] && t[3..][1..] == t[4..];
    assert Count(t) == 1 + Count(t[1..]);
    assert Count(t[1..]) == 1 + Count(t[2..]);
    assert Count(t[2..]) == 1 + Count(t[3..]);
  }

  /** A letter's escape writes one character. */
  lemma LetterFits(t: string)
    requires t != [] && t[0] != 'u' && Body(t[1..])
    ensures |Escape(t).0| == 1 && Drop(Escape(t).1, 1) == t[1..]
  {
  }

  /** An escape, its backslash not included: what it writes and what it leaves, which is well formed again. */
  lemma EscapeFits(t: string)
    requires Body(['\\'] + t)
    ensures var e := Escape(t); var rest := Drop(e.1, 1);
      Body(rest) && |e.0| + Count(rest) <= Count(['\\'] + t)
  {
    var u := ['\\'] + t;
    assert t != [] && u[1] == t[0] && Drop(u, 2) == t[1..];
    assert Count(u) == 1 + Count(t[1..]);
    if t[0] == 'u' {
      assert u[6..] == t[5..];
      UnicodeFits(t);
      assert Escape(t) == Unicode(t);
    } else {
      LetterFits(t);
    }
  }

  lemma Utf8Length(uc: nat)
    requires uc < 0x110000
    ensures |Utf8(uc)| <= if uc < 0x10000 then 3 else 4
  {
  }

  lemma UnicodeFits(t: string)
    requires |t| >= 5 && t[0] == 'u' && Inner(t[1]) && Inner(t[2]) && Inner(t[3]) && Inner(t[4]) && Body(t[5..])
    ensures var e := Unicode(t); var rest := Drop(e.1, 1);
      Body(rest) && |e.0| + Count(rest) <= 1 + Count(t[1..])
  {
    CountFour(t[1..]);
    assert t[1..][4..] == t[5..];
    var t1, r, uc := Drop(t, 4), t[5..], Hex4(t[1..]);
    assert Drop(t1, 1) == r && Drop(t1, 2) == Drop(r, 1);
    Utf8Length(uc);
    if 0xD800 <= uc <= 0xDBFF && Ch(r) == '\\' && Ch(Drop(r, 1)) == 'u' {
      PairFits(t, t1, r, uc);
    }
  }

  /** Both halves of a surrogate pair. */
  lemma PairFits(t: string, t1: string, r: string, uc: nat)
    requires |t| >= 5 && t1 == Drop(t, 4) && r == t[5..] && uc == Hex4(t[1..]) && 0xD800 <= uc <= 0xDBFF
    requires Body(r) && Ch(r) == '\\' && Ch(Drop(r, 1)) == 'u' && Drop(t1, 1) == r && Drop(t1, 2) == Drop(r, 1)
    ensures var e := Unicode(t); var rest := Drop(e.1, 1);
      Body(rest) && |e.0| + Count(rest) <= 5 + Count(r)
  {
    SecondHalf(r);
    assert Drop(Drop(t1, 6), 1) == r[6..];
    var uc2 := Hex4(Drop(t1, 3));
    Utf8Length(0x10000 + uc % 1024 * 1024 + uc2 % 1024);
  }

  lemma SecondHalf(r: string)
    requires Body(r) && Ch(r) == '\\' && Ch(r[1..]) == 'u'
    ensures |r| >= 6 && Body(r[6..]) && Count(r) == 5 + Count(r[6..])
  {
    assert r[1] == 'u';
    CountFour(r[2..]);
    assert r[2..][4..] == r[6..] && Drop(r, 2) == r[2..];
  }

  /** The second loop writes no more than the first one counted. */
  lemma {:induction false} DecodeFits(t: string)
    requires Body(t)
    ensures |Decode(t).0| <= Count(t)
    decreases |t|
  {
    if t != [] && t[0] != '\"' && t[0] != NUL {
      if t[0] != '\\' {
        DecodeFits(t[1..]);
      } else {
        assert ['\\'] + t[1..] == t;
        EscapeFits(t[1..]);
        DecodeFits(Drop(Escape(t[1..]).1, 1));
      }
    }
  }
}
