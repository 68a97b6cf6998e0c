/**
 parse(print(v)) == v: for every printable tree, formatted or not, at any depth, the parser of
 packages/cJSON-latest/cJSON.c returns the tree and leaves exactly the text behind it.
 */
module JsonRoundTrip {
  import opened Json
  import opened JsonParse

  // ----- whitespace

  ghost predicate Blank(w: string) {
    forall i {:trigger w[i]} :: 0 <= i < |w| ==> w[i] != NUL && w[i] <= ' '
  }

  lemma {:induction false} SkipBlank(w: string, t: string)
    requires Blank(w)
    ensures Skip(w + t) == Skip(t)
  {
    if w == [] {
      assert w + t == t;
    } else {
      assert (w + t)[1..] == w[1..] + t;
      SkipBlank(w[1..], t);
    }
  }

  lemma SkipNone(t: string)
    requires Ch(t) > ' '
    ensures Skip(t) == t
  {
  }

  lemma {:induction false} SkipTwice(t: string)
    ensures Skip(Skip(t)) == Skip(t)
  {
    if t != [] && t[0] != NUL && t[0] <= ' ' { SkipTwice(t[1..]); }
  }

  // ----- numbers

  lemma {:induction false} AccumulateDigits(n: nat, t: string)
    ensures Accumulate(0, Digits(n) + t) == Accumulate(n, t)
    decreases n
  {
    if n < 10 {
      assert (Digits(n) + t)[1..] == t;
    } else {
      var d := n % 10;
      assert Digits(n) + t == Digits(n / 10) + ([Digit(d)] + t);
      AccumulateDigits(n / 10, [Digit(d)] + t);
      assert ([Digit(d)] + t)[1..] == t;
    }
  }

  lemma {:induction false} FirstDigit(n: nat)
    ensures Digits(n) != [] && IsDigit(Digits(n)[0]) && (n > 0 ==> Digits(n)[0] != '0')
  {
    if n >= 10 { FirstDigit(n / 10); }
  }

  /** The text goes on with something that is not part of a number. */
  ghost predicate Ends(t: string) {
    !IsDigit(Ch(t)) && Ch(t) != '.' && Ch(t) != 'e' && Ch(t) != 'E'
  }

  lemma IntegerDigits(n: nat, t: string)
    requires Ends(t)
    ensures Integer(Digits(n) + t) == (n, t)
  {
    var u := Digits(n) + t;
    FirstDigit(n);
    assert Ch(u) == Digits(n)[0];
    if n == 0 {
      assert u[1..] == t;
    } else {
      AccumulateDigits(n, t);
    }
  }

  lemma NumberBack(n: int, t: string)
    requires Ends(t)
    ensures ParseNumber(IntText(n) + t) == Done(Number(n, 0), t)
  {
    var u := IntText(n) + t;
    if n < 0 {
      assert u[1..] == Digits(-n) + t;
      IntegerDigits(-n, t);
    } else {
      FirstDigit(n);
      IntegerDigits(n, t);
    }
  }

  // ----- strings

  lemma HexBack(d: nat)
    requires d < 16
    ensures HexValue(HexDigit(d)) == d
  {
  }

  /** The escape of a control character is read back. */
  lemma UnicodeBack(c: char, t: string)
    requires NUL < c <= 31 as char
    ensures var u := ['u', '0', '0', HexDigit(c as nat / 16), HexDigit(c as nat % 16)] + t;
      Unicode(u) == ([c], u[4..]) && Drop(u[4..], 1) == t
  {
    var h, l := HexDigit(c as nat / 16), HexDigit(c as nat % 16);
    var u := ['u', '0', '0', h, l] + t;
    HexBack(c as nat / 16);
    HexBack(c as nat % 16);
    assert u[1..] == ['0', '0', h, l] + t;
    assert Hex4(u[1..]) == c as nat;
    assert u[4..] == [l] + t;
  }

  lemma First(c: char, t: string)
    ensures ([c] + t)[1..] == t && Ch([c] + t) == c && Drop([c] + t, 1) == t
  {
  }

  /** The character a one-letter escape stands for. */
  function Meaning(x: char): char {
    if x == 'b' then 8 as char else if x == 'f' then 12 as char else if x == 'n' then '\n'
    else if x == 'r' then '\r' else if x == 't' then '\t' else x
  }

  lemma LetterBack(x: char, t: string)
    requires x != 'u'
    ensures Decode(['\\', x] + t) == ([Meaning(x)] + Decode(t).0, Decode(t).1)
  {
    var u := ['\\', x] + t;
    assert u[1..] == [x] + t;
    First(x, t);
    assert Escape([x] + t) == ([Meaning(x)], [x] + t);
  }

  lemma ControlBack(c: char, t: string)
    requires NUL < c <= 31 as char
    ensures Decode(['\\', 'u', '0', '0', HexDigit(c as nat / 16), HexDigit(c as nat % 16)] + t) == ([c] + Decode(t).0, Decode(t).1)
  {
    var h, l := HexDigit(c as nat / 16), HexDigit(c as nat % 16);
    var u := ['u', '0', '0', h, l] + t;
    assert (['\\', 'u', '0', '0', h, l] + t)[1..] == u;
    UnicodeBack(c, t);
    assert Escape(u) == Unicode(u);
  }

  /** The letter that escapes c, if there is one. */
  lemma EscapedShape(c: char)
    requires c != NUL && (c <= 31 as char || c == '\"' || c == '\\')
    ensures |Escaped(c)| == 2 ==> Escaped(c)[0] == '\\' && Escaped(c)[1] != 'u' && Meaning(Escaped(c)[1]) == c
    ensures |Escaped(c)| != 2 ==> NUL < c <= 31 as char && Escaped(c) == ['\\', 'u', '0', '0', HexDigit(c as nat / 16), HexDigit(c as nat % 16)]
  {
  }

  lemma EscapeBack(c: char, t: string)
    requires c != NUL
    ensures Decode(Escaped(c) + t) == ([c] + Decode(t).0, Decode(t).1)
  {
    if c > 31 as char && c != '\"' && c != '\\' {
      First(c, t);
    } else {
      EscapedShape(c);
      if |Escaped(c)| == 2 {
        assert Escaped(c) == ['\\', Escaped(c)[1]];
        LetterBack(Escaped(c)[1], t);
      } else {
        ControlBack(c, t);
      }
    }
  }

  // ----- the text of a value followed by the text t

  function PutEscaped(s: string, t: string): string {
    if s == [] then t else Escaped(s[0]) + PutEscaped(s[1..], t)
  }

  function PutQuoted(s: string, t: string): string {
    ['\"'] + PutEscaped(s, ['\"'] + t)
  }

  function Put(v: Value, depth: nat, fmt: bool, t: string): string
    decreases v, 0
  {
    match v
    case Null => "null" + t
    case False => "false" + t
    case True => "true" + t
    case Number(n, _) => IntText(n) + t
    case Str(s) => PutQuoted(s, t)
    case Array(items) => ['['] + PutElems(items, depth + 1, fmt, [']'] + t)
    case Object(None) => ['{'] + (EmptyInside(depth, fmt) + (['}'] + t))
    case Object(members) => ['{'] + (If(fmt, ['\n']) + PutMembers(members, depth + 1, fmt, If(fmt, Tabs(depth)) + (['}'] + t)))
  }

  function EmptyInside(depth: nat, fmt: bool): string {
    if fmt then ['\n'] + Tabs(if depth == 0 then 0 else depth - 1) else []
  }

  function PutElems(es: Elems, depth: nat, fmt: bool, t: string): string
    decreases es, 0
  {
    match es
    case Nil => t
    case Cons(head, Nil) => Put(head, depth, fmt, t)
    case Cons(head, tail) => Put(head, depth, fmt, [','] + (If(fmt, [' ']) + PutElems(tail, depth, fmt, t)))
  }

  function PutMembers(ms: Members, depth: nat, fmt: bool, t: string): string
    decreases ms, 0
  {
    match ms
    case None => t
    case Member(name, value, tail) =>
      If(fmt, Tabs(depth)) + PutQuoted(name, [':'] + (If(fmt, ['\t']) + Put(value, depth, fmt, PutTail(tail, depth, fmt, t))))
  }

  function PutTail(ms: Members, depth: nat, fmt: bool, t: string): string
    decreases ms, 1
  {
    match ms
    case None => If(fmt, ['\n']) + t
    case Member(_, _, _) => [','] + (If(fmt, ['\n']) + PutMembers(ms, depth, fmt, t))
  }

  // ----- strings are read back

  lemma {:induction false} DecodeBack(s: string, t: string)
    requires NulFree(s)
    ensures Decode(PutEscaped(s, ['\"'] + t)) == (s, ['\"'] + t)
  {
    First('\"', t);
    if s != [] {
      assert [s[0]] + s[1..] == s;
      DecodeBack(s[1..], t);
      EscapeBack(s[0], PutEscaped(s[1..], ['\"'] + t));
    }
  }

  lemma StringBack(s: string, t: string)
    requires NulFree(s)
    ensures ParseString(PutQuoted(s, t)) == Done(s, t) && Ch(PutQuoted(s, t)) == '\"'
  {
    First('\"', PutEscaped(s, ['\"'] + t));
    DecodeBack(s, t);
    First('\"', t);
  }

  // ----- values are read back

  /** A value's text starts with a character that is neither white nor a closing bracket. */
  lemma FirstChar(v: Value, depth: nat, fmt: bool, t: string)
    ensures var c := Ch(Put(v, depth, fmt, t)); c > ' ' && c != ']' && c != '}' && c != ','
  {
    if v.Number? {
      FirstDigit(if v.n < 0 then -v.n else v.n);
    }
  }

  lemma NotPrefix(a: string, t: string)
    requires a != [] && Ch(a) != Ch(t)
    ensures !(a <= t)
  {
  }

  lemma NotLiteral(t: string)
    requires Ch(t) != 'n' && Ch(t) != 'f' && Ch(t) != 't'
    ensures !("null" <= t) && !("false" <= t) && !("true" <= t)
  {
    NotPrefix("null", t);
    NotPrefix("false", t);
    NotPrefix("true", t);
  }

  lemma LiteralBack(t: string)
    ensures ParseValue("null" + t) == Done(Null, t)
    ensures ParseValue("false" + t) == Done(False, t)
    ensures ParseValue("true" + t) == Done(True, t)
  {
    assert ("null" + t)[4..] == t && ("false" + t)[5..] == t && ("true" + t)[4..] == t;
    assert Ch("false" + t) == 'f' && Ch("true" + t) == 't';
    NotPrefix("null", "false" + t);
    NotPrefix("null", "true" + t);
    NotPrefix("false", "true" + t);
  }

  lemma {:induction false} ValueBack(v: Value, depth: nat, fmt: bool, t: string)
    requires Printable(v) && (v.Number? ==> Ends(t))
    ensures ParseValue(Put(v, depth, fmt, t)) == Done(v, t)
    decreases v, 2
  {
    LiteralBack(t);
    match v
    case Number(n, e) =>
      FirstDigit(if n < 0 then -n else n);
      NumberBack(n, t);
      NotLiteral(IntText(n) + t);
    case Str(s) =>
      StringBack(s, t);
      NotLiteral(PutQuoted(s, t));
    case Array(items) =>
      ArrayBack(items, depth, fmt, t);
      Dispatch(Put(v, depth, fmt, t));
    case Object(members) =>
      ObjectBack(members, depth, fmt, t);
      Dispatch(Put(v, depth, fmt, t));
    case _ =>
  }

  lemma Dispatch(t: string)
    ensures Ch(t) == '[' ==> ParseValue(t) == ParseArray(t)
    ensures Ch(t) == '{' ==> ParseValue(t) == ParseObject(t)
  {
    if Ch(t) == '[' || Ch(t) == '{' { NotLiteral(t); }
  }

  lemma ArrayBack(items: Elems, depth: nat, fmt: bool, t: string)
    requires PrintableElems(items)
    ensures ParseArray(Put(Array(items), depth, fmt, t)) == Done(Array(items), t)
    decreases items, 2
  {
    var body := PutElems(items, depth + 1, fmt, [']'] + t);
    First('[', body);
    First(']', t);
    if items.Cons? {
      ElemsStart(items, depth + 1, fmt, [']'] + t);
      SkipNone(body);
      ElemsBack(items, depth + 1, fmt, t);
    }
  }

  lemma ElemsStart(es: Elems, depth: nat, fmt: bool, t: string)
    requires es.Cons?
    ensures Ch(PutElems(es, depth, fmt, t)) > ' ' && Ch(PutElems(es, depth, fmt, t)) != ']'
  {
    if es.tail == Nil {
      FirstChar(es.head, depth, fmt, t);
    } else {
      FirstChar(es.head, depth, fmt, [','] + (If(fmt, [' ']) + PutElems(es.tail, depth, fmt, t)));
    }
  }

  lemma {:induction false} ElemsBack(es: Elems, depth: nat, fmt: bool, t: string)
    requires PrintableElems(es) && es.Cons?
    ensures ParseElems(PutElems(es, depth, fmt, [']'] + t)) == Done(es, t)
    decreases es, 1
  {
    var end := [']'] + t;
    ElemsStart(es, depth, fmt, end);
    SkipNone(PutElems(es, depth, fmt, end));
    First(']', t);
    if es.tail == Nil {
      ValueBack(es.head, depth, fmt, end);
      SkipNone(end);
    } else {
      var rest := PutElems(es.tail, depth, fmt, end);
      var more := If(fmt, [' ']) + rest;
      First(',', more);
      ValueBack(es.head, depth, fmt, [','] + more);
      SkipNone([','] + more);
      BlankElems(If(fmt, [' ']), rest);
      ElemsBack(es.tail, depth, fmt, t);
    }
  }

  /** Leading whitespace does not matter to the loops. */
  lemma BlankElems(w: string, t: string)
    requires Blank(w)
    ensures ParseElems(w + t) == ParseElems(t)
  {
    SkipBlank(w, t);
  }

  lemma BlankMembers(w: string, t: string)
    requires Blank(w)
    ensures ParseMembers(w + t) == ParseMembers(t)
  {
    SkipBlank(w, t);
  }

  lemma EmptyObjectBack(depth: nat, fmt: bool, t: string)
    ensures ParseObject(Put(Object(None), depth, fmt, t)) == Done(Object(None), t)
  {
    var close, w := ['}'] + t, EmptyInside(depth, fmt);
    First('}', t);
    SkipNone(close);
    SkipBlank(w, close);
    First('{', w + close);
  }

  /** The text of an object with members. */
  lemma PutObject(members: Members, depth: nat, fmt: bool, t: string, body: string)
    requires members.Member? && body == PutMembers(members, depth + 1, fmt, If(fmt, Tabs(depth)) + (['}'] + t))
    ensures Put(Object(members), depth, fmt, t) == ['{'] + (If(fmt, ['\n']) + body)
  {
  }

  lemma ObjectBack(members: Members, depth: nat, fmt: bool, t: string)
    requires PrintableMembers(members)
    ensures ParseObject(Put(Object(members), depth, fmt, t)) == Done(Object(members), t)
    decreases members, 2
  {
    if members == None {
      EmptyObjectBack(depth, fmt, t);
    } else {
      var w, body := If(fmt, ['\n']), PutMembers(members, depth + 1, fmt, If(fmt, Tabs(depth)) + (['}'] + t));
      InsideBack(members, depth, fmt, t);
      SkipBlank(w, body);
      PutObject(members, depth, fmt, t, body);
      BraceBack(w + body, members, t);
    }
  }

  lemma BraceBack(body: string, members: Members, t: string)
    requires Ch(Skip(body)) == '\"' && ParseMembers(Skip(body)) == Done(members, t)
    ensures ParseObject(['{'] + body) == Done(Object(members), t)
  {
    First('{', body);
  }

  lemma InsideBack(members: Members, depth: nat, fmt: bool, t: string)
    requires PrintableMembers(members) && members.Member?
    ensures var body := PutMembers(members, depth + 1, fmt, If(fmt, Tabs(depth)) + (['}'] + t));
      Ch(Skip(body)) == '\"' && ParseMembers(Skip(body)) == Done(members, t)
    decreases members, 1, 1
  {
    var end := If(fmt, Tabs(depth)) + (['}'] + t);
    MembersStart(members, depth + 1, fmt, end);
    MembersBack(members, depth + 1, fmt, If(fmt, Tabs(depth)), t);
    SkippedMembers(PutMembers(members, depth + 1, fmt, end));
  }

  lemma SkippedMembers(t: string)
    ensures ParseMembers(Skip(t)) == ParseMembers(t)
  {
    SkipTwice(t);
  }

  lemma MembersStart(ms: Members, depth: nat, fmt: bool, t: string)
    requires ms.Member?
    ensures Ch(Skip(PutMembers(ms, depth, fmt, t))) == '\"'
  {
    var q := PutQuoted(ms.name, [':'] + (If(fmt, ['\t']) + Put(ms.value, depth, fmt, PutTail(ms.tail, depth, fmt, t))));
    SkipBlank(If(fmt, Tabs(depth)), q);
    SkipNone(q);
  }

  lemma {:induction false} MembersBack(ms: Members, depth: nat, fmt: bool, tabs: string, t: string)
    requires PrintableMembers(ms) && ms.Member? && Blank(tabs)
    ensures ParseMembers(PutMembers(ms, depth, fmt, tabs + (['}'] + t))) == Done(ms, t)
    decreases ms, 1, 0
  {
    var after := PutTail(ms.tail, depth, fmt, tabs + (['}'] + t));
    var value := Put(ms.value, depth, fmt, after);
    var colon := [':'] + (If(fmt, ['\t']) + value);
    SkipBlank(If(fmt, Tabs(depth)), PutQuoted(ms.name, colon));
    StringBack(ms.name, colon);
    SkipNone(PutQuoted(ms.name, colon));
    ColonBack(ms.value, depth, fmt, after);
    TailEnds(ms.tail, depth, fmt, tabs, t);
    ValueBack(ms.value, depth, fmt, after);
    TailBack(ms.tail, depth, fmt, tabs, t);
  }

  lemma ColonBack(v: Value, depth: nat, fmt: bool, after: string)
    ensures var value := Put(v, depth, fmt, after); var colon := [':'] + (If(fmt, ['\t']) + value);
      Skip(colon) == colon && Ch(colon) == ':' && Skip(colon[1..]) == value
  {
    var value := Put(v, depth, fmt, after);
    First(':', If(fmt, ['\t']) + value);
    SkipNone([':'] + (If(fmt, ['\t']) + value));
    SkipBlank(If(fmt, ['\t']), value);
    FirstChar(v, depth, fmt, after);
    SkipNone(value);
  }

  lemma TailEnds(ms: Members, depth: nat, fmt: bool, tabs: string, t: string)
    requires Blank(tabs)
    ensures Ends(PutTail(ms, depth, fmt, tabs + (['}'] + t)))
  {
    EndsBlank(tabs, ['}'] + t);
    if ms == None { EndsBlank(If(fmt, ['\n']), tabs + (['}'] + t)); }
  }

  /** What comes behind a member's value. */
  lemma TailBack(ms: Members, depth: nat, fmt: bool, tabs: string, t: string)
    requires PrintableMembers(ms) && Blank(tabs)
    ensures var r := Skip(PutTail(ms, depth, fmt, tabs + (['}'] + t)));
      if ms == None then r == ['}'] + t && Ch(r) == '}' && r[1..] == t
      else Ch(r) == ',' && ParseMembers(r[1..]) == Done(ms, t)
    decreases ms, 2
  {
    var end := tabs + (['}'] + t);
    First('}', t);
    SkipNone(['}'] + t);
    if ms == None {
      SkipBlank(If(fmt, ['\n']), end);
      SkipBlank(tabs, ['}'] + t);
    } else {
      var rest := PutMembers(ms, depth, fmt, end);
      First(',', If(fmt, ['\n']) + rest);
      SkipNone([','] + (If(fmt, ['\n']) + rest));
      BlankMembers(If(fmt, ['\n']), rest);
      MembersBack(ms, depth, fmt, tabs, t);
    }
  }

  lemma EndsBlank(w: string, t: string)
    requires Blank(w) && Ends(t)
    ensures Ends(w + t)
  {
    if w == [] { assert w + t == t; }
  }

  // ----- the text followed by t is the text and t

  lemma {:induction false} PutEscapedText(s: string, t: string)
    ensures PutEscaped(s, t) == EscapedAll(s) + t
  {
    if s == [] {
      assert EscapedAll(s) + t == t;
    } else {
      PutEscapedText(s[1..], t);
    }
  }

  lemma PutQuotedText(s: string, t: string)
    ensures PutQuoted(s, t) == Quoted(s) + t
  {
    PutEscapedText(s, ['\"'] + t);
  }

  lemma {:induction false} PutText(v: Value, depth: nat, fmt: bool, t: string)
    ensures Put(v, depth, fmt, t) == Text(v, depth, fmt) + t
    decreases v, 1
  {
    match v
    case Str(s) => PutQuotedText(s, t);
    case Array(items) =>
      var es := ElemsText(items, depth + 1, fmt);
      PutElemsText(items, depth + 1, fmt, [']'] + t);
      Assoc(['['] + es, [']'], t);
      Assoc(['['], es, [']'] + t);
    case Object(None) =>
      var w := EmptyInside(depth, fmt);
      assert Text(v, depth, fmt) == ['{'] + w + ['}'];
      Assoc(['{'] + w, ['}'], t);
      Assoc(['{'], w, ['}'] + t);
    case Object(members) =>
      var nl, ms, tabs := If(fmt, ['\n']), MembersText(members, depth + 1, fmt), If(fmt, Tabs(depth));
      PutMembersText(members, depth + 1, fmt, tabs + (['}'] + t));
      Assoc(['{'] + nl + ms + tabs, ['}'], t);
      Assoc(['{'] + nl + ms, tabs, ['}'] + t);
      Assoc(['{'] + nl, ms, tabs + (['}'] + t));
      Assoc(['{'], nl, ms + (tabs + (['}'] + t)));
    case _ =>
  }

  lemma {:induction false} PutElemsText(es: Elems, depth: nat, fmt: bool, t: string)
    ensures PutElems(es, depth, fmt, t) == ElemsText(es, depth, fmt) + t
    decreases es, 0
  {
    match es
    case Nil => assert ElemsText(es, depth, fmt) + t == t;
    case Cons(head, Nil) => PutText(head, depth, fmt, t);
    case Cons(head, tail) =>
      var h, sp, r := Text(head, depth, fmt), If(fmt, [' ']), ElemsText(tail, depth, fmt);
      PutElemsText(tail, depth, fmt, t);
      PutText(head, depth, fmt, [','] + (sp + PutElems(tail, depth, fmt, t)));
      Assoc(h + [','] + sp, r, t);
      Assoc(h + [','], sp, r + t);
      Assoc(h, [','], sp + (r + t));
  }

  lemma {:induction false} PutMembersText(ms: Members, depth: nat, fmt: bool, t: string)
    ensures PutMembers(ms, depth, fmt, t) == MembersText(ms, depth, fmt) + t
    decreases ms, 0
  {
    match ms
    case None => assert MembersText(ms, depth, fmt) + t == t;
    case Member(name, value, tail) =>
      var after := PutTail(tail, depth, fmt, t);
      PutTailText(tail, depth, fmt, t);
      PutText(value, depth, fmt, after);
      PutQuotedText(name, [':'] + (If(fmt, ['\t']) + Put(value, depth, fmt, after)));
      MemberAssoc(If(fmt, Tabs(depth)), Quoted(name), If(fmt, ['\t']), Text(value, depth, fmt),
        If(tail.Member?, [',']), If(fmt, ['\n']), MembersText(tail, depth, fmt), t);
  }

  lemma MemberAssoc(w: string, q: string, tab: string, v: string, comma: string, nl: string, r: string, t: string)
    ensures w + (q + ([':'] + (tab + (v + (comma + (nl + (r + t))))))) == w + q + [':'] + tab + v + comma + nl + r + t
  {
    Assoc(w + q + [':'] + tab + v + comma + nl, r, t);
    Assoc(w + q + [':'] + tab + v + comma, nl, r + t);
    Assoc(w + q + [':'] + tab + v, comma, nl + (r + t));
    Assoc(w + q + [':'] + tab, v, comma + (nl + (r + t)));
    Assoc(w + q + [':'], tab, v + (comma + (nl + (r + t))));
    Assoc(w + q, [':'], tab + (v + (comma + (nl + (r + t)))));
    Assoc(w, q, [':'] + (tab + (v + (comma + (nl + (r + t))))));
  }

  lemma PutTailText(tail: Members, depth: nat, fmt: bool, t: string)
    ensures PutTail(tail, depth, fmt, t) == If(tail.Member?, [',']) + (If(fmt, ['\n']) + (MembersText(tail, depth, fmt) + t))
    decreases tail, 1
  {
    PutMembersText(tail, depth, fmt, t);
    if tail == None {
      assert MembersText(tail, depth, fmt) + t == t;
      assert [] + (If(fmt, ['\n']) + t) == If(fmt, ['\n']) + t;
    }
  }

  /** cJSON_Parse of what cJSON_Print or cJSON_PrintUnformatted returns. */
  lemma RoundTrip(v: Value, fmt: bool)
    requires Printable(v)
    ensures ParseValue(Skip(Text(v, 0, fmt))) == Done(v, [])
  {
    PutText(v, 0, fmt, []);
    assert Text(v, 0, fmt) + [] == Text(v, 0, fmt);
    FirstChar(v, 0, fmt, []);
    SkipNone(Put(v, 0, fmt, []));
    ValueBack(v, 0, fmt, []);
  }
}
