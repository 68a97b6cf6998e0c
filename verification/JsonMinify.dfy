/**
 cJSON_Minify, packages/cJSON-latest/cJSON.c:741-756: whitespace and comments taken out of a text in place.
 */
module JsonMinify {
  import opened Json
  import opened JsonRoundTrip
  import opened JsonPrint

  predicate IsBlank(c: char) {
    c == ' ' || c == '\t' || c == '\r' || c == '\n'
  }

  /** The rest from the end of the line on. */
  function Line(t: string): (r: string)
    ensures |r| <= |t|
  {
    if t != [] && t[0] != NUL && t[0] != '\n' then Line(t[1..]) else t
  }

  /** The rest from the end mark of the comment on. */
  function Comment(t: string): (r: string)
    ensures |r| <= |t|
  {
    if t == [] || t[0] == NUL || (t[0] == '*' && Ch(t[1..]) == '/') then t else Comment(t[1..])
  }

  /** The characters of a string up to its closing quote, and the rest from there on. */
  function Copied(t: string): (r: (string, string))
    ensures |r.1| <= |t|
    decreases |t|
  {
    if t == [] || t[0] == NUL || t[0] == '\"' then ([], t)
    else
      var n := if t[0] == '\\' && |t| > 1 then 2 else 1;
      var r := Copied(t[n..]);
      (t[..n] + r.0, r.1)
  }

  /** What is left of a text. */
  function Minified(t: string): string
    decreases |t|
  {
    if t == [] || t[0] == NUL then []
    else if IsBlank(t[0]) then Minified(t[1..])
    else if t[0] == '/' && Ch(t[1..]) == '/' then Minified(Line(t[1..]))
    else if t[0] == '/' && Ch(t[1..]) == '*' then Minified(Drop(Comment(t[1..]), 2))
    else if t[0] == '\"' then
      var c := Copied(t[1..]);
      ['\"'] + c.0 + if c.1 == [] then [] else [c.1[0]] + Minified(c.1[1..])
    else [t[0]] + Minified(t[1..])
  }

  /** Strings and comments end before the text does, and no string ends with a backslash. */
  ghost predicate Closed(t: string)
    decreases |t|
  {
    if t == [] || t[0] == NUL then true
    else if IsBlank(t[0]) then Closed(t[1..])
    else if t[0] == '/' && Ch(t[1..]) == '/' then Closed(Line(t[1..]))
    else if t[0] == '/' && Ch(t[1..]) == '*' then |Comment(t[1..])| >= 2 && Ch(Comment(t[1..])) == '*' && Closed(Drop(Comment(t[1..]), 2))
    else if t[0] == '\"' then StringClosed(t[1..]) && Closed(Copied(t[1..]).1[1..])
    else Closed(t[1..])
  }

  ghost predicate StringClosed(t: string)
    ensures StringClosed(t) ==> Ch(Copied(t).1) == '\"'
    decreases |t|
  {
    if t == [] || t[0] == NUL then false
    else if t[0] == '\"' then true
    else if t[0] == '\\' then |t| > 1 && t[1] != NUL && StringClosed(t[2..])
    else StringClosed(t[1..])
  }

  // ----- the printed texts

  lemma MinPlain(c: char, t: string)
    requires Closed(t) && c != NUL && !IsBlank(c) && c != '/' && c != '\"'
    ensures Minified([c] + t) == [c] + Minified(t) && Closed([c] + t)
  {
    First(c, t);
  }

  lemma {:induction false} MinPlainAll(w: string, t: string)
    requires Closed(t) && forall i {:trigger w[i]} :: 0 <= i < |w| ==> w[i] != NUL && !IsBlank(w[i]) && w[i] != '/' && w[i] != '\"'
    ensures Minified(w + t) == w + Minified(t) && Closed(w + t)
  {
    if w == [] {
      assert w + t == t && w + Minified(t) == Minified(t);
    } else {
      MinPlainAll(w[1..], t);
      MinPlain(w[0], w[1..] + t);
      assert w + t == [w[0]] + (w[1..] + t) && w + Minified(t) == [w[0]] + (w[1..] + Minified(t));
    }
  }

  lemma {:induction false} MinBlank(w: string, t: string)
    requires Closed(t) && forall i {:trigger w[i]} :: 0 <= i < |w| ==> IsBlank(w[i])
    ensures Minified(w + t) == Minified(t) && Closed(w + t)
  {
    if w == [] {
      assert w + t == t;
    } else {
      MinBlank(w[1..], t);
      First(w[0], w[1..] + t);
      assert w + t == [w[0]] + (w[1..] + t);
    }
  }

  /** An escaped character is copied. */
  lemma CopiedEscaped(c: char, t: string)
    requires c != NUL && StringClosed(t)
    ensures var u := Escaped(c) + t;
      Copied(u) == (Escaped(c) + Copied(t).0, Copied(t).1) && StringClosed(u)
  {
    if PlainChar(c) {
      First(c, t);
    } else {
      EscapedShape(c);
      if |Escaped(c)| == 2 {
        CopiedPair(Escaped(c)[1], t);
        assert Escaped(c) == ['\\', Escaped(c)[1]];
      } else {
        CopiedControl(c, t);
      }
    }
  }

  lemma CopiedPair(x: char, t: string)
    requires x != NUL && StringClosed(t)
    ensures var u := ['\\', x] + t; Copied(u) == (['\\', x] + Copied(t).0, Copied(t).1) && StringClosed(u)
  {
    var u := ['\\', x] + t;
    assert u[2..] == t && u[..2] == ['\\', x];
  }

  lemma Six(a: char, b: char, c: char, d: char, t: string)
    ensures ['\\', 'u', a, b, c, d] + t == ['\\', 'u'] + ([a] + ([b] + ([c] + ([d] + t))))
  {
  }

  lemma CopiedControl(c: char, t: string)
    requires NUL < c <= 31 as char && StringClosed(t)
    ensures var e := ['\\', 'u', '0', '0', HexDigit(c as nat / 16), HexDigit(c as nat % 16)];
      Copied(e + t) == (e + Copied(t).0, Copied(t).1) && StringClosed(e + t)
  {
    var h, l := HexDigit(c as nat / 16), HexDigit(c as nat % 16);
    CopiedChar(l, t);
    CopiedChar(h, [l] + t);
    CopiedChar('0', [h] + ([l] + t));
    CopiedChar('0', ['0'] + ([h] + ([l] + t)));
    CopiedPair('u', ['0'] + (['0'] + ([h] + ([l] + t))));
    Six('0', '0', h, l, t);
    Six('0', '0', h, l, Copied(t).0);
  }

  lemma CopiedChar(c: char, t: string)
    requires c != NUL && c != '\"' && c != '\\' && StringClosed(t)
    ensures Copied([c] + t) == ([c] + Copied(t).0, Copied(t).1) && StringClosed([c] + t)
  {
    First(c, t);
    assert ([c] + t)[..1] == [c];
  }

  lemma {:induction false} CopiedAll(s: string, t: string)
    requires NulFree(s)
    ensures var u := PutEscaped(s, ['\"'] + t);
      Copied(u) == (EscapedAll(s), ['\"'] + t) && StringClosed(u)
  {
    First('\"', t);
    if s != [] {
      CopiedAll(s[1..], t);
      CopiedEscaped(s[0], PutEscaped(s[1..], ['\"'] + t));
    }
  }

  lemma MinQuoted(s: string, t: string)
    requires NulFree(s) && Closed(t)
    ensures Minified(PutQuoted(s, t)) == PutQuoted(s, Minified(t)) && Closed(PutQuoted(s, t))
  {
    var u := PutEscaped(s, ['\"'] + t);
    First('\"', u);
    First('\"', t);
    CopiedAll(s, t);
    PutEscapedText(s, ['\"'] + Minified(t));
    Assoc(['\"'], EscapedAll(s), ['\"'] + Minified(t));
  }

  lemma {:induction false} DigitsMin(n: nat)
    ensures forall i {:trigger Digits(n)[i]} :: 0 <= i < |Digits(n)| ==> '0' <= Digits(n)[i] <= '9'
  {
    if n >= 10 { DigitsMin(n / 10); }
  }

  /** Minifying a printed value gives the unformatted text of the value. */
  lemma {:induction false} MinValue(v: Value, depth: nat, fmt: bool, t: string)
    requires Printable(v) && Closed(t)
    ensures Minified(Put(v, depth, fmt, t)) == Put(v, depth, false, Minified(t)) && Closed(Put(v, depth, fmt, t))
    decreases v, 2
  {
    match v
    case Null => MinPlainAll("null", t);
    case False => MinPlainAll("false", t);
    case True => MinPlainAll("true", t);
    case Number(n, _) =>
      DigitsMin(if n < 0 then -n else n);
      MinPlainAll(IntText(n), t);
    case Str(s) => MinQuoted(s, t);
    case Array(items) =>
      MinPlain(']', t);
      MinElems(items, depth + 1, fmt, [']'] + t);
      MinPlain('[', PutElems(items, depth + 1, fmt, [']'] + t));
    case Object(members) => MinObject(members, depth, fmt, t);
  }

  lemma NoPrefix(t: string)
    ensures If(false, ['\n']) + t == t && If(false, [' ']) + t == t && If(false, ['\t']) + t == t && [] + t == t
  {
  }

  lemma NoTabs(depth: nat, t: string)
    ensures If(false, Tabs(depth)) + t == t
  {
  }

  lemma MinObject(members: Members, depth: nat, fmt: bool, t: string)
    requires PrintableMembers(members) && Closed(t)
    ensures Minified(Put(Object(members), depth, fmt, t)) == Put(Object(members), depth, false, Minified(t)) && Closed(Put(Object(members), depth, fmt, t))
    decreases members, 2
  {
    if members == None {
      MinEmpty(depth, fmt, t);
    } else {
      var end := If(fmt, Tabs(depth)) + (['}'] + t);
      MinClose(depth, fmt, t);
      MinMembers(members, depth + 1, fmt, end);
      var body := PutMembers(members, depth + 1, fmt, end);
      MinBody(body, fmt);
      PutObject(members, depth, fmt, t, body);
      PlainObject(members, depth, Minified(t), Minified(body));
    }
  }

  lemma PlainObject(members: Members, depth: nat, t: string, body: string)
    requires members.Member? && body == PutMembers(members, depth + 1, false, ['}'] + t)
    ensures Put(Object(members), depth, false, t) == ['{'] + body
  {
    NoTabs(depth, ['}'] + t);
    NoPrefix(body);
  }

  /** The tabs and the closing brace. */
  lemma MinClose(depth: nat, fmt: bool, t: string)
    requires Closed(t)
    ensures var end := If(fmt, Tabs(depth)) + (['}'] + t); Closed(end) && Minified(end) == ['}'] + Minified(t)
  {
    MinPlain('}', t);
    MinBlank(If(fmt, Tabs(depth)), ['}'] + t);
  }

  lemma MinEmpty(depth: nat, fmt: bool, t: string)
    requires Closed(t)
    ensures Minified(Put(Object(None), depth, fmt, t)) == Put(Object(None), depth, false, Minified(t)) && Closed(Put(Object(None), depth, fmt, t))
  {
    MinPlain('}', t);
    MinBlank(EmptyInside(depth, fmt), ['}'] + t);
    MinPlain('{', EmptyInside(depth, fmt) + (['}'] + t));
    NoPrefix(['}'] + Minified(t));
  }

  lemma MinBody(body: string, fmt: bool)
    requires Closed(body)
    ensures Minified(['{'] + (If(fmt, ['\n']) + body)) == ['{'] + Minified(body) && Closed(['{'] + (If(fmt, ['\n']) + body))
  {
    MinBlank(If(fmt, ['\n']), body);
    MinPlain('{', If(fmt, ['\n']) + body);
  }

  lemma {:induction false} MinElems(es: Elems, depth: nat, fmt: bool, t: string)
    requires PrintableElems(es) && Closed(t)
    ensures Minified(PutElems(es, depth, fmt, t)) == PutElems(es, depth, false, Minified(t)) && Closed(PutElems(es, depth, fmt, t))
    decreases es, 1
  {
    match es
    case Nil =>
    case Cons(head, Nil) => MinValue(head, depth, fmt, t);
    case Cons(head, tail) =>
      var rest := PutElems(tail, depth, fmt, t);
      MinElems(tail, depth, fmt, t);
      MinBlank(If(fmt, [' ']), rest);
      MinPlain(',', If(fmt, [' ']) + rest);
      MinValue(head, depth, fmt, [','] + (If(fmt, [' ']) + rest));
      NoPrefix(PutElems(tail, depth, false, Minified(t)));
  }

  lemma {:induction false} MinMembers(ms: Members, depth: nat, fmt: bool, t: string)
    requires PrintableMembers(ms) && Closed(t)
    ensures Minified(PutMembers(ms, depth, fmt, t)) == PutMembers(ms, depth, false, Minified(t)) && Closed(PutMembers(ms, depth, fmt, t))
    decreases ms, 0
  {
    match ms
    case None =>
    case Member(name, value, tail) =>
      MinTail(tail, depth, fmt, t);
      var after := PutTail(tail, depth, fmt, t);
      var v := Put(value, depth, fmt, after);
      MinValue(value, depth, fmt, after);
      MinBlank(If(fmt, ['\t']), v);
      MinPlain(':', If(fmt, ['\t']) + v);
      MinQuoted(name, [':'] + (If(fmt, ['\t']) + v));
      MinBlank(If(fmt, Tabs(depth)), PutQuoted(name, [':'] + (If(fmt, ['\t']) + v)));
      NoPrefix(Put(value, depth, false, PutTail(tail, depth, false, Minified(t))));
      NoTabs(depth, PutQuoted(name, [':'] + Put(value, depth, false, PutTail(tail, depth, false, Minified(t)))));
  }

  lemma MinTail(ms: Members, depth: nat, fmt: bool, t: string)
    requires PrintableMembers(ms) && Closed(t)
    ensures Minified(PutTail(ms, depth, fmt, t)) == PutTail(ms, depth, false, Minified(t)) && Closed(PutTail(ms, depth, fmt, t))
    decreases ms, 1
  {
    if ms == None {
      MinBlank(If(fmt, ['\n']), t);
      NoPrefix(Minified(t));
    } else {
      var rest := PutMembers(ms, depth, fmt, t);
      MinMembers(ms, depth, fmt, t);
      MinBlank(If(fmt, ['\n']), rest);
      MinPlain(',', If(fmt, ['\n']) + rest);
      NoPrefix(PutMembers(ms, depth, false, Minified(t)));
    }
  }

  /** cJSON_Minify makes the unformatted text of the formatted one, and leaves an unformatted one as it is. */
  lemma MinifiedText(v: Value, fmt: bool)
    requires Printable(v)
    ensures Minified(Text(v, 0, fmt)) == Text(v, 0, false) && Closed(Text(v, 0, fmt))
  {
    PutText(v, 0, fmt, []);
    PutText(v, 0, false, []);
    assert Text(v, 0, fmt) + [] == Text(v, 0, fmt) && Text(v, 0, false) + [] == Text(v, 0, false);
    MinValue(v, 0, fmt, []);
  }

  // ----- in place

  /** The text from position i on of the string that a holds from there. */
  ghost predicate Rest(a: array<char>, i: nat, t: string)
    reads a
  {
    i + |t| < a.Length && a[i..i + |t|] == t && a[i + |t|] == NUL && NulFree(t)
  }

  /** *into++ = *json++. */
  method CopyOne(a: array<char>, into: nat, json: nat, ghost t: string)
    requires Rest(a, json, t) && t != [] && into <= json
    modifies a
    ensures a[..into + 1] == old(a[..into]) + [t[0]] && Rest(a, json + 1, t[1..])
  {
    ghost var before := a[json..json + |t|];
    assert a[json] == before[0];
    a[into] := a[json];
    assert a[json + 1..json + |t|] == before[1..];
  }

  lemma Step(a: array<char>, json: nat, t: string)
    requires Rest(a, json, t) && t != []
    ensures Rest(a, json + 1, t[1..]) && a[json] == t[0] && (a[json + 1] == Ch(t[1..]))
  {
    assert a[json] == a[json..json + |t|][0];
    assert a[json + 1..json + |t|] == a[json..json + |t|][1..];
    if |t| > 1 { assert a[json + 1] == a[json..json + |t|][1]; }
  }

  /** The loop over a comment of the first kind. */
  method SkipLine(a: array<char>, start: nat, ghost t: string) returns (json: nat, ghost r: string)
    requires Rest(a, start, t)
    ensures r == Line(t) && Rest(a, json, r) && json >= start
  {
    json, r := start, t;
    while a[json] != NUL && a[json] != '\n'
      invariant Rest(a, json, r) && Line(r) == Line(t) && json >= start
      decreases |r|
    {
      Step(a, json, r);
      json, r := json + 1, r[1..];
    }
    if r != [] { Step(a, json, r); }
  }

  /** The loop over a comment of the second kind, up to its end mark. */
  method SkipComment(a: array<char>, start: nat, ghost t: string) returns (json: nat, ghost r: string)
    requires Rest(a, start, t)
    ensures r == Comment(t) && Rest(a, json, r) && json >= start
  {
    json, r := start, t;
    while a[json] != NUL && !(a[json] == '*' && a[json + 1] == '/')
      invariant Rest(a, json, r) && Comment(r) == Comment(t) && json >= start
      decreases |r|
    {
      Step(a, json, r);
      json, r := json + 1, r[1..];
    }
    if r != [] { Step(a, json, r); }
  }

  /** The loop over a string, from behind its opening quote up to its closing one. */
  method CopyString(a: array<char>, at: nat, start: nat, ghost t: string) returns (into: nat, json: nat, ghost r: string)
    requires Rest(a, start, t) && StringClosed(t) && at <= start
    modifies a
    ensures r == Copied(t).1 && Rest(a, json, r) && into <= json && |r| <= |t|
    ensures a[..into] == old(a[..at]) + Copied(t).0
  {
    into, json, r := at, start, t;
    if r != [] { Step(a, json, r); }
    while a[json] != NUL && a[json] != '\"'
      invariant Rest(a, json, r) && StringClosed(r) && into <= json && |r| <= |t|
      invariant a[..into] + Copied(r).0 == old(a[..at]) + Copied(t).0 && Copied(r).1 == Copied(t).1
      decreases |r|
    {
      Step(a, json, r);
      into, json, r := StringTurn(a, into, json, r);
    }
    if r != [] { Step(a, json, r); }
    assert a[..into] + [] == a[..into];
  }

  /** One character of a string copied, or a backslash and the character behind it. */
  method StringTurn(a: array<char>, at: nat, start: nat, ghost t: string) returns (into: nat, json: nat, ghost r: string)
    requires Rest(a, start, t) && StringClosed(t) && t != [] && t[0] != '\"' && at <= start
    modifies a
    ensures Rest(a, json, r) && StringClosed(r) && into <= json && |r| < |t|
    ensures a[..into] + Copied(r).0 == old(a[..at]) + Copied(t).0 && Copied(r).1 == Copied(t).1
  {
    ghost var sofar := a[..at];
    into, json, r := at, start, t;
    Step(a, json, r);
    if a[json] == '\\' {
      CopyOne(a, into, json, r);
      into, json, r := into + 1, json + 1, r[1..];
      assert t[2..] == r[1..] && t[..2] == [t[0]] + [r[0]];
      Assoc(sofar, [t[0]], [r[0]]);
    }
    CopyOne(a, into, json, r);
    into, json, r := into + 1, json + 1, r[1..];
    CopiedAssoc(sofar, t, a[..into], r);
  }

  lemma CopiedAssoc(sofar: string, u: string, now: string, r: string)
    requires StringClosed(u) && u != [] && u[0] != '\"'
    requires if u[0] == '\\' then |u| > 1 && now == sofar + u[..2] && r == u[2..] else now == sofar + [u[0]] && r == u[1..]
    ensures now + Copied(r).0 == sofar + Copied(u).0 && Copied(r).1 == Copied(u).1 && StringClosed(r)
  {
    var n := if u[0] == '\\' then 2 else 1;
    assert u[..n] == if n == 2 then u[..2] else [u[0]];
    Assoc(sofar, u[..n], Copied(r).0);
  }

  /** cJSON_Minify of the text t in the array a. */
  method Minify(a: array<char>, ghost t: string)
    requires Rest(a, 0, t) && Closed(t)
    modifies a
    ensures Printed(a[..], [], Minified(t))
  {
    var into: nat, json: nat := 0, 0;
    ghost var r := t;
    assert a[..0] + Minified(r) == Minified(t);
    while a[json] != NUL
      invariant Rest(a, json, r) && Closed(r) && into <= json
      invariant a[..into] + Minified(r) == Minified(t)
      decreases |r|
    {
      Step(a, json, r);
      into, json, r := Turn(a, into, json, r);
    }
    if r != [] { Step(a, json, r); }
    assert a[..into] + [] == a[..into];
    a[into] := NUL;
    assert a[..][..into] == [] + Minified(t);
  }

  /** One turn of the loop of cJSON_Minify. */
  method Turn(a: array<char>, at: nat, start: nat, ghost t: string) returns (into: nat, json: nat, ghost r: string)
    requires Rest(a, start, t) && t != [] && Closed(t) && at <= start
    modifies a
    ensures Rest(a, json, r) && Closed(r) && into <= json && |r| < |t|
    ensures a[..into] + Minified(r) == old(a[..at]) + Minified(t)
  {
    into := at;
    ghost var pre := a[..at];
    Step(a, start, t);
    if IsBlank(a[start]) {
      json, r := start + 1, t[1..];
    } else if a[start] == '/' && a[start + 1] == '/' {
      json, r := SkipLine(a, start, t);
    } else if a[start] == '/' && a[start + 1] == '*' {
      json, r := SkipBlock(a, start, t);
    } else if a[start] == '\"' {
      into, json, r := TurnString(a, at, start, t);
    } else {
      CopyOne(a, at, start, t);
      into, json, r := at + 1, start + 1, t[1..];
      Assoc(pre, [t[0]], Minified(r));
    }
  }

  /** A comment of the second kind with its end mark. */
  method SkipBlock(a: array<char>, start: nat, ghost t: string) returns (json: nat, ghost r: string)
    requires Rest(a, start, t) && |t| > 1 && Closed(t) && t[0] == '/' && t[1] == '*'
    ensures r == Drop(Comment(t), 2) && Rest(a, json, r) && json >= start && |r| < |t|
  {
    json, r := SkipComment(a, start, t);
    Step(a, json, r);
    Step(a, json + 1, r[1..]);
    assert r[1..][1..] == Drop(r, 2);
    json, r := json + 2, Drop(r, 2);
  }

  method TurnString(a: array<char>, at: nat, start: nat, ghost t: string) returns (into: nat, json: nat, ghost r: string)
    requires Rest(a, start, t) && t != [] && Closed(t) && at <= start && t[0] == '\"'
    modifies a
    ensures Rest(a, json, r) && Closed(r) && into <= json && |r| < |t|
    ensures a[..into] + Minified(r) == old(a[..at]) + Minified(t)
  {
    ghost var pre := a[..at];
    CopyOne(a, at, start, t);
    into, json, r := CopyString(a, at + 1, start + 1, t[1..]);
    ghost var c := Copied(t[1..]);
    Step(a, json, r);
    CopyOne(a, into, json, r);
    into, json, r := into + 1, json + 1, r[1..];
    Assoc(pre, ['\"'], c.0);
    Assoc(pre, ['\"'] + c.0, [c.1[0]]);
    Assoc(pre, ['\"'] + c.0 + [c.1[0]], Minified(r));
    Assoc(['\"'] + c.0, [c.1[0]], Minified(r));
  }
}
