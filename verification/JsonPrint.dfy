/**
 The printers of packages/cJSON-latest/cJSON.c that allocate what they have measured: cJSON_Print and
 cJSON_PrintUnformatted.  A C string in a buffer is the buffer's text up to its first NUL.
 */
module JsonPrint {
  import opened Json
  import opened JsonRoundTrip

  /** buf holds pre, then the string s, then a NUL. */
  ghost predicate Printed(buf: string, pre: string, s: string) {
    |pre| + |s| < |buf| && buf[..|pre| + |s|] == pre + s && buf[|pre| + |s|] == NUL
  }

  // ----- texts contain no NUL

  lemma NulFreeConcat(a: string, b: string)
    requires NulFree(a) && NulFree(b)
    ensures NulFree(a + b)
  {
  }

  lemma {:induction false} DigitsNulFree(n: nat)
    ensures NulFree(Digits(n))
  {
    if n >= 10 {
      DigitsNulFree(n / 10);
      NulFreeConcat(Digits(n / 10), [Digit(n % 10)]);
    }
  }

  lemma {:induction false} EscapedNulFree(s: string)
    requires NulFree(s)
    ensures NulFree(EscapedAll(s))
  {
    if s != [] {
      EscapedNulFree(s[1..]);
      NulFreeConcat(Escaped(s[0]), EscapedAll(s[1..]));
    }
  }

  lemma QuotedNulFree(s: string)
    requires NulFree(s)
    ensures NulFree(Quoted(s))
  {
    EscapedNulFree(s);
    NulFreeConcat(['\"'], EscapedAll(s));
    NulFreeConcat(['\"'] + EscapedAll(s), ['\"']);
  }

  lemma {:induction false} TextNulFree(v: Value, depth: nat, fmt: bool)
    requires Printable(v)
    ensures NulFree(Text(v, depth, fmt))
    decreases v, 1
  {
    match v
    case Number(n, _) =>
      DigitsNulFree(if n < 0 then -n else n);
      if n < 0 { NulFreeConcat(['-'], Digits(-n)); }
    case Str(s) => QuotedNulFree(s);
    case Array(items) =>
      ElemsNulFree(items, depth + 1, fmt);
      NulFreeConcat(['['], ElemsText(items, depth + 1, fmt));
      NulFreeConcat(['['] + ElemsText(items, depth + 1, fmt), [']']);
    case Object(None) =>
    case Object(members) =>
      var a, b := ['{'] + If(fmt, ['\n']), MembersText(members, depth + 1, fmt);
      MembersNulFree(members, depth + 1, fmt);
      NulFreeConcat(a, b);
      NulFreeConcat(a + b, If(fmt, Tabs(depth)));
      NulFreeConcat(a + b + If(fmt, Tabs(depth)), ['}']);
    case _ =>
  }

  lemma {:induction false} ElemsNulFree(es: Elems, depth: nat, fmt: bool)
    requires PrintableElems(es)
    ensures NulFree(ElemsText(es, depth, fmt))
    decreases es, 0
  {
    if es.Cons? {
      TextNulFree(es.head, depth, fmt);
      ElemsNulFree(es.tail, depth, fmt);
      var a := Text(es.head, depth, fmt);
      NulFreeConcat(a, [',']);
      NulFreeConcat(a + [','], If(fmt, [' ']));
      NulFreeConcat(a + [','] + If(fmt, [' ']), ElemsText(es.tail, depth, fmt));
    }
  }

  lemma {:induction false} MembersNulFree(ms: Members, depth: nat, fmt: bool)
    requires PrintableMembers(ms)
    ensures NulFree(MembersText(ms, depth, fmt))
    decreases ms, 0
  {
    if ms.Member? {
      QuotedNulFree(ms.name);
      TextNulFree(ms.value, depth, fmt);
      MembersNulFree(ms.tail, depth, fmt);
      var a := If(fmt, Tabs(depth));
      NulFreeConcat(a, Quoted(ms.name));
      a := a + Quoted(ms.name);
      NulFreeConcat(a, [':']);
      a := a + [':'];
      NulFreeConcat(a, If(fmt, ['\t']));
      a := a + If(fmt, ['\t']);
      NulFreeConcat(a, Text(ms.value, depth, fmt));
      a := a + Text(ms.value, depth, fmt);
      NulFreeConcat(a, If(ms.tail.Member?, [',']));
      a := a + If(ms.tail.Member?, [',']);
      NulFreeConcat(a, If(fmt, ['\n']));
      a := a + If(fmt, ['\n']);
      NulFreeConcat(a, MembersText(ms.tail, depth, fmt));
    }
  }

  // ----- C library routines

  /** The first NUL behind `from` ends the string. */
  lemma NulEnds(buf: string, pre: string, s: string, j: nat)
    requires Printed(buf, pre, s) && NulFree(s) && |pre| <= j <= |pre| + |s|
    ensures buf[j] == NUL <==> j == |pre| + |s|
  {
    if j < |pre| + |s| {
      assert buf[j] == buf[..|pre| + |s|][j] == s[j - |pre|];
    }
  }

  /** strlen. */
  method StrLen(buf: array<char>, from: nat, ghost pre: string, ghost s: string) returns (n: nat)
    requires Printed(buf[..], pre, s) && NulFree(s) && |pre| <= from <= |pre| + |s|
    ensures n == |pre| + |s| - from
  {
    n := 0;
    NulEnds(buf[..], pre, s, from);
    while buf[from + n] != NUL
      invariant from + n <= |pre| + |s| && (buf[from + n] == NUL <==> from + n == |pre| + |s|)
      decreases |pre| + |s| - n
    {
      n := n + 1;
      NulEnds(buf[..], pre, s, from + n);
    }
  }

  /** The characters of s written from `at` on. */
  method Write(buf: array<char>, at: nat, s: string)
    requires at + |s| <= buf.Length
    modifies buf
    ensures buf[..at + |s|] == old(buf[..at]) + s && buf[at + |s|..] == old(buf[at + |s|..])
  {
    var i := 0;
    while i < |s|
      invariant i <= |s| && buf[..at + i] == old(buf[..at]) + s[..i] && buf[at + i..] == old(buf[at + i..])
    {
      ghost var before, rest := buf[..at + i], buf[at + i..];
      buf[at + i] := s[i];
      i := i + 1;
      assert buf[..at + i] == before + [s[i - 1]];
      assert buf[at + i..] == rest[1..];
    }
  }

  /** strcpy: the characters of s and a NUL. */
  method StrCpy(buf: array<char>, at: nat, s: string)
    requires at + |s| < buf.Length
    modifies buf
    ensures buf[..at + |s|] == old(buf[..at]) + s && buf[at + |s|] == NUL
  {
    Write(buf, at, s);
    buf[at + |s|] := NUL;
  }

  /** memcpy of the first n characters of src. */
  method MemCpy(buf: array<char>, at: nat, src: array<char>, n: nat)
    requires at + n <= buf.Length && n <= src.Length && src != buf
    modifies buf
    ensures buf[..at + n] == old(buf[..at]) + src[..n]
  {
    var i := 0;
    while i < n
      invariant i <= n && buf[..at + i] == old(buf[..at]) + src[..i]
    {
      ghost var before := buf[..at + i];
      buf[at + i] := src[i];
      i := i + 1;
      assert buf[..at + i] == before + [src[i - 1]];
    }
  }

  // ----- strings

  /** One character written behind what the buffer holds. */
  method Push(out: array<char>, at: nat, c: char) returns (end: nat)
    requires at < out.Length
    modifies out
    ensures end == at + 1 && out[..end] == old(out[..at]) + [c]
  {
    out[at] := c;
    end := at + 1;
  }

  predicate PlainChar(c: char) {
    c > 31 as char && c != '\"' && c != '\\'
  }

  ghost predicate Plain(s: string) {
    forall i {:trigger s[i]} :: 0 <= i < |s| ==> PlainChar(s[i])
  }

  lemma {:induction false} PlainEscaped(s: string)
    requires Plain(s)
    ensures EscapedAll(s) == s
  {
    if s != [] {
      PlainEscaped(s[1..]);
      assert s == [s[0]] + s[1..];
    }
  }

  /** The first loop of print_string_ptr: whether a character must be escaped. */
  method NeedsEscape(s: string) returns (flag: bool)
    ensures !flag <==> Plain(s)
  {
    flag := false;
    var i := 0;
    while i < |s|
      invariant i <= |s| && (!flag <==> Plain(s[..i]))
    {
      assert s[..i + 1] == s[..i] + [s[i]];
      assert Plain(s[..i + 1]) <==> Plain(s[..i]) && PlainChar(s[i]) by {
        assert s[..i + 1][i] == s[i];
        assert forall j {:trigger s[..i][j]} :: 0 <= j < i ==> s[..i][j] == s[..i + 1][j];
      }
      flag := flag || s[i] < ' ' || s[i] == '\"' || s[i] == '\\';
      i := i + 1;
    }
  }

  /** The second loop: how long the escaped string is. */
  method EscapedLength(s: string) returns (len: nat)
    ensures len == |EscapedAll(s)|
  {
    len := 0;
    var ptr := s;
    while ptr != []
      invariant len + |EscapedAll(ptr)| == |EscapedAll(s)|
      decreases |ptr|
    {
      var token := ptr[0];
      len := len + 1;
      if token == '\"' || token == '\\' || token == 8 as char || token == 12 as char || token == '\n' || token == '\r' || token == '\t' {
        len := len + 1;
      } else if token < ' ' {
        len := len + 5;
      }
      ptr := ptr[1..];
    }
  }

  /** One turn of the third loop: a character, or a backslash and what the switch writes; sprintf ends with a NUL. */
  method WriteEscape(c: char, out: array<char>, at: nat) returns (end: nat)
    requires at + |Escaped(c)| < out.Length
    modifies out
    ensures end == at + |Escaped(c)| && out[..end] == old(out[..at]) + Escaped(c)
  {
    if c > 31 as char && c != '\"' && c != '\\' {
      end := Push(out, at, c);
      return;
    }
    end := Push(out, at, '\\');
    if c == '\\' {
      end := Push(out, end, '\\');
    } else if c == '\"' {
      end := Push(out, end, '\"');
    } else if c == 8 as char {
      end := Push(out, end, 'b');
    } else if c == 12 as char {
      end := Push(out, end, 'f');
    } else if c == '\n' {
      end := Push(out, end, 'n');
    } else if c == '\r' {
      end := Push(out, end, 'r');
    } else if c == '\t' {
      end := Push(out, end, 't');
    } else {
      end := SprintfHex(c, out, end);
    }
  }

  /** sprintf of "u%04x" for a character below 32. */
  method SprintfHex(c: char, out: array<char>, at: nat) returns (end: nat)
    requires c < ' ' && at + 5 < out.Length
    modifies out
    ensures end == at + 5 && out[..end] == old(out[..at]) + ['u', '0', '0', HexDigit(c as nat / 16), HexDigit(c as nat % 16)]
  {
    Write(out, at, ['u', '0', '0', HexDigit(c as nat / 16), HexDigit(c as nat % 16)]);
    end := at + 5;
    out[end] := NUL;
  }

  /** The third loop: the escaped string behind what the buffer holds so far. */
  method WriteEscaped(s: string, out: array<char>, at: nat) returns (end: nat)
    requires at + |EscapedAll(s)| < out.Length
    modifies out
    ensures end == at + |EscapedAll(s)| && out[..end] == old(out[..at]) + EscapedAll(s)
  {
    var ptr := s;
    end := at;
    assert out[..at] + EscapedAll(s) == old(out[..at]) + EscapedAll(s);
    while ptr != []
      invariant end + |EscapedAll(ptr)| == at + |EscapedAll(s)|
      invariant out[..end] + EscapedAll(ptr) == old(out[..at]) + EscapedAll(s)
      decreases |ptr|
    {
      ghost var sofar := out[..end];
      end := WriteEscape(ptr[0], out, end);
      Assoc(sofar, Escaped(ptr[0]), EscapedAll(ptr[1..]));
      ptr := ptr[1..];
    }
    assert out[..end] + [] == out[..end];
  }

  /** What print_string_ptr writes once it has its buffer: quotes, the string, a NUL. */
  method WriteQuoted(s: string, flag: bool, out: array<char>, at: nat)
    requires at + |Quoted(s)| < out.Length && (!flag ==> Plain(s))
    modifies out
    ensures Printed(out[..], old(out[..at]), Quoted(s))
  {
    ghost var pre := out[..at];
    out[at] := '\"';
    assert out[..at + 1] == pre + ['\"'];
    var end := at + 1 + |s|;
    if flag {
      end := WriteEscaped(s, out, at + 1);
    } else {
      PlainEscaped(s);
      StrCpy(out, at + 1, s);
    }
    ghost var inside := out[..end];
    out[end] := '\"';
    assert out[..end + 1] == inside + ['\"'];
    Assoc(pre, ['\"'], EscapedAll(s));
    Assoc(pre, ['\"'] + EscapedAll(s), ['\"']);
    out[end + 1] := NUL;
    assert out[..][..at + |Quoted(s)|] == out[..end + 1];
  }

  /** print_string_ptr without a print buffer: it allocates len + 3 characters. */
  method PrintString(s: string) returns (out: array<char>)
    requires NulFree(s)
    ensures fresh(out) && Printed(out[..], [], Quoted(s))
  {
    var flag := NeedsEscape(s);
    var len := |s|;
    if flag {
      len := EscapedLength(s);
    } else {
      PlainEscaped(s);
    }
    out := new char[len + 3];
    WriteQuoted(s, flag, out, 0);
    assert out[..0] == [];
  }

  // ----- values

  /** A string literal with its NUL in a buffer of n characters. */
  method Literal(s: string, n: nat) returns (out: array<char>)
    requires |s| < n
    ensures fresh(out) && Printed(out[..], [], s)
  {
    out := new char[n];
    Write(out, 0, s);
    out[|s|] := NUL;
    assert out[..][..|s|] == out[..0 + |s|] == [] + s;
  }

  function Power10(k: nat): nat {
    if k == 0 then 1 else 10 * Power10(k - 1)
  }

  /** A number below 10^k has at most k digits. */
  lemma {:induction false} DigitsBound(n: nat, k: nat)
    requires 0 < k && n < Power10(k)
    ensures |Digits(n)| <= k
  {
    if n >= 10 {
      assert k > 1 && Power10(k) == 10 * Power10(k - 1);
      DigitsBound(n / 10, k - 1);
    }
  }

  /** print_number of a 32-bit integer. */
  method PrintNumber(n: int) returns (out: array<char>)
    requires -INT_MAX - 1 <= n <= INT_MAX
    ensures fresh(out) && Printed(out[..], [], IntText(n))
  {
    if n == 0 {
      out := Literal("0", 2);
    } else {
      assert Power10(10) == 10_000_000_000;
      DigitsBound(if n < 0 then -n else n, 10);
      out := Literal(IntText(n), 21);
    }
  }

  /** The memory that print_array adds up for the items of es. */
  ghost function Budget(es: Elems, depth: nat, fmt: bool): nat {
    if es == Nil then 0 else |Text(es.head, depth, fmt)| + 2 + (if fmt then 1 else 0) + Budget(es.tail, depth, fmt)
  }

  lemma {:induction false} BudgetEnough(es: Elems, depth: nat, fmt: bool)
    ensures |ElemsText(es, depth, fmt)| <= Budget(es, depth, fmt)
  {
    if es.Cons? { BudgetEnough(es.tail, depth, fmt); }
  }

  /** The texts of the items. */
  ghost function Texts(es: Elems, depth: nat, fmt: bool): seq<string> {
    if es == Nil then [] else [Text(es.head, depth, fmt)] + Texts(es.tail, depth, fmt)
  }

  ghost predicate Holds(a: array<char>, s: string)
    reads a
  {
    Printed(a[..], [], s) && NulFree(s)
  }

  ghost predicate Entries(entries: seq<array<char>>, texts: seq<string>)
    reads entries
  {
    |entries| == |texts| && forall j {:trigger Holds(entries[j], texts[j])} :: 0 <= j < |entries| ==> Holds(entries[j], texts[j])
  }

  /** An entry copied behind what the buffer holds. */
  method Copy(out: array<char>, at: nat, entry: array<char>, ghost s: string) returns (end: nat)
    requires Holds(entry, s) && entry != out && at + |s| <= out.Length
    modifies out
    ensures end == at + |s| && out[..end] == old(out[..at]) + s
  {
    var n := StrLen(entry, 0, [], s);
    MemCpy(out, at, entry, n);
    assert entry[..][..|s|] == [] + s;
    end := at + n;
  }

  lemma ElemsStep(es: Elems, depth: nat, fmt: bool)
    requires es.Cons?
    ensures var h, t := Text(es.head, depth, fmt), ElemsText(es.tail, depth, fmt);
      ElemsText(es, depth, fmt) == h + if es.tail.Cons? then [','] + (If(fmt, [' ']) + t) else t
  {
    var h, t, sp := Text(es.head, depth, fmt), ElemsText(es.tail, depth, fmt), If(fmt, [' ']);
    if es.tail.Cons? {
      Assoc(h + [','], sp, t);
      Assoc(h, [','], sp + t);
    } else {
      assert h + t == h;
    }
  }

  lemma Suffix(q: seq<string>, i: nat)
    requires i < |q|
    ensures q[i..] == [q[i]] + q[i + 1..] && q[i..][1..] == q[i + 1..]
  {
  }

  /** A comma, and a space when formatted. */
  method Separate(out: array<char>, at: nat, fmt: bool, ghost tail: string) returns (end: nat)
    requires at + 2 < out.Length
    modifies out
    ensures end == at + |[','] + If(fmt, [' '])| && out[..end] + tail == old(out[..at]) + ([','] + (If(fmt, [' ']) + tail))
  {
    ghost var sofar := out[..at];
    end := Push(out, at, ',');
    if fmt {
      end := Push(out, end, ' ');
    }
    assert out[..end] == sofar + ([','] + If(fmt, [' ']));
    out[end] := NUL;
  }

  /** An entry of an array, and what separates it from the next one. */
  method AddEntry(out: array<char>, at: nat, entry: array<char>, more: bool, fmt: bool, ghost s: string, ghost tail: string) returns (end: nat)
    requires Holds(entry, s) && entry != out && at + |s| + (if more then 3 else 0) <= out.Length
    modifies out
    ensures end <= out.Length
    ensures out[..end] + tail == old(out[..at]) + (s + if more then [','] + (If(fmt, [' ']) + tail) else tail)
  {
    ghost var sofar := out[..at];
    end := Copy(out, at, entry, s);
    if more {
      end := Separate(out, end, fmt, tail);
      Assoc(sofar, s, [','] + (If(fmt, [' ']) + tail));
    } else {
      Assoc(sofar, s, tail);
    }
  }

  /** The loop of print_array that joins the entries. */
  method JoinEntries(out: array<char>, at: nat, items: Elems, depth: nat, fmt: bool, entries: seq<array<char>>) returns (ptr: nat)
    requires Entries(entries, Texts(items, depth, fmt)) && out !in entries && at + |ElemsText(items, depth, fmt)| + 3 <= out.Length
    modifies out
    ensures ptr == at + |ElemsText(items, depth, fmt)| && out[..ptr] == old(out[..at]) + ElemsText(items, depth, fmt)
  {
    ghost var texts, whole := Texts(items, depth, fmt), out[..at] + ElemsText(items, depth, fmt);
    ptr := at;
    var child, i := items, 0;
    while child.Cons?
      invariant ptr <= out.Length && out[..ptr] + ElemsText(child, depth, fmt) == whole
      invariant i <= |texts| && texts[i..] == Texts(child, depth, fmt) && Entries(entries, texts)
      decreases child
    {
      Suffix(texts, i);
      assert Holds(entries[i], texts[i]) && entries[i] in entries;
      ElemsStep(child, depth, fmt);
      ptr := AddEntry(out, ptr, entries[i], child.tail.Cons?, fmt, texts[i], ElemsText(child.tail, depth, fmt));
      child, i := child.tail, i + 1;
    }
    assert out[..ptr] + [] == out[..ptr];
  }

  /** The second half of print_array: the entries in a buffer of len characters. */
  method ComposeArray(items: Elems, depth: nat, fmt: bool, len: nat, entries: seq<array<char>>) returns (out: array<char>)
    requires items.Cons? && len == 5 + Budget(items, depth + 1, fmt)
    requires Entries(entries, Texts(items, depth + 1, fmt))
    ensures fresh(out) && Printed(out[..], [], Text(Array(items), depth, fmt))
  {
    BudgetEnough(items, depth + 1, fmt);
    out := new char[len];
    var ptr: nat := Push(out, 0, '[');
    out[ptr] := NUL;
    ptr := JoinEntries(out, ptr, items, depth + 1, fmt, entries);
    ptr := Push(out, ptr, ']');
    out[ptr] := NUL;
    assert out[..][..|Text(Array(items), depth, fmt)|] == out[..ptr] == [] + Text(Array(items), depth, fmt);
  }

  // ----- objects

  /** A loop that writes n tabs. */
  method PushTabs(out: array<char>, at: nat, n: nat) returns (end: nat)
    requires at + n <= out.Length
    modifies out
    ensures end == at + n && out[..end] == old(out[..at]) + Tabs(n)
  {
    var j := 0;
    end := at;
    assert out[..at] == old(out[..at]) + Tabs(0);
    while j < n
      invariant j <= n && end == at + j && out[..end] == old(out[..at]) + Tabs(j)
    {
      ghost var sofar := out[..end];
      end := Push(out, end, '\t');
      j := j + 1;
      assert Tabs(j) == Tabs(j - 1) + ['\t'];
      Assoc(old(out[..at]), Tabs(j - 1), ['\t']);
    }
  }

  /** The text of a member with name q and value v. */
  function MemberText(q: string, v: string, depth: nat, fmt: bool, more: bool): string {
    If(fmt, Tabs(depth)) + q + [':'] + If(fmt, ['\t']) + v + If(more, [',']) + If(fmt, ['\n'])
  }

  lemma MembersStep(ms: Members, depth: nat, fmt: bool)
    requires ms.Member?
    ensures MembersText(ms, depth, fmt) ==
      MemberText(Quoted(ms.name), Text(ms.value, depth, fmt), depth, fmt, ms.tail.Member?) + MembersText(ms.tail, depth, fmt)
  {
  }

  ghost function Names(ms: Members): seq<string> {
    if ms == None then [] else [Quoted(ms.name)] + Names(ms.tail)
  }

  ghost function Values(ms: Members, depth: nat, fmt: bool): seq<string> {
    if ms == None then [] else [Text(ms.value, depth, fmt)] + Values(ms.tail, depth, fmt)
  }

  lemma {:induction false} SameCount(ms: Members, depth: nat, fmt: bool)
    ensures |Names(ms)| == |Values(ms, depth, fmt)|
  {
    if ms.Member? { SameCount(ms.tail, depth, fmt); }
  }

  /** The memory that print_object adds up for the members of ms. */
  ghost function MembersBudget(ms: Members, depth: nat, fmt: bool): nat {
    if ms == None then 0
    else |Quoted(ms.name)| + |Text(ms.value, depth, fmt)| + 2 + (if fmt then 2 + depth else 0) + MembersBudget(ms.tail, depth, fmt)
  }

  lemma {:induction false} MembersBudgetEnough(ms: Members, depth: nat, fmt: bool)
    ensures |MembersText(ms, depth, fmt)| <= MembersBudget(ms, depth, fmt)
  {
    if ms.Member? {
      MembersBudgetEnough(ms.tail, depth, fmt);
      MembersStep(ms, depth, fmt);
    }
  }

  /** A character written if b. */
  method PushIf(out: array<char>, at: nat, b: bool, c: char) returns (end: nat)
    requires b ==> at < out.Length
    modifies out
    ensures end == at + |If(b, [c])| && (at <= out.Length ==> end <= out.Length && out[..end] == old(out[..at]) + If(b, [c]))
  {
    end := at;
    if b {
      end := Push(out, at, c);
    }
  }

  /** A member of an object: tabs, the name, a colon, the value, and what separates it from the next one. */
  method AddMember(out: array<char>, at: nat, name: array<char>, value: array<char>, depth: nat, fmt: bool, more: bool, ghost q: string, ghost v: string)
    returns (end: nat)
    requires Holds(name, q) && Holds(value, v) && name != out && value != out
    requires at + |MemberText(q, v, depth, fmt, more)| < out.Length
    modifies out
    ensures end == at + |MemberText(q, v, depth, fmt, more)| && out[..end] == old(out[..at]) + MemberText(q, v, depth, fmt, more)
  {
    ghost var sofar, tabs := out[..at], If(fmt, Tabs(depth));
    end := at;
    if fmt {
      end := PushTabs(out, at, depth);
    }
    assert out[..end] == sofar + tabs;
    end := Copy(out, end, name, q);
    end := Push(out, end, ':');
    end := PushIf(out, end, fmt, '\t');
    end := Copy(out, end, value, v);
    out[end] := NUL;
    end := PushIf(out, end, more, ',');
    end := PushIf(out, end, fmt, '\n');
    MemberTextAssoc(sofar, tabs, q, If(fmt, ['\t']), v, If(more, [',']), If(fmt, ['\n']));
    out[end] := NUL;
  }

  lemma MemberTextAssoc(s: string, w: string, q: string, tab: string, v: string, comma: string, nl: string)
    ensures s + w + q + [':'] + tab + v + comma + nl == s + (w + q + [':'] + tab + v + comma + nl)
  {
    Assoc(s, w, q);
    Assoc(s, w + q, [':']);
    Assoc(s, w + q + [':'], tab);
    Assoc(s, w + q + [':'] + tab, v);
    Assoc(s, w + q + [':'] + tab + v, comma);
    Assoc(s, w + q + [':'] + tab + v + comma, nl);
  }

  /** One turn of the loop of print_object. */
  method AddNext(out: array<char>, at: nat, child: Members, depth: nat, fmt: bool, names: seq<array<char>>, values: seq<array<char>>, i: nat, ghost qs: seq<string>, ghost vs: seq<string>)
    returns (end: nat)
    requires Entries(names, qs) && Entries(values, vs) && out !in names && out !in values && i < |qs| == |vs|
    requires child.Member? && qs[i] == Quoted(child.name) && vs[i] == Text(child.value, depth, fmt)
    requires at + |MembersText(child, depth, fmt)| < out.Length
    modifies out
    ensures Entries(names, qs) && Entries(values, vs)
    ensures end <= out.Length && out[..end] + MembersText(child.tail, depth, fmt) == old(out[..at]) + MembersText(child, depth, fmt)
  {
    ghost var sofar := out[..at];
    assert Holds(names[i], qs[i]) && names[i] in names && Holds(values[i], vs[i]) && values[i] in values;
    MembersStep(child, depth, fmt);
    end := AddMember(out, at, names[i], values[i], depth, fmt, child.tail.Member?, qs[i], vs[i]);
    Assoc(sofar, MemberText(qs[i], vs[i], depth, fmt, child.tail.Member?), MembersText(child.tail, depth, fmt));
  }

  /** The loop of print_object that joins the members. */
  method JoinMembers(out: array<char>, at: nat, members: Members, depth: nat, fmt: bool, names: seq<array<char>>, values: seq<array<char>>)
    returns (ptr: nat)
    requires Entries(names, Names(members)) && Entries(values, Values(members, depth, fmt)) && out !in names && out !in values
    requires at + |MembersText(members, depth, fmt)| + 1 < out.Length
    modifies out
    ensures ptr == at + |MembersText(members, depth, fmt)| && out[..ptr] == old(out[..at]) + MembersText(members, depth, fmt)
  {
    ghost var qs, vs, whole := Names(members), Values(members, depth, fmt), out[..at] + MembersText(members, depth, fmt);
    ptr := at;
    SameCount(members, depth, fmt);
    var child, i := members, 0;
    while child.Member?
      invariant ptr <= out.Length && out[..ptr] + MembersText(child, depth, fmt) == whole
      invariant i <= |qs| == |vs| && qs[i..] == Names(child) && vs[i..] == Values(child, depth, fmt)
      invariant Entries(names, qs) && Entries(values, vs)
      decreases child
    {
      Suffix(qs, i);
      Suffix(vs, i);
      ptr := AddNext(out, ptr, child, depth, fmt, names, values, i, qs, vs);
      child, i := child.tail, i + 1;
    }
    assert out[..ptr] + [] == out[..ptr];
  }

  /** The second half of print_object: the members in a buffer of len characters. */
  method ComposeObject(members: Members, depth: nat, fmt: bool, len: nat, names: seq<array<char>>, values: seq<array<char>>) returns (out: array<char>)
    requires members.Member? && len == 7 + (if fmt then depth + 1 else 0) + MembersBudget(members, depth + 1, fmt)
    requires Entries(names, Names(members)) && Entries(values, Values(members, depth + 1, fmt))
    ensures fresh(out) && Printed(out[..], [], Text(Object(members), depth, fmt))
  {
    ghost var whole := Text(Object(members), depth, fmt);
    MembersBudgetEnough(members, depth + 1, fmt);
    out := new char[len];
    var ptr: nat := Push(out, 0, '{');
    ptr := PushIf(out, ptr, fmt, '\n');
    out[ptr] := NUL;
    assert out[..ptr] == ['{'] + If(fmt, ['\n']);
    ptr := JoinMembers(out, ptr, members, depth + 1, fmt, names, values);
    ptr := CloseBrace(out, ptr, depth, fmt);
    assert out[..][..|whole|] == out[..ptr] == [] + whole;
  }

  /** The tabs, the closing brace and a NUL. */
  method CloseBrace(out: array<char>, at: nat, depth: nat, fmt: bool) returns (end: nat)
    requires at + |If(fmt, Tabs(depth))| + 1 < out.Length
    modifies out
    ensures end == at + |If(fmt, Tabs(depth))| + 1 < out.Length && out[..end] == old(out[..at]) + If(fmt, Tabs(depth)) + ['}'] && out[end] == NUL
  {
    ghost var sofar := out[..at];
    end := at;
    if fmt {
      end := PushTabs(out, at, depth);
    }
    assert out[..end] == sofar + If(fmt, Tabs(depth));
    end := Push(out, end, '}');
    out[end] := NUL;
  }

  /** print_object of an object without members. */
  method PrintEmptyObject(depth: nat, fmt: bool) returns (out: array<char>)
    ensures fresh(out) && Printed(out[..], [], Text(Object(None), depth, fmt))
  {
    out := new char[if fmt then depth + 4 else 3];
    var ptr: nat := Push(out, 0, '{');
    if fmt {
      ptr := Push(out, ptr, '\n');
      ptr := PushTabs(out, ptr, if depth == 0 then 0 else depth - 1);
    }
    ptr := Push(out, ptr, '}');
    out[ptr] := NUL;
    assert out[..][..|Text(Object(None), depth, fmt)|] == out[..ptr] == [] + Text(Object(None), depth, fmt);
  }

  // ----- print_value

  /** print_value without a print buffer. */
  method PrintValue(v: Value, depth: nat, fmt: bool) returns (out: array<char>)
    requires Printable(v)
    ensures fresh(out) && Holds(out, Text(v, depth, fmt))
    decreases v, 1
  {
    TextNulFree(v, depth, fmt);
    match v {
      case Null => out := Literal("null", 5);
      case False => out := Literal("false", 6);
      case True => out := Literal("true", 5);
      case Number(n, _) => out := PrintNumber(n);
      case Str(s) => out := PrintString(s);
      case Array(items) => out := PrintArray(items, depth, fmt);
      case Object(members) => out := PrintObject(members, depth, fmt);
    }
  }

  /** print_array without a print buffer: each entry printed, their lengths added up, and the whole composed. */
  method PrintArray(items: Elems, depth: nat, fmt: bool) returns (out: array<char>)
    requires PrintableElems(items)
    ensures fresh(out) && Printed(out[..], [], Text(Array(items), depth, fmt))
    decreases items, 1
  {
    if items == Nil {
      out := Literal("[]", 3);
      assert Text(Array(items), depth, fmt) == "[]";
      return;
    }
    var entries: seq<array<char>> := [];
    ghost var texts: seq<string> := [];
    var len := 5;
    var child := items;
    assert [] + Texts(items, depth + 1, fmt) == Texts(items, depth + 1, fmt);
    while child.Cons?
      invariant (child == items || child < items) && PrintableElems(child)
      invariant Texts(items, depth + 1, fmt) == texts + Texts(child, depth + 1, fmt) && Entries(entries, texts)
      invariant len + Budget(child, depth + 1, fmt) == 5 + Budget(items, depth + 1, fmt)
      decreases child
    {
      ghost var s := Text(child.head, depth + 1, fmt);
      var ret := PrintValue(child.head, depth + 1, fmt);
      var n := StrLen(ret, 0, [], s);
      Append(entries, texts, ret, s);
      Rest(texts, s, Texts(child.tail, depth + 1, fmt));
      entries, texts := entries + [ret], texts + [s];
      len := len + n + 2 + if fmt then 1 else 0;
      child := child.tail;
    }
    assert texts + [] == texts;
    out := ComposeArray(items, depth, fmt, len, entries);
  }

  lemma Append(entries: seq<array<char>>, texts: seq<string>, a: array<char>, s: string)
    requires Entries(entries, texts) && Holds(a, s)
    ensures Entries(entries + [a], texts + [s])
  {
    var es, ts := entries + [a], texts + [s];
    forall j | 0 <= j < |es| ensures Holds(es[j], ts[j]) {
      if j < |entries| { assert Holds(entries[j], texts[j]); }
    }
  }

  lemma Rest(texts: seq<string>, s: string, more: seq<string>)
    ensures texts + ([s] + more) == texts + [s] + more
  {
  }

  /** The name and the value of a member printed, and the length of both texts. */
  method PrintMember(name: string, value: Value, depth: nat, fmt: bool) returns (str: array<char>, ret: array<char>, n: nat)
    requires NulFree(name) && Printable(value)
    ensures fresh(str) && fresh(ret) && Holds(str, Quoted(name)) && Holds(ret, Text(value, depth, fmt)) && n == |Quoted(name)| + |Text(value, depth, fmt)|
    decreases value, 2
  {
    QuotedNulFree(name);
    str := PrintString(name);
    ret := PrintValue(value, depth, fmt);
    var l := StrLen(ret, 0, [], Text(value, depth, fmt));
    var m := StrLen(str, 0, [], Quoted(name));
    n := l + m;
  }

  /** print_object without a print buffer. */
  method PrintObject(members: Members, depth: nat, fmt: bool) returns (out: array<char>)
    requires PrintableMembers(members)
    ensures fresh(out) && Printed(out[..], [], Text(Object(members), depth, fmt))
    decreases members, 1
  {
    if members == None {
      out := PrintEmptyObject(depth, fmt);
      return;
    }
    var names: seq<array<char>>, values: seq<array<char>> := [], [];
    ghost var qs: seq<string>, vs: seq<string> := [], [];
    var len := 7 + if fmt then depth + 1 else 0;
    var child := members;
    assert [] + Names(members) == Names(members) && [] + Values(members, depth + 1, fmt) == Values(members, depth + 1, fmt);
    while child.Member?
      invariant (child == members || child < members) && PrintableMembers(child)
      invariant Names(members) == qs + Names(child) && Values(members, depth + 1, fmt) == vs + Values(child, depth + 1, fmt)
      invariant Entries(names, qs) && Entries(values, vs)
      invariant len + MembersBudget(child, depth + 1, fmt) == 7 + (if fmt then depth + 1 else 0) + MembersBudget(members, depth + 1, fmt)
      decreases child
    {
      ghost var q, v := Quoted(child.name), Text(child.value, depth + 1, fmt);
      var str, ret, n := PrintMember(child.name, child.value, depth + 1, fmt);
      Append(names, qs, str, q);
      Rest(qs, q, Names(child.tail));
      names, qs := names + [str], qs + [q];
      Append(values, vs, ret, v);
      Rest(vs, v, Values(child.tail, depth + 1, fmt));
      values, vs := values + [ret], vs + [v];
      len := len + n + 2 + if fmt then 2 + depth + 1 else 0;
      child := child.tail;
    }
    assert qs + [] == qs && vs + [] == vs;
    out := ComposeObject(members, depth, fmt, len, names, values);
  }

  /** cJSON_Print and cJSON_PrintUnformatted. */
  method Print(v: Value, fmt: bool) returns (out: array<char>)
    requires Printable(v)
    ensures fresh(out) && Holds(out, Text(v, 0, fmt))
  {
    out := PrintValue(v, 0, fmt);
  }
}
