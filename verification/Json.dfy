/**
 JSON values and their texts, as packages/cJSON-latest/cJSON.c prints them: section 2 to 7 of RFC 8259.
 A text is a NUL-terminated C string, that is the string without its terminator; a pointer into it is
 the rest of the text from there on.
 */
module Json {

  /** A number is n * 10^e.  The children of an array or object form a chain, as their `next` pointers do. */
  datatype Value = Null | False | True | Number(n: int, e: int) | Str(s: string) | Array(items: Elems) | Object(members: Members)
  datatype Elems = Nil | Cons(head: Value, tail: Elems)
  datatype Members = None | Member(name: string, value: Value, tail: Members)

  const NUL := '\0'
  const INT_MAX := 0x7FFF_FFFF

  /** The character at a pointer. */
  function Ch(t: string): char {
    if t == [] then NUL else t[0]
  }

  /** The pointer n characters on. */
  function Drop(t: string, n: nat): (r: string)
    ensures |r| <= |t|
  {
    if n <= |t| then t[n..] else []
  }

  ghost predicate NulFree(s: string) {
    forall i {:trigger s[i]} :: 0 <= i < |s| ==> s[i] != NUL
  }

  /** Trees of null, booleans, 32-bit integers, NUL-free strings, arrays and objects. */
  ghost predicate Printable(v: Value) {
    match v
    case Number(n, e) => e == 0 && -INT_MAX - 1 <= n <= INT_MAX
    case Str(s) => NulFree(s)
    case Array(items) => PrintableElems(items)
    case Object(members) => PrintableMembers(members)
    case _ => true
  }

  ghost predicate PrintableElems(es: Elems) {
    es.Cons? ==> Printable(es.head) && PrintableElems(es.tail)
  }

  ghost predicate PrintableMembers(ms: Members) {
    ms.Member? ==> NulFree(ms.name) && Printable(ms.value) && PrintableMembers(ms.tail)
  }

  // ----- the text of a value

  function Digit(d: nat): char
    requires d < 10
  {
    '0' + d as char
  }

  function Digits(n: nat): string {
    if n < 10 then [Digit(n)] else Digits(n / 10) + [Digit(n % 10)]
  }

  /** What sprintf makes of "%d". */
  function IntText(n: int): string {
    if n < 0 then ['-'] + Digits(-n) else Digits(n)
  }

  function HexDigit(d: nat): char
    requires d < 16
  {
    if d < 10 then '0' + d as char else 'a' + (d - 10) as char
  }

  /** One character of a string, escaped if it must be. */
  function Escaped(c: char): string {
    if c > 31 as char && c != '\"' && c != '\\' then [c]
    else if c == '\\' then "\\\\"
    else if c == '\"' then "\\\""
    else if c == 8 as char then "\\b"
    else if c == 12 as char then "\\f"
    else if c == '\n' then "\\n"
    else if c == '\r' then "\\r"
    else if c == '\t' then "\\t"
    else ['\\', 'u', '0', '0', HexDigit(c as nat / 16), HexDigit(c as nat % 16)]
  }

  function EscapedAll(s: string): string {
    if s == [] then [] else Escaped(s[0]) + EscapedAll(s[1..])
  }

  function Quoted(s: string): string {
    ['\"'] + EscapedAll(s) + ['\"']
  }

  function Tabs(n: nat): (t: string)
    ensures |t| == n && forall i {:trigger t[i]} :: 0 <= i < n ==> t[i] == '\t'
  {
    seq(n, i => '\t')
  }

  function If(b: bool, t: string): string {
    if b then t else []
  }

  /** The text of v at the given depth, formatted or not. */
  function Text(v: Value, depth: nat, fmt: bool): string {
    match v
    case Null => "null"
    case False => "false"
    case True => "true"
    case Number(n, _) => IntText(n)
    case Str(s) => Quoted(s)
    case Array(items) => ['['] + ElemsText(items, depth + 1, fmt) + [']']
    case Object(None) => if fmt then ['{', '\n'] + Tabs(if depth == 0 then 0 else depth - 1) + ['}'] else ['{', '}']
    case Object(members) => ['{'] + If(fmt, ['\n']) + MembersText(members, depth + 1, fmt) + If(fmt, Tabs(depth)) + ['}']
  }

  function ElemsText(es: Elems, depth: nat, fmt: bool): string {
    match es
    case Nil => []
    case Cons(head, Nil) => Text(head, depth, fmt)
    case Cons(head, tail) => Text(head, depth, fmt) + [','] + If(fmt, [' ']) + ElemsText(tail, depth, fmt)
  }

  function MembersText(ms: Members, depth: nat, fmt: bool): string {
    match ms
    case None => []
    case Member(name, value, tail) =>
      If(fmt, Tabs(depth)) + Quoted(name) + [':'] + If(fmt, ['\t']) + Text(value, depth, fmt)
        + If(tail.Member?, [',']) + If(fmt, ['\n']) + MembersText(tail, depth, fmt)
  }

  lemma Assoc(a: string, b: string, c: string)
    ensures a + b + c == a + (b + c)
  {
  }
}
