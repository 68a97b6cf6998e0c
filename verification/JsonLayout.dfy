/**
 The white space of a formatted text, packages/cJSON-latest/cJSON.c:433-659: it is the unformatted text laid
 out by a single pass that looks at one character at a time and keeps count of the open brackets.
 */
module JsonLayout {
  import opened Json
  import opened JsonRoundTrip
  import opened JsonMinify

  /** Whether the innermost open bracket is a brace. */
  predicate InObject(open: seq<bool>) {
    open != [] && open[|open|-1]
  }

  function Pop(open: seq<bool>): seq<bool> {
    if open == [] then [] else open[..|open|-1]
  }

  /** A new line, indented. */
  function Newline(depth: int): string {
    ['\n'] + Tabs(if depth < 0 then 0 else depth)
  }

  /**
   A text without white space, laid out; `open` are the open brackets, true for a brace.  A member stands on a
   line of its own, with a tab for every bracket open around it and a tab behind its colon; a closing brace stands
   on a line of its own, with a tab less, and that of an empty object with two less; the items of an array are
   separated by a comma and a space.
   */
  function Laid(t: string, open: seq<bool>): string
    decreases |t|
  {
    if t == [] then []
    else
      var c, r, depth := t[0], t[1..], |open|;
      if c == '\"' then
        var q := Copied(r);
        ['\"'] + (q.0 + if q.1 == [] then [] else [q.1[0]] + Laid(q.1[1..], open))
      else if c == '{' && Ch(r) == '}' then ['{'] + (Newline(depth - 1) + (['}'] + Laid(r[1..], open)))
      else if c == '{' then ['{'] + (Newline(depth + 1) + Laid(r, open + [true]))
      else if c == '}' then Newline(depth - 1) + (['}'] + Laid(r, Pop(open)))
      else if c == '[' then ['['] + Laid(r, open + [false])
      else if c == ']' then [']'] + Laid(r, Pop(open))
      else if c == ',' then [','] + ((if InObject(open) then Newline(depth) else [' ']) + Laid(r, open))
      else if c == ':' then [':', '\t'] + Laid(r, open)
      else [c] + Laid(r, open)
  }

  predicate IsMark(c: char) {
    c in "\"{}[],:"
  }

  lemma {:induction false} LaidPlain(w: string, t: string, open: seq<bool>)
    requires forall i {:trigger w[i]} :: 0 <= i < |w| ==> !IsMark(w[i])
    ensures Laid(w + t, open) == w + Laid(t, open)
  {
    if w == [] {
      assert w + t == t && w + Laid(t, open) == Laid(t, open);
    } else {
      LaidPlain(w[1..], t, open);
      First(w[0], w[1..] + t);
      assert !IsMark(w[0]);
      assert w + t == [w[0]] + (w[1..] + t) && w + Laid(t, open) == [w[0]] + (w[1..] + Laid(t, open));
    }
  }

  lemma LaidQuoted(s: string, t: string, open: seq<bool>)
    requires NulFree(s)
    ensures Laid(PutQuoted(s, t), open) == PutQuoted(s, Laid(t, open))
  {
    var u := PutEscaped(s, ['\"'] + t);
    First('\"', u);
    First('\"', t);
    CopiedAll(s, t);
    PutEscapedText(s, ['\"'] + Laid(t, open));
  }

  lemma PushPop(open: seq<bool>, b: bool)
    ensures Pop(open + [b]) == open && InObject(open + [b]) == b
  {
  }

  /** An item with what follows it: the layout of the unformatted text is the formatted text with the layout of what follows. */
  lemma {:induction false} LaidValue(v: Value, t: string, open: seq<bool>)
    requires Printable(v)
    ensures Laid(Put(v, |open|, false, t), open) == Put(v, |open|, true, Laid(t, open))
    decreases v, 2
  {
    match v
    case Null => LaidPlain("null", t, open);
    case False => LaidPlain("false", t, open);
    case True => LaidPlain("true", t, open);
    case Number(n, _) =>
      DigitsMin(if n < 0 then -n else n);
      LaidPlain(IntText(n), t, open);
    case Str(s) => LaidQuoted(s, t, open);
    case Array(items) => LaidArray(items, t, open);
    case Object(members) => if members == None { LaidEmpty(t, open); } else { LaidObject(members, t, open); }
  }

  lemma LaidArray(items: Elems, t: string, open: seq<bool>)
    requires PrintableElems(items)
    ensures Laid(Put(Array(items), |open|, false, t), open) == Put(Array(items), |open|, true, Laid(t, open))
    decreases items, 2
  {
    var in1, end := open + [false], [']'] + t;
    PushPop(open, false);
    First(']', t);
    First('[', PutElems(items, |open| + 1, false, end));
    LaidElems(items, end, in1);
  }

  lemma {:induction false} LaidElems(es: Elems, t: string, open: seq<bool>)
    requires PrintableElems(es) && !InObject(open)
    ensures Laid(PutElems(es, |open|, false, t), open) == PutElems(es, |open|, true, Laid(t, open))
    decreases es, 1
  {
    match es
    case Nil =>
    case Cons(head, Nil) => LaidValue(head, t, open);
    case Cons(head, tail) =>
      var rest := PutElems(tail, |open|, false, t);
      NoPrefix(rest);
      LaidElems(tail, t, open);
      LaidComma(rest, open);
      LaidValue(head, [','] + rest, open);
  }

  lemma LaidComma(t: string, open: seq<bool>)
    ensures Laid([','] + t, open) == [','] + ((if InObject(open) then Newline(|open|) else [' ']) + Laid(t, open))
  {
    First(',', t);
  }

  lemma LaidClose(t: string, open: seq<bool>)
    ensures Laid(['}'] + t, open) == Newline(|open| - 1) + (['}'] + Laid(t, Pop(open)))
  {
    First('}', t);
  }

  lemma LaidEmpty(t: string, open: seq<bool>)
    ensures Laid(Put(Object(None), |open|, false, t), open) == Put(Object(None), |open|, true, Laid(t, open))
  {
    var close := ['}'] + t;
    NoPrefix(close);
    First('{', close);
    First('}', t);
    assert EmptyInside(|open|, true) == Newline(|open| - 1);
  }

  lemma LaidOpen(t: string, open: seq<bool>)
    requires Ch(t) != '}'
    ensures Laid(['{'] + t, open) == ['{'] + (Newline(|open| + 1) + Laid(t, open + [true]))
  {
    First('{', t);
  }

  /** The line break and the indentation before the first member belong to the brace in front of it. */
  lemma LaidObject(members: Members, t: string, open: seq<bool>)
    requires PrintableMembers(members) && members.Member?
    ensures Laid(Put(Object(members), |open|, false, t), open) == Put(Object(members), |open|, true, Laid(t, open))
    decreases members, 2
  {
    var in1, end := open + [true], ['}'] + t;
    var body := PutMembers(members, |open| + 1, false, end);
    PlainObject(members, |open|, t, body);
    PushPop(open, true);
    MemberStarts(members, |open| + 1, end);
    LaidOpen(body, open);
    LaidMembers(members, t, in1);
    LineAssoc(|open| + 1, Laid(body, in1));
  }

  lemma MemberStarts(ms: Members, depth: nat, t: string)
    requires ms.Member?
    ensures Ch(PutMembers(ms, depth, false, t)) == '\"'
  {
    NoTabs(depth, PutQuoted(ms.name, [':'] + (If(false, ['\t']) + Put(ms.value, depth, false, PutTail(ms.tail, depth, false, t)))));
  }

  lemma LineAssoc(depth: nat, t: string)
    ensures Newline(depth) + t == ['\n'] + (Tabs(depth) + t)
  {
    Assoc(['\n'], Tabs(depth), t);
  }

  lemma {:induction false} LaidMembers(ms: Members, t: string, open: seq<bool>)
    requires PrintableMembers(ms) && ms.Member? && InObject(open)
    ensures Tabs(|open|) + Laid(PutMembers(ms, |open|, false, ['}'] + t), open)
         == PutMembers(ms, |open|, true, Tabs(|open| - 1) + (['}'] + Laid(t, Pop(open))))
    decreases ms, 1
  {
    var depth, end := |open|, ['}'] + t;
    var after := PutTail(ms.tail, depth, false, end);
    var v := Put(ms.value, depth, false, after);
    NoTabs(depth, PutQuoted(ms.name, [':'] + v));
    NoPrefix(v);
    LaidTail(ms.tail, t, open);
    LaidValue(ms.value, after, open);
    LaidColon(v, open);
    LaidQuoted(ms.name, [':'] + v, open);
  }

  lemma LaidColon(t: string, open: seq<bool>)
    ensures Laid([':'] + t, open) == [':'] + (['\t'] + Laid(t, open))
  {
    First(':', t);
    assert [':', '\t'] + Laid(t, open) == [':'] + (['\t'] + Laid(t, open));
  }

  lemma LaidTail(ms: Members, t: string, open: seq<bool>)
    requires PrintableMembers(ms) && InObject(open)
    ensures Laid(PutTail(ms, |open|, false, ['}'] + t), open) == PutTail(ms, |open|, true, Tabs(|open| - 1) + (['}'] + Laid(t, Pop(open))))
    decreases ms, 2
  {
    var end := ['}'] + t;
    if ms == None {
      NoPrefix(end);
      LaidClose(t, open);
      LineAssoc(|open| - 1, ['}'] + Laid(t, Pop(open)));
    } else {
      var rest := PutMembers(ms, |open|, false, end);
      NoPrefix(rest);
      LaidComma(rest, open);
      LaidMembers(ms, t, open);
      LineAssoc(|open|, Laid(rest, open));
    }
  }

  /** The formatted text of a printable value is its unformatted text, laid out. */
  lemma FormattedLayout(v: Value)
    requires Printable(v)
    ensures Text(v, 0, true) == Laid(Text(v, 0, false), [])
  {
    PutText(v, 0, true, []);
    PutText(v, 0, false, []);
    assert Text(v, 0, true) + [] == Text(v, 0, true) && Text(v, 0, false) + [] == Text(v, 0, false);
    LaidValue(v, [], []);
  }
}
