/**
 The printers of packages/cJSON-latest/cJSON.c that write into a growing buffer: cJSON_PrintBuffered.
 */
module JsonBuffer {
  import opened Json
  import opened JsonRoundTrip
  import opened JsonPrint
  import opened PowerOfTwo

  /** What a value may need beyond its text: the largest request for a number, and for tabs. */
  const SLACK: nat := 64

  class PrintBuffer {
    var buffer: array<char>
    var offset: nat

    constructor (prebuffer: nat)
      ensures fresh(buffer) && buffer.Length == prebuffer && offset == 0
    {
      buffer := new char[prebuffer];
      offset := 0;
    }

    /** ensure: room for `needed` characters at the offset; the buffer grows to a power of two and keeps its contents. */
    method Ensure(needed: nat)
      requires 0 < offset + needed <= MAX_SIZE
      modifies this`buffer
      ensures offset + needed <= buffer.Length && (buffer == old(buffer) || fresh(buffer))
      ensures old(buffer.Length) <= buffer.Length && buffer[..old(buffer.Length)] == old(buffer[..])
    {
      var n := needed + offset;
      if n <= buffer.Length {
        assert buffer[..buffer.Length] == buffer[..];
        return;
      }
      var newbuffer := new char[Pow2gt(n)];
      MemCpy(newbuffer, 0, buffer, buffer.Length);
      assert newbuffer[..buffer.Length] == newbuffer[..0] + buffer[..] == buffer[..];
      buffer := newbuffer;
    }

    /** update: the offset behind the string at the offset. */
    method Update(ghost pre: string, ghost s: string) returns (end: nat)
      requires Printed(buffer[..], pre, s) && NulFree(s) && |pre| <= offset <= |pre| + |s|
      ensures end == |pre| + |s|
    {
      var n := StrLen(buffer, offset, pre, s);
      end := offset + n;
    }

    /** s written at the offset after a request for `needed` characters, and the offset moved behind it. */
    method Emit(s: string, needed: nat, terminate: bool)
      requires offset <= buffer.Length && |s| + (if terminate then 1 else 0) <= needed && 0 < offset + needed <= MAX_SIZE
      modifies this, buffer
      ensures offset == old(offset) + |s| <= buffer.Length && buffer[..offset] == old(buffer[..offset]) + s
      ensures buffer == old(buffer) || fresh(buffer)
    {
      ghost var pre := buffer[..offset];
      Ensure(needed);
      assert buffer[..offset] == pre;
      Write(buffer, offset, s);
      if terminate {
        buffer[offset + |s|] := NUL;
      }
      offset := offset + |s|;
    }

    /** s and a NUL written at the offset, which stays where it is. */
    method Finish(s: string, needed: nat)
      requires offset <= buffer.Length && |s| < needed && offset + needed <= MAX_SIZE
      modifies this, buffer
      ensures offset == old(offset) && Printed(buffer[..], old(buffer[..offset]), s)
      ensures buffer == old(buffer) || fresh(buffer)
    {
      ghost var pre := buffer[..offset];
      Ensure(needed);
      assert buffer[..offset] == pre;
      Write(buffer, offset, s);
      buffer[offset + |s|] := NUL;
      assert buffer[..][..|pre| + |s|] == buffer[..offset + |s|];
    }

    /** print_string_ptr. */
    method PrintString(s: string)
      requires NulFree(s) && offset <= buffer.Length && offset + |Quoted(s)| + 1 <= MAX_SIZE
      modifies this, buffer
      ensures offset == old(offset) && Printed(buffer[..], old(buffer[..offset]), Quoted(s))
      ensures buffer == old(buffer) || fresh(buffer)
    {
      ghost var pre := buffer[..offset];
      var flag := NeedsEscape(s);
      var len := |s|;
      if flag {
        len := EscapedLength(s);
      } else {
        PlainEscaped(s);
      }
      Ensure(len + 3);
      assert buffer[..offset] == pre;
      WriteQuoted(s, flag, buffer, offset);
    }

    /** print_value. */
    method PrintValue(v: Value, depth: nat, fmt: bool)
      requires Printable(v) && offset <= buffer.Length && offset + |Text(v, depth, fmt)| + depth + SLACK <= MAX_SIZE
      modifies this, buffer
      ensures Printed(buffer[..], old(buffer[..offset]), Text(v, depth, fmt))
      ensures old(offset) <= offset <= old(offset) + |Text(v, depth, fmt)| && (buffer == old(buffer) || fresh(buffer))
      decreases v, 1
    {
      match v {
        case Null => Finish("null", 5);
        case False => Finish("false", 6);
        case True => Finish("true", 5);
        case Number(n, _) => PrintNumber(n);
        case Str(s) => PrintString(s);
        case Array(items) => PrintArray(items, depth, fmt);
        case Object(members) => PrintObject(members, depth, fmt);
      }
    }

    /** print_number of a 32-bit integer. */
    method PrintNumber(n: int)
      requires -INT_MAX - 1 <= n <= INT_MAX && offset <= buffer.Length && offset + 21 <= MAX_SIZE
      modifies this, buffer
      ensures offset == old(offset) && Printed(buffer[..], old(buffer[..offset]), IntText(n))
      ensures buffer == old(buffer) || fresh(buffer)
    {
      if n == 0 {
        Finish("0", 2);
      } else {
        assert Power10(10) == 10_000_000_000;
        DigitsBound(if n < 0 then -n else n, 10);
        Finish(IntText(n), 21);
      }
    }

    /** A value printed and the offset moved behind it. */
    method Pass(v: Value, depth: nat, fmt: bool)
      requires Printable(v) && offset <= buffer.Length && offset + |Text(v, depth, fmt)| + depth + SLACK <= MAX_SIZE
      modifies this, buffer
      ensures offset == old(offset) + |Text(v, depth, fmt)| <= buffer.Length
      ensures buffer[..offset] == old(buffer[..offset]) + Text(v, depth, fmt) && (buffer == old(buffer) || fresh(buffer))
      decreases v, 2
    {
      ghost var pre := buffer[..offset];
      TextNulFree(v, depth, fmt);
      PrintValue(v, depth, fmt);
      var end := Update(pre, Text(v, depth, fmt));
      offset := end;
      assert buffer[..offset] == buffer[..][..offset];
    }

    /** print_array. */
    method PrintArray(items: Elems, depth: nat, fmt: bool)
      requires PrintableElems(items) && offset <= buffer.Length && offset + |Text(Array(items), depth, fmt)| + depth + SLACK <= MAX_SIZE
      modifies this, buffer
      ensures Printed(buffer[..], old(buffer[..offset]), Text(Array(items), depth, fmt))
      ensures old(offset) <= offset <= old(offset) + |Text(Array(items), depth, fmt)| && (buffer == old(buffer) || fresh(buffer))
      decreases items, 4
    {
      if items == Nil {
        Finish("[]", 3);
      } else {
        ArrayText(items, depth, fmt);
        PrintItems(items, depth, fmt);
      }
    }

    /** print_array of an array that is not empty. */
    method PrintItems(items: Elems, depth: nat, fmt: bool)
      requires items.Cons? && PrintableElems(items) && offset <= buffer.Length
      requires offset + |ElemsText(items, depth + 1, fmt)| + 2 + depth + SLACK <= MAX_SIZE
      modifies this, buffer
      ensures Printed(buffer[..], old(buffer[..offset]), ['['] + ElemsText(items, depth + 1, fmt) + [']'])
      ensures offset == old(offset) + 1 + |ElemsText(items, depth + 1, fmt)| && (buffer == old(buffer) || fresh(buffer))
      decreases items, 3
    {
      ghost var pre, text := buffer[..offset], ElemsText(items, depth + 1, fmt);
      Emit(['['], 1, false);
      PassElems(items, depth + 1, fmt);
      Assoc(pre, ['['], text);
      ghost var sofar := buffer[..offset];
      Finish([']'], 2);
      Close(buffer[..], pre, ['['] + text, sofar, [']']);
    }

    /** The loop of print_array over the children. */
    method PassElems(items: Elems, depth: nat, fmt: bool)
      requires PrintableElems(items) && offset <= buffer.Length && offset + |ElemsText(items, depth, fmt)| + depth + SLACK <= MAX_SIZE
      modifies this, buffer
      ensures offset == old(offset) + |ElemsText(items, depth, fmt)| <= buffer.Length
      ensures buffer[..offset] == old(buffer[..offset]) + ElemsText(items, depth, fmt) && (buffer == old(buffer) || fresh(buffer))
      decreases items, 2
    {
      ghost var whole, last := buffer[..offset] + ElemsText(items, depth, fmt), offset + |ElemsText(items, depth, fmt)|;
      var child := items;
      while child.Cons?
        invariant (child == items || child < items) && PrintableElems(child)
        invariant offset + |ElemsText(child, depth, fmt)| == last && offset <= buffer.Length
        invariant buffer[..offset] + ElemsText(child, depth, fmt) == whole && (buffer == old(buffer) || fresh(buffer))
        decreases child
      {
        ghost var pre, s, tail := buffer[..offset], Text(child.head, depth, fmt), ElemsText(child.tail, depth, fmt);
        ElemsStep(child, depth, fmt);
        Pass(child.head, depth, fmt);
        if child.tail.Cons? {
          ghost var sep := [','] + If(fmt, [' ']);
          Emit([','] + If(fmt, [' ']), if fmt then 3 else 2, true);
          SeparatorAssoc(pre, s, If(fmt, [' ']), tail);
        } else {
          Assoc(pre, s, tail);
        }
        child := child.tail;
      }
      assert buffer[..offset] + [] == buffer[..offset];
    }

    /** print_object. */
    method PrintObject(members: Members, depth: nat, fmt: bool)
      requires PrintableMembers(members) && offset <= buffer.Length
      requires offset + |Text(Object(members), depth, fmt)| + depth + SLACK <= MAX_SIZE
      modifies this, buffer
      ensures Printed(buffer[..], old(buffer[..offset]), Text(Object(members), depth, fmt))
      ensures old(offset) <= offset <= old(offset) + |Text(Object(members), depth, fmt)| && (buffer == old(buffer) || fresh(buffer))
      decreases members, 3
    {
      ghost var pre := buffer[..offset];
      if members == None {
        var tabs := if depth == 0 then 0 else depth - 1;
        Finish(if fmt then ['{', '\n'] + Tabs(tabs) + ['}'] else ['{', '}'], if fmt then depth + 4 else 3);
        return;
      }
      ghost var body := ['{'] + If(fmt, ['\n']) + MembersText(members, depth + 1, fmt);
      Emit(['{'] + If(fmt, ['\n']), if fmt then 3 else 2, true);
      Assoc(pre, ['{'] + If(fmt, ['\n']), MembersText(members, depth + 1, fmt));
      PassMembers(members, depth + 1, fmt);
      ghost var sofar := buffer[..offset];
      Finish(If(fmt, Tabs(depth)) + ['}'], if fmt then depth + 2 else 2);
      Assoc(body, If(fmt, Tabs(depth)), ['}']);
      Close(buffer[..], pre, body, sofar, If(fmt, Tabs(depth)) + ['}']);
    }

    /** One turn of the loop of print_object: a member and what separates it from the next one. */
    method PassMember(name: string, value: Value, depth: nat, fmt: bool, more: bool)
      requires NulFree(name) && Printable(value) && offset <= buffer.Length && depth > 0
      requires offset + |MemberText(Quoted(name), Text(value, depth, fmt), depth, fmt, more)| + depth + SLACK <= MAX_SIZE
      modifies this, buffer
      ensures offset == old(offset) + |MemberText(Quoted(name), Text(value, depth, fmt), depth, fmt, more)| <= buffer.Length
      ensures buffer[..offset] == old(buffer[..offset]) + MemberText(Quoted(name), Text(value, depth, fmt), depth, fmt, more)
      ensures buffer == old(buffer) || fresh(buffer)
      decreases value, 3
    {
      ghost var pre, q, v, tab := buffer[..offset], Quoted(name), Text(value, depth, fmt), If(fmt, ['\t']);
      if fmt {
        Emit(Tabs(depth), depth, false);
      }
      assert buffer[..offset] == pre + If(fmt, Tabs(depth));
      PassName(name);
      Emit([':'] + If(fmt, ['\t']), if fmt then 2 else 1, false);
      Assoc(pre + If(fmt, Tabs(depth)) + q, [':'], tab);
      Pass(value, depth, fmt);
      Emit(If(more, [',']) + If(fmt, ['\n']), (if fmt then 1 else 0) + (if more then 1 else 0) + 1, true);
      Assoc(pre + If(fmt, Tabs(depth)) + q + [':'] + tab + v, If(more, [',']), If(fmt, ['\n']));
      MemberTextAssoc(pre, If(fmt, Tabs(depth)), q, tab, v, If(more, [',']), If(fmt, ['\n']));
    }

    /** The name of a member printed and the offset moved behind it. */
    method PassName(name: string)
      requires NulFree(name) && offset <= buffer.Length && offset + |Quoted(name)| + 1 <= MAX_SIZE
      modifies this, buffer
      ensures offset == old(offset) + |Quoted(name)| <= buffer.Length
      ensures buffer[..offset] == old(buffer[..offset]) + Quoted(name) && (buffer == old(buffer) || fresh(buffer))
    {
      ghost var pre := buffer[..offset];
      QuotedNulFree(name);
      PrintString(name);
      var end := Update(pre, Quoted(name));
      offset := end;
      assert buffer[..offset] == buffer[..][..offset];
    }

    /** The loop of print_object over the children. */
    method PassMembers(members: Members, depth: nat, fmt: bool)
      requires PrintableMembers(members) && offset <= buffer.Length && depth > 0
      requires offset + |MembersText(members, depth, fmt)| + depth + SLACK <= MAX_SIZE
      modifies this, buffer
      ensures offset == old(offset) + |MembersText(members, depth, fmt)| <= buffer.Length
      ensures buffer[..offset] == old(buffer[..offset]) + MembersText(members, depth, fmt) && (buffer == old(buffer) || fresh(buffer))
      decreases members, 2
    {
      ghost var whole, last := buffer[..offset] + MembersText(members, depth, fmt), offset + |MembersText(members, depth, fmt)|;
      var child := members;
      while child.Member?
        invariant (child == members || child < members) && PrintableMembers(child)
        invariant offset + |MembersText(child, depth, fmt)| == last && offset <= buffer.Length
        invariant buffer[..offset] + MembersText(child, depth, fmt) == whole && (buffer == old(buffer) || fresh(buffer))
        decreases child
      {
        ghost var pre, tail := buffer[..offset], MembersText(child.tail, depth, fmt);
        MembersStep(child, depth, fmt);
        PassMember(child.name, child.value, depth, fmt, child.tail.Member?);
        Assoc(pre, MemberText(Quoted(child.name), Text(child.value, depth, fmt), depth, fmt, child.tail.Member?), tail);
        child := child.tail;
      }
      assert buffer[..offset] + [] == buffer[..offset];
    }
  }

  lemma SeparatorAssoc(pre: string, s: string, sp: string, tail: string)
    ensures pre + s + ([','] + sp) + tail == pre + (s + ([','] + (sp + tail)))
  {
    Assoc(pre + s, [','] + sp, tail);
    Assoc([','], sp, tail);
    Assoc(pre, s, [','] + (sp + tail));
  }

  lemma ArrayText(items: Elems, depth: nat, fmt: bool)
    requires items.Cons?
    ensures Text(Array(items), depth, fmt) == ['['] + ElemsText(items, depth + 1, fmt) + [']']
  {
  }

  /** The closing of a composed text. */
  lemma Close(buf: string, pre: string, body: string, sofar: string, end: string)
    requires sofar == pre + body && Printed(buf, sofar, end)
    ensures Printed(buf, pre, body + end)
  {
    Assoc(pre, body, end);
  }

  /** cJSON_PrintBuffered gives the same text as cJSON_Print and cJSON_PrintUnformatted, whatever the size of its first buffer. */
  method PrintBuffered(v: Value, prebuffer: nat, fmt: bool) returns (out: array<char>)
    requires Printable(v) && |Text(v, 0, fmt)| + SLACK <= MAX_SIZE
    ensures fresh(out) && Holds(out, Text(v, 0, fmt))
  {
    var p := new PrintBuffer(prebuffer);
    TextNulFree(v, 0, fmt);
    p.PrintValue(v, 0, fmt);
    out := p.buffer;
    assert p.buffer[..0] == [];
  }
}
