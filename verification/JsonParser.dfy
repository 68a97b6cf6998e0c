/**
 The parser of packages/cJSON-latest/cJSON.c as it runs: loops that step pointers, and a buffer that
 parse_string allocates after counting.  A pointer is the text from there on.
 */
module JsonParser {
  import opened Json
  import opened JsonParse
  import opened JsonSafe

  /** skip. */
  method SkipWhite(t: string) returns (p: string)
    requires Safe(t)
    ensures p == Skip(t) && Safe(p)
  {
    p := t;
    while p != [] && p[0] != NUL && p[0] <= ' '
      invariant Skip(p) == Skip(t) && Safe(p)
      decreases |p|
    {
      p := p[1..];
    }
  }

  /** A loop over digits. */
  method ReadDigits(start: nat, t: string) returns (n: nat, p: string)
    requires Safe(t)
    ensures (n, p) == Accumulate(start, t) && Safe(p)
  {
    n, p := start, t;
    while p != [] && IsDigit(p[0])
      invariant Accumulate(n, p) == Accumulate(start, t) && Safe(p)
      decreases |p|
    {
      n, p := n * 10 + (p[0] - '0') as nat, p[1..];
    }
  }

  /** The digits before the point in parse_number. */
  method ReadInteger(t: string) returns (n: nat, p: string)
    requires Safe(t)
    ensures (n, p) == Integer(t) && Safe(p)
  {
    n, p := 0, t;
    if Ch(p) == '0' {
      p := p[1..];
    }
    if '1' <= Ch(p) <= '9' {
      n, p := ReadDigits(0, p);
    }
  }

  /** The digits behind the point. */
  method ReadFraction(start: nat, t: string) returns (n: nat, scale: int, p: string)
    requires Safe(t)
    ensures (n, scale, p) == Fraction(start, t) && Safe(p)
  {
    n, scale, p := start, 0, t;
    if Ch(p) == '.' && IsDigit(Ch(p[1..])) {
      p := p[1..];
      var before := |p|;
      n, p := ReadDigits(n, p);
      scale := |p| - before;
    }
  }

  method ReadExponent(t: string) returns (subscale: int, p: string)
    requires Safe(t)
    ensures (subscale, p) == Exponent(t) && Safe(p)
  {
    subscale, p := 0, t;
    if Ch(p) == 'e' || Ch(p) == 'E' {
      var negative := false;
      p := p[1..];
      if Ch(p) == '+' {
        p := p[1..];
      } else if Ch(p) == '-' {
        negative, p := true, p[1..];
      }
      subscale, p := ReadDigits(0, p);
      subscale := if negative then -subscale else subscale;
    }
  }

  /** parse_number. */
  method ReadNumber(t: string) returns (r: Parsed<Value>)
    requires Safe(t) && t != []
    ensures r == ParseNumber(t) && r.Done? && Safe(r.rest)
  {
    var num, negative := t, false;
    if Ch(num) == '-' {
      negative, num := true, num[1..];
    }
    var n, scale, subscale;
    n, num := ReadInteger(num);
    n, scale, num := ReadFraction(n, num);
    subscale, num := ReadExponent(num);
    return Done(Number(if negative then -(n as int) else n, scale + subscale), num);
  }

  /** The bytes of a code point, written from the last to the first. */
  method WriteUtf8(uc: nat, out: array<char>, at: nat) returns (end: nat)
    requires uc < 0x110000 && at + |Utf8(uc)| <= out.Length
    modifies out
    ensures end == at + |Utf8(uc)| && out[..end] == old(out[..at]) + Utf8(uc)
  {
    var len := if uc < 0x80 then 1 else if uc < 0x800 then 2 else if uc < 0x10000 then 3 else 4;
    var u := uc;
    end := at + len;
    if len >= 4 {
      out[at + 3] := (0x80 + u % 64) as char;
      u := u / 64;
    }
    if len >= 3 {
      out[at + 2] := (0x80 + u % 64) as char;
      u := u / 64;
    }
    if len >= 2 {
      out[at + 1] := (0x80 + u % 64) as char;
      u := u / 64;
    }
    out[at] := (if len == 1 then u else if len == 2 then 0xC0 + u else if len == 3 then 0xE0 + u else 0xF0 + u) as char;
  }

  /** The case 'u' of the switch in parse_string. */
  method WriteUnicode(t: string, out: array<char>, at: nat) returns (p: string, end: nat)
    requires t != [] && at + |Unicode(t).0| <= out.Length
    modifies out
    ensures p == Unicode(t).1 && end == at + |Unicode(t).0| && out[..end] == old(out[..at]) + Unicode(t).0
  {
    var uc := Hex4(t[1..]);
    p, end := Drop(t, 4), at;
    if 0xDC00 <= uc <= 0xDFFF || uc == 0 {
      return;
    }
    if 0xD800 <= uc <= 0xDBFF {
      if Ch(Drop(p, 1)) != '\\' || Ch(Drop(p, 2)) != 'u' {
        return;
      }
      var uc2 := Hex4(Drop(p, 3));
      p := Drop(p, 6);
      if uc2 < 0xDC00 || uc2 > 0xDFFF {
        return;
      }
      uc := 0x10000 + uc % 1024 * 1024 + uc2 % 1024;
    }
    end := WriteUtf8(uc, out, at);
  }

  /** The switch in parse_string, behind a backslash. */
  method WriteEscape(t: string, out: array<char>, at: nat) returns (p: string, end: nat)
    requires at + |Escape(t).0| <= out.Length
    modifies out
    ensures p == Escape(t).1 && end == at + |Escape(t).0| && out[..end] == old(out[..at]) + Escape(t).0
  {
    if Ch(t) == 'u' {
      p, end := WriteUnicode(t, out, at);
      return;
    }
    match Ch(t) {
      case 'b' => out[at] := 8 as char;
      case 'f' => out[at] := 12 as char;
      case 'n' => out[at] := '\n';
      case 'r' => out[at] := '\r';
      case 't' => out[at] := '\t';
      case _ => out[at] := Ch(t);
    }
    p, end := t, at + 1;
  }

  /** The first loop of parse_string. */
  method CountString(t: string) returns (len: nat)
    ensures len == Count(t)
  {
    len := 0;
    var p := t;
    while p != [] && p[0] != '\"' && p[0] != NUL
      invariant len + Count(p) == Count(t)
      decreases |p|
    {
      len := len + 1;
      p := if p[0] == '\\' then Drop(p, 2) else p[1..];
    }
  }

  /** One character or escape of the second loop of parse_string. */
  method DecodeStep(t: string, out: array<char>, at: nat) returns (p: string, end: nat)
    requires Body(t) && Safe(t) && t != [] && t[0] != '\"' && t[0] != NUL && at + Count(t) < out.Length
    modifies out
    ensures Body(p) && Safe(p) && |p| < |t| && end + Count(p) <= at + Count(t)
    ensures out[..end] + Decode(p).0 == old(out[..at]) + Decode(t).0 && Decode(p).1 == Decode(t).1
  {
    ghost var sofar := out[..at];
    if t[0] != '\\' {
      out[at] := t[0];
      p, end := t[1..], at + 1;
      assert out[..end] == sofar + [t[0]];
      Assoc(sofar, [t[0]], Decode(p).0);
    } else {
      p := t[1..];
      assert ['\\'] + p == t;
      EscapeFits(p);
      SafeEscape(p);
      ghost var e := Escape(p);
      p, end := WriteEscape(p, out, at);
      p := Drop(p, 1);
      Assoc(sofar, e.0, Decode(p).0);
    }
  }

  /** parse_string: the buffer has the size the first loop counted, and every write stays within it. */
  method ReadString(t: string) returns (r: Parsed<string>)
    requires Safe(t)
    ensures r == ParseString(t) && (r.Done? ==> Safe(r.rest))
  {
    if Ch(t) != '\"' {
      return Failed;
    }
    var start := t[1..];
    var len := CountString(start);
    var out := new char[len + 1];
    var p := start;
    var at: nat := 0;
    assert out[..0] + Decode(start).0 == Decode(start).0;
    while p != [] && p[0] != '\"' && p[0] != NUL
      invariant Body(p) && Safe(p) && at + Count(p) <= len
      invariant out[..at] + Decode(p).0 == Decode(start).0 && Decode(p).1 == Decode(start).1
      decreases |p|
    {
      p, at := DecodeStep(p, out, at);
    }
    out[at] := NUL;
    assert out[..at] == out[..at] + Decode(p).0;
    if Ch(p) == '\"' {
      p := p[1..];
    }
    return Done(out[..at], p);
  }

  lemma SafeEscape(t: string)
    requires Safe(t)
    ensures Safe(Drop(Escape(t).1, 1))
  {
    SafeDrop(t, 1);
    if Ch(t) == 'u' {
      SafeDrop(t, 4);
      SafeDrop(Drop(t, 4), 1);
      SafeDrop(Drop(t, 4), 6);
      SafeDrop(Drop(Drop(t, 4), 6), 1);
    }
  }

  // ----- arrays and objects

  function Chain(items: seq<Value>, es: Elems): Elems {
    if items == [] then es else Cons(items[0], Chain(items[1..], es))
  }

  lemma {:induction false} ChainMore(items: seq<Value>, v: Value, es: Elems)
    ensures Chain(items + [v], es) == Chain(items, Cons(v, es))
  {
    if items == [] {
      assert items + [v] == [v];
    } else {
      assert (items + [v])[1..] == items[1..] + [v];
      ChainMore(items[1..], v, es);
    }
  }

  function ChainMembers(members: seq<(string, Value)>, ms: Members): Members {
    if members == [] then ms else Member(members[0].0, members[0].1, ChainMembers(members[1..], ms))
  }

  lemma {:induction false} ChainMembersMore(members: seq<(string, Value)>, name: string, v: Value, ms: Members)
    ensures ChainMembers(members + [(name, v)], ms) == ChainMembers(members, Member(name, v, ms))
  {
    if members == [] {
      assert members + [(name, v)] == [(name, v)];
    } else {
      assert (members + [(name, v)])[1..] == members[1..] + [(name, v)];
      ChainMembersMore(members[1..], name, v, ms);
    }
  }

  /** What is left to parse behind an item of an array. */
  function MoreElems(t: string): Parsed<Elems> {
    if Ch(t) == ',' then ParseElems(t[1..]) else if Ch(t) == ']' then Done(Nil, t[1..]) else Failed
  }

  function MoreMembers(t: string): Parsed<Members> {
    if Ch(t) == ',' then ParseMembers(t[1..]) else if Ch(t) == '}' then Done(None, t[1..]) else Failed
  }

  /** A result with the items parsed before it. */
  function Behind(items: seq<Value>, r: Parsed<Elems>): Parsed<Elems> {
    if r.Failed? then Failed else Done(Chain(items, r.item), r.rest)
  }

  function BehindMembers(members: seq<(string, Value)>, r: Parsed<Members>): Parsed<Members> {
    if r.Failed? then Failed else Done(ChainMembers(members, r.item), r.rest)
  }

  lemma OneElem(items: seq<Value>, t: string)
    ensures var r := ParseValue(Skip(t));
      Behind(items, ParseElems(t)) == if r.Failed? then Failed else Behind(items + [r.item], MoreElems(Skip(r.rest)))
  {
    var r := ParseValue(Skip(t));
    if r.Done? && MoreElems(Skip(r.rest)).Done? {
      ChainMore(items, r.item, MoreElems(Skip(r.rest)).item);
    }
  }

  /** parse_value. */
  method ReadValue(t: string) returns (r: Parsed<Value>)
    requires Safe(t)
    ensures r == ParseValue(t) && (r.Done? ==> Safe(r.rest))
    decreases |t|, 2
  {
    SafeDrop(t, 4);
    SafeDrop(t, 5);
    if "null" <= t {
      return Done(Null, t[4..]);
    }
    if "false" <= t {
      return Done(False, t[5..]);
    }
    if "true" <= t {
      return Done(True, t[4..]);
    }
    if Ch(t) == '\"' {
      var s := ReadString(t);
      return if s.Failed? then Failed else Done(Str(s.item), s.rest);
    }
    if Ch(t) == '-' || IsDigit(Ch(t)) {
      r := ReadNumber(t);
      return;
    }
    if Ch(t) == '[' {
      r := ReadArray(t);
      return;
    }
    if Ch(t) == '{' {
      r := ReadObject(t);
      return;
    }
    return Failed;
  }

  /** parse_array. */
  method ReadArray(t: string) returns (r: Parsed<Value>)
    requires Safe(t) && t != []
    ensures r == ParseArray(t) && (r.Done? ==> Safe(r.rest))
    decreases |t|, 1
  {
    var value := SkipWhite(t[1..]);
    if Ch(value) == ']' {
      return Done(Array(Nil), value[1..]);
    }
    ghost var all := ParseElems(value);
    OneElem([], value);
    assert Behind([], all) == all;
    var p := SkipWhite(value);
    var child := ReadValue(p);
    if child.Failed? {
      return Failed;
    }
    var items := [child.item];
    assert [] + items == items;
    value := SkipWhite(child.rest);
    while Ch(value) == ','
      invariant Safe(value) && |value| < |t|
      invariant all == Behind(items, MoreElems(value))
      decreases |value|
    {
      OneElem(items, value[1..]);
      p := SkipWhite(value[1..]);
      child := ReadValue(p);
      if child.Failed? {
        return Failed;
      }
      items := items + [child.item];
      value := SkipWhite(child.rest);
    }
    if Ch(value) == ']' {
      return Done(Array(Chain(items, Nil)), value[1..]);
    }
    return Failed;
  }

  /** One member: its name, a colon and its value. */
  method ReadMember(t: string) returns (r: Parsed<(string, Value)>)
    requires Safe(t)
    ensures r == OneMember(t) && (r.Done? ==> Safe(r.rest))
    decreases |t|, 3
  {
    var p := SkipWhite(t);
    var s := ReadString(p);
    if s.Failed? {
      return Failed;
    }
    p := SkipWhite(s.rest);
    if Ch(p) != ':' {
      return Failed;
    }
    p := SkipWhite(p[1..]);
    var v := ReadValue(p);
    return if v.Failed? then Failed else Done((s.item, v.item), v.rest);
  }

  function OneMember(t: string): (r: Parsed<(string, Value)>)
    ensures r.Done? ==> |r.rest| <= |t|
  {
    match ParseString(Skip(t))
    case Failed => Failed
    case Done(name, rest) =>
      var t1 := Skip(rest);
      if Ch(t1) != ':' then Failed
      else
        match ParseValue(Skip(t1[1..]))
        case Failed => Failed
        case Done(v, rest2) => Done((name, v), rest2)
  }

  lemma OneMemberMore(members: seq<(string, Value)>, t: string)
    ensures var r := OneMember(t);
      BehindMembers(members, ParseMembers(t)) == if r.Failed? then Failed else BehindMembers(members + [r.item], MoreMembers(Skip(r.rest)))
  {
    var r := OneMember(t);
    if r.Done? && MoreMembers(Skip(r.rest)).Done? {
      ChainMembersMore(members, r.item.0, r.item.1, MoreMembers(Skip(r.rest)).item);
    }
  }

  /** parse_object. */
  method ReadObject(t: string) returns (r: Parsed<Value>)
    requires Safe(t) && t != []
    ensures r == ParseObject(t) && (r.Done? ==> Safe(r.rest))
    decreases |t|, 1
  {
    var value := SkipWhite(t[1..]);
    if Ch(value) == '}' {
      return Done(Object(None), value[1..]);
    }
    ghost var all := ParseMembers(value);
    OneMemberMore([], value);
    assert BehindMembers([], all) == all;
    var child := ReadMember(value);
    if child.Failed? {
      return Failed;
    }
    var members := [child.item];
    assert [] + members == members;
    value := SkipWhite(child.rest);
    while Ch(value) == ','
      invariant Safe(value) && |value| < |t|
      invariant all == BehindMembers(members, MoreMembers(value))
      decreases |value|
    {
      OneMemberMore(members, value[1..]);
      child := ReadMember(value[1..]);
      if child.Failed? {
        return Failed;
      }
      members := members + [child.item];
      value := SkipWhite(child.rest);
    }
    if Ch(value) == '}' {
      return Done(Object(ChainMembers(members, None)), value[1..]);
    }
    return Failed;
  }

  /** cJSON_ParseWithOpts: the root, and where the text goes on; with `terminated` nothing but whitespace may follow. */
  method Parse(text: string, terminated: bool) returns (r: Parsed<Value>)
    requires Safe(text)
    ensures r == (var p := ParseValue(Skip(text));
      if p.Failed? then Failed
      else if terminated then (if Ch(Skip(p.rest)) == NUL then Done(p.item, Skip(p.rest)) else Failed)
      else p)
  {
    var p := SkipWhite(text);
    r := ReadValue(p);
    if r.Done? && terminated {
      var end := SkipWhite(r.rest);
      r := if Ch(end) != NUL then Failed else Done(r.item, end);
    }
  }
}
