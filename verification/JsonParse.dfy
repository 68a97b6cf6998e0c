/**
 What the parser of packages/cJSON-latest/cJSON.c makes of a text, and that it reads back what the
 printers write.  Each function takes the text from the pointer it is called with and returns the
 item and the text from the pointer it returns.
 */
module JsonParse {
  import opened Json

  datatype Parsed<T> = Failed | Done(item: T, rest: string)

  /** skip: past whitespace and other characters up to 32. */
  function Skip(t: string): (r: string)
    ensures |r| <= |t|
  {
    if t != [] && t[0] != NUL && t[0] <= ' ' then Skip(t[1..]) else t
  }

  // ----- numbers

  predicate IsDigit(c: char) {
    '0' <= c <= '9'
  }

  /** A run of digits read on from n. */
  function Accumulate(n: nat, t: string): (r: (nat, string))
    ensures |r.1| <= |t|
    decreases |t|
  {
    if t != [] && IsDigit(t[0]) then Accumulate(n * 10 + (t[0] - '0') as nat, t[1..]) else (n, t)
  }

  /** The integer part. */
  function Integer(t: string): (r: (nat, string))
    ensures |r.1| <= |t|
  {
    var t1 := if Ch(t) == '0' then t[1..] else t;
    if '1' <= Ch(t1) <= '9' then Accumulate(0, t1) else (0, t1)
  }

  /** The fractional part: the digits so far, and how many came after the point. */
  function Fraction(n: nat, t: string): (r: (nat, int, string))
    ensures |r.2| <= |t|
  {
    if Ch(t) == '.' && IsDigit(Ch(t[1..])) then
      var r := Accumulate(n, t[1..]);
      (r.0, |r.1| - |t[1..]|, r.1)
    else (n, 0, t)
  }

  function Exponent(t: string): (r: (int, string))
    ensures |r.1| <= |t|
  {
    if Ch(t) == 'e' || Ch(t) == 'E' then
      var t1 := t[1..];
      var t2 := if Ch(t1) == '+' || Ch(t1) == '-' then t1[1..] else t1;
      var r := Accumulate(0, t2);
      (if Ch(t1) == '-' then -(r.0 as int) else r.0, r.1)
    else (0, t)
  }

  /** parse_number. */
  function ParseNumber(t: string): (r: Parsed<Value>)
    ensures r.Done? && |r.rest| <= |t|
  {
    var a := Integer(if Ch(t) == '-' then t[1..] else t);
    var b := Fraction(a.0, a.1);
    var c := Exponent(b.2);
    Done(Number(if Ch(t) == '-' then -(b.0 as int) else b.0, b.1 + c.0), c.1)
  }

  // ----- strings

  function HexValue(c: char): int {
    if '0' <= c <= '9' then (c - '0') as int
    else if 'A' <= c <= 'F' then 10 + (c - 'A') as int
    else if 'a' <= c <= 'f' then 10 + (c - 'a') as int
    else -1
  }

  /** parse_hex4: 0 unless four hexadecimal digits follow. */
  function Hex4(t: string): (h: nat)
    ensures h < 0x10000
  {
    var a, b, c, d := HexValue(Ch(t)), HexValue(Ch(Drop(t, 1))), HexValue(Ch(Drop(t, 2))), HexValue(Ch(Drop(t, 3)));
    if a < 0 || b < 0 || c < 0 || d < 0 then 0 else a * 0x1000 + b * 0x100 + c * 0x10 + d
  }

  /** The UTF-8 bytes of a code point. */
  function Utf8(uc: nat): string
    requires uc < 0x110000
  {
    if uc < 0x80 then [uc as char]
    else if uc < 0x800 then [(0xC0 + uc / 64) as char, (0x80 + uc % 64) as char]
    else if uc < 0x10000 then [(0xE0 + uc / 4096) as char, (0x80 + uc / 64 % 64) as char, (0x80 + uc % 64) as char]
    else [(0xF0 + uc / 262144) as char, (0x80 + uc / 4096 % 64) as char, (0x80 + uc / 64 % 64) as char, (0x80 + uc % 64) as char]
  }

  /** The escape \u at t, which starts with the u: the bytes it stands for, and the text from its last character on. */
  function Unicode(t: string): (r: (string, string))
    requires t != []
    ensures |r.1| <= |t|
  {
    var uc, t1 := Hex4(t[1..]), Drop(t, 4);
    if 0xDC00 <= uc <= 0xDFFF || uc == 0 then ([], t1)
    else if 0xD800 <= uc <= 0xDBFF then
      if Ch(Drop(t1, 1)) != '\\' || Ch(Drop(t1, 2)) != 'u' then ([], t1)
      else
        var uc2 := Hex4(Drop(t1, 3));
        if uc2 < 0xDC00 || uc2 > 0xDFFF then ([], Drop(t1, 6))
        else (Utf8(0x10000 + uc % 1024 * 1024 + uc2 % 1024), Drop(t1, 6))
    else (Utf8(uc), t1)
  }

  /** The escape at t, which follows a backslash. */
  function Escape(t: string): (r: (string, string))
    ensures |r.1| <= |t|
  {
    if Ch(t) == 'b' then ([8 as char], t)
    else if Ch(t) == 'f' then ([12 as char], t)
    else if Ch(t) == 'n' then (['\n'], t)
    else if Ch(t) == 'r' then (['\r'], t)
    else if Ch(t) == 't' then (['\t'], t)
    else if Ch(t) == 'u' then Unicode(t)
    else ([Ch(t)], t)
  }

  /** The second loop of parse_string, up to the closing quote or the end of the text. */
  function Decode(t: string): (r: (string, string))
    ensures |r.1| <= |t|
    decreases |t|
  {
    if t == [] || t[0] == '\"' || t[0] == NUL then ([], t)
    else if t[0] != '\\' then var r := Decode(t[1..]); ([t[0]] + r.0, r.1)
    else
      var e := Escape(t[1..]);
      var r := Decode(Drop(e.1, 1));
      (e.0 + r.0, r.1)
  }

  /** parse_string. */
  function ParseString(t: string): (r: Parsed<string>)
    ensures r.Done? ==> |r.rest| < |t|
  {
    if Ch(t) != '\"' then Failed
    else
      var r := Decode(t[1..]);
      Done(r.0, if Ch(r.1) == '\"' then r.1[1..] else r.1)
  }

  // ----- values

  /** parse_value. */
  function ParseValue(t: string): (r: Parsed<Value>)
    ensures r.Done? ==> |r.rest| <= |t|
    decreases |t|, 2
  {
    if "null" <= t then Done(Null, t[4..])
    else if "false" <= t then Done(False, t[5..])
    else if "true" <= t then Done(True, t[4..])
    else if Ch(t) == '\"' then
      match ParseString(t)
      case Failed => Failed
      case Done(s, rest) => Done(Str(s), rest)
    else if Ch(t) == '-' || IsDigit(Ch(t)) then ParseNumber(t)
    else if Ch(t) == '[' then ParseArray(t)
    else if Ch(t) == '{' then ParseObject(t)
    else Failed
  }

  /** parse_array, at an opening bracket. */
  function ParseArray(t: string): (r: Parsed<Value>)
    requires t != []
    ensures r.Done? ==> |r.rest| <= |t|
    decreases |t|, 1
  {
    var t1 := Skip(t[1..]);
    if Ch(t1) == ']' then Done(Array(Nil), t1[1..])
    else
      match ParseElems(t1)
      case Failed => Failed
      case Done(es, rest) => Done(Array(es), rest)
  }

  /** parse_object, at an opening brace. */
  function ParseObject(t: string): (r: Parsed<Value>)
    requires t != []
    ensures r.Done? ==> |r.rest| <= |t|
    decreases |t|, 1
  {
    var t1 := Skip(t[1..]);
    if Ch(t1) == '}' then Done(Object(None), t1[1..])
    else
      match ParseMembers(t1)
      case Failed => Failed
      case Done(ms, rest) => Done(Object(ms), rest)
  }

  /** The loop of parse_array: the items from here to the closing bracket. */
  function ParseElems(t: string): (r: Parsed<Elems>)
    ensures r.Done? ==> |r.rest| <= |t|
    decreases |t|, 3
  {
    match ParseValue(Skip(t))
    case Failed => Failed
    case Done(v, rest) =>
      var t1 := Skip(rest);
      if Ch(t1) == ',' then
        match ParseElems(t1[1..])
        case Failed => Failed
        case Done(es, end) => Done(Cons(v, es), end)
      else if Ch(t1) == ']' then Done(Cons(v, Nil), t1[1..])
      else Failed
  }

  /** The loop of parse_object. */
  function ParseMembers(t: string): (r: Parsed<Members>)
    ensures r.Done? ==> |r.rest| <= |t|
    decreases |t|, 3
  {
    match ParseString(Skip(t))
    case Failed => Failed
    case Done(name, rest) =>
      var t1 := Skip(rest);
      if Ch(t1) != ':' then Failed
      else
        match ParseValue(Skip(t1[1..]))
        case Failed => Failed
        case Done(v, rest2) =>
          var t2 := Skip(rest2);
          if Ch(t2) == ',' then
            match ParseMembers(t2[1..])
            case Failed => Failed
            case Done(ms, end) => Done(Member(name, v, ms), end)
          else if Ch(t2) == '}' then Done(Member(name, v, None), t2[1..])
          else Failed
  }
}
