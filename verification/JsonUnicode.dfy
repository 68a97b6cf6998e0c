/**
 The \u escapes of parse_string, packages/cJSON-latest/cJSON.c:183-243, against UTF-8 as RFC 3629 defines
 it: a decoder written from its rules reads every code point back from the bytes the parser writes.
 */
module JsonUnicode {
  import opened Json
  import opened JsonParse

  // ----- UTF-8, section 3 of RFC 3629

  /** A code point: up to 10FFFF, and not one of the surrogates that UTF-16 reserves. */
  predicate IsCodePoint(u: int) {
    0 <= u <= 0x10FFFF && !(0xD800 <= u <= 0xDFFF)
  }

  /** A continuation byte, 10xxxxxx. */
  predicate IsTail(c: char) {
    0x80 <= c as int < 0xC0
  }

  /** The six bits that a continuation byte carries. */
  function Six(c: char): int
    requires IsTail(c)
  {
    c as int - 0x80
  }

  datatype Read = Bad | Got(u: int, rest: string)

  /** A code point that needs `least` bytes' worth of bits: none may be written in more bytes than it needs. */
  function Shortest(u: int, least: int, rest: string): Read {
    if least <= u && IsCodePoint(u) then Got(u, rest) else Bad
  }

  /** The first code point of a text in UTF-8: 0xxxxxxx, 110xxxxx, 1110xxxx or 11110xxx, then as many continuation bytes as the first byte says. */
  function ReadUtf8(s: string): Read {
    if s == [] then Bad
    else
      var b := s[0] as int;
      if b < 0x80 then Got(b, s[1..])
      else if 0xC0 <= b < 0xE0 && |s| > 1 && IsTail(s[1]) then
        Shortest((b - 0xC0) * 64 + Six(s[1]), 0x80, s[2..])
      else if 0xE0 <= b < 0xF0 && |s| > 2 && IsTail(s[1]) && IsTail(s[2]) then
        Shortest(((b - 0xE0) * 64 + Six(s[1])) * 64 + Six(s[2]), 0x800, s[3..])
      else if 0xF0 <= b < 0xF8 && |s| > 3 && IsTail(s[1]) && IsTail(s[2]) && IsTail(s[3]) then
        Shortest((((b - 0xF0) * 64 + Six(s[1])) * 64 + Six(s[2])) * 64 + Six(s[3]), 0x10000, s[4..])
      else Bad
  }

  /** The text is the UTF-8 form of these code points. */
  ghost predicate Means(s: string, us: seq<int>)
    decreases |us|
  {
    if us == [] then s == []
    else var r := ReadUtf8(s); r.Got? && r.u == us[0] && Means(r.rest, us[1..])
  }

  /** Every code point is read back from the bytes the parser writes for it. */
  lemma ReadsBack(u: nat, rest: string)
    requires IsCodePoint(u)
    ensures ReadUtf8(Utf8(u) + rest) == Got(u, rest)
  {
    var s := Utf8(u) + rest;
    if u < 0x80 {
    } else if u < 0x800 {
      assert s[1] == Utf8(u)[1] && s[2..] == rest;
    } else if u < 0x10000 {
      assert s[1] == Utf8(u)[1] && s[2] == Utf8(u)[2] && s[3..] == rest;
      ThreeParts(u);
    } else {
      assert s[1] == Utf8(u)[1] && s[2] == Utf8(u)[2] && s[3] == Utf8(u)[3] && s[4..] == rest;
      FourParts(u);
    }
  }

  lemma ThreeParts(u: nat)
    ensures (u / 4096 * 64 + u / 64 % 64) * 64 + u % 64 == u
  {
    assert u / 4096 == u / 64 / 64;
    assert u / 64 == u / 64 / 64 * 64 + u / 64 % 64;
  }

  lemma FourParts(u: nat)
    ensures ((u / 262144 * 64 + u / 4096 % 64) * 64 + u / 64 % 64) * 64 + u % 64 == u
  {
    assert u / 262144 == u / 4096 / 64;
    assert u / 4096 == u / 4096 / 64 * 64 + u / 4096 % 64;
    ThreeParts(u);
  }

  // ----- the escapes, section 7 of RFC 8259

  /** c is a hexadecimal digit for n, in either case. */
  predicate HexFor(c: char, n: int)
    requires 0 <= n < 16
  {
    if n < 10 then c as int == '0' as int + n else c as int == 'a' as int + n - 10 || c as int == 'A' as int + n - 10
  }

  /** Four hexadecimal digits that say u. */
  ghost predicate Says(h: string, u: int) {
    && |h| == 4 && 0 <= u < 0x10000
    && HexFor(h[0], u / 4096) && HexFor(h[1], u / 256 % 16) && HexFor(h[2], u / 16 % 16) && HexFor(h[3], u % 16)
  }

  /** An escape of u: \u and four digits, or, above FFFF, the two surrogates of UTF-16 written so. */
  ghost predicate EscapeOf(e: string, u: int) {
    if u < 0x10000 then
      |e| == 6 && e[..2] == "\\u" && Says(e[2..], u)
    else
      && |e| == 12 && e[..2] == "\\u" && e[6..8] == "\\u"
      && Says(e[2..6], 0xD800 + (u - 0x10000) / 1024) && Says(e[8..], 0xDC00 + (u - 0x10000) % 1024)
  }

  lemma HexBack(c: char, n: int)
    requires 0 <= n < 16 && HexFor(c, n)
    ensures HexValue(c) == n
  {
  }

  lemma Hex4Back(h: string, u: int, rest: string)
    requires Says(h, u)
    ensures Hex4(h + rest) == u
  {
    var t := h + rest;
    assert Ch(t) == h[0] && Ch(Drop(t, 1)) == h[1] && Ch(Drop(t, 2)) == h[2] && Ch(Drop(t, 3)) == h[3];
    HexBack(h[0], u / 4096);
    HexBack(h[1], u / 256 % 16);
    HexBack(h[2], u / 16 % 16);
    HexBack(h[3], u % 16);
    Nibbles(u);
  }

  lemma Nibbles(u: int)
    ensures u / 4096 * 0x1000 + u / 256 % 16 * 0x100 + u / 16 % 16 * 0x10 + u % 16 == u
  {
    assert u / 4096 == u / 256 / 16 && u / 256 == u / 16 / 16;
  }

  /** The four digits of a pair's halves give the code point back. */
  lemma PairBack(u: int)
    requires 0x10000 <= u <= 0x10FFFF
    ensures var hi, lo := 0xD800 + (u - 0x10000) / 1024, 0xDC00 + (u - 0x10000) % 1024;
      0xD800 <= hi <= 0xDBFF && 0xDC00 <= lo <= 0xDFFF && 0x10000 + hi % 1024 * 1024 + lo % 1024 == u
  {
    var v := u - 0x10000;
    assert (0xD800 + v / 1024) % 1024 == v / 1024;
    assert (0xDC00 + v % 1024) % 1024 == v % 1024;
  }

  lemma OneEscape(h: string, u: int, t: string)
    requires 0 < u && IsCodePoint(u) && Says(h, u)
    ensures Unicode(['u'] + (h + t)) == (Utf8(u), [h[3]] + t)
  {
    var p := ['u'] + (h + t);
    assert p[1..] == h + t;
    Hex4Back(h, u, t);
    assert Drop(p, 4) == [h[3]] + t;
  }

  /** The branch of parse_string for two halves. */
  lemma UnicodePair(p: string, hi: nat, lo: nat)
    requires p != [] && Hex4(p[1..]) == hi && 0xD800 <= hi <= 0xDBFF
    requires Ch(Drop(Drop(p, 4), 1)) == '\\' && Ch(Drop(Drop(p, 4), 2)) == 'u'
    requires Hex4(Drop(Drop(p, 4), 3)) == lo && 0xDC00 <= lo <= 0xDFFF
    ensures Unicode(p) == (Utf8(0x10000 + hi % 1024 * 1024 + lo % 1024), Drop(Drop(p, 4), 6))
  {
  }

  function Pair(h: string, l: string, t: string): string {
    ['u'] + (h + (['\\', 'u'] + (l + t)))
  }

  lemma PairText(h: string, l: string, t: string)
    requires |h| == 4 && |l| == 4
    ensures var p := Pair(h, l, t);
      && p[1..] == h + (['\\', 'u'] + (l + t)) && Drop(p, 4) == [h[3]] + (['\\', 'u'] + (l + t))
  {
  }

  lemma PairTail(x: char, l: string, t: string)
    requires |l| == 4
    ensures var p := [x] + (['\\', 'u'] + (l + t));
      Ch(Drop(p, 1)) == '\\' && Ch(Drop(p, 2)) == 'u' && Drop(p, 3) == l + t && Drop(p, 6) == [l[3]] + t
  {
  }

  lemma PairEscape(h: string, l: string, u: int, t: string)
    requires 0x10000 <= u <= 0x10FFFF && Says(h, 0xD800 + (u - 0x10000) / 1024) && Says(l, 0xDC00 + (u - 0x10000) % 1024)
    ensures Unicode(Pair(h, l, t)) == (Utf8(u), [l[3]] + t)
  {
    var hi, lo := 0xD800 + (u - 0x10000) / 1024, 0xDC00 + (u - 0x10000) % 1024;
    PairBack(u);
    PairText(h, l, t);
    PairTail(h[3], l, t);
    Hex4Back(h, hi, ['\\', 'u'] + (l + t));
    Hex4Back(l, lo, t);
    UnicodePair(Pair(h, l, t), hi, lo);
  }

  /** A text that starts with a backslash and a u. */
  lemma DecodeUnicode(p: string, e: (string, string))
    requires Ch(p) == 'u' && e == Unicode(p)
    ensures Decode(['\\'] + p) == (e.0 + Decode(Drop(e.1, 1)).0, Decode(Drop(e.1, 1)).1)
  {
    EscapeIsUnicode(p);
    DecodeEscape(['\\'] + p, e);
  }

  lemma EscapeIsUnicode(p: string)
    requires Ch(p) == 'u'
    ensures Escape(p) == Unicode(p)
  {
  }

  lemma DecodeEscape(t: string, e: (string, string))
    requires t != [] && t[0] == '\\' && e == Escape(t[1..])
    ensures Decode(t) == (e.0 + Decode(Drop(e.1, 1)).0, Decode(Drop(e.1, 1)).1)
  {
  }

  lemma OneDecodes(h: string, u: int, t: string)
    requires 0 < u && IsCodePoint(u) && Says(h, u)
    ensures Decode(['\\'] + (['u'] + (h + t))) == (Utf8(u) + Decode(t).0, Decode(t).1)
  {
    OneEscape(h, u, t);
    DecodeUnicode(['u'] + (h + t), (Utf8(u), [h[3]] + t));
    assert Drop([h[3]] + t, 1) == t;
  }

  lemma PairDecodes(h: string, l: string, u: int, t: string)
    requires 0x10000 <= u <= 0x10FFFF && Says(h, 0xD800 + (u - 0x10000) / 1024) && Says(l, 0xDC00 + (u - 0x10000) % 1024)
    ensures Decode(['\\'] + Pair(h, l, t)) == (Utf8(u) + Decode(t).0, Decode(t).1)
  {
    PairEscape(h, l, u, t);
    DecodeUnicode(Pair(h, l, t), (Utf8(u), [l[3]] + t));
    assert Drop([l[3]] + t, 1) == t;
  }

  /** parse_string makes of an escape the UTF-8 bytes of its code point, and goes on behind it. */
  lemma EscapeDecodes(e: string, u: int, t: string)
    requires 0 < u && IsCodePoint(u) && EscapeOf(e, u)
    ensures Decode(e + t) == (Utf8(u) + Decode(t).0, Decode(t).1)
  {
    if u < 0x10000 {
      OneDecodes(e[2..], u, t);
      assert e == e[..2] + e[2..];
      assert e + t == ['\\'] + (['u'] + (e[2..] + t));
    } else {
      PairDecodes(e[2..6], e[8..], u, t);
      TwoHalves(e, t);
    }
  }

  lemma TwoHalves(e: string, t: string)
    requires |e| == 12 && e[..2] == "\\u" && e[6..8] == "\\u"
    ensures e + t == ['\\'] + Pair(e[2..6], e[8..], t)
  {
    assert e == e[..2] + e[2..6] + e[6..8] + e[8..];
  }

  /** An escape of 0 or of the second half of a pair stands for nothing. */
  lemma EscapeDropped(h: string, u: int, t: string)
    requires Says(h, u) && (u == 0 || 0xDC00 <= u <= 0xDFFF)
    ensures Decode(['\\'] + (['u'] + (h + t))) == Decode(t)
  {
    Hex4Back(h, u, t);
    var p := ['u'] + (h + t);
    assert p[1..] == h + t && Drop(p, 4) == [h[3]] + t;
    assert Drop([h[3]] + t, 1) == t;
    DecodeUnicode(p, ([], [h[3]] + t));
    assert [] + Decode(t).0 == Decode(t).0;
  }

  function Concat(parts: seq<string>): string {
    if parts == [] then [] else parts[0] + Concat(parts[1..])
  }

  /** The parts are escapes of the code points, one each. */
  ghost predicate EscapesOf(parts: seq<string>, us: seq<int>) {
    |parts| == |us| && forall i {:trigger us[i]} :: 0 <= i < |us| ==> 0 < us[i] && IsCodePoint(us[i]) && EscapeOf(parts[i], us[i])
  }

  lemma {:induction false} EscapesDecode(parts: seq<string>, us: seq<int>, t: string)
    requires EscapesOf(parts, us) && Ch(t) == '\"'
    ensures Decode(Concat(parts) + t).1 == t && Means(Decode(Concat(parts) + t).0, us)
    decreases |us|
  {
    if us == [] {
      assert Concat(parts) + t == t;
    } else {
      var more := Concat(parts[1..]) + t;
      assert EscapesOf(parts[1..], us[1..]) by {
        forall i | 0 <= i < |us| - 1 ensures 0 < us[1..][i] && IsCodePoint(us[1..][i]) && EscapeOf(parts[1..][i], us[1..][i]) {
          assert us[1..][i] == us[i+1];
        }
      }
      EscapesDecode(parts[1..], us[1..], t);
      assert 0 < us[0] && EscapeOf(parts[0], us[0]);
      Assoc(parts[0], Concat(parts[1..]), t);
      EscapeDecodes(parts[0], us[0], more);
      ReadsBack(us[0], Decode(more).0);
    }
  }

  /**
   A string in the text that spells code points from 1 to 10FFFF as \u escapes, with digits of either case and
   surrogate pairs above FFFF, parses to a string that is the UTF-8 form of just these code points.
   */
  lemma EscapesParse(parts: seq<string>, us: seq<int>, rest: string)
    requires EscapesOf(parts, us)
    ensures var r := ParseString(['\"'] + (Concat(parts) + (['\"'] + rest)));
      r.Done? && r.rest == rest && Means(r.item, us)
  {
    var t := ['\"'] + rest;
    EscapesDecode(parts, us, t);
    assert (['\"'] + (Concat(parts) + t))[1..] == Concat(parts) + t;
    assert t[1..] == rest;
  }
}
