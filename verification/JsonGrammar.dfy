/**
 Which texts the parser of packages/cJSON-latest/cJSON.c accepts: exactly those written by the grammar of
 section 2 to 7 of RFC 8259 from its own numbers and strings, with any characters up to 32 as white space.
 */
module JsonGrammar {
  import opened Json
  import opened JsonParse
  import opened JsonRoundTrip

  /** A parse tree that keeps every character: literals, numbers and strings are leaves; gaps are white space. */
  datatype Tree = Leaf(text: string, v: Value) | Arr(gap: string, items: Items) | Obj(gap: string, fields: Fields)
  datatype Items = NoItems | Item(tree: Tree, after: string, gap: string, more: Items)
  datatype Fields = NoFields | Field(name: string, key: string, colon: string, space: string, tree: Tree, after: string, gap: string, more: Fields)

  /** The value of a tree. */
  function Meant(tree: Tree): Value {
    match tree
    case Leaf(_, v) => v
    case Arr(_, items) => Array(MeantItems(items))
    case Obj(_, fields) => Object(MeantFields(fields))
  }

  function MeantItems(items: Items): Elems {
    match items
    case NoItems => Nil
    case Item(tree, _, _, more) => Cons(Meant(tree), MeantItems(more))
  }

  function MeantFields(fields: Fields): Members {
    match fields
    case NoFields => None
    case Field(_, key, _, _, tree, _, _, more) => Member(key, Meant(tree), MeantFields(more))
  }

  /** The text of a tree, followed by t. */
  function Spell(tree: Tree, t: string): string
    decreases tree, 0
  {
    match tree
    case Leaf(text, _) => text + t
    case Arr(gap, items) => ['['] + (gap + SpellItems(items, [']'] + t))
    case Obj(gap, fields) => ['{'] + (gap + SpellFields(fields, ['}'] + t))
  }

  /** The items, separated by commas, and then t. */
  function SpellItems(items: Items, t: string): string
    decreases items, 0
  {
    match items
    case NoItems => t
    case Item(tree, after, gap, more) => Spell(tree, after + Next(more.Item?, gap, SpellItems(more, t)))
  }

  /** The members: a name, a colon and a value each. */
  function SpellFields(fields: Fields, t: string): string
    decreases fields, 0
  {
    match fields
    case NoFields => t
    case Field(name, _, colon, space, tree, after, gap, more) =>
      name + (colon + ([':'] + (space + Spell(tree, after + Next(more.Field?, gap, SpellFields(more, t))))))
  }

  /** A comma if more follows. */
  function Next(more: bool, gap: string, t: string): string {
    if more then [','] + (gap + t) else t
  }

  /** A literal, or a number or a string as the parser reads them in front of t. */
  ghost predicate LeafOk(text: string, v: Value, t: string) {
    || (text == "null" && v == Null) || (text == "false" && v == False) || (text == "true" && v == True)
    || (text != [] && (text[0] == '-' || IsDigit(text[0])) && ParseNumber(text + t) == Done(v, t))
    || (v.Str? && NameOk(text, v.s, t))
  }

  ghost predicate NameOk(text: string, s: string, t: string) {
    text != [] && text[0] == '\"' && ParseString(text + t) == Done(s, t)
  }

  ghost predicate TreeOk(tree: Tree, t: string)
    decreases tree, 0
  {
    match tree
    case Leaf(text, v) => LeafOk(text, v, t)
    case Arr(gap, items) => Blank(gap) && ItemsOk(items, [']'] + t)
    case Obj(gap, fields) => Blank(gap) && FieldsOk(fields, ['}'] + t)
  }

  ghost predicate ItemsOk(items: Items, t: string)
    decreases items, 0
  {
    match items
    case NoItems => true
    case Item(tree, after, gap, more) =>
      Blank(after) && Blank(gap) && TreeOk(tree, after + Next(more.Item?, gap, SpellItems(more, t))) && ItemsOk(more, t)
  }

  ghost predicate FieldsOk(fields: Fields, t: string)
    decreases fields, 0
  {
    match fields
    case NoFields => true
    case Field(name, key, colon, space, tree, after, gap, more) =>
      var rest := after + Next(more.Field?, gap, SpellFields(more, t));
      && Blank(colon) && Blank(space) && Blank(after) && Blank(gap)
      && NameOk(name, key, colon + ([':'] + (space + Spell(tree, rest))))
      && TreeOk(tree, rest) && FieldsOk(more, t)
  }

  // ----- the grammar's texts are accepted

  lemma TreeFirst(tree: Tree, t: string)
    requires TreeOk(tree, t)
    ensures var c := Ch(Spell(tree, t)); c > ' ' && c != ']' && c != '}' && c != ','
  {
  }

  lemma {:induction false} TreeAccepted(tree: Tree, t: string)
    requires TreeOk(tree, t)
    ensures ParseValue(Spell(tree, t)) == Done(Meant(tree), t)
    decreases tree, 2
  {
    match tree
    case Leaf(text, v) => LeafAccepted(text, v, t);
    case Arr(gap, items) => ArrayAccepted(gap, items, t);
    case Obj(gap, fields) => ObjectAccepted(gap, fields, t);
  }

  lemma LeafAccepted(text: string, v: Value, t: string)
    requires LeafOk(text, v, t)
    ensures ParseValue(text + t) == Done(v, t)
  {
    LiteralBack(t);
    if text != "null" && text != "false" && text != "true" {
      assert Ch(text + t) == text[0];
      NotLiteral(text + t);
    }
  }

  lemma ArrayAccepted(gap: string, items: Items, t: string)
    requires Blank(gap) && ItemsOk(items, [']'] + t)
    ensures ParseValue(['['] + (gap + SpellItems(items, [']'] + t))) == Done(Array(MeantItems(items)), t)
    decreases items, 2
  {
    var end := [']'] + t;
    var body := SpellItems(items, end);
    SkipBlank(gap, body);
    if items == NoItems {
      First(']', t);
      SkipNone(body);
      EmptyBracket(gap + body, t);
    } else {
      TreeFirst(items.tree, items.after + Next(items.more.Item?, items.gap, SpellItems(items.more, end)));
      SkipNone(body);
      ItemsAccepted(items, t);
      BracketBack(gap + body, MeantItems(items), t);
    }
    ArrayDispatch(gap + body);
  }

  lemma ArrayDispatch(body: string)
    ensures ParseValue(['['] + body) == ParseArray(['['] + body)
  {
    First('[', body);
    Dispatch(['['] + body);
  }

  lemma EmptyBracket(body: string, t: string)
    requires Skip(body) == [']'] + t
    ensures ParseArray(['['] + body) == Done(Array(Nil), t)
  {
    First('[', body);
    First(']', t);
  }

  lemma BracketBack(body: string, items: Elems, t: string)
    requires Ch(Skip(body)) != ']' && ParseElems(Skip(body)) == Done(items, t)
    ensures ParseArray(['['] + body) == Done(Array(items), t)
  {
    First('[', body);
  }

  lemma {:induction false} ItemsAccepted(items: Items, t: string)
    requires items.Item? && ItemsOk(items, [']'] + t)
    ensures ParseElems(SpellItems(items, [']'] + t)) == Done(MeantItems(items), t)
    decreases items, 1
  {
    var end := [']'] + t;
    var more := SpellItems(items.more, end);
    var next := Next(items.more.Item?, items.gap, more);
    TreeFirst(items.tree, items.after + next);
    SkipNone(SpellItems(items, end));
    TreeAccepted(items.tree, items.after + next);
    SkipBlank(items.after, next);
    First(']', t);
    if items.more == NoItems {
      SkipNone(end);
    } else {
      First(',', items.gap + more);
      SkipNone(next);
      BlankElems(items.gap, more);
      ItemsAccepted(items.more, t);
    }
  }

  lemma ObjectAccepted(gap: string, fields: Fields, t: string)
    requires Blank(gap) && FieldsOk(fields, ['}'] + t)
    ensures ParseValue(['{'] + (gap + SpellFields(fields, ['}'] + t))) == Done(Object(MeantFields(fields)), t)
    decreases fields, 2
  {
    var body := SpellFields(fields, ['}'] + t);
    SkipBlank(gap, body);
    if fields == NoFields {
      First('}', t);
      SkipNone(body);
      EmptyBrace(gap + body, t);
    } else {
      assert Ch(body) == '\"';
      SkipNone(body);
      FieldsAccepted(fields, t);
      BraceBack(gap + body, MeantFields(fields), t);
    }
    ObjectDispatch(gap + body);
  }

  lemma ObjectDispatch(body: string)
    ensures ParseValue(['{'] + body) == ParseObject(['{'] + body)
  {
    First('{', body);
    Dispatch(['{'] + body);
  }

  lemma EmptyBrace(body: string, t: string)
    requires Skip(body) == ['}'] + t
    ensures ParseObject(['{'] + body) == Done(Object(None), t)
  {
    First('{', body);
    First('}', t);
  }

  lemma {:induction false} FieldsAccepted(fields: Fields, t: string)
    requires fields.Field? && FieldsOk(fields, ['}'] + t)
    ensures ParseMembers(SpellFields(fields, ['}'] + t)) == Done(MeantFields(fields), t)
    decreases fields, 1
  {
    var end := ['}'] + t;
    var more := SpellFields(fields.more, end);
    var next := Next(fields.more.Field?, fields.gap, more);
    var value := Spell(fields.tree, fields.after + next);
    var u := SpellFields(fields, end);
    assert Ch(u) == '\"';
    SkipNone(u);
    ColonAccepted(fields.colon, fields.space, value);
    TreeFirst(fields.tree, fields.after + next);
    SkipNone(value);
    TreeAccepted(fields.tree, fields.after + next);
    SkipBlank(fields.after, next);
    First('}', t);
    if fields.more == NoFields {
      SkipNone(end);
    } else {
      First(',', fields.gap + more);
      SkipNone(next);
      BlankMembers(fields.gap, more);
      FieldsAccepted(fields.more, t);
    }
  }

  /** From behind a name to its value. */
  lemma ColonAccepted(colon: string, space: string, value: string)
    requires Blank(colon) && Blank(space)
    ensures var t1 := Skip(colon + ([':'] + (space + value))); Ch(t1) == ':' && Skip(t1[1..]) == Skip(value)
  {
    First(':', space + value);
    SkipBlank(colon, [':'] + (space + value));
    SkipNone([':'] + (space + value));
    SkipBlank(space, value);
  }

  // ----- what is accepted is a text of the grammar

  ghost predicate EndOf(r: string, t: string) {
    |r| <= |t| && r == t[|t|-|r|..]
  }

  lemma EndTrans(r: string, s: string, t: string)
    requires EndOf(r, s) && EndOf(s, t)
    ensures EndOf(r, t)
  {
  }

  lemma {:induction false} SkipSplits(t: string) returns (gap: string)
    ensures Blank(gap) && t == gap + Skip(t)
  {
    if t != [] && t[0] != NUL && t[0] <= ' ' {
      var more := SkipSplits(t[1..]);
      gap := [t[0]] + more;
    } else {
      gap := [];
    }
  }

  lemma {:induction false} AccumulateEnds(n: nat, t: string)
    ensures EndOf(Accumulate(n, t).1, t)
    decreases |t|
  {
    if t != [] && IsDigit(t[0]) {
      AccumulateEnds(n * 10 + (t[0] - '0') as nat, t[1..]);
    }
  }

  lemma AccumulateReads(n: nat, t: string)
    requires t != [] && IsDigit(t[0])
    ensures |Accumulate(n, t).1| < |t|
  {
    AccumulateEnds(n * 10 + (t[0] - '0') as nat, t[1..]);
  }

  lemma PartsEnd(n: nat, t: string)
    ensures EndOf(Exponent(Fraction(n, t).2).1, t)
  {
    var u := Fraction(n, t).2;
    FractionEnds(n, t);
    ExponentEnds(u);
    EndTrans(Exponent(u).1, u, t);
  }

  lemma NumberEnds(t: string)
    requires Ch(t) == '-' || IsDigit(Ch(t))
    ensures EndOf(ParseNumber(t).rest, t) && |ParseNumber(t).rest| < |t|
  {
    var t0 := if Ch(t) == '-' then t[1..] else t;
    IntegerEnds(t0);
    PartsEnd(Integer(t0).0, Integer(t0).1);
    EndTrans(ParseNumber(t).rest, Integer(t0).1, t0);
    EndTrans(ParseNumber(t).rest, t0, t);
  }

  lemma IntegerEnds(t: string)
    ensures EndOf(Integer(t).1, t) && (t != [] && IsDigit(t[0]) ==> |Integer(t).1| < |t|)
  {
    var t1 := if Ch(t) == '0' then t[1..] else t;
    if '1' <= Ch(t1) <= '9' {
      AccumulateEnds(0, t1);
      AccumulateReads(0, t1);
      EndTrans(Accumulate(0, t1).1, t1, t);
    }
  }

  lemma FractionEnds(n: nat, t: string)
    ensures EndOf(Fraction(n, t).2, t)
  {
    if Ch(t) == '.' { AccumulateEnds(n, t[1..]); }
  }

  lemma ExponentEnds(t: string)
    ensures EndOf(Exponent(t).1, t)
  {
    if Ch(t) == 'e' || Ch(t) == 'E' {
      var t1 := t[1..];
      var t2 := if Ch(t1) == '+' || Ch(t1) == '-' then t1[1..] else t1;
      AccumulateEnds(0, t2);
      EndTrans(Accumulate(0, t2).1, t2, t);
    }
  }

  lemma DropEnds(t: string, n: nat)
    ensures EndOf(Drop(t, n), t)
  {
  }

  lemma UnicodeEnds(t: string)
    requires t != []
    ensures EndOf(Unicode(t).1, t)
  {
    var t1 := Drop(t, 4);
    DropEnds(t, 4);
    DropEnds(t1, 6);
    EndTrans(Drop(t1, 6), t1, t);
  }

  lemma EscapeStops(t: string)
    ensures EndOf(Escape(t).1, t)
  {
    if Ch(t) == 'u' { UnicodeEnds(t); }
  }

  lemma EscapeEnds(t: string)
    ensures EndOf(Drop(Escape(t).1, 1), t)
  {
    EscapeStops(t);
    DropAfter(Escape(t).1, t);
  }

  lemma DropAfter(r: string, t: string)
    requires EndOf(r, t)
    ensures EndOf(Drop(r, 1), t)
  {
    DropEnds(r, 1);
    EndTrans(Drop(r, 1), r, t);
  }

  lemma DecodeEscape(t: string)
    requires t != [] && t[0] == '\\'
    ensures Decode(t).1 == Decode(Drop(Escape(t[1..]).1, 1)).1
  {
  }

  lemma {:induction false} DecodeEnds(t: string)
    ensures EndOf(Decode(t).1, t)
    decreases |t|
  {
    if t == [] || t[0] == '\"' || t[0] == NUL {
    } else if t[0] != '\\' {
      DecodeEnds(t[1..]);
    } else {
      var u := Drop(Escape(t[1..]).1, 1);
      DecodeEscape(t);
      EscapeEnds(t[1..]);
      DecodeEnds(u);
      EndTrans(Decode(u).1, u, t[1..]);
    }
  }

  lemma StringEnds(t: string)
    requires t != [] && t[0] == '\"'
    ensures ParseString(t).Done? && EndOf(ParseString(t).rest, t)
  {
    DecodeEnds(t[1..]);
    var r := Decode(t[1..]).1;
    EndTrans(r, t[1..], t);
    DropAfter(r, t);
  }

  /** What parse_string has read of the text. */
  lemma NameSplits(t: string) returns (name: string)
    requires ParseString(t).Done?
    ensures var r := ParseString(t); t == name + r.rest && NameOk(name, r.item, r.rest)
  {
    StringEnds(t);
    var r := ParseString(t);
    name := t[..|t|-|r.rest|];
    assert t == name + r.rest && name[0] == t[0];
  }

  lemma LiteralSpelled(t: string) returns (tree: Tree)
    requires "null" <= t || "false" <= t || "true" <= t
    ensures var r := ParseValue(t); r.Done? && TreeOk(tree, r.rest) && Spell(tree, r.rest) == t && Meant(tree) == r.item
  {
    if "null" <= t {
      assert t == "null" + t[4..];
      LiteralBack(t[4..]);
      tree := Leaf("null", Null);
    } else if "false" <= t {
      assert t == "false" + t[5..];
      LiteralBack(t[5..]);
      tree := Leaf("false", False);
    } else {
      assert t == "true" + t[4..];
      LiteralBack(t[4..]);
      tree := Leaf("true", True);
    }
  }

  lemma StringRead(t: string)
    requires t != [] && t[0] == '\"'
    ensures ParseString(t).Done? && ParseValue(t) == Done(Str(ParseString(t).item), ParseString(t).rest)
  {
    NotLiteral(t);
  }

  lemma StringSpelled(t: string) returns (tree: Tree)
    requires t != [] && t[0] == '\"'
    ensures var r := ParseValue(t); r.Done? && TreeOk(tree, r.rest) && Spell(tree, r.rest) == t && Meant(tree) == r.item
  {
    StringRead(t);
    var name := NameSplits(t);
    tree := Leaf(name, Str(ParseString(t).item));
  }

  lemma NumberReadAt(t: string)
    requires Ch(t) == '-' || IsDigit(Ch(t))
    ensures ParseValue(t) == ParseNumber(t)
  {
    NotLiteral(t);
  }

  lemma NumberSpelled(t: string) returns (tree: Tree)
    requires Ch(t) == '-' || IsDigit(Ch(t))
    ensures var r := ParseValue(t); r.Done? && TreeOk(tree, r.rest) && Spell(tree, r.rest) == t && Meant(tree) == r.item
  {
    NumberReadAt(t);
    var r := ParseNumber(t);
    NumberEnds(t);
    var text := t[..|t|-|r.rest|];
    assert t == text + r.rest && text[0] == t[0];
    tree := Leaf(text, r.item);
  }

  lemma Refused(t: string)
    requires !("null" <= t) && !("false" <= t) && !("true" <= t) && Ch(t) != '\"' && Ch(t) != '-' && !IsDigit(Ch(t)) && Ch(t) != '[' && Ch(t) != '{'
    ensures ParseValue(t).Failed?
  {
  }

  lemma {:induction false} ValueSpelled(t: string) returns (tree: Tree)
    requires ParseValue(t).Done?
    ensures var r := ParseValue(t); TreeOk(tree, r.rest) && Spell(tree, r.rest) == t && Meant(tree) == r.item
    decreases |t|, 2
  {
    Dispatch(t);
    if Ch(t) == '[' {
      tree := ArraySpelled(t);
    } else if Ch(t) == '{' {
      tree := ObjectSpelled(t);
    } else if Ch(t) == '\"' {
      tree := StringSpelled(t);
    } else if Ch(t) == '-' || IsDigit(Ch(t)) {
      tree := NumberSpelled(t);
    } else if "null" <= t || "false" <= t || "true" <= t {
      tree := LiteralSpelled(t);
    } else {
      Refused(t);
    }
  }

  lemma ArraySpelled(t: string) returns (tree: Tree)
    requires t != [] && t[0] == '[' && ParseArray(t).Done?
    ensures var r := ParseArray(t); TreeOk(tree, r.rest) && Spell(tree, r.rest) == t && Meant(tree) == r.item
    decreases |t|, 1
  {
    var gap := SkipSplits(t[1..]);
    var t1 := Skip(t[1..]);
    assert t == ['['] + (gap + t1);
    if Ch(t1) == ']' {
      tree := Arr(gap, NoItems);
      assert t1 == [']'] + t1[1..];
    } else {
      var items := ElemsSpelled(t1);
      var w := SkipSplits(t1);
      SkipTwice(t[1..]);
      tree := Arr(gap, items);
    }
  }

  /** What parse_array has found when it accepts an item. */
  lemma ItemParts(t: string)
    requires ParseElems(t).Done?
    ensures var v := ParseValue(Skip(t));
      && v.Done?
      && var t1 := Skip(v.rest);
      && (Ch(t1) == ',' || Ch(t1) == ']')
      && (Ch(t1) == ',' ==> ParseElems(t1[1..]).Done? && ParseElems(t) == Done(Cons(v.item, ParseElems(t1[1..]).item), ParseElems(t1[1..]).rest))
      && (Ch(t1) == ']' ==> ParseElems(t) == Done(Cons(v.item, Nil), t1[1..]))
  {
  }

  /** What follows an item: a comma and more items, or the closing bracket. */
  lemma {:induction false} RestSpelled(u: string) returns (after: string, gap: string, more: Items)
    requires (Ch(Skip(u)) == ',' && ParseElems(Skip(u)[1..]).Done?) || Ch(Skip(u)) == ']'
    ensures var t1 := Skip(u);
      var end := [']'] + if Ch(t1) == ',' then ParseElems(t1[1..]).rest else t1[1..];
      && Blank(after) && Blank(gap) && u == after + Next(more.Item?, gap, SpellItems(more, end)) && ItemsOk(more, end)
      && MeantItems(more) == if Ch(t1) == ',' then ParseElems(t1[1..]).item else Nil
    decreases |u|, 3
  {
    var t1 := Skip(u);
    after := SkipSplits(u);
    assert t1 == [Ch(t1)] + t1[1..];
    if Ch(t1) == ',' {
      gap := SkipSplits(t1[1..]);
      more := ElemsSpelled(t1[1..]);
      assert t1 == [','] + (gap + Skip(t1[1..]));
    } else {
      gap, more := [], NoItems;
      assert t1 == [']'] + t1[1..];
    }
  }

  lemma {:induction false} ElemsSpelled(t: string) returns (items: Items)
    requires ParseElems(t).Done?
    ensures var r := ParseElems(t);
      items.Item? && ItemsOk(items, [']'] + r.rest) && SpellItems(items, [']'] + r.rest) == Skip(t) && MeantItems(items) == r.item
    decreases |t|, 4
  {
    ItemParts(t);
    var s := Skip(t);
    var v := ParseValue(s);
    var tree := ValueSpelled(s);
    var after, gap, more := RestSpelled(v.rest);
    items := Item(tree, after, gap, more);
    ItemIs(items, [']'] + ParseElems(t).rest, s, v.rest);
  }

  /** An item put together from its parts. */
  lemma ItemIs(items: Items, end: string, s: string, rest: string)
    requires items.Item? && Blank(items.after) && Blank(items.gap)
    requires ItemsOk(items.more, end) && rest == items.after + Next(items.more.Item?, items.gap, SpellItems(items.more, end))
    requires TreeOk(items.tree, rest) && s == Spell(items.tree, rest)
    ensures ItemsOk(items, end) && SpellItems(items, end) == s
  {
  }

  lemma ObjectSpelled(t: string) returns (tree: Tree)
    requires t != [] && t[0] == '{' && ParseObject(t).Done?
    ensures var r := ParseObject(t); TreeOk(tree, r.rest) && Spell(tree, r.rest) == t && Meant(tree) == r.item
    decreases |t|, 1
  {
    var gap := SkipSplits(t[1..]);
    var t1 := Skip(t[1..]);
    assert t == ['{'] + (gap + t1);
    if Ch(t1) == '}' {
      tree := Obj(gap, NoFields);
      assert t1 == ['}'] + t1[1..];
    } else {
      var fields := MembersSpelled(t1);
      SkipTwice(t[1..]);
      tree := Obj(gap, fields);
    }
  }

  /** What parse_object has found when it accepts a member. */
  lemma MemberParts(t: string)
    requires ParseMembers(t).Done?
    ensures var n := ParseString(Skip(t));
      && n.Done?
      && var t1 := Skip(n.rest);
      && Ch(t1) == ':'
      && var v := ParseValue(Skip(t1[1..]));
      && v.Done?
      && var t2 := Skip(v.rest);
      && (Ch(t2) == ',' || Ch(t2) == '}')
      && (Ch(t2) == ',' ==> ParseMembers(t2[1..]).Done? && ParseMembers(t) == Done(Member(n.item, v.item, ParseMembers(t2[1..]).item), ParseMembers(t2[1..]).rest))
      && (Ch(t2) == '}' ==> ParseMembers(t) == Done(Member(n.item, v.item, None), t2[1..]))
  {
  }

  /** The first member of what parse_object has accepted, up to what follows its value. */
  lemma HeadSpelled(s: string) returns (name: string, colon: string, space: string, tree: Tree, after: string)
    requires ParseString(s).Done? && Ch(Skip(ParseString(s).rest)) == ':'
    requires ParseValue(Skip(Skip(ParseString(s).rest)[1..])).Done?
    ensures var n := ParseString(s); var s2 := Skip(Skip(n.rest)[1..]); var v := ParseValue(s2);
      && Blank(colon) && Blank(space) && Blank(after) && s == name + n.rest && NameOk(name, n.item, n.rest)
      && n.rest == colon + ([':'] + (space + s2)) && s2 == Spell(tree, v.rest) && TreeOk(tree, v.rest) && Meant(tree) == v.item
      && v.rest == after + Skip(v.rest)
    decreases |s|, 2, 1
  {
    var n := ParseString(s);
    var s2 := Skip(Skip(n.rest)[1..]);
    name := NameSplits(s);
    colon, space := ColonSpelled(n.rest);
    tree := ValueSpelled(s2);
    after := SkipSplits(ParseValue(s2).rest);
  }

  lemma {:induction false} MembersSpelled(t: string) returns (fields: Fields)
    requires ParseMembers(t).Done?
    ensures var r := ParseMembers(t);
      fields.Field? && FieldsOk(fields, ['}'] + r.rest) && SpellFields(fields, ['}'] + r.rest) == Skip(t) && MeantFields(fields) == r.item
    decreases |t|, 3
  {
    MemberParts(t);
    var s := Skip(t);
    var n := ParseString(s);
    var s2 := Skip(Skip(n.rest)[1..]);
    var v := ParseValue(s2);
    var t2 := Skip(v.rest);
    var name, colon, space, tree, after := HeadSpelled(s);
    var gap, more := "", NoFields;
    if Ch(t2) == ',' {
      gap := SkipSplits(t2[1..]);
      more := MembersSpelled(t2[1..]);
    }
    fields := Field(name, n.item, colon, space, tree, after, gap, more);
    assert t2 == [Ch(t2)] + t2[1..];
    FieldIs(fields, ['}'] + ParseMembers(t).rest, s, n.rest, s2, v.rest);
  }

  lemma ColonSpelled(t: string) returns (colon: string, space: string)
    requires Ch(Skip(t)) == ':'
    ensures Blank(colon) && Blank(space) && t == colon + ([':'] + (space + Skip(Skip(t)[1..])))
  {
    var t1 := Skip(t);
    colon := SkipSplits(t);
    space := SkipSplits(t1[1..]);
    assert t1 == [':'] + t1[1..];
  }

  /** A member put together from its parts. */
  lemma FieldIs(fields: Fields, end: string, s: string, n: string, s2: string, rest: string)
    requires fields.Field? && Blank(fields.colon) && Blank(fields.space) && Blank(fields.after) && Blank(fields.gap)
    requires FieldsOk(fields.more, end) && rest == fields.after + Next(fields.more.Field?, fields.gap, SpellFields(fields.more, end))
    requires TreeOk(fields.tree, rest) && s2 == Spell(fields.tree, rest) && n == fields.colon + ([':'] + (fields.space + s2))
    requires NameOk(fields.name, fields.key, n) && s == fields.name + n
    ensures FieldsOk(fields, end) && SpellFields(fields, end) == s
  {
  }

  /** A tree that spells the text t up to rest. */
  ghost predicate Spells(tree: Tree, t: string, v: Value, rest: string) {
    TreeOk(tree, rest) && Spell(tree, rest) == t && Meant(tree) == v
  }

  /** parse_value returns the item v and leaves the text `rest` exactly if the grammar writes v in front of `rest`. */
  lemma AcceptedIff(t: string, v: Value, rest: string)
    ensures ParseValue(t) == Done(v, rest) <==> exists tree :: Spells(tree, t, v, rest)
  {
    if ParseValue(t) == Done(v, rest) {
      var tree := ValueSpelled(t);
      assert Spells(tree, t, v, rest);
    }
    if tree :| Spells(tree, t, v, rest) {
      TreeAccepted(tree, rest);
    }
  }
}
