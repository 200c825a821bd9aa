/**
 * The flat scan for repeated object keys, and the parse tree it must agree with.
 *
 * A document is given as its concrete syntax (section 2 of RFC 8259) and rendered to
 * text. Scalars and string bodies are taken more loosely than sections 6 and 7 define
 * them, so the result covers every well-formed text and more.
 */
module JsonKeys {
  import opened Sequences
  import opened CodeUnits

  const QUOTE: CodeUnit := 0x22
  const BACKSLASH: CodeUnit := 0x5c
  const OPEN_BRACE: CodeUnit := 0x7b
  const CLOSE_BRACE: CodeUnit := 0x7d
  const OPEN_BRACKET: CodeUnit := 0x5b
  const CLOSE_BRACKET: CodeUnit := 0x5d
  const COMMA: CodeUnit := 0x2c
  const COLON: CodeUnit := 0x3a

  /** Decodes a string token, quotes included, to the name it spells. */
  type Decoder = Text -> Text

  // ------------------------------------------------------------------ concrete syntax

  datatype Json =
    | Scalar(text: Text)
    | Str(body: Text)
    | Arr(blank: Text, items: Items)
    | Obj(blank: Text, members: Members)

  /** A value between insignificant whitespace. */
  datatype Item = Item(before: Text, value: Json, after: Text)

  datatype Items = NoItems | ItemThen(head: Item, tail: Items)

  datatype Members = NoMembers | MemberThen(before: Text, body: Text, after: Text, value: Item, tail: Members)

  predicate Special(u: CodeUnit) {
    u in {QUOTE, OPEN_BRACE, CLOSE_BRACE, OPEN_BRACKET, CLOSE_BRACKET, COMMA, COLON}
  }

  /** Text the scan passes over: whitespace, numbers and the three literal names. */
  predicate Plain(t: Text) {
    forall i :: 0 <= i < |t| ==> !Special(t[i])
  }

  /** The inside of a string token: no bare quote, and every backslash escapes a unit. */
  predicate StringBody(t: Text) {
    t == [] ||
    (if t[0] == BACKSLASH then |t| >= 2 && StringBody(t[2..]) else t[0] != QUOTE && StringBody(t[1..]))
  }

  function Token(body: Text): Text {
    [QUOTE] + body + [QUOTE]
  }

  predicate WellFormed(v: Json) {
    match v
    case Scalar(text) => Plain(text)
    case Str(body) => StringBody(body)
    case Arr(blank, items) => Plain(blank) && ItemsWellFormed(items)
    case Obj(blank, members) => Plain(blank) && MembersWellFormed(members)
  }

  predicate ItemWellFormed(e: Item) {
    Plain(e.before) && WellFormed(e.value) && Plain(e.after)
  }

  predicate ItemsWellFormed(items: Items) {
    items.NoItems? || (ItemWellFormed(items.head) && ItemsWellFormed(items.tail))
  }

  predicate MembersWellFormed(ms: Members) {
    ms.NoMembers? ||
    (Plain(ms.before) && StringBody(ms.body) && Plain(ms.after) && ItemWellFormed(ms.value) &&
     MembersWellFormed(ms.tail))
  }

  function Render(v: Json): Text {
    match v
    case Scalar(text) => text
    case Str(body) => Token(body)
    case Arr(blank, items) => [OPEN_BRACKET] + (if items.NoItems? then blank else RenderItems(items)) + [CLOSE_BRACKET]
    case Obj(blank, members) =>
      [OPEN_BRACE] + (if members.NoMembers? then blank else RenderMembers(members)) + [CLOSE_BRACE]
  }

  function RenderItem(e: Item): Text {
    e.before + Render(e.value) + e.after
  }

  function RenderItems(items: Items): Text {
    match items
    case NoItems => []
    case ItemThen(head, tail) => RenderItem(head) + (if tail.NoItems? then [] else [COMMA] + RenderItems(tail))
  }

  function RenderMembers(ms: Members): Text {
    match ms
    case NoMembers => []
    case MemberThen(before, body, after, value, tail) =>
      before + Token(body) + after + [COLON] + RenderItem(value) +
      (if tail.NoMembers? then [] else [COMMA] + RenderMembers(tail))
  }

  // --------------------------------------------------------------- the tree's answer

  function Names(decode: Decoder, ms: Members): seq<Text> {
    if ms.NoMembers? then [] else [decode(Token(ms.body))] + Names(decode, ms.tail)
  }

  /** Some object at some depth has two members of one decoded name. */
  ghost predicate RepeatsName(decode: Decoder, v: Json) {
    match v
    case Scalar(_) => false
    case Str(_) => false
    case Arr(_, items) => SomeItemRepeats(decode, items)
    case Obj(_, members) => !Distinct(Names(decode, members)) || SomeMemberRepeats(decode, members)
  }

  ghost predicate SomeItemRepeats(decode: Decoder, items: Items) {
    items.ItemThen? && (RepeatsName(decode, items.head.value) || SomeItemRepeats(decode, items.tail))
  }

  ghost predicate SomeMemberRepeats(decode: Decoder, ms: Members) {
    ms.MemberThen? && (RepeatsName(decode, ms.value.value) || SomeMemberRepeats(decode, ms.tail))
  }

  // ------------------------------------------------------------------------ the scan

  datatype Frame = Frame(isObject: bool, keys: set<Text>)

  /** Index just past the string token that opens at index start. */
  method EndOfJsonString(text: Text, start: nat) returns (end: nat)
    requires start < |text|
    ensures start < end <= |text| && end == start + 1 + BodyEnd(text[start + 1..])
  {
    var index := start + 1;
    assert text[start + 1..][0..] == text[start + 1..];
    while index < |text|
      invariant start < index <= |text| + 1
      invariant index <= |text| ==>
        start + 1 + BodyEnd(text[start + 1..]) == index + BodyEnd(text[index..])
      invariant index == |text| + 1 ==> start + 1 + BodyEnd(text[start + 1..]) == |text|
      decreases |text| + 1 - index
    {
      if text[index] == BACKSLASH {
        assert index + 2 <= |text| ==> text[index..][2..] == text[index + 2..];
        index := index + 2;
      } else if text[index] == QUOTE {
        return index + 1;
      } else {
        assert text[index..][1..] == text[index + 1..];
        index := index + 1;
      }
    }
    end := |text|;
  }

  /** How far the rest of a token reaches, its closing quote included. */
  function BodyEnd(t: Text): (n: nat)
    ensures n <= |t|
  {
    if t == [] then 0
    else if t[0] == BACKSLASH then (if |t| >= 2 then 2 + BodyEnd(t[2..]) else 1)
    else if t[0] == QUOTE then 1
    else 1 + BodyEnd(t[1..])
  }

  function Pop(stack: seq<Frame>): seq<Frame> {
    if stack == [] then [] else stack[..|stack| - 1]
  }

  predicate TopIsObject(stack: seq<Frame>) {
    stack != [] && stack[|stack| - 1].isObject
  }

  /** The scan from here on: whether some name still repeats. */
  function Scan(decode: Decoder, text: Text, stack: seq<Frame>, expectKey: bool): bool
    decreases |text|
  {
    if text == [] then false
    else if text[0] == OPEN_BRACE then Scan(decode, text[1..], stack + [Frame(true, {})], true)
    else if text[0] == OPEN_BRACKET then Scan(decode, text[1..], stack + [Frame(false, {})], false)
    else if text[0] == CLOSE_BRACE || text[0] == CLOSE_BRACKET then Scan(decode, text[1..], Pop(stack), false)
    else if text[0] == COMMA then Scan(decode, text[1..], stack, TopIsObject(stack))
    else if text[0] == COLON then Scan(decode, text[1..], stack, false)
    else if text[0] == QUOTE then
      var end := 1 + BodyEnd(text[1..]);
      if !expectKey || stack == [] then Scan(decode, text[end..], stack, false)
      else
        var top, key := stack[|stack| - 1], decode(text[..end]);
        key in top.keys || Scan(decode, text[end..], Pop(stack) + [Frame(top.isObject, top.keys + {key})], false)
    else Scan(decode, text[1..], stack, expectKey)
  }

  method HasDuplicateJsonKeys(decode: Decoder, text: Text) returns (found: bool)
    ensures found == Scan(decode, text, [], false)
  {
    var stack: seq<Frame> := [];
    var expectKey := false;
    var index := 0;
    assert text[0..] == text;
    while index < |text|
      invariant 0 <= index <= |text|
      invariant Scan(decode, text, [], false) == Scan(decode, text[index..], stack, expectKey)
    {
      var u, here := text[index], text[index..];
      assert here[1..] == text[index + 1..];
      if u == OPEN_BRACE {
        stack, expectKey, index := stack + [Frame(true, {})], true, index + 1;
      } else if u == OPEN_BRACKET {
        stack, expectKey, index := stack + [Frame(false, {})], false, index + 1;
      } else if u == CLOSE_BRACE || u == CLOSE_BRACKET {
        stack, expectKey, index := Pop(stack), false, index + 1;
      } else if u == COMMA {
        expectKey, index := TopIsObject(stack), index + 1;
      } else if u == COLON {
        expectKey, index := false, index + 1;
      } else if u == QUOTE {
        var end := EndOfJsonString(text, index);
        assert here[end - index..] == text[end..] && here[..end - index] == text[index..end];
        if expectKey {
          if stack != [] {
            var top, key := stack[|stack| - 1], decode(text[index..end]);
            if key in top.keys { return true; }
            stack := Pop(stack) + [Frame(top.isObject, top.keys + {key})];
          }
          expectKey := false;
        }
        index := end;
      } else {
        index := index + 1;
      }
    }
    found := false;
  }

  // -------------------------------------------------------- the scan agrees with the tree

  lemma {:induction false} PlainSkipped(decode: Decoder, t: Text, rest: Text, stack: seq<Frame>, expectKey: bool)
    requires Plain(t)
    ensures Scan(decode, t + rest, stack, expectKey) == Scan(decode, rest, stack, expectKey)
  {
    if t == [] {
      assert t + rest == rest;
    } else {
      assert (t + rest)[0] == t[0] && (t + rest)[1..] == t[1..] + rest;
      PlainSkipped(decode, t[1..], rest, stack, expectKey);
    }
  }

  lemma {:induction false} BodyEndsAtQuote(body: Text, rest: Text)
    requires StringBody(body)
    ensures BodyEnd(body + [QUOTE] + rest) == |body| + 1
  {
    var t := body + [QUOTE] + rest;
    if body == [] {
      assert t[0] == QUOTE;
    } else if body[0] == BACKSLASH {
      assert t[0] == BACKSLASH && t[2..] == body[2..] + [QUOTE] + rest;
      BodyEndsAtQuote(body[2..], rest);
    } else {
      assert t[0] == body[0] && t[1..] == body[1..] + [QUOTE] + rest;
      BodyEndsAtQuote(body[1..], rest);
    }
  }

  /** A whole string token at the front of the text. */
  lemma TokenAhead(body: Text, rest: Text)
    requires StringBody(body)
    ensures var t := Token(body) + rest; var end := 1 + BodyEnd(t[1..]);
      t[0] == QUOTE && end == |Token(body)| && t[..end] == Token(body) && t[end..] == rest
  {
    var t := Token(body) + rest;
    assert t[1..] == body + [QUOTE] + rest;
    BodyEndsAtQuote(body, rest);
    assert t[..|Token(body)|] == Token(body) && t[|Token(body)|..] == rest;
  }

  lemma StringSkipped(decode: Decoder, body: Text, rest: Text, stack: seq<Frame>)
    requires StringBody(body)
    ensures Scan(decode, Token(body) + rest, stack, false) == Scan(decode, rest, stack, false)
  {
    TokenAhead(body, rest);
  }

  lemma KeyRead(decode: Decoder, body: Text, rest: Text, outer: seq<Frame>, keys: set<Text>)
    requires StringBody(body)
    ensures var key := decode(Token(body));
      Scan(decode, Token(body) + rest, outer + [Frame(true, keys)], true) ==
      (key in keys || Scan(decode, rest, outer + [Frame(true, keys + {key})], false))
  {
    TokenAhead(body, rest);
    assert Pop(outer + [Frame(true, keys)]) == outer;
  }

  lemma UnitRead(decode: Decoder, u: CodeUnit, rest: Text, stack: seq<Frame>, expectKey: bool)
    requires Special(u) && u != QUOTE
    ensures Scan(decode, [u] + rest, stack, expectKey) ==
      if u == OPEN_BRACE then Scan(decode, rest, stack + [Frame(true, {})], true)
      else if u == OPEN_BRACKET then Scan(decode, rest, stack + [Frame(false, {})], false)
      else if u == CLOSE_BRACE || u == CLOSE_BRACKET then Scan(decode, rest, Pop(stack), false)
      else if u == COMMA then Scan(decode, rest, stack, TopIsObject(stack))
      else Scan(decode, rest, stack, false)
  {
    assert ([u] + rest)[1..] == rest;
  }

  /** A name of these members is already taken, or repeats, or a value among them repeats one. */
  ghost predicate RepeatsGiven(decode: Decoder, keys: set<Text>, ms: Members)
    decreases ms
  {
    ms.MemberThen? &&
    var key := decode(Token(ms.body));
    (key in keys || RepeatsName(decode, ms.value.value) || RepeatsGiven(decode, keys + {key}, ms.tail))
  }

  lemma {:induction false} RepeatsGivenMeans(decode: Decoder, keys: set<Text>, ms: Members)
    ensures RepeatsGiven(decode, keys, ms) <==>
      (exists k <- Names(decode, ms) :: k in keys) || !Distinct(Names(decode, ms)) || SomeMemberRepeats(decode, ms)
    decreases ms
  {
    if ms.MemberThen? {
      var key, names := decode(Token(ms.body)), Names(decode, ms.tail);
      RepeatsGivenMeans(decode, keys + {key}, ms.tail);
      DistinctCons(key, names);
      assert forall k :: k in Names(decode, ms) <==> k == key || k in names;
    }
  }

  lemma DistinctCons(x: Text, s: seq<Text>)
    ensures Distinct([x] + s) <==> x !in s && Distinct(s)
  {
    var t := [x] + s;
    if Distinct(t) {
      forall i, j | 0 <= i < j < |s| ensures s[i] != s[j] { assert t[i + 1] != t[j + 1]; }
      forall i | 0 <= i < |s| ensures s[i] != x { assert t[0] != t[i + 1]; }
    }
  }

  lemma {:induction false} ScanValue(decode: Decoder, v: Json, rest: Text, stack: seq<Frame>)
    requires WellFormed(v)
    ensures Scan(decode, Render(v) + rest, stack, false) == (RepeatsName(decode, v) || Scan(decode, rest, stack, false))
    decreases v, 1
  {
    match v
    case Scalar(text) => PlainSkipped(decode, text, rest, stack, false);
    case Str(body) => StringSkipped(decode, body, rest, stack);
    case Arr(blank, items) => ScanArray(decode, blank, items, rest, stack);
    case Obj(blank, members) => ScanObject(decode, blank, members, rest, stack);
  }

  lemma {:induction false} ScanArray(decode: Decoder, blank: Text, items: Items, rest: Text, stack: seq<Frame>)
    requires Plain(blank) && ItemsWellFormed(items)
    ensures Scan(decode, Render(Arr(blank, items)) + rest, stack, false) ==
      (SomeItemRepeats(decode, items) || Scan(decode, rest, stack, false))
    decreases items, 2
  {
    var inner := if items.NoItems? then blank else RenderItems(items);
    var close := [CLOSE_BRACKET] + rest;
    var nested := stack + [Frame(false, {})];
    assert Render(Arr(blank, items)) + rest == [OPEN_BRACKET] + (inner + close);
    UnitRead(decode, OPEN_BRACKET, inner + close, stack, false);
    if items.NoItems? {
      PlainSkipped(decode, blank, close, nested, false);
    } else {
      ScanItems(decode, items, close, nested);
    }
    UnitRead(decode, CLOSE_BRACKET, rest, nested, false);
    assert Pop(nested) == stack;
  }

  lemma {:induction false} ScanObject(decode: Decoder, blank: Text, members: Members, rest: Text, stack: seq<Frame>)
    requires Plain(blank) && MembersWellFormed(members)
    ensures Scan(decode, Render(Obj(blank, members)) + rest, stack, false) ==
      (RepeatsName(decode, Obj(blank, members)) || Scan(decode, rest, stack, false))
    decreases members, 2
  {
    var inner := if members.NoMembers? then blank else RenderMembers(members);
    var close := [CLOSE_BRACE] + rest;
    assert Render(Obj(blank, members)) + rest == [OPEN_BRACE] + (inner + close);
    UnitRead(decode, OPEN_BRACE, inner + close, stack, false);
    RepeatsGivenMeans(decode, {}, members);
    if members.NoMembers? {
      PlainSkipped(decode, blank, close, stack + [Frame(true, {})], true);
      UnitRead(decode, CLOSE_BRACE, rest, stack + [Frame(true, {})], true);
      assert Pop(stack + [Frame(true, {})]) == stack;
    } else {
      var keys := ScanMembers(decode, members, close, stack, {});
      UnitRead(decode, CLOSE_BRACE, rest, stack + [Frame(true, keys)], false);
      assert Pop(stack + [Frame(true, keys)]) == stack;
    }
  }

  lemma {:induction false} ScanItem(decode: Decoder, e: Item, rest: Text, stack: seq<Frame>)
    requires ItemWellFormed(e)
    ensures Scan(decode, RenderItem(e) + rest, stack, false) ==
      (RepeatsName(decode, e.value) || Scan(decode, rest, stack, false))
    decreases e
  {
    assert RenderItem(e) + rest == e.before + (Render(e.value) + (e.after + rest));
    PlainSkipped(decode, e.before, Render(e.value) + (e.after + rest), stack, false);
    ScanValue(decode, e.value, e.after + rest, stack);
    PlainSkipped(decode, e.after, rest, stack, false);
  }

  lemma {:induction false} ScanItems(decode: Decoder, items: Items, rest: Text, stack: seq<Frame>)
    requires ItemsWellFormed(items) && items.ItemThen? && !TopIsObject(stack)
    ensures Scan(decode, RenderItems(items) + rest, stack, false) ==
      (SomeItemRepeats(decode, items) || Scan(decode, rest, stack, false))
    decreases items, 1
  {
    if items.tail.NoItems? {
      assert RenderItems(items) + rest == RenderItem(items.head) + rest;
      ScanItem(decode, items.head, rest, stack);
    } else {
      var more := RenderItems(items.tail) + rest;
      assert RenderItems(items) + rest == RenderItem(items.head) + ([COMMA] + more);
      ScanItem(decode, items.head, [COMMA] + more, stack);
      UnitRead(decode, COMMA, more, stack, false);
      ScanItems(decode, items.tail, rest, stack);
    }
  }

  /** Members scanned with the given names taken; keys is what is taken afterwards. */
  lemma {:induction false} ScanMembers(decode: Decoder, ms: Members, rest: Text, outer: seq<Frame>, taken: set<Text>)
    returns (keys: set<Text>)
    requires MembersWellFormed(ms) && ms.MemberThen?
    ensures Scan(decode, RenderMembers(ms) + rest, outer + [Frame(true, taken)], true) ==
      (RepeatsGiven(decode, taken, ms) || Scan(decode, rest, outer + [Frame(true, keys)], false))
    decreases ms, 1
  {
    var key := decode(Token(ms.body));
    keys := taken + {key};
    if ms.tail.NoMembers? {
      assert RenderMembers(ms) == RenderMember(ms) + [] == RenderMember(ms);
      ScanMember(decode, ms, rest, outer, taken);
    } else {
      var more := RenderMembers(ms.tail) + rest;
      assert RenderMembers(ms) + rest == RenderMember(ms) + ([COMMA] + more);
      ScanMember(decode, ms, [COMMA] + more, outer, taken);
      UnitRead(decode, COMMA, more, outer + [Frame(true, keys)], false);
      keys := ScanMembers(decode, ms.tail, rest, outer, keys);
    }
  }

  function RenderMember(ms: Members): Text
    requires ms.MemberThen?
  {
    ms.before + Token(ms.body) + ms.after + [COLON] + RenderItem(ms.value)
  }

  lemma {:induction false} ScanMember(decode: Decoder, ms: Members, rest: Text, outer: seq<Frame>, taken: set<Text>)
    requires MembersWellFormed(ms) && ms.MemberThen?
    ensures var key := decode(Token(ms.body));
      Scan(decode, RenderMember(ms) + rest, outer + [Frame(true, taken)], true) ==
      (key in taken || RepeatsName(decode, ms.value.value)
       || Scan(decode, rest, outer + [Frame(true, taken + {key})], false))
    decreases ms, 0
  {
    var key := decode(Token(ms.body));
    var before, after := outer + [Frame(true, taken)], outer + [Frame(true, taken + {key})];
    var value := RenderItem(ms.value) + rest;
    var colon := ms.after + ([COLON] + value);
    assert RenderMember(ms) + rest == ms.before + (Token(ms.body) + colon);
    PlainSkipped(decode, ms.before, Token(ms.body) + colon, before, true);
    KeyRead(decode, ms.body, colon, outer, taken);
    PlainSkipped(decode, ms.after, [COLON] + value, after, false);
    UnitRead(decode, COLON, value, after, false);
    ScanItem(decode, ms.value, rest, after);
  }

  /** The scan of a whole document finds a repeated name exactly when the tree holds one. */
  lemma ScanAgreesWithTree(decode: Decoder, document: Item)
    requires ItemWellFormed(document)
    ensures Scan(decode, RenderItem(document), [], false) == RepeatsName(decode, document.value)
  {
    ScanItem(decode, document, [], []);
    assert RenderItem(document) + [] == RenderItem(document);
  }
}
