/** Digging export records out of arbitrary bytes: the object scanner and the search for embedded records. */
module JsonScan {
  import opened Records

  // ---------------------------------------------------------------------------------------------
  // Bytes

  const QUOTE: byte := 0x22
  const BACKSLASH: byte := 0x5C
  const OPEN_BRACE: byte := 0x7B
  const CLOSE_BRACE: byte := 0x7D
  const OPEN_BRACKET: byte := 0x5B
  const CLOSE_BRACKET: byte := 0x5D
  const COLON: byte := 0x3A
  const COMMA: byte := 0x2C
  const LETTER_U: byte := 0x75

  /** `part` stands in `data` at position `i`. */
  predicate At(data: Bytes, i: nat, part: Bytes) {
    i + |part| <= |data| && data[i..i + |part|] == part
  }

  lemma AtSplit(data: Bytes, i: nat, a: Bytes, b: Bytes)
    requires At(data, i, a + b)
    ensures At(data, i, a) && At(data, i + |a|, b)
  {
    assert data[i..i + |a|] == (a + b)[..|a|];
    assert data[i + |a|..i + |a| + |b|] == (a + b)[|a|..];
  }

  // ---------------------------------------------------------------------------------------------
  // The scanner

  /** End of the object entered, starting from position `i` in the given state. */
  function ScanFrom(data: Bytes, i: nat, depth: int, inString: bool, escape: bool): (end: Option<nat>)
    ensures end.Some? ==> i < end.value <= |data|
    decreases |data| - i
  {
    if i >= |data| then None
    else
      var c := data[i];
      if inString then
        if escape then ScanFrom(data, i + 1, depth, true, false)
        else if c == BACKSLASH then ScanFrom(data, i + 1, depth, true, true)
        else ScanFrom(data, i + 1, depth, c != QUOTE, false)
      else if c == QUOTE then ScanFrom(data, i + 1, depth, true, escape)
      else if c == OPEN_BRACE then ScanFrom(data, i + 1, depth + 1, false, escape)
      else if c == CLOSE_BRACE then
        if depth - 1 == 0 then Some(i + 1) else ScanFrom(data, i + 1, depth - 1, false, escape)
      else ScanFrom(data, i + 1, depth, false, escape)
  }

  function Slice(data: Bytes, start: int): Option<Bytes> {
    if start < 0 || start >= |data| || data[start] != OPEN_BRACE then None
    else match ScanFrom(data, start, 0, false, false)
      case Some(end) => Some(data[start..end])
      case None => None
  }

  method SliceJSONObject(data: Bytes, start: int) returns (r: Option<Bytes>)
    ensures r == Slice(data, start)
  {
    if start < 0 || start >= |data| || data[start] != OPEN_BRACE {
      return None;
    }
    var depth := 0;
    var inString, escape := false, false;
    var i := start;
    while i < |data|
      invariant start <= i <= |data|
      invariant ScanFrom(data, i, depth, inString, escape) == ScanFrom(data, start, 0, false, false)
    {
      var c := data[i];
      if inString {
        if escape {
          escape := false;
        } else if c == BACKSLASH {
          escape := true;
        } else if c == QUOTE {
          inString := false;
        }
      } else if c == QUOTE {
        inString := true;
      } else if c == OPEN_BRACE {
        depth := depth + 1;
      } else if c == CLOSE_BRACE {
        depth := depth - 1;
        if depth == 0 {
          return Some(data[start..i + 1]);
        }
      }
      i := i + 1;
    }
    return None;
  }

  // ---------------------------------------------------------------------------------------------
  // JSON texts, as in RFC 8259: objects (section 4), arrays (section 5), strings (section 7)

  /** One character of a string: itself, a two-character escape, or a numeric escape. */
  datatype Item = Char(c: byte) | Escape(e: byte) | Hex(h: Bytes)

  /** Whitespace stands where the grammar allows it around structural characters. */
  datatype Json =
    | Literal(token: Bytes)
    | Number(digits: Bytes)
    | String(items: seq<Item>)
    | Array(ws: Bytes, elements: Elements)
    | Object(ws: Bytes, members: Members)

  datatype Elements = NoElement | Element(value: Json, wsAfter: Bytes, wsNext: Bytes, rest: Elements)

  datatype Members = NoMember
    | Member(key: seq<Item>, wsKey: Bytes, wsValue: Bytes, value: Json, wsAfter: Bytes, wsNext: Bytes, rest: Members)

  predicate IsSpace(ws: Bytes) {
    forall c | c in ws :: c in {0x20, 0x09, 0x0A, 0x0D}
  }

  predicate IsHexDigit(c: byte) {
    0x30 <= c <= 0x39 || 0x41 <= c <= 0x46 || 0x61 <= c <= 0x66
  }

  predicate ItemOK(item: Item) {
    match item
    case Char(c) => c >= 0x20 && c != QUOTE && c != BACKSLASH
    case Escape(e) => e in {QUOTE, BACKSLASH, 0x2F, 0x62, 0x66, 0x6E, 0x72, 0x74}
    case Hex(h) => |h| == 4 && forall c | c in h :: IsHexDigit(c)
  }

  predicate ItemsOK(items: seq<Item>) {
    forall item | item in items :: ItemOK(item)
  }

  const LITERALS: set<Bytes> := {
    [0x74, 0x72, 0x75, 0x65], [0x66, 0x61, 0x6C, 0x73, 0x65], [0x6E, 0x75, 0x6C, 0x6C] }

  /** Numbers are taken generously: any run of digits, signs, points and exponent letters. */
  predicate JsonOK(v: Json) {
    match v
    case Literal(token) => token in LITERALS
    case Number(digits) =>
      digits != [] && forall c | c in digits :: 0x30 <= c <= 0x39 || c in {0x2B, 0x2D, 0x2E, 0x45, 0x65}
    case String(items) => ItemsOK(items)
    case Array(ws, elements) => IsSpace(ws) && ElementsOK(elements)
    case Object(ws, members) => IsSpace(ws) && MembersOK(members)
  }

  predicate ElementsOK(es: Elements) {
    es.Element? ==> JsonOK(es.value) && IsSpace(es.wsAfter) && IsSpace(es.wsNext) && ElementsOK(es.rest)
  }

  predicate MembersOK(ms: Members) {
    ms.Member? ==>
      && ItemsOK(ms.key) && IsSpace(ms.wsKey) && IsSpace(ms.wsValue) && JsonOK(ms.value)
      && IsSpace(ms.wsAfter) && IsSpace(ms.wsNext) && MembersOK(ms.rest)
  }

  function ItemText(item: Item): Bytes {
    match item
    case Char(c) => [c]
    case Escape(e) => [BACKSLASH, e]
    case Hex(h) => [BACKSLASH, LETTER_U] + h
  }

  function ItemsText(items: seq<Item>): Bytes {
    if items == [] then [] else ItemText(items[0]) + ItemsText(items[1..])
  }

  function StringText(items: seq<Item>): Bytes {
    [QUOTE] + (ItemsText(items) + [QUOTE])
  }

  /** The rest of a list: nothing, or a comma, space and the next entries. */
  function Tail(ws: Bytes, next: Bytes, more: bool): Bytes {
    if more then [COMMA] + (ws + next) else []
  }

  function JsonText(v: Json): Bytes {
    match v
    case Literal(token) => token
    case Number(digits) => digits
    case String(items) => StringText(items)
    case Array(ws, elements) => [OPEN_BRACKET] + (ws + (ElementsText(elements) + [CLOSE_BRACKET]))
    case Object(ws, members) => [OPEN_BRACE] + (ws + (MembersText(members) + [CLOSE_BRACE]))
  }

  function ElementsText(es: Elements): Bytes {
    match es
    case NoElement => []
    case Element(value, wsAfter, wsNext, rest) =>
      JsonText(value) + (wsAfter + Tail(wsNext, ElementsText(rest), rest.Element?))
  }

  function MembersText(ms: Members): Bytes {
    match ms
    case NoMember => []
    case Member(key, wsKey, wsValue, value, wsAfter, wsNext, rest) =>
      StringText(key) + (wsKey + ([COLON] + (wsValue + (JsonText(value) +
        (wsAfter + Tail(wsNext, MembersText(rest), rest.Member?))))))
  }

  // ---------------------------------------------------------------------------------------------
  // Inside an object the scanner passes over every value without a trace

  /** The scan does not depend on whether it starts before or after `part`. */
  ghost predicate Passes(data: Bytes, i: nat, part: Bytes, depth: int) {
    At(data, i, part) ==>
      ScanFrom(data, i, depth, false, false) == ScanFrom(data, i + |part|, depth, false, false)
  }

  lemma PassesConcat(data: Bytes, i: nat, a: Bytes, b: Bytes, depth: int)
    requires Passes(data, i, a, depth) && Passes(data, i + |a|, b, depth)
    ensures Passes(data, i, a + b, depth)
  {
    if At(data, i, a + b) {
      AtSplit(data, i, a, b);
    }
  }

  predicate Bland(part: Bytes) {
    forall c | c in part :: c != QUOTE && c != OPEN_BRACE && c != CLOSE_BRACE
  }

  lemma {:induction false} BlandPasses(data: Bytes, i: nat, part: Bytes, depth: int)
    requires Bland(part)
    ensures Passes(data, i, part, depth)
    decreases part
  {
    if part != [] && At(data, i, part) {
      assert part == [part[0]] + part[1..];
      AtSplit(data, i, [part[0]], part[1..]);
      assert Bland(part[1..]) by {
        forall c | c in part[1..] ensures c in part {}
      }
      BlandPasses(data, i + 1, part[1..], depth);
      assert data[i] == data[i..i+1][0] == part[0];
      assert part[0] in part;
    }
  }

  /** Inside a string, the scanner passes over its characters, whatever they quote. */
  lemma {:induction false} ItemsPass(data: Bytes, i: nat, items: seq<Item>, depth: int)
    requires ItemsOK(items) && At(data, i, ItemsText(items))
    ensures ScanFrom(data, i, depth, true, false) == ScanFrom(data, i + |ItemsText(items)|, depth, true, false)
    decreases items
  {
    if items != [] {
      hide ScanFrom, ItemText, ItemOK;
      var first, rest := ItemText(items[0]), ItemsText(items[1..]);
      AtSplit(data, i, first, rest);
      assert items[0] in items;
      assert ItemsOK(items[1..]) by {
        forall item | item in items[1..] ensures item in items {}
      }
      ItemPasses(data, i, items[0], depth);
      ItemsPass(data, i + |first|, items[1..], depth);
    }
  }

  lemma {:induction false} HexPasses(data: Bytes, i: nat, h: Bytes, depth: int)
    requires At(data, i, h) && forall c | c in h :: IsHexDigit(c)
    ensures ScanFrom(data, i, depth, true, false) == ScanFrom(data, i + |h|, depth, true, false)
    decreases h
  {
    if h != [] {
      assert h == [h[0]] + h[1..];
      AtSplit(data, i, [h[0]], h[1..]);
      assert data[i] == data[i..i+1][0] == h[0];
      assert h[0] in h;
      HexPasses(data, i + 1, h[1..], depth);
    }
  }

  lemma ItemPasses(data: Bytes, i: nat, item: Item, depth: int)
    requires ItemOK(item) && At(data, i, ItemText(item))
    ensures ScanFrom(data, i, depth, true, false) == ScanFrom(data, i + |ItemText(item)|, depth, true, false)
  {
    var text := ItemText(item);
    assert data[i] == data[i..i + |text|][0] == text[0];
    match item
    case Char(c) =>
    case Escape(e) =>
      assert data[i + 1] == data[i..i + |text|][1] == e;
    case Hex(h) =>
      assert data[i + 1] == data[i..i + |text|][1] == LETTER_U;
      AtSplit(data, i, [BACKSLASH, LETTER_U], h);
      HexPasses(data, i + 2, h, depth);
  }

  lemma StringPasses(data: Bytes, i: nat, items: seq<Item>, depth: int)
    requires ItemsOK(items)
    ensures Passes(data, i, StringText(items), depth)
  {
    if At(data, i, StringText(items)) {
      var inner := ItemsText(items);
      AtSplit(data, i, [QUOTE], inner + [QUOTE]);
      AtSplit(data, i + 1, inner, [QUOTE]);
      assert data[i] == data[i..i+1][0] == QUOTE;
      ItemsPass(data, i + 1, items, depth);
      var j := i + 1 + |inner|;
      assert data[j] == data[j..j+1][0] == QUOTE;
    }
  }

  lemma {:induction false} JsonPasses(data: Bytes, i: nat, v: Json, depth: int)
    requires JsonOK(v) && depth >= 1
    ensures Passes(data, i, JsonText(v), depth)
    decreases v, 1
  {
    hide Passes, IsSpace;
    match v
    case Literal(token) => BlandPasses(data, i, token, depth);
    case Number(digits) => BlandPasses(data, i, digits, depth);
    case String(items) => StringPasses(data, i, items, depth);
    case Array(ws, elements) =>
      var inner := ElementsText(elements);
      BlandPasses(data, i, [OPEN_BRACKET], depth);
      SpacePasses(data, i + 1, ws, depth);
      ElementsPass(data, i + 1 + |ws|, elements, depth);
      BlandPasses(data, i + 1 + |ws| + |inner|, [CLOSE_BRACKET], depth);
      PassesConcat(data, i + 1 + |ws|, inner, [CLOSE_BRACKET], depth);
      PassesConcat(data, i + 1, ws, inner + [CLOSE_BRACKET], depth);
      PassesConcat(data, i, [OPEN_BRACKET], ws + (inner + [CLOSE_BRACKET]), depth);
    case Object(ws, members) =>
      ObjectPasses(data, i, ws, members, depth);
  }

  lemma {:induction false} ObjectPasses(data: Bytes, i: nat, ws: Bytes, members: Members, depth: int)
    requires IsSpace(ws) && MembersOK(members) && depth >= 1
    ensures Passes(data, i, JsonText(Object(ws, members)), depth)
    decreases members, 2
  {
    hide JsonText;
    if At(data, i, JsonText(Object(ws, members))) {
      ObjectInside(data, i, ws, members, depth);
    }
  }

  lemma SpacePasses(data: Bytes, i: nat, ws: Bytes, depth: int)
    requires IsSpace(ws)
    ensures Passes(data, i, ws, depth)
  {
    BlandPasses(data, i, ws, depth);
  }

  /** From the opening brace of an object to its closing brace, one level deeper. */
  lemma {:induction false} ObjectInside(data: Bytes, i: nat, ws: Bytes, members: Members, depth: int)
    requires IsSpace(ws) && MembersOK(members) && depth >= 0
    requires At(data, i, JsonText(Object(ws, members)))
    ensures var end := i + |JsonText(Object(ws, members))|;
      && data[end - 1] == CLOSE_BRACE
      && ScanFrom(data, i, depth, false, false) == ScanFrom(data, end - 1, depth + 1, false, false)
    decreases members, 1
  {
    hide MembersText, MembersOK, IsSpace;
    var inner := MembersText(members);
    ObjectFrame(data, i, ws, inner, depth);
    SpacePasses(data, i + 1, ws, depth + 1);
    MembersPass(data, i + 1 + |ws|, members, depth + 1);
  }

  /** The braces of an object and what stands between them. */
  lemma ObjectFrame(data: Bytes, i: nat, ws: Bytes, inner: Bytes, depth: int)
    requires At(data, i, [OPEN_BRACE] + (ws + (inner + [CLOSE_BRACE])))
    ensures At(data, i + 1, ws) && At(data, i + 1 + |ws|, inner)
    ensures data[i + 1 + |ws| + |inner|] == CLOSE_BRACE
    ensures ScanFrom(data, i, depth, false, false) == ScanFrom(data, i + 1, depth + 1, false, false)
  {
    AtSplit(data, i, [OPEN_BRACE], ws + (inner + [CLOSE_BRACE]));
    assert data[i] == data[i..i+1][0] == OPEN_BRACE;
    AtSplit(data, i + 1, ws, inner + [CLOSE_BRACE]);
    AtSplit(data, i + 1 + |ws|, inner, [CLOSE_BRACE]);
    var j := i + 1 + |ws| + |inner|;
    assert data[j] == data[j..j+1][0] == CLOSE_BRACE;
  }

  lemma TailPasses(data: Bytes, i: nat, ws: Bytes, next: Bytes, more: bool, depth: int)
    requires IsSpace(ws) && (more ==> Passes(data, i + 1 + |ws|, next, depth))
    ensures Passes(data, i, Tail(ws, next, more), depth)
  {
    hide Passes, IsSpace;
    if more {
      BlandPasses(data, i, [COMMA], depth);
      SpacePasses(data, i + 1, ws, depth);
      PassesConcat(data, i + 1, ws, next, depth);
      PassesConcat(data, i, [COMMA], ws + next, depth);
    } else {
      BlandPasses(data, i, [], depth);
    }
  }

  lemma {:induction false} ElementsPass(data: Bytes, i: nat, es: Elements, depth: int)
    requires ElementsOK(es) && depth >= 1
    ensures Passes(data, i, ElementsText(es), depth)
    decreases es, 0
  {
    hide Passes, IsSpace, JsonText;
    match es
    case NoElement => BlandPasses(data, i, [], depth);
    case Element(value, wsAfter, wsNext, rest) =>
      var text, next := JsonText(value), ElementsText(rest);
      var j := i + |text|;
      var k := j + |wsAfter|;
      JsonPasses(data, i, value, depth);
      SpacePasses(data, j, wsAfter, depth);
      if rest.Element? {
        ElementsPass(data, k + 1 + |wsNext|, rest, depth);
      }
      TailPasses(data, k, wsNext, next, rest.Element?, depth);
      PassesConcat(data, j, wsAfter, Tail(wsNext, next, rest.Element?), depth);
      PassesConcat(data, i, text, wsAfter + Tail(wsNext, next, rest.Element?), depth);
  }

  lemma JoinMember(data: Bytes, i: nat, key: Bytes, wsKey: Bytes, wsValue: Bytes, value: Bytes, wsAfter: Bytes,
                   tail: Bytes, depth: int)
    requires IsSpace(wsKey) && IsSpace(wsValue) && IsSpace(wsAfter)
    requires Passes(data, i, key, depth)
    requires Passes(data, i + |key| + |wsKey| + 1 + |wsValue|, value, depth)
    requires Passes(data, i + |key| + |wsKey| + 1 + |wsValue| + |value| + |wsAfter|, tail, depth)
    ensures Passes(data, i, key + (wsKey + ([COLON] + (wsValue + (value + (wsAfter + tail))))), depth)
  {
    hide Passes, IsSpace;
    var k := i + |key|;
    var c := k + |wsKey|;
    var j := c + 1 + |wsValue|;
    var end := j + |value|;
    SpacePasses(data, k, wsKey, depth);
    BlandPasses(data, c, [COLON], depth);
    SpacePasses(data, c + 1, wsValue, depth);
    SpacePasses(data, end, wsAfter, depth);
    PassesConcat(data, end, wsAfter, tail, depth);
    PassesConcat(data, j, value, wsAfter + tail, depth);
    PassesConcat(data, c + 1, wsValue, value + (wsAfter + tail), depth);
    PassesConcat(data, c, [COLON], wsValue + (value + (wsAfter + tail)), depth);
    PassesConcat(data, k, wsKey, [COLON] + (wsValue + (value + (wsAfter + tail))), depth);
    PassesConcat(data, i, key, wsKey + ([COLON] + (wsValue + (value + (wsAfter + tail)))), depth);
  }

  lemma {:induction false} MembersPass(data: Bytes, i: nat, ms: Members, depth: int)
    requires MembersOK(ms) && depth >= 1
    ensures Passes(data, i, MembersText(ms), depth)
    decreases ms, 0
  {
    hide Passes, IsSpace, JsonText, StringText;
    match ms
    case NoMember => BlandPasses(data, i, [], depth);
    case Member(key, wsKey, wsValue, value, wsAfter, wsNext, rest) =>
      var next := MembersText(rest);
      var j := i + |StringText(key)| + |wsKey| + 1 + |wsValue|;
      var k := j + |JsonText(value)| + |wsAfter|;
      StringPasses(data, i, key, depth);
      JsonPasses(data, j, value, depth);
      if rest.Member? {
        MembersPass(data, k + 1 + |wsNext|, rest, depth);
      }
      TailPasses(data, k, wsNext, next, rest.Member?, depth);
      JoinMember(data, i, StringText(key), wsKey, wsValue, JsonText(value), wsAfter,
                 Tail(wsNext, next, rest.Member?), depth);
  }

  /** Started at the opening brace of any object text, whatever comes before and after it, the scanner returns exactly
      the object. */
  lemma SliceReturnsObject(before: Bytes, v: Json, after: Bytes)
    requires v.Object? && JsonOK(v)
    ensures Slice(before + JsonText(v) + after, |before|) == Some(JsonText(v))
  {
    var data, i, text := before + JsonText(v) + after, |before|, JsonText(v);
    assert At(data, i, text);
    assert data[i] == text[0] == OPEN_BRACE;
    ObjectInside(data, i, v.ws, v.members, 0);
  }

  /** What the scanner returns does not depend on anything behind it. */
  lemma {:induction false} ScanIgnoresRest(data: Bytes, other: Bytes, i: nat, depth: int, inString: bool, escape: bool)
    requires var end := ScanFrom(data, i, depth, inString, escape);
      end.Some? && end.value <= |other| && other[..end.value] == data[..end.value]
    ensures ScanFrom(other, i, depth, inString, escape) == ScanFrom(data, i, depth, inString, escape)
    decreases |data| - i
  {
    var end := ScanFrom(data, i, depth, inString, escape).value;
    assert other[..end][i] == data[..end][i];
    var c := data[i];
    if inString {
      if escape {
        ScanIgnoresRest(data, other, i + 1, depth, true, false);
      } else {
        ScanIgnoresRest(data, other, i + 1, depth, c == BACKSLASH || c != QUOTE, c == BACKSLASH);
      }
    } else if c == QUOTE {
      ScanIgnoresRest(data, other, i + 1, depth, true, escape);
    } else if c == OPEN_BRACE {
      ScanIgnoresRest(data, other, i + 1, depth + 1, false, escape);
    } else if c != CLOSE_BRACE {
      ScanIgnoresRest(data, other, i + 1, depth, false, escape);
    } else if depth - 1 != 0 {
      ScanIgnoresRest(data, other, i + 1, depth - 1, false, escape);
    }
  }

  /** An object that is cut short, by however little, is not returned at all. */
  lemma CutObjectIsNone(before: Bytes, v: Json, cut: nat)
    requires v.Object? && JsonOK(v) && cut < |JsonText(v)|
    ensures Slice(before + JsonText(v)[..cut], |before|) == None
  {
    hide JsonText;
    var data, full := before + JsonText(v)[..cut], before + JsonText(v) + [];
    SliceReturnsObject(before, v, []);
    var end := ScanFrom(data, |before|, 0, false, false);
    if end.Some? {
      assert full[..end.value] == data[..end.value];
      ScanIgnoresRest(data, full, |before|, 0, false, false);
    }
  }

  lemma {:induction false} ScanEndsAtBrace(data: Bytes, i: nat, depth: int, inString: bool, escape: bool)
    ensures var end := ScanFrom(data, i, depth, inString, escape); end.Some? ==> data[end.value - 1] == CLOSE_BRACE
    decreases |data| - i
  {
    if i < |data| {
      var c := data[i];
      if inString {
        if escape {
          ScanEndsAtBrace(data, i + 1, depth, true, false);
        } else {
          ScanEndsAtBrace(data, i + 1, depth, c == BACKSLASH || c != QUOTE, c == BACKSLASH);
        }
      } else if c == CLOSE_BRACE {
        ScanEndsAtBrace(data, i + 1, depth - 1, false, escape);
      } else {
        ScanEndsAtBrace(data, i + 1, if c == OPEN_BRACE then depth + 1 else depth, c == QUOTE, escape);
      }
    }
  }

  /** Whatever the bytes, what is returned stands there, from an opening to a closing brace. */
  lemma SliceIsBraced(data: Bytes, start: nat)
    requires Slice(data, start).Some?
    ensures var r := Slice(data, start).value;
      |r| >= 2 && At(data, start, r) && r[0] == OPEN_BRACE && r[|r|-1] == CLOSE_BRACE
  {
    ScanEndsAtBrace(data, start, 0, false, false);
  }
}
