/** JSON values, their compact text as `JSON.stringify` writes it, and a reader for that text. */
module Json {
  import opened Foundations

  /**
   * A number stands for itself by the decimal text `JSON.stringify` writes for it, so two numbers
   * are the same value iff they have the same text (and `-0` is `0`).
   */
  datatype Json =
    | JNull
    | JBool(value: bool)
    | JNumber(digits: Text)
    | JString(text: Text)
    | JArray(items: seq<Json>)
    | JObject(entries: seq<Entry>)

  datatype Entry = Entry(key: Text, value: Json)

  const QUOTE: CodeUnit := 0x22
  const COMMA: CodeUnit := 0x2C
  const COLON: CodeUnit := 0x3A
  const OPEN_BRACKET: CodeUnit := 0x5B
  const BACKSLASH: CodeUnit := 0x5C
  const CLOSE_BRACKET: CodeUnit := 0x5D
  const LOWER_U: CodeUnit := 0x75
  const OPEN_BRACE: CodeUnit := 0x7B
  const CLOSE_BRACE: CodeUnit := 0x7D

  /** The characters section 6 of RFC 8259 builds numbers from. */
  predicate IsNumberUnit(u: CodeUnit) {
    0x30 <= u <= 0x39 || u == 0x2B || u == 0x2D || u == 0x2E || u == 0x45 || u == 0x65
  }

  predicate KeysAreDistinct(entries: seq<Entry>) {
    forall i, j :: 0 <= i < j < |entries| ==> entries[i].key != entries[j].key
  }

  /** A value the language can hold: numbers have number text, no object holds a key twice. */
  predicate IsJson(v: Json) {
    match v
    case JNumber(digits) => digits != [] && forall i :: 0 <= i < |digits| ==> IsNumberUnit(digits[i])
    case JArray(items) => forall i :: 0 <= i < |items| ==> IsJson(items[i])
    case JObject(entries) => KeysAreDistinct(entries) && forall i :: 0 <= i < |entries| ==> IsJson(entries[i].value)
    case _ => true
  }

  // ----- Strings (section 7 of RFC 8259)

  predicate IsHighSurrogate(u: CodeUnit) { 0xD800 <= u <= 0xDBFF }
  predicate IsLowSurrogate(u: CodeUnit) { 0xDC00 <= u <= 0xDFFF }

  function HexDigit(n: nat): CodeUnit
    requires n < 16
  {
    if n < 10 then 0x30 + n else 0x61 + n - 10
  }

  /** The letter of a two-character escape, where a unit has one. */
  function ShortEscape(u: CodeUnit): Option<CodeUnit> {
    if u == QUOTE || u == BACKSLASH then Some(u)
    else if u == 0x08 then Some(0x62)
    else if u == 0x09 then Some(0x74)
    else if u == 0x0A then Some(0x6E)
    else if u == 0x0C then Some(0x66)
    else if u == 0x0D then Some(0x72)
    else None
  }

  /** One unit that is not half of a surrogate pair. */
  function EscapeUnit(u: CodeUnit): Text {
    if ShortEscape(u).Some? then [BACKSLASH, ShortEscape(u).value]
    else if u < 0x20 || IsHighSurrogate(u) || IsLowSurrogate(u) then
      [BACKSLASH, LOWER_U, HexDigit(u / 4096), HexDigit(u / 256 % 16), HexDigit(u / 16 % 16), HexDigit(u % 16)]
    else [u]
  }

  predicate StartsWithPair(s: Text) { |s| >= 2 && IsHighSurrogate(s[0]) && IsLowSurrogate(s[1]) }

  function Escape(s: Text): Text {
    if s == [] then []
    else if StartsWithPair(s) then s[..2] + Escape(s[2..])
    else EscapeUnit(s[0]) + Escape(s[1..])
  }

  function Quote(s: Text): Text { [QUOTE] + Escape(s) + [QUOTE] }

  // ----- Values (sections 3 to 5 of RFC 8259), without white space

  function Render(v: Json): Text
    decreases v
  {
    match v
    case JNull => Ascii("null")
    case JBool(value) => if value then Ascii("true") else Ascii("false")
    case JNumber(digits) => digits
    case JString(text) => Quote(text)
    case JArray(items) => [OPEN_BRACKET] + RenderItems(items) + [CLOSE_BRACKET]
    case JObject(entries) => [OPEN_BRACE] + RenderEntries(entries) + [CLOSE_BRACE]
  }

  function RenderItems(items: seq<Json>): Text
    decreases items
  {
    if items == [] then []
    else if |items| == 1 then Render(items[0])
    else Render(items[0]) + [COMMA] + RenderItems(items[1..])
  }

  function RenderEntries(entries: seq<Entry>): Text
    decreases entries
  {
    if entries == [] then []
    else
      var first := Quote(entries[0].key) + [COLON] + Render(entries[0].value);
      if |entries| == 1 then first else first + [COMMA] + RenderEntries(entries[1..])
  }

  // ----- Reading it back

  datatype Read<T> = Unread | Read(value: T, rest: Text)

  function HexValue(u: CodeUnit): Option<nat> {
    if 0x30 <= u <= 0x39 then Some(u - 0x30)
    else if 0x61 <= u <= 0x66 then Some(u - 0x61 + 10)
    else if 0x41 <= u <= 0x46 then Some(u - 0x41 + 10)
    else None
  }

  function UnescapeLetter(letter: CodeUnit): Option<CodeUnit> {
    if letter == QUOTE || letter == BACKSLASH || letter == 0x2F then Some(letter)
    else if letter == 0x62 then Some(0x08)
    else if letter == 0x74 then Some(0x09)
    else if letter == 0x6E then Some(0x0A)
    else if letter == 0x66 then Some(0x0C)
    else if letter == 0x72 then Some(0x0D)
    else None
  }

  /** One unit of a string body, raw or escaped. */
  function ReadUnit(t: Text): (r: Read<CodeUnit>)
    ensures r.Read? ==> |r.rest| < |t|
  {
    if t == [] || t[0] == QUOTE || t[0] < 0x20 then Unread
    else if t[0] != BACKSLASH then Read(t[0], t[1..])
    else if |t| >= 2 && UnescapeLetter(t[1]).Some? then Read(UnescapeLetter(t[1]).value, t[2..])
    else if && |t| >= 6 && t[1] == LOWER_U
            && HexValue(t[2]).Some? && HexValue(t[3]).Some? && HexValue(t[4]).Some? && HexValue(t[5]).Some?
      then Read(HexValue(t[2]).value * 4096 + HexValue(t[3]).value * 256
                + HexValue(t[4]).value * 16 + HexValue(t[5]).value, t[6..])
    else Unread
  }

  /** The rest of a string, its opening quote already read. */
  function ReadBody(t: Text): (r: Read<Text>)
    ensures r.Read? ==> |r.rest| < |t|
    decreases |t|
  {
    if t != [] && t[0] == QUOTE then Read([], t[1..])
    else
      match ReadUnit(t)
      case Unread => Unread
      case Read(unit, rest) =>
        match ReadBody(rest)
        case Unread => Unread
        case Read(units, rest') => Read([unit] + units, rest')
  }

  function ReadString(t: Text): (r: Read<Text>)
    ensures r.Read? ==> |r.rest| < |t|
  {
    if t == [] || t[0] != QUOTE then Unread else ReadBody(t[1..])
  }

  function NumberLength(t: Text): (n: nat)
    ensures n <= |t|
  {
    if t == [] || !IsNumberUnit(t[0]) then 0 else 1 + NumberLength(t[1..])
  }

  function Parse(t: Text): (r: Read<Json>)
    ensures r.Read? ==> |r.rest| < |t|
    decreases |t|, 0
  {
    if t == [] then Unread
    else if t[0] == QUOTE then
      match ReadString(t) case Unread => Unread case Read(text, rest) => Read(JString(text), rest)
    else if t[0] == OPEN_BRACKET then
      if |t| >= 2 && t[1] == CLOSE_BRACKET then Read(JArray([]), t[2..])
      else match ParseItems(t[1..]) case Unread => Unread case Read(items, rest) => Read(JArray(items), rest)
    else if t[0] == OPEN_BRACE then
      if |t| >= 2 && t[1] == CLOSE_BRACE then Read(JObject([]), t[2..])
      else match ParseEntries(t[1..]) case Unread => Unread case Read(entries, rest) => Read(JObject(entries), rest)
    else if IsNumberUnit(t[0]) then Read(JNumber(t[..NumberLength(t)]), t[NumberLength(t)..])
    else ParseKeyword(t)
  }

  function ParseKeyword(t: Text): (r: Read<Json>)
    ensures r.Read? ==> |r.rest| < |t|
  {
    if Ascii("null") <= t then Read(JNull, t[4..])
    else if Ascii("true") <= t then Read(JBool(true), t[4..])
    else if Ascii("false") <= t then Read(JBool(false), t[5..])
    else Unread
  }

  /** One item or more, through the closing bracket. */
  function ParseItems(t: Text): (r: Read<seq<Json>>)
    ensures r.Read? ==> |r.rest| < |t|
    decreases |t|, 1
  {
    match Parse(t)
    case Unread => Unread
    case Read(item, rest) =>
      if rest == [] then Unread
      else if rest[0] == CLOSE_BRACKET then Read([item], rest[1..])
      else if rest[0] != COMMA then Unread
      else
        match ParseItems(rest[1..])
        case Unread => Unread
        case Read(items, rest') => Read([item] + items, rest')
  }

  /** One entry or more, through the closing brace. */
  function ParseEntries(t: Text): (r: Read<seq<Entry>>)
    ensures r.Read? ==> |r.rest| < |t|
    decreases |t|, 1
  {
    match ReadString(t)
    case Unread => Unread
    case Read(key, afterKey) =>
      if afterKey == [] || afterKey[0] != COLON then Unread
      else
        match Parse(afterKey[1..])
        case Unread => Unread
        case Read(value, rest) =>
          if rest == [] then Unread
          else if rest[0] == CLOSE_BRACE then Read([Entry(key, value)], rest[1..])
          else if rest[0] != COMMA then Unread
          else
            match ParseEntries(rest[1..])
            case Unread => Unread
            case Read(entries, rest') => Read([Entry(key, value)] + entries, rest')
  }

  // ----- Reading inverts writing

  lemma HexReadsBack(n: nat)
    requires n < 16
    ensures HexValue(HexDigit(n)) == Some(n)
  {
  }

  lemma HexEscapeReadsBack(a: nat, b: nat, c: nat, d: nat, rest: Text)
    requires a < 16 && b < 16 && c < 16 && d < 16
    ensures ReadUnit([BACKSLASH, LOWER_U, HexDigit(a), HexDigit(b), HexDigit(c), HexDigit(d)] + rest)
      == Read(a * 4096 + b * 256 + c * 16 + d, rest)
  {
    HexReadsBack(a);
    HexReadsBack(b);
    HexReadsBack(c);
    HexReadsBack(d);
    hide HexDigit, HexValue;
    var t := [BACKSLASH, LOWER_U, HexDigit(a), HexDigit(b), HexDigit(c), HexDigit(d)] + rest;
    assert t[6..] == rest && UnescapeLetter(LOWER_U).None?;
  }

  lemma FourDigits(u: CodeUnit)
    ensures u == u / 4096 * 4096 + u / 256 % 16 * 256 + u / 16 % 16 * 16 + u % 16
  {
    var high := u / 256;
    var middle := u / 16;
    assert high == u / 4096 * 16 + high % 16 && middle == high * 16 + middle % 16 && u == middle * 16 + u % 16;
  }

  lemma UnitReadsBack(u: CodeUnit, rest: Text)
    ensures ReadUnit(EscapeUnit(u) + rest) == Read(u, rest)
  {
    hide HexDigit, HexValue;
    var t := EscapeUnit(u) + rest;
    if ShortEscape(u).Some? {
      assert t[2..] == rest;
    } else if u < 0x20 || IsHighSurrogate(u) || IsLowSurrogate(u) {
      HexEscapeReadsBack(u / 4096, u / 256 % 16, u / 16 % 16, u % 16, rest);
      FourDigits(u);
    } else {
      assert t[1..] == rest;
    }
  }

  lemma {:induction false} BodyReadsBack(s: Text, rest: Text)
    ensures ReadBody(Escape(s) + [QUOTE] + rest) == Read(s, rest)
    decreases |s|
  {
    hide EscapeUnit;
    var t := Escape(s) + [QUOTE] + rest;
    if s == [] {
      assert t == [QUOTE] + rest && t[1..] == rest;
    } else if StartsWithPair(s) {
      // A paired surrogate is written raw, so it reads back as two raw units.
      var after := Escape(s[2..]) + [QUOTE] + rest;
      assert t == [s[0]] + ([s[1]] + after) && s == [s[0]] + ([s[1]] + s[2..]);
      BodyReadsBack(s[2..], rest);
      assert ReadUnit(t) == Read(s[0], [s[1]] + after);
      assert ReadUnit([s[1]] + after) == Read(s[1], after);
      assert ReadBody([s[1]] + after) == Read([s[1]] + s[2..], rest);
    } else {
      var after := Escape(s[1..]) + [QUOTE] + rest;
      assert t == EscapeUnit(s[0]) + after && s == [s[0]] + s[1..];
      UnitReadsBack(s[0], after);
      EscapeNeverStartsWithQuote(s[0]);
      BodyReadsBack(s[1..], rest);
    }
  }

  lemma EscapeNeverStartsWithQuote(u: CodeUnit)
    ensures EscapeUnit(u) != [] && EscapeUnit(u)[0] != QUOTE
  {
  }

  lemma StringReadsBack(s: Text, rest: Text)
    ensures ReadString(Quote(s) + rest) == Read(s, rest)
  {
    BodyReadsBack(s, rest);
    assert (Quote(s) + rest)[1..] == Escape(s) + [QUOTE] + rest;
  }

  lemma {:induction false} NumberReadsBack(digits: Text, rest: Text)
    requires forall i :: 0 <= i < |digits| ==> IsNumberUnit(digits[i])
    requires rest == [] || !IsNumberUnit(rest[0])
    ensures NumberLength(digits + rest) == |digits|
  {
    if digits == [] {
      assert digits + rest == rest;
    } else {
      assert (digits + rest)[1..] == digits[1..] + rest;
      NumberReadsBack(digits[1..], rest);
    }
  }

  /** What may follow a value: anything that could not be more of a number. */
  predicate EndsValue(rest: Text) { rest == [] || !IsNumberUnit(rest[0]) }

  /** Which branch a rendered value takes when read: its first unit decides. */
  lemma FirstUnitDecides(v: Json)
    requires IsJson(v)
    ensures Render(v) != []
    ensures v.JString? ==> Render(v)[0] == QUOTE
    ensures v.JArray? ==> Render(v)[0] == OPEN_BRACKET
    ensures v.JObject? ==> Render(v)[0] == OPEN_BRACE
    ensures v.JNumber? <==> IsNumberUnit(Render(v)[0])
    ensures v.JNull? || v.JBool? ==> Render(v)[0] !in {QUOTE, OPEN_BRACKET, OPEN_BRACE}
    ensures Render(v)[0] != CLOSE_BRACKET && Render(v)[0] != CLOSE_BRACE
  {
  }

  lemma {:induction false} RenderReadsBack(v: Json, rest: Text)
    requires IsJson(v) && EndsValue(rest)
    ensures Parse(Render(v) + rest) == Read(v, rest)
    decreases v, 0
  {
    hide RenderItems, RenderEntries, ParseItems, ParseEntries, ReadString, Quote, ParseKeyword, NumberLength;
    var t := Render(v) + rest;
    FirstUnitDecides(v);
    assert t[0] == Render(v)[0];
    match v
    case JNull => KeywordReadsBack(v, rest);
    case JBool(value) => KeywordReadsBack(v, rest);
    case JNumber(digits) =>
      NumberReadsBack(digits, rest);
      assert t[..|digits|] == digits && t[|digits|..] == rest;
    case JString(text) => StringReadsBack(text, rest);
    case JArray(items) =>
      if items == [] {
        EmptyRenders();
        assert t == [OPEN_BRACKET, CLOSE_BRACKET] + rest && t[2..] == rest;
      } else {
        ItemsReadBack(items, rest);
        assert t[1..] == RenderItems(items) + [CLOSE_BRACKET] + rest;
      }
    case JObject(entries) =>
      if entries == [] {
        EmptyRenders();
        assert t == [OPEN_BRACE, CLOSE_BRACE] + rest && t[2..] == rest;
      } else {
        EntriesReadBack(entries, rest);
        assert t[1..] == RenderEntries(entries) + [CLOSE_BRACE] + rest;
      }
  }

  lemma EmptyRenders()
    ensures RenderItems([]) == [] && RenderEntries([]) == []
  {
  }

  lemma KeywordReadsBack(v: Json, rest: Text)
    requires v.JNull? || v.JBool?
    ensures ParseKeyword(Render(v) + rest) == Read(v, rest)
  {
    var t := Render(v) + rest;
    assert t[|Render(v)|..] == rest;
    assert t[0] == Render(v)[0];
  }

  lemma {:induction false} ItemsReadBack(items: seq<Json>, rest: Text)
    requires items != [] && forall i :: 0 <= i < |items| ==> IsJson(items[i])
    ensures ParseItems(RenderItems(items) + [CLOSE_BRACKET] + rest) == Read(items, rest)
    ensures RenderItems(items) != [] && RenderItems(items)[0] != CLOSE_BRACKET
    decreases items, 1
  {
    hide Parse, Render;
    FirstUnitDecides(items[0]);
    var t := RenderItems(items) + [CLOSE_BRACKET] + rest;
    if |items| == 1 {
      var tail := [CLOSE_BRACKET] + rest;
      assert t == Render(items[0]) + tail && tail[1..] == rest && items == [items[0]];
      RenderReadsBack(items[0], tail);
    } else {
      var after := RenderItems(items[1..]) + [CLOSE_BRACKET] + rest;
      var tail := [COMMA] + after;
      assert t == Render(items[0]) + tail && tail[1..] == after && items == [items[0]] + items[1..];
      RenderReadsBack(items[0], tail);
      ItemsReadBack(items[1..], rest);
    }
  }

  lemma {:induction false} EntriesReadBack(entries: seq<Entry>, rest: Text)
    requires entries != [] && forall i :: 0 <= i < |entries| ==> IsJson(entries[i].value)
    ensures ParseEntries(RenderEntries(entries) + [CLOSE_BRACE] + rest) == Read(entries, rest)
    ensures RenderEntries(entries) != [] && RenderEntries(entries)[0] != CLOSE_BRACE
    decreases entries, 1
  {
    hide Parse, Render, ReadString, Escape, ParseEntries, RenderEntries;
    var e := entries[0];
    var t := RenderEntries(entries) + [CLOSE_BRACE] + rest;
    if |entries| == 1 {
      var tail := [CLOSE_BRACE] + rest;
      EntriesSplit(entries, rest, tail);
      OneEntryReadsBack(e, tail);
      LastEntry(t, e, tail);
      assert tail[1..] == rest && entries == [e];
    } else {
      var after := RenderEntries(entries[1..]) + [CLOSE_BRACE] + rest;
      var tail := [COMMA] + after;
      EntriesSplit(entries, rest, tail);
      OneEntryReadsBack(e, tail);
      assert tail[1..] == after && entries == [e] + entries[1..];
      EntriesReadBack(entries[1..], rest);
      MoreEntries(t, e, tail, entries[1..], rest);
    }
  }

  lemma EntriesSplit(entries: seq<Entry>, rest: Text, tail: Text)
    requires entries != []
    requires tail == if |entries| == 1 then [CLOSE_BRACE] + rest
                     else [COMMA] + (RenderEntries(entries[1..]) + [CLOSE_BRACE] + rest)
    ensures RenderEntries(entries) + [CLOSE_BRACE] + rest
      == Quote(entries[0].key) + [COLON] + Render(entries[0].value) + tail
    ensures RenderEntries(entries) != [] && RenderEntries(entries)[0] == QUOTE
  {
    hide Render, Quote, RenderEntries;
    var first := Quote(entries[0].key) + [COLON] + Render(entries[0].value);
    RenderEntriesUnfolds(entries);
    QuoteStarts(entries[0].key);
    if |entries| > 1 {
      Regroup(first, [COMMA], RenderEntries(entries[1..]), [CLOSE_BRACE], rest);
    } else {
      Regroup(first, [CLOSE_BRACE], rest, [], []);
    }
  }

  lemma QuoteStarts(s: Text)
    ensures Quote(s) != [] && Quote(s)[0] == QUOTE
  {
  }

  lemma RenderEntriesUnfolds(entries: seq<Entry>)
    requires entries != []
    ensures
      var first := Quote(entries[0].key) + [COLON] + Render(entries[0].value);
      RenderEntries(entries) == if |entries| == 1 then first else first + [COMMA] + RenderEntries(entries[1..])
  {
    hide Render, Quote;
  }

  lemma Regroup(a: Text, b: Text, c: Text, d: Text, e: Text)
    ensures a + b + c + d + e == a + (b + (c + d + e))
    ensures a + b + c == a + (b + c)
  {
  }

  lemma LastEntry(t: Text, e: Entry, tail: Text)
    requires ReadString(t).Read? && ReadString(t).value == e.key
    requires ReadString(t).rest != [] && ReadString(t).rest[0] == COLON
    requires Parse(ReadString(t).rest[1..]) == Read(e.value, tail)
    requires tail != [] && tail[0] == CLOSE_BRACE
    ensures ParseEntries(t) == Read([e], tail[1..])
  {
    hide Parse, ReadString;
  }

  lemma MoreEntries(t: Text, e: Entry, tail: Text, entries: seq<Entry>, rest: Text)
    requires ReadString(t).Read? && ReadString(t).value == e.key
    requires ReadString(t).rest != [] && ReadString(t).rest[0] == COLON
    requires Parse(ReadString(t).rest[1..]) == Read(e.value, tail)
    requires tail != [] && tail[0] == COMMA && ParseEntries(tail[1..]) == Read(entries, rest)
    ensures ParseEntries(t) == Read([e] + entries, rest)
  {
    hide Parse, ReadString;
  }

  lemma OneEntryReadsBack(e: Entry, tail: Text)
    requires IsJson(e.value) && EndsValue(tail)
    ensures
      var t := Quote(e.key) + [COLON] + Render(e.value) + tail;
      var key := ReadString(t);
      && key == Read(e.key, [COLON] + Render(e.value) + tail)
      && Parse(key.rest[1..]) == Read(e.value, tail)
    decreases e, 2
  {
    hide Parse, Render, ReadString, Escape;
    var t := Quote(e.key) + [COLON] + Render(e.value) + tail;
    var afterKey := [COLON] + Render(e.value) + tail;
    assert t == Quote(e.key) + afterKey && afterKey[1..] == Render(e.value) + tail;
    StringReadsBack(e.key, afterKey);
    RenderReadsBack(e.value, tail);
  }

  /** Rendering has an inverse, so no two values share a text. */
  lemma RenderIsInjective(v: Json, w: Json)
    requires IsJson(v) && IsJson(w)
    ensures Parse(Render(v)) == Read(v, [])
    ensures Render(v) == Render(w) ==> v == w
  {
    RenderReadsBack(v, []);
    RenderReadsBack(w, []);
    assert Render(v) + [] == Render(v) && Render(w) + [] == Render(w);
  }

  // ----- What is written, unit by unit (section 7 of RFC 8259)

  ghost predicate IsHexDigit(u: CodeUnit) { 0x30 <= u <= 0x39 || 0x61 <= u <= 0x66 }

  /** Raw but for quotes, backslashes, controls and lone surrogates; five controls by letter, the rest in lower-case hex. */
  lemma OnlyWhatMustBeEscapedIs(u: CodeUnit)
    ensures EscapeUnit(u) == [u] <==> 0x20 <= u && u != 0x22 && u != 0x5C && !(0xD800 <= u <= 0xDFFF)
    ensures EscapeUnit(0x22) == [0x5C, 0x22] && EscapeUnit(0x5C) == [0x5C, 0x5C]
    ensures EscapeUnit(0x08) == Ascii("\\b") && EscapeUnit(0x0C) == Ascii("\\f")
    ensures EscapeUnit(0x0A) == Ascii("\\n") && EscapeUnit(0x0D) == Ascii("\\r") && EscapeUnit(0x09) == Ascii("\\t")
    ensures (u < 0x20 && u !in {0x08, 0x09, 0x0A, 0x0C, 0x0D}) || 0xD800 <= u <= 0xDFFF ==>
      && |EscapeUnit(u)| == 6 && EscapeUnit(u)[..2] == Ascii("\\u")
      && forall i :: 2 <= i < 6 ==> IsHexDigit(EscapeUnit(u)[i])
  {
    assert Ascii("\\b") == [0x5C, 0x62] && Ascii("\\f") == [0x5C, 0x66] && Ascii("\\n") == [0x5C, 0x6E];
    assert Ascii("\\r") == [0x5C, 0x72] && Ascii("\\t") == [0x5C, 0x74] && Ascii("\\u") == [0x5C, 0x75];
  }

  ghost predicate IsPlain(u: CodeUnit) { 0x20 <= u && u != 0x22 && u != 0x5C && !(0xD800 <= u <= 0xDFFF) }

  /** Text of plain units, or of a whole character beyond them, stands between its quotes as it is. */
  lemma {:induction false} PlainTextIsQuotedAsItIs(s: Text)
    requires (forall i :: 0 <= i < |s| ==> IsPlain(s[i])) || (|s| == 2 && IsHighSurrogate(s[0]) && IsLowSurrogate(s[1]))
    ensures Quote(s) == Ascii("\"") + s + Ascii("\"")
  {
    assert Ascii("\"") == [0x22];
    assert Escape(s) == s by {
      if s != [] && !StartsWithPair(s) {
        PlainTextIsQuotedAsItIs(s[1..]);
        OnlyWhatMustBeEscapedIs(s[0]);
        QuoteHolds(s[1..]);
        assert s == [s[0]] + s[1..];
      } else if StartsWithPair(s) {
        assert s[2..] == [] && s[..2] + [] == s;
      }
    }
  }

  lemma QuoteHolds(s: Text)
    ensures Quote(s)[1..|Quote(s)| - 1] == Escape(s)
    ensures (Ascii("\"") + s + Ascii("\""))[1..|s| + 1] == s
  {
  }

  /** The three literals, and the two empty containers, as the standard writes them. */
  lemma LiteralsAreTheStandards()
    ensures Render(JNull) == Ascii("null") && Render(JBool(true)) == Ascii("true") && Render(JBool(false)) == Ascii("false")
    ensures Render(JArray([])) == Ascii("[]") && Render(JObject([])) == Ascii("{}")
  {
    assert Ascii("[]") == [0x5B, 0x5D] && Ascii("{}") == [0x7B, 0x7D];
  }

  /** Items in brackets with commas between them. */
  lemma ArraysAreTheStandards(v: Json, w: Json)
    ensures Render(JArray([v, w])) == Ascii("[") + (Render(v) + Ascii(",") + Render(w)) + Ascii("]")
  {
    hide Quote, RenderItems;
    assert Ascii("[") == [0x5B] && Ascii("]") == [0x5D] && Ascii(",") == [0x2C];
    TwoItems(v, w);
  }

  lemma TwoItems(v: Json, w: Json)
    ensures RenderItems([v, w]) == Render(v) + [COMMA] + Render(w)
  {
    hide Render;
    assert [v, w][1..] == [w];
  }

  /** Keys and values in braces with colons inside a pair and commas between pairs. */
  lemma ObjectsAreTheStandards(e: Entry, f: Entry)
    ensures Render(JObject([e, f]))
      == Ascii("{") + (Quote(e.key) + Ascii(":") + Render(e.value)) + Ascii(",")
         + (Quote(f.key) + Ascii(":") + Render(f.value)) + Ascii("}")
  {
    hide Quote;
    assert Ascii("{") == [0x7B] && Ascii("}") == [0x7D] && Ascii(",") == [0x2C] && Ascii(":") == [0x3A];
    var entries := [e, f];
    assert entries[1..] == [f];
    RenderEntriesUnfolds(entries);
    RenderEntriesUnfolds([f]);
  }
}
