/**
 * JSON text as the platform writes and reads it (RFC 8259, sections 2 to 7), without insignificant white space, and the
 * identity that canonical text gives to values (src/core/json.ts).
 */
module JsonText {
  import opened Wrappers
  import opened JsonKeys
  import opened CanonicalJson

  const QUOTE: Unit := 0x22
  const BACKSLASH: Unit := 0x5C
  const COMMA: Unit := 0x2C
  const COLON: Unit := 0x3A
  const MINUS: Unit := 0x2D
  const OPEN_BRACKET: Unit := 0x5B
  const CLOSE_BRACKET: Unit := 0x5D
  const OPEN_BRACE: Unit := 0x7B
  const CLOSE_BRACE: Unit := 0x7D
  const NULL_TEXT: Units := [0x6E, 0x75, 0x6C, 0x6C]
  const TRUE_TEXT: Units := [0x74, 0x72, 0x75, 0x65]
  const FALSE_TEXT: Units := [0x66, 0x61, 0x6C, 0x73, 0x65]

  // ----- Numbers.

  function DigitUnit(d: nat): (u: Unit)
    requires d < 10
    ensures IsDigitUnit(u) && DigitOf(u) == d
  {
    0x30 + d
  }

  function DigitsText(n: nat): (t: Units)
    ensures t != [] && (forall u <- t :: IsDigitUnit(u)) && DigitsValue(t) == n
    ensures t[0] == 0x30 ==> n == 0 && |t| == 1
  {
    if n < 10 then
      var t := [DigitUnit(n)];
      assert t[..0] == [];
      t
    else
      var front, last := DigitsText(n / 10), DigitUnit(n % 10);
      assert (front + [last])[..|front|] == front;
      front + [last]
  }

  function NumberText(n: int): Units { if n < 0 then [MINUS] + DigitsText(-n) else DigitsText(n) }

  /** How many digits a text begins with. */
  function DigitRun(t: Units): (k: nat)
    ensures k <= |t| && (forall u <- t[..k] :: IsDigitUnit(u)) && (k < |t| ==> !IsDigitUnit(t[k]))
  {
    if t == [] || !IsDigitUnit(t[0]) then 0
    else
      var k := DigitRun(t[1..]);
      assert t[..k + 1] == [t[0]] + t[1..][..k];
      k + 1
  }

  function ParseDigits(t: Units): (r: Option<(nat, Units)>)
    ensures r.Some? ==> |r.value.1| < |t|
  {
    var k := DigitRun(t);
    if k == 0 || (t[0] == 0x30 && k > 1) then None else Some((DigitsValue(t[..k]), t[k..]))
  }

  predicate NoDigit(rest: Units) { rest == [] || !IsDigitUnit(rest[0]) }

  lemma {:induction false} RunOfDigits(t: Units, rest: Units)
    requires (forall u <- t :: IsDigitUnit(u)) && NoDigit(rest)
    ensures DigitRun(t + rest) == |t|
  {
    if t == [] {
      assert t + rest == rest;
    } else {
      RunOfDigits(t[1..], rest);
      assert (t + rest)[1..] == t[1..] + rest;
    }
  }

  lemma {:induction false} ParseDigitsText(n: nat, rest: Units)
    requires NoDigit(rest)
    ensures ParseDigits(DigitsText(n) + rest) == Some((n, rest))
  {
    var t := DigitsText(n);
    RunOfDigits(t, rest);
    assert (t + rest)[..|t|] == t && (t + rest)[|t|..] == rest;
  }

  // ----- Strings.

  predicate High(u: Unit) { 0xD800 <= u <= 0xDBFF }

  predicate Low(u: Unit) { 0xDC00 <= u <= 0xDFFF }

  function HexUnit(d: nat): (u: Unit)
    requires d < 16
  {
    if d < 10 then 0x30 + d else 0x57 + d
  }

  function HexValue(u: Unit): Option<nat> {
    if 0x30 <= u <= 0x39 then Some(u as int - 0x30)
    else if 0x61 <= u <= 0x66 then Some(u as int - 0x57)
    else if 0x41 <= u <= 0x46 then Some(u as int - 0x37)
    else None
  }

  function HexEscape(u: Unit): Units {
    [BACKSLASH, 0x75, HexUnit(u / 0x1000), HexUnit(u / 0x100 % 0x10), HexUnit(u / 0x10 % 0x10), HexUnit(u % 0x10)]
  }

  /** The letter of a two-character escape. */
  function ShortEscape(u: Unit): Option<Unit> {
    if u == 0x08 then Some(0x62)
    else if u == 0x09 then Some(0x74)
    else if u == 0x0A then Some(0x6E)
    else if u == 0x0C then Some(0x66)
    else if u == 0x0D then Some(0x72)
    else if u == QUOTE || u == BACKSLASH then Some(u)
    else None
  }

  function Unescape(letter: Unit): Option<Unit> {
    if letter == 0x62 then Some(0x08)
    else if letter == 0x74 then Some(0x09)
    else if letter == 0x6E then Some(0x0A)
    else if letter == 0x66 then Some(0x0C)
    else if letter == 0x72 then Some(0x0D)
    else if letter == QUOTE || letter == BACKSLASH || letter == 0x2F then Some(letter)
    else None
  }

  /** One code unit that is not part of a surrogate pair. */
  function EscapeUnit(u: Unit): Units {
    if ShortEscape(u).Some? then [BACKSLASH, ShortEscape(u).value]
    else if u < 0x20 || High(u) || Low(u) then HexEscape(u)
    else [u]
  }

  predicate PairAt(s: Units, i: nat) { i + 1 < |s| && High(s[i]) && Low(s[i + 1]) }

  function Escaped(s: Units, i: nat): Units
    requires i <= |s|
    decreases |s| - i
  {
    if i == |s| then []
    else if PairAt(s, i) then [s[i], s[i + 1]] + Escaped(s, i + 2)
    else EscapeUnit(s[i]) + Escaped(s, i + 1)
  }

  function Quote(s: Units): Units { [QUOTE] + Escaped(s, 0) + [QUOTE] }

  /** One character of a string body: its code unit and how much text it took. */
  function ParseUnit(t: Units): (r: Option<(Unit, nat)>)
    requires t != []
    ensures r.Some? ==> 1 <= r.value.1 <= |t|
  {
    if t[0] != BACKSLASH then (if t[0] < 0x20 then None else Some((t[0], 1)))
    else if |t| >= 2 && Unescape(t[1]).Some? then Some((Unescape(t[1]).value, 2))
    else if |t| >= 6 && t[1] == 0x75 then
      match (HexValue(t[2]), HexValue(t[3]), HexValue(t[4]), HexValue(t[5]))
      case (Some(a), Some(b), Some(c), Some(d)) =>
        var value := a * 0x1000 + b * 0x100 + c * 0x10 + d;
        if value < 0x1_0000 then Some((value, 6)) else None
      case _ => None
    else None
  }

  /** A string body up to its closing quote. */
  function ParseBody(t: Units): (r: Option<(Units, Units)>)
    ensures r.Some? ==> |r.value.1| < |t|
    decreases |t|
  {
    if t == [] then None
    else if t[0] == QUOTE then Some(([], t[1..]))
    else
      match ParseUnit(t)
      case None => None
      case Some((u, length)) =>
        match ParseBody(t[length..])
        case None => None
        case Some((s, rest)) => Some(([u] + s, rest))
  }

  lemma {:induction false} HexRoundTrip(d: nat)
    requires d < 16
    ensures HexValue(HexUnit(d)) == Some(d)
  {
  }

  lemma {:induction false} HexParts(u: Unit)
    ensures u / 0x1000 < 16
    ensures u == u / 0x1000 * 0x1000 + u / 0x100 % 0x10 * 0x100 + u / 0x10 % 0x10 * 0x10 + u % 0x10
  {
    assert u == u / 0x10 * 0x10 + u % 0x10 && u / 0x10 == u / 0x100 * 0x10 + u / 0x10 % 0x10;
    assert u / 0x100 == u / 0x1000 * 0x10 + u / 0x100 % 0x10;
  }

  lemma {:induction false} ParseHexDigits(a: nat, b: nat, c: nat, d: nat, rest: Units)
    requires a < 16 && b < 16 && c < 16 && d < 16
    ensures ParseUnit([BACKSLASH, 0x75, HexUnit(a), HexUnit(b), HexUnit(c), HexUnit(d)] + rest)
         == Some((a * 0x1000 + b * 0x100 + c * 0x10 + d, 6))
  {
    HexRoundTrip(a);
    HexRoundTrip(b);
    HexRoundTrip(c);
    HexRoundTrip(d);
    var t := [BACKSLASH, 0x75, HexUnit(a), HexUnit(b), HexUnit(c), HexUnit(d)] + rest;
    assert t[0] == BACKSLASH && t[1] == 0x75 && t[2] == HexUnit(a) && t[3] == HexUnit(b);
    assert t[4] == HexUnit(c) && t[5] == HexUnit(d);
  }

  lemma {:induction false} ParseHexEscape(u: Unit, rest: Units)
    ensures ParseUnit(HexEscape(u) + rest) == Some((u, 6))
  {
    HexParts(u);
    ParseHexDigits(u / 0x1000, u / 0x100 % 0x10, u / 0x10 % 0x10, u % 0x10, rest);
  }

  lemma {:induction false} ParseEscapedUnit(u: Unit, rest: Units)
    ensures ParseUnit(EscapeUnit(u) + rest) == Some((u, |EscapeUnit(u)|))
    ensures EscapeUnit(u)[0] != QUOTE
  {
    var t := EscapeUnit(u) + rest;
    if ShortEscape(u).Some? {
      assert t[0] == BACKSLASH && t[1] == ShortEscape(u).value;
    } else if u < 0x20 || High(u) || Low(u) {
      ParseHexEscape(u, rest);
    } else {
      assert t[0] == u;
    }
  }

  lemma {:induction false} BodyStep(chunk: Units, u: Unit, tail: Units)
    requires chunk != [] && chunk[0] != QUOTE && ParseUnit(chunk + tail) == Some((u, |chunk|))
    ensures ParseBody(chunk + tail) ==
            match ParseBody(tail) case None => None case Some((s, rest)) => Some(([u] + s, rest))
  {
    assert (chunk + tail)[0] == chunk[0] && (chunk + tail)[|chunk|..] == tail;
  }

  lemma {:induction false} PairStep(high: Unit, low: Unit, tail: Units)
    requires High(high) && Low(low)
    ensures ParseBody([high, low] + tail) ==
            match ParseBody(tail) case None => None case Some((s, rest)) => Some(([high, low] + s, rest))
  {
    assert [high, low] + tail == [high] + ([low] + tail);
    assert ([high] + ([low] + tail))[1..] == [low] + tail && ([low] + tail)[1..] == tail;
    BodyStep([low], low, tail);
    BodyStep([high], high, [low] + tail);
    match ParseBody(tail)
    case None =>
    case Some((s, rest)) => assert [high] + ([low] + s) == [high, low] + s;
  }

  /** A string body from `i` on, its closing quote and whatever follows. */
  function BodyText(s: Units, i: nat, rest: Units): Units
    requires i <= |s|
  {
    Escaped(s, i) + [QUOTE] + rest
  }

  lemma {:induction false} BodyTextStep(s: Units, i: nat, rest: Units)
    requires i < |s|
    ensures PairAt(s, i) ==> BodyText(s, i, rest) == [s[i], s[i + 1]] + BodyText(s, i + 2, rest)
    ensures !PairAt(s, i) ==> BodyText(s, i, rest) == EscapeUnit(s[i]) + BodyText(s, i + 1, rest)
  {
  }

  lemma {:induction false} BodyPair(s: Units, i: nat, rest: Units)
    requires PairAt(s, i) && ParseBody(BodyText(s, i + 2, rest)) == Some((s[i + 2..], rest))
    ensures ParseBody(BodyText(s, i, rest)) == Some((s[i..], rest))
  {
    BodyTextStep(s, i, rest);
    PairStep(s[i], s[i + 1], BodyText(s, i + 2, rest));
    assert s[i..] == [s[i], s[i + 1]] + s[i + 2..];
  }

  lemma {:induction false} BodyUnit(s: Units, i: nat, rest: Units)
    requires i < |s| && !PairAt(s, i) && ParseBody(BodyText(s, i + 1, rest)) == Some((s[i + 1..], rest))
    ensures ParseBody(BodyText(s, i, rest)) == Some((s[i..], rest))
  {
    BodyTextStep(s, i, rest);
    ParseEscapedUnit(s[i], BodyText(s, i + 1, rest));
    BodyStep(EscapeUnit(s[i]), s[i], BodyText(s, i + 1, rest));
    assert s[i..] == [s[i]] + s[i + 1..];
  }

  lemma {:induction false} ParseEscaped(s: Units, i: nat, rest: Units)
    requires i <= |s|
    ensures ParseBody(BodyText(s, i, rest)) == Some((s[i..], rest))
    decreases |s| - i
  {
    if i == |s| {
      assert BodyText(s, i, rest) == [QUOTE] + rest && ([QUOTE] + rest)[1..] == rest;
      assert s[i..] == [];
    } else if PairAt(s, i) {
      ParseEscaped(s, i + 2, rest);
      BodyPair(s, i, rest);
    } else {
      ParseEscaped(s, i + 1, rest);
      BodyUnit(s, i, rest);
    }
  }

  // ----- Values.

  function Text(v: Json): (t: Units)
    ensures t != []
    decreases v, 0
  {
    match v
    case Null => NULL_TEXT
    case Bool(b) => if b then TRUE_TEXT else FALSE_TEXT
    case Num(n) => NumberText(n)
    case Str(s) => Quote(s)
    case Arr(items) => [OPEN_BRACKET] + ItemsText(items, 0) + [CLOSE_BRACKET]
    case Obj(es) => [OPEN_BRACE] + EntriesText(es, 0) + [CLOSE_BRACE]
  }

  /** The items from `i` on, separated by commas. */
  function ItemsText(items: seq<Json>, i: nat): Units
    requires i <= |items|
    decreases items, |items| - i
  {
    if i == |items| then []
    else if i + 1 == |items| then Text(items[i])
    else Text(items[i]) + [COMMA] + ItemsText(items, i + 1)
  }

  function EntryText(e: Entry): Units
    decreases e, 0
  {
    Quote(e.key) + [COLON] + Text(e.value)
  }

  function EntriesText(es: seq<Entry>, i: nat): Units
    requires i <= |es|
    decreases es, |es| - i
  {
    if i == |es| then []
    else if i + 1 == |es| then EntryText(es[i])
    else EntryText(es[i]) + [COMMA] + EntriesText(es, i + 1)
  }

  function ParseLiteral(t: Units, literal: Units, v: Json): (r: Option<(Json, Units)>)
    requires literal != []
    ensures r.Some? ==> |r.value.1| < |t|
  {
    if |literal| <= |t| && t[..|literal|] == literal then Some((v, t[|literal|..])) else None
  }

  function ParseString(t: Units): (r: Option<(Units, Units)>)
    ensures r.Some? ==> |r.value.1| < |t|
  {
    if t == [] || t[0] != QUOTE then None else ParseBody(t[1..])
  }

  function ParseNumber(t: Units): (r: Option<(Json, Units)>)
    requires t != []
    ensures r.Some? ==> |r.value.1| < |t|
  {
    if t[0] == MINUS then
      match ParseDigits(t[1..])
      case None => None
      case Some((n, rest)) => Some((Num(-(n as int)), rest))
    else
      match ParseDigits(t)
      case None => None
      case Some((n, rest)) => Some((Num(n), rest))
  }

  function ParseValue(t: Units): (r: Option<(Json, Units)>)
    ensures r.Some? ==> |r.value.1| < |t|
    decreases |t|, 0
  {
    if t == [] then None
    else if t[0] == NULL_TEXT[0] then ParseLiteral(t, NULL_TEXT, Null)
    else if t[0] == TRUE_TEXT[0] then ParseLiteral(t, TRUE_TEXT, Bool(true))
    else if t[0] == FALSE_TEXT[0] then ParseLiteral(t, FALSE_TEXT, Bool(false))
    else if t[0] == QUOTE then
      match ParseString(t)
      case None => None
      case Some((s, rest)) => Some((Str(s), rest))
    else if t[0] == OPEN_BRACKET then
      if |t| >= 2 && t[1] == CLOSE_BRACKET then Some((Arr([]), t[2..]))
      else
        match ParseItems(t[1..])
        case None => None
        case Some((items, rest)) => Some((Arr(items), rest))
    else if t[0] == OPEN_BRACE then
      if |t| >= 2 && t[1] == CLOSE_BRACE then Some((Obj([]), t[2..]))
      else
        match ParseEntries(t[1..])
        case None => None
        case Some((es, rest)) => Some((Obj(es), rest))
    else ParseNumber(t)
  }

  /** One or more items up to the closing bracket. */
  function ParseItems(t: Units): (r: Option<(seq<Json>, Units)>)
    ensures r.Some? ==> |r.value.1| < |t|
    decreases |t|, 1
  {
    match ParseValue(t)
    case None => None
    case Some((v, rest)) =>
      if rest == [] then None
      else if rest[0] == CLOSE_BRACKET then Some(([v], rest[1..]))
      else if rest[0] != COMMA then None
      else
        match ParseItems(rest[1..])
        case None => None
        case Some((items, after)) => Some(([v] + items, after))
  }

  function ParseEntry(t: Units): (r: Option<(Entry, Units)>)
    ensures r.Some? ==> |r.value.1| < |t|
    decreases |t|, 1
  {
    match ParseString(t)
    case None => None
    case Some((key, rest)) =>
      if rest == [] || rest[0] != COLON then None
      else
        match ParseValue(rest[1..])
        case None => None
        case Some((v, after)) => Some((Entry(key, v), after))
  }

  /** One or more entries up to the closing brace. */
  function ParseEntries(t: Units): (r: Option<(seq<Entry>, Units)>)
    ensures r.Some? ==> |r.value.1| < |t|
    decreases |t|, 2
  {
    match ParseEntry(t)
    case None => None
    case Some((e, rest)) =>
      if rest == [] then None
      else if rest[0] == CLOSE_BRACE then Some(([e], rest[1..]))
      else if rest[0] != COMMA then None
      else
        match ParseEntries(rest[1..])
        case None => None
        case Some((es, after)) => Some(([e] + es, after))
  }

  // ----- Reading what was written.

  lemma {:induction false} ParseLiteralText(literal: Units, v: Json, rest: Units)
    requires literal != []
    ensures ParseLiteral(literal + rest, literal, v) == Some((v, rest))
  {
    assert (literal + rest)[..|literal|] == literal && (literal + rest)[|literal|..] == rest;
  }

  lemma {:induction false} ParseNumberDigits(digits: Units, n: nat, rest: Units)
    requires digits != [] && IsDigitUnit(digits[0]) && ParseDigits(digits + rest) == Some((n, rest))
    ensures ParseValue(digits + rest) == Some((Num(n), rest))
    ensures ParseValue([MINUS] + digits + rest) == Some((Num(-(n as int)), rest))
  {
    var t := [MINUS] + digits + rest;
    assert t[0] == MINUS && t[1..] == digits + rest;
    assert (digits + rest)[0] == digits[0];
  }

  lemma {:induction false} ParseNumberText(n: int, rest: Units)
    requires NoDigit(rest)
    ensures ParseValue(NumberText(n) + rest) == Some((Num(n), rest))
  {
    var magnitude: nat := if n < 0 then -n else n;
    var digits := DigitsText(magnitude);
    assert digits[0] in digits;
    ParseDigitsText(magnitude, rest);
    ParseNumberDigits(digits, magnitude, rest);
  }

  lemma {:induction false} ParseQuote(s: Units, rest: Units)
    ensures ParseString(Quote(s) + rest) == Some((s, rest))
    ensures (Quote(s) + rest)[0] == QUOTE
  {
    assert Quote(s) + rest == [QUOTE] + BodyText(s, 0, rest);
    ParseEscaped(s, 0, rest);
    assert s[0..] == s;
  }

  lemma {:induction false} ItemsEnd(t: Units, v: Json, rest: Units)
    requires ParseValue(t) == Some((v, [CLOSE_BRACKET] + rest))
    ensures ParseItems(t) == Some(([v], rest))
  {
    assert ([CLOSE_BRACKET] + rest)[1..] == rest;
  }

  lemma {:induction false} ItemsContinue(t: Units, v: Json, tail: Units, items: seq<Json>, rest: Units)
    requires ParseValue(t) == Some((v, [COMMA] + tail)) && ParseItems(tail) == Some((items, rest))
    ensures ParseItems(t) == Some(([v] + items, rest))
  {
    assert ([COMMA] + tail)[1..] == tail;
  }

  lemma {:induction false} EntriesEnd(t: Units, e: Entry, rest: Units)
    requires ParseEntry(t) == Some((e, [CLOSE_BRACE] + rest))
    ensures ParseEntries(t) == Some(([e], rest))
  {
    assert ([CLOSE_BRACE] + rest)[1..] == rest;
  }

  lemma {:induction false} EntriesContinue(t: Units, e: Entry, tail: Units, es: seq<Entry>, rest: Units)
    requires ParseEntry(t) == Some((e, [COMMA] + tail)) && ParseEntries(tail) == Some((es, rest))
    ensures ParseEntries(t) == Some(([e] + es, rest))
  {
    assert ([COMMA] + tail)[1..] == tail;
  }

  lemma {:induction false} ParseEntryText(e: Entry, rest: Units)
    requires ParseValue(Text(e.value) + rest) == Some((e.value, rest))
    ensures ParseEntry(EntryText(e) + rest) == Some((e, rest))
  {
    var tail := [COLON] + (Text(e.value) + rest);
    assert EntryText(e) + rest == Quote(e.key) + tail;
    ParseQuote(e.key, tail);
    assert tail[1..] == Text(e.value) + rest;
  }

  /** The rest of an array or an object, from one element on. */
  function ArrayTail(items: seq<Json>, i: nat, rest: Units): Units
    requires i <= |items|
  {
    ItemsText(items, i) + [CLOSE_BRACKET] + rest
  }

  function ObjectTail(es: seq<Entry>, i: nat, rest: Units): Units
    requires i <= |es|
  {
    EntriesText(es, i) + [CLOSE_BRACE] + rest
  }

  lemma {:induction false} ArrayTailStep(items: seq<Json>, i: nat, rest: Units)
    requires i < |items|
    ensures ArrayTail(items, i, rest) ==
            Text(items[i]) + (if i + 1 == |items| then [CLOSE_BRACKET] + rest else [COMMA] + ArrayTail(items, i + 1, rest))
  {
  }

  lemma {:induction false} ObjectTailStep(es: seq<Entry>, i: nat, rest: Units)
    requires i < |es|
    ensures ObjectTail(es, i, rest) ==
            EntryText(es[i]) + (if i + 1 == |es| then [CLOSE_BRACE] + rest else [COMMA] + ObjectTail(es, i + 1, rest))
  {
  }

  /** No value's text begins like the end of an array, so an array with items is not read as an empty one. */
  lemma {:induction false} TextStart(v: Json)
    ensures Text(v)[0] != CLOSE_BRACKET
  {
    if v.Num? && v.n >= 0 { assert DigitsText(v.n)[0] in DigitsText(v.n); }
  }

  lemma {:induction false} ParseArray(items: seq<Json>, rest: Units)
    requires items != [] ==> ParseItems(ArrayTail(items, 0, rest)) == Some((items, rest))
    ensures ParseValue(Text(Arr(items)) + rest) == Some((Arr(items), rest))
  {
    var t := [OPEN_BRACKET] + ArrayTail(items, 0, rest);
    assert Text(Arr(items)) + rest == t;
    assert t[1..] == ArrayTail(items, 0, rest);
    if items == [] {
      assert t == [OPEN_BRACKET, CLOSE_BRACKET] + rest;
      assert t[2..] == rest;
    } else {
      ArrayTailStep(items, 0, rest);
      TextStart(items[0]);
      assert t[1] == Text(items[0])[0];
    }
  }

  lemma {:induction false} ParseObject(es: seq<Entry>, rest: Units)
    requires es != [] ==> ParseEntries(ObjectTail(es, 0, rest)) == Some((es, rest))
    ensures ParseValue(Text(Obj(es)) + rest) == Some((Obj(es), rest))
  {
    var t := [OPEN_BRACE] + ObjectTail(es, 0, rest);
    assert Text(Obj(es)) + rest == t;
    assert t[1..] == ObjectTail(es, 0, rest);
    if es == [] {
      assert t == [OPEN_BRACE, CLOSE_BRACE] + rest;
      assert t[2..] == rest;
    } else {
      ObjectTailStep(es, 0, rest);
      assert t[1] == EntryText(es[0])[0] == QUOTE;
    }
  }

  /** Reading a value's text gives back the value and leaves exactly what follows it. */
  lemma {:induction false} ParseText(v: Json, rest: Units)
    requires NoDigit(rest)
    ensures ParseValue(Text(v) + rest) == Some((v, rest))
    decreases v, 0
  {
    if v.Arr? {
      if v.items != [] {
        ParseArrayTail(v.items, 0, rest);
        assert v.items[0..] == v.items;
      }
      ParseArray(v.items, rest);
    } else if v.Obj? {
      if v.entries != [] {
        ParseObjectTail(v.entries, 0, rest);
        assert v.entries[0..] == v.entries;
      }
      ParseObject(v.entries, rest);
    } else {
      ParseScalar(v, rest);
    }
  }

  lemma {:induction false} ParseScalar(v: Json, rest: Units)
    requires NoDigit(rest) && !v.Arr? && !v.Obj?
    ensures ParseValue(Text(v) + rest) == Some((v, rest))
  {
    match v {
      case Null => ParseLiteralText(NULL_TEXT, v, rest);
      case Bool(b) => ParseLiteralText(Text(v), v, rest);
      case Num(n) => ParseNumberText(n, rest);
      case Str(s) => ParseQuote(s, rest);
      case _ =>
    }
  }

  lemma {:induction false} ArrayTailRead(items: seq<Json>, i: nat, t: Units, rest: Units)
    requires i < |items|
    requires i + 1 == |items| ==> ParseValue(t) == Some((items[i], [CLOSE_BRACKET] + rest))
    requires i + 1 < |items| ==>
               && ParseValue(t) == Some((items[i], [COMMA] + ArrayTail(items, i + 1, rest)))
               && ParseItems(ArrayTail(items, i + 1, rest)) == Some((items[i + 1..], rest))
    ensures ParseItems(t) == Some((items[i..], rest))
  {
    if i + 1 == |items| {
      ItemsEnd(t, items[i], rest);
      assert items[i..] == [items[i]];
    } else {
      assert items[i..] == [items[i]] + items[i + 1..];
      ItemsContinue(t, items[i], ArrayTail(items, i + 1, rest), items[i + 1..], rest);
    }
  }

  lemma {:induction false} ParseArrayTail(items: seq<Json>, i: nat, rest: Units)
    requires i < |items|
    ensures ParseItems(ArrayTail(items, i, rest)) == Some((items[i..], rest))
    decreases items, |items| - i
  {
    ArrayTailStep(items, i, rest);
    if i + 1 == |items| {
      ParseText(items[i], [CLOSE_BRACKET] + rest);
    } else {
      ParseText(items[i], [COMMA] + ArrayTail(items, i + 1, rest));
      ParseArrayTail(items, i + 1, rest);
    }
    ArrayTailRead(items, i, ArrayTail(items, i, rest), rest);
  }

  lemma {:induction false} ParseObjectTail(es: seq<Entry>, i: nat, rest: Units)
    requires i < |es|
    ensures ParseEntries(ObjectTail(es, i, rest)) == Some((es[i..], rest))
    decreases es, |es| - i
  {
    var t := ObjectTail(es, i, rest);
    ObjectTailStep(es, i, rest);
    if i + 1 == |es| {
      ParseText(es[i].value, [CLOSE_BRACE] + rest);
      ParseEntryText(es[i], [CLOSE_BRACE] + rest);
      EntriesEnd(t, es[i], rest);
      assert es[i..] == [es[i]];
    } else {
      var tail := ObjectTail(es, i + 1, rest);
      ParseText(es[i].value, [COMMA] + tail);
      ParseEntryText(es[i], [COMMA] + tail);
      ParseObjectTail(es, i + 1, rest);
      EntriesContinue(t, es[i], tail, es[i + 1..], rest);
      assert es[i..] == [es[i]] + es[i + 1..];
    }
  }

  /** Text determines the value, the order of keys included. */
  lemma {:induction false} TextInjective(a: Json, b: Json)
    requires Text(a) == Text(b)
    ensures a == b
  {
    ParseText(a, []);
    ParseText(b, []);
  }

  // ----- Canonical text as identity.

  function CanonicalStringify(v: Json): Result<Units, JsonError> {
    match CanonicalizeAt(v, 0)
    case Err(e) => Err(e)
    case Ok(canonical) => Ok(Text(canonical))
  }

  /** Canonical text exists exactly for values within the depth limit. */
  lemma {:induction false} StringifyFailsOnDepth(v: Json)
    requires Valid(v)
    ensures CanonicalStringify(v) == if WithinDepth(v, 0) then Ok(Text(Canon(v))) else Err(DepthExceeded)
  {
    CanonicalizeIsCanon(v, 0);
  }

  /** Two values have the same canonical text exactly when they are the same up to the order of object keys. */
  lemma {:induction false} CanonicalTextIsIdentity(a: Json, b: Json)
    requires Valid(a) && Valid(b) && WithinDepth(a, 0) && WithinDepth(b, 0)
    ensures CanonicalStringify(a) == CanonicalStringify(b) <==> SameUpToOrder(a, b)
  {
    StringifyFailsOnDepth(a);
    StringifyFailsOnDepth(b);
    if Text(Canon(a)) == Text(Canon(b)) {
      TextInjective(Canon(a), Canon(b));
      CanonEqualThenSame(a, b);
    }
    if SameUpToOrder(a, b) { SameThenCanonEqual(a, b); }
  }

  /** Canonical text read back and written again is unchanged, as recovery demands of every stored document. */
  lemma {:induction false} CanonicalTextReadsBack(v: Json)
    requires Valid(v) && WithinDepth(v, 0)
    ensures CanonicalStringify(v).Ok?
    ensures ParseValue(CanonicalStringify(v).value) == Some((Canon(v), []))
    ensures CanonicalStringify(Canon(v)) == CanonicalStringify(v)
  {
    StringifyFailsOnDepth(v);
    CanonIsSame(v);
    SameDepth(v, Canon(v), 0);
    StringifyFailsOnDepth(Canon(v));
    ParseText(Canon(v), []);
    assert Text(Canon(v)) + [] == Text(Canon(v));
    CanonIdempotent(v);
  }
}
