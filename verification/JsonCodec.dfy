/** The JSON printer and the recursive-descent parser of the JVM host.

    `Print...` and `Parse...` are the values that the printer and the parser compute;
    the class `Parser` and the method `Write` below compute them the way the Java code
    does, with one moving index and one shared output buffer. */
module JsonCodec {
  import opened Options
  import opened Units

  // ---------------------------------------------------------------- values

  /** A JSON value as the codec builds it: integers are Java longs, numbers with a fraction
      or an exponent are Java's `BigDecimal`, `unscaled * 10^-scale`, and objects keep the
      insertion order of their keys. */
  datatype Json =
    | Null
    | Bool(b: bool)
    | Integer(n: int)
    | Decimal(unscaled: int, scale: int)
    | Str(text: Text)
    | List(items: seq<Json>)
    | Object(entries: seq<Entry>)

  datatype Entry = Entry(key: Text, value: Json)

  const MIN_LONG: int := -0x8000_0000_0000_0000
  const MAX_LONG: int := 0x7fff_ffff_ffff_ffff
  const MIN_INT: int := -0x8000_0000
  const MAX_INT: int := 0x7fff_ffff

  ghost predicate DistinctKeys(entries: seq<Entry>) {
    forall i, j :: 0 <= i < j < |entries| ==> entries[i].key != entries[j].key
  }

  /** What every value of the host language satisfies: longs and scales are in range and no
      object holds a key twice, at any depth. */
  ghost predicate Valid(v: Json) {
    match v
    case Integer(n) => MIN_LONG <= n <= MAX_LONG
    case Decimal(_, scale) => MIN_INT <= scale <= MAX_INT
    case List(items) => forall i :: 0 <= i < |items| ==> Valid(items[i])
    case Object(entries) =>
      DistinctKeys(entries) && forall i :: 0 <= i < |entries| ==> Valid(entries[i].value)
    case _ => true
  }

  // ------------------------------------------------------------ characters

  const QUOTE: Unit := 34
  const BACKSLASH: Unit := 92
  const SLASH: Unit := 47
  const COMMA: Unit := 44
  const COLON: Unit := 58
  const MINUS: Unit := 45
  const PLUS: Unit := 43
  const POINT: Unit := 46
  const LBRACE: Unit := 123
  const RBRACE: Unit := 125
  const LBRACKET: Unit := 91
  const RBRACKET: Unit := 93
  const ZERO: Unit := 48
  const UPPER_E: Unit := 69
  const LOWER_B: Unit := 98
  const LOWER_E: Unit := 101
  const LOWER_F: Unit := 102
  const LOWER_N: Unit := 110
  const LOWER_R: Unit := 114
  const LOWER_T: Unit := 116
  const LOWER_U: Unit := 117

  const NULL_TEXT: Text := [110, 117, 108, 108]
  const TRUE_TEXT: Text := [116, 114, 117, 101]
  const FALSE_TEXT: Text := [102, 97, 108, 115, 101]

  /** Java's `Character.isWhitespace` on one code unit. */
  predicate IsWhitespace(c: Unit) {
    || 0x09 <= c <= 0x0D
    || 0x1C <= c <= 0x20
    || c == 0x1680
    || 0x2000 <= c <= 0x2006
    || 0x2008 <= c <= 0x200A
    || 0x2028 <= c <= 0x2029
    || c == 0x205F
    || c == 0x3000
  }

  /** First code unit of each run of ten decimal digits outside ASCII. */
  const DIGIT_RUNS: seq<Unit> := [
    0x0660, 0x06F0, 0x07C0, 0x0966, 0x09E6, 0x0A66, 0x0AE6, 0x0B66, 0x0BE6, 0x0C66, 0x0CE6, 0x0D66,
    0x0DE6, 0x0E50, 0x0ED0, 0x0F20, 0x1040, 0x1090, 0x17E0, 0x1810, 0x1946, 0x19D0, 0x1A80, 0x1A90,
    0x1B50, 0x1BB0, 0x1C40, 0x1C50, 0xA620, 0xA8D0, 0xA900, 0xA9D0, 0xA9F0, 0xAA50, 0xABF0, 0xFF10]

  function OtherDigit(c: Unit): (d: int)
    requires c >= 0x0660
    ensures -1 <= d <= 9
  {
    if c in DIGIT_RUNS then 0
    else if c - 1 in DIGIT_RUNS then 1
    else if c - 2 in DIGIT_RUNS then 2
    else if c - 3 in DIGIT_RUNS then 3
    else if c - 4 in DIGIT_RUNS then 4
    else if c - 5 in DIGIT_RUNS then 5
    else if c - 6 in DIGIT_RUNS then 6
    else if c - 7 in DIGIT_RUNS then 7
    else if c - 8 in DIGIT_RUNS then 8
    else if c - 9 in DIGIT_RUNS then 9
    else -1
  }

  /** The decimal digit a code unit stands for, -1 for none. */
  function DecimalDigit(c: Unit): (d: int)
    ensures -1 <= d <= 9
  {
    if 48 <= c <= 57 then c - 48 else if c < 0x0660 then -1 else OtherDigit(c)
  }

  predicate IsDigit(c: Unit) { DecimalDigit(c) >= 0 }

  /** `Character.digit(c, 16)`: also letters, ASCII or full-width. */
  function HexDigit(c: Unit): (d: int)
    ensures -1 <= d <= 15
  {
    if IsDigit(c) then DecimalDigit(c)
    else if 65 <= c <= 70 then c - 55
    else if 97 <= c <= 102 then c - 87
    else if 0xFF21 <= c <= 0xFF26 then c - 0xFF21 + 10
    else if 0xFF41 <= c <= 0xFF46 then c - 0xFF41 + 10
    else -1
  }

  // --------------------------------------------------------------- printing

  function HexUnit(d: int): Unit
    requires 0 <= d <= 15
  {
    if d < 10 then 48 + d else 87 + d
  }

  /** How one character of a string is written. */
  function PrintChar(c: Unit): Text {
    if c == QUOTE then [BACKSLASH, QUOTE]
    else if c == BACKSLASH then [BACKSLASH, BACKSLASH]
    else if c == 8 then [BACKSLASH, LOWER_B]
    else if c == 12 then [BACKSLASH, LOWER_F]
    else if c == 10 then [BACKSLASH, LOWER_N]
    else if c == 13 then [BACKSLASH, LOWER_R]
    else if c == 9 then [BACKSLASH, LOWER_T]
    else if c < 0x20 then [BACKSLASH, LOWER_U, ZERO, ZERO, HexUnit(c / 16), HexUnit(c % 16)]
    else [c]
  }

  function PrintChars(t: Text): Text {
    if t == [] then [] else PrintChar(t[0]) + PrintChars(t[1..])
  }

  function PrintString(t: Text): Text {
    [QUOTE] + PrintChars(t) + [QUOTE]
  }

  function Digits(n: nat): (t: Text)
    ensures |t| > 0
  {
    if n < 10 then [48 + n] else Digits(n / 10) + [48 + n % 10]
  }

  function PrintInteger(n: int): Text {
    if n < 0 then [MINUS] + Digits(-n) else Digits(n)
  }

  function Magnitude(n: int): nat { if n < 0 then -n else n }

  function Sign(n: int): Text { if n < 0 then [MINUS] else [] }

  function Zeros(k: nat): (t: Text)
    ensures |t| == k
  {
    if k == 0 then [] else Zeros(k - 1) + [ZERO]
  }

  /** The exponent in scientific notation: one digit stands before the point. */
  function AdjustedExponent(unscaled: int, scale: int): int {
    |Digits(Magnitude(unscaled))| - 1 - scale
  }

  /** `BigDecimal.toString`: the plain form, or the scientific one when the scale is negative
      or the number small. */
  function PrintDecimal(unscaled: int, scale: int): Text {
    if scale == 0 then PrintInteger(unscaled)
    else if scale > 0 && AdjustedExponent(unscaled, scale) >= -6 then
      Sign(unscaled) + PlainDigits(Digits(Magnitude(unscaled)), scale)
    else
      Sign(unscaled)
      + (PointAfterFirst(Digits(Magnitude(unscaled))) + PrintExponent(AdjustedExponent(unscaled, scale)))
  }

  /** The digits with a point before the last `scale` of them, zeros added where needed. */
  function PlainDigits(digits: Text, scale: nat): Text {
    if scale >= |digits| then [ZERO, POINT] + (Zeros(scale - |digits|) + digits)
    else digits[..|digits| - scale] + [POINT] + digits[|digits| - scale..]
  }

  function PointAfterFirst(digits: Text): Text
    requires |digits| > 0
  {
    if |digits| == 1 then digits else [digits[0], POINT] + digits[1..]
  }

  function PrintExponent(e: int): Text {
    [UPPER_E, if e < 0 then MINUS else PLUS] + Digits(Magnitude(e))
  }

  function Print(v: Json): Text {
    match v
    case Null => NULL_TEXT
    case Bool(b) => if b then TRUE_TEXT else FALSE_TEXT
    case Integer(n) => PrintInteger(n)
    case Decimal(unscaled, scale) => PrintDecimal(unscaled, scale)
    case Str(t) => PrintString(t)
    case List(items) => [LBRACKET] + PrintItems(items) + [RBRACKET]
    case Object(entries) => [LBRACE] + PrintEntries(entries) + [RBRACE]
  }

  function PrintItems(items: seq<Json>): Text {
    if items == [] then []
    else if |items| == 1 then Print(items[0])
    else Print(items[0]) + [COMMA] + PrintItems(items[1..])
  }

  function PrintEntry(e: Entry): Text {
    PrintString(e.key) + [COLON] + Print(e.value)
  }

  function PrintEntries(entries: seq<Entry>): Text {
    if entries == [] then []
    else if |entries| == 1 then PrintEntry(entries[0])
    else PrintEntry(entries[0]) + [COMMA] + PrintEntries(entries[1..])
  }

  // ---------------------------------------------------------------- parsing

  datatype ErrorKind =
    | TrailingContent
    | UnexpectedEnd
    | KeyNotString
    | UnterminatedEscape
    | UnsupportedEscape
    | UnterminatedString
    | IncompleteUnicode
    | InvalidUnicode
    | InvalidLiteral
    | InvalidNumber
    | Expected(unit: Unit)
    | NotAnObject

  /** A value and the index after it, or the thrown error and the offset it reports. */
  datatype Outcome<+T> = Ok(value: T, next: nat) | Fail(kind: ErrorKind, at: nat)

  function SkipWhitespace(s: Text, i: nat): (j: nat)
    requires i <= |s|
    ensures i <= j <= |s|
    ensures j < |s| ==> !IsWhitespace(s[j])
    decreases |s| - i
  {
    if i < |s| && IsWhitespace(s[i]) then SkipWhitespace(s, i + 1) else i
  }

  predicate Peek(s: Text, i: nat, c: Unit) { i < |s| && s[i] == c }

  /** The first index from `i` on that does not hold a digit. */
  function SkipDigits(s: Text, i: nat): (j: nat)
    requires i <= |s|
    ensures i <= j <= |s|
    decreases |s| - i
  {
    if i < |s| && IsDigit(s[i]) then SkipDigits(s, i + 1) else i
  }

  function AfterMinus(s: Text, i: nat): nat { if Peek(s, i, MINUS) then i + 1 else i }

  function AfterFraction(s: Text, i: nat): (j: nat)
    requires i <= |s|
    ensures i <= j <= |s|
  {
    if Peek(s, i, POINT) then SkipDigits(s, i + 1) else i
  }

  function AfterExponent(s: Text, i: nat): (j: nat)
    requires i <= |s|
    ensures i <= j <= |s|
  {
    if Peek(s, i, LOWER_E) || Peek(s, i, UPPER_E) then
      var k := i + 1;
      SkipDigits(s, if Peek(s, k, PLUS) || Peek(s, k, MINUS) then k + 1 else k)
    else i
  }

  /** The end of the longest text the number scanner takes. */
  function NumberEnd(s: Text, i: nat): (j: nat)
    requires i <= |s|
    ensures i <= j <= |s|
  {
    AfterExponent(s, AfterFraction(s, SkipDigits(s, AfterMinus(s, i))))
  }

  /** The number that decimal digits stand for, most significant first. */
  function DigitsValue(t: Text): nat
    requires AllDigits(t)
  {
    if t == [] then 0
    else
      assert IsDigit(t[|t| - 1]);
      10 * DigitsValue(t[..|t| - 1]) + DecimalDigit(t[|t| - 1])
  }

  /** `Long.parseLong` on a text whose first character may be a minus sign. */
  function ParseLong(t: Text): Option<int> {
    var negative := |t| > 0 && t[0] == MINUS;
    var digits := if negative then t[1..] else t;
    if digits == [] || !AllDigits(digits) then None
    else
      var n: int := if negative then 0 - DigitsValue(digits) else DigitsValue(digits);
      if MIN_LONG <= n <= MAX_LONG then Some(n) else None
  }

  predicate AllDigits(t: Text)
    ensures AllDigits(t) <==> forall k :: 0 <= k < |t| ==> IsDigit(t[k])
  {
    t == [] || (IsDigit(t[0]) && AllDigits(t[1..]))
  }

  /** The number after an `e`: an optional sign and at least one digit, in int range. */
  function ParseExponent(t: Text): Option<int> {
    var signed := |t| > 0 && (t[0] == PLUS || t[0] == MINUS);
    var digits := if signed then t[1..] else t;
    if digits == [] || !AllDigits(digits) then None
    else
      var e: int := if t[0] == MINUS then 0 - DigitsValue(digits) else DigitsValue(digits);
      if MIN_INT <= e <= MAX_INT then Some(e) else None
  }

  /** `new BigDecimal` on the text of a number: the digits around the point, of which there
      must be one, moved by the exponent. */
  function ParseDecimal(t: Text): Option<Json> {
    var start := AfterMinus(t, 0);
    var point := SkipDigits(t, start);
    var end := AfterFraction(t, point);
    var fraction := if point < end then t[point + 1..end] else [];
    var digits := t[start..point] + fraction;
    if digits == [] || !AllDigits(digits) then None
    else
      var value: int := if start == 1 then 0 - DigitsValue(digits) else DigitsValue(digits);
      match if end < |t| then ParseExponent(t[end + 1..]) else Some(0)
      case None => None
      case Some(e) =>
        var scale := |fraction| - e;
        if MIN_INT <= scale <= MAX_INT then Some(Decimal(value, scale)) else None
  }

  predicate IsDecimal(t: Text) { POINT in t || LOWER_E in t || UPPER_E in t }

  /** The number a scanned text stands for: a decimal or a long. */
  function ReadNumber(lexeme: Text): (r: Option<Json>)
    ensures r.Some? ==> lexeme != [] && (r.value.Integer? || r.value.Decimal?) && Valid(r.value)
  {
    if IsDecimal(lexeme) then ParseDecimal(lexeme)
    else
      match ParseLong(lexeme)
      case None => None
      case Some(n) => Some(Integer(n))
  }

  function ParseNumber(s: Text, i: nat): (r: Outcome<Json>)
    requires i <= |s|
    ensures r.Ok? ==> i < r.next <= |s|
  {
    var end := NumberEnd(s, i);
    var lexeme := s[i..end];
    match ReadNumber(lexeme)
    case None => Fail(InvalidNumber, end)
    case Some(v) => Ok(v, end)
  }

  function ParseLiteral(s: Text, i: nat, literal: Text, v: Json): (r: Outcome<Json>)
    requires i <= |s| && |literal| > 0
    ensures r.Ok? ==> i < r.next <= |s|
  {
    if literal <= s[i..] then Ok(v, i + |literal|) else Fail(InvalidLiteral, i)
  }

  /** `Integer.parseInt(t, 16)` on four characters, which allows a leading sign, then the
      narrowing cast to a character. */
  function HexValue(t: Text): Option<Unit>
    requires |t| == 4
  {
    var signed := t[0] == PLUS || t[0] == MINUS;
    var a, b, c, d := if signed then 0 else HexDigit(t[0]), HexDigit(t[1]), HexDigit(t[2]), HexDigit(t[3]);
    if a < 0 || b < 0 || c < 0 || d < 0 then None
    else
      var n := 4096 * a + 256 * b + 16 * c + d;
      Some(if t[0] == MINUS then (0x1_0000 - n) % 0x1_0000 else n)
  }

  function ParseUnicode(s: Text, i: nat): (r: Outcome<Unit>)
    requires i <= |s|
    ensures r.Ok? ==> r.next == i + 4 <= |s|
  {
    if i + 4 > |s| then Fail(IncompleteUnicode, i)
    else
      match HexValue(s[i..i + 4])
      case None => Fail(InvalidUnicode, i + 4)
      case Some(c) => Ok(c, i + 4)
  }

  /** The character a one-letter escape stands for. */
  function Unescape(c: Unit): Option<Unit> {
    if c == QUOTE || c == BACKSLASH || c == SLASH then Some(c)
    else if c == LOWER_B then Some(8)
    else if c == LOWER_F then Some(12)
    else if c == LOWER_N then Some(10)
    else if c == LOWER_R then Some(13)
    else if c == LOWER_T then Some(9)
    else None
  }

  /** The rest of a string whose characters so far are `acc`. */
  function ParseChars(s: Text, i: nat, acc: Text): (r: Outcome<Text>)
    requires i <= |s|
    ensures r.Ok? ==> i < r.next <= |s|
    decreases |s| - i
  {
    if i == |s| then Fail(UnterminatedString, i)
    else if s[i] == QUOTE then Ok(acc, i + 1)
    else if s[i] != BACKSLASH then ParseChars(s, i + 1, acc + [s[i]])
    else if i + 1 == |s| then Fail(UnterminatedEscape, i + 1)
    else if s[i + 1] == LOWER_U then
      (match ParseUnicode(s, i + 2)
       case Fail(kind, at) => Fail(kind, at)
       case Ok(c, next) => ParseChars(s, next, acc + [c]))
    else
      match Unescape(s[i + 1])
      case None => Fail(UnsupportedEscape, i + 2)
      case Some(c) => ParseChars(s, i + 2, acc + [c])
  }

  function ParseString(s: Text, i: nat): (r: Outcome<Text>)
    requires i <= |s|
    ensures r.Ok? ==> i < r.next <= |s|
  {
    if Peek(s, i, QUOTE) then ParseChars(s, i + 1, []) else Fail(Expected(QUOTE), i)
  }

  /** `LinkedHashMap.put`: a known key keeps its place and takes the new value. */
  function Put(entries: seq<Entry>, key: Text, v: Json): seq<Entry> {
    if entries == [] then [Entry(key, v)]
    else if entries[0].key == key then [Entry(key, v)] + entries[1..]
    else [entries[0]] + Put(entries[1..], key, v)
  }

  function ParseValue(s: Text, i: nat): (r: Outcome<Json>)
    requires i <= |s|
    ensures r.Ok? ==> i < r.next <= |s|
    decreases |s| - i, 2
  {
    var k := SkipWhitespace(s, i);
    if k == |s| then Fail(UnexpectedEnd, k)
    else if s[k] == LBRACE then ParseObjectValue(s, k)
    else if s[k] == LBRACKET then ParseArray(s, k)
    else if s[k] == QUOTE then
      (match ParseString(s, k)
       case Fail(kind, at) => Fail(kind, at)
       case Ok(t, next) => Ok(Str(t), next))
    else if s[k] == LOWER_T then ParseLiteral(s, k, TRUE_TEXT, Bool(true))
    else if s[k] == LOWER_F then ParseLiteral(s, k, FALSE_TEXT, Bool(false))
    else if s[k] == LOWER_N then ParseLiteral(s, k, NULL_TEXT, Null)
    else ParseNumber(s, k)
  }

  function ParseObjectValue(s: Text, i: nat): (r: Outcome<Json>)
    requires i < |s| && s[i] == LBRACE
    ensures r.Ok? ==> i < r.next <= |s|
    decreases |s| - i, 1
  {
    var k := SkipWhitespace(s, i + 1);
    if Peek(s, k, RBRACE) then Ok(Object([]), k + 1) else ParseEntries(s, k, [])
  }

  /** One `key : value` pair. */
  function ParseEntry(s: Text, i: nat): (r: Outcome<Entry>)
    requires i <= |s|
    ensures r.Ok? ==> i < r.next <= |s|
    decreases |s| - i, 3
  {
    var k := SkipWhitespace(s, i);
    if !Peek(s, k, QUOTE) then Fail(KeyNotString, k)
    else
      match ParseString(s, k)
      case Fail(kind, at) => Fail(kind, at)
      case Ok(key, afterKey) =>
        var c := SkipWhitespace(s, afterKey);
        if !Peek(s, c, COLON) then Fail(Expected(COLON), c)
        else
          match ParseValue(s, c + 1)
          case Fail(kind, at) => Fail(kind, at)
          case Ok(v, next) => Ok(Entry(key, v), next)
  }

  /** The rest of an object whose entries so far are `acc`. */
  function ParseEntries(s: Text, i: nat, acc: seq<Entry>): (r: Outcome<Json>)
    requires i <= |s|
    ensures r.Ok? ==> i < r.next <= |s|
    decreases |s| - i, 4
  {
    match ParseEntry(s, i)
    case Fail(kind, at) => Fail(kind, at)
    case Ok(entry, afterEntry) =>
      var entries := Put(acc, entry.key, entry.value);
      var e := SkipWhitespace(s, afterEntry);
      if Peek(s, e, RBRACE) then Ok(Object(entries), e + 1)
      else if !Peek(s, e, COMMA) then Fail(Expected(COMMA), e)
      else ParseEntries(s, e + 1, entries)
  }

  function ParseArray(s: Text, i: nat): (r: Outcome<Json>)
    requires i < |s| && s[i] == LBRACKET
    ensures r.Ok? ==> i < r.next <= |s|
    decreases |s| - i, 1
  {
    var k := SkipWhitespace(s, i + 1);
    if Peek(s, k, RBRACKET) then Ok(List([]), k + 1) else ParseItems(s, k, [])
  }

  /** The rest of an array whose items so far are `acc`. */
  function ParseItems(s: Text, i: nat, acc: seq<Json>): (r: Outcome<Json>)
    requires i <= |s|
    ensures r.Ok? ==> i < r.next <= |s|
    decreases |s| - i, 3
  {
    match ParseValue(s, i)
    case Fail(kind, at) => Fail(kind, at)
    case Ok(v, afterValue) =>
      var items := acc + [v];
      var e := SkipWhitespace(s, afterValue);
      if Peek(s, e, RBRACKET) then Ok(List(items), e + 1)
      else if !Peek(s, e, COMMA) then Fail(Expected(COMMA), e)
      else ParseItems(s, e + 1, items)
  }

  /** A whole document. */
  function Parse(s: Text): (r: Outcome<Json>)
    ensures r.Ok? ==> r.next == |s|
  {
    match ParseValue(s, SkipWhitespace(s, 0))
    case Fail(kind, at) => Fail(kind, at)
    case Ok(v, next) =>
      var end := SkipWhitespace(s, next);
      if end == |s| then Ok(v, end) else Fail(TrailingContent, end)
  }

  /** A whole document that must be an object. */
  function ParseObject(s: Text): (r: Outcome<Json>)
    ensures r.Ok? ==> r.value.Object?
  {
    match Parse(s)
    case Fail(kind, at) => Fail(kind, at)
    case Ok(v, next) => if v.Object? then Ok(v, next) else Fail(NotAnObject, next)
  }
}
