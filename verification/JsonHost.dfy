/** The codec as the host runs it: a printer that appends to one shared buffer and a parser
    that moves one index. Each method is proved to compute the function of the same name in
    `JsonCodec`. */
module JsonHost {
  import opened Units
  import opened JsonCodec

  // --------------------------------------------------------------- printing

  class StringBuilder {
    var chars: Text

    constructor ()
      ensures chars == []
    {
      chars := [];
    }

    method Append(text: Text)
      modifies this
      ensures chars == old(chars) + text
    {
      chars := chars + text;
    }
  }

  method Stringify(v: Json) returns (text: Text)
    ensures text == Print(v)
  {
    var output := new StringBuilder();
    Write(v, output);
    text := output.chars;
  }

  method Write(v: Json, output: StringBuilder)
    modifies output
    ensures output.chars == old(output.chars) + Print(v)
    decreases v
  {
    hide PrintItems, PrintEntries, PrintInteger, PrintDecimal, PrintString;
    match v
    case Null => output.Append(NULL_TEXT);
    case Bool(b) => output.Append(if b then TRUE_TEXT else FALSE_TEXT);
    case Integer(n) => output.Append(PrintInteger(n));
    case Decimal(unscaled, scale) => output.Append(PrintDecimal(unscaled, scale));
    case Str(t) => WriteString(t, output);
    case List(items) =>
      output.Append([LBRACKET]);
      WriteItems(items, output);
      output.Append([RBRACKET]);
    case Object(entries) =>
      output.Append([LBRACE]);
      WriteEntries(entries, output);
      output.Append([RBRACE]);
  }

  method WriteItems(items: seq<Json>, output: StringBuilder)
    modifies output
    ensures output.chars == old(output.chars) + PrintItems(items)
    decreases items
  {
    hide Print, PrintItems;
    for i := 0 to |items|
      invariant output.chars == old(output.chars) + ItemsUpTo(items, i)
    {
      if i > 0 {
        output.Append([COMMA]);
      }
      Write(items[i], output);
      assert output.chars == old(output.chars) + (ItemsUpTo(items, i) + Separator(i) + Print(items[i]));
    }
    AllItems(items);
  }

  method WriteEntries(entries: seq<Entry>, output: StringBuilder)
    modifies output
    ensures output.chars == old(output.chars) + PrintEntries(entries)
    decreases entries
  {
    hide Print, PrintString, PrintEntries;
    for i := 0 to |entries|
      invariant output.chars == old(output.chars) + EntriesUpTo(entries, i)
    {
      if i > 0 {
        output.Append([COMMA]);
      }
      WriteString(entries[i].key, output);
      output.Append([COLON]);
      Write(entries[i].value, output);
      assert output.chars == old(output.chars) + (EntriesUpTo(entries, i) + Separator(i) + PrintEntry(entries[i]));
    }
    AllEntries(entries);
  }

  ghost function Separator(i: nat): Text { if i > 0 then [COMMA] else [] }

  /** What has been written before item `i`. */
  ghost function ItemsUpTo(items: seq<Json>, i: nat): Text
    requires i <= |items|
  {
    if i == 0 then [] else ItemsUpTo(items, i - 1) + Separator(i - 1) + Print(items[i - 1])
  }

  lemma {:induction false} ItemsUpToEnd(items: seq<Json>, i: nat)
    requires i <= |items|
    ensures PrintItems(items)
            == ItemsUpTo(items, i) + (if i < |items| then Separator(i) else []) + PrintItems(items[i..])
  {
    hide Print;
    if i == 0 {
      assert items[0..] == items;
    } else {
      ItemsUpToEnd(items, i - 1);
      assert items[i - 1..][1..] == items[i..];
    }
  }

  lemma AllItems(items: seq<Json>)
    ensures ItemsUpTo(items, |items|) == PrintItems(items)
  {
    ItemsUpToEnd(items, |items|);
    assert items[|items|..] == [];
  }

  /** What has been written before entry `i`. */
  ghost function EntriesUpTo(entries: seq<Entry>, i: nat): Text
    requires i <= |entries|
  {
    if i == 0 then [] else EntriesUpTo(entries, i - 1) + Separator(i - 1) + PrintEntry(entries[i - 1])
  }

  lemma {:induction false} EntriesUpToEnd(entries: seq<Entry>, i: nat)
    requires i <= |entries|
    ensures PrintEntries(entries)
            == EntriesUpTo(entries, i) + (if i < |entries| then Separator(i) else []) + PrintEntries(entries[i..])
  {
    hide PrintEntry;
    if i == 0 {
      assert entries[0..] == entries;
    } else {
      EntriesUpToEnd(entries, i - 1);
      assert entries[i - 1..][1..] == entries[i..];
    }
  }

  lemma AllEntries(entries: seq<Entry>)
    ensures EntriesUpTo(entries, |entries|) == PrintEntries(entries)
  {
    EntriesUpToEnd(entries, |entries|);
    assert entries[|entries|..] == [];
  }

  method WriteString(t: Text, output: StringBuilder)
    modifies output
    ensures output.chars == old(output.chars) + PrintString(t)
  {
    hide PrintChar;
    output.Append([QUOTE]);
    ghost var start := output.chars;
    assert t[0..] == t;
    for i := 0 to |t|
      invariant output.chars + PrintChars(t[i..]) == start + PrintChars(t)
    {
      assert t[i..][1..] == t[i + 1..];
      output.Append(PrintChar(t[i]));
    }
    assert output.chars == start + PrintChars(t);
    output.Append([QUOTE]);
  }

  // ---------------------------------------------------------------- parsing

  /** What a parsing method does: return a value, or throw. */
  datatype Result<+T> = Returned(value: T) | Thrown(kind: ErrorKind, at: nat)

  /** The result and the index left behind are those of the specification. */
  ghost predicate Agrees<T>(r: Result<T>, index: nat, spec: Outcome<T>) {
    match spec
    case Ok(v, next) => r == Returned(v) && index == next
    case Fail(kind, at) => r == Thrown(kind, at)
  }

  class Parser {
    const input: Text
    var index: nat

    constructor (input: Text)
      ensures this.input == input && index == 0
    {
      this.input := input;
      index := 0;
    }

    ghost predicate InBounds()
      reads this
    {
      index <= |input|
    }

    method SkipBlanks()
      requires InBounds()
      modifies this
      ensures InBounds() && index == SkipWhitespace(input, old(index))
    {
      while index < |input| && IsWhitespace(input[index])
        invariant InBounds()
        invariant SkipWhitespace(input, index) == SkipWhitespace(input, old(index))
      {
        index := index + 1;
      }
    }

    method SkipNumberDigits()
      requires InBounds()
      modifies this
      ensures InBounds() && index == SkipDigits(input, old(index))
    {
      while index < |input| && IsDigit(input[index])
        invariant InBounds()
        invariant SkipDigits(input, index) == SkipDigits(input, old(index))
      {
        index := index + 1;
      }
    }

    method Document() returns (r: Result<Json>)
      requires InBounds() && index == 0
      modifies this
      ensures Agrees(r, index, Parse(input))
    {
      SkipBlanks();
      r := Value();
      if r.Thrown? {
        return;
      }
      SkipBlanks();
      if index != |input| {
        r := Thrown(TrailingContent, index);
      }
    }

    method Value() returns (r: Result<Json>)
      requires InBounds()
      modifies this
      ensures InBounds() && Agrees(r, index, ParseValue(input, old(index)))
      decreases |input| - index, 2
    {
      hide DecimalDigit;
      SkipBlanks();
      if index >= |input| {
        return Thrown(UnexpectedEnd, index);
      }
      var c := input[index];
      if c == LBRACE {
        r := ObjectValue();
      } else if c == LBRACKET {
        r := Array();
      } else if c == QUOTE {
        var t := String();
        r := if t.Returned? then Returned(Str(t.value)) else Thrown(t.kind, t.at);
      } else if c == LOWER_T {
        r := Literal(TRUE_TEXT, Bool(true));
      } else if c == LOWER_F {
        r := Literal(FALSE_TEXT, Bool(false));
      } else if c == LOWER_N {
        r := Literal(NULL_TEXT, Null);
      } else {
        r := Number();
      }
    }

    method ObjectValue() returns (r: Result<Json>)
      requires index < |input| && input[index] == LBRACE
      modifies this
      ensures InBounds() && Agrees(r, index, ParseObjectValue(input, old(index)))
      decreases |input| - index, 1
    {
      hide DecimalDigit, ParseEntry;
      ghost var result := ParseObjectValue(input, index);
      index := index + 1;
      var entries: seq<Entry> := [];
      SkipBlanks();
      if Peek(input, index, RBRACE) {
        index := index + 1;
        return Returned(Object(entries));
      }
      while true
        invariant old(index) < index <= |input|
        invariant ParseEntries(input, index, entries) == result
        decreases |input| - index
      {
        var e := KeyAndValue();
        if e.Thrown? {
          return Thrown(e.kind, e.at);
        }
        entries := Put(entries, e.value.key, e.value.value);
        SkipBlanks();
        if Peek(input, index, RBRACE) {
          index := index + 1;
          return Returned(Object(entries));
        }
        if !Peek(input, index, COMMA) {
          return Thrown(Expected(COMMA), index);
        }
        index := index + 1;
      }
    }

    method KeyAndValue() returns (r: Result<Entry>)
      requires InBounds()
      modifies this
      ensures InBounds() && Agrees(r, index, ParseEntry(input, old(index)))
      decreases |input| - index, 3
    {
      hide DecimalDigit, ParseValue;
      SkipBlanks();
      if !Peek(input, index, QUOTE) {
        return Thrown(KeyNotString, index);
      }
      var key := String();
      if key.Thrown? {
        return Thrown(key.kind, key.at);
      }
      SkipBlanks();
      if !Peek(input, index, COLON) {
        return Thrown(Expected(COLON), index);
      }
      index := index + 1;
      var v := Value();
      r := if v.Returned? then Returned(Entry(key.value, v.value)) else Thrown(v.kind, v.at);
    }

    method Array() returns (r: Result<Json>)
      requires index < |input| && input[index] == LBRACKET
      modifies this
      ensures InBounds() && Agrees(r, index, ParseArray(input, old(index)))
      decreases |input| - index, 1
    {
      hide DecimalDigit, ParseValue;
      ghost var result := ParseArray(input, index);
      index := index + 1;
      var items: seq<Json> := [];
      SkipBlanks();
      if Peek(input, index, RBRACKET) {
        index := index + 1;
        return Returned(List(items));
      }
      while true
        invariant old(index) < index <= |input|
        invariant ParseItems(input, index, items) == result
        decreases |input| - index
      {
        var v := Value();
        if v.Thrown? {
          return v;
        }
        items := items + [v.value];
        SkipBlanks();
        if Peek(input, index, RBRACKET) {
          index := index + 1;
          return Returned(List(items));
        }
        if !Peek(input, index, COMMA) {
          return Thrown(Expected(COMMA), index);
        }
        index := index + 1;
      }
    }

    method String() returns (r: Result<Text>)
      requires InBounds()
      modifies this
      ensures InBounds() && Agrees(r, index, ParseString(input, old(index)))
    {
      hide DecimalDigit;
      if !Peek(input, index, QUOTE) {
        return Thrown(Expected(QUOTE), index);
      }
      ghost var result := ParseString(input, index);
      index := index + 1;
      var chars: Text := [];
      while index < |input|
        invariant InBounds() && ParseChars(input, index, chars) == result
      {
        var c := input[index];
        index := index + 1;
        if c == QUOTE {
          return Returned(chars);
        }
        if c != BACKSLASH {
          chars := chars + [c];
          continue;
        }
        if index >= |input| {
          return Thrown(UnterminatedEscape, index);
        }
        var escaped := input[index];
        index := index + 1;
        if escaped == LOWER_U {
          var u := Unicode();
          if u.Thrown? {
            return Thrown(u.kind, u.at);
          }
          chars := chars + [u.value];
        } else {
          match Unescape(escaped)
          case None => return Thrown(UnsupportedEscape, index);
          case Some(plain) => chars := chars + [plain];
        }
      }
      r := Thrown(UnterminatedString, index);
    }

    method Unicode() returns (r: Result<Unit>)
      requires InBounds()
      modifies this
      ensures InBounds() && index >= old(index)
      ensures Agrees(r, index, ParseUnicode(input, old(index)))
    {
      if index + 4 > |input| {
        return Thrown(IncompleteUnicode, index);
      }
      var hex := input[index..index + 4];
      index := index + 4;
      match HexValue(hex)
      case None => r := Thrown(InvalidUnicode, index);
      case Some(c) => r := Returned(c);
    }

    method Literal(literal: Text, v: Json) returns (r: Result<Json>)
      requires InBounds() && |literal| > 0
      modifies this
      ensures InBounds() && Agrees(r, index, ParseLiteral(input, old(index), literal, v))
    {
      if !(literal <= input[index..]) {
        return Thrown(InvalidLiteral, index);
      }
      index := index + |literal|;
      r := Returned(v);
    }

    method Number() returns (r: Result<Json>)
      requires InBounds()
      modifies this
      ensures InBounds() && Agrees(r, index, ParseNumber(input, old(index)))
    {
      hide ParseLong, ParseDecimal, IsDecimal, NumberEnd;
      var start := index;
      SkipNumber();
      var lexeme := input[start..index];
      if IsDecimal(lexeme) {
        var decimal := ParseDecimal(lexeme);
        r := if decimal.Some? then Returned(decimal.value) else Thrown(InvalidNumber, index);
      } else {
        var long := ParseLong(lexeme);
        r := if long.Some? then Returned(Integer(long.value)) else Thrown(InvalidNumber, index);
      }
    }

    method SkipNumber()
      requires InBounds()
      modifies this
      ensures InBounds() && index == NumberEnd(input, old(index))
    {
      hide IsDigit, SkipDigits;
      if Peek(input, index, MINUS) {
        index := index + 1;
      }
      SkipNumberDigits();
      if Peek(input, index, POINT) {
        index := index + 1;
        SkipNumberDigits();
      }
      if Peek(input, index, LOWER_E) || Peek(input, index, UPPER_E) {
        index := index + 1;
        if Peek(input, index, PLUS) || Peek(input, index, MINUS) {
          index := index + 1;
        }
        SkipNumberDigits();
      }
    }
  }
}
