/** What the parser makes of a printed value, whatever text follows it: the value itself,
    with decimals of scale zero read as longs, unless a number in it is out of reach. */
module JsonRoundTrip {
  import opened Options
  import opened Units
  import opened JsonCodec
  import opened JsonNumbers

  // ----------------------------------------------------------- reading again

  /** Every number in the value, at any depth, is in the reach of the parser. */
  ghost predicate CanRead(v: Json) {
    match v
    case Decimal(unscaled, scale) => Readable(unscaled, scale)
    case List(items) => forall k :: 0 <= k < |items| ==> CanRead(items[k])
    case Object(entries) => forall k :: 0 <= k < |entries| ==> CanRead(entries[k].value)
    case _ => true
  }

  /** No decimal in the value, at any depth, has scale zero. */
  ghost predicate HasScales(v: Json) {
    match v
    case Decimal(_, scale) => scale != 0
    case List(items) => forall k :: 0 <= k < |items| ==> HasScales(items[k])
    case Object(entries) => forall k :: 0 <= k < |entries| ==> HasScales(entries[k].value)
    case _ => true
  }

  /** The value with its decimals of scale zero as integers. */
  ghost function Reread(v: Json): Json {
    match v
    case Decimal(unscaled, scale) => if scale == 0 then Integer(unscaled) else v
    case List(items) => List(seq(|items|, k requires 0 <= k < |items| => Reread(items[k])))
    case Object(entries) =>
      Object(seq(|entries|, k requires 0 <= k < |entries| => Entry(entries[k].key, Reread(entries[k].value))))
    case _ => v
  }

  lemma {:induction false} RereadSameIff(v: Json)
    ensures Reread(v) == v <==> HasScales(v)
  {
    match v
    case List(items) =>
      forall k | 0 <= k < |items| ensures Reread(items[k]) == items[k] <==> HasScales(items[k]) {
        RereadSameIff(items[k]);
      }
      assert Reread(v) == v <==> forall k :: 0 <= k < |items| ==> Reread(v).items[k] == items[k];
    case Object(entries) =>
      forall k | 0 <= k < |entries|
        ensures Reread(entries[k].value) == entries[k].value <==> HasScales(entries[k].value)
      {
        RereadSameIff(entries[k].value);
      }
      assert Reread(v) == v <==> forall k :: 0 <= k < |entries| ==> Reread(v).entries[k] == entries[k];
    case _ =>
  }

  /** Both are printed alike. */
  lemma {:induction false} PrintReread(v: Json)
    ensures Print(Reread(v)) == Print(v)
    decreases v
  {
    match v
    case List(items) =>
      forall k | 0 <= k < |items| ensures Print(Reread(v).items[k]) == Print(items[k]) {
        PrintReread(items[k]);
      }
      SameItems(Reread(v).items, items);
    case Object(entries) =>
      forall k | 0 <= k < |entries| ensures PrintEntry(Reread(v).entries[k]) == PrintEntry(entries[k]) {
        PrintReread(entries[k].value);
      }
      SameEntries(Reread(v).entries, entries);
    case _ =>
  }

  lemma {:induction false} SameItems(a: seq<Json>, b: seq<Json>)
    requires |a| == |b| && forall k :: 0 <= k < |a| ==> Print(a[k]) == Print(b[k])
    ensures PrintItems(a) == PrintItems(b)
  {
    hide Print;
    if |a| > 1 {
      SameItems(a[1..], b[1..]);
    }
  }

  lemma {:induction false} SameEntries(a: seq<Entry>, b: seq<Entry>)
    requires |a| == |b| && forall k :: 0 <= k < |a| ==> PrintEntry(a[k]) == PrintEntry(b[k])
    ensures PrintEntries(a) == PrintEntries(b)
  {
    hide PrintEntry;
    if |a| > 1 {
      SameEntries(a[1..], b[1..]);
    }
  }

  // ---------------------------------------------------------------- strings

  lemma PrintedCharParses(c: Unit, s: Text, i: nat, acc: Text)
    requires At(s, i, PrintChar(c))
    ensures i + |PrintChar(c)| <= |s|
    ensures ParseChars(s, i, acc) == ParseChars(s, i + |PrintChar(c)|, acc + [c])
  {
    var p := PrintChar(c);
    AtFirst(s, i, p);
    if |p| == 2 {
      AtSplit(s, i, p[..1], p[1..]);
      AtFirst(s, i + 1, p[1..]);
    } else if |p| == 6 {
      AtSplit(s, i, p[..1], p[1..]);
      AtFirst(s, i + 1, p[1..]);
      assert s[i + 2..i + 6] == p[2..];
      assert HexValue(p[2..]) == Some(c);
    }
  }

  lemma {:induction false} PrintedCharsParse(t: Text, s: Text, i: nat, acc: Text)
    requires At(s, i, PrintChars(t) + [QUOTE])
    ensures ParseChars(s, i, acc) == Ok(acc + t, i + |PrintChars(t)| + 1)
    decreases |t|
  {
    hide ParseChars, PrintChars, PrintChar, At;
    if t == [] {
      NoCharsParse(s, i, acc);
      assert acc + t == acc;
    } else {
      FirstCharStands(t, s, i);
      PrintedCharParses(t[0], s, i, acc);
      PrintedCharsParse(t[1..], s, i + |PrintChar(t[0])|, acc + [t[0]]);
      assert acc + [t[0]] + t[1..] == acc + t;
    }
  }

  lemma NoCharsParse(s: Text, i: nat, acc: Text)
    requires At(s, i, PrintChars([]) + [QUOTE])
    ensures ParseChars(s, i, acc) == Ok(acc, i + |PrintChars([])| + 1)
  {
    AtFirst(s, i, [QUOTE]);
  }

  lemma FirstCharStands(t: Text, s: Text, i: nat)
    requires t != [] && At(s, i, PrintChars(t) + [QUOTE])
    ensures At(s, i, PrintChar(t[0])) && At(s, i + |PrintChar(t[0])|, PrintChars(t[1..]) + [QUOTE])
    ensures |PrintChars(t)| == |PrintChar(t[0])| + |PrintChars(t[1..])|
  {
    hide PrintChar, At;
    assert PrintChars(t) + [QUOTE] == PrintChar(t[0]) + (PrintChars(t[1..]) + [QUOTE]);
    AtSplit(s, i, PrintChar(t[0]), PrintChars(t[1..]) + [QUOTE]);
  }

  lemma PrintedStringParses(t: Text, s: Text, i: nat)
    requires At(s, i, PrintString(t))
    ensures i < |s| && s[i] == QUOTE
    ensures ParseString(s, i) == Ok(t, i + |PrintString(t)|)
  {
    AtFirst(s, i, PrintString(t));
    assert PrintString(t) == [QUOTE] + (PrintChars(t) + [QUOTE]);
    AtSplit(s, i, [QUOTE], PrintChars(t) + [QUOTE]);
    PrintedCharsParse(t, s, i + 1, []);
    assert [] + t == t;
  }

  // ------------------------------------------------------------- structures

  lemma LiteralParses(s: Text, i: nat, literal: Text, v: Json)
    requires At(s, i, literal) && |literal| > 0
    ensures ParseLiteral(s, i, literal, v) == Ok(v, i + |literal|)
  {
    assert s[i..i + |literal|] == s[i..][..|literal|];
  }

  lemma {:induction false} PutFresh(entries: seq<Entry>, key: Text, v: Json)
    requires forall k :: 0 <= k < |entries| ==> entries[k].key != key
    ensures Put(entries, key, v) == entries + [Entry(key, v)]
  {
    if entries != [] {
      PutFresh(entries[1..], key, v);
      assert entries == [entries[0]] + entries[1..];
    }
  }

  /** The reading in its general form: a printed value standing anywhere in a text is read
      again, and the parser stops exactly behind it, unless a number is out of its reach. */
  lemma {:induction false} PrintedValueParses(v: Json, s: Text, i: nat)
    requires Valid(v) && At(s, i, Print(v))
    requires v.Integer? || v.Decimal? ==> EndsNumber(s, i + |Print(v)|)
    ensures i < |s| && !IsWhitespace(s[i])
    ensures if CanRead(v) then ParseValue(s, i) == Ok(Reread(v), i + |Print(v)|) else ParseValue(s, i).Fail?
    decreases v
  {
    hide DecimalDigit, ParseNumber, ParseString, ParseArray, ParseObjectValue, ParseItems, ParseEntries,
      PrintDecimal, PrintInteger;
    PrintStartsVisibly(v);
    AtFirst(s, i, Print(v));
    match v
    case Null => LiteralParses(s, i, NULL_TEXT, Null);
    case Bool(b) => LiteralParses(s, i, if b then TRUE_TEXT else FALSE_TEXT, v);
    case Integer(n) => PrintedIntegerParses(n, s, i);
    case Decimal(unscaled, scale) => PrintedNumberReads(unscaled, scale, s, i);
    case Str(t) => PrintedStringParses(t, s, i);
    case List(items) => PrintedListParses(v, s, i);
    case Object(entries) => PrintedObjectParses(v, s, i);
  }

  lemma PrintedNumberReads(unscaled: int, scale: int, s: Text, i: nat)
    requires MIN_INT <= scale <= MAX_INT
    requires At(s, i, PrintDecimal(unscaled, scale)) && EndsNumber(s, i + |PrintDecimal(unscaled, scale)|)
    ensures i < |s| && (48 <= s[i] <= 57 || s[i] == MINUS)
    ensures if Readable(unscaled, scale)
            then ParseNumber(s, i) == Ok(Reread(Decimal(unscaled, scale)), i + |PrintDecimal(unscaled, scale)|)
            else ParseNumber(s, i).Fail?
  {
    hide ParseNumber, AdjustedExponent;
    if scale == 0 {
      PrintedIntegerParses(unscaled, s, i);
    } else {
      PrintedDecimalParses(unscaled, scale, s, i);
    }
  }

  lemma {:induction false} PrintedListParses(v: Json, s: Text, i: nat)
    requires v.List? && Valid(v) && At(s, i, Print(v))
    ensures i < |s| && s[i] == LBRACKET
    ensures if CanRead(v) then ParseArray(s, i) == Ok(Reread(v), i + |Print(v)|) else ParseArray(s, i).Fail?
    decreases v, |v.items| + 1
  {
    hide DecimalDigit, ParseValue, ParseString;
    var items := v.items;
    AtFirst(s, i, Print(v));
    assert Print(v) == [LBRACKET] + (PrintItems(items) + [RBRACKET]);
    AtSplit(s, i, [LBRACKET], PrintItems(items) + [RBRACKET]);
    if items == [] {
      AtFirst(s, i + 1, [RBRACKET]);
      DelimiterEndsNumber(s, i + 1);
    } else {
      FirstItemVisible(items, s, i + 1);
      assert items[0..] == items;
      PrintedItemsParse(v, 0, s, i + 1);
      assert Reread(v).items[..0] == [];
    }
  }

  lemma FirstItemVisible(items: seq<Json>, s: Text, i: nat)
    requires items != [] && At(s, i, PrintItems(items) + [RBRACKET])
    ensures i < |s| && !IsWhitespace(s[i]) && s[i] != RBRACKET
  {
    PrintStartsVisibly(items[0]);
    AtFirst(s, i, PrintItems(items) + [RBRACKET]);
  }

  lemma PrintStartsVisibly(v: Json)
    ensures |Print(v)| > 0 && !IsWhitespace(Print(v)[0])
    ensures Print(v)[0] != RBRACKET && Print(v)[0] != RBRACE
  {
    hide PrintDecimal, PrintInteger, PrintItems, PrintEntries, PrintString;
    if v.Integer? {
      IntegerStarts(v.n);
    } else if v.Decimal? {
      DecimalStarts(v.unscaled, v.scale);
    }
    assert v.Str? ==> Print(v)[0] == QUOTE by { StringStarts(v); }
  }

  lemma StringStarts(v: Json)
    ensures v.Str? ==> |Print(v)| > 0 && Print(v)[0] == QUOTE
  {
  }

  lemma ItemsText(rest: seq<Json>)
    ensures |rest| == 1 ==> PrintItems(rest) + [RBRACKET] == Print(rest[0]) + [RBRACKET]
    ensures |rest| > 1 ==>
              PrintItems(rest) + [RBRACKET] == Print(rest[0]) + ([COMMA] + (PrintItems(rest[1..]) + [RBRACKET]))
    ensures |rest| == 1 ==> |PrintItems(rest)| == |Print(rest[0])|
    ensures |rest| > 1 ==> |PrintItems(rest)| == |Print(rest[0])| + 1 + |PrintItems(rest[1..])|
  {
    hide Print;
  }

  /** The items from `n` on, those before it having been read. */
  lemma {:induction false} PrintedItemsParse(v: Json, n: nat, s: Text, i: nat)
    requires v.List? && Valid(v) && n < |v.items|
    requires At(s, i, PrintItems(v.items[n..]) + [RBRACKET])
    ensures var r := ParseItems(s, i, Reread(v).items[..n]);
            if forall k :: n <= k < |v.items| ==> CanRead(v.items[k])
            then r == Ok(Reread(v), i + |PrintItems(v.items[n..])| + 1)
            else r.Fail?
    decreases v, |v.items| - n
  {
    hide DecimalDigit, ParseValue, ParseItems, Print, PrintItems, EndsNumber, SkipWhitespace, At, CanRead, IsWhitespace;
    var rest := v.items[n..];
    var p := Print(v.items[n]);
    var acc, w := Reread(v).items[..n], Reread(v.items[n]);
    assert w == Reread(v).items[n] && acc + [w] == Reread(v).items[..n + 1];
    ItemsText(rest);
    if |rest| == 1 {
      AtSplit(s, i, p, [RBRACKET]);
      AtFirst(s, i + |p|, [RBRACKET]);
      DelimiterEndsNumber(s, i + |p|);
      PrintedValueParses(v.items[n], s, i);
      ItemStep(s, i, acc, w, i + |p|);
      assert Reread(v).items[..n + 1] == Reread(v).items;
    } else {
      var tail := PrintItems(v.items[n + 1..]) + [RBRACKET];
      assert rest[1..] == v.items[n + 1..];
      AtSplit(s, i, p, [COMMA] + tail);
      AtFirst(s, i + |p|, [COMMA] + tail);
      DelimiterEndsNumber(s, i + |p|);
      PrintedValueParses(v.items[n], s, i);
      AtSplit(s, i + |p|, [COMMA], tail);
      ItemStep(s, i, acc, w, i + |p|);
      PrintedItemsParse(v, n + 1, s, i + |p| + 1);
    }
  }

  lemma ItemStep(s: Text, i: nat, acc: seq<Json>, v: Json, j: nat)
    requires i <= |s| && (ParseValue(s, i) == Ok(v, j) || ParseValue(s, i).Fail?)
    requires Peek(s, j, RBRACKET) || Peek(s, j, COMMA)
    ensures ParseValue(s, i).Fail? ==> ParseItems(s, i, acc).Fail?
    ensures ParseValue(s, i).Ok? ==>
              ParseItems(s, i, acc)
              == if s[j] == RBRACKET then Ok(List(acc + [v]), j + 1) else ParseItems(s, j + 1, acc + [v])
  {
    hide ParseValue;
    DelimiterEndsNumber(s, j);
  }

  lemma {:induction false} PrintedObjectParses(v: Json, s: Text, i: nat)
    requires v.Object? && Valid(v) && At(s, i, Print(v))
    ensures i < |s| && s[i] == LBRACE
    ensures if CanRead(v) then ParseObjectValue(s, i) == Ok(Reread(v), i + |Print(v)|)
            else ParseObjectValue(s, i).Fail?
    decreases v, |v.entries| + 1
  {
    hide DecimalDigit, ParseValue, ParseString, ParseEntry, ParseEntries, Put;
    var entries := v.entries;
    AtFirst(s, i, Print(v));
    assert Print(v) == [LBRACE] + (PrintEntries(entries) + [RBRACE]);
    AtSplit(s, i, [LBRACE], PrintEntries(entries) + [RBRACE]);
    if entries == [] {
      AtFirst(s, i + 1, [RBRACE]);
      DelimiterEndsNumber(s, i + 1);
    } else {
      AtFirst(s, i + 1, PrintEntries(entries) + [RBRACE]);
      assert entries[0..] == entries;
      PrintedEntriesParse(v, 0, s, i + 1);
      assert Reread(v).entries[..0] == [];
    }
  }

  lemma EntriesText(rest: seq<Entry>)
    ensures |rest| == 1 ==> PrintEntries(rest) + [RBRACE] == PrintEntry(rest[0]) + [RBRACE]
    ensures |rest| > 1 ==>
              PrintEntries(rest) + [RBRACE]
              == PrintEntry(rest[0]) + ([COMMA] + (PrintEntries(rest[1..]) + [RBRACE]))
    ensures |rest| == 1 ==> |PrintEntries(rest)| == |PrintEntry(rest[0])|
    ensures |rest| > 1 ==> |PrintEntries(rest)| == |PrintEntry(rest[0])| + 1 + |PrintEntries(rest[1..])|
  {
    hide PrintEntry;
  }

  /** The entries from `n` on, those before it having been read. */
  lemma {:induction false} PrintedEntriesParse(v: Json, n: nat, s: Text, i: nat)
    requires v.Object? && Valid(v) && n < |v.entries|
    requires At(s, i, PrintEntries(v.entries[n..]) + [RBRACE])
    ensures var r := ParseEntries(s, i, Reread(v).entries[..n]);
            if forall k :: n <= k < |v.entries| ==> CanRead(v.entries[k].value)
            then r == Ok(Reread(v), i + |PrintEntries(v.entries[n..])| + 1)
            else r.Fail?
    decreases v, |v.entries| - n
  {
    hide DecimalDigit, ParseEntry, ParseEntries, PrintEntry, PrintEntries, EndsNumber, SkipWhitespace, At, CanRead,
      IsWhitespace;
    var rest := v.entries[n..];
    var p := PrintEntry(v.entries[n]);
    var acc, w := Reread(v).entries[..n], Reread(v).entries[n];
    assert acc + [w] == Reread(v).entries[..n + 1];
    EntriesText(rest);
    if |rest| == 1 {
      AtSplit(s, i, p, [RBRACE]);
      AtFirst(s, i + |p|, [RBRACE]);
      DelimiterEndsNumber(s, i + |p|);
      PrintedEntryParses(v, n, s, i);
      EntryStep(s, i, acc, w, i + |p|);
      assert Reread(v).entries[..n + 1] == Reread(v).entries;
    } else {
      var tail := PrintEntries(v.entries[n + 1..]) + [RBRACE];
      assert rest[1..] == v.entries[n + 1..];
      AtSplit(s, i, p, [COMMA] + tail);
      AtFirst(s, i + |p|, [COMMA] + tail);
      DelimiterEndsNumber(s, i + |p|);
      PrintedEntryParses(v, n, s, i);
      AtSplit(s, i + |p|, [COMMA], tail);
      EntryStep(s, i, acc, w, i + |p|);
      PrintedEntriesParse(v, n + 1, s, i + |p| + 1);
    }
  }

  lemma EntryStep(s: Text, i: nat, acc: seq<Entry>, e: Entry, j: nat)
    requires i <= |s| && (ParseEntry(s, i) == Ok(e, j) || ParseEntry(s, i).Fail?)
    requires Peek(s, j, RBRACE) || Peek(s, j, COMMA)
    requires forall k :: 0 <= k < |acc| ==> acc[k].key != e.key
    ensures ParseEntry(s, i).Fail? ==> ParseEntries(s, i, acc).Fail?
    ensures ParseEntry(s, i).Ok? ==>
              ParseEntries(s, i, acc)
              == if s[j] == RBRACE then Ok(Object(acc + [e]), j + 1) else ParseEntries(s, j + 1, acc + [e])
  {
    hide ParseEntry;
    DelimiterEndsNumber(s, j);
    PutFresh(acc, e.key, e.value);
  }

  /** One printed `key:value` pair is read again, up to the comma or brace behind it. */
  lemma {:induction false} PrintedEntryParses(v: Json, n: nat, s: Text, i: nat)
    requires v.Object? && Valid(v) && n < |v.entries|
    requires At(s, i, PrintEntry(v.entries[n]))
    requires EndsNumber(s, i + |PrintEntry(v.entries[n])|)
    ensures if CanRead(v.entries[n].value)
            then ParseEntry(s, i) == Ok(Reread(v).entries[n], i + |PrintEntry(v.entries[n])|)
            else ParseEntry(s, i).Fail?
    decreases v, 0
  {
    hide DecimalDigit, ParseValue, ParseString, ParseEntry, Print, PrintString, EndsNumber, CanRead;
    var e := v.entries[n];
    var k, p := PrintString(e.key), Print(e.value);
    assert PrintEntry(e) == k + ([COLON] + p);
    AtSplit(s, i, k, [COLON] + p);
    AtFirst(s, i + |k|, [COLON] + p);
    AtSplit(s, i + |k|, [COLON], p);
    PrintedStringParses(e.key, s, i);
    PrintedValueParses(e.value, s, i + |k| + 1);
    PairStep(s, i, Reread(v).entries[n], i + |k|, i + |PrintEntry(e)|);
  }

  lemma PairStep(s: Text, i: nat, e: Entry, colon: nat, j: nat)
    requires i < colon && Peek(s, i, QUOTE) && ParseString(s, i) == Ok(e.key, colon) && Peek(s, colon, COLON)
    requires ParseValue(s, colon + 1) == Ok(e.value, j) || ParseValue(s, colon + 1).Fail?
    ensures if ParseValue(s, colon + 1).Ok? then ParseEntry(s, i) == Ok(e, j) else ParseEntry(s, i).Fail?
  {
    hide DecimalDigit, ParseValue, ParseString;
    assert SkipWhitespace(s, i) == i && SkipWhitespace(s, colon) == colon;
  }

  // ------------------------------------------------------------ the results

  /** What reading a printed document gives. */
  lemma PrintedIsRead(v: Json)
    requires Valid(v)
    ensures if CanRead(v) then Parse(Print(v)) == Ok(Reread(v), |Print(v)|) else Parse(Print(v)).Fail?
  {
    hide Print, CanRead;
    AtWhole(Print(v), []);
    assert Print(v) + [] == Print(v);
    PrintedValueParses(v, Print(v), 0);
  }

  /** Reading a printed document gives the document back iff no decimal in it has scale zero
      or an exponent that is too large. */
  lemma RoundTripIff(v: Json)
    requires Valid(v)
    ensures Parse(Print(v)) == Ok(v, |Print(v)|) <==> CanRead(v) && HasScales(v)
  {
    hide Parse, Print;
    PrintedIsRead(v);
    RereadSameIff(v);
  }

  /** Printing loses nothing but the difference between a long and a decimal of scale zero. */
  lemma PrintSameIff(v: Json, w: Json)
    requires Valid(v) && Valid(w) && CanRead(v)
    ensures Print(v) == Print(w) <==> Reread(v) == Reread(w)
  {
    PrintedIsRead(v);
    PrintedIsRead(w);
    PrintReread(v);
    PrintReread(w);
  }

  lemma {:induction false} PutKeepsKeysDistinct(entries: seq<Entry>, key: Text, v: Json)
    requires DistinctKeys(entries)
    ensures DistinctKeys(Put(entries, key, v))
    ensures forall e :: e in Put(entries, key, v) ==> e in entries || e == Entry(key, v)
  {
    if entries != [] && entries[0].key != key {
      var rest := Put(entries[1..], key, v);
      PutKeepsKeysDistinct(entries[1..], key, v);
      forall j | 0 <= j < |rest| ensures rest[j].key != entries[0].key {
        assert rest[j] in rest;
      }
    }
  }

  /** Whatever the parser accepts, from any text, is a value it can print and read back. */
  lemma {:induction false} ParsedValueIsValid(s: Text, i: nat)
    requires i <= |s|
    ensures ParseValue(s, i).Ok? ==> Valid(ParseValue(s, i).value)
    decreases |s| - i, 2
  {
    hide DecimalDigit, ParseString, ParseItems, ParseEntries;
    var k := SkipWhitespace(s, i);
    if k < |s| {
      if s[k] == LBRACE {
        var m := SkipWhitespace(s, k + 1);
        if !Peek(s, m, RBRACE) {
          ParsedEntriesAreValid(s, m, []);
        }
      } else if s[k] == LBRACKET {
        var m := SkipWhitespace(s, k + 1);
        if !Peek(s, m, RBRACKET) {
          ParsedItemsAreValid(s, m, []);
        }
      }
    }
  }

  lemma {:induction false} ParsedItemsAreValid(s: Text, i: nat, acc: seq<Json>)
    requires i <= |s| && Valid(List(acc))
    ensures ParseItems(s, i, acc).Ok? ==> Valid(ParseItems(s, i, acc).value)
    decreases |s| - i, 3
  {
    hide DecimalDigit, ParseValue, ParseString;
    var r := ParseValue(s, i);
    ParsedValueIsValid(s, i);
    if r.Ok? {
      var e := SkipWhitespace(s, r.next);
      assert Valid(List(acc + [r.value]));
      if !Peek(s, e, RBRACKET) && Peek(s, e, COMMA) {
        ParsedItemsAreValid(s, e + 1, acc + [r.value]);
      }
    }
  }

  lemma {:induction false} ParsedEntriesAreValid(s: Text, i: nat, acc: seq<Entry>)
    requires i <= |s| && Valid(Object(acc))
    ensures ParseEntries(s, i, acc).Ok? ==> Valid(ParseEntries(s, i, acc).value)
    decreases |s| - i, 4
  {
    hide DecimalDigit, ParseValue, ParseString;
    var r := ParseEntry(s, i);
    ParsedEntryIsValid(s, i);
    if r.Ok? {
      PutIsValid(acc, r.value.key, r.value.value);
      var e := SkipWhitespace(s, r.next);
      if !Peek(s, e, RBRACE) && Peek(s, e, COMMA) {
        ParsedEntriesAreValid(s, e + 1, Put(acc, r.value.key, r.value.value));
      }
    }
  }

  lemma {:induction false} ParsedEntryIsValid(s: Text, i: nat)
    requires i <= |s|
    ensures ParseEntry(s, i).Ok? ==> Valid(ParseEntry(s, i).value.value)
    decreases |s| - i, 3
  {
    hide DecimalDigit, ParseValue, ParseString;
    var k := SkipWhitespace(s, i);
    if Peek(s, k, QUOTE) {
      var key := ParseString(s, k);
      if key.Ok? {
        var c := SkipWhitespace(s, key.next);
        if Peek(s, c, COLON) {
          ParsedValueIsValid(s, c + 1);
        }
      }
    }
  }

  lemma PutIsValid(acc: seq<Entry>, key: Text, v: Json)
    requires Valid(Object(acc)) && Valid(v)
    ensures Valid(Object(Put(acc, key, v)))
  {
    PutKeepsKeysDistinct(acc, key, v);
    var all := Put(acc, key, v);
    forall j | 0 <= j < |all| ensures Valid(all[j].value) {
      assert all[j] in all;
      if all[j] in acc {
        var k :| 0 <= k < |acc| && acc[k] == all[j];
      }
    }
  }

  /** Any accepted text and the text printed from its value: the latter is accepted iff every
      number is in reach, means the same but for decimals of scale zero, and is then a normal
      form, printed again as it is. */
  lemma PrintedNormalForm(s: Text)
    requires Parse(s).Ok?
    ensures var v := Parse(s).value;
            var again := Parse(Print(v));
            && (again.Ok? <==> CanRead(v))
            && (again.Ok? ==> again.value == Reread(v) && Print(again.value) == Print(v))
            && (again.Ok? ==> (again.value == v <==> HasScales(v)))
  {
    hide Print, CanRead, HasScales, Reread;
    var v := Parse(s).value;
    ParsedValueIsValid(s, SkipWhitespace(s, 0));
    PrintedIsRead(v);
    PrintReread(v);
    RereadSameIff(v);
  }

  /** Texts that lose their value this way: one digit with the exponent `0` comes back as a
      long, and two digits with the largest exponent are printed as what is rejected. */
  lemma DecimalsAreLost()
    ensures exists s: Text :: Parse(s) == Ok(Decimal(7, 0), |s|)
    ensures Parse(Print(Decimal(7, 0))) == Ok(Integer(7), |Print(Decimal(7, 0))|)
    ensures exists s: Text :: Parse(s) == Ok(Decimal(12, -MAX_INT), |s|)
    ensures Parse(Print(Decimal(12, -MAX_INT))).Fail?
  {
    hide Parse, Print;
    EveryDecimalIsRead(7, 0);
    PrintedIsRead(Decimal(7, 0));
    EveryDecimalIsRead(12, -MAX_INT);
    assert |Digits(12)| == 2;
    PrintedIsRead(Decimal(12, -MAX_INT));
  }
}
