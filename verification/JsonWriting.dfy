/** JSON texts told by writing them: every way in which a value may be written down, with white
    space, escapes, digits and repeated keys, and that the parser reads it as that value. */
module JsonWriting {
  import opened Options
  import opened Units
  import opened JsonCodec
  import opened JsonNumbers

  // -------------------------------------------------------------------- white space

  /** What may stand between tokens. */
  const BLANKS: set<Unit> := {
    0x09, 0x0A, 0x0B, 0x0C, 0x0D, 0x1C, 0x1D, 0x1E, 0x1F, 0x20, 0x1680,
    0x2000, 0x2001, 0x2002, 0x2003, 0x2004, 0x2005, 0x2006, 0x2008, 0x2009, 0x200A,
    0x2028, 0x2029, 0x205F, 0x3000}

  predicate Blank(t: Text) { forall k :: 0 <= k < |t| ==> t[k] in BLANKS }

  lemma BlankIff(c: Unit)
    ensures IsWhitespace(c) <==> c in BLANKS
  {
  }

  lemma {:induction false} BlanksSkipped(s: Text, i: nat, t: Text)
    requires At(s, i, t) && Blank(t) && (i + |t| < |s| ==> !IsWhitespace(s[i + |t|]))
    ensures SkipWhitespace(s, i) == i + |t|
    decreases |t|
  {
    hide IsWhitespace;
    if t != [] {
      AtFirst(s, i, t);
      BlankIff(t[0]);
      assert t == t[..1] + t[1..];
      AtSplit(s, i, t[..1], t[1..]);
      BlanksSkipped(s, i + 1, t[1..]);
    }
  }

  // ------------------------------------------------------------------------ strings

  /** One unit of a string, and what stands for it. */
  datatype Spelled = Spelled(unit: Unit, text: Text)

  /** The letter of a short escape. */
  function Letter(c: Unit): Option<Unit> {
    if c == 0x22 then Some(0x22) else if c == 0x5C then Some(0x5C) else if c == 0x2F then Some(0x2F)
    else if c == 0x08 then Some(0x62) else if c == 0x0C then Some(0x66) else if c == 0x0A then Some(0x6E)
    else if c == 0x0D then Some(0x72) else if c == 0x09 then Some(0x74)
    else None
  }

  /** Four hexadecimal digits, or a sign and three of them. */
  ghost predicate Hexes(t: Text, c: Unit) {
    && |t| == 4
    && var h1, h2, h3 := HexDigit(t[1]), HexDigit(t[2]), HexDigit(t[3]);
       && h1 >= 0 && h2 >= 0 && h3 >= 0
       && if t[0] == PLUS then c == (h1 * 16 + h2) * 16 + h3
          else if t[0] == MINUS then c == (0x1_0000 - ((h1 * 16 + h2) * 16 + h3)) % 0x1_0000
          else HexDigit(t[0]) >= 0 && c == ((HexDigit(t[0]) * 16 + h1) * 16 + h2) * 16 + h3
  }

  ghost predicate Spells(x: Spelled) {
    || (x.text == [x.unit] && x.unit != QUOTE && x.unit != BACKSLASH)
    || (Letter(x.unit).Some? && x.text == [BACKSLASH, Letter(x.unit).value])
    || (|x.text| == 6 && x.text[0] == BACKSLASH && x.text[1] == LOWER_U && Hexes(x.text[2..], x.unit))
  }

  ghost predicate AllSpell(cs: seq<Spelled>) { forall k :: 0 <= k < |cs| ==> Spells(cs[k]) }

  function CharsText(cs: seq<Spelled>): Text { if cs == [] then [] else cs[0].text + CharsText(cs[1..]) }

  function UnitsOf(cs: seq<Spelled>): Text { seq(|cs|, k requires 0 <= k < |cs| => cs[k].unit) }

  function QuotedText(cs: seq<Spelled>): Text { [QUOTE] + CharsText(cs) + [QUOTE] }

  /** A hexadecimal digit in the one or the other case. */
  function HexChar(d: nat, upper: bool): Unit
    requires d < 16
  {
    if d < 10 then 0x30 + d else if upper then 0x41 + (d - 10) else 0x61 + (d - 10)
  }

  function HexEscape(c: Unit, upper: seq<bool>): Text
    requires |upper| == 4
  {
    [BACKSLASH, LOWER_U, HexChar(c / 4096, upper[0]), HexChar(c / 256 % 16, upper[1]),
     HexChar(c / 16 % 16, upper[2]), HexChar(c % 16, upper[3])]
  }

  lemma HexCharMeans(d: nat, upper: bool)
    requires d < 16
    ensures HexDigit(HexChar(d, upper)) == d && HexChar(d, upper) != PLUS && HexChar(d, upper) != MINUS
  {
  }

  lemma FourDigits(c: Unit)
    ensures ((c / 4096 * 16 + c / 256 % 16) * 16 + c / 16 % 16) * 16 + c % 16 == c
  {
    assert c / 16 == c / 256 * 16 + c / 16 % 16 by { Nested(c, 16); }
    assert c / 256 == c / 4096 * 16 + c / 256 % 16 by { Nested(c, 256); }
  }

  lemma Nested(c: nat, m: nat)
    requires m == 16 || m == 256
    ensures c / m == c / (m * 16) * 16 + c / m % 16
  {
  }

  /** Every unit may be written as `\u` with its four digits, in either case. */
  lemma HexEscapeSpells(c: Unit, upper: seq<bool>)
    requires |upper| == 4
    ensures Spells(Spelled(c, HexEscape(c, upper)))
  {
    hide HexDigit, HexChar;
    HexCharMeans(c / 4096, upper[0]);
    HexCharMeans(c / 256 % 16, upper[1]);
    HexCharMeans(c / 16 % 16, upper[2]);
    HexCharMeans(c % 16, upper[3]);
    FourDigits(c);
    var t := HexEscape(c, upper);
    assert t[2..] == [t[2], t[3], t[4], t[5]];
  }

  lemma HexesAreRead(t: Text, c: Unit)
    requires |t| == 4
    ensures HexValue(t) == Some(c) <==> Hexes(t, c)
  {
    hide HexDigit;
    SignIsNoHex();
  }

  lemma SignIsNoHex()
    ensures HexDigit(PLUS) < 0 && HexDigit(MINUS) < 0
  {
  }

  lemma LetterIff(c: Unit, e: Unit)
    ensures Unescape(e) == Some(c) <==> Letter(c) == Some(e)
  {
  }

  lemma SpelledIsRead(x: Spelled, s: Text, i: nat, acc: Text)
    requires Spells(x) && At(s, i, x.text)
    ensures i + |x.text| <= |s|
    ensures ParseChars(s, i, acc) == ParseChars(s, i + |x.text|, acc + [x.unit])
  {
    hide HexDigit, HexValue, Unescape;
    var t := x.text;
    AtFirst(s, i, t);
    assert forall k :: 0 <= k < |t| ==> s[i + k] == s[i..i + |t|][k] == t[k];
    if |t| == 2 {
      LetterIff(x.unit, t[1]);
      LetterIsNoU(x.unit);
    } else if |t| == 6 {
      assert s[i + 2..i + 6] == t[2..];
      HexesAreRead(t[2..], x.unit);
    }
  }

  lemma LetterIsNoU(c: Unit)
    ensures Letter(c) != Some(LOWER_U)
  {
  }

  lemma {:induction false} CharsAreRead(cs: seq<Spelled>, s: Text, i: nat, acc: Text)
    requires AllSpell(cs) && At(s, i, CharsText(cs) + [QUOTE])
    ensures ParseChars(s, i, acc) == Ok(acc + UnitsOf(cs), i + |CharsText(cs)| + 1)
    decreases |cs|
  {
    hide ParseChars, At, Spells;
    if cs == [] {
      assert CharsText(cs) + [QUOTE] == [QUOTE];
      QuoteEnds(s, i, acc);
      assert acc + UnitsOf(cs) == acc;
    } else {
      var x := cs[0];
      assert CharsText(cs) + [QUOTE] == x.text + (CharsText(cs[1..]) + [QUOTE]);
      AtSplit(s, i, x.text, CharsText(cs[1..]) + [QUOTE]);
      SpelledIsRead(x, s, i, acc);
      CharsAreRead(cs[1..], s, i + |x.text|, acc + [x.unit]);
      assert acc + [x.unit] + UnitsOf(cs[1..]) == acc + UnitsOf(cs);
    }
  }

  lemma QuoteEnds(s: Text, i: nat, acc: Text)
    requires At(s, i, [QUOTE])
    ensures ParseChars(s, i, acc) == Ok(acc, i + 1)
  {
    AtFirst(s, i, [QUOTE]);
  }

  /** Whatever form is chosen for each unit, the unit itself where it may stand, its short
      escape, or `\u` with four digits: the string is read as its units, and the parser stops
      behind it. */
  lemma StringIsRead(cs: seq<Spelled>, s: Text, i: nat)
    requires AllSpell(cs) && At(s, i, QuotedText(cs))
    ensures i < |s| && s[i] == QUOTE
    ensures ParseString(s, i) == Ok(UnitsOf(cs), i + |QuotedText(cs)|)
  {
    hide ParseChars, Spells;
    AtFirst(s, i, QuotedText(cs));
    assert QuotedText(cs) == [QUOTE] + (CharsText(cs) + [QUOTE]);
    AtSplit(s, i, [QUOTE], CharsText(cs) + [QUOTE]);
    CharsAreRead(cs, s, i + 1, []);
    assert [] + UnitsOf(cs) == UnitsOf(cs);
  }

  // ---------------------------------------------------------------------- documents

  /** A value as it is written. `inner` stands between the brackets of an empty list or object. */
  datatype Doc =
    | NullDoc
    | BoolDoc(b: bool)
    | NumberDoc(parts: Parts)
    | StringDoc(chars: seq<Spelled>)
    | ListDoc(inner: Text, items: seq<Item>)
    | ObjectDoc(inner: Text, members: seq<Member>)

  /** An item with the white space around it. */
  datatype Item = Item(before: Text, doc: Doc, after: Text)

  /** A key and its value, with the white space before, behind the key, behind the colon and
      behind the value. */
  datatype Member = Member(before: Text, key: seq<Spelled>, mid: Text, gap: Text, doc: Doc, after: Text)

  ghost function DocText(d: Doc): Text {
    match d
    case NullDoc => NULL_TEXT
    case BoolDoc(b) => if b then TRUE_TEXT else FALSE_TEXT
    case NumberDoc(parts) => TextOf(parts)
    case StringDoc(chars) => QuotedText(chars)
    case ListDoc(inner, items) => [LBRACKET] + (if items == [] then inner else ItemsText(items)) + [RBRACKET]
    case ObjectDoc(inner, members) => [LBRACE] + (if members == [] then inner else MembersText(members)) + [RBRACE]
  }

  ghost function ItemText(x: Item): Text { x.before + DocText(x.doc) + x.after }

  ghost function ItemsText(items: seq<Item>): Text {
    if items == [] then []
    else if |items| == 1 then ItemText(items[0])
    else ItemText(items[0]) + [COMMA] + ItemsText(items[1..])
  }

  ghost function MemberText(m: Member): Text {
    m.before + QuotedText(m.key) + m.mid + [COLON] + m.gap + DocText(m.doc) + m.after
  }

  ghost function MembersText(members: seq<Member>): Text {
    if members == [] then []
    else if |members| == 1 then MemberText(members[0])
    else MemberText(members[0]) + [COMMA] + MembersText(members[1..])
  }

  ghost predicate DocOk(d: Doc) {
    match d
    case NumberDoc(parts) => WellFormed(parts) && Meaning(parts).Some?
    case StringDoc(chars) => AllSpell(chars)
    case ListDoc(inner, items) =>
      Blank(inner) && forall k :: 0 <= k < |items| ==>
        Blank(items[k].before) && DocOk(items[k].doc) && Blank(items[k].after)
    case ObjectDoc(inner, members) =>
      Blank(inner) && forall k :: 0 <= k < |members| ==>
        Blank(members[k].before) && AllSpell(members[k].key) && Blank(members[k].mid) && Blank(members[k].gap)
        && DocOk(members[k].doc) && Blank(members[k].after)
    case _ => true
  }

  // ---------------------------------------------------------------------- what is meant

  function KeysOf(entries: seq<Entry>): seq<Text> {
    if entries == [] then []
    else
      var keys, key := KeysOf(entries[..|entries| - 1]), entries[|entries| - 1].key;
      if key in keys then keys else keys + [key]
  }

  /** The value that stands last under a key. */
  function LastValue(entries: seq<Entry>, key: Text): Json {
    if entries == [] then Null
    else if entries[|entries| - 1].key == key then entries[|entries| - 1].value
    else LastValue(entries[..|entries| - 1], key)
  }

  /** Each key where it stood first, with the value that stood last. */
  function Collapse(entries: seq<Entry>): seq<Entry> {
    var keys := KeysOf(entries);
    seq(|keys|, k requires 0 <= k < |keys| => Entry(keys[k], LastValue(entries, keys[k])))
  }

  ghost function ValueMeant(d: Doc): Json
    requires DocOk(d)
  {
    match d
    case NullDoc => Null
    case BoolDoc(b) => Bool(b)
    case NumberDoc(parts) => Meaning(parts).value
    case StringDoc(chars) => Str(UnitsOf(chars))
    case ListDoc(_, items) => List(seq(|items|, k requires 0 <= k < |items| => ValueMeant(items[k].doc)))
    case ObjectDoc(_, members) =>
      Object(Collapse(seq(|members|, k requires 0 <= k < |members| =>
        Entry(UnitsOf(members[k].key), ValueMeant(members[k].doc)))))
  }

  lemma {:induction false} KeysDistinct(entries: seq<Entry>)
    ensures forall j, k :: 0 <= j < k < |KeysOf(entries)| ==> KeysOf(entries)[j] != KeysOf(entries)[k]
  {
    if entries != [] {
      KeysDistinct(entries[..|entries| - 1]);
    }
  }

  lemma {:induction false} PutAtKey(entries: seq<Entry>, key: Text, v: Json, n: nat)
    requires n < |entries| && entries[n].key == key
    requires forall j, k :: 0 <= j < k < |entries| ==> entries[j].key != entries[k].key
    ensures Put(entries, key, v) == entries[n := Entry(key, v)]
  {
    if n > 0 {
      PutAtKey(entries[1..], key, v, n - 1);
      assert entries[0].key != entries[n].key;
      assert entries[n := Entry(key, v)] == [entries[0]] + entries[1..][n - 1 := Entry(key, v)];
    } else {
      assert entries[0 := Entry(key, v)] == [Entry(key, v)] + entries[1..];
    }
  }

  lemma {:induction false} PutNewKey(entries: seq<Entry>, key: Text, v: Json)
    requires forall k :: 0 <= k < |entries| ==> entries[k].key != key
    ensures Put(entries, key, v) == entries + [Entry(key, v)]
  {
    if entries != [] {
      PutNewKey(entries[1..], key, v);
      assert entries == [entries[0]] + entries[1..];
    }
  }

  /** Putting one more entry into a map that keeps insertion order is meant so. */
  lemma PutCollapses(entries: seq<Entry>, e: Entry)
    ensures Put(Collapse(entries), e.key, e.value) == Collapse(entries + [e])
  {
    var all := entries + [e];
    assert all[..|all| - 1] == entries && all[|all| - 1] == e;
    var before, after, keys := Collapse(entries), Collapse(all), KeysOf(entries);
    KeysDistinct(entries);
    assert forall k :: 0 <= k < |keys| ==> before[k].key == keys[k];
    assert forall key :: LastValue(all, key) == if key == e.key then e.value else LastValue(entries, key);
    if e.key in keys {
      var n :| 0 <= n < |keys| && keys[n] == e.key;
      PutAtKey(before, e.key, e.value, n);
      assert after == before[n := e];
    } else {
      PutNewKey(before, e.key, e.value);
      assert after == before + [e];
    }
  }

  // ------------------------------------------------------------------- what is read

  /** What may follow a value: nothing, white space, a comma or a closing bracket. */
  predicate Stops(s: Text, i: nat) {
    i < |s| ==> IsWhitespace(s[i]) || s[i] == COMMA || s[i] == RBRACKET || s[i] == RBRACE
  }

  lemma StopsNumber(p: Parts, s: Text, i: nat)
    requires Stops(s, i)
    ensures NumberStops(p, s, i)
  {
    if i < |s| {
      BlankIsNoDigit(s[i]);
    }
  }

  /** Where the digits lie. */
  lemma RunsLie(x: Unit)
    requires x in DIGIT_RUNS
    ensures 0x0660 <= x <= 0x1090 || 0x17E0 <= x <= 0x1C50 || 0xA620 <= x
  {
  }

  lemma DigitsLie(c: Unit)
    requires IsDigit(c)
    ensures 48 <= c <= 57 || 0x0660 <= c <= 0x1099 || 0x17E0 <= c <= 0x1C59 || 0xA620 <= c
  {
    if c >= 0x0660 {
      var k :| 0 <= k <= 9 && c - k in DIGIT_RUNS;
      RunsLie(c - k);
    }
  }

  lemma BlankIsNoDigit(c: Unit)
    ensures IsWhitespace(c) || c == COMMA || c == RBRACKET || c == RBRACE ==>
              !IsDigit(c) && c != POINT && c != LOWER_E && c != UPPER_E && c != PLUS && c != MINUS
  {
    hide IsDigit;
    if IsDigit(c) {
      DigitsLie(c);
    }
  }

  lemma DigitIsNoMark(c: Unit)
    ensures IsDigit(c) ==> !IsWhitespace(c) && c != RBRACKET && c != RBRACE && c != LBRACE && c != LBRACKET
                           && c != QUOTE
                           && c != LOWER_T && c != LOWER_F && c != LOWER_N
  {
    hide IsDigit;
    if IsDigit(c) {
      DigitsLie(c);
    }
  }

  /** A number starts with a digit, a minus sign or a point. */
  lemma NumberStarts(p: Parts)
    requires WellFormed(p) && Meaning(p).Some?
    ensures var t := TextOf(p); t != [] && (IsDigit(t[0]) || t[0] == MINUS || t[0] == POINT)
  {
    hide IsDigit, AllDigits, ValueOf;
    if p.negative {
      assert TextOf(p)[0] == MINUS;
    } else if p.whole != [] {
      assert TextOf(p)[0] == p.whole[0];
    } else {
      assert p.whole + p.fraction == p.fraction;
      assert p.pointed;
      assert TextOf(p)[0] == POINT;
    }
  }

  lemma NumberIsRead(p: Parts, s: Text, i: nat)
    requires WellFormed(p) && Meaning(p).Some? && At(s, i, TextOf(p)) && Stops(s, i + |TextOf(p)|)
    ensures i < |s| && !IsWhitespace(s[i]) && s[i] != RBRACKET && s[i] != RBRACE
    ensures ParseValue(s, i) == Ok(Meaning(p).value, i + |TextOf(p)|)
  {
    hide TextOf, WellFormed, Meaning, ParseNumber, IsDigit, IsWhitespace, NumberStops;
    NumberStarts(p);
    StopsNumber(p, s, i + |TextOf(p)|);
    WrittenNumberParses(p, s, i);
    AtFirst(s, i, TextOf(p));
    DigitIsNoMark(s[i]);
    MarksAreNoBlanks();
    NotSkipped(s, i);
  }

  lemma MarksAreNoBlanks()
    ensures !IsWhitespace(MINUS) && !IsWhitespace(POINT) && !IsWhitespace(QUOTE) && !IsWhitespace(LBRACE)
    ensures !IsWhitespace(LBRACKET) && !IsWhitespace(LOWER_T) && !IsWhitespace(LOWER_F) && !IsWhitespace(LOWER_N)
    ensures !IsWhitespace(COMMA) && !IsWhitespace(COLON) && !IsWhitespace(RBRACE) && !IsWhitespace(RBRACKET)
  {
  }

  lemma NotSkipped(s: Text, i: nat)
    requires i < |s| && !IsWhitespace(s[i])
    ensures SkipWhitespace(s, i) == i
  {
  }

  /** Reading may as well start behind the white space. */
  lemma SkipTwice(s: Text, i: nat)
    requires i <= |s|
    ensures SkipWhitespace(s, SkipWhitespace(s, i)) == SkipWhitespace(s, i)
    ensures ParseValue(s, SkipWhitespace(s, i)) == ParseValue(s, i)
    ensures ParseEntry(s, SkipWhitespace(s, i)) == ParseEntry(s, i)
  {
    hide ParseString, ParseNumber, ParseLiteral, ParseArray, ParseObjectValue, IsWhitespace;
    var k := SkipWhitespace(s, i);
    if k < |s| {
      NotSkipped(s, k);
    }
  }

  lemma SkipFirst(s: Text, i: nat, items: seq<Json>, entries: seq<Entry>)
    requires i <= |s|
    ensures ParseItems(s, SkipWhitespace(s, i), items) == ParseItems(s, i, items)
    ensures ParseEntries(s, SkipWhitespace(s, i), entries) == ParseEntries(s, i, entries)
  {
    hide ParseValue, ParseEntry, SkipWhitespace, Put;
    SkipTwice(s, i);
  }

  lemma LiteralIsRead(s: Text, i: nat, literal: Text, v: Json)
    requires At(s, i, literal)
    requires (literal == NULL_TEXT && v == Null) || (literal == TRUE_TEXT && v == Bool(true))
             || (literal == FALSE_TEXT && v == Bool(false))
    ensures i < |s| && !IsWhitespace(s[i]) && s[i] != RBRACKET && s[i] != RBRACE
    ensures ParseValue(s, i) == Ok(v, i + |literal|)
  {
    hide IsWhitespace;
    AtFirst(s, i, literal);
    MarksAreNoBlanks();
    NotSkipped(s, i);
    assert s[i..i + |literal|] == s[i..][..|literal|];
  }

  /** The written value is read as what is meant, wherever it stands and whatever follows. */
  lemma {:induction false} DocIsRead(d: Doc, s: Text, i: nat)
    requires DocOk(d) && At(s, i, DocText(d))
    requires d.NumberDoc? ==> Stops(s, i + |DocText(d)|)
    ensures i < |s| && !IsWhitespace(s[i]) && s[i] != RBRACKET && s[i] != RBRACE
    ensures ParseValue(s, i) == Ok(ValueMeant(d), i + |DocText(d)|)
    decreases d, 3
  {
    hide IsWhitespace, ParseString, ParseArray, ParseObjectValue, ParseNumber, WellFormed, Meaning, TextOf;
    MarksAreNoBlanks();
    match d
    case NullDoc => LiteralIsRead(s, i, NULL_TEXT, Null);
    case BoolDoc(b) => LiteralIsRead(s, i, DocText(d), Bool(b));
    case NumberDoc(parts) => NumberIsRead(parts, s, i);
    case StringDoc(chars) =>
      StringIsRead(chars, s, i);
      NotSkipped(s, i);
    case ListDoc(_, _) =>
      ListIsRead(d, s, i);
      NotSkipped(s, i);
    case ObjectDoc(_, _) =>
      ObjectIsRead(d, s, i);
      NotSkipped(s, i);
  }

  /** The same with white space before it. */
  lemma {:induction false} SpacedIsRead(d: Doc, s: Text, i: nat, before: Text)
    requires DocOk(d) && Blank(before) && At(s, i, before + DocText(d))
    requires d.NumberDoc? ==> Stops(s, i + |before| + |DocText(d)|)
    ensures ParseValue(s, i) == Ok(ValueMeant(d), i + |before| + |DocText(d)|)
    decreases d, 4
  {
    hide ParseValue, DocText, DocOk, ValueMeant, IsWhitespace, Blank, At;
    AtSplit(s, i, before, DocText(d));
    DocIsRead(d, s, i + |before|);
    BlanksSkipped(s, i, before);
    SkipTwice(s, i);
  }

  lemma {:induction false} ListIsRead(d: Doc, s: Text, i: nat)
    requires d.ListDoc? && DocOk(d) && At(s, i, DocText(d))
    ensures i < |s| && s[i] == LBRACKET
    ensures ParseArray(s, i) == Ok(ValueMeant(d), i + |DocText(d)|)
    decreases d, 2, |d.items| + 1
  {
    hide ParseValue, ParseItems, ItemsText, SkipWhitespace, IsWhitespace, At;
    var inside := if d.items == [] then d.inner else ItemsText(d.items);
    assert DocText(d) == [LBRACKET] + (inside + [RBRACKET]);
    AtSplit(s, i, [LBRACKET], inside + [RBRACKET]);
    AtFirst(s, i, [LBRACKET]);
    MarksAreNoBlanks();
    if d.items == [] {
      AtSplit(s, i + 1, inside, [RBRACKET]);
      AtFirst(s, i + 1 + |inside|, [RBRACKET]);
      BlanksSkipped(s, i + 1, inside);
    } else {
      SkipFirst(s, i + 1, [], []);
      ItemStarts(d, s, i + 1);
      assert d.items[0..] == d.items;
      ItemsAreRead(d, 0, s, i + 1);
      assert ValueMeant(d).items[..0] == [];
    }
  }

  /** What follows an item and its white space. */
  ghost function ItemsRest(more: seq<Item>): Text {
    if more == [] then [RBRACKET] else [COMMA] + (ItemsText(more) + [RBRACKET])
  }

  lemma ItemsTextIs(items: seq<Item>)
    requires items != []
    ensures var x := items[0];
            ItemsText(items) + [RBRACKET] == x.before + (DocText(x.doc) + (x.after + ItemsRest(items[1..])))
    ensures var x := items[0];
            ItemsText(items) + [RBRACKET] == (x.before + DocText(x.doc)) + (x.after + ItemsRest(items[1..]))
    ensures var x, more := items[0], items[1..];
            |ItemsText(items)| == |x.before| + |DocText(x.doc)| + |x.after|
                                  + if more == [] then 0 else 1 + |ItemsText(more)|
  {
    hide DocText;
  }

  /** The first item does not look like the end. */
  lemma {:induction false} ItemStarts(d: Doc, s: Text, i: nat)
    requires d.ListDoc? && DocOk(d) && d.items != [] && At(s, i, ItemsText(d.items) + [RBRACKET])
    ensures !Peek(s, SkipWhitespace(s, i), RBRACKET)
    decreases d, 2, 0
  {
    hide SkipWhitespace, IsWhitespace, At, Blank, ItemsText, DocText;
    var x := d.items[0];
    var rest := ItemsRest(d.items[1..]);
    ItemsTextIs(d.items);
    AtSplit(s, i, x.before, DocText(x.doc) + (x.after + rest));
    AtSplit(s, i + |x.before|, DocText(x.doc), x.after + rest);
    ItemEnds(s, i + |x.before| + |DocText(x.doc)|, x.after, rest);
    DocIsRead(x.doc, s, i + |x.before|);
    BlanksSkipped(s, i, x.before);
  }

  /** Behind a value and its white space stands a comma or a closing bracket. */
  lemma ItemEnds(s: Text, i: nat, after: Text, rest: Text)
    requires Blank(after) && At(s, i, after + rest) && rest != [] && rest[0] in {COMMA, RBRACKET, RBRACE}
    ensures Stops(s, i) && SkipWhitespace(s, i) == i + |after| && i + |after| < |s| && s[i + |after|] == rest[0]
  {
    hide IsWhitespace;
    AtSplit(s, i, after, rest);
    AtFirst(s, i + |after|, rest);
    MarksAreNoBlanks();
    BlanksSkipped(s, i, after);
    if after != [] {
      AtFirst(s, i, after);
      BlankIff(after[0]);
    }
  }

  lemma {:induction false} ItemsAreRead(d: Doc, n: nat, s: Text, i: nat)
    requires d.ListDoc? && DocOk(d) && n < |d.items| && At(s, i, ItemsText(d.items[n..]) + [RBRACKET])
    ensures ParseItems(s, i, ValueMeant(d).items[..n])
            == Ok(ValueMeant(d), i + |ItemsText(d.items[n..])| + 1)
    decreases d, 1, |d.items| - n
  {
    hide ParseValue, ParseItems, SkipWhitespace, IsWhitespace, At, Blank, DocText, ItemsText, Stops;
    var x, more := d.items[n], d.items[n + 1..];
    var acc, v := ValueMeant(d).items[..n], ValueMeant(x.doc);
    assert d.items[n..][1..] == more && d.items[n..][0] == x;
    assert acc + [v] == ValueMeant(d).items[..n + 1];
    var rest := ItemsRest(more);
    var head := x.before + DocText(x.doc);
    ItemsTextIs(d.items[n..]);
    AtSplit(s, i, head, x.after + rest);
    var j := i + |head|;
    ItemEnds(s, j, x.after, rest);
    SpacedIsRead(x.doc, s, i, x.before);
    ItemGoesOn(s, i, acc, v, j, j + |x.after|);
    if more == [] {
      assert ValueMeant(d).items[..n + 1] == ValueMeant(d).items;
    } else {
      AtSplit(s, j, x.after, rest);
      AtSplit(s, j + |x.after|, [COMMA], ItemsText(more) + [RBRACKET]);
      ItemsAreRead(d, n + 1, s, j + |x.after| + 1);
    }
  }

  lemma ItemGoesOn(s: Text, i: nat, acc: seq<Json>, v: Json, j: nat, e: nat)
    requires i <= |s| && ParseValue(s, i) == Ok(v, j) && SkipWhitespace(s, j) == e
    requires Peek(s, e, RBRACKET) || Peek(s, e, COMMA)
    ensures ParseItems(s, i, acc)
            == if s[e] == RBRACKET then Ok(List(acc + [v]), e + 1) else ParseItems(s, e + 1, acc + [v])
  {
    hide ParseValue, SkipWhitespace;
  }

  lemma {:induction false} ObjectIsRead(d: Doc, s: Text, i: nat)
    requires d.ObjectDoc? && DocOk(d) && At(s, i, DocText(d))
    ensures i < |s| && s[i] == LBRACE
    ensures ParseObjectValue(s, i) == Ok(ValueMeant(d), i + |DocText(d)|)
    decreases d, 2, |d.members| + 1
  {
    hide ParseEntries, MembersText, SkipWhitespace, IsWhitespace, At, Collapse, ValueMeant, Blank;
    var inside := if d.members == [] then d.inner else MembersText(d.members);
    assert DocText(d) == [LBRACE] + (inside + [RBRACE]);
    AtSplit(s, i, [LBRACE], inside + [RBRACE]);
    AtFirst(s, i, [LBRACE]);
    MarksAreNoBlanks();
    NothingCollapses();
    ObjectMeans(d);
    if d.members == [] {
      AtSplit(s, i + 1, inside, [RBRACE]);
      AtFirst(s, i + 1 + |inside|, [RBRACE]);
      BlanksSkipped(s, i + 1, inside);
      assert EntriesMeant(d) == [];
    } else {
      SkipFirst(s, i + 1, [], []);
      MemberStarts(d, s, i + 1);
      assert d.members[0..] == d.members;
      MembersAreRead(d, 0, s, i + 1);
      assert EntriesMeant(d)[..0] == [];
    }
  }

  lemma ObjectMeans(d: Doc)
    requires d.ObjectDoc? && DocOk(d)
    ensures ValueMeant(d) == Object(Collapse(EntriesMeant(d)))
  {
    hide Collapse;
  }

  lemma NothingCollapses()
    ensures Collapse([]) == []
  {
  }

  /** The pairs of an object as they are written. */
  ghost function EntriesMeant(d: Doc): seq<Entry>
    requires d.ObjectDoc? && DocOk(d)
  {
    seq(|d.members|, k requires 0 <= k < |d.members| =>
      Entry(UnitsOf(d.members[k].key), ValueMeant(d.members[k].doc)))
  }

  ghost function MemberHead(m: Member): Text {
    m.before + (QuotedText(m.key) + (m.mid + ([COLON] + (m.gap + DocText(m.doc)))))
  }

  ghost function MembersRest(more: seq<Member>): Text {
    if more == [] then [RBRACE] else [COMMA] + (MembersText(more) + [RBRACE])
  }

  lemma MembersTextIs(members: seq<Member>)
    requires members != []
    ensures MembersText(members) + [RBRACE] == MemberHead(members[0]) + (members[0].after + MembersRest(members[1..]))
    ensures |MembersText(members)| == |MemberHead(members[0])| + |members[0].after|
                                      + if members[1..] == [] then 0 else 1 + |MembersText(members[1..])|
  {
    hide DocText, QuotedText, MemberHead, MemberText;
    var m, more := members[0], members[1..];
    MemberIs(m);
    Regrouped(MemberHead(m), m.after, MembersText(more));
    assert MembersText(members) == if more == [] then MemberText(m) else MemberText(m) + [COMMA] + MembersText(more);
  }

  lemma Regrouped(a: Text, b: Text, t: Text)
    ensures (a + b) + [RBRACE] == a + (b + [RBRACE])
    ensures (a + b) + [COMMA] + t + [RBRACE] == a + (b + ([COMMA] + (t + [RBRACE])))
  {
  }

  lemma MemberStarts(d: Doc, s: Text, i: nat)
    requires d.ObjectDoc? && DocOk(d) && d.members != [] && At(s, i, MembersText(d.members) + [RBRACE])
    ensures !Peek(s, SkipWhitespace(s, i), RBRACE)
  {
    hide SkipWhitespace, IsWhitespace, At, Blank, DocText, CharsText, MembersText;
    var m := d.members[0];
    var behind := m.mid + ([COLON] + (m.gap + DocText(m.doc))) + (m.after + MembersRest(d.members[1..]));
    MembersTextIs(d.members);
    assert MembersText(d.members) + [RBRACE] == m.before + (QuotedText(m.key) + behind);
    AtSplit(s, i, m.before, QuotedText(m.key) + behind);
    AtFirst(s, i + |m.before|, QuotedText(m.key) + behind);
    MarksAreNoBlanks();
    BlanksSkipped(s, i, m.before);
  }

  /** One pair up to the end of its value. */
  lemma {:induction false} MemberIsRead(d: Doc, n: nat, s: Text, i: nat)
    requires d.ObjectDoc? && DocOk(d) && n < |d.members|
    requires At(s, i, MemberHead(d.members[n])) && Stops(s, i + |MemberHead(d.members[n])|)
    ensures ParseEntry(s, i) == Ok(EntriesMeant(d)[n], i + |MemberHead(d.members[n])|)
    decreases d, 0
  {
    hide ParseValue, ParseString, SkipWhitespace, IsWhitespace, At, Blank, DocText, CharsText, Stops;
    var m := d.members[n];
    var value := m.gap + DocText(m.doc);
    var q := QuotedText(m.key);
    AtSplit(s, i, m.before, q + (m.mid + ([COLON] + value)));
    var a := i + |m.before|;
    AtSplit(s, a, q, m.mid + ([COLON] + value));
    AtSplit(s, a + |q|, m.mid, [COLON] + value);
    var c := a + |q| + |m.mid|;
    AtSplit(s, c, [COLON], value);
    AtFirst(s, c, [COLON]);
    MarksAreNoBlanks();
    StringIsRead(m.key, s, a);
    BlanksSkipped(s, i, m.before);
    BlanksSkipped(s, a + |q|, m.mid);
    SpacedIsRead(m.doc, s, c + 1, m.gap);
  }

  lemma {:induction false} MembersAreRead(d: Doc, n: nat, s: Text, i: nat)
    requires d.ObjectDoc? && DocOk(d) && n < |d.members| && At(s, i, MembersText(d.members[n..]) + [RBRACE])
    ensures ParseEntries(s, i, Collapse(EntriesMeant(d)[..n]))
            == Ok(ValueMeant(d), i + |MembersText(d.members[n..])| + 1)
    decreases d, 1, |d.members| - n
  {
    hide ParseEntry, ParseEntries, SkipWhitespace, IsWhitespace, At, Blank, DocText, Collapse, MemberHead, Stops,
      MembersText, Put;
    var m, more := d.members[n], d.members[n + 1..];
    var entries := EntriesMeant(d);
    assert d.members[n..][1..] == more && d.members[n..][0] == m;
    assert entries[..n] + [entries[n]] == entries[..n + 1];
    var rest := MembersRest(more);
    var head := MemberHead(m);
    MembersTextIs(d.members[n..]);
    AtSplit(s, i, head, m.after + rest);
    var j := i + |head|;
    ItemEnds(s, j, m.after, rest);
    MemberIsRead(d, n, s, i);
    EntryGoesOn(s, i, Collapse(entries[..n]), entries[n], j, j + |m.after|);
    PutCollapses(entries[..n], entries[n]);
    ObjectMeans(d);
    if more == [] {
      assert entries[..n + 1] == entries;
    } else {
      AtSplit(s, j, m.after, rest);
      AtSplit(s, j + |m.after|, [COMMA], MembersText(more) + [RBRACE]);
      MembersAreRead(d, n + 1, s, j + |m.after| + 1);
    }
  }

  lemma MemberIs(m: Member)
    ensures MemberText(m) == MemberHead(m) + m.after
  {
    hide DocText, QuotedText;
  }

  lemma EntryGoesOn(s: Text, i: nat, acc: seq<Entry>, e: Entry, j: nat, k: nat)
    requires i <= |s| && ParseEntry(s, i) == Ok(e, j) && SkipWhitespace(s, j) == k
    requires Peek(s, k, RBRACE) || Peek(s, k, COMMA)
    ensures ParseEntries(s, i, acc)
            == if s[k] == RBRACE then Ok(Object(Put(acc, e.key, e.value)), k + 1)
               else ParseEntries(s, k + 1, Put(acc, e.key, e.value))
  {
    hide ParseEntry, SkipWhitespace, Put;
  }

  /** A whole document with white space around it: it is read as what is meant. */
  lemma DocumentIsRead(before: Text, d: Doc, after: Text)
    requires Blank(before) && DocOk(d) && Blank(after)
    ensures var s := before + DocText(d) + after; Parse(s) == Ok(ValueMeant(d), |s|)
  {
    hide ParseValue, DocText, DocOk, ValueMeant, IsWhitespace, Blank, At, Stops, SkipWhitespace;
    var s := before + DocText(d) + after;
    AtWhole(s, []);
    assert s + [] == s == before + (DocText(d) + after);
    AtSplit(s, 0, before, DocText(d) + after);
    AtSplit(s, |before|, DocText(d), after);
    BlanksSkipped(s, |before| + |DocText(d)|, after);
    EndStops(s, |before| + |DocText(d)|, after);
    DocIsRead(d, s, |before|);
    BlanksSkipped(s, 0, before);
  }

  lemma EndStops(s: Text, i: nat, after: Text)
    requires At(s, i, after) && i + |after| == |s| && Blank(after)
    ensures Stops(s, i) && i <= |s|
  {
    if after != [] {
      AtFirst(s, i, after);
      BlankIff(after[0]);
    }
  }
}
