/** What the printer writes, told by the ways in which a value may be written down: the one
    without white space, with the shortest escapes that section 7 of RFC 8259 allows, and with
    the numbers as Java writes them. */
module JsonPrinted {
  import opened Options
  import opened Units
  import opened JsonCodec
  import opened JsonNumbers
  import opened JsonWriting

  ghost predicate LowerHexes(t: Text) { forall k :: 0 <= k < |t| ==> 0x30 <= t[k] <= 0x39 || 0x61 <= t[k] <= 0x66 }

  /** A unit stands for itself, or else a letter does, or else four digits with small letters. */
  ghost predicate Plainly(x: Spelled) {
    && Spells(x)
    && if x.unit >= 0x20 && x.unit != 0x22 && x.unit != 0x5C then |x.text| == 1
       else if Letter(x.unit).Some? then |x.text| == 2
       else |x.text| == 6 && LowerHexes(x.text[2..])
  }

  ghost predicate AllPlainly(cs: seq<Spelled>) { forall k :: 0 <= k < |cs| ==> Plainly(cs[k]) }

  /** ASCII digits without a leading zero that mean `n`. */
  ghost predicate Numeral(t: Text, n: nat) {
    && t != [] && (forall k :: 0 <= k < |t| ==> 0x30 <= t[k] <= 0x39) && (|t| > 1 ==> t[0] != 0x30)
    && AllDigits(t) && ValueOf(t) == n
  }

  ghost predicate WholeNumber(p: Parts, n: int) {
    (p.negative <==> n < 0) && Numeral(p.whole, Magnitude(n)) && !p.pointed && p.exponent.None?
  }

  /** `digits` with a point before the last `scale` of them; where there are not so many, zeros
      come first. */
  ghost predicate Pointed(p: Parts, digits: Text, scale: nat) {
    && p.pointed && p.exponent.None? && |p.fraction| == scale
    && if |digits| > scale then digits == p.whole + p.fraction
       else
         && p.whole == [0x30]
         && exists zeros :: p.fraction == zeros + digits && forall k :: 0 <= k < |zeros| ==> zeros[k] == 0x30
  }

  /** One digit, the others behind a point, and a signed exponent. */
  ghost predicate Scientific(p: Parts, digits: Text, e: int) {
    && digits == p.whole + p.fraction && |p.whole| == 1 && (p.pointed <==> |digits| > 1)
    && p.exponent.Some? && p.exponent.value.letter == 0x45
    && p.exponent.value.sign == [if e < 0 then 0x2D else 0x2B] && Numeral(p.exponent.value.digits, Magnitude(e))
  }

  /** `BigDecimal.toString`: plain down to a millionth, when the scale is not negative. */
  ghost predicate DecimalNumber(p: Parts, unscaled: int, scale: int) {
    if scale == 0 then WholeNumber(p, unscaled)
    else
      && (p.negative <==> unscaled < 0)
      && exists digits ::
           && Numeral(digits, Magnitude(unscaled))
           && var e := |digits| - 1 - scale;
              if scale > 0 && e >= -6 then Pointed(p, digits, scale) else Scientific(p, digits, e)
  }

  /** `d` is the one way in which `v` is printed. */
  ghost predicate Prints(v: Json, d: Doc)
    decreases v
  {
    match (v, d)
    case (Null, NullDoc) => true
    case (Bool(b), BoolDoc(c)) => b == c
    case (Integer(n), NumberDoc(p)) => WholeNumber(p, n)
    case (Decimal(unscaled, scale), NumberDoc(p)) => DecimalNumber(p, unscaled, scale)
    case (Str(t), StringDoc(cs)) => UnitsOf(cs) == t && AllPlainly(cs)
    case (List(items), ListDoc(inner, docs)) =>
      && inner == [] && |docs| == |items|
      && forall k :: 0 <= k < |items| ==> docs[k].before == [] && docs[k].after == [] && Prints(items[k], docs[k].doc)
    case (Object(entries), ObjectDoc(inner, members)) =>
      && inner == [] && |members| == |entries|
      && forall k :: 0 <= k < |entries| ==>
           && members[k].before == [] && members[k].mid == [] && members[k].gap == [] && members[k].after == []
           && UnitsOf(members[k].key) == entries[k].key && AllPlainly(members[k].key)
           && Prints(entries[k].value, members[k].doc)
    case _ => false
  }

  // ------------------------------------------------------------------------ the doc

  ghost function SpelledOf(t: Text): seq<Spelled> {
    seq(|t|, k requires 0 <= k < |t| => Spelled(t[k], PrintChar(t[k])))
  }

  ghost function PartsOf(unscaled: int, scale: int): Parts {
    if scale == 0 then IntegerParts(unscaled) else DecimalParts(unscaled, scale)
  }

  ghost function DocOf(v: Json): Doc {
    match v
    case Null => NullDoc
    case Bool(b) => BoolDoc(b)
    case Integer(n) => NumberDoc(IntegerParts(n))
    case Decimal(unscaled, scale) => NumberDoc(PartsOf(unscaled, scale))
    case Str(t) => StringDoc(SpelledOf(t))
    case List(items) =>
      ListDoc([], seq(|items|, k requires 0 <= k < |items| => Item([], DocOf(items[k]), [])))
    case Object(entries) =>
      ObjectDoc([], seq(|entries|, k requires 0 <= k < |entries| =>
        Member([], SpelledOf(entries[k].key), [], [], DocOf(entries[k].value), [])))
  }

  // ------------------------------------------------------------------------ strings

  lemma PrintedPlainly(c: Unit)
    ensures Plainly(Spelled(c, PrintChar(c)))
  {
    if c < 0x20 && Letter(c).None? {
      var t := PrintChar(c);
      assert t[2..] == [ZERO, ZERO, HexUnit(c / 16), HexUnit(c % 16)];
    }
  }

  lemma StringPlainly(t: Text)
    ensures AllPlainly(SpelledOf(t)) && UnitsOf(SpelledOf(t)) == t
  {
    hide Plainly, PrintChar;
    forall k | 0 <= k < |t| ensures Plainly(SpelledOf(t)[k]) {
      PrintedPlainly(t[k]);
    }
  }

  lemma {:induction false} CharsAre(t: Text)
    ensures CharsText(SpelledOf(t)) == PrintChars(t)
  {
    hide PrintChar;
    if t != [] {
      CharsAre(t[1..]);
      assert SpelledOf(t)[1..] == SpelledOf(t[1..]);
    }
  }

  lemma QuotedIs(t: Text)
    ensures QuotedText(SpelledOf(t)) == PrintString(t)
  {
    CharsAre(t);
  }

  // ------------------------------------------------------------------------ numbers

  lemma {:induction false} DigitsLead(n: nat)
    ensures var t := Digits(n);
            (forall k :: 0 <= k < |t| ==> 0x30 <= t[k] <= 0x39) && (n > 0 ==> t[0] != 0x30) && (n < 10 ==> |t| == 1)
  {
    if n >= 10 {
      DigitsLead(n / 10);
    }
  }

  lemma DigitsAreNumeral(n: nat)
    ensures Numeral(Digits(n), n)
  {
    hide Digits, ValueOf;
    DigitsLead(n);
    DigitsMeanTheirNumber(n);
    ValueOfIs(Digits(n));
  }

  lemma {:induction false} ZerosAre(k: nat)
    ensures forall j :: 0 <= j < k ==> Zeros(k)[j] == 0x30
  {
    if k > 0 {
      ZerosAre(k - 1);
    }
  }

  lemma IntegerIsWhole(n: int)
    ensures WholeNumber(IntegerParts(n), n)
  {
    hide Numeral;
    DigitsAreNumeral(Magnitude(n));
  }

  lemma DecimalIsNumber(unscaled: int, scale: int)
    ensures DecimalNumber(PartsOf(unscaled, scale), unscaled, scale)
  {
    hide Numeral, Digits, Zeros;
    if scale == 0 {
      IntegerIsWhole(unscaled);
    } else {
      var d := Digits(Magnitude(unscaled));
      var e := AdjustedExponent(unscaled, scale);
      DigitsAreNumeral(Magnitude(unscaled));
      DigitsAreNumeral(Magnitude(e));
      if scale > 0 && e >= -6 && scale >= |d| {
        ZerosAre(scale - |d|);
        assert Pointed(PartsOf(unscaled, scale), d, scale);
      }
    }
  }

  lemma NumberText(unscaled: int, scale: int)
    ensures TextOf(PartsOf(unscaled, scale)) == PrintDecimal(unscaled, scale)
  {
    if scale == 0 {
      IntegerHasParts(unscaled);
    } else {
      DecimalHasParts(unscaled, scale);
    }
  }

  // ------------------------------------------------------------------------- values

  lemma {:induction false} ItemsAre(docs: seq<Item>, items: seq<Json>)
    requires |docs| == |items|
    requires forall k :: 0 <= k < |items| ==> docs[k].before == [] && docs[k].after == []
                                              && DocText(docs[k].doc) == Print(items[k])
    ensures ItemsText(docs) == PrintItems(items)
  {
    hide DocText, Print;
    if items != [] {
      ItemsAre(docs[1..], items[1..]);
      assert ItemText(docs[0]) == Print(items[0]);
    }
  }

  lemma {:induction false} MembersAre(members: seq<Member>, entries: seq<Entry>)
    requires |members| == |entries|
    requires forall k :: 0 <= k < |entries| ==> MemberText(members[k]) == PrintEntry(entries[k])
    ensures MembersText(members) == PrintEntries(entries)
  {
    hide MemberText, PrintEntry;
    if entries != [] {
      MembersAre(members[1..], entries[1..]);
    }
  }

  lemma {:induction false} PrintedDoc(v: Json)
    ensures Prints(v, DocOf(v)) && DocText(DocOf(v)) == Print(v)
  {
    hide WholeNumber, DecimalNumber, AllPlainly, UnitsOf, SpelledOf, PartsOf, IntegerParts, TextOf, QuotedText,
      PrintString, PrintInteger, PrintDecimal;
    match v
    case Integer(n) => IntegerIsWhole(n); IntegerHasParts(n);
    case Decimal(unscaled, scale) => DecimalIsNumber(unscaled, scale); NumberText(unscaled, scale);
    case Str(t) => StringPlainly(t); QuotedIs(t);
    case List(items) =>
      forall k | 0 <= k < |items|
        ensures Prints(items[k], DocOf(items[k])) && DocText(DocOf(items[k])) == Print(items[k])
      {
        PrintedDoc(items[k]);
      }
      ItemsAre(DocOf(v).items, items);
    case Object(entries) =>
      var members := DocOf(v).members;
      forall k | 0 <= k < |entries|
        ensures Prints(entries[k].value, members[k].doc) && MemberText(members[k]) == PrintEntry(entries[k])
        ensures UnitsOf(members[k].key) == entries[k].key && AllPlainly(members[k].key)
      {
        PrintedDoc(entries[k].value);
        StringPlainly(entries[k].key);
        QuotedIs(entries[k].key);
      }
      MembersAre(members, entries);
    case _ =>
  }

  // ---------------------------------------------------------------- there is one way

  lemma HexesOnce(a: Text, b: Text, c: Unit)
    requires Hexes(a, c) && Hexes(b, c) && LowerHexes(a) && LowerHexes(b)
    ensures a == b
  {
    forall k | 0 <= k < 4 ensures HexDigit(a[k]) == LowerHex(a[k]) && HexDigit(b[k]) == LowerHex(b[k]) {
    }
    var p, q := LowerHex(a[0]), LowerHex(b[0]);
    FourEqual(LowerHex(a[0]), LowerHex(a[1]), LowerHex(a[2]), LowerHex(a[3]),
              LowerHex(b[0]), LowerHex(b[1]), LowerHex(b[2]), LowerHex(b[3]));
  }

  function LowerHex(c: Unit): int { if c < 0x61 then c - 0x30 else c - 0x61 + 10 }

  lemma FourEqual(a: int, b: int, c: int, d: int, p: int, q: int, r: int, t: int)
    requires 0 <= a < 16 && 0 <= b < 16 && 0 <= c < 16 && 0 <= d < 16
    requires 0 <= p < 16 && 0 <= q < 16 && 0 <= r < 16 && 0 <= t < 16
    requires ((a * 16 + b) * 16 + c) * 16 + d == ((p * 16 + q) * 16 + r) * 16 + t
    ensures a == p && b == q && c == r && d == t
  {
  }

  lemma PlainlyOnce(x: Spelled, y: Spelled)
    requires Plainly(x) && Plainly(y) && x.unit == y.unit
    ensures x.text == y.text
  {
    hide Hexes, LowerHexes;
    if |x.text| == 6 {
      HexesOnce(x.text[2..], y.text[2..], x.unit);
      assert x.text == x.text[..2] + x.text[2..] && y.text == y.text[..2] + y.text[2..];
    }
  }

  lemma {:induction false} CharsOnce(a: seq<Spelled>, b: seq<Spelled>)
    requires AllPlainly(a) && AllPlainly(b) && UnitsOf(a) == UnitsOf(b)
    ensures CharsText(a) == CharsText(b)
  {
    hide Plainly;
    assert |a| == |UnitsOf(a)| == |b|;
    if a != [] {
      assert UnitsOf(a)[0] == a[0].unit && UnitsOf(b)[0] == b[0].unit;
      assert UnitsOf(a[1..]) == UnitsOf(a)[1..] == UnitsOf(b)[1..] == UnitsOf(b[1..]);
      CharsOnce(a[1..], b[1..]);
      PlainlyOnce(a[0], b[0]);
    }
  }

  lemma {:induction false} NumeralIsDigits(t: Text, n: nat)
    requires Numeral(t, n)
    ensures t == Digits(n)
  {
    ValueOfLast(t);
    var front, last := t[..|t| - 1], t[|t| - 1];
    assert DigitOf(last) == last - 0x30;
    if front == [] {
      assert t == [last];
    } else {
      assert front[0] == t[0];
      assert Numeral(front, ValueOf(front));
      NumeralIsDigits(front, ValueOf(front));
      DigitsLead(ValueOf(front));
      assert ValueOf(front) > 0;
      assert n / 10 == ValueOf(front) && n % 10 == last - 0x30;
      assert t == front + [last];
    }
  }

  lemma WholeOnce(p: Parts, n: int)
    requires WholeNumber(p, n)
    ensures TextOf(p) == TextOf(IntegerParts(n))
  {
    hide Numeral, Digits;
    NumeralIsDigits(p.whole, Magnitude(n));
  }

  lemma NumberOnce(p: Parts, unscaled: int, scale: int)
    requires DecimalNumber(p, unscaled, scale)
    ensures TextOf(p) == TextOf(PartsOf(unscaled, scale))
  {
    hide Numeral, Digits, Zeros, TextOf, Pointed, Scientific, DecimalParts;
    if scale == 0 {
      WholeOnce(p, unscaled);
    } else {
      var digits :| Numeral(digits, Magnitude(unscaled))
                    && var e := |digits| - 1 - scale;
                       if scale > 0 && e >= -6 then Pointed(p, digits, scale) else Scientific(p, digits, e);
      NumeralIsDigits(digits, Magnitude(unscaled));
      if scale > 0 && AdjustedExponent(unscaled, scale) >= -6 {
        PointedText(p, unscaled, scale);
      } else {
        ScientificText(p, unscaled, scale);
      }
    }
  }

  lemma PointedText(p: Parts, unscaled: int, scale: int)
    requires (p.negative <==> unscaled < 0) && scale > 0 && AdjustedExponent(unscaled, scale) >= -6
    requires Pointed(p, Digits(Magnitude(unscaled)), scale)
    ensures TextOf(p) == TextOf(DecimalParts(unscaled, scale))
  {
    hide Numeral, Digits, Zeros, TextOf;
    PointedOnce(p, Digits(Magnitude(unscaled)), scale);
    SameText(p, DecimalParts(unscaled, scale));
  }

  lemma ScientificText(p: Parts, unscaled: int, scale: int)
    requires (p.negative <==> unscaled < 0) && !(scale > 0 && AdjustedExponent(unscaled, scale) >= -6)
    requires Scientific(p, Digits(Magnitude(unscaled)), AdjustedExponent(unscaled, scale))
    ensures TextOf(p) == TextOf(DecimalParts(unscaled, scale))
  {
    hide Numeral, Digits, Zeros, TextOf;
    var e := AdjustedExponent(unscaled, scale);
    ScientificOnce(p, Digits(Magnitude(unscaled)), e);
    PrintedExponentIs(e);
    SameText(p, DecimalParts(unscaled, scale));
  }

  lemma SameText(p: Parts, q: Parts)
    requires p.negative == q.negative && p.whole == q.whole && FractionText(p) == FractionText(q)
    requires ExponentText(p) == ExponentText(q)
    ensures TextOf(p) == TextOf(q)
  {
  }

  lemma PointedOnce(p: Parts, digits: Text, scale: nat)
    requires Pointed(p, digits, scale)
    ensures if scale >= |digits| then p.whole == [ZERO] && p.fraction == Zeros(scale - |digits|) + digits
            else p.whole == digits[..|digits| - scale] && p.fraction == digits[|digits| - scale..]
  {
    if scale >= |digits| {
      var zeros :| p.fraction == zeros + digits && forall k :: 0 <= k < |zeros| ==> zeros[k] == 0x30;
      ZerosAre(scale - |digits|);
      assert zeros == Zeros(scale - |digits|);
    }
  }

  lemma ScientificOnce(p: Parts, digits: Text, e: int)
    requires Scientific(p, digits, e)
    ensures p.whole == digits[..1] && p.fraction == digits[1..] && ExponentText(p) == PrintExponent(e)
  {
    hide Numeral, Digits;
    NumeralIsDigits(p.exponent.value.digits, Magnitude(e));
  }

  lemma {:induction false} ItemTextsOnce(a: seq<Item>, b: seq<Item>)
    requires |a| == |b| && forall k :: 0 <= k < |a| ==> ItemText(a[k]) == ItemText(b[k])
    ensures ItemsText(a) == ItemsText(b)
  {
    hide ItemText;
    if a != [] {
      ItemTextsOnce(a[1..], b[1..]);
    }
  }

  lemma {:induction false} MemberTextsOnce(a: seq<Member>, b: seq<Member>)
    requires |a| == |b| && forall k :: 0 <= k < |a| ==> MemberText(a[k]) == MemberText(b[k])
    ensures MembersText(a) == MembersText(b)
  {
    hide MemberText;
    if a != [] {
      MemberTextsOnce(a[1..], b[1..]);
    }
  }

  lemma {:induction false} PrintsOnce(v: Json, d: Doc)
    requires Prints(v, d)
    ensures DocText(d) == DocText(DocOf(v))
  {
    hide WholeNumber, DecimalNumber, AllPlainly, UnitsOf, SpelledOf, PartsOf, IntegerParts, TextOf;
    match v
    case Integer(n) => WholeOnce(d.parts, n);
    case Decimal(unscaled, scale) => NumberOnce(d.parts, unscaled, scale);
    case Str(t) => StringPlainly(t); CharsOnce(d.chars, SpelledOf(t));
    case List(items) =>
      var docs := DocOf(v).items;
      forall k | 0 <= k < |items| ensures ItemText(d.items[k]) == ItemText(docs[k]) {
        PrintsOnce(items[k], d.items[k].doc);
      }
      ItemTextsOnce(d.items, docs);
    case Object(entries) =>
      var members := DocOf(v).members;
      forall k | 0 <= k < |entries| ensures MemberText(d.members[k]) == MemberText(members[k]) {
        PrintsOnce(entries[k].value, d.members[k].doc);
        StringPlainly(entries[k].key);
        CharsOnce(d.members[k].key, members[k].key);
      }
      MemberTextsOnce(d.members, members);
    case _ =>
  }

  /** A text is printed for a value exactly when it is the one way to write the value down like
      this. */
  lemma PrintIff(v: Json, t: Text)
    ensures t == Print(v) <==> exists d :: Prints(v, d) && DocText(d) == t
  {
    hide Prints, Print, DocText;
    PrintedDoc(v);
    if d :| Prints(v, d) && DocText(d) == t {
      PrintsOnce(v, d);
    }
  }
}
