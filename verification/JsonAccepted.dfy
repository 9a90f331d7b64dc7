/** The parser accepts nothing but what `JsonWriting` writes: from every accepted text the way it
    was written can be told. */
module JsonAccepted {
  import opened Options
  import opened Units
  import opened JsonCodec
  import opened JsonNumbers
  import opened JsonWriting

  lemma AtSelf(s: Text, i: nat, j: nat)
    requires i <= j <= |s|
    ensures At(s, i, s[i..j])
  {
  }

  lemma AtJoin(s: Text, i: nat, p: Text, q: Text)
    requires At(s, i, p) && At(s, i + |p|, q)
    ensures At(s, i, p + q)
  {
    assert s[i..i + |p + q|] == s[i..i + |p|] + s[i + |p|..i + |p| + |q|];
  }

  lemma AtUnit(s: Text, i: nat)
    requires i < |s|
    ensures At(s, i, [s[i]])
  {
    assert s[i..i + 1] == [s[i]];
  }

  /** What was skipped is blank. */
  lemma {:induction false} SkippedIsBlank(s: Text, i: nat)
    requires i <= |s|
    ensures Blank(s[i..SkipWhitespace(s, i)])
    decreases |s| - i
  {
    hide IsWhitespace;
    if i < |s| && IsWhitespace(s[i]) {
      SkippedIsBlank(s, i + 1);
      BlankIff(s[i]);
      var j := SkipWhitespace(s, i);
      assert s[i..j] == [s[i]] + s[i + 1..j];
    }
  }

  lemma {:induction false} SkippedAreDigits(s: Text, i: nat)
    requires i <= |s|
    ensures AllDigits(s[i..SkipDigits(s, i)])
    decreases |s| - i
  {
    hide IsDigit;
    if i < |s| && IsDigit(s[i]) {
      SkippedAreDigits(s, i + 1);
      var j := SkipDigits(s, i);
      assert s[i..j] == [s[i]] + s[i + 1..j];
    }
  }

  // ------------------------------------------------------------------------ strings

  lemma {:induction false} CharsAccepted(s: Text, i: nat, acc: Text) returns (cs: seq<Spelled>)
    requires i <= |s| && ParseChars(s, i, acc).Ok?
    ensures AllSpell(cs) && At(s, i, CharsText(cs) + [QUOTE])
    ensures ParseChars(s, i, acc) == Ok(acc + UnitsOf(cs), i + |CharsText(cs)| + 1)
    decreases |s| - i
  {
    hide ParseChars, At, Spells;
    if s[i] == QUOTE {
      cs := [];
      AtUnit(s, i);
      QuoteEnds(s, i, acc);
      assert CharsText(cs) + [QUOTE] == [QUOTE] && acc + UnitsOf(cs) == acc;
    } else {
      var x := CharAccepted(s, i, acc);
      var rest := CharsAccepted(s, i + |x.text|, acc + [x.unit]);
      cs := [x] + rest;
      assert cs[1..] == rest;
      AtJoin(s, i, x.text, CharsText(rest) + [QUOTE]);
      assert CharsText(cs) + [QUOTE] == x.text + (CharsText(rest) + [QUOTE]);
      assert acc + [x.unit] + UnitsOf(rest) == acc + UnitsOf(cs);
    }
  }

  lemma CharAccepted(s: Text, i: nat, acc: Text) returns (x: Spelled)
    requires i < |s| && s[i] != QUOTE && ParseChars(s, i, acc).Ok?
    ensures Spells(x) && At(s, i, x.text) && x.text != []
    ensures ParseChars(s, i, acc) == ParseChars(s, i + |x.text|, acc + [x.unit])
  {
    hide HexValue, Unescape, Hexes;
    if s[i] != BACKSLASH {
      x := Spelled(s[i], [s[i]]);
      AtUnit(s, i);
    } else if s[i + 1] == LOWER_U {
      var c := ParseUnicode(s, i + 2).value;
      x := Spelled(c, s[i..i + 6]);
      assert x.text[2..] == s[i + 2..i + 6];
      HexesAreRead(x.text[2..], c);
    } else {
      var c := Unescape(s[i + 1]).value;
      x := Spelled(c, s[i..i + 2]);
      LetterIff(c, s[i + 1]);
      assert x.text == [BACKSLASH, s[i + 1]];
    }
  }

  lemma StringAccepted(s: Text, i: nat) returns (cs: seq<Spelled>)
    requires i <= |s| && ParseString(s, i).Ok?
    ensures AllSpell(cs) && At(s, i, QuotedText(cs))
    ensures ParseString(s, i) == Ok(UnitsOf(cs), i + |QuotedText(cs)|)
  {
    hide ParseChars, Spells, At;
    cs := CharsAccepted(s, i + 1, []);
    AtUnit(s, i);
    AtJoin(s, i, [QUOTE], CharsText(cs) + [QUOTE]);
    assert QuotedText(cs) == [QUOTE] + (CharsText(cs) + [QUOTE]);
    assert [] + UnitsOf(cs) == UnitsOf(cs);
  }

  // ------------------------------------------------------------------------ numbers

  lemma ThreePieces(s: Text, c: nat, d: nat, end: nat)
    requires c < d <= end <= |s| && d <= c + 2
    ensures s[c..end] == [s[c]] + ((if d == c + 2 then [s[c + 1]] else []) + s[d..end])
  {
  }

  lemma ExponentAccepted(s: Text, c: nat) returns (x: Option<Exponent>)
    requires c <= |s|
    ensures x.Some? ==> ExponentOk(x.value)
    ensures s[c..AfterExponent(s, c)] == if x.Some? then [x.value.letter] + (x.value.sign + x.value.digits) else []
  {
    hide SkipDigits, IsDigit, AllDigits;
    if Peek(s, c, LOWER_E) || Peek(s, c, UPPER_E) {
      var signed := Peek(s, c + 1, PLUS) || Peek(s, c + 1, MINUS);
      var d := if signed then c + 2 else c + 1;
      SkippedAreDigits(s, d);
      ThreePieces(s, c, d, SkipDigits(s, d));
      x := Some(Exponent(s[c], if signed then [s[c + 1]] else [], s[d..SkipDigits(s, d)]));
    } else {
      x := None;
    }
  }

  lemma FractionAccepted(s: Text, b: nat) returns (pointed: bool, fraction: Text)
    requires b <= |s|
    ensures AllDigits(fraction) && (!pointed ==> fraction == [])
    ensures s[b..AfterFraction(s, b)] == if pointed then [POINT] + fraction else []
  {
    hide SkipDigits, IsDigit, AllDigits;
    NoDigitsAtAll([]);
    pointed, fraction := Peek(s, b, POINT), [];
    if pointed {
      SkippedAreDigits(s, b + 1);
      fraction := s[b + 1..SkipDigits(s, b + 1)];
      assert s[b..AfterFraction(s, b)] == [s[b]] + fraction;
    }
  }

  lemma FourPieces(s: Text, i: nat, a: nat, b: nat, c: nat, end: nat)
    requires i <= a <= b <= c <= end <= |s|
    ensures s[i..end] == s[i..a] + (s[a..b] + (s[b..c] + s[c..end]))
  {
  }

  /** Whatever the scanner cuts out is written in parts. */
  lemma ScannedHasParts(s: Text, i: nat) returns (p: Parts)
    requires i <= |s|
    ensures WellFormed(p) && TextOf(p) == s[i..NumberEnd(s, i)]
  {
    hide SkipDigits, AfterExponent, AfterFraction, IsDigit, AllDigits;
    var a := AfterMinus(s, i);
    var b := SkipDigits(s, a);
    var c := AfterFraction(s, b);
    SkippedAreDigits(s, a);
    var pointed, fraction := FractionAccepted(s, b);
    var x := ExponentAccepted(s, c);
    p := Parts(a > i, s[a..b], pointed, fraction, x);
    assert SignText(p) == s[i..a] by { assert a > i ==> s[i..a] == [s[i]]; }
    FourPieces(s, i, a, b, c, AfterExponent(s, c));
  }

  lemma NoDigitsAtAll(t: Text)
    ensures t == [] ==> AllDigits(t)
  {
  }

  lemma NumberAccepted(s: Text, i: nat) returns (p: Parts)
    requires i <= |s| && ParseNumber(s, i).Ok?
    ensures WellFormed(p) && Meaning(p).Some? && At(s, i, TextOf(p))
    ensures ParseNumber(s, i) == Ok(Meaning(p).value, i + |TextOf(p)|)
  {
    hide NumberEnd, ReadNumber, TextOf, WellFormed, Meaning;
    p := ScannedHasParts(s, i);
    PartsAreRead(p);
    AtSelf(s, i, NumberEnd(s, i));
  }

  // ---------------------------------------------------------------------- documents

  lemma LiteralAccepted(s: Text, i: nat, literal: Text, v: Json)
    requires i <= |s| && |literal| > 0 && ParseLiteral(s, i, literal, v).Ok?
    ensures At(s, i, literal) && ParseLiteral(s, i, literal, v) == Ok(v, i + |literal|)
  {
    assert s[i..i + |literal|] == s[i..][..|literal|];
  }

  /** An accepted value is written in some way, with some white space before it. */
  lemma {:induction false} ValueAccepted(s: Text, i: nat) returns (before: Text, d: Doc)
    requires i <= |s| && ParseValue(s, i).Ok?
    ensures Blank(before) && DocOk(d) && At(s, i, before + DocText(d))
    ensures ParseValue(s, i) == Ok(ValueMeant(d), i + |before| + |DocText(d)|)
    decreases |s| - i, 2
  {
    hide ParseString, ParseNumber, ParseLiteral, ParseArray, ParseObjectValue, SkipWhitespace, Blank, WellFormed,
      Meaning, TextOf, At;
    var k := SkipWhitespace(s, i);
    SkippedIsBlank(s, i);
    before := s[i..k];
    AtSelf(s, i, k);
    if s[k] == LBRACE {
      d := ObjectAccepted(s, k);
    } else if s[k] == LBRACKET {
      d := ListAccepted(s, k);
    } else if s[k] == QUOTE {
      var cs := StringAccepted(s, k);
      d := StringDoc(cs);
    } else if s[k] == LOWER_T {
      LiteralAccepted(s, k, TRUE_TEXT, Bool(true));
      d := BoolDoc(true);
    } else if s[k] == LOWER_F {
      LiteralAccepted(s, k, FALSE_TEXT, Bool(false));
      d := BoolDoc(false);
    } else if s[k] == LOWER_N {
      LiteralAccepted(s, k, NULL_TEXT, Null);
      d := NullDoc;
    } else {
      var p := NumberAccepted(s, k);
      d := NumberDoc(p);
    }
    AtJoin(s, i, before, DocText(d));
  }

  lemma {:induction false} ListAccepted(s: Text, i: nat) returns (d: Doc)
    requires i < |s| && s[i] == LBRACKET && ParseArray(s, i).Ok?
    ensures DocOk(d) && At(s, i, DocText(d)) && ParseArray(s, i) == Ok(ValueMeant(d), i + |DocText(d)|)
    decreases |s| - i, 1
  {
    hide ParseItems, SkipWhitespace, Blank, At, ItemsText;
    var k := SkipWhitespace(s, i + 1);
    var inside: Text;
    AtUnit(s, i);
    if Peek(s, k, RBRACKET) {
      inside := s[i + 1..k];
      SkippedIsBlank(s, i + 1);
      AtSelf(s, i + 1, k);
      AtUnit(s, k);
      AtJoin(s, i + 1, inside, [RBRACKET]);
      d := ListDoc(inside, []);
      assert ValueMeant(d) == List([]);
    } else {
      SkipFirst(s, i + 1, [], []);
      var items := ItemsAccepted(s, i + 1, []);
      inside := ItemsText(items);
      d := ListDoc([], items);
      NothingIsBlank();
      assert [] + ItemsMeant(items) == ValueMeant(d).items;
    }
    AtJoin(s, i, [LBRACKET], inside + [RBRACKET]);
    assert DocText(d) == [LBRACKET] + (inside + [RBRACKET]);
  }

  lemma NothingIsBlank()
    ensures Blank([])
  {
  }

  ghost predicate ItemOk(x: Item) { Blank(x.before) && DocOk(x.doc) && Blank(x.after) }

  ghost function ItemsMeant(items: seq<Item>): seq<Json>
    requires forall k :: 0 <= k < |items| ==> ItemOk(items[k])
  {
    seq(|items|, k requires 0 <= k < |items| =>
      assert ItemOk(items[k]);
      ValueMeant(items[k].doc))
  }

  lemma {:induction false} ItemsAccepted(s: Text, i: nat, acc: seq<Json>) returns (items: seq<Item>)
    requires i <= |s| && ParseItems(s, i, acc).Ok?
    ensures items != [] && forall k :: 0 <= k < |items| ==> ItemOk(items[k])
    ensures At(s, i, ItemsText(items) + [RBRACKET])
    ensures ParseItems(s, i, acc) == Ok(List(acc + ItemsMeant(items)), i + |ItemsText(items)| + 1)
    decreases |s| - i, 3
  {
    hide ParseValue, SkipWhitespace, Blank, At, DocText, DocOk, ItemsText;
    var before, d := ValueAccepted(s, i);
    var r := ParseValue(s, i);
    var e := SkipWhitespace(s, r.next);
    var x := Item(before, d, s[r.next..e]);
    SkippedIsBlank(s, r.next);
    AtSelf(s, r.next, e);
    AtUnit(s, e);
    if Peek(s, e, RBRACKET) {
      items := [x];
      assert ItemsMeant(items) == [r.value];
      AtJoin(s, r.next, x.after, [RBRACKET]);
      AtJoin(s, i, before + DocText(d), x.after + [RBRACKET]);
      assert items[1..] == [];
    } else {
      var rest := ItemsAccepted(s, e + 1, acc + [r.value]);
      items := [x] + rest;
      assert items[1..] == rest;
      assert acc + [r.value] + ItemsMeant(rest) == acc + ItemsMeant(items);
      AtJoin(s, e, [COMMA], ItemsText(rest) + [RBRACKET]);
      AtJoin(s, r.next, x.after, [COMMA] + (ItemsText(rest) + [RBRACKET]));
      AtJoin(s, i, before + DocText(d), x.after + ([COMMA] + (ItemsText(rest) + [RBRACKET])));
    }
    ItemsTextIs(items);
  }

  lemma NoMembersAccepted(s: Text, i: nat) returns (d: Doc)
    requires i < |s| && s[i] == LBRACE && Peek(s, SkipWhitespace(s, i + 1), RBRACE)
    ensures DocOk(d) && At(s, i, DocText(d)) && ParseObjectValue(s, i) == Ok(ValueMeant(d), i + |DocText(d)|)
  {
    hide ParseEntries, SkipWhitespace, Blank, At, MembersText, Collapse, ValueMeant;
    var k := SkipWhitespace(s, i + 1);
    var inside := s[i + 1..k];
    SkippedIsBlank(s, i + 1);
    AtUnit(s, i);
    AtSelf(s, i + 1, k);
    AtUnit(s, k);
    AtJoin(s, i + 1, inside, [RBRACE]);
    AtJoin(s, i, [LBRACE], inside + [RBRACE]);
    d := ObjectDoc(inside, []);
    NothingCollapses();
    ObjectMeans(d);
    assert EntriesMeant(d) == [];
    assert DocText(d) == [LBRACE] + (inside + [RBRACE]);
  }

  lemma {:induction false} ObjectAccepted(s: Text, i: nat) returns (d: Doc)
    requires i < |s| && s[i] == LBRACE && ParseObjectValue(s, i).Ok?
    ensures DocOk(d) && At(s, i, DocText(d)) && ParseObjectValue(s, i) == Ok(ValueMeant(d), i + |DocText(d)|)
    decreases |s| - i, 1
  {
    hide ParseEntries, SkipWhitespace, Blank, At, MembersText, Collapse, ValueMeant;
    if Peek(s, SkipWhitespace(s, i + 1), RBRACE) {
      d := NoMembersAccepted(s, i);
    } else {
      NothingCollapses();
      SkipFirst(s, i + 1, [], []);
      var members := MembersAccepted(s, i + 1, []);
      d := ObjectDoc([], members);
      MembersMeant(members);
      AtUnit(s, i);
      AtJoin(s, i, [LBRACE], MembersText(members) + [RBRACE]);
      assert DocText(d) == [LBRACE] + (MembersText(members) + [RBRACE]);
    }
  }

  lemma MembersMeant(members: seq<Member>)
    requires members != [] && forall k :: 0 <= k < |members| ==> MemberOk(members[k])
    ensures var d := ObjectDoc([], members);
            DocOk(d) && ValueMeant(d) == Object(Collapse([] + PairsMeant(members)))
  {
    hide Blank, Collapse, ValueMeant;
    var d := ObjectDoc([], members);
    NothingIsBlank();
    assert forall k :: 0 <= k < |members| ==> MemberOk(members[k]);
    ObjectMeans(d);
    assert [] + PairsMeant(members) == EntriesMeant(d);
  }

  ghost predicate MemberOk(m: Member) {
    Blank(m.before) && AllSpell(m.key) && Blank(m.mid) && Blank(m.gap) && DocOk(m.doc) && Blank(m.after)
  }

  ghost function PairsMeant(members: seq<Member>): seq<Entry>
    requires forall k :: 0 <= k < |members| ==> MemberOk(members[k])
  {
    seq(|members|, k requires 0 <= k < |members| =>
      assert MemberOk(members[k]);
      Entry(UnitsOf(members[k].key), ValueMeant(members[k].doc)))
  }

  lemma {:induction false} MemberAccepted(s: Text, i: nat) returns (m: Member)
    requires i <= |s| && ParseEntry(s, i).Ok?
    ensures MemberOk(m) && m.after == [] && At(s, i, MemberHead(m))
    ensures ParseEntry(s, i) == Ok(Entry(UnitsOf(m.key), ValueMeant(m.doc)), i + |MemberHead(m)|)
    decreases |s| - i, 3
  {
    hide ParseString, ParseValue, SkipWhitespace, Blank, At, DocText, DocOk, QuotedText, AllSpell, ValueMeant;
    var k := SkipWhitespace(s, i);
    var key := ParseString(s, k);
    var c := SkipWhitespace(s, key.next);
    var cs := StringAccepted(s, k);
    var gap, d := ValueAccepted(s, c + 1);
    SkippedIsBlank(s, i);
    SkippedIsBlank(s, key.next);
    NothingIsBlank();
    m := Member(s[i..k], cs, s[key.next..c], gap, d, []);
    AtSelf(s, i, k);
    AtSelf(s, key.next, c);
    AtUnit(s, c);
    AtJoin(s, c, [COLON], gap + DocText(d));
    AtJoin(s, key.next, m.mid, [COLON] + (gap + DocText(d)));
    AtJoin(s, k, QuotedText(cs), m.mid + ([COLON] + (gap + DocText(d))));
    AtJoin(s, i, m.before, QuotedText(cs) + (m.mid + ([COLON] + (gap + DocText(d)))));
  }

  lemma {:induction false} MembersAccepted(s: Text, i: nat, raw: seq<Entry>) returns (members: seq<Member>)
    requires i <= |s| && ParseEntries(s, i, Collapse(raw)).Ok?
    ensures members != [] && forall k :: 0 <= k < |members| ==> MemberOk(members[k])
    ensures At(s, i, MembersText(members) + [RBRACE])
    ensures ParseEntries(s, i, Collapse(raw))
            == Ok(Object(Collapse(raw + PairsMeant(members))), i + |MembersText(members)| + 1)
    decreases |s| - i, 4
  {
    hide ParseEntry, ParseEntries, SkipWhitespace, Blank, At, DocOk, MembersText, MemberHead, Collapse, Put, AllSpell,
      ValueMeant;
    EntriesGoOn(s, i, Collapse(raw));
    var m0 := MemberAccepted(s, i);
    var r := ParseEntry(s, i);
    var e := SkipWhitespace(s, r.next);
    var m := m0.(after := s[r.next..e]);
    SkippedIsBlank(s, r.next);
    AtSelf(s, r.next, e);
    AtUnit(s, e);
    SameHead(m0, m);
    PutCollapses(raw, r.value);
    EntryGoesOn(s, i, Collapse(raw), r.value, r.next, e);
    if Peek(s, e, RBRACE) {
      members := [m];
      assert PairsMeant(members) == [r.value];
      AtJoin(s, r.next, m.after, [RBRACE]);
      AtJoin(s, i, MemberHead(m), m.after + [RBRACE]);
      assert members[1..] == [];
    } else {
      var rest := MembersAccepted(s, e + 1, raw + [r.value]);
      members := [m] + rest;
      assert members[1..] == rest;
      assert raw + [r.value] + PairsMeant(rest) == raw + PairsMeant(members);
      AtJoin(s, e, [COMMA], MembersText(rest) + [RBRACE]);
      AtJoin(s, r.next, m.after, [COMMA] + (MembersText(rest) + [RBRACE]));
      AtJoin(s, i, MemberHead(m), m.after + ([COMMA] + (MembersText(rest) + [RBRACE])));
    }
    MembersTextIs(members);
  }

  /** Behind an accepted pair stands the end or a comma. */
  lemma EntriesGoOn(s: Text, i: nat, acc: seq<Entry>)
    requires i <= |s| && ParseEntries(s, i, acc).Ok?
    ensures ParseEntry(s, i).Ok?
    ensures var e := SkipWhitespace(s, ParseEntry(s, i).next); Peek(s, e, RBRACE) || Peek(s, e, COMMA)
  {
    hide ParseEntry, SkipWhitespace, Put;
  }

  lemma SameHead(m: Member, n: Member)
    requires n == m.(after := n.after)
    ensures MemberHead(n) == MemberHead(m)
  {
  }

  /** A text is accepted exactly when it is written in one of these ways, and is then read as what
      is meant. */
  lemma ParseIff(s: Text, v: Json)
    ensures Parse(s) == Ok(v, |s|)
            <==> exists before, d, after ::
                   && Blank(before) && DocOk(d) && Blank(after)
                   && s == before + DocText(d) + after && ValueMeant(d) == v
  {
    hide ParseValue, SkipWhitespace, Blank, DocText, DocOk, ValueMeant, At;
    if Parse(s) == Ok(v, |s|) {
      var k := SkipWhitespace(s, 0);
      SkipTwice(s, 0);
      var before, d := ValueAccepted(s, 0);
      var r := ParseValue(s, 0);
      SkippedIsBlank(s, r.next);
      var after := s[r.next..|s|];
      assert s == before + DocText(d) + after by { WholeIs(s, before + DocText(d), r.next); }
    }
    if before, d, after :| Blank(before) && DocOk(d) && Blank(after)
                           && s == before + DocText(d) + after && ValueMeant(d) == v {
      DocumentIsRead(before, d, after);
    }
  }

  lemma WholeIs(s: Text, t: Text, j: nat)
    requires At(s, 0, t) && j == |t|
    ensures s == t + s[j..|s|]
  {
  }
}
