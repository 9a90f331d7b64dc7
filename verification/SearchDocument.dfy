/** Cutting the JSON object out of a search page with a depth counter and two flags.

    The scanner knows nothing of JSON but braces, quotes and backslashes. It is proved to
    stop exactly where the parser stops, on every text in which the parser accepts an
    object, and on every printed object, even one with a number the parser rejects. */
module SearchDocument {
  import opened Options
  import opened Units
  import opened JsonCodec
  import opened JsonNumbers
  import opened JsonRoundTrip
  import opened JsonLocality

  /** `window.__DATA__` */
  const MARKER: Text := [119, 105, 110, 100, 111, 119, 46, 95, 95, 68, 65, 84, 65, 95, 95]

  datatype Document =
    | Found(value: Json)
    | MissingMarker
    | MissingObject
    | IncompleteObject
    | Rejected(kind: ErrorKind, at: nat)

  /** `String.indexOf(p, i)` */
  function IndexOf(s: Text, p: Text, i: nat): (r: Option<nat>)
    ensures r.Some? ==> i <= r.value && At(s, r.value, p)
    ensures r.Some? ==> forall k :: i <= k < r.value ==> !At(s, k, p)
    ensures r.None? ==> forall k :: i <= k ==> !At(s, k, p)
    decreases |s| - i
  {
    if i + |p| > |s| then None
    else if s[i..i + |p|] == p then Some(i)
    else IndexOf(s, p, i + 1)
  }

  /** The three variables of the scanning loop. */
  datatype Flags = Flags(depth: int, inString: bool, escaped: bool)

  function Outside(depth: int): Flags { Flags(depth, false, false) }

  function Inside(depth: int): Flags { Flags(depth, true, false) }

  /** One character that does not end the scan. */
  function Next(f: Flags, c: Unit): Flags {
    if f.inString then
      if f.escaped then f.(escaped := false)
      else if c == BACKSLASH then f.(escaped := true)
      else if c == QUOTE then f.(inString := false)
      else f
    else if c == QUOTE then f.(inString := true)
    else if c == LBRACE then f.(depth := f.depth + 1)
    else if c == RBRACE then f.(depth := f.depth - 1)
    else f
  }

  predicate Ends(f: Flags, c: Unit) { !f.inString && c == RBRACE && f.depth == 1 }

  /** The index of the brace that brings the depth to zero, scanning from `i` on. */
  function Scan(s: Text, i: nat, f: Flags): (r: Option<nat>)
    requires i <= |s|
    ensures r.Some? ==> i <= r.value < |s|
    decreases |s| - i
  {
    if i == |s| then None
    else if Ends(f, s[i]) then Some(i)
    else Scan(s, i + 1, Next(f, s[i]))
  }

  function ParseSearchDocument(html: Text): Document {
    match IndexOf(html, MARKER, 0)
    case None => MissingMarker
    case Some(marker) =>
      match IndexOf(html, [LBRACE], marker + |MARKER|)
      case None => MissingObject
      case Some(start) =>
        match Scan(html, start, Outside(0))
        case None => IncompleteObject
        case Some(end) =>
          match ParseObject(html[start..end + 1])
          case Fail(kind, at) => Rejected(kind, at)
          case Ok(v, _) => Found(v)
  }

  /** The marker first stands at `i`. */
  ghost predicate MarkedAt(html: Text, i: nat) {
    At(html, i, MARKER) && forall k: nat :: k < i ==> !At(html, k, MARKER)
  }

  ghost predicate Marked(html: Text) { exists i: nat :: MarkedAt(html, i) }

  /** Behind the first marker the first brace stands at `start`. */
  ghost predicate OpensAt(html: Text, start: nat) {
    && start < |html| && html[start] == LBRACE
    && exists i: nat :: MarkedAt(html, i) && i + |MARKER| <= start
                        && forall k :: i + |MARKER| <= k < start ==> html[k] != LBRACE
  }

  ghost predicate Opens(html: Text) { exists start: nat :: OpensAt(html, start) }

  /** The stretch from the first brace behind the marker to the one that brings the depth to
      zero. */
  ghost predicate Stretch(html: Text, piece: Text) {
    exists start: nat, end: nat ::
      OpensAt(html, start) && Scan(html, start, Outside(0)) == Some(end) && piece == html[start..end + 1]
  }

  lemma MarkerIs(html: Text)
    ensures match IndexOf(html, MARKER, 0) case None => !Marked(html) case Some(i) => MarkedAt(html, i)
  {
    hide At;
    var found := IndexOf(html, MARKER, 0);
    forall i: nat | MarkedAt(html, i) ensures found == Some(i) {
      assert At(html, i, MARKER);
    }
  }

  lemma MarkerUnique(html: Text, i: nat, j: nat)
    requires MarkedAt(html, i) && MarkedAt(html, j)
    ensures i == j
  {
    hide At;
  }

  lemma BraceAt(html: Text, k: nat)
    ensures At(html, k, [LBRACE]) <==> k < |html| && html[k] == LBRACE
  {
  }

  lemma OpeningIs(html: Text, i: nat)
    requires MarkedAt(html, i)
    ensures match IndexOf(html, [LBRACE], i + |MARKER|)
            case None => !Opens(html)
            case Some(start) => start < |html| && OpensAt(html, start)
  {
    hide At, MarkedAt;
    var found := IndexOf(html, [LBRACE], i + |MARKER|);
    forall k: nat ensures At(html, k, [LBRACE]) <==> k < |html| && html[k] == LBRACE {
      BraceAt(html, k);
    }
    forall start: nat | OpensAt(html, start) ensures found.Some? {
      var j: nat :| MarkedAt(html, j) && j + |MARKER| <= start
                    && forall k :: j + |MARKER| <= k < start ==> html[k] != LBRACE;
      MarkerUnique(html, i, j);
      assert At(html, start, [LBRACE]);
    }
  }

  /** Each failure has its reason: no marker, no brace behind the first, no end of what opens
      there, or what is cut out is no object. */
  method Search(html: Text) returns (r: Document)
    ensures r == ParseSearchDocument(html)
    ensures r.MissingMarker? <==> !Marked(html)
    ensures r.MissingObject? <==> Marked(html) && !Opens(html)
    ensures r.IncompleteObject? ==> exists start :: OpensAt(html, start) && Scan(html, start, Outside(0)).None?
    ensures r.Rejected? ==> exists piece :: Stretch(html, piece) && ParseObject(piece) == Fail(r.kind, r.at)
    ensures r.Found? ==> exists piece, next :: Stretch(html, piece) && ParseObject(piece) == Ok(r.value, next)
  {
    hide IndexOf, ParseObject, Scan, At, MarkedAt, OpensAt;
    MarkerIs(html);
    var marker := IndexOf(html, MARKER, 0);
    if marker.None? {
      return MissingMarker;
    }
    OpeningIs(html, marker.value);
    var start := IndexOf(html, [LBRACE], marker.value + |MARKER|);
    if start.None? {
      return MissingObject;
    }
    var end := ObjectEnd(html, start.value);
    if end.None? {
      return IncompleteObject;
    }
    var parsed := ParseObject(html[start.value..end.value + 1]);
    assert Stretch(html, html[start.value..end.value + 1]);
    r := if parsed.Ok? then Found(parsed.value) else Rejected(parsed.kind, parsed.at);
  }

  /** The loop of the scanner. */
  method ObjectEnd(html: Text, start: nat) returns (r: Option<nat>)
    requires start <= |html|
    ensures r == Scan(html, start, Outside(0))
  {
    var depth, inString, escaped := 0, false, false;
    for index := start to |html|
      invariant Scan(html, index, Flags(depth, inString, escaped)) == Scan(html, start, Outside(0))
    {
      var c := html[index];
      if inString {
        if escaped {
          escaped := false;
        } else if c == BACKSLASH {
          escaped := true;
        } else if c == QUOTE {
          inString := false;
        }
        continue;
      }
      if c == QUOTE {
        inString := true;
      } else if c == LBRACE {
        depth := depth + 1;
      } else if c == RBRACE {
        depth := depth - 1;
        if depth == 0 {
          return Some(index);
        }
      }
    }
    r := None;
  }

  // ----------------------------------- the scanner follows the parser

  /** Outside strings the scanner does not see these characters. */
  predicate Plain(c: Unit) { c != QUOTE && c != LBRACE && c != RBRACE }

  lemma {:induction false} ScanPlain(s: Text, i: nat, j: nat, depth: int)
    requires i <= j <= |s| && forall k :: i <= k < j ==> Plain(s[k])
    ensures Scan(s, i, Outside(depth)) == Scan(s, j, Outside(depth))
    decreases j - i
  {
    if i < j {
      ScanPlain(s, i + 1, j, depth);
    }
  }

  lemma {:induction false} BlanksArePlain(s: Text, i: nat)
    requires i <= |s|
    ensures forall k :: i <= k < SkipWhitespace(s, i) ==> Plain(s[k])
    decreases |s| - i
  {
    if i < |s| && IsWhitespace(s[i]) {
      BlanksArePlain(s, i + 1);
    }
  }

  lemma {:induction false} DigitsArePlain(s: Text, i: nat)
    requires i <= |s|
    ensures forall k :: i <= k < SkipDigits(s, i) ==> Plain(s[k])
    decreases |s| - i
  {
    hide OtherDigit;
    if i < |s| && IsDigit(s[i]) {
      DigitsArePlain(s, i + 1);
    }
  }

  lemma NumberIsPlain(s: Text, i: nat)
    requires i <= |s|
    ensures forall k :: i <= k < NumberEnd(s, i) ==> Plain(s[k])
  {
    hide IsDigit, SkipDigits;
    var a := AfterMinus(s, i);
    DigitsArePlain(s, a);
    var b := SkipDigits(s, a);
    if Peek(s, b, POINT) {
      DigitsArePlain(s, b + 1);
    }
    var c := AfterFraction(s, b);
    if Peek(s, c, LOWER_E) || Peek(s, c, UPPER_E) {
      DigitsArePlain(s, if Peek(s, c + 1, PLUS) || Peek(s, c + 1, MINUS) then c + 2 else c + 1);
    }
  }

  lemma LiteralIsPlain(s: Text, i: nat, literal: Text, v: Json)
    requires i <= |s| && literal in [NULL_TEXT, TRUE_TEXT, FALSE_TEXT]
    requires ParseLiteral(s, i, literal, v).Ok?
    ensures forall k :: i <= k < i + |literal| ==> Plain(s[k])
  {
    forall k | i <= k < i + |literal| ensures Plain(s[k]) {
      assert s[k] == s[i..][k - i] == literal[k - i];
    }
  }

  lemma HexIsNoQuote(s: Text, i: nat)
    requires i <= |s| && ParseUnicode(s, i).Ok?
    ensures forall k :: i <= k < i + 4 ==> s[k] != QUOTE && s[k] != BACKSLASH
  {
    hide OtherDigit;
    var t := s[i..i + 4];
    assert t[0] == s[i] && t[1] == s[i + 1] && t[2] == s[i + 2] && t[3] == s[i + 3];
  }

  lemma {:induction false} ScanChars(s: Text, i: nat, acc: Text, depth: int)
    requires i <= |s| && ParseChars(s, i, acc).Ok?
    ensures Scan(s, i, Inside(depth)) == Scan(s, ParseChars(s, i, acc).next, Outside(depth))
    decreases |s| - i
  {
    hide ParseUnicode, Unescape;
    if s[i] != QUOTE {
      if s[i] != BACKSLASH {
        ScanChars(s, i + 1, acc + [s[i]], depth);
      } else if s[i + 1] == LOWER_U {
        var u := ParseUnicode(s, i + 2);
        HexIsNoQuote(s, i + 2);
        ScanHex(s, i + 2, depth);
        ScanChars(s, i + 6, acc + [u.value], depth);
      } else {
        ScanChars(s, i + 2, acc + [Unescape(s[i + 1]).value], depth);
      }
    }
  }

  lemma ScanHex(s: Text, i: nat, depth: int)
    requires i + 4 <= |s| && forall k :: i <= k < i + 4 ==> s[k] != QUOTE && s[k] != BACKSLASH
    ensures Scan(s, i, Inside(depth)) == Scan(s, i + 4, Inside(depth))
  {
    assert Scan(s, i, Inside(depth)) == Scan(s, i + 1, Inside(depth));
    assert Scan(s, i + 1, Inside(depth)) == Scan(s, i + 2, Inside(depth));
    assert Scan(s, i + 2, Inside(depth)) == Scan(s, i + 3, Inside(depth));
  }

  lemma ScanString(s: Text, i: nat, depth: int)
    requires i <= |s| && ParseString(s, i).Ok?
    ensures Scan(s, i, Outside(depth)) == Scan(s, ParseString(s, i).next, Outside(depth))
  {
    ScanChars(s, i + 1, [], depth);
  }

  /** Inside an object the scanner passes over every value the parser accepts. */
  lemma {:induction false} ScanValue(s: Text, i: nat, depth: int)
    requires i <= |s| && depth > 0 && ParseValue(s, i).Ok?
    ensures Scan(s, i, Outside(depth)) == Scan(s, ParseValue(s, i).next, Outside(depth))
    decreases |s| - i, 2
  {
    hide DecimalDigit, ParseString, ParseNumber, Scan, SkipWhitespace, ParseArray, ParseObjectValue, ParseLiteral;
    var k := SkipWhitespace(s, i);
    BlanksArePlain(s, i);
    ScanPlain(s, i, k, depth);
    if s[k] == LBRACE {
      ScanObject(s, k, depth);
      ScanClosing(s, ParseObjectValue(s, k).next - 1, depth + 1);
    } else if s[k] == LBRACKET {
      ScanArray(s, k, depth);
    } else if s[k] == QUOTE {
      ScanString(s, k, depth);
    } else {
      ScanAtom(s, i, k, depth);
    }
  }

  /** A literal or a number. */
  lemma ScanAtom(s: Text, i: nat, k: nat, depth: int)
    requires i <= k < |s| && k == SkipWhitespace(s, i)
    requires s[k] != LBRACE && s[k] != LBRACKET && s[k] != QUOTE && !IsWhitespace(s[k])
    requires ParseValue(s, i).Ok?
    ensures Scan(s, k, Outside(depth)) == Scan(s, ParseValue(s, i).next, Outside(depth))
  {
    hide DecimalDigit, Scan, NumberEnd;
    if s[k] == LOWER_T {
      LiteralIsPlain(s, k, TRUE_TEXT, Bool(true));
    } else if s[k] == LOWER_F {
      LiteralIsPlain(s, k, FALSE_TEXT, Bool(false));
    } else if s[k] == LOWER_N {
      LiteralIsPlain(s, k, NULL_TEXT, Null);
    } else {
      NumberIsPlain(s, k);
    }
    ScanPlain(s, k, ParseValue(s, i).next, depth);
  }

  lemma ScanClosing(s: Text, i: nat, depth: int)
    requires i < |s| && s[i] == RBRACE && depth > 1
    ensures Scan(s, i, Outside(depth)) == Scan(s, i + 1, Outside(depth - 1))
  {
  }

  lemma {:induction false} ScanArray(s: Text, i: nat, depth: int)
    requires i < |s| && s[i] == LBRACKET && depth > 0 && ParseArray(s, i).Ok?
    ensures Scan(s, i, Outside(depth)) == Scan(s, ParseArray(s, i).next, Outside(depth))
    decreases |s| - i, 1
  {
    hide ParseItems, SkipWhitespace, Scan, IsWhitespace;
    var k := SkipWhitespace(s, i + 1);
    BlanksArePlain(s, i + 1);
    ScanPlain(s, i, k, depth);
    if Peek(s, k, RBRACKET) {
      ScanPlain(s, k, k + 1, depth);
    } else {
      ScanItems(s, k, [], depth);
    }
  }

  lemma {:induction false} ScanItems(s: Text, i: nat, acc: seq<Json>, depth: int)
    requires i <= |s| && depth > 0 && ParseItems(s, i, acc).Ok?
    ensures Scan(s, i, Outside(depth)) == Scan(s, ParseItems(s, i, acc).next, Outside(depth))
    decreases |s| - i, 3
  {
    hide ParseValue, SkipWhitespace, Scan, IsWhitespace;
    var r := ParseValue(s, i);
    ScanValue(s, i, depth);
    var e := SkipWhitespace(s, r.next);
    BlanksArePlain(s, r.next);
    ScanPlain(s, r.next, e + 1, depth);
    if !Peek(s, e, RBRACKET) {
      ScanItems(s, e + 1, acc + [r.value], depth);
    }
  }

  /** From an object's opening brace the scanner reaches its closing brace one level up. */
  lemma {:induction false} ScanObject(s: Text, i: nat, depth: int)
    requires i < |s| && s[i] == LBRACE && depth >= 0 && ParseObjectValue(s, i).Ok?
    ensures s[ParseObjectValue(s, i).next - 1] == RBRACE
    ensures Scan(s, i, Outside(depth))
            == Scan(s, ParseObjectValue(s, i).next - 1, Outside(depth + 1))
    decreases |s| - i, 1
  {
    hide ParseEntries, SkipWhitespace, IsWhitespace;
    var k := SkipWhitespace(s, i + 1);
    BlanksArePlain(s, i + 1);
    ScanPlain(s, i + 1, k, depth + 1);
    if !Peek(s, k, RBRACE) {
      ScanEntries(s, k, [], depth + 1);
    }
  }

  lemma {:induction false} ScanEntries(s: Text, i: nat, acc: seq<Entry>, depth: int)
    requires i <= |s| && depth > 0 && ParseEntries(s, i, acc).Ok?
    ensures s[ParseEntries(s, i, acc).next - 1] == RBRACE
    ensures Scan(s, i, Outside(depth))
            == Scan(s, ParseEntries(s, i, acc).next - 1, Outside(depth))
    decreases |s| - i, 4
  {
    hide ParseEntry, SkipWhitespace, Scan, IsWhitespace;
    var r := ParseEntry(s, i);
    ScanEntry(s, i, depth);
    var e := SkipWhitespace(s, r.next);
    BlanksArePlain(s, r.next);
    ScanPlain(s, r.next, e, depth);
    if !Peek(s, e, RBRACE) {
      ScanPlain(s, e, e + 1, depth);
      ScanEntries(s, e + 1, Put(acc, r.value.key, r.value.value), depth);
    }
  }

  lemma {:induction false} ScanEntry(s: Text, i: nat, depth: int)
    requires i <= |s| && depth > 0 && ParseEntry(s, i).Ok?
    ensures Scan(s, i, Outside(depth)) == Scan(s, ParseEntry(s, i).next, Outside(depth))
    decreases |s| - i, 3
  {
    hide ParseString, ParseValue, SkipWhitespace, Scan, IsWhitespace;
    var k := SkipWhitespace(s, i);
    BlanksArePlain(s, i);
    ScanPlain(s, i, k, depth);
    ScanString(s, k, depth);
    var key := ParseString(s, k);
    var c := SkipWhitespace(s, key.next);
    BlanksArePlain(s, key.next);
    ScanPlain(s, key.next, c + 1, depth);
    ScanValue(s, c + 1, depth);
  }

  /** The scanner stops at the last character of the object the parser accepts. */
  lemma ScannerAgreesWithParser(s: Text, i: nat)
    requires i < |s| && s[i] == LBRACE && ParseObjectValue(s, i).Ok?
    ensures Scan(s, i, Outside(0)) == Some(ParseObjectValue(s, i).next - 1)
  {
    hide ParseObjectValue;
    ScanObject(s, i, 0);
  }

  // ------------------------------------------------------ the whole page

  /** The marker overlaps no shifted copy of itself, so it is first found where it is put. */
  lemma MarkerFoundAfterPrefix(prefix: Text, rest: Text)
    requires forall k :: 0 <= k ==> !At(prefix, k, MARKER)
    ensures IndexOf(prefix + MARKER + rest, MARKER, 0) == Some(|prefix|)
  {
    var html := prefix + MARKER + rest;
    assert html[|prefix|..|prefix| + |MARKER|] == MARKER;
    assert At(html, |prefix|, MARKER);
    forall k | 0 <= k < |prefix| ensures !At(html, k, MARKER) {
      if At(html, k, MARKER) {
        NoOverlap(prefix, rest, k);
      }
    }
  }

  lemma NoOverlap(prefix: Text, rest: Text, k: nat)
    requires k < |prefix| && At(prefix + MARKER + rest, k, MARKER)
    ensures At(prefix, k, MARKER)
  {
    var d := |prefix| - k;
    if d < |MARKER| {
      OverlapEqual(prefix, rest, k, 0);
      if d == 5 {
        OverlapEqual(prefix, rest, k, 1);
      }
    } else {
      assert (prefix + MARKER + rest)[k..k + |MARKER|] == prefix[k..k + |MARKER|];
    }
  }

  lemma OverlapEqual(prefix: Text, rest: Text, k: nat, t: nat)
    requires k < |prefix| && At(prefix + MARKER + rest, k, MARKER)
    requires |prefix| - k + t < |MARKER|
    ensures MARKER[t] == MARKER[|prefix| - k + t]
  {
    var html := prefix + MARKER + rest;
    assert html[|prefix| + t] == MARKER[t];
    assert html[k..k + |MARKER|][|prefix| - k + t] == html[|prefix| + t];
  }

  lemma FirstBrace(html: Text, i: nat, start: nat)
    requires i <= start && Peek(html, start, LBRACE)
    requires forall k :: i <= k < start ==> html[k] != LBRACE
    ensures IndexOf(html, [LBRACE], i) == Some(start)
  {
    assert html[start..start + 1] == [LBRACE];
    assert At(html, start, [LBRACE]);
    forall k | i <= k < start ensures !At(html, k, [LBRACE]) {
      assert html[k..k + 1] == [html[k]];
    }
  }

  /** Whatever stands around it, an object the parser accepts behind the marker is cut out
      whole and read. */
  lemma AcceptedObjectIsFound(prefix: Text, filler: Text, rest: Text)
    requires forall k :: 0 <= k ==> !At(prefix, k, MARKER)
    requires LBRACE !in filler
    requires Peek(rest, 0, LBRACE) && ParseObjectValue(rest, 0).Ok?
    ensures ParseSearchDocument(prefix + MARKER + (filler + rest)) == Found(ParseObjectValue(rest, 0).value)
  {
    hide ParseObjectValue, Scan, ParseObject, At;
    var html := prefix + MARKER + (filler + rest);
    var start := |prefix| + |MARKER| + |filler|;
    MarkerFoundAfterPrefix(prefix, filler + rest);
    FirstBrace(html, |prefix| + |MARKER|, start);
    CutAndRead(html, rest, start);
  }

  /** The rest of the page, cut at the scanner's index, is read as the parser reads it there. */
  lemma CutAndRead(html: Text, rest: Text, start: nat)
    requires Peek(rest, 0, LBRACE) && ParseObjectValue(rest, 0).Ok?
    requires start + |rest| == |html| && html[start..] == rest
    ensures var end := Scan(html, start, Outside(0));
            end.Some? && ParseObject(html[start..end.value + 1]).Ok?
            && ParseObject(html[start..end.value + 1]).value == ParseObjectValue(rest, 0).value
  {
    hide ParseObjectValue, Scan, ParseObject, SkipWhitespace, IsWhitespace, At;
    var r := ParseObjectValue(rest, 0);
    ScannerAgreesWithParser(rest, 0);
    ScanShift(html, rest, start, 0, Outside(0));
    SameCut(html, rest, start, r.next);
    ReadAlone(rest);
  }

  /** The object the parser accepts at the start of a text is read when it stands alone. */
  lemma ReadAlone(rest: Text)
    requires Peek(rest, 0, LBRACE) && ParseObjectValue(rest, 0).Ok?
    ensures var r := ParseObjectValue(rest, 0); ParseObject(rest[0..r.next]) == Ok(r.value, r.next)
  {
    hide ParseObjectValue, ParseObject, SkipWhitespace, IsWhitespace;
    var r := ParseObjectValue(rest, 0);
    LocalObject(rest, rest[0..r.next], 0, 0);
    WholeObject(rest[0..r.next], r.value);
  }

  lemma SameCut(html: Text, rest: Text, start: nat, n: nat)
    requires start + |rest| == |html| && html[start..] == rest && n <= |rest|
    ensures html[start..start + n] == rest[0..n]
  {
    assert html[start..start + n] == html[start..][0..n];
  }

  lemma WholeObject(cut: Text, v: Json)
    requires Peek(cut, 0, LBRACE) && ParseObjectValue(cut, 0) == Ok(v, |cut|)
    ensures ParseObject(cut) == Ok(v, |cut|)
  {
    hide ParseEntries;
    assert SkipWhitespace(cut, 0) == 0;
    assert ParseValue(cut, 0) == ParseObjectValue(cut, 0);
    ObjectValueIsObject(cut, 0);
  }

  lemma ObjectValueIsObject(s: Text, i: nat)
    requires Peek(s, i, LBRACE) && ParseObjectValue(s, i).Ok?
    ensures ParseObjectValue(s, i).value.Object?
  {
    hide ParseEntries;
    var k := SkipWhitespace(s, i + 1);
    if !Peek(s, k, RBRACE) {
      EntriesAreObject(s, k, []);
    }
  }

  lemma {:induction false} EntriesAreObject(s: Text, i: nat, acc: seq<Entry>)
    requires i <= |s| && ParseEntries(s, i, acc).Ok?
    ensures ParseEntries(s, i, acc).value.Object?
    decreases |s| - i
  {
    hide ParseEntry;
    var r := ParseEntry(s, i);
    var e := SkipWhitespace(s, r.next);
    if !Peek(s, e, RBRACE) {
      EntriesAreObject(s, e + 1, Put(acc, r.value.key, r.value.value));
    }
  }

  lemma {:induction false} ScanShift(html: Text, rest: Text, start: nat, i: nat, f: Flags)
    requires start + |rest| == |html| && html[start..] == rest && i <= |rest|
    ensures Scan(html, start + i, f)
            == match Scan(rest, i, f)
               case None => None
               case Some(end) => Some(start + end)
    decreases |rest| - i
  {
    if i < |rest| {
      assert html[start + i] == rest[i];
      ScanShift(html, rest, start, i + 1, Next(f, rest[i]));
    }
  }

  // ------------------------------------------------ the scanner on printed text

  lemma ScanOver(s: Text, i: nat, t: Text, depth: int)
    requires At(s, i, t) && AllPlain(t)
    ensures Scan(s, i, Outside(depth)) == Scan(s, i + |t|, Outside(depth))
  {
    hide Plain, Scan;
    forall k | i <= k < i + |t| ensures Plain(s[k]) {
      assert s[k] == s[i..i + |t|][k - i];
    }
    ScanPlain(s, i, i + |t|, depth);
  }

  lemma DigitIsPlain(c: Unit)
    requires IsDigit(c)
    ensures Plain(c)
  {
  }

  ghost predicate AllPlain(t: Text) { forall k :: 0 <= k < |t| ==> Plain(t[k]) }

  lemma PlainTogether(a: Text, b: Text)
    requires AllPlain(a) && AllPlain(b)
    ensures AllPlain(a + b)
  {
    hide Plain;
  }

  lemma DigitsTextIsPlain(t: Text)
    requires AllDigits(t)
    ensures AllPlain(t)
  {
    hide IsDigit, Plain, AllDigits;
    forall k | 0 <= k < |t| ensures Plain(t[k]) {
      DigitIsPlain(t[k]);
    }
  }

  lemma NumberTextIsPlain(p: Parts)
    requires WellFormed(p)
    ensures AllPlain(TextOf(p))
  {
    hide IsDigit, AllDigits, AllPlain, Plain;
    SignsArePlain();
    DigitsTextIsPlain(p.whole);
    DigitsTextIsPlain(p.fraction);
    PlainTogether([POINT], p.fraction);
    if p.exponent.Some? {
      var x := p.exponent.value;
      DigitsTextIsPlain(x.digits);
      PlainTogether(x.sign, x.digits);
      PlainTogether([x.letter], x.sign + x.digits);
    }
    PlainTogether(FractionText(p), ExponentText(p));
    PlainTogether(p.whole, FractionText(p) + ExponentText(p));
    PlainTogether(SignText(p), p.whole + (FractionText(p) + ExponentText(p)));
  }

  lemma SignsArePlain()
    ensures AllPlain([]) && AllPlain([MINUS]) && AllPlain([POINT])
    ensures AllPlain([UPPER_E]) && AllPlain([LOWER_E]) && AllPlain([PLUS])
  {
  }

  lemma PrintedNumberIsPlain(v: Json)
    requires v.Integer? || v.Decimal?
    ensures AllPlain(Print(v))
  {
    hide PrintInteger, TextOf, WellFormed, DecimalParts, IntegerParts, Plain;
    if v.Decimal? && v.scale != 0 {
      DecimalIsWellFormed(v.unscaled, v.scale);
      DecimalHasParts(v.unscaled, v.scale);
      NumberTextIsPlain(DecimalParts(v.unscaled, v.scale));
    } else {
      var n := if v.Integer? then v.n else v.unscaled;
      IntegerHasParts(n);
      NumberTextIsPlain(IntegerParts(n));
    }
  }

  /** Inside an object the scanner passes over every printed value. */
  lemma {:induction false} ScanPrinted(v: Json, s: Text, i: nat, depth: int)
    requires depth > 0 && At(s, i, Print(v))
    ensures Scan(s, i, Outside(depth)) == Scan(s, i + |Print(v)|, Outside(depth))
    decreases v
  {
    hide PrintInteger, PrintDecimal, PrintItems, PrintEntries, PrintString, Scan, At, ParseString;
    match v
    case Null => ScanOver(s, i, NULL_TEXT, depth);
    case Bool(b) => ScanOver(s, i, Print(v), depth);
    case Integer(_) =>
      PrintedNumberIsPlain(v);
      ScanOver(s, i, Print(v), depth);
    case Decimal(_, _) =>
      PrintedNumberIsPlain(v);
      ScanOver(s, i, Print(v), depth);
    case Str(t) =>
      PrintedStringParses(t, s, i);
      ScanString(s, i, depth);
    case List(items) =>
      AtSplit(s, i, [LBRACKET] + PrintItems(items), [RBRACKET]);
      AtSplit(s, i, [LBRACKET], PrintItems(items));
      ScanOver(s, i, [LBRACKET], depth);
      ScanPrintedItems(items, s, i + 1, depth);
      ScanOver(s, i + 1 + |PrintItems(items)|, [RBRACKET], depth);
    case Object(entries) =>
      ScanPrintedObject(v, s, i, depth);
      ScanClosing(s, i + |Print(v)| - 1, depth + 1);
  }

  /** From the opening brace of a printed object to its closing brace, one level up. */
  lemma {:induction false} ScanPrintedObject(v: Json, s: Text, i: nat, depth: int)
    requires v.Object? && depth >= 0 && At(s, i, Print(v))
    ensures |Print(v)| > 1 && i + |Print(v)| <= |s| && s[i + |Print(v)| - 1] == RBRACE
    ensures Scan(s, i, Outside(depth)) == Scan(s, i + |Print(v)| - 1, Outside(depth + 1))
    decreases v, |v.entries| + 1
  {
    hide PrintEntries, At;
    var entries := v.entries;
    AtSplit(s, i, [LBRACE] + PrintEntries(entries), [RBRACE]);
    AtSplit(s, i, [LBRACE], PrintEntries(entries));
    AtFirst(s, i, [LBRACE]);
    AtFirst(s, i + 1 + |PrintEntries(entries)|, [RBRACE]);
    ScanPrintedEntries(entries, s, i + 1, depth + 1);
  }

  lemma {:induction false} ScanPrintedItems(items: seq<Json>, s: Text, i: nat, depth: int)
    requires depth > 0 && At(s, i, PrintItems(items))
    ensures Scan(s, i, Outside(depth)) == Scan(s, i + |PrintItems(items)|, Outside(depth))
    decreases items, |items|
  {
    hide Print, Scan, At;
    if |items| == 1 {
      ScanPrinted(items[0], s, i, depth);
    } else if |items| > 1 {
      AtSplit(s, i, Print(items[0]) + [COMMA], PrintItems(items[1..]));
      AtSplit(s, i, Print(items[0]), [COMMA]);
      ScanPrinted(items[0], s, i, depth);
      ScanOver(s, i + |Print(items[0])|, [COMMA], depth);
      ScanPrintedItems(items[1..], s, i + |Print(items[0])| + 1, depth);
    }
  }

  lemma {:induction false} ScanPrintedEntries(entries: seq<Entry>, s: Text, i: nat, depth: int)
    requires depth > 0 && At(s, i, PrintEntries(entries))
    ensures Scan(s, i, Outside(depth)) == Scan(s, i + |PrintEntries(entries)|, Outside(depth))
    decreases entries, |entries|
  {
    hide PrintEntry, Scan, At;
    if |entries| == 1 {
      ScanPrintedEntry(entries[0], s, i, depth);
    } else if |entries| > 1 {
      AtSplit(s, i, PrintEntry(entries[0]) + [COMMA], PrintEntries(entries[1..]));
      AtSplit(s, i, PrintEntry(entries[0]), [COMMA]);
      ScanPrintedEntry(entries[0], s, i, depth);
      ScanOver(s, i + |PrintEntry(entries[0])|, [COMMA], depth);
      ScanPrintedEntries(entries[1..], s, i + |PrintEntry(entries[0])| + 1, depth);
    }
  }

  lemma {:induction false} ScanPrintedEntry(e: Entry, s: Text, i: nat, depth: int)
    requires depth > 0 && At(s, i, PrintEntry(e))
    ensures Scan(s, i, Outside(depth)) == Scan(s, i + |PrintEntry(e)|, Outside(depth))
    decreases e
  {
    hide Print, PrintString, Scan, At, ParseString;
    AtSplit(s, i, PrintString(e.key) + [COLON], Print(e.value));
    AtSplit(s, i, PrintString(e.key), [COLON]);
    PrintedStringParses(e.key, s, i);
    ScanString(s, i, depth);
    ScanOver(s, i + |PrintString(e.key)|, [COLON], depth);
    ScanPrinted(e.value, s, i + |PrintString(e.key)| + 1, depth);
  }

  /** Every printed object is cut out whole, whatever braces, quotes and backslashes its
      strings hold, and found exactly when its numbers can be read. */
  lemma PrintedObjectIsFound(prefix: Text, filler: Text, v: Json, suffix: Text)
    requires forall k :: 0 <= k ==> !At(prefix, k, MARKER)
    requires LBRACE !in filler
    requires v.Object? && Valid(v)
    ensures var r := ParseSearchDocument(prefix + MARKER + (filler + (Print(v) + suffix)));
            if CanRead(v) then r == Found(Reread(v)) else r.Rejected?
  {
    hide ParseObjectValue, Scan, ParseObject, At, Print, CanRead, Reread;
    var rest := Print(v) + suffix;
    var html := prefix + MARKER + (filler + rest);
    var start := |prefix| + |MARKER| + |filler|;
    MarkerFoundAfterPrefix(prefix, filler + rest);
    PrintedObjectEnds(v, suffix);
    FirstBrace(html, |prefix| + |MARKER|, start);
    ScanShift(html, rest, start, 0, Outside(0));
    assert html[start..start + |Print(v)|] == Print(v);
    PrintedObjectReads(v);
  }

  lemma PrintedObjectEnds(v: Json, suffix: Text)
    requires v.Object?
    ensures Peek(Print(v) + suffix, 0, LBRACE)
    ensures |Print(v)| > 1 && Scan(Print(v) + suffix, 0, Outside(0)) == Some(|Print(v)| - 1)
  {
    AtWhole(Print(v), suffix);
    ScanPrintedObject(v, Print(v) + suffix, 0, 0);
  }

  lemma PrintedObjectReads(v: Json)
    requires v.Object? && Valid(v)
    ensures var r := ParseObject(Print(v));
            if CanRead(v) then r == Ok(Reread(v), |Print(v)|) else r.Fail?
  {
    hide Print, Parse, CanRead;
    PrintedIsRead(v);
  }
}
