/** Parsing looks at nothing outside the text it consumes: a value accepted inside a larger
    text is accepted, with the same result, when that piece stands alone. */
module JsonLocality {
  import opened Units
  import opened JsonCodec

  /** `t` is the piece of `s` that starts at `m`. */
  ghost predicate Piece(s: Text, t: Text, m: nat) {
    m + |t| <= |s| && t == s[m..m + |t|]
  }

  lemma SamePiece(s: Text, t: Text, m: nat, i: nat, j: nat)
    requires Piece(s, t, m) && m <= i <= j <= m + |t|
    ensures t[i - m..j - m] == s[i..j]
  {
    assert forall k :: i - m <= k < j - m ==> t[k] == s[m..m + |t|][k] == s[m + k];
  }

  lemma {:induction false} LocalBlanks(s: Text, t: Text, m: nat, i: nat)
    requires Piece(s, t, m) && m <= i <= m + |t|
    ensures SkipWhitespace(t, i - m)
            == if SkipWhitespace(s, i) <= m + |t| then SkipWhitespace(s, i) - m else |t|
    decreases |s| - i
  {
    hide IsWhitespace;
    if i < m + |t| && IsWhitespace(s[i]) {
      LocalBlanks(s, t, m, i + 1);
    }
  }

  lemma {:induction false} LocalDigits(s: Text, t: Text, m: nat, i: nat)
    requires Piece(s, t, m) && m <= i <= m + |t| && SkipDigits(s, i) <= m + |t|
    ensures SkipDigits(t, i - m) == SkipDigits(s, i) - m
    decreases |s| - i
  {
    hide IsDigit;
    if i < |s| && IsDigit(s[i]) {
      LocalDigits(s, t, m, i + 1);
    }
  }

  lemma LocalFraction(s: Text, t: Text, m: nat, b: nat)
    requires Piece(s, t, m) && m <= b <= |s| && AfterFraction(s, b) <= m + |t|
    ensures b <= m + |t| && AfterFraction(t, b - m) == AfterFraction(s, b) - m
  {
    hide IsDigit;
    if Peek(s, b, POINT) {
      LocalDigits(s, t, m, b + 1);
    }
  }

  lemma LocalExponent(s: Text, t: Text, m: nat, c: nat)
    requires Piece(s, t, m) && m <= c <= |s| && AfterExponent(s, c) <= m + |t|
    ensures c <= m + |t| && AfterExponent(t, c - m) == AfterExponent(s, c) - m
  {
    hide IsDigit, SkipDigits;
    if Peek(s, c, LOWER_E) || Peek(s, c, UPPER_E) {
      LocalDigits(s, t, m, if Peek(s, c + 1, PLUS) || Peek(s, c + 1, MINUS) then c + 2 else c + 1);
    }
  }

  lemma LocalNumberEnd(s: Text, t: Text, m: nat, i: nat)
    requires Piece(s, t, m) && m <= i <= |s| && NumberEnd(s, i) <= m + |t|
    ensures NumberEnd(t, i - m) == NumberEnd(s, i) - m
  {
    hide SkipDigits, AfterFraction, AfterExponent;
    var a := AfterMinus(s, i);
    var b := SkipDigits(s, a);
    var c := AfterFraction(s, b);
    LocalDigits(s, t, m, a);
    LocalFraction(s, t, m, b);
    LocalExponent(s, t, m, c);
  }

  lemma LocalNumber(s: Text, t: Text, m: nat, i: nat)
    requires Piece(s, t, m) && m <= i <= |s|
    requires ParseNumber(s, i).Ok? && ParseNumber(s, i).next <= m + |t|
    ensures ParseNumber(t, i - m) == Ok(ParseNumber(s, i).value, ParseNumber(s, i).next - m)
  {
    hide NumberEnd, ReadNumber;
    LocalNumberEnd(s, t, m, i);
    SamePiece(s, t, m, i, NumberEnd(s, i));
  }

  lemma LocalLiteral(s: Text, t: Text, m: nat, i: nat, literal: Text, v: Json)
    requires Piece(s, t, m) && m <= i && i + |literal| <= m + |t| && |literal| > 0
    requires ParseLiteral(s, i, literal, v).Ok?
    ensures ParseLiteral(t, i - m, literal, v) == Ok(v, i + |literal| - m)
  {
    SamePiece(s, t, m, i, i + |literal|);
    assert literal == s[i..][..|literal|] == s[i..i + |literal|];
    assert t[i - m..][..|literal|] == t[i - m..i - m + |literal|];
  }

  lemma {:induction false} LocalChars(s: Text, t: Text, m: nat, i: nat, acc: Text)
    requires Piece(s, t, m) && m <= i <= |s|
    requires ParseChars(s, i, acc).Ok? && ParseChars(s, i, acc).next <= m + |t|
    ensures ParseChars(t, i - m, acc) == Ok(ParseChars(s, i, acc).value, ParseChars(s, i, acc).next - m)
    decreases |s| - i
  {
    hide HexValue, Unescape, IsWhitespace;
    if s[i] != QUOTE {
      if s[i] != BACKSLASH {
        LocalChars(s, t, m, i + 1, acc + [s[i]]);
      } else if s[i + 1] == LOWER_U {
        var u := ParseUnicode(s, i + 2);
        LocalChars(s, t, m, i + 6, acc + [u.value]);
        SamePiece(s, t, m, i + 2, i + 6);
      } else {
        LocalChars(s, t, m, i + 2, acc + [Unescape(s[i + 1]).value]);
      }
    }
  }

  lemma LocalString(s: Text, t: Text, m: nat, i: nat)
    requires Piece(s, t, m) && m <= i <= |s|
    requires ParseString(s, i).Ok? && ParseString(s, i).next <= m + |t|
    ensures ParseString(t, i - m) == Ok(ParseString(s, i).value, ParseString(s, i).next - m)
  {
    hide ParseChars;
    LocalChars(s, t, m, i + 1, []);
  }

  lemma {:induction false} LocalValue(s: Text, t: Text, m: nat, i: nat)
    requires Piece(s, t, m) && m <= i <= |s|
    requires ParseValue(s, i).Ok? && ParseValue(s, i).next <= m + |t|
    ensures ParseValue(t, i - m) == Ok(ParseValue(s, i).value, ParseValue(s, i).next - m)
    decreases |s| - i, 2
  {
    hide ParseString, ParseNumber, ParseLiteral, ParseArray, ParseObjectValue, SkipWhitespace;
    var k := SkipWhitespace(s, i);
    LocalBlanks(s, t, m, i);
    if s[k] == LBRACE {
      LocalObject(s, t, m, k);
    } else if s[k] == LBRACKET {
      LocalArray(s, t, m, k);
    } else if s[k] == QUOTE {
      LocalString(s, t, m, k);
    } else if s[k] == LOWER_T {
      LiteralFits(s, k, TRUE_TEXT, Bool(true));
      LocalLiteral(s, t, m, k, TRUE_TEXT, Bool(true));
    } else if s[k] == LOWER_F {
      LiteralFits(s, k, FALSE_TEXT, Bool(false));
      LocalLiteral(s, t, m, k, FALSE_TEXT, Bool(false));
    } else if s[k] == LOWER_N {
      LiteralFits(s, k, NULL_TEXT, Null);
      LocalLiteral(s, t, m, k, NULL_TEXT, Null);
    } else {
      LocalNumber(s, t, m, k);
    }
  }

  lemma LiteralFits(s: Text, i: nat, literal: Text, v: Json)
    requires i <= |s| && |literal| > 0 && ParseLiteral(s, i, literal, v).Ok?
    ensures ParseLiteral(s, i, literal, v) == Ok(v, i + |literal|)
  {
  }

  lemma {:induction false} LocalArray(s: Text, t: Text, m: nat, i: nat)
    requires Piece(s, t, m) && m <= i < |s| && s[i] == LBRACKET
    requires ParseArray(s, i).Ok? && ParseArray(s, i).next <= m + |t|
    ensures t[i - m] == LBRACKET
    ensures ParseArray(t, i - m) == Ok(ParseArray(s, i).value, ParseArray(s, i).next - m)
    decreases |s| - i, 1
  {
    hide ParseItems, SkipWhitespace;
    var k := SkipWhitespace(s, i + 1);
    LocalBlanks(s, t, m, i + 1);
    if !Peek(s, k, RBRACKET) {
      LocalItems(s, t, m, k, []);
    }
  }

  lemma {:induction false} LocalItems(s: Text, t: Text, m: nat, i: nat, acc: seq<Json>)
    requires Piece(s, t, m) && m <= i <= |s|
    requires ParseItems(s, i, acc).Ok? && ParseItems(s, i, acc).next <= m + |t|
    ensures ParseItems(t, i - m, acc) == Ok(ParseItems(s, i, acc).value, ParseItems(s, i, acc).next - m)
    decreases |s| - i, 3
  {
    hide ParseValue, SkipWhitespace, IsWhitespace;
    var r := ParseValue(s, i);
    var e := SkipWhitespace(s, r.next);
    LocalValue(s, t, m, i);
    LocalBlanks(s, t, m, r.next);
    if !Peek(s, e, RBRACKET) {
      LocalItems(s, t, m, e + 1, acc + [r.value]);
    }
  }

  lemma {:induction false} LocalObject(s: Text, t: Text, m: nat, i: nat)
    requires Piece(s, t, m) && m <= i < |s| && s[i] == LBRACE
    requires ParseObjectValue(s, i).Ok? && ParseObjectValue(s, i).next <= m + |t|
    ensures t[i - m] == LBRACE
    ensures ParseObjectValue(t, i - m)
            == Ok(ParseObjectValue(s, i).value, ParseObjectValue(s, i).next - m)
    decreases |s| - i, 1
  {
    hide ParseEntries, SkipWhitespace;
    var k := SkipWhitespace(s, i + 1);
    LocalBlanks(s, t, m, i + 1);
    if !Peek(s, k, RBRACE) {
      LocalEntries(s, t, m, k, []);
    }
  }

  lemma {:induction false} LocalEntries(s: Text, t: Text, m: nat, i: nat, acc: seq<Entry>)
    requires Piece(s, t, m) && m <= i <= |s|
    requires ParseEntries(s, i, acc).Ok? && ParseEntries(s, i, acc).next <= m + |t|
    ensures ParseEntries(t, i - m, acc)
            == Ok(ParseEntries(s, i, acc).value, ParseEntries(s, i, acc).next - m)
    decreases |s| - i, 4
  {
    hide ParseEntry, Put, SkipWhitespace, IsWhitespace;
    var r := ParseEntry(s, i);
    var e := SkipWhitespace(s, r.next);
    LocalEntry(s, t, m, i);
    LocalBlanks(s, t, m, r.next);
    if !Peek(s, e, RBRACE) {
      LocalEntries(s, t, m, e + 1, Put(acc, r.value.key, r.value.value));
    }
  }

  lemma {:induction false} LocalEntry(s: Text, t: Text, m: nat, i: nat)
    requires Piece(s, t, m) && m <= i <= |s|
    requires ParseEntry(s, i).Ok? && ParseEntry(s, i).next <= m + |t|
    ensures ParseEntry(t, i - m) == Ok(ParseEntry(s, i).value, ParseEntry(s, i).next - m)
    decreases |s| - i, 3
  {
    hide ParseString, ParseValue, SkipWhitespace;
    var k := SkipWhitespace(s, i);
    LocalBlanks(s, t, m, i);
    var key := ParseString(s, k);
    var c := SkipWhitespace(s, key.next);
    LocalString(s, t, m, k);
    LocalBlanks(s, t, m, key.next);
    LocalValue(s, t, m, c + 1);
  }
}
