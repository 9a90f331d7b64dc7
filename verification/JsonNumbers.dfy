/** Numbers: what the printer writes for a long or a decimal, and what the scanner and the
    readers of numbers make of it. */
module JsonNumbers {
  import opened Options
  import opened Units
  import opened JsonCodec

  /** A printed number is read back whole when the text after it cannot continue it. */
  ghost predicate EndsNumber(s: Text, i: nat) {
    i < |s| ==> !IsDigit(s[i]) && s[i] != POINT && s[i] != LOWER_E && s[i] != UPPER_E
  }

  lemma DelimiterEndsNumber(s: Text, i: nat)
    requires Peek(s, i, COMMA) || Peek(s, i, RBRACKET) || Peek(s, i, RBRACE)
    ensures EndsNumber(s, i) && !IsWhitespace(s[i]) && SkipWhitespace(s, i) == i
  {
  }

  // ---------------------------------------------------------------- numbers

  lemma {:induction false} DigitsMeanTheirNumber(n: nat)
    ensures AllDigits(Digits(n)) && DigitsValue(Digits(n)) == n
    ensures forall k :: 0 <= k < |Digits(n)| ==> 48 <= Digits(n)[k] <= 57
  {
    if n < 10 {
      assert Digits(n)[..0] == [];
    } else {
      DigitsMeanTheirNumber(n / 10);
      var d := Digits(n);
      assert d[..|d| - 1] == Digits(n / 10);
      assert d[|d| - 1] == 48 + n % 10;
    }
  }

  lemma {:induction false} DigitsAreSkipped(s: Text, i: nat, d: Text)
    requires At(s, i, d) && AllDigits(d)
    requires i + |d| < |s| ==> !IsDigit(s[i + |d|])
    ensures SkipDigits(s, i) == i + |d|
    decreases |d|
  {
    hide DecimalDigit;
    if d != [] {
      AtFirst(s, i, d);
      assert d == d[..1] + d[1..];
      AtSplit(s, i, d[..1], d[1..]);
      DigitsAreSkipped(s, i + 1, d[1..]);
    }
  }

  lemma {:induction false} ZerosAddNothing(k: nat, d: Text)
    requires AllDigits(d)
    ensures AllDigits(Zeros(k) + d) && DigitsValue(Zeros(k) + d) == DigitsValue(d)
    decreases k, |d|
  {
    hide DecimalDigit, AllDigits;
    var t := Zeros(k) + d;
    ZeroIsDigit();
    if d != [] {
      ZerosAddNothing(k, d[..|d| - 1]);
      assert t[..|t| - 1] == Zeros(k) + d[..|d| - 1] && t[|t| - 1] == d[|d| - 1];
    } else if k > 0 {
      ZerosAddNothing(k - 1, []);
      assert t[..k - 1] == Zeros(k - 1) + [] && t[k - 1] == ZERO;
    }
  }

  // ------------------------------------------------------- the parts of a number

  /** What follows an `e`: the letter, a sign or none, digits. */
  datatype Exponent = Exponent(letter: Unit, sign: Text, digits: Text)

  /** A number cut into sign, digits, point with digits, and exponent. */
  datatype Parts = Parts(negative: bool, whole: Text, pointed: bool, fraction: Text, exponent: Option<Exponent>)

  ghost predicate ExponentOk(x: Exponent) {
    x.letter in {LOWER_E, UPPER_E} && x.sign in {[], [PLUS], [MINUS]} && AllDigits(x.digits)
  }

  ghost predicate WellFormed(p: Parts) {
    && AllDigits(p.whole) && AllDigits(p.fraction)
    && (!p.pointed ==> p.fraction == [])
    && (p.exponent.Some? ==> ExponentOk(p.exponent.value))
  }

  ghost function SignText(p: Parts): Text { if p.negative then [MINUS] else [] }

  ghost function FractionText(p: Parts): Text { if p.pointed then [POINT] + p.fraction else [] }

  ghost function ExponentText(p: Parts): Text {
    if p.exponent.Some? then [p.exponent.value.letter] + (p.exponent.value.sign + p.exponent.value.digits) else []
  }

  ghost function TextOf(p: Parts): Text {
    SignText(p) + (p.whole + (FractionText(p) + ExponentText(p)))
  }

  /** Where the parts stand. */
  ghost predicate Laid(p: Parts, s: Text, i: nat) {
    && At(s, i, SignText(p))
    && At(s, i + |SignText(p)|, p.whole)
    && At(s, i + |SignText(p)| + |p.whole|, FractionText(p))
    && At(s, i + |SignText(p)| + |p.whole| + |FractionText(p)|, ExponentText(p))
  }

  lemma TextIsLaid(p: Parts, s: Text, i: nat)
    requires At(s, i, TextOf(p))
    ensures Laid(p, s, i)
    ensures |TextOf(p)| == |SignText(p)| + |p.whole| + |FractionText(p)| + |ExponentText(p)|
  {
    hide At, ExponentText;
    AtSplit(s, i, SignText(p), p.whole + (FractionText(p) + ExponentText(p)));
    AtSplit(s, i + |SignText(p)|, p.whole, FractionText(p) + ExponentText(p));
    AtSplit(s, i + |SignText(p)| + |p.whole|, FractionText(p), ExponentText(p));
  }

  /** What stands behind a part cannot be taken for more of it. */
  lemma ExponentIsScanned(p: Parts, s: Text, c: nat)
    requires WellFormed(p) && At(s, c, ExponentText(p)) && EndsNumber(s, c + |ExponentText(p)|)
    requires p.exponent.Some? && p.exponent.value.digits == [] && p.exponent.value.sign == [] ==>
               var j := c + |ExponentText(p)|; j < |s| ==> s[j] != PLUS && s[j] != MINUS
    ensures AfterExponent(s, c) == c + |ExponentText(p)|
    ensures c < |s| ==> !IsDigit(s[c]) && s[c] != POINT
  {
    hide SkipDigits, AllDigits, IsDigit, FractionText, SignText, At;
    LettersAreNoDigits();
    if p.exponent.Some? {
      var x := p.exponent.value;
      AtSplit(s, c, [x.letter], x.sign + x.digits);
      AtFirst(s, c, [x.letter]);
      AtSplit(s, c + 1, x.sign, x.digits);
      if x.sign != [] {
        AtFirst(s, c + 1, x.sign);
      } else if x.digits != [] {
        AtFirst(s, c + 1, x.digits);
      }
      DigitsAreSkipped(s, c + 1 + |x.sign|, x.digits);
    }
  }

  lemma FractionIsScanned(p: Parts, s: Text, b: nat)
    requires WellFormed(p) && At(s, b, FractionText(p))
    requires var c := b + |FractionText(p)|; c < |s| ==> !IsDigit(s[c]) && s[c] != POINT
    ensures AfterFraction(s, b) == b + |FractionText(p)|
    ensures b < |s| ==> !IsDigit(s[b])
  {
    hide SkipDigits;
    if p.pointed {
      AtFirst(s, b, FractionText(p));
      AtSplit(s, b, [POINT], p.fraction);
      DigitsAreSkipped(s, b + 1, p.fraction);
    }
  }

  /** What follows cannot continue the number, not even one that ends in an `e`. */
  ghost predicate NumberStops(p: Parts, s: Text, j: nat) {
    && EndsNumber(s, j)
    && (p.exponent.Some? && p.exponent.value.digits == [] && p.exponent.value.sign == [] && j < |s| ==>
          s[j] != PLUS && s[j] != MINUS)
  }

  lemma PartsAreScanned(p: Parts, s: Text, i: nat)
    requires WellFormed(p) && At(s, i, TextOf(p)) && TextOf(p) != [] && NumberStops(p, s, i + |TextOf(p)|)
    ensures Laid(p, s, i)
    ensures AfterMinus(s, i) == i + |SignText(p)|
    ensures SkipDigits(s, i + |SignText(p)|) == i + |SignText(p)| + |p.whole|
    ensures AfterFraction(s, i + |SignText(p)| + |p.whole|)
            == i + |SignText(p)| + |p.whole| + |FractionText(p)|
    ensures NumberEnd(s, i) == i + |TextOf(p)|
  {
    hide SkipDigits, AfterFraction, AfterExponent, IsDigit, AllDigits, TextOf, FractionText, ExponentText;
    TextIsLaid(p, s, i);
    var a := i + |SignText(p)|;
    var b := a + |p.whole|;
    ExponentIsScanned(p, s, b + |FractionText(p)|);
    FractionIsScanned(p, s, b);
    DigitsAreSkipped(s, a, p.whole);
    LettersAreNoDigits();
    if p.negative {
      AtFirst(s, i, SignText(p));
    } else {
      FirstIsNoMinus(p, s, i);
    }
  }

  lemma FirstIsNoMinus(p: Parts, s: Text, i: nat)
    requires WellFormed(p) && At(s, i, TextOf(p)) && TextOf(p) != [] && !p.negative
    ensures i < |s| && s[i] != MINUS
  {
    hide AllDigits, IsDigit;
    LettersAreNoDigits();
    AtFirst(s, i, TextOf(p));
    if p.whole != [] {
      assert TextOf(p)[0] == p.whole[0];
    } else if p.pointed {
      assert TextOf(p)[0] == POINT;
    }
  }

  lemma LettersAreNoDigits()
    ensures !IsDigit(MINUS) && !IsDigit(PLUS) && !IsDigit(POINT) && !IsDigit(LOWER_E) && !IsDigit(UPPER_E)
  {
  }

  /** The number that digits stand for, each by its place. */
  ghost function ValueOf(t: Text): nat
    requires AllDigits(t)
  {
    if t == [] then 0 else Place(DigitOf(t[0]), |t| - 1) + ValueOf(t[1..])
  }

  ghost function DigitOf(c: Unit): nat { if IsDigit(c) then DecimalDigit(c) else 0 }

  /** `d` followed by `n` zeros. */
  ghost function Place(d: nat, n: nat): nat { if n == 0 then d else 10 * Place(d, n - 1) }

  lemma {:induction false} ValueOfLast(t: Text)
    requires t != [] && AllDigits(t)
    ensures ValueOf(t) == 10 * ValueOf(t[..|t| - 1]) + DigitOf(t[|t| - 1])
  {
    hide DigitOf, AllDigits;
    if |t| > 1 {
      ValueOfLast(t[1..]);
      var front := t[..|t| - 1];
      assert front[0] == t[0] && front[1..] == t[1..][..|t[1..]| - 1];
    } else {
      assert t[1..] == [] && t[..0] == [];
    }
  }

  lemma {:induction false} ValueOfIs(t: Text)
    requires AllDigits(t)
    ensures DigitsValue(t) == ValueOf(t)
  {
    hide DecimalDigit, AllDigits;
    if t != [] {
      ValueOfIs(t[..|t| - 1]);
      ValueOfLast(t);
      assert IsDigit(t[|t| - 1]);
    }
  }

  ghost function Signed(negative: bool, n: int): int { if negative then 0 - n else n }

  /** What the parts stand for: a long when there is neither point nor exponent, a decimal
      otherwise; nothing when digits are missing or something is out of range. */
  ghost function Meaning(p: Parts): Option<Json>
    requires WellFormed(p)
  {
    if !p.pointed && p.exponent.None? then
      var n := Signed(p.negative, ValueOf(p.whole));
      if p.whole != [] && MIN_LONG <= n <= MAX_LONG then Some(Integer(n)) else None
    else
      var x := p.exponent;
      var e := if x.None? then 0 else Signed(x.value.sign == [MINUS], ValueOf(x.value.digits));
      if p.whole + p.fraction != [] && (x.Some? ==> x.value.digits != [])
         && MIN_INT <= e <= MAX_INT && MIN_INT <= |p.fraction| - e <= MAX_INT
      then Some(Decimal(Signed(p.negative, ValueOf(p.whole + p.fraction)), |p.fraction| - e))
      else None
  }

  lemma ExponentIsRead(x: Exponent)
    requires ExponentOk(x)
    ensures var e := Signed(x.sign == [MINUS], ValueOf(x.digits));
            ParseExponent(x.sign + x.digits)
            == if x.digits != [] && MIN_INT <= e <= MAX_INT then Some(e) else None
  {
    hide DecimalDigit, ValueOf, DigitsValue;
    ValueOfIs(x.digits);
    LettersAreNoDigits();
    var t := x.sign + x.digits;
    if x.sign == [] {
      assert t == x.digits;
    } else {
      assert t[1..] == x.digits;
    }
  }

  /** The pieces that `ParseDecimal` cuts out. */
  lemma PartsAreCut(p: Parts)
    requires WellFormed(p) && Laid(p, TextOf(p), 0)
    ensures var t, start := TextOf(p), |SignText(p)|;
            var point, end := start + |p.whole|, |t| - |ExponentText(p)|;
            && end == point + |FractionText(p)|
            && t[start..point] == p.whole
            && (p.pointed ==> point < end && t[point + 1..end] == p.fraction)
            && (p.exponent.Some? ==> end < |t| && t[end + 1..] == p.exponent.value.sign + p.exponent.value.digits)
  {
    hide AllDigits, WellFormed, TextOf;
    TextLength(p);
    var t, point, end := TextOf(p), |SignText(p)| + |p.whole|, |TextOf(p)| - |ExponentText(p)|;
    if p.pointed {
      CutOne(t, point, end, POINT, p.fraction);
    }
    if p.exponent.Some? {
      CutOne(t, end, |t|, p.exponent.value.letter, p.exponent.value.sign + p.exponent.value.digits);
      assert t[end + 1..] == t[end + 1..|t|];
    }
  }

  lemma TextLength(p: Parts)
    ensures |TextOf(p)| == |SignText(p)| + |p.whole| + |FractionText(p)| + |ExponentText(p)|
  {
  }

  lemma CutOne(t: Text, i: nat, j: nat, c: Unit, rest: Text)
    requires i <= j <= |t| && t[i..j] == [c] + rest
    ensures i < j && t[i + 1..j] == rest
  {
    assert t[i + 1..j] == t[i..j][1..];
  }

  lemma DecimalPartsRead(p: Parts)
    requires WellFormed(p) && (p.pointed || p.exponent.Some?)
    ensures ParseDecimal(TextOf(p)) == Meaning(p)
  {
    hide SkipDigits, AfterFraction, AfterExponent, NumberEnd, ParseExponent, DigitsValue, DecimalDigit, TextOf,
      Laid, AllDigits;
    var t := TextOf(p);
    AtWhole(t, []);
    assert t + [] == t;
    SomeText(p);
    PartsAreScanned(p, t, 0);
    PartsAreCut(p);
    ValueOfIs(p.whole + p.fraction);
    if p.exponent.Some? {
      ExponentIsRead(p.exponent.value);
    }
  }

  lemma SomeText(p: Parts)
    requires p.pointed || p.exponent.Some? || p.whole != []
    ensures TextOf(p) != []
  {
  }

  lemma PartsAreDecimal(p: Parts)
    requires WellFormed(p)
    ensures IsDecimal(TextOf(p)) <==> p.pointed || p.exponent.Some?
  {
    hide IsDigit;
    LettersAreNoDigits();
    assert p.pointed ==> POINT in FractionText(p);
    assert p.exponent.Some? ==> p.exponent.value.letter in ExponentText(p);
    if !p.pointed && p.exponent.None? {
      assert FractionText(p) + ExponentText(p) == [];
      assert TextOf(p) == SignText(p) + p.whole;
    }
  }

  lemma LongIsRead(negative: bool, whole: Text)
    requires AllDigits(whole)
    ensures var n := Signed(negative, ValueOf(whole));
            ParseLong((if negative then [MINUS] else []) + whole)
            == if whole != [] && MIN_LONG <= n <= MAX_LONG then Some(n) else None
  {
    hide DecimalDigit, AllDigits, ValueOf, DigitsValue;
    LettersAreNoDigits();
    ValueOfIs(whole);
    var t := (if negative then [MINUS] else []) + whole;
    if negative {
      assert t[1..] == whole;
    } else {
      assert t == whole;
      assert whole != [] ==> IsDigit(whole[0]);
    }
  }

  lemma IntegerPartsRead(p: Parts)
    requires WellFormed(p) && !p.pointed && p.exponent.None?
    ensures (match ParseLong(TextOf(p)) case None => None case Some(n) => Some(Integer(n))) == Meaning(p)
  {
    hide ParseLong, AllDigits, ValueOf;
    LongIsRead(p.negative, p.whole);
    assert FractionText(p) + ExponentText(p) == [];
    assert TextOf(p) == SignText(p) + p.whole;
  }

  /** Whatever digits, point and exponent a number is written with: it is read as what it means,
      a long or a decimal, or not at all. */
  lemma PartsAreRead(p: Parts)
    requires WellFormed(p)
    ensures ReadNumber(TextOf(p)) == Meaning(p)
  {
    hide ParseLong, ParseDecimal, IsDecimal, TextOf, Meaning, WellFormed;
    PartsAreDecimal(p);
    if p.pointed || p.exponent.Some? {
      DecimalPartsRead(p);
    } else {
      IntegerPartsRead(p);
    }
  }

  // ------------------------------------------------------------ printed numbers

  ghost function IntegerParts(n: int): Parts {
    Parts(n < 0, Digits(Magnitude(n)), false, [], None)
  }

  /** The parts of a printed decimal that has a scale. */
  ghost function DecimalParts(unscaled: int, scale: int): Parts {
    var d := Digits(Magnitude(unscaled));
    var e := AdjustedExponent(unscaled, scale);
    if scale > 0 && e >= -6 then
      if scale >= |d| then Parts(unscaled < 0, [ZERO], true, Zeros(scale - |d|) + d, None)
      else Parts(unscaled < 0, d[..|d| - scale], true, d[|d| - scale..], None)
    else Parts(unscaled < 0, d[..1], |d| > 1, d[1..], Some(PrintedExponent(e)))
  }

  ghost function PrintedExponent(e: int): Exponent {
    Exponent(UPPER_E, [if e < 0 then MINUS else PLUS], Digits(Magnitude(e)))
  }

  lemma PrintedExponentIs(e: int)
    ensures ExponentOk(PrintedExponent(e)) && PrintedExponent(e).digits != []
    ensures Signed(e < 0, ValueOf(Digits(Magnitude(e)))) == e
    ensures [UPPER_E] + (PrintedExponent(e).sign + PrintedExponent(e).digits) == PrintExponent(e)
  {
    DigitsMeanTheirNumber(Magnitude(e));
    ValueOfIs(Digits(Magnitude(e)));
  }

  lemma IntegerHasParts(n: int)
    ensures WellFormed(IntegerParts(n)) && IntegerParts(n).whole != [] && 48 <= IntegerParts(n).whole[0] <= 57
    ensures TextOf(IntegerParts(n)) == PrintInteger(n)
  {
    DigitsMeanTheirNumber(Magnitude(n));
  }

  lemma DecimalIsWellFormed(unscaled: int, scale: int)
    ensures var p := DecimalParts(unscaled, scale); WellFormed(p) && p.whole != [] && 48 <= p.whole[0] <= 57
  {
    hide IsDigit, AllDigits, Digits, Zeros;
    var d := Digits(Magnitude(unscaled));
    DigitsMeanTheirNumber(Magnitude(unscaled));
    PrintedExponentIs(AdjustedExponent(unscaled, scale));
    if scale >= |d| {
      ZerosAddNothing(scale - |d|, d);
      ZerosAddNothing(1, []);
      assert Zeros(1) + [] == [ZERO] by { OneZero(); }
    }
  }

  lemma ZeroIsDigit()
    ensures IsDigit(ZERO) && DecimalDigit(ZERO) == 0
  {
  }

  lemma OneZero()
    ensures Zeros(1) == [ZERO]
  {
  }

  lemma DecimalHasParts(unscaled: int, scale: int)
    requires scale != 0
    ensures TextOf(DecimalParts(unscaled, scale)) == PrintDecimal(unscaled, scale)
  {
    hide DecimalDigit, AllDigits, Digits, Zeros, PlainDigits, PointAfterFirst, PrintExponent;
    var d := Digits(Magnitude(unscaled));
    if scale > 0 && AdjustedExponent(unscaled, scale) >= -6 {
      PlainHasParts(d, scale);
    } else {
      PrintedExponentIs(AdjustedExponent(unscaled, scale));
      ScientificHasParts(d, PrintExponent(AdjustedExponent(unscaled, scale)));
    }
  }

  lemma PlainHasParts(d: Text, scale: nat)
    ensures PlainDigits(d, scale)
            == if scale >= |d| then [ZERO] + (([POINT] + (Zeros(scale - |d|) + d)) + [])
               else d[..|d| - scale] + (([POINT] + d[|d| - scale..]) + [])
  {
  }

  lemma ScientificHasParts(d: Text, e: Text)
    requires |d| > 0
    ensures PointAfterFirst(d) + e == d[..1] + ((if |d| > 1 then [POINT] + d[1..] else []) + e)
  {
  }

  /** A decimal with a scale is read back unless its exponent leaves the int range. */
  predicate Readable(unscaled: int, scale: int) {
    if scale == 0 then MIN_LONG <= unscaled <= MAX_LONG
    else scale < 0 ==> AdjustedExponent(unscaled, scale) <= MAX_INT
  }

  lemma DecimalPartsMean(unscaled: int, scale: int)
    requires scale != 0 && MIN_INT <= scale <= MAX_INT
    requires WellFormed(DecimalParts(unscaled, scale))
    ensures Meaning(DecimalParts(unscaled, scale))
            == if Readable(unscaled, scale) then Some(Decimal(unscaled, scale)) else None
  {
    hide DecimalDigit, Digits, DigitsValue, ValueOf, AllDigits;
    var d := Digits(Magnitude(unscaled));
    var p := DecimalParts(unscaled, scale);
    DigitsMeanTheirNumber(Magnitude(unscaled));
    ValueOfIs(d);
    ValueOfIs(p.whole + p.fraction);
    PrintedExponentIs(AdjustedExponent(unscaled, scale));
    if scale > 0 && AdjustedExponent(unscaled, scale) >= -6 && scale >= |d| {
      ZerosAddNothing(scale - |d|, d);
      ZerosAddNothing(1, Zeros(scale - |d|) + d);
      OneZero();
    } else {
      assert p.whole + p.fraction == d;
    }
  }

  lemma IntegerPartsMean(n: int)
    requires WellFormed(IntegerParts(n))
    ensures Meaning(IntegerParts(n)) == if MIN_LONG <= n <= MAX_LONG then Some(Integer(n)) else None
  {
    hide DecimalDigit, Digits, DigitsValue, ValueOf, AllDigits;
    DigitsMeanTheirNumber(Magnitude(n));
    ValueOfIs(Digits(Magnitude(n)));
  }

  /** What the scanner and the readers make of a written number, wherever it stands, when what
      follows does not continue it. */
  lemma WrittenNumberParses(p: Parts, s: Text, i: nat)
    requires WellFormed(p) && At(s, i, TextOf(p)) && TextOf(p) != [] && NumberStops(p, s, i + |TextOf(p)|)
    ensures ParseNumber(s, i)
            == match Meaning(p)
               case None => Fail(InvalidNumber, i + |TextOf(p)|)
               case Some(v) => Ok(v, i + |TextOf(p)|)
  {
    hide NumberEnd, ReadNumber, TextOf, Meaning, WellFormed, NumberStops;
    PartsAreScanned(p, s, i);
    PartsAreRead(p);
  }

  lemma PrintedIntegerParses(n: int, s: Text, i: nat)
    requires At(s, i, PrintInteger(n)) && EndsNumber(s, i + |PrintInteger(n)|)
    ensures i < |s| && (48 <= s[i] <= 57 || s[i] == MINUS)
    ensures ParseNumber(s, i)
            == if MIN_LONG <= n <= MAX_LONG then Ok(Integer(n), i + |PrintInteger(n)|)
               else Fail(InvalidNumber, i + |PrintInteger(n)|)
  {
    hide PrintInteger, ParseNumber, TextOf, WellFormed, Meaning;
    IntegerHasParts(n);
    IntegerStarts(n);
    WrittenNumberParses(IntegerParts(n), s, i);
    IntegerPartsMean(n);
    FirstOfText(IntegerParts(n), s, i);
  }

  lemma PrintedDecimalParses(unscaled: int, scale: int, s: Text, i: nat)
    requires scale != 0 && MIN_INT <= scale <= MAX_INT
    requires At(s, i, PrintDecimal(unscaled, scale)) && EndsNumber(s, i + |PrintDecimal(unscaled, scale)|)
    ensures i < |s| && (48 <= s[i] <= 57 || s[i] == MINUS)
    ensures ParseNumber(s, i)
            == if Readable(unscaled, scale) then Ok(Decimal(unscaled, scale), i + |PrintDecimal(unscaled, scale)|)
               else Fail(InvalidNumber, i + |PrintDecimal(unscaled, scale)|)
  {
    hide PrintDecimal, ParseNumber, Readable, TextOf, WellFormed, Meaning, Digits;
    var p := DecimalParts(unscaled, scale);
    DecimalIsWellFormed(unscaled, scale);
    DecimalHasParts(unscaled, scale);
    DecimalStarts(unscaled, scale);
    DecimalEndsFirmly(unscaled, scale);
    WrittenNumberParses(p, s, i);
    DecimalPartsMean(unscaled, scale);
    FirstOfText(p, s, i);
  }

  lemma DecimalEndsFirmly(unscaled: int, scale: int)
    ensures var p := DecimalParts(unscaled, scale); p.exponent.Some? ==> p.exponent.value.digits != []
  {
    PrintedExponentIs(AdjustedExponent(unscaled, scale));
  }

  lemma IntegerStarts(n: int)
    ensures |PrintInteger(n)| > 0 && (48 <= PrintInteger(n)[0] <= 57 || PrintInteger(n)[0] == MINUS)
  {
    hide PrintInteger, TextOf;
    IntegerHasParts(n);
    TextStarts(IntegerParts(n));
  }

  lemma DecimalStarts(unscaled: int, scale: int)
    ensures var t := PrintDecimal(unscaled, scale); |t| > 0 && (48 <= t[0] <= 57 || t[0] == MINUS)
  {
    hide PrintInteger, TextOf, AdjustedExponent;
    if scale == 0 {
      IntegerStarts(unscaled);
    } else {
      DecimalIsWellFormed(unscaled, scale);
      DecimalHasParts(unscaled, scale);
      TextStarts(DecimalParts(unscaled, scale));
    }
  }

  lemma FirstOfText(p: Parts, s: Text, i: nat)
    requires WellFormed(p) && p.whole != [] && 48 <= p.whole[0] <= 57 && At(s, i, TextOf(p))
    ensures i < |s| && (48 <= s[i] <= 57 || s[i] == MINUS)
  {
    TextStarts(p);
    AtFirst(s, i, TextOf(p));
  }

  /** The digits of a number with its scale as exponent. */
  ghost function ScaledParts(unscaled: int, scale: int): Parts {
    Parts(unscaled < 0, Digits(Magnitude(unscaled)), false, [], Some(PrintedExponent(-scale)))
  }

  /** Every decimal that the host can hold, but for the least scale, is read from some text. */
  lemma EveryDecimalIsRead(unscaled: int, scale: int)
    requires MIN_INT < scale <= MAX_INT
    ensures var t := TextOf(ScaledParts(unscaled, scale)); Parse(t) == Ok(Decimal(unscaled, scale), |t|)
  {
    hide ParseNumber, Parse, Digits, TextOf, Meaning, WellFormed, IsDigit;
    var p := ScaledParts(unscaled, scale);
    var t := TextOf(p);
    ScaledPartsMean(unscaled, scale);
    AtWhole(t, []);
    assert t + [] == t;
    TextStarts(p);
    PrintedExponentIs(-scale);
    WrittenNumberParses(p, t, 0);
    NumberIsDocument(t);
  }

  lemma ScaledPartsMean(unscaled: int, scale: int)
    requires MIN_INT < scale <= MAX_INT
    ensures var p := ScaledParts(unscaled, scale);
            && WellFormed(p) && p.whole != [] && 48 <= p.whole[0] <= 57
            && Meaning(p) == Some(Decimal(unscaled, scale))
  {
    hide Digits, DigitsValue, AllDigits, ValueOf;
    var d := Digits(Magnitude(unscaled));
    DigitsMeanTheirNumber(Magnitude(unscaled));
    ValueOfIs(d);
    PrintedExponentIs(-scale);
    assert d + [] == d;
  }

  /** A printed number is known by its first character. */
  lemma TextStarts(p: Parts)
    requires WellFormed(p) && p.whole != [] && 48 <= p.whole[0] <= 57
    ensures |TextOf(p)| > 0 && (48 <= TextOf(p)[0] <= 57 || TextOf(p)[0] == MINUS)
  {
  }

  lemma NumberIsDocument(t: Text)
    requires |t| > 0 && (48 <= t[0] <= 57 || t[0] == MINUS)
    requires ParseNumber(t, 0).Ok? && ParseNumber(t, 0).next == |t|
    ensures Parse(t) == ParseNumber(t, 0)
  {
    hide ParseNumber;
    assert SkipWhitespace(t, 0) == 0;
  }
}
