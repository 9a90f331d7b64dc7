/** Timestamps and timing lines of SRT and WebVTT. */
module SubtitleTime {
  import opened Options
  import opened Strings

  datatype Format = Vtt | Srt

  const HOUR_MS: nat := 3_600_000

  /** The first millisecond whose hours need four digits. */
  const TIME_LIMIT: nat := 3_600_000_000

  // ---------------------------------------------------------------- parsing

  function DigitRun(s: string, i: nat): (j: nat)
    requires i <= |s|
    ensures i <= j <= |s| && AllDigits(s[i..j])
    ensures j < |s| ==> !IsDigit(s[j])
    decreases |s| - i
  {
    if i < |s| && IsDigit(s[i]) then
      var j := DigitRun(s, i + 1);
      assert s[i..j] == [s[i]] + s[i + 1..j];
      j
    else i
  }

  /** The four groups of `^(\d{1,3}):(\d{2})(?::(\d{2}))?[.,](\d{1,3})$`; the third may be
      absent. */
  datatype Fields = Fields(first: string, second: string, third: Option<string>, fraction: string)

  function MatchTimestamp(s: string): (r: Option<Fields>)
    ensures r.Some? ==>
              var f := r.value;
              && AllDigits(f.first) && 1 <= |f.first| <= 3
              && AllDigits(f.second) && |f.second| == 2
              && (f.third.Some? ==> AllDigits(f.third.value) && |f.third.value| == 2)
              && AllDigits(f.fraction) && 1 <= |f.fraction| <= 3
  {
    var a := DigitRun(s, 0);
    if !(1 <= a <= 3) || a == |s| || s[a] != ':' then None
    else
      var b := DigitRun(s, a + 1);
      if b != a + 3 || b == |s| then None
      else
        var c := if s[b] == ':' then DigitRun(s, b + 1) else b;
        if (s[b] == ':' && c != b + 3) || c == |s| || (s[c] != '.' && s[c] != ',') then None
        else
          var d := DigitRun(s, c + 1);
          if d != |s| || !(1 <= d - c - 1 <= 3) then None
          else Some(Fields(s[0..a], s[a + 1..b], if s[b] == ':' then Some(s[b + 1..c]) else None, s[c + 1..d]))
  }

  /** `Number(fraction.padEnd(3, "0"))` */
  function Milliseconds(fraction: string): nat
    requires AllDigits(fraction) && 1 <= |fraction| <= 3
  {
    NumberOf(fraction) * (if |fraction| == 1 then 100 else if |fraction| == 2 then 10 else 1)
  }

  function ParseStandardTimestamp(value: string, format: Format): Option<nat> {
    match MatchTimestamp(Trim(value))
    case None => None
    case Some(f) =>
      var fraction := Milliseconds(f.fraction);
      if f.third.None? then
        var minutes := NumberOf(f.first);
        if minutes >= 60 then None
        else if format == Vtt then Some((minutes * 60 + NumberOf(f.second)) * 1000 + fraction)
        else if fraction >= 1000 then None
        else Some(minutes * 60 * 1000 + fraction)
      else
        var minutes, seconds := NumberOf(f.second), NumberOf(f.third.value);
        if minutes >= 60 || seconds >= 60 || fraction >= 1000 then None
        else Some(((NumberOf(f.first) * 60 + minutes) * 60 + seconds) * 1000 + fraction)
  }

  datatype Timing = Timing(startMs: nat, endMs: nat)

  function SkipSpaces(s: string, i: nat): (j: nat)
    requires i <= |s|
    ensures i <= j <= |s| && (j < |s| ==> !IsSpace(s[j]))
    decreases |s| - i
  {
    if i < |s| && IsSpace(s[i]) then SkipSpaces(s, i + 1) else i
  }

  function SkipWord(s: string, i: nat): (j: nat)
    requires i <= |s|
    ensures i <= j <= |s| && (j < |s| ==> IsSpace(s[j]))
    decreases |s| - i
  {
    if i < |s| && !IsSpace(s[i]) then SkipWord(s, i + 1) else i
  }

  /** An arrow with white space on both sides, its leading white space starting at `j`. */
  predicate ArrowAt(s: string, j: nat) {
    && j < |s| && IsSpace(s[j])
    && var m := SkipSpaces(s, j);
       m + 3 < |s| && s[m..m + 3] == "-->" && IsSpace(s[m + 3])
  }

  function FindArrow(s: string, j: nat): (r: Option<nat>)
    ensures r.Some? ==> j <= r.value && ArrowAt(s, r.value)
    decreases |s| - j
  {
    if j >= |s| then None else if ArrowAt(s, j) then Some(j) else FindArrow(s, j + 1)
  }

  /** What `.` does not match. */
  predicate IsLineTerminator(c: char) { c == '\n' || c == '\r' || c as int == 0x2028 || c as int == 0x2029 }

  /** The two timestamps of `^\s*(.*?)\s+-->\s+(.*?)(?:\s+.*)?$`. Where backtracking could
      give other groups, these hold white space and are no timestamps. */
  function MatchTiming(line: string): Option<(string, string)> {
    var k := SkipSpaces(line, 0);
    match FindArrow(line, k)
    case None => None
    case Some(j) =>
      var q := SkipSpaces(line, SkipSpaces(line, j) + 3);
      var e := SkipWord(line, q);
      if exists n :: SkipSpaces(line, e) <= n < |line| && IsLineTerminator(line[n]) then None
      else Some((line[k..j], line[q..e]))
  }

  /** `parseTimingLine`: None is the thrown error. */
  function ParseTimingLine(line: string, format: Format): (r: Option<Timing>)
    ensures r.Some? ==> r.value.startMs < r.value.endMs
  {
    match MatchTiming(line)
    case None => None
    case Some(times) =>
      match (ParseStandardTimestamp(times.0, format), ParseStandardTimestamp(times.1, format))
      case (Some(start), Some(end)) => if end <= start then None else Some(Timing(start, end))
      case _ => None
  }

  // --------------------------------------------------------------- printing

  function FormatVttTimestamp(ms: nat): string {
    PadStart(Decimal(ms / HOUR_MS), 2) + ":"
    + PadStart(Decimal(ms % HOUR_MS / 60_000), 2) + ":"
    + PadStart(Decimal(ms % 60_000 / 1000), 2) + "."
    + PadStart(Decimal(ms % 1000), 3)
  }

  // ------------------------------------------------------------- round trip

  lemma {:induction false} DigitRunEnds(s: string, i: nat, j: nat)
    requires i <= j <= |s| && AllDigits(s[i..j]) && (j < |s| ==> !IsDigit(s[j]))
    ensures DigitRun(s, i) == j
    decreases j - i
  {
    if i < j {
      assert s[i] == s[i..j][0];
      assert s[i + 1..j] == s[i..j][1..];
      DigitRunEnds(s, i + 1, j);
    }
  }

  lemma MatchFullTimestamp(a: string, b: string, c: string, point: char, d: string)
    requires AllDigits(a) && 1 <= |a| <= 3
    requires AllDigits(b) && |b| == 2 && AllDigits(c) && |c| == 2
    requires AllDigits(d) && 1 <= |d| <= 3 && (point == '.' || point == ',')
    ensures MatchTimestamp(a + ":" + b + ":" + c + [point] + d) == Some(Fields(a, b, Some(c), d))
  {
    hide AllDigits, DigitRun;
    var s := a + ":" + b + ":" + c + [point] + d;
    var p, q, r := |a|, |a| + 3, |a| + 6;
    FullCut(a, b, c, point, d);
    DigitRunEnds(s, 0, p);
    DigitRunEnds(s, p + 1, q);
    DigitRunEnds(s, q + 1, r);
    DigitRunEnds(s, r + 1, |s|);
  }

  lemma FullCut(a: string, b: string, c: string, point: char, d: string)
    requires |b| == 2 && |c| == 2
    ensures var s, p, q, r := a + ":" + b + ":" + c + [point] + d, |a|, |a| + 3, |a| + 6;
            && s[0..p] == a && s[p + 1..q] == b && s[q + 1..r] == c && s[r + 1..|s|] == d
            && s[p] == ':' && s[q] == ':' && s[r] == point
  {
    var s, p, q, r := a + ":" + b + ":" + c + [point] + d, |a|, |a| + 3, |a| + 6;
    assert s == a + ([':'] + (b + ([':'] + (c + ([point] + d)))));
    assert s[p + 1..] == b + ([':'] + (c + ([point] + d)));
    assert s[q + 1..] == c + ([point] + d);
  }

  lemma PadTwo(n: nat)
    ensures var t := PadStart(Decimal(n), 2);
            AllDigits(t) && NumberOf(t) == n && |t| >= 2
            && (n < 100 ==> |t| == 2) && (n < 1000 <==> |t| <= 3)
  {
    NumberOfDecimal(n);
    DecimalLength(n);
    NumberOfPadded(Decimal(n), 2);
  }

  lemma PadThree(n: nat)
    requires n < 1000
    ensures var t := PadStart(Decimal(n), 3); AllDigits(t) && NumberOf(t) == n && |t| == 3
  {
    NumberOfDecimal(n);
    DecimalLength(n);
    NumberOfPadded(Decimal(n), 3);
  }

  lemma SplitMilliseconds(ms: nat)
    ensures ms % HOUR_MS / 60_000 < 60 && ms % 60_000 / 1000 < 60
    ensures ((ms / HOUR_MS * 60 + ms % HOUR_MS / 60_000) * 60 + ms % 60_000 / 1000) * 1000 + ms % 1000 == ms
  {
    var h, r := ms / HOUR_MS, ms % HOUR_MS;
    var m, t := r / 60_000, r % 60_000;
    MinuteRemainder(ms, h * 60 + m, t);
    SecondRemainder(ms, (h * 60 + m) * 60 + t / 1000, t % 1000);
  }

  lemma MinuteRemainder(x: nat, q: nat, r: nat)
    requires r < 60_000 && x == q * 60_000 + r
    ensures x % 60_000 == r
  {
  }

  lemma SecondRemainder(x: nat, q: nat, r: nat)
    requires r < 1000 && x == q * 1000 + r
    ensures x % 1000 == r
  {
  }

  lemma TimestampShape(ms: nat)
    ensures var t := FormatVttTimestamp(ms);
            |t| >= 12 && IsDigit(t[0]) && IsDigit(t[|t| - 1])
            && forall k :: 0 <= k < |t| ==> IsDigit(t[k]) || t[k] == ':' || t[k] == '.'
  {
    PadTwo(ms / HOUR_MS);
    PadTwo(ms % HOUR_MS / 60_000);
    PadTwo(ms % 60_000 / 1000);
    PadThree(ms % 1000);
  }

  /** A printed timestamp reads back as its own milliseconds, in both formats. */
  lemma TimestampRoundTrip(ms: nat, format: Format)
    requires ms < TIME_LIMIT
    ensures ParseStandardTimestamp(FormatVttTimestamp(ms), format) == Some(ms)
  {
    hide FormatVttTimestamp, MatchTimestamp, Trim, ParseStandardTimestamp, PadStart, Decimal, NumberOf, FractionMs;
    var a, b := PadStart(Decimal(ms / HOUR_MS), 2), PadStart(Decimal(ms % HOUR_MS / 60_000), 2);
    var c, d := PadStart(Decimal(ms % 60_000 / 1000), 2), PadStart(Decimal(ms % 1000), 3);
    PadTwo(ms / HOUR_MS);
    PadTwo(ms % HOUR_MS / 60_000);
    PadTwo(ms % 60_000 / 1000);
    PadThree(ms % 1000);
    SplitMilliseconds(ms);
    FormatIs(ms, a, b, c, d);
    WholeFraction(d);
    TimestampMeans(a, b, c, '.', d, format);
  }

  /** A text between two digits is not trimmed. */
  lemma DigitsStay(first: string, middle: string, last: string)
    requires first != "" && AllDigits(first) && last != "" && AllDigits(last)
    ensures Trim(first + middle + last) == first + middle + last
  {
    hide Trim;
    var s := first + middle + last;
    assert s[0] == first[0] && s[|s| - 1] == last[|last| - 1];
    TrimNothing(s);
  }

  function FractionMs(d: string): nat
    requires AllDigits(d)
  {
    NumberOf(d) * (if |d| == 1 then 100 else if |d| == 2 then 10 else 1)
  }

  lemma FieldsMean(value: string, f: Fields, format: Format)
    requires MatchTimestamp(Trim(value)) == Some(f) && f.third.Some?
    requires NumberOf(f.second) < 60 && NumberOf(f.third.value) < 60
    ensures ParseStandardTimestamp(value, format)
            == Some(NumberOf(f.first) * 3_600_000 + NumberOf(f.second) * 60_000 + NumberOf(f.third.value) * 1000
                    + FractionMs(f.fraction))
  {
    hide MatchTimestamp, Trim, NumberOf;
    MillisecondsBound(f.fraction);
  }

  lemma TwoFieldsMean(value: string, f: Fields)
    requires MatchTimestamp(Trim(value)) == Some(f) && f.third.None? && NumberOf(f.first) < 60
    ensures ParseStandardTimestamp(value, Vtt)
            == Some(NumberOf(f.first) * 60_000 + NumberOf(f.second) * 1000 + FractionMs(f.fraction))
  {
    hide MatchTimestamp, Trim, NumberOf;
    MillisecondsBound(f.fraction);
  }

  /** Hours, minutes, seconds and a fraction of one to three digits, behind a point or a comma:
      tenths, hundredths or thousandths of a second. */
  lemma TimestampMeans(a: string, b: string, c: string, point: char, d: string, format: Format)
    requires AllDigits(a) && 1 <= |a| <= 3
    requires AllDigits(b) && |b| == 2 && NumberOf(b) < 60
    requires AllDigits(c) && |c| == 2 && NumberOf(c) < 60
    requires AllDigits(d) && 1 <= |d| <= 3 && (point == '.' || point == ',')
    ensures ParseStandardTimestamp(a + ":" + b + ":" + c + [point] + d, format)
            == Some(NumberOf(a) * 3_600_000 + NumberOf(b) * 60_000 + NumberOf(c) * 1000 + FractionMs(d))
  {
    hide MatchTimestamp, ParseStandardTimestamp, Trim, NumberOf, AllDigits, FractionMs;
    var s := a + ":" + b + ":" + c + [point] + d;
    MatchFullTimestamp(a, b, c, point, d);
    assert s == a + (":" + b + ":" + c + [point]) + d;
    DigitsStay(a, ":" + b + ":" + c + [point], d);
    FieldsMean(s, Fields(a, b, Some(c), d), format);
  }

  /** A written time of two fields, which WebVTT takes for minutes and seconds. */
  lemma ShortTimestampMeans(b: string, c: string, point: char, d: string)
    requires AllDigits(b) && 1 <= |b| <= 3 && NumberOf(b) < 60
    requires AllDigits(c) && |c| == 2
    requires AllDigits(d) && 1 <= |d| <= 3 && (point == '.' || point == ',')
    ensures ParseStandardTimestamp(b + ":" + c + [point] + d, Vtt)
            == Some(NumberOf(b) * 60_000 + NumberOf(c) * 1000 + FractionMs(d))
  {
    hide MatchTimestamp, ParseStandardTimestamp, Trim, NumberOf, AllDigits, FractionMs;
    var s := b + ":" + c + [point] + d;
    MatchTwoFields(b, c, point, d);
    assert s == b + (":" + c + [point]) + d;
    DigitsStay(b, ":" + c + [point], d);
    TwoFieldsMean(s, Fields(b, c, None, d));
  }

  /** `hh:mm:ss,mmm`, and the same with a point. */
  function Stamp(h: nat, m: nat, s: nat, point: char, ms: nat): string {
    PadStart(Decimal(h), 2) + ":" + PadStart(Decimal(m), 2) + ":" + PadStart(Decimal(s), 2) + [point]
    + PadStart(Decimal(ms), 3)
  }

  /** Every ordinary time stamp is read as its milliseconds, in both formats. */
  lemma StampIsRead(h: nat, m: nat, s: nat, point: char, ms: nat, format: Format)
    requires h < 1000 && m < 60 && s < 60 && ms < 1000 && (point == '.' || point == ',')
    ensures ParseStandardTimestamp(Stamp(h, m, s, point, ms), format)
            == Some(h * 3_600_000 + m * 60_000 + s * 1000 + ms)
  {
    hide ParseStandardTimestamp, PadStart, Decimal, NumberOf, AllDigits, FractionMs;
    PadTwo(h);
    PadTwo(m);
    PadTwo(s);
    PadThree(ms);
    TimestampMeans(PadStart(Decimal(h), 2), PadStart(Decimal(m), 2), PadStart(Decimal(s), 2), point,
                   PadStart(Decimal(ms), 3), format);
    WholeFraction(PadStart(Decimal(ms), 3));
  }

  /** A time is printed as its hours, minutes, seconds and milliseconds. */
  lemma TimeIsPrinted(h: nat, m: nat, s: nat, ms: nat)
    requires m < 60 && s < 60 && ms < 1000
    ensures FormatVttTimestamp(h * 3_600_000 + m * 60_000 + s * 1000 + ms) == Stamp(h, m, s, '.', ms)
  {
    hide PadStart, Decimal;
    var t := h * 3_600_000 + m * 60_000 + s * 1000 + ms;
    var r := m * 60_000 + s * 1000 + ms;
    assert t == h * HOUR_MS + r && t / HOUR_MS == h && t % HOUR_MS == r;
    assert r / 60_000 == m;
    MinuteRemainder(t, h * 60 + m, s * 1000 + ms);
    SecondRemainder(t, (h * 60 + m) * 60 + s, ms);
  }

  lemma WholeFraction(d: string)
    requires AllDigits(d) && |d| == 3
    ensures FractionMs(d) == NumberOf(d)
  {
  }

  lemma PartFraction(d: string)
    requires AllDigits(d)
    ensures |d| == 1 ==> FractionMs(d) == NumberOf(d) * 100
    ensures |d| == 2 ==> FractionMs(d) == NumberOf(d) * 10
  {
  }

  /** One digit behind the comma is tenths of a second. */
  lemma TenthsAreRead(h: nat, m: nat, s: nat, point: char, tenths: nat, format: Format)
    requires h < 1000 && m < 60 && s < 60 && tenths < 10 && (point == '.' || point == ',')
    ensures ParseStandardTimestamp(PadStart(Decimal(h), 2) + ":" + PadStart(Decimal(m), 2) + ":"
                                   + PadStart(Decimal(s), 2) + [point] + Decimal(tenths), format)
            == Some(h * 3_600_000 + m * 60_000 + s * 1000 + tenths * 100)
  {
    hide ParseStandardTimestamp, PadStart, Decimal, NumberOf, AllDigits, FractionMs;
    PadTwo(h);
    PadTwo(m);
    PadTwo(s);
    PartFraction(Decimal(tenths));
    NumberOfDecimal(tenths);
    DecimalLength(tenths);
    TimestampMeans(PadStart(Decimal(h), 2), PadStart(Decimal(m), 2), PadStart(Decimal(s), 2), point,
                   Decimal(tenths), format);
  }

  /** Two are hundredths. */
  lemma HundredthsAreRead(h: nat, m: nat, s: nat, point: char, hundredths: nat, format: Format)
    requires h < 1000 && m < 60 && s < 60 && hundredths < 100 && (point == '.' || point == ',')
    ensures ParseStandardTimestamp(PadStart(Decimal(h), 2) + ":" + PadStart(Decimal(m), 2) + ":"
                                   + PadStart(Decimal(s), 2) + [point] + PadStart(Decimal(hundredths), 2), format)
            == Some(h * 3_600_000 + m * 60_000 + s * 1000 + hundredths * 10)
  {
    hide ParseStandardTimestamp, PadStart, Decimal, NumberOf, AllDigits, FractionMs;
    PadTwo(h);
    PadTwo(m);
    PadTwo(s);
    PadTwo(hundredths);
    PartFraction(PadStart(Decimal(hundredths), 2));
    TimestampMeans(PadStart(Decimal(h), 2), PadStart(Decimal(m), 2), PadStart(Decimal(s), 2), point,
                   PadStart(Decimal(hundredths), 2), format);
  }

  lemma FormatIs(ms: nat, a: string, b: string, c: string, d: string)
    requires a == PadStart(Decimal(ms / HOUR_MS), 2) && b == PadStart(Decimal(ms % HOUR_MS / 60_000), 2)
    requires c == PadStart(Decimal(ms % 60_000 / 1000), 2) && d == PadStart(Decimal(ms % 1000), 3)
    ensures FormatVttTimestamp(ms) == a + ":" + b + ":" + c + "." + d
  {
  }

  /** Exactly the times below a thousand hours read back; later ones are no timestamps. */
  lemma TimestampReadsBackIff(ms: nat, format: Format)
    ensures ParseStandardTimestamp(FormatVttTimestamp(ms), format).Some? <==> ms < TIME_LIMIT
  {
    if ms < TIME_LIMIT {
      TimestampRoundTrip(ms, format);
    } else {
      var t := FormatVttTimestamp(ms);
      var a := PadStart(Decimal(ms / HOUR_MS), 2);
      PadTwo(ms / HOUR_MS);
      assert t[0..|a|] == a && t[|a|] == ':';
      DigitRunEnds(t, 0, |a|);
      TimestampShape(ms);
      TrimNothing(t);
    }
  }

  // --------------------------------------------- two-field timestamps

  /** The moment a timestamp of minutes and seconds names. */
  function TwoFieldMeaning(f: Fields): nat
    requires AllDigits(f.first) && AllDigits(f.second) && AllDigits(f.fraction) && 1 <= |f.fraction| <= 3
  {
    (NumberOf(f.first) * 60 + NumberOf(f.second)) * 1000 + Milliseconds(f.fraction)
  }

  lemma {:induction false} DigitsBound(s: string)
    requires AllDigits(s) && |s| <= 3
    ensures NumberOf(s) < if |s| == 0 then 1 else if |s| == 1 then 10 else if |s| == 2 then 100 else 1000
  {
    if s != "" {
      DigitsBound(s[..|s| - 1]);
    }
  }

  /** An SRT timestamp of two fields is read correctly exactly when its minutes are below 60
      and its seconds are zero: the code drops them. */
  lemma SrtTwoFieldIff(value: string, f: Fields)
    requires MatchTimestamp(Trim(value)) == Some(f) && f.third == None
    ensures ParseStandardTimestamp(value, Srt) == Some(TwoFieldMeaning(f))
            <==> NumberOf(f.first) < 60 && NumberOf(f.second) == 0
  {
    MillisecondsBound(f.fraction);
  }

  lemma MatchTwoFields(a: string, b: string, point: char, d: string)
    requires AllDigits(a) && 1 <= |a| <= 3 && AllDigits(b) && |b| == 2 && AllDigits(d) && 1 <= |d| <= 3
    requires point == ',' || point == '.'
    ensures MatchTimestamp(a + ":" + b + [point] + d) == Some(Fields(a, b, None, d))
  {
    hide AllDigits, DigitRun;
    var s := a + ":" + b + [point] + d;
    var p, q := |a|, |a| + 3;
    TwoFieldsCut(a, b, point, d);
    DigitRunEnds(s, 0, p);
    DigitRunEnds(s, p + 1, q);
    DigitRunEnds(s, q + 1, |s|);
  }

  lemma TwoFieldsCut(a: string, b: string, point: char, d: string)
    requires |b| == 2
    ensures var s, p, q := a + ":" + b + [point] + d, |a|, |a| + 3;
            && s[0..p] == a && s[p + 1..q] == b && s[q + 1..|s|] == d
            && s[p] == ':' && s[q] == point
  {
    var s, p, q := a + ":" + b + [point] + d, |a|, |a| + 3;
    assert s == a + ([':'] + (b + ([point] + d)));
    assert s[p + 1..] == b + ([point] + d);
  }

  lemma SomeNumbers()
    ensures NumberOf("00") == 0 && NumberOf("05") == 5 && NumberOf("75") == 75 && NumberOf("000") == 0
  {
    assert "00"[..1] == "0" && "05"[..1] == "0" && "0"[..0] == "" && "000"[..2] == "00";
    assert "75"[..1] == "7" && "7"[..0] == "";
  }

  /** Five seconds are read as none, and seventy-five minutes are refused. */
  lemma SrtLosesSeconds()
    ensures MatchTimestamp(Trim("00:05,000")) == Some(Fields("00", "05", None, "000"))
    ensures ParseStandardTimestamp("00:05,000", Srt) == Some(0)
            && TwoFieldMeaning(Fields("00", "05", None, "000")) == 5000
    ensures ParseStandardTimestamp("75:00,000", Srt) == None
  {
    hide MatchTimestamp, NumberOf, Trim;
    assert "00" + ":" + "05" + "," + "000" == "00:05,000";
    assert "75" + ":" + "00" + "," + "000" == "75:00,000";
    TrimNothing("00:05,000");
    TrimNothing("75:00,000");
    MatchTwoFields("00", "05", ',', "000");
    MatchTwoFields("75", "00", ',', "000");
    SomeNumbers();
  }

  /** A WebVTT timestamp of two fields is accepted exactly when its minutes are below 60; it
      then means its seconds, even more than 59, where one of three fields is refused. */
  lemma VttTwoFieldIff(value: string, f: Fields)
    requires MatchTimestamp(Trim(value)) == Some(f)
    ensures f.third == None ==>
              && (ParseStandardTimestamp(value, Vtt).Some? <==> NumberOf(f.first) < 60)
              && (NumberOf(f.first) < 60 ==> ParseStandardTimestamp(value, Vtt) == Some(TwoFieldMeaning(f)))
    ensures f.third.Some? ==>
              (ParseStandardTimestamp(value, Vtt).Some? <==> NumberOf(f.second) < 60 && NumberOf(f.third.value) < 60)
  {
    hide MatchTimestamp, Trim, NumberOf;
    MillisecondsBound(f.fraction);
  }

  /** Seventy-five seconds are accepted, seventy-five minutes are not. */
  lemma VttTakesManySeconds()
    ensures MatchTimestamp(Trim("00:75.000")) == Some(Fields("00", "75", None, "000"))
    ensures ParseStandardTimestamp("00:75.000", Vtt) == Some(75_000)
    ensures ParseStandardTimestamp("75:00.000", Vtt) == None
  {
    hide MatchTimestamp, NumberOf, Trim;
    assert "00" + ":" + "75" + "." + "000" == "00:75.000";
    assert "75" + ":" + "00" + "." + "000" == "75:00.000";
    TrimNothing("00:75.000");
    TrimNothing("75:00.000");
    MatchTwoFields("00", "75", '.', "000");
    MatchTwoFields("75", "00", '.', "000");
    SomeNumbers();
  }

  lemma MillisecondsBound(fraction: string)
    requires AllDigits(fraction) && 1 <= |fraction| <= 3
    ensures Milliseconds(fraction) < 1000
  {
    DigitsBound(fraction);
  }

  /** Every accepted timestamp, of either format and with two fields or three, can be printed
      and read back. */
  lemma TimestampInRange(value: string, format: Format)
    requires ParseStandardTimestamp(value, format).Some?
    ensures ParseStandardTimestamp(value, format).value < TIME_LIMIT
  {
    hide MatchTimestamp, Trim, NumberOf;
    var f := MatchTimestamp(Trim(value)).value;
    DigitsBound(f.first);
    DigitsBound(f.second);
    MillisecondsBound(f.fraction);
  }

  // --------------------------------------------------------- timing lines

  predicate NoSpaces(s: string) { forall k :: 0 <= k < |s| ==> !IsSpace(s[k]) }

  lemma {:induction false} WordEnds(s: string, i: nat, j: nat)
    requires i <= j <= |s| && (forall k :: i <= k < j ==> !IsSpace(s[k])) && (j < |s| ==> IsSpace(s[j]))
    ensures SkipWord(s, i) == j
    decreases j - i
  {
    if i < j {
      WordEnds(s, i + 1, j);
    }
  }

  lemma {:induction false} NoArrowBefore(s: string, i: nat, j: nat)
    requires i <= j && ArrowAt(s, j) && forall k :: i <= k < j ==> !IsSpace(s[k])
    ensures FindArrow(s, i) == Some(j)
    decreases j - i
  {
    if i < j {
      NoArrowBefore(s, i + 1, j);
    }
  }

  /** A line `a --> b` followed by nothing or by a setting. */
  lemma TimingLineMatches(a: string, b: string, setting: string)
    requires a != "" && NoSpaces(a) && b != "" && NoSpaces(b)
    requires setting == "" || (setting[0] == ' ' && forall k :: 0 <= k < |setting| ==> !IsLineTerminator(setting[k]))
    ensures MatchTiming(a + " --> " + b + setting) == Some((a, b))
  {
    hide IsLineTerminator;
    var s := a + " --> " + b + setting;
    var j := |a|;
    assert s[..j] == a && s[j..j + 5] == " --> " && s[j + 5..j + 5 + |b|] == b;
    assert s[j] == ' ' && s[j + 1] == '-' && s[j + 4] == ' ';
    assert s[j + 1..j + 4] == "-->";
    assert SkipSpaces(s, 0) == 0;
    assert SkipSpaces(s, j) == j + 1;
    NoArrowBefore(s, 0, j);
    assert s[j + 5] == b[0];
    assert SkipSpaces(s, j + 4) == j + 5;
    assert setting != "" ==> s[j + 5 + |b|] == setting[0];
    WordEnds(s, j + 5, j + 5 + |b|);
    forall n | j + 5 + |b| <= n < |s| ensures !IsLineTerminator(s[n]) {
      assert s[n] == setting[n - (j + 5 + |b|)];
    }
    assert s[0..j] == a;
  }
}
