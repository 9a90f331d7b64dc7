/** Printing WebVTT and reading it back, and converting SRT to WebVTT. */
module SubtitleRoundTrip {
  import opened Options
  import opened Strings
  import opened SubtitleTime
  import opened Subtitles

  // -------------------------------------------------------------- conditions

  predicate IdOk(id: string) {
    && id != "" && Trim(id) == id && !Contains(id, ARROW) && !Reserved(id)
    && '\n' !in id && '\r' !in id
  }

  /** No carriage return, and no blank line unless the text is empty. */
  predicate TextOk(text: string) {
    '\r' !in text && (text == "" || forall k :: 0 <= k < |Split(text, '\n')| ==> !IsBlank(Split(text, '\n')[k]))
  }

  predicate Printable(cue: Cue) {
    && (cue.id.Some? ==> IdOk(cue.id.value))
    && cue.startMs < cue.endMs < TIME_LIMIT
    && TextOk(cue.text)
  }

  /** What reading a printed cue gives: its id or number, its times, its text escaped. */
  function ReadBack(cue: Cue, index: nat): Cue {
    Cue(Some(IdText(cue, index)), cue.startMs, cue.endMs, SanitizeText(cue.text))
  }

  function ReadBackAll(cues: seq<Cue>, n: nat): seq<Cue>
    requires n <= |cues|
    decreases |cues| - n
  {
    if n == |cues| then [] else [ReadBack(cues[n], n)] + ReadBackAll(cues, n + 1)
  }

  // ----------------------------------------------------- the printed lines

  function CueLines(cue: Cue, index: nat, top: bool): seq<string> {
    [IdText(cue, index), TimingText(cue, top)] + Split(cue.text, '\n') + [""]
  }

  function LinesFrom(cues: seq<Cue>, n: nat, top: bool): seq<string>
    requires n <= |cues|
    decreases |cues| - n
  {
    if n == |cues| then [] else CueLines(cues[n], n, top) + LinesFrom(cues, n + 1, top)
  }

  function AllLines(cues: seq<Cue>, top: bool): seq<string> {
    ["WEBVTT", ""] + if cues == [] then [""] else LinesFrom(cues, 0, top)
  }

  lemma CueTextIs(cue: Cue, index: nat, top: bool)
    ensures Join(CueLines(cue, index, top), "\n") == PrintCue(cue, index, top) + "\n"
  {
    hide IdText, TimingText;
    var head, text := [IdText(cue, index), TimingText(cue, top)], Split(cue.text, '\n');
    JoinSplit(cue.text, '\n');
    JoinAppend(head, text, "\n");
    JoinAppend(head, [cue.text], "\n");
    assert head + [cue.text] == [IdText(cue, index), TimingText(cue, top), cue.text];
    JoinAppend(head + text, [""], "\n");
    assert PrintCue(cue, index, top) + "\n" + "" == PrintCue(cue, index, top) + "\n";
  }

  lemma {:induction false} BodyIs(cues: seq<Cue>, n: nat, top: bool)
    requires n < |cues|
    ensures Join(LinesFrom(cues, n, top), "\n") == Join(PrintCues(cues, top)[n..], "\n\n") + "\n"
    decreases |cues| - n
  {
    hide PrintCue, CueLines;
    CueTextIs(cues[n], n, top);
    var blocks := PrintCues(cues, top)[n..];
    assert blocks[0] == PrintCue(cues[n], n, top);
    if n + 1 == |cues| {
      assert LinesFrom(cues, n + 1, top) == [];
      assert CueLines(cues[n], n, top) + [] == CueLines(cues[n], n, top);
    } else {
      BodyIs(cues, n + 1, top);
      assert blocks[1..] == PrintCues(cues, top)[n + 1..];
      LinesNotEmpty(cues, n, top);
      LinesNotEmpty(cues, n + 1, top);
      CueLinesNotEmpty(cues[n], n, top);
      JoinAppend(CueLines(cues[n], n, top), LinesFrom(cues, n + 1, top), "\n");
      var p, rest := PrintCue(cues[n], n, top), Join(blocks[1..], "\n\n");
      assert p + "\n" + "\n" + (rest + "\n") == p + "\n\n" + rest + "\n";
    }
  }

  lemma CueLinesNotEmpty(cue: Cue, n: nat, top: bool)
    ensures |CueLines(cue, n, top)| >= 4
  {
  }

  lemma LinesNotEmpty(cues: seq<Cue>, n: nat, top: bool)
    requires n < |cues|
    ensures |LinesFrom(cues, n, top)| > 0
  {
  }

  lemma PrintedTextIs(cues: seq<Cue>, top: bool)
    ensures ToWebVtt(cues, top) == Join(AllLines(cues, top), "\n")
  {
    hide PrintCue, CueLines;
    if cues == [] {
      assert PrintCues(cues, top) == [];
    } else {
      BodyIs(cues, 0, top);
      LinesNotEmpty(cues, 0, top);
      assert PrintCues(cues, top)[0..] == PrintCues(cues, top);
      var body := Join(PrintCues(cues, top), "\n\n");
      BodyNotEmpty(cues, top);
      JoinAppend(["WEBVTT", ""], LinesFrom(cues, 0, top), "\n");
      assert Join(["WEBVTT", ""], "\n") == "WEBVTT" + "\n" + "";
      assert "WEBVTT" + "\n" + "" + "\n" + (body + "\n") == "WEBVTT\n\n" + body + "\n";
    }
  }

  lemma BodyNotEmpty(cues: seq<Cue>, top: bool)
    requires cues != []
    ensures Join(PrintCues(cues, top), "\n\n") != ""
  {
    TimestampShape(cues[0].startMs);
    assert PrintCues(cues, top)[0] == PrintCue(cues[0], 0, top);
    assert |PrintCue(cues[0], 0, top)| > 0;
  }

  // ------------------------------------------------------ lines are clean

  /** Neither kind of line break. */
  predicate Clean(s: string) { '\n' !in s && '\r' !in s }

  lemma PrefixFirst(p: string, s: string)
    requires p != "" && p <= s
    ensures s != "" && s[0] == p[0]
  {
  }

  lemma {:induction false} DigitsHaveNoArrow(d: string)
    requires AllDigits(d)
    ensures !Contains(d, ARROW)
  {
    if d != "" {
      if ARROW <= d {
        PrefixFirst(ARROW, d);
      }
      DigitsHaveNoArrow(d[1..]);
    }
  }

  lemma NumberIdOk(n: nat)
    ensures IdOk(Decimal(n))
  {
    var d := Decimal(n);
    TrimNothing(d);
    DigitsHaveNoArrow(d);
    assert IsDigit(d[0]);
  }

  lemma IdTextOk(cue: Cue, index: nat)
    requires Printable(cue)
    ensures IdOk(IdText(cue, index))
  {
    hide IdOk;
    NumberIdOk(index + 1);
  }

  lemma TimingTextClean(cue: Cue, top: bool)
    ensures Clean(TimingText(cue, top)) && TimingText(cue, top) != ""
    ensures Trim(TimingText(cue, top)) == TimingText(cue, top) && Contains(TimingText(cue, top), ARROW)
  {
    hide FormatVttTimestamp, Contains, Trim;
    var a, b := FormatVttTimestamp(cue.startMs), FormatVttTimestamp(cue.endMs);
    TimestampShape(cue.startMs);
    TimestampShape(cue.endMs);
    var s := TimingText(cue, top);
    assert s[|a| + 1..|a| + 4] == "-->";
    ContainsAt(s, ARROW, |a| + 1);
    assert s[0] == a[0];
    assert s[|s| - 1] == if top then '%' else b[|b| - 1];
    TrimNothing(s);
  }

  lemma CueLinesClean(cue: Cue, n: nat, top: bool)
    requires Printable(cue)
    ensures forall p :: p in CueLines(cue, n, top) ==> Clean(p)
  {
    hide TimingText, IdText, Trim, Contains, Reserved, IsBlank, Split;
    IdTextOk(cue, n);
    TimingTextClean(cue, top);
    PartsClean(cue.text);
  }

  lemma PartsClean(text: string)
    requires '\r' !in text
    ensures forall k :: 0 <= k < |Split(text, '\n')| ==> Clean(Split(text, '\n')[k])
  {
    hide Split;
    var parts := Split(text, '\n');
    forall k | 0 <= k < |parts| ensures Clean(parts[k]) {
      if '\n' in parts[k] {
        SplitParts(text, '\n', k, '\n');
      }
      if '\r' in parts[k] {
        SplitParts(text, '\n', k, '\r');
      }
    }
  }

  lemma {:induction false} LinesClean(cues: seq<Cue>, n: nat, top: bool)
    requires n <= |cues| && forall k :: 0 <= k < |cues| ==> Printable(cues[k])
    ensures forall p :: p in LinesFrom(cues, n, top) ==> Clean(p)
    decreases |cues| - n
  {
    hide Printable, CueLines, Clean;
    if n < |cues| {
      LinesClean(cues, n + 1, top);
      CueLinesClean(cues[n], n, top);
    }
  }

  lemma {:induction false} JoinFree(parts: seq<string>, sep: string, c: char)
    requires c !in sep && forall p :: p in parts ==> c !in p
    ensures c !in Join(parts, sep)
  {
    if |parts| > 1 {
      JoinFree(parts[1..], sep, c);
    }
  }

  /** The reader sees exactly the lines that were printed. */
  lemma PrintedLines(cues: seq<Cue>, top: bool)
    requires forall k :: 0 <= k < |cues| ==> Printable(cues[k])
    ensures NormalizedLines(ToWebVtt(cues, top)) == AllLines(cues, top)
  {
    hide LinesFrom, ToWebVtt, Printable, UnixNewlines;
    LinesClean(cues, 0, top);
    var lines := AllLines(cues, top);
    var text := ToWebVtt(cues, top);
    PrintedTextIs(cues, top);
    JoinFree(lines, "\n", '\r');
    assert text[0] == 'W';
    NoCarriageReturn(text);
    SplitJoin(lines, '\n');
  }

  // ------------------------------------------------------------ reading back

  lemma TimingLineReads(cue: Cue, top: bool, format: Format)
    requires cue.startMs < cue.endMs < TIME_LIMIT
    ensures ParseTimingLine(TimingText(cue, top), format) == Some(Timing(cue.startMs, cue.endMs))
  {
    hide FormatVttTimestamp, MatchTiming, ParseStandardTimestamp, IsLineTerminator;
    var a, b := FormatVttTimestamp(cue.startMs), FormatVttTimestamp(cue.endMs);
    TimestampShape(cue.startMs);
    TimestampShape(cue.endMs);
    SettingOk(top);
    TimingLineMatches(a, b, CueSetting(top));
    TimestampRoundTrip(cue.startMs, format);
    TimestampRoundTrip(cue.endMs, format);
  }

  lemma SettingOk(top: bool)
    ensures var s := CueSetting(top);
            s == "" || (s[0] == ' ' && forall k :: 0 <= k < |s| ==> !IsLineTerminator(s[k]))
  {
  }

  lemma {:induction false} SkipBlankTo(lines: seq<string>, i: nat, j: nat)
    requires i <= j <= |lines| && (forall k :: i <= k < j ==> IsBlank(lines[k]))
    requires j < |lines| ==> !IsBlank(lines[j])
    ensures SkipBlankLines(lines, i) == j
    decreases j - i
  {
    hide IsBlank;
    if i < j {
      SkipBlankTo(lines, i + 1, j);
    }
  }

  lemma {:induction false} SkipTextTo(lines: seq<string>, i: nat, j: nat)
    requires i <= j <= |lines| && (forall k :: i <= k < j ==> !IsBlank(lines[k]))
    requires j < |lines| ==> IsBlank(lines[j])
    ensures SkipTextLines(lines, i) == j
    decreases j - i
  {
    hide IsBlank;
    if i < j {
      SkipTextTo(lines, i + 1, j);
    }
  }

  /** The lines of one printed cue, standing at `p`, are read as that cue; what follows them
      up to the next cue is blank. */
  lemma CueReads(lines: seq<string>, p: nat, cue: Cue, index: nat, top: bool)
    requires Printable(cue)
    requires p + |CueLines(cue, index, top)| <= |lines|
    requires lines[p..p + |CueLines(cue, index, top)|] == CueLines(cue, index, top)
    ensures !IsBlank(lines[p]) && !Reserved(Trim(lines[p]))
    ensures var r := ParseCue(lines, p);
            && r.Some? && r.value.0 == ReadBack(cue, index)
            && p < r.value.1 < p + |CueLines(cue, index, top)|
            && forall k :: r.value.1 <= k < p + |CueLines(cue, index, top)| ==> IsBlank(lines[k])
  {
    hide IsBlank, Contains, Trim, Reserved, TimingText, IdText, SanitizeText, ParseTimingLine, ParseCue, TextOk, Split;
    var own := CueLines(cue, index, top);
    var text := Split(cue.text, '\n');
    IdTextOk(cue, index);
    TimingTextClean(cue, top);
    TimingLineReads(cue, top, Vtt);
    assert forall k :: 0 <= k < |own| ==> lines[p + k] == own[k];
    assert lines[p] == IdText(cue, index) && lines[p + 1] == TimingText(cue, top);
    assert forall k :: 0 <= k < |text| ==> lines[p + 2 + k] == text[k];
    assert lines[p + 2 + |text|] == "";
    EmptyIsBlank();
    IdNotBlank(IdText(cue, index));
    TextReads(lines, p + 2, cue.text);
    CueIs(lines, p, cue, index, top);
  }

  lemma CueIs(lines: seq<string>, p: nat, cue: Cue, index: nat, top: bool)
    requires p + 1 < |lines| && !IsBlank(lines[p])
    requires lines[p] == IdText(cue, index) && lines[p + 1] == TimingText(cue, top)
    requires Trim(lines[p]) == lines[p] && !Contains(lines[p], ARROW)
    requires Trim(lines[p + 1]) == lines[p + 1] && Contains(lines[p + 1], ARROW)
    requires ParseTimingLine(lines[p + 1], Vtt) == Some(Timing(cue.startMs, cue.endMs))
    requires Join(lines[p + 2..SkipTextLines(lines, p + 2)], "\n") == cue.text
    ensures ParseCue(lines, p) == Some((ReadBack(cue, index), SkipTextLines(lines, p + 2)))
  {
    hide IsBlank, Contains, Trim, TimingText, IdText, SanitizeText, ParseTimingLine;
  }

  lemma EmptyIsBlank()
    ensures IsBlank("")
  {
  }

  lemma IdNotBlank(id: string)
    requires IdOk(id)
    ensures !IsBlank(id)
  {
  }

  /** The lines of a text are collected up to the first blank one and joined again. */
  lemma TextReads(lines: seq<string>, i: nat, text: string)
    requires TextOk(text) && i + |Split(text, '\n')| < |lines|
    requires forall k :: 0 <= k < |Split(text, '\n')| ==> lines[i + k] == Split(text, '\n')[k]
    requires IsBlank(lines[i + |Split(text, '\n')|])
    ensures var end := SkipTextLines(lines, i);
            && end <= i + |Split(text, '\n')|
            && Join(lines[i..end], "\n") == text
            && forall k :: end <= k <= i + |Split(text, '\n')| ==> IsBlank(lines[k])
  {
    hide IsBlank;
    var parts := Split(text, '\n');
    JoinSplit(text, '\n');
    EmptyIsBlank();
    if text == "" {
      SkipTextTo(lines, i, i);
      assert lines[i..i] == [];
    } else {
      assert forall k :: i <= k < i + |parts| ==> lines[k] == parts[k - i];
      SkipTextTo(lines, i, i + |parts|);
      assert lines[i..i + |parts|] == parts;
    }
  }

  lemma CueLinesThere(lines: seq<string>, p: nat, cues: seq<Cue>, n: nat, top: bool)
    requires p <= |lines| && n < |cues| && lines[p..] == LinesFrom(cues, n, top)
    ensures var own := CueLines(cues[n], n, top);
            && p + |own| <= |lines| && lines[p..p + |own|] == own
            && lines[p + |own|..] == LinesFrom(cues, n + 1, top)
  {
    hide CueLines;
    var own := CueLines(cues[n], n, top);
    assert lines[p..p + |own|] == lines[p..][..|own|];
    assert lines[p + |own|..] == lines[p..][|own|..];
  }

  lemma {:induction false} CuesRead(lines: seq<string>, i: nat, p: nat, cues: seq<Cue>, n: nat, top: bool, acc: seq<Cue>)
    requires forall k :: 0 <= k < |cues| ==> Printable(cues[k])
    requires n <= |cues| && i <= p <= |lines| && (forall k :: i <= k < p ==> IsBlank(lines[k]))
    requires lines[p..] == LinesFrom(cues, n, top)
    ensures ParseCues(lines, i, acc) == Cues(acc + ReadBackAll(cues, n))
    decreases |cues| - n
  {
    hide IsBlank, Reserved, CueLines, ParseCue, ReadBack, Printable, ParseCues, LinesFrom, SkipBlankLines;
    if n == |cues| {
      NoLinesLeft(cues, top);
      SkipBlankTo(lines, i, p);
      CuesEnd(lines, i, acc);
      assert acc + [] == acc;
    } else {
      var next := p + |CueLines(cues[n], n, top)|;
      CueLinesThere(lines, p, cues, n, top);
      CueReads(lines, p, cues[n], n, top);
      SkipBlankTo(lines, i, p);
      var r := ParseCue(lines, p).value;
      CueStep(lines, i, p, acc);
      CuesRead(lines, r.1, next, cues, n + 1, top, acc + [r.0]);
      assert acc + [r.0] + ReadBackAll(cues, n + 1) == acc + ([r.0] + ReadBackAll(cues, n + 1));
    }
  }

  lemma NoLinesLeft(cues: seq<Cue>, top: bool)
    ensures LinesFrom(cues, |cues|, top) == []
  {
  }

  lemma CueStep(lines: seq<string>, i: nat, p: nat, acc: seq<Cue>)
    requires i <= p < |lines| && SkipBlankLines(lines, i) == p && !Reserved(Trim(lines[p]))
    requires !IsBlank(lines[p]) && ParseCue(lines, p).Some?
    ensures ParseCues(lines, i, acc)
            == ParseCues(lines, ParseCue(lines, p).value.1, acc + [ParseCue(lines, p).value.0])
  {
    hide IsBlank, Reserved, ParseCue;
  }

  lemma CuesEnd(lines: seq<string>, i: nat, acc: seq<Cue>)
    requires i <= |lines| && SkipBlankLines(lines, i) == |lines|
    ensures ParseCues(lines, i, acc) == Cues(acc)
  {
  }

  // -------------------------------------------------------------- the results

  /** Printed WebVTT reads back as the same cues in order, with the same times; each text
      comes back escaped. */
  lemma WebVttRoundTrip(cues: seq<Cue>, top: bool)
    requires forall k :: 0 <= k < |cues| ==> Printable(cues[k])
    ensures ParseWebVtt(ToWebVtt(cues, top)) == Cues(ReadBackAll(cues, 0))
  {
    hide NormalizedLines, ToWebVtt, Printable, LinesFrom, IsBlank, ReadBackAll;
    var lines := AllLines(cues, top);
    PrintedLines(cues, top);
    EmptyIsBlank();
    if cues == [] {
      NoCues(lines, top);
    } else {
      assert lines[2..] == LinesFrom(cues, 0, top);
      CuesRead(lines, 1, 2, cues, 0, top, []);
      assert [] + ReadBackAll(cues, 0) == ReadBackAll(cues, 0);
    }
  }

  lemma NoCues(lines: seq<string>, top: bool)
    requires lines == ["WEBVTT", "", ""]
    ensures ParseCues(lines, 1, []) == Cues(ReadBackAll([], 0))
  {
    SkipBlankTo(lines, 1, 3);
  }

  lemma {:induction false} ReadBackAllAt(cues: seq<Cue>, n: nat, k: nat)
    requires n <= k < |cues|
    ensures |ReadBackAll(cues, n)| == |cues| - n && ReadBackAll(cues, n)[k - n] == ReadBack(cues[k], k)
    decreases |cues| - n
  {
    if n < k {
      ReadBackAllAt(cues, n + 1, k);
    } else if n + 1 < |cues| {
      ReadBackAllAt(cues, n + 1, n + 1);
    }
  }

  // ------------------------------------------------------------- SRT to WebVTT

  /** What an SRT cue always has, whatever the text it was read from. */
  predicate SrtCue(cue: Cue) {
    && (cue.id.Some? ==>
          var id := cue.id.value;
          id != "" && Trim(id) == id && !Contains(id, ARROW) && '\n' !in id && '\r' !in id)
    && cue.startMs < cue.endMs < TIME_LIMIT
    && '\r' !in cue.text
  }

  lemma {:induction false} ReplaceAllFree(s: string, c: char, text: string, x: char)
    requires x !in text && x !in s
    ensures x !in ReplaceAll(s, c, text)
  {
    if s != "" {
      ReplaceAllFree(s[1..], c, text, x);
    }
  }

  lemma SanitizedHasNoReturn(s: string)
    ensures '\r' !in SanitizeText(s)
  {
    hide UnixNewlines, ReplaceAll;
    var a := UnixNewlines(s);
    var b := ReplaceAll(a, '&', "&amp;");
    var c := ReplaceAll(b, '<', "&lt;");
    var d := ReplaceAll(c, '>', "&gt;");
    var e := ReplaceAll(d, '\"', "&quot;");
    ReplaceAllFree(a, '&', "&amp;", '\r');
    ReplaceAllFree(b, '<', "&lt;", '\r');
    ReplaceAllFree(c, '>', "&gt;", '\r');
    ReplaceAllFree(d, '\"', "&quot;", '\r');
    ReplaceAllFree(e, '\'', "&#39;", '\r');
  }

  lemma {:induction false} JoinHasNoArrow(lines: seq<string>)
    requires forall k :: 0 <= k < |lines| ==> !Contains(lines[k], ARROW)
    ensures !Contains(Join(lines, " "), ARROW)
  {
    if |lines| > 1 {
      JoinHasNoArrow(lines[1..]);
      if Contains(Join(lines, " "), ARROW) {
        ContainsAcross(lines[0], ' ', Join(lines[1..], " "), ARROW);
      }
    }
  }

  lemma TrimmedIdOk(joined: string)
    requires !Contains(joined, ARROW) && '\n' !in joined && '\r' !in joined
    ensures var id := Trim(joined);
            Trim(id) == id && !Contains(id, ARROW) && '\n' !in id && '\r' !in id
  {
    var id := Trim(joined);
    TrimNothing(id);
    TrimIsPart(joined);
    var i, j :| 0 <= i <= j <= |joined| && id == joined[i..j];
    if Contains(id, ARROW) {
      PartContains(joined, i, j, ARROW);
    }
  }

  /** The lines of a block hold no line break of either kind. */
  lemma BlockLinesClean(block: string)
    requires '\r' !in block
    ensures forall p :: p in DropBlankLines(TrimmedLines(Split(block, '\n'))) ==> Clean(p)
  {
    var parts := Split(block, '\n');
    forall k | 0 <= k < |parts| ensures Clean(TrimEnd(parts[k])) {
      if '\n' in parts[k] {
        SplitParts(block, '\n', k, '\n');
      }
      if '\r' in parts[k] {
        SplitParts(block, '\n', k, '\r');
      }
    }
  }

  lemma BlockCue(block: string)
    requires '\r' !in block && ParseBlock(block).Read?
    ensures SrtCue(ParseBlock(block).cue)
  {
    hide DropBlankLines, TrimmedLines, Contains, ParseTimingLine, Trim, SanitizeText, TrimEnd;
    var lines := DropBlankLines(TrimmedLines(Split(block, '\n')));
    BlockLinesClean(block);
    var t := FindTiming(lines, 0).value;
    if t > 0 {
      assert forall p :: p in lines[..t] ==> p in lines;
      JoinHasNoArrow(lines[..t]);
      JoinFree(lines[..t], " ", '\n');
      JoinFree(lines[..t], " ", '\r');
      TrimmedIdOk(Join(lines[..t], " "));
    }
    SrtTimingInRange(lines[t]);
    SanitizedHasNoReturn(TrimEnd(Join(lines[t + 1..], "\n")));
  }

  lemma SrtTimingInRange(line: string)
    requires ParseTimingLine(line, Srt).Some?
    ensures ParseTimingLine(line, Srt).value.endMs < TIME_LIMIT
  {
    hide MatchTiming, ParseStandardTimestamp;
    TimestampInRange(MatchTiming(line).value.1, Srt);
  }

  lemma {:induction false} BlocksCues(blocks: seq<string>, acc: seq<Cue>)
    requires forall b :: b in blocks ==> '\r' !in b
    requires forall k :: 0 <= k < |acc| ==> SrtCue(acc[k])
    ensures var r := ParseBlocks(blocks, acc);
            r.Cues? ==> forall k :: 0 <= k < |r.cues| ==> SrtCue(r.cues[k])
  {
    hide SrtCue, ParseBlock;
    if blocks != [] {
      match ParseBlock(blocks[0])
      case Skipped => BlocksCues(blocks[1..], acc);
      case Invalid =>
      case Read(cue) =>
        BlockCue(blocks[0]);
        BlocksCues(blocks[1..], acc + [cue]);
    }
  }

  lemma {:induction false} BlocksFree(s: string, c: char)
    requires c !in s
    ensures forall b :: b in SplitBlocks(s) ==> c !in b
    decreases |s|
  {
    match FindBlankLine(s, 0)
    case None =>
    case Some(i) =>
      assert SkipNewlines(s, i) > i;
      BlocksFree(s[SkipNewlines(s, i)..], c);
  }

  /** Every cue read from any SRT text has a clean id, no carriage return, and times that the
      WebVTT printer can round trip. */
  lemma SrtCuesAre(text: string)
    requires ParseSrt(text).Cues?
    ensures forall k :: 0 <= k < |ParseSrt(text).cues| ==> SrtCue(ParseSrt(text).cues[k])
  {
    hide SrtCue, ParseBlocks, SplitBlocks;
    var s := UnixNewlines(StripBom(text));
    BlocksFree(s, '\r');
    BlocksCues(SplitBlocks(s), []);
  }

  lemma LengthRead(cues: seq<Cue>)
    ensures |ReadBackAll(cues, 0)| == |cues|
  {
    if cues != [] {
      ReadBackAllAt(cues, 0, 0);
    }
  }

  // ------------------------------------------------------------ the escaping

  function EscapeChar(c: char): string {
    if c == '&' then "&amp;"
    else if c == '<' then "&lt;"
    else if c == '>' then "&gt;"
    else if c == '\"' then "&quot;"
    else if c == '\'' then "&#39;"
    else [c]
  }

  function Escape(s: string): string {
    if s == "" then "" else EscapeChar(s[0]) + Escape(s[1..])
  }

  lemma ReplaceAllStep(x: char, rest: string, c: char, text: string)
    ensures ReplaceAll([x] + rest, c, text) == (if x == c then text else [x]) + ReplaceAll(rest, c, text)
  {
    assert ([x] + rest)[1..] == rest;
  }

  lemma {:induction false} ReplaceAllAppend(a: string, b: string, c: char, text: string)
    ensures ReplaceAll(a + b, c, text) == ReplaceAll(a, c, text) + ReplaceAll(b, c, text)
    decreases |a|
  {
    if a == "" {
      assert a + b == b;
    } else {
      ReplaceAllAppend(a[1..], b, c, text);
      ReplaceAllHead(a, b, c, text);
    }
  }

  lemma ReplaceAllHead(a: string, b: string, c: char, text: string)
    requires a != ""
    requires ReplaceAll(a[1..] + b, c, text) == ReplaceAll(a[1..], c, text) + ReplaceAll(b, c, text)
    ensures ReplaceAll(a + b, c, text) == ReplaceAll(a, c, text) + ReplaceAll(b, c, text)
  {
    hide ReplaceAll;
    var x, t := a[0], a[1..];
    HeadTail(a);
    Regroup([x], t, b);
    ReplaceAllStep(x, t, c, text);
    ReplaceAllStep(x, t + b, c, text);
    Regroup(if x == c then text else [x], ReplaceAll(t, c, text), ReplaceAll(b, c, text));
  }

  lemma {:induction false} ReplaceAllNothing(s: string, c: char, text: string)
    requires c !in s
    ensures ReplaceAll(s, c, text) == s
  {
    if s != "" {
      ReplaceAllNothing(s[1..], c, text);
    }
  }

  /** The five replacements in a row escape each character once: none rewrites what an
      earlier one produced. */

  lemma EscapeChainAppend(a: string, b: string)
    ensures EscapeChain(a + b) == EscapeChain(a) + EscapeChain(b)
  {
    hide ReplaceAll;
    ReplaceAllAppend(a, b, '&', "&amp;");
    var a1, b1 := ReplaceAll(a, '&', "&amp;"), ReplaceAll(b, '&', "&amp;");
    ReplaceAllAppend(a1, b1, '<', "&lt;");
    var a2, b2 := ReplaceAll(a1, '<', "&lt;"), ReplaceAll(b1, '<', "&lt;");
    ReplaceAllAppend(a2, b2, '>', "&gt;");
    var a3, b3 := ReplaceAll(a2, '>', "&gt;"), ReplaceAll(b2, '>', "&gt;");
    ReplaceAllAppend(a3, b3, '\"', "&quot;");
    ReplaceAllAppend(ReplaceAll(a3, '\"', "&quot;"), ReplaceAll(b3, '\"', "&quot;"), '\'', "&#39;");
  }

  lemma OneReplaced(c: char, by_: char, text: string)
    ensures ReplaceAll([c], by_, text) == if c == by_ then text else [c]
  {
    assert [c][1..] == "";
    assert ReplaceAll("", by_, text) == "";
  }

  lemma EscapeChainChar(c: char)
    ensures EscapeChain([c]) == EscapeChar(c)
  {
    hide ReplaceAll;
    OneReplaced(c, '&', "&amp;");
    OneReplaced(c, '<', "&lt;");
    OneReplaced(c, '>', "&gt;");
    OneReplaced(c, '\"', "&quot;");
    OneReplaced(c, '\'', "&#39;");
    EntityUntouched("&amp;");
    EntityUntouched("&lt;");
    EntityUntouched("&gt;");
    EntityUntouched("&quot;");
  }

  lemma EntityUntouched(entity: string)
    requires '<' !in entity && '>' !in entity && '\"' !in entity && '\'' !in entity
    ensures ReplaceAll(entity, '<', "&lt;") == entity && ReplaceAll(entity, '>', "&gt;") == entity
    ensures ReplaceAll(entity, '\"', "&quot;") == entity && ReplaceAll(entity, '\'', "&#39;") == entity
  {
    ReplaceAllNothing(entity, '<', "&lt;");
    ReplaceAllNothing(entity, '>', "&gt;");
    ReplaceAllNothing(entity, '\"', "&quot;");
    ReplaceAllNothing(entity, '\'', "&#39;");
  }

  lemma {:induction false} EscapeChainIsEscape(s: string)
    ensures EscapeChain(s) == Escape(s)
  {
    if s != "" {
      assert s == [s[0]] + s[1..];
      EscapeChainAppend([s[0]], s[1..]);
      EscapeChainChar(s[0]);
      EscapeChainIsEscape(s[1..]);
    }
  }

  lemma SanitizeIsEscape(s: string)
    ensures SanitizeText(s) == Escape(UnixNewlines(s))
  {
    EscapeChainIsEscape(UnixNewlines(s));
  }

  /** None of the five characters. */
  predicate Plain(s: string) {
    '&' !in s && '<' !in s && '>' !in s && '\"' !in s && '\'' !in s
  }

  lemma {:induction false} EscapeLength(s: string)
    ensures |Escape(s)| >= |s|
    ensures |Escape(s)| == |s| ==> Plain(s)
    ensures Plain(s) ==> Escape(s) == s
  {
    if s != "" {
      EscapeLength(s[1..]);
      assert s == [s[0]] + s[1..];
      assert Plain(s) <==> Plain([s[0]]) && Plain(s[1..]);
    }
  }

  /** Text survives reading unchanged exactly when it holds none of the five characters and no
      carriage return. */
  lemma SanitizeUnchangedIff(s: string)
    ensures SanitizeText(s) == s <==> Plain(s) && '\r' !in s
  {
    hide SanitizeText, Escape, Plain;
    SanitizedHasNoReturn(s);
    if '\r' !in s {
      NoCarriageReturn(s);
      SanitizeIsEscape(s);
      EscapeLength(s);
    }
  }

  /** Reading is no fixed point: a text that was read is changed by being read again when it
      held one of the five characters. */
  lemma EscapedTwice()
    ensures SanitizeText("&") == "&amp;" && SanitizeText("&amp;") == "&amp;amp;"
  {
    hide SanitizeText;
    NoCarriageReturn("&");
    NoCarriageReturn("&amp;");
    SanitizeIsEscape("&");
    SanitizeIsEscape("&amp;");
    assert "&"[1..] == "" && "&amp;"[1..] == "amp;" && "amp;"[1..] == "mp;" && "mp;"[1..] == "p;" && "p;"[1..] == ";";
  }

  /** Decoding the five entities. */
  function Unescape(s: string): string {
    if s == "" then ""
    else if "&amp;" <= s then "&" + Unescape(s[5..])
    else if "&lt;" <= s then "<" + Unescape(s[4..])
    else if "&gt;" <= s then ">" + Unescape(s[4..])
    else if "&quot;" <= s then "\"" + Unescape(s[6..])
    else if "&#39;" <= s then "'" + Unescape(s[5..])
    else [s[0]] + Unescape(s[1..])
  }

  lemma {:induction false} UnescapeEscape(s: string)
    ensures Unescape(Escape(s)) == s
  {
    if s != "" {
      UnescapeEscape(s[1..]);
      var e := EscapeChar(s[0]);
      assert Escape(s) == e + Escape(s[1..]);
      assert (e + Escape(s[1..]))[|e|..] == Escape(s[1..]);
      assert e <= Escape(s);
      UnescapeFirst(e, Escape(s[1..]), s[0]);
      assert [s[0]] + s[1..] == s;
    }
  }

  lemma UnescapeFirst(e: string, rest: string, c: char)
    requires e == EscapeChar(c)
    ensures Unescape(e + rest) == [c] + Unescape(rest)
  {
    var s := e + rest;
    assert s[|e|..] == rest && e <= s && s[0] == e[0];
    OnlyEntity(e, "&amp;", s);
    OnlyEntity(e, "&lt;", s);
    OnlyEntity(e, "&gt;", s);
    OnlyEntity(e, "&quot;", s);
    OnlyEntity(e, "&#39;", s);
  }

  predicate IsEntity(e: string) {
    e == "&amp;" || e == "&lt;" || e == "&gt;" || e == "&quot;" || e == "&#39;"
  }

  /** The five entities differ in their second character. */
  lemma OnlyEntity(e: string, f: string, s: string)
    requires IsEntity(f) && e != "" && e <= s
    requires IsEntity(e) || e[0] != '&'
    ensures f <= s ==> f == e
  {
    if f <= s {
      PrefixFirst(f, s);
      PrefixFirst(e, s);
      if |e| > 1 {
        assert s[1] == e[1] && s[1] == f[1];
      }
    }
  }

  /** Escaping loses nothing but the kind of line break. */
  lemma SanitizeDecodes(s: string)
    ensures Unescape(SanitizeText(s)) == UnixNewlines(s)
  {
    SanitizeIsEscape(s);
    UnescapeEscape(UnixNewlines(s));
  }
}
