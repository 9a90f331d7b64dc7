/** Exactly which cues survive being printed as WebVTT and read back. */
module SubtitleExact {
  import opened Options
  import opened Strings
  import opened SubtitleTime
  import opened Subtitles
  import opened SubtitleRoundTrip

  /** A cue that can be told from its printed form. */
  predicate Survives(cue: Cue) {
    && (cue.id.Some? ==> IdOk(cue.id.value))
    && cue.startMs < cue.endMs < TIME_LIMIT
    && TextOk(UnixNewlines(cue.text))
  }

  // ---------------------------------------------------- what any read cue is like

  /** Text that some non-blank lines were joined to. */
  ghost predicate ReadText(text: string) { exists t :: TextOk(t) && text == SanitizeText(t) }

  ghost predicate ReadCueOk(cue: Cue) {
    && (cue.id.Some? ==> IdOk(cue.id.value))
    && cue.startMs < cue.endMs < TIME_LIMIT
    && ReadText(cue.text)
  }

  lemma TrimTwice(s: string)
    ensures Trim(Trim(s)) == Trim(s)
  {
    TrimNothing(Trim(s));
  }

  lemma ReadIdOk(line: string)
    requires Clean(line) && !IsBlank(line) && !Reserved(Trim(line)) && !Contains(Trim(line), ARROW)
    ensures IdOk(Trim(line))
  {
    hide Reserved, Contains, TrimStart, TrimEnd;
    TrimTwice(line);
  }

  lemma LinesReadText(lines: seq<string>, i: nat, j: nat)
    requires i <= j <= |lines| && forall k :: 0 <= k < |lines| ==> Clean(lines[k])
    requires forall k :: i <= k < j ==> !IsBlank(lines[k])
    ensures TextOk(Join(lines[i..j], "\n"))
  {
    hide IsBlank, Split, Join;
    var parts := lines[i..j];
    assert forall k :: 0 <= k < |parts| ==> parts[k] == lines[i + k];
    if parts == [] {
      NothingJoined();
    } else {
      JoinFree(parts, "\n", '\r');
      SplitJoin(parts, '\n');
    }
  }

  lemma NothingJoined()
    ensures Join([], "\n") == ""
  {
  }

  lemma {:induction false} TextLinesAreNotBlank(lines: seq<string>, i: nat, k: nat)
    requires i <= |lines| && i <= k < SkipTextLines(lines, i)
    ensures !IsBlank(lines[k])
    decreases |lines| - i
  {
    hide IsBlank;
    if i < k {
      TextLinesAreNotBlank(lines, i + 1, k);
    }
  }

  lemma ParsedCueOk(lines: seq<string>, i: nat)
    requires i < |lines| && !IsBlank(lines[i]) && !Reserved(Trim(lines[i]))
    requires forall k :: 0 <= k < |lines| ==> Clean(lines[k])
    requires ParseCue(lines, i).Some?
    ensures ReadCueOk(ParseCue(lines, i).value.0)
  {
    hide IsBlank, Reserved, Trim, Contains, IdOk, TextOk, SanitizeText, Clean, Join, SkipTextLines, ParseTimingLine;
    var line := Trim(lines[i]);
    var t := if Contains(line, ARROW) then i else i + 1;
    if !Contains(line, ARROW) {
      ReadIdOk(lines[i]);
    }
    TimingInRange(Trim(lines[t]));
    var end := SkipTextLines(lines, t + 1);
    forall k | t + 1 <= k < end ensures !IsBlank(lines[k]) {
      TextLinesAreNotBlank(lines, t + 1, k);
    }
    LinesReadText(lines, t + 1, end);
  }

  lemma TimingInRange(line: string)
    requires ParseTimingLine(line, Vtt).Some?
    ensures var time := ParseTimingLine(line, Vtt).value; time.startMs < time.endMs < TIME_LIMIT
  {
    hide MatchTiming, ParseStandardTimestamp;
    TimestampInRange(MatchTiming(line).value.1, Vtt);
  }

  /** The cues read before stay, and the cues read after are all of this kind. */
  lemma {:induction false} ParsedCuesOk(lines: seq<string>, i: nat, acc: seq<Cue>)
    requires i <= |lines| && forall k :: 0 <= k < |lines| ==> Clean(lines[k])
    requires forall k :: 0 <= k < |acc| ==> ReadCueOk(acc[k])
    ensures ParseCues(lines, i, acc).Cues? ==> forall k :: 0 <= k < |ParseCues(lines, i, acc).cues| ==>
              ReadCueOk(ParseCues(lines, i, acc).cues[k])
    decreases |lines| - i
  {
    hide IsBlank, Reserved, Trim, ParseCue, ReadCueOk, Clean;
    var k := SkipBlankLines(lines, i);
    if k < |lines| {
      if Reserved(Trim(lines[k])) {
        ParsedCuesOk(lines, SkipTextLines(lines, k + 1), acc);
      } else if ParseCue(lines, k).Some? {
        ParsedCueOk(lines, k);
        var r := ParseCue(lines, k).value;
        ParsedCuesOk(lines, r.1, acc + [r.0]);
      }
    }
  }

  lemma NormalizedAreClean(text: string)
    ensures forall k :: 0 <= k < |NormalizedLines(text)| ==> Clean(NormalizedLines(text)[k])
  {
    PartsClean(UnixNewlines(StripBom(text)));
  }

  /** Every cue of any WebVTT text that is read: its id, its times and its text could have been
      printed. */
  lemma EveryReadCueOk(text: string)
    requires ParseWebVtt(text).Cues?
    ensures forall k :: 0 <= k < |ParseWebVtt(text).cues| ==> ReadCueOk(ParseWebVtt(text).cues[k])
  {
    hide ParseCues, ReadCueOk, NormalizedLines, StartsWithKeyword, Clean;
    NormalizedAreClean(text);
    ParsedCuesOk(NormalizedLines(text), 1, []);
  }

  lemma {:induction false} UnixTwice(s: string)
    ensures UnixNewlines(UnixNewlines(s)) == UnixNewlines(s)
  {
    NoCarriageReturn(UnixNewlines(s));
  }

  /** Escaping tells texts apart, but for the kind of line break. */
  lemma SanitizeTellsApart(s: string, t: string)
    requires SanitizeText(s) == SanitizeText(t)
    ensures UnixNewlines(s) == UnixNewlines(t)
  {
    SanitizeDecodes(s);
    SanitizeDecodes(t);
  }

  lemma ReadBackSurvives(cue: Cue, index: nat)
    requires ReadCueOk(ReadBack(cue, index))
    ensures Survives(cue)
  {
    hide IdOk, TextOk, SanitizeText, UnixNewlines;
    var t :| TextOk(t) && SanitizeText(cue.text) == SanitizeText(t);
    SanitizeTellsApart(cue.text, t);
    TextHasNoReturn(t);
    NoCarriageReturn(t);
  }

  lemma TextHasNoReturn(t: string)
    requires TextOk(t)
    ensures '\r' !in t
  {
  }

  // ------------------------------------------------ carriage returns in a text

  /** The cue as its printed form reads: with line feeds only. */
  function WithLineFeeds(cue: Cue): Cue { cue.(text := UnixNewlines(cue.text)) }

  function AllWithLineFeeds(cues: seq<Cue>): seq<Cue> {
    seq(|cues|, k requires 0 <= k < |cues| => WithLineFeeds(cues[k]))
  }

  predicate NoReturnAtEnd(s: string) { s == "" || s[|s| - 1] != '\r' }

  lemma {:induction false} UnixConcat(a: string, b: string)
    requires NoReturnAtEnd(a)
    ensures UnixNewlines(a + b) == UnixNewlines(a) + UnixNewlines(b)
    decreases |a|
  {
    hide UnixNewlines;
    if a == "" {
      assert a + b == b;
      NoCarriageReturn("");
    } else {
      var n := BreakLength(a);
      UnixStep(a);
      UnixStep(a + b);
      UnixConcat(a[n..], b);
      assert (a + b)[n..] == a[n..] + b;
    }
  }

  /** How much the first character's replacement takes away. */
  function BreakLength(s: string): nat
    requires s != ""
  {
    if s[0] == '\r' && |s| > 1 && s[1] == '\n' then 2 else 1
  }

  lemma UnixStep(s: string)
    requires s != ""
    ensures UnixNewlines(s) == (if s[0] == '\r' then "\n" else [s[0]]) + UnixNewlines(s[BreakLength(s)..])
  {
  }

  lemma {:induction false} UnixJoin(parts: seq<string>, units: seq<string>, sep: string)
    requires |units| == |parts| && '\r' !in sep
    requires forall k :: 0 <= k < |parts| ==> NoReturnAtEnd(parts[k]) && units[k] == UnixNewlines(parts[k])
    ensures UnixNewlines(Join(parts, sep)) == Join(units, sep)
  {
    hide UnixNewlines;
    if parts == [] {
      NoCarriageReturn("");
    } else if |parts| > 1 {
      UnixJoin(parts[1..], units[1..], sep);
      UnixConcat(parts[0], sep + Join(parts[1..], sep));
      UnixConcat(sep, Join(parts[1..], sep));
      NoCarriageReturn(sep);
      assert parts[0] + sep + Join(parts[1..], sep) == parts[0] + (sep + Join(parts[1..], sep));
    }
  }

  lemma {:induction false} LastPartEmpty(s: string, c: char)
    requires s != "" && s[|s| - 1] == c
    ensures |Split(s, c)| > 1 && Split(s, c)[|Split(s, c)| - 1] == ""
  {
    if |s| > 1 {
      LastPartEmpty(s[1..], c);
    } else {
      assert s[1..] == "";
    }
  }

  lemma {:induction false} ReturnAtEndBecomesFeed(s: string)
    requires !NoReturnAtEnd(s)
    ensures UnixNewlines(s) != "" && UnixNewlines(s)[|UnixNewlines(s)| - 1] == '\n'
    decreases |s|
  {
    var n := BreakLength(s);
    if |s| > n {
      ReturnAtEndBecomesFeed(s[n..]);
    }
  }

  lemma SurvivingTextEnds(text: string)
    requires TextOk(UnixNewlines(text))
    ensures NoReturnAtEnd(text)
  {
    hide UnixNewlines, Split, IsBlank;
    if !NoReturnAtEnd(text) {
      ReturnAtEndBecomesFeed(text);
      LastPartEmpty(UnixNewlines(text), '\n');
      EmptyIsBlank();
    }
  }

  lemma PrintedCueReads(cue: Cue, index: nat, top: bool)
    requires Survives(cue)
    ensures NoReturnAtEnd(PrintCue(cue, index, top))
    ensures UnixNewlines(PrintCue(cue, index, top)) == PrintCue(WithLineFeeds(cue), index, top)
  {
    hide UnixNewlines, TextOk, FormatVttTimestamp, Trim, Contains, Reserved;
    var parts := [IdText(cue, index), TimingText(cue, top), cue.text];
    var units := [IdText(cue, index), TimingText(cue, top), UnixNewlines(cue.text)];
    PrintableIdClean(cue, index);
    TimingTextClean(cue, top);
    NoCarriageReturn(parts[0]);
    NoCarriageReturn(parts[1]);
    SurvivingTextEnds(cue.text);
    UnixJoin(parts, units, "\n");
    JoinThree(parts[0], parts[1], parts[2], "\n");
  }

  lemma JoinThree(a: string, b: string, c: string, sep: string)
    ensures Join([a, b, c], sep) == a + sep + b + sep + c
  {
    var rest := [b, c];
    assert [a, b, c][1..] == rest && rest[1..] == [c];
    assert Join([c], sep) == c;
    assert Join(rest, sep) == b + sep + c;
    assert a + sep + (b + sep + c) == a + sep + b + sep + c;
  }

  lemma {:induction false} JoinEndsAsLast(parts: seq<string>, sep: string)
    requires parts != [] && forall p :: p in parts ==> NoReturnAtEnd(p)
    requires sep != "" && NoReturnAtEnd(sep)
    ensures NoReturnAtEnd(Join(parts, sep))
  {
    assert parts[0] in parts;
    if |parts| > 1 {
      JoinEndsAsLast(parts[1..], sep);
    }
  }

  /** The header and the last line break around the cues. */
  lemma WrappedReads(body: string)
    requires NoReturnAtEnd(body)
    ensures NormalizedLines("WEBVTT\n\n" + body + "\n") == Split("WEBVTT\n\n" + UnixNewlines(body) + "\n", '\n')
  {
    hide UnixNewlines, Split;
    UnixConcat("WEBVTT\n\n", body);
    UnixConcat("WEBVTT\n\n" + body, "\n");
    NoCarriageReturn("WEBVTT\n\n");
    NoCarriageReturn("\n");
  }

  lemma PrintableIdClean(cue: Cue, index: nat)
    requires cue.id.Some? ==> IdOk(cue.id.value)
    ensures Clean(IdText(cue, index))
  {
    hide Trim, Contains, Reserved, Decimal;
    NumberIdOk(index + 1);
  }

  lemma PrintedReads(cues: seq<Cue>, top: bool)
    requires forall k :: 0 <= k < |cues| ==> Survives(cues[k])
    ensures NormalizedLines(ToWebVtt(cues, top)) == NormalizedLines(ToWebVtt(AllWithLineFeeds(cues), top))
  {
    hide UnixNewlines, Split, PrintCue, Survives, Join;
    var normal := AllWithLineFeeds(cues);
    var blocks, units := PrintCues(cues, top), PrintCues(normal, top);
    forall k | 0 <= k < |cues| ensures NoReturnAtEnd(blocks[k]) && units[k] == UnixNewlines(blocks[k]) {
      PrintedCueReads(cues[k], k, top);
    }
    UnixJoin(blocks, units, "\n\n");
    var body, read := Join(blocks, "\n\n"), Join(units, "\n\n");
    if cues == [] {
      assert normal == cues;
    } else {
      BodyNotEmpty(cues, top);
      BodyNotEmpty(normal, top);
      forall p | p in blocks ensures NoReturnAtEnd(p) {
        var k :| 0 <= k < |blocks| && blocks[k] == p;
      }
      JoinEndsAsLast(blocks, "\n\n");
      WrappedReads(body);
      assert read == UnixNewlines(body);
      UnixTwice(body);
      WrappedReads(read);
    }
  }

  // -------------------------------------------------------------- the results

  lemma {:induction false} SameReadBack(cues: seq<Cue>, n: nat)
    requires n <= |cues|
    ensures ReadBackAll(AllWithLineFeeds(cues), n) == ReadBackAll(cues, n)
    decreases |cues| - n
  {
    hide SanitizeText, UnixNewlines;
    if n < |cues| {
      SameReadBack(cues, n + 1);
      SanitizeOfUnix(cues[n].text);
    }
  }

  lemma SanitizeOfUnix(text: string)
    ensures SanitizeText(UnixNewlines(text)) == SanitizeText(text)
  {
    UnixTwice(text);
  }

  lemma SurvivesPrintable(cue: Cue)
    requires Survives(cue)
    ensures Printable(WithLineFeeds(cue))
  {
  }

  /** Printed cues read back as themselves, in order, with ids, times and escaped texts, exactly
      when every id is one that is read as an id, every time is in range and no text has a
      blank line. */
  lemma WebVttRoundTripIff(cues: seq<Cue>, top: bool)
    ensures ParseWebVtt(ToWebVtt(cues, top)) == Cues(ReadBackAll(cues, 0))
            <==> forall k :: 0 <= k < |cues| ==> Survives(cues[k])
  {
    hide ParseCues, ToWebVtt, Survives, ReadBack, NormalizedLines, StartsWithKeyword, ReadCueOk;
    var text := ToWebVtt(cues, top);
    if forall k :: 0 <= k < |cues| ==> Survives(cues[k]) {
      var normal := AllWithLineFeeds(cues);
      PrintedReads(cues, top);
      forall k | 0 <= k < |normal| ensures Printable(normal[k]) {
        SurvivesPrintable(cues[k]);
      }
      WebVttRoundTrip(normal, top);
      SameReadBack(cues, 0);
    }
    if ParseWebVtt(text) == Cues(ReadBackAll(cues, 0)) {
      EveryReadCueOk(text);
      LengthRead(cues);
      forall k | 0 <= k < |cues| ensures Survives(cues[k]) {
        ReadBackAllAt(cues, 0, k);
        ReadBackSurvives(cues[k], k);
      }
    }
  }

  /** A cue with such an id is not read back, whatever else it holds. */
  lemma KeywordIdIsLost(startMs: nat, endMs: nat, text: string, top: bool)
    ensures var cues := [Cue(Some("NOTE"), startMs, endMs, text)];
            ParseWebVtt(ToWebVtt(cues, top)) != Cues(ReadBackAll(cues, 0))
  {
    hide ParseWebVtt, ToWebVtt, ReadBackAll;
    var cues := [Cue(Some("NOTE"), startMs, endMs, text)];
    WebVttRoundTripIff(cues, top);
    assert Reserved("NOTE");
    assert !Survives(cues[0]);
  }

  /** Any SRT text that is accepted converts to WebVTT that reads back as its cues, with their
      ids and times, exactly when no id is a WebVTT keyword and no text has a blank line. */
  lemma SrtToWebVttIff(text: string, top: bool)
    requires ParseSrt(text).Cues?
    ensures var cues := ParseSrt(text).cues;
            ParseWebVtt(ToWebVtt(cues, top)) == Cues(ReadBackAll(cues, 0))
            <==> forall k :: 0 <= k < |cues| ==>
                   (cues[k].id.Some? ==> !Reserved(cues[k].id.value)) && TextOk(cues[k].text)
  {
    hide ParseSrt, ParseWebVtt, ToWebVtt, SrtCue, Survives, ReadBackAll, Reserved, TextOk;
    SrtCuesAre(text);
    var cues := ParseSrt(text).cues;
    WebVttRoundTripIff(cues, top);
    forall k | 0 <= k < |cues|
      ensures Survives(cues[k]) <==> (cues[k].id.Some? ==> !Reserved(cues[k].id.value)) && TextOk(cues[k].text)
    {
      SrtSurvives(cues[k]);
    }
  }

  /** An SRT text with such an id is read, converted, and its cue lost. */
  lemma SrtKeywordIsLost(startMs: nat, endMs: nat, top: bool)
    requires startMs < endMs < TIME_LIMIT
    ensures var cue := Cue(Some("NOTE"), startMs, endMs, "");
            && ParseSrt("NOTE\n" + TimingText(cue, false)) == Cues([cue])
            && ParseWebVtt(ToWebVtt([cue], top)) != Cues(ReadBackAll([cue], 0))
  {
    hide ParseSrt, ParseBlock, ParseWebVtt, ToWebVtt, TimingText, ReadBackAll, Trim, Contains;
    var cue := Cue(Some("NOTE"), startMs, endMs, "");
    TimingTextClean(cue, false);
    SrtBlockReads(cue);
    assert "NOTE" + "\n" + TimingText(cue, false) == "NOTE\n" + TimingText(cue, false);
    SrtOneBlock("NOTE", TimingText(cue, false), cue);
    KeywordIdIsLost(startMs, endMs, "", top);
  }

  lemma SrtOneBlock(a: string, b: string, cue: Cue)
    requires a != "" && b != "" && Clean(a) && Clean(b) && a[0] as int != 0xFEFF
    requires ParseBlock(a + "\n" + b) == Read(cue)
    ensures ParseSrt(a + "\n" + b) == Cues([cue])
  {
    hide ParseBlock, SplitBlocks, UnixNewlines;
    var text := a + "\n" + b;
    assert StripBom(text) == text;
    NoCarriageReturn(text);
    OneBlock(a, b);
    assert [text][1..] == [];
    assert ParseBlocks([], [cue]) == Cues([cue]);
    assert [] + [cue] == [cue];
  }

  lemma {:induction false} NoBlankLineFrom(s: string, i: nat)
    requires forall k :: i <= k && k + 1 < |s| ==> s[k] != '\n' || s[k + 1] != '\n'
    ensures FindBlankLine(s, i) == None
    decreases |s| - i
  {
    if i + 1 < |s| {
      NoBlankLineFrom(s, i + 1);
    }
  }

  lemma OneBlock(a: string, b: string)
    requires a != "" && b != "" && Clean(a) && Clean(b)
    ensures SplitBlocks(a + "\n" + b) == [a + "\n" + b]
  {
    var s := a + "\n" + b;
    NoBlankLineFrom(s, 0);
  }

  lemma SrtBlockReads(cue: Cue)
    requires cue.id == Some("NOTE") && cue.startMs < cue.endMs < TIME_LIMIT && cue.text == ""
    ensures ParseBlock("NOTE\n" + TimingText(cue, false)) == Read(cue)
  {
    hide TimingText, ParseTimingLine, Split, Contains, Trim, SanitizeText;
    var timing := TimingText(cue, false);
    var parts := ["NOTE", timing];
    TimingTextClean(cue, false);
    SplitJoin(parts, '\n');
    assert parts[1..] == [timing];
    assert Join(parts, "\n") == "NOTE\n" + timing;
    TrimNothing("NOTE");
    EndKept("NOTE");
    EndKept(timing);
    assert TrimmedLines(parts) == parts;
    NoArrowInNote();
    TimingLineReads(cue, false, Srt);
    assert FindTiming(parts, 0) == FindTiming(parts, 1) == Some(1);
    assert parts[..1] == ["NOTE"] && parts[2..] == [];
    NothingSanitized();
  }

  lemma EndKept(s: string)
    requires s != "" && Trim(s) == s
    ensures TrimEnd(s) == s
  {
    assert s[|s| - 1] == Trim(s)[|s| - 1];
  }

  lemma ContainedCharacter(s: string, p: string, c: char)
    requires Contains(s, p) && c in p
    ensures c in s
  {
    var i := ContainsWhere(s, p);
    var k :| 0 <= k < |p| && p[k] == c;
    assert s[i + k] == s[i..i + |p|][k];
  }

  lemma NoArrowInNote()
    ensures !Contains("NOTE", ARROW)
  {
    if Contains("NOTE", ARROW) {
      ContainedCharacter("NOTE", ARROW, '-');
    }
  }

  lemma NothingSanitized()
    ensures SanitizeText(TrimEnd(Join([], "\n"))) == ""
  {
  }

  lemma SrtSurvives(cue: Cue)
    requires SrtCue(cue)
    ensures Survives(cue) <==> (cue.id.Some? ==> !Reserved(cue.id.value)) && TextOk(cue.text)
  {
    hide Reserved, TextOk, Contains, Trim, UnixNewlines;
    NoCarriageReturn(cue.text);
  }

  /** How a cue is printed: its id or its number, its times with the setting that moves it to the
      top, and its text, line by line. */
  lemma CueIsPrinted(cue: Cue, index: nat, top: bool)
    ensures PrintCue(cue, index, top)
            == (if cue.id.Some? then cue.id.value else Decimal(index + 1)) + "\n"
               + (FormatVttTimestamp(cue.startMs) + " --> " + FormatVttTimestamp(cue.endMs)
                  + if top then " line:10%" else "") + "\n" + cue.text
  {
    hide FormatVttTimestamp, Decimal;
    JoinThree(IdText(cue, index), TimingText(cue, top), cue.text, "\n");
  }
}
