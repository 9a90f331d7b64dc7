/** Reading WebVTT, told by writing it: headers, comments and style blocks, cues with and without
    ids and hours, settings, and any kind of line break. */
module VttReading {
  import opened Options
  import opened Strings
  import opened SubtitleTime
  import opened Subtitles
  import opened SubtitleRoundTrip
  import Srt = SrtReading

  // ---------------------------------------------------------------------- writing

  /** A time with hours, or the short form with minutes and seconds. */
  datatype Time = Long(ms: nat) | Short(ms: nat)

  datatype Block =
    | Comment(word: string, rest: string, lines: seq<string>)
    | CueBlock(id: Option<string>, start: Time, end: Time, setting: string, lines: seq<string>)

  function TimeText(t: Time): string {
    match t
    case Long(ms) => Srt.StampOf(ms, '.')
    case Short(ms) =>
      PadStart(Decimal(ms / 60_000), 2) + ":" + PadStart(Decimal(ms % 60_000 / 1000), 2) + "."
      + PadStart(Decimal(ms % 1000), 3)
  }

  function TimingOf(b: Block): string
    requires b.CueBlock?
  {
    TimeText(b.start) + " --> " + TimeText(b.end) + b.setting
  }

  function LinesOf(b: Block): seq<string> {
    match b
    case Comment(word, rest, lines) => [word + rest] + lines
    case CueBlock(id, _, _, _, lines) => (if id.Some? then [id.value] else []) + ([TimingOf(b)] + lines)
  }

  /** The rest of a line behind a keyword. */
  predicate RestOk(rest: string) { rest == "" || (rest[0] == ' ' && Clean(rest)) }

  predicate TextLines(lines: seq<string>) {
    forall k :: 0 <= k < |lines| ==> Clean(lines[k]) && !IsBlank(lines[k])
  }

  predicate TimeOk(t: Time) { if t.Long? then t.ms < TIME_LIMIT else t.ms < HOUR_MS }

  predicate BlockOk(b: Block) {
    && TextLines(b.lines)
    && match b
       case Comment(word, rest, _) => word in {"NOTE", "STYLE", "REGION"} && RestOk(rest)
       case CueBlock(id, start, end, setting, _) =>
         && (id.Some? ==> IdOk(id.value)) && TimeOk(start) && TimeOk(end) && start.ms < end.ms
         && Srt.SettingOk(setting)
  }

  /** What is meant: the cues alone, with their texts escaped. */
  function CuesFrom(blocks: seq<Block>, n: nat): seq<Cue>
    requires n <= |blocks|
    decreases |blocks| - n
  {
    if n == |blocks| then []
    else
      match blocks[n]
      case Comment(_, _, _) => CuesFrom(blocks, n + 1)
      case CueBlock(id, start, end, _, lines) =>
        [Cue(id, start.ms, end.ms, Escape(Join(lines, "\n")))] + CuesFrom(blocks, n + 1)
  }

  /** The blocks from `n` on, each with at least one empty line behind it, the last with any
      number. */
  function DocLines(blocks: seq<Block>, gaps: seq<nat>, n: nat): seq<string>
    requires |gaps| == |blocks| && n <= |blocks|
    decreases |blocks| - n
  {
    if n == |blocks| then []
    else
      LinesOf(blocks[n]) + (Srt.Empties(if n == |blocks| - 1 then gaps[n] else gaps[n] + 1)
                            + DocLines(blocks, gaps, n + 1))
  }

  // ------------------------------------------------------------------------ one block

  lemma ShortShape(ms: nat)
    requires ms < HOUR_MS
    ensures var t := TimeText(Short(ms));
            |t| >= 9 && IsDigit(t[0]) && IsDigit(t[|t| - 1]) && NoSpaces(t) && Clean(t)
  {
    hide IsSpace;
    PadTwo(ms / 60_000);
    PadTwo(ms % 60_000 / 1000);
    PadThree(ms % 1000);
    var t := TimeText(Short(ms));
    forall k | 0 <= k < |t| ensures IsDigit(t[k]) || t[k] == ':' || t[k] == '.' {
    }
    Srt.StampCharacters();
  }

  lemma TimeShape(t: Time)
    requires TimeOk(t)
    ensures var s := TimeText(t);
            |s| >= 9 && IsDigit(s[0]) && IsDigit(s[|s| - 1]) && NoSpaces(s) && Clean(s)
  {
    if t.Long? {
      Srt.StampShape(t.ms, '.');
    } else {
      ShortShape(t.ms);
    }
  }

  lemma TimeReads(t: Time)
    requires TimeOk(t)
    ensures ParseStandardTimestamp(TimeText(t), Vtt) == Some(t.ms)
  {
    hide ParseStandardTimestamp, PadStart, Decimal, Stamp, AllDigits, NumberOf, FractionMs;
    if t.Long? {
      SplitMilliseconds(t.ms);
      StampIsRead(t.ms / HOUR_MS, t.ms % HOUR_MS / 60_000, t.ms % 60_000 / 1000, '.', t.ms % 1000, Vtt);
    } else {
      PadTwo(t.ms / 60_000);
      PadTwo(t.ms % 60_000 / 1000);
      PadThree(t.ms % 1000);
      WholeFraction(PadStart(Decimal(t.ms % 1000), 3));
      ShortSum(t.ms);
      ShortTimestampMeans(PadStart(Decimal(t.ms / 60_000), 2), PadStart(Decimal(t.ms % 60_000 / 1000), 2), '.',
                          PadStart(Decimal(t.ms % 1000), 3));
    }
  }

  lemma ShortSum(ms: nat)
    requires ms < HOUR_MS
    ensures ms / 60_000 < 60 && ms % 60_000 / 1000 < 60 && ms % 1000 < 1000
    ensures ms / 60_000 * 60_000 + ms % 60_000 / 1000 * 1000 + ms % 1000 == ms
  {
    SecondRemainder(ms % 60_000, ms % 60_000 / 1000, ms % 60_000 % 1000);
    SplitMilliseconds(ms);
  }

  lemma TimingReads(b: Block)
    requires BlockOk(b) && b.CueBlock?
    ensures ParseTimingLine(TimingOf(b), Vtt) == Some(Timing(b.start.ms, b.end.ms))
  {
    hide TimeText, MatchTiming, ParseStandardTimestamp, IsLineTerminator, Trim, TrimEnd, Contains, IdOk, IsBlank;
    TimeShape(b.start);
    TimeShape(b.end);
    TimingLineMatches(TimeText(b.start), TimeText(b.end), b.setting);
    TimeReads(b.start);
    TimeReads(b.end);
  }

  lemma TimingShape(b: Block)
    requires BlockOk(b) && b.CueBlock?
    ensures var t := TimingOf(b);
            Clean(t) && Trim(t) == t && Contains(t, ARROW) && !IsBlank(t) && t != "" && IsDigit(t[0])
  {
    hide TimeText, Contains, IsSpace, Trim, TrimStart, TrimEnd, IdOk, TextLines;
    var x, y := TimeText(b.start), TimeText(b.end);
    TimeShape(b.start);
    TimeShape(b.end);
    var t := TimingOf(b);
    assert t[0] == x[0];
    assert t[|x| + 1..|x| + 4] == "-->";
    ContainsAt(t, ARROW, |x| + 1);
    Srt.StampCharacters();
    Srt.SettingShape(b.setting);
    assert b.setting != "" ==> t[|t| - 1] == b.setting[|b.setting| - 1];
    assert b.setting == "" ==> t[|t| - 1] == y[|y| - 1];
    TrimNothing(t);
  }

  /** The block stands at line `k`, and an empty line or the end follows. */
  ghost predicate Stands(lines: seq<string>, k: nat, b: Block) {
    var own := LinesOf(b);
    k + |own| <= |lines| && lines[k..k + |own|] == own && (k + |own| < |lines| ==> IsBlank(lines[k + |own|]))
  }

  /** The lines from the second on are taken for text, up to the end of the block. */
  lemma TextEnds(lines: seq<string>, k: nat, own: seq<string>)
    requires own != [] && k + |own| <= |lines| && lines[k..k + |own|] == own
    requires forall j :: 1 <= j < |own| ==> !IsBlank(own[j])
    requires k + |own| < |lines| ==> IsBlank(lines[k + |own|])
    ensures lines[k] == own[0] && SkipTextLines(lines, k + 1) == k + |own|
  {
    hide IsBlank, SkipTextLines;
    assert lines[k] == lines[k..k + |own|][0];
    forall j | k + 1 <= j < k + |own| ensures !IsBlank(lines[j]) {
      assert lines[j] == lines[k..k + |own|][j - k] == own[j - k];
    }
    SkipTextTo(lines, k + 1, k + |own|);
  }

  lemma CommentLines(b: Block)
    requires BlockOk(b) && b.Comment?
    ensures var own := LinesOf(b);
            own != [] && !IsBlank(own[0]) && Reserved(Trim(own[0])) && forall j :: 1 <= j < |own| ==> !IsBlank(own[j])
  {
    hide IsBlank, Trim, Reserved;
    KeywordLine(b.word, b.rest);
    assert LinesOf(b) == [b.word + b.rest] + b.lines;
  }

  lemma CommentSkipped(lines: seq<string>, k: nat, b: Block)
    requires BlockOk(b) && b.Comment? && Stands(lines, k, b)
    ensures k < |lines| && !IsBlank(lines[k]) && Reserved(Trim(lines[k]))
    ensures SkipTextLines(lines, k + 1) == k + |LinesOf(b)|
  {
    hide IsBlank, Trim, Reserved, LinesOf, BlockOk;
    CommentLines(b);
    TextEnds(lines, k, LinesOf(b));
  }

  lemma KeywordLine(word: string, rest: string)
    requires word in {"NOTE", "STYLE", "REGION"} && RestOk(rest)
    ensures !IsBlank(word + rest) && Reserved(Trim(word + rest))
  {
    hide TrimStart, TrimEnd;
    var s := word + rest;
    assert s[0] == word[0] && !IsSpace(s[0]);
    StartKept(s);
    KeywordStays(word, rest);
    var t := TrimEnd(s);
    assert t == s[..|t|];
    assert word <= t;
    assert forall k :: 0 <= k < |word| ==> t[k] == word[k];
    assert |t| > |word| ==> t[|word|] == rest[0];
    assert StartsWithKeyword(t, word);
  }

  lemma StartKept(s: string)
    requires s != "" && !IsSpace(s[0])
    ensures Trim(s) == TrimEnd(s)
  {
  }

  lemma {:induction false} KeywordStays(word: string, rest: string)
    requires word != "" && !IsSpace(word[|word| - 1])
    ensures |TrimEnd(word + rest)| >= |word|
    decreases |rest|
  {
    var s := word + rest;
    if rest == "" {
      assert s == word;
    } else {
      KeywordStays(word, rest[..|rest| - 1]);
      assert s[..|s| - 1] == word + rest[..|rest| - 1];
    }
  }

  lemma CueReads(lines: seq<string>, k: nat, b: Block)
    requires BlockOk(b) && b.CueBlock? && Stands(lines, k, b)
    ensures k < |lines| && !IsBlank(lines[k]) && !Reserved(Trim(lines[k]))
    ensures ParseCue(lines, k)
            == Some((Cue(b.id, b.start.ms, b.end.ms, Escape(Join(b.lines, "\n"))), k + |LinesOf(b)|))
  {
    hide IsBlank, Trim, Reserved, TimingOf, ParseTimingLine, Contains, SanitizeText, Escape;
    var own := LinesOf(b);
    var t := if b.id.Some? then k + 1 else k;
    assert forall j :: 0 <= j < |own| ==> lines[k + j] == lines[k..k + |own|][j] == own[j];
    TimingShape(b);
    TimingReads(b);
    if b.id.Some? {
      assert lines[k] == b.id.value;
      IdStays(b.id.value);
    } else {
      NumberNotReserved(TimingOf(b));
    }
    assert lines[t] == TimingOf(b);
    forall j | t + 1 <= j < k + |own| ensures !IsBlank(lines[j]) {
      assert lines[j] == b.lines[j - t - 1];
    }
    SkipTextTo(lines, t + 1, k + |own|);
    assert own[t + 1 - k..] == b.lines;
    assert lines[t + 1..k + |own|] == lines[k..k + |own|][t + 1 - k..];
    WholeText(b.lines);
  }

  lemma IdStays(id: string)
    requires IdOk(id)
    ensures Trim(id) == id && !Contains(id, ARROW) && !Reserved(id) && !IsBlank(id)
  {
  }

  lemma NumberNotReserved(t: string)
    requires t != "" && IsDigit(t[0])
    ensures !Reserved(t)
  {
  }

  lemma WholeText(lines: seq<string>)
    requires TextLines(lines)
    ensures SanitizeText(Join(lines, "\n")) == Escape(Join(lines, "\n"))
  {
    hide IsBlank, SanitizeText, Escape;
    forall p | p in lines ensures '\r' !in p {
      var k :| 0 <= k < |lines| && lines[k] == p;
    }
    JoinFree(lines, "\n", '\r');
    NoCarriageReturn(Join(lines, "\n"));
    SanitizeIsEscape(Join(lines, "\n"));
  }

  // -------------------------------------------------------------------- the whole file

  predicate AllOk(blocks: seq<Block>) { forall k :: 0 <= k < |blocks| ==> BlockOk(blocks[k]) }

  lemma SomeLines(b: Block)
    ensures LinesOf(b) != []
  {
  }

  lemma EmptiesAre(n: nat)
    ensures |Srt.Empties(n)| == n && forall k :: 0 <= k < n ==> Srt.Empties(n)[k] == ""
  {
  }

  /** The first block of a rest stands where the rest begins. */
  lemma FirstStands(lines: seq<string>, k: nat, own: seq<string>, gap: nat, more: seq<string>)
    requires k <= |lines| && lines[k..] == own + (Srt.Empties(gap) + more) && (gap == 0 ==> more == [])
    ensures k + |own| + gap <= |lines| && lines[k..k + |own|] == own
    ensures forall j :: k + |own| <= j < k + |own| + gap ==> lines[j] == ""
    ensures lines[k + |own| + gap..] == more
    ensures k + |own| < |lines| ==> lines[k + |own|] == ""
  {
    EmptiesAre(gap);
    assert lines[k..k + |own|] == lines[k..][..|own|];
    forall j | k + |own| <= j < k + |own| + gap ensures lines[j] == "" {
      assert lines[j] == lines[k..][j - k] == Srt.Empties(gap)[j - k - |own|];
    }
    assert lines[k + |own| + gap..] == lines[k..][|own| + gap..];
  }

  lemma CommentStep(lines: seq<string>, i: nat, k: nat, acc: seq<Cue>)
    requires i <= k < |lines| && SkipBlankLines(lines, i) == k && !IsBlank(lines[k]) && Reserved(Trim(lines[k]))
    ensures ParseCues(lines, i, acc) == ParseCues(lines, SkipTextLines(lines, k + 1), acc)
  {
    hide IsBlank, Reserved, Trim, ParseCue, SkipTextLines;
  }

  lemma {:induction false} DocReads(
    lines: seq<string>, i: nat, k: nat, blocks: seq<Block>, gaps: seq<nat>, n: nat, acc: seq<Cue>)
    requires |gaps| == |blocks| && n <= |blocks| && AllOk(blocks)
    requires i <= k <= |lines| && (forall j :: i <= j < k ==> lines[j] == "")
    requires lines[k..] == DocLines(blocks, gaps, n)
    ensures ParseCues(lines, i, acc) == Cues(acc + CuesFrom(blocks, n))
    decreases |blocks| - n
  {
    hide BlockOk, LinesOf, ParseCues, ParseCue, SkipBlankLines, SkipTextLines, Trim, Reserved, IsBlank, Escape, Join;
    EmptyIsBlank();
    if n == |blocks| {
      SkipBlankTo(lines, i, k);
      CuesEnd(lines, i, acc);
      assert acc + [] == acc;
    } else {
      var b, own := blocks[n], LinesOf(blocks[n]);
      var gap := if n == |blocks| - 1 then gaps[n] else gaps[n] + 1;
      SomeLines(b);
      FirstStands(lines, k, own, gap, DocLines(blocks, gaps, n + 1));
      assert Stands(lines, k, b);
      if b.Comment? {
        CommentSkipped(lines, k, b);
        SkipBlankTo(lines, i, k);
        CommentStep(lines, i, k, acc);
        DocReads(lines, k + |own|, k + |own| + gap, blocks, gaps, n + 1, acc);
      } else {
        CueReads(lines, k, b);
        SkipBlankTo(lines, i, k);
        var cue := ParseCue(lines, k).value.0;
        CueStep(lines, i, k, acc);
        DocReads(lines, k + |own|, k + |own| + gap, blocks, gaps, n + 1, acc + [cue]);
        assert acc + [cue] + CuesFrom(blocks, n + 1) == acc + ([cue] + CuesFrom(blocks, n + 1));
      }
    }
  }

  lemma LinesOfClean(b: Block)
    requires BlockOk(b)
    ensures forall k :: 0 <= k < |LinesOf(b)| ==> Clean(LinesOf(b)[k])
  {
    hide TimingOf, Contains, Trim, Srt.SettingOk, IsBlank, Reserved;
    if b.CueBlock? {
      TimingShape(b);
    }
  }

  lemma {:induction false} DocClean(blocks: seq<Block>, gaps: seq<nat>, n: nat)
    requires |gaps| == |blocks| && n <= |blocks| && AllOk(blocks)
    ensures forall k :: 0 <= k < |DocLines(blocks, gaps, n)| ==> Clean(DocLines(blocks, gaps, n)[k])
    decreases |blocks| - n
  {
    hide BlockOk, LinesOf;
    if n < |blocks| {
      LinesOfClean(blocks[n]);
      DocClean(blocks, gaps, n + 1);
    }
  }

  /** A whole file: the keyword with what may follow it, empty lines, the blocks. */
  function FileLines(head: string, first: nat, blocks: seq<Block>, gaps: seq<nat>): seq<string>
    requires |gaps| == |blocks|
  {
    ["WEBVTT" + head] + (Srt.Empties(first) + DocLines(blocks, gaps, 0))
  }

  lemma HeadIsKeyword(head: string)
    requires RestOk(head)
    ensures StartsWithKeyword("WEBVTT" + head, "WEBVTT") && Clean("WEBVTT" + head)
    ensures ("WEBVTT" + head)[0] as int != 0xFEFF
  {
    var s := "WEBVTT" + head;
    assert forall k :: 0 <= k < 6 ==> s[k] == "WEBVTT"[k];
    assert |s| > 6 ==> s[6] == head[0];
  }

  lemma StripsMark(mark: bool, text: string)
    requires text != "" && text[0] as int != 0xFEFF
    ensures StripBom((if mark then [0xFEFF as char] else "") + text) == text
  {
  }

  /** Whatever blocks there are, written as WebVTT: the cues are read with their ids and times and
      with their whole texts, escaped, also those behind a comment, a style or a region. */
  lemma VttIsRead(head: string, first: nat, blocks: seq<Block>, gaps: seq<nat>, br: string, mark: bool)
    requires |gaps| == |blocks| && AllOk(blocks) && RestOk(head) && br in {"\n", "\r\n", "\r"}
    ensures ParseWebVtt((if mark then [0xFEFF as char] else "") + Join(FileLines(head, first, blocks, gaps), br))
            == Cues(CuesFrom(blocks, 0))
  {
    hide AllOk, Join, DocLines, UnixNewlines, ParseCues, CuesFrom, StartsWithKeyword, Split, RestOk;
    var doc := DocLines(blocks, gaps, 0);
    var lines := FileLines(head, first, blocks, gaps);
    HeadIsKeyword(head);
    DocClean(blocks, gaps, 0);
    EmptiesAre(first);
    forall k | 0 <= k < |lines| ensures Clean(lines[k]) {
      if k > first {
        assert lines[k] == doc[k - 1 - first];
      }
    }
    Srt.FirstStands(lines, br);
    StripsMark(mark, Join(lines, br));
    Srt.UnixLines(lines, br);
    forall p | p in lines ensures '\n' !in p {
      var k :| 0 <= k < |lines| && lines[k] == p;
    }
    SplitJoin(lines, '\n');
    assert lines[1 + first..] == doc;
    DocReads(lines, 1, 1 + first, blocks, gaps, 0, []);
    assert [] + CuesFrom(blocks, 0) == CuesFrom(blocks, 0);
  }
}
