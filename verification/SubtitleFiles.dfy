/** Which subtitle files are accepted, and which cues are read, for any text: told block by block,
    from both sides. */
module SubtitleFiles {
  import opened Options
  import opened Strings
  import opened SubtitleTime
  import opened Subtitles
  import opened SubtitleRoundTrip

  // ----------------------------------------------------------------------- WebVTT

  /** Behind the first line the lines from `a` up to `b` are a block: none is blank, and it
      reaches as far as it can. */
  ghost predicate IsBlock(lines: seq<string>, a: nat, b: nat) {
    && 1 <= a < b <= |lines|
    && (forall k :: a <= k < b ==> !IsBlank(lines[k]))
    && (a > 1 ==> IsBlank(lines[a - 1])) && (b < |lines| ==> IsBlank(lines[b]))
  }

  /** A block that is to be a cue: it does not begin with a keyword. */
  ghost predicate IsCueBlock(lines: seq<string>, a: nat, b: nat) {
    IsBlock(lines, a, b) && !Reserved(Trim(lines[a]))
  }

  /** A timing line comes first, or second behind an id without an arrow; the rest is text. */
  ghost predicate BlockMeans(lines: seq<string>, a: nat, b: nat, cue: Cue)
    requires a < b <= |lines|
  {
    exists t: nat ::
      && (|| (t == a && cue.id == None)
          || (t == a + 1 && cue.id == Some(Trim(lines[a])) && !Contains(Trim(lines[a]), ARROW)))
      && t < b && Contains(Trim(lines[t]), ARROW)
      && ParseTimingLine(Trim(lines[t]), Vtt) == Some(Timing(cue.startMs, cue.endMs))
      && cue.text == Escape(UnixNewlines(Join(lines[t + 1..b], "\n")))
  }

  ghost predicate IsBadBlock(lines: seq<string>, a: nat, b: nat) {
    IsCueBlock(lines, a, b) && forall cue :: !BlockMeans(lines, a, b, cue)
  }

  ghost predicate HasBadBlock(lines: seq<string>, n: nat) {
    exists a: nat, b: nat :: b <= n && IsBadBlock(lines, a, b)
  }

  ghost predicate EndsCue(lines: seq<string>, n: nat) { exists a: nat :: IsCueBlock(lines, a, n) }

  ghost predicate EndsAs(lines: seq<string>, n: nat, cue: Cue) {
    exists a: nat :: IsCueBlock(lines, a, n) && BlockMeans(lines, a, n, cue)
  }

  /** The cues of the blocks that end within the first `n` lines, in order. */
  ghost predicate AreCues(lines: seq<string>, n: nat, cues: seq<Cue>) {
    if n == 0 then cues == []
    else if EndsCue(lines, n) then
      cues != [] && EndsAs(lines, n, cues[|cues| - 1]) && AreCues(lines, n - 1, cues[..|cues| - 1])
    else AreCues(lines, n - 1, cues)
  }

  lemma {:induction false} BlankSkipped(lines: seq<string>, i: nat)
    requires i <= |lines|
    ensures forall k :: i <= k < SkipBlankLines(lines, i) ==> IsBlank(lines[k])
    decreases |lines| - i
  {
    hide IsBlank;
    if i < |lines| && IsBlank(lines[i]) {
      BlankSkipped(lines, i + 1);
    }
  }

  lemma {:induction false} TextSkipped(lines: seq<string>, i: nat)
    requires i <= |lines|
    ensures forall k :: i <= k < SkipTextLines(lines, i) ==> !IsBlank(lines[k])
    decreases |lines| - i
  {
    hide IsBlank;
    if i < |lines| && !IsBlank(lines[i]) {
      TextSkipped(lines, i + 1);
    }
  }

  lemma {:induction false} CuesStay(lines: seq<string>, i: nat, j: nat, cues: seq<Cue>)
    requires i <= j && AreCues(lines, i, cues) && forall n :: i < n <= j ==> !EndsCue(lines, n)
    ensures AreCues(lines, j, cues)
    decreases j - i
  {
    hide EndsCue, EndsAs;
    if i < j {
      CuesStay(lines, i, j - 1, cues);
    }
  }

  lemma BlockUnique(lines: seq<string>, a: nat, c: nat, b: nat)
    requires IsBlock(lines, a, b) && IsBlock(lines, c, b)
    ensures a == c
  {
    hide IsBlank;
  }

  /** A cue block is read as what it means, or not at all. */
  lemma ParseCueIs(lines: seq<string>, a: nat, b: nat)
    requires IsBlock(lines, a, b)
    ensures match ParseCue(lines, a)
            case Some((cue, end)) => end == b && BlockMeans(lines, a, b, cue)
            case None => forall cue :: !BlockMeans(lines, a, b, cue)
  {
    hide IsBlank, Contains, Trim, ParseTimingLine, Join, SanitizeText, Escape, UnixNewlines;
    var hasId := !Contains(Trim(lines[a]), ARROW);
    var t := if hasId then a + 1 else a;
    if t < |lines| && Contains(Trim(lines[t]), ARROW) && ParseTimingLine(Trim(lines[t]), Vtt).Some? {
      BlankHasNoArrow(lines[t]);
      SkipTextTo(lines, t + 1, b);
      SanitizeIsEscape(Join(lines[t + 1..b], "\n"));
    }
  }

  lemma BlankHasNoArrow(line: string)
    ensures Contains(Trim(line), ARROW) ==> !IsBlank(line)
  {
  }

  lemma ReservedStep(lines: seq<string>, i: nat, k: nat, acc: seq<Cue>)
    requires i <= k < |lines| && SkipBlankLines(lines, i) == k && !IsBlank(lines[k]) && Reserved(Trim(lines[k]))
    ensures ParseCues(lines, i, acc) == ParseCues(lines, SkipTextLines(lines, k + 1), acc)
  {
    hide IsBlank, Reserved, Trim, ParseCue, SkipTextLines;
  }

  lemma BadStep(lines: seq<string>, i: nat, k: nat, acc: seq<Cue>)
    requires i <= k < |lines| && SkipBlankLines(lines, i) == k && !IsBlank(lines[k]) && !Reserved(Trim(lines[k]))
    requires ParseCue(lines, k).None?
    ensures ParseCues(lines, i, acc) == TimelineInvalid
  {
    hide IsBlank, Reserved, Trim, ParseCue;
  }

  /** From the end of a block to the next one, which is there unless the lines are over. */
  lemma NextBlock(lines: seq<string>, i: nat, cues: seq<Cue>) returns (k: nat, b: nat)
    requires 1 <= i <= |lines| && (i == 1 || (i < |lines| ==> IsBlank(lines[i]))) && AreCues(lines, i, cues)
    ensures i <= k <= b <= |lines| && k == SkipBlankLines(lines, i)
    ensures if k == |lines| then AreCues(lines, k, cues)
            else IsBlock(lines, k, b) && AreCues(lines, b - 1, cues) && b == SkipTextLines(lines, k + 1)
  {
    hide IsBlank, AreCues, Reserved, Trim;
    k := SkipBlankLines(lines, i);
    BlankSkipped(lines, i);
    forall n | i < n <= k ensures !EndsCue(lines, n) {
      assert IsBlank(lines[n - 1]);
    }
    CuesStay(lines, i, k, cues);
    b := k;
    if k < |lines| {
      b := SkipTextLines(lines, k + 1);
      TextSkipped(lines, k + 1);
      assert k > i ==> IsBlank(lines[k - 1]);
      forall n | k < n <= b - 1 ensures !EndsCue(lines, n) {
        assert !IsBlank(lines[n]);
      }
      CuesStay(lines, k, b - 1, cues);
    }
  }

  lemma BlockAdds(lines: seq<string>, k: nat, b: nat, cues: seq<Cue>, cue: Cue)
    requires IsCueBlock(lines, k, b) && AreCues(lines, b - 1, cues) && BlockMeans(lines, k, b, cue)
    ensures AreCues(lines, b, cues + [cue])
  {
    hide IsBlank, BlockMeans, Reserved;
    assert EndsCue(lines, b) && EndsAs(lines, b, cue);
    assert (cues + [cue])[..|cues|] == cues;
  }

  lemma AsideAdds(lines: seq<string>, k: nat, b: nat, cues: seq<Cue>)
    requires IsBlock(lines, k, b) && Reserved(Trim(lines[k])) && AreCues(lines, b - 1, cues)
    ensures AreCues(lines, b, cues)
  {
    hide IsBlank, Reserved, Trim;
    forall a: nat ensures !IsCueBlock(lines, a, b) {
      if IsBlock(lines, a, b) {
        BlockUnique(lines, a, k, b);
      }
    }
  }

  lemma {:induction false} RestMeans(lines: seq<string>, i: nat, acc: seq<Cue>)
    requires 1 <= i <= |lines| && (i == 1 || (i < |lines| ==> IsBlank(lines[i]))) && AreCues(lines, i, acc)
    ensures match ParseCues(lines, i, acc)
            case Cues(cues) => AreCues(lines, |lines|, cues)
            case TimelineInvalid => HasBadBlock(lines, |lines|)
            case FormatUnsupported => false
    decreases |lines| - i
  {
    hide IsBlank, AreCues, Reserved, Trim, BlockMeans, ParseCues, ParseCue, SkipBlankLines, SkipTextLines;
    var k, b := NextBlock(lines, i, acc);
    if k == |lines| {
      CuesEnd(lines, i, acc);
    } else if Reserved(Trim(lines[k])) {
      ReservedStep(lines, i, k, acc);
      AsideAdds(lines, k, b, acc);
      RestMeans(lines, b, acc);
    } else {
      ParseCueIs(lines, k, b);
      if ParseCue(lines, k).None? {
        BadStep(lines, i, k, acc);
        assert IsBadBlock(lines, k, b);
      } else {
        CueStep(lines, i, k, acc);
        BlockAdds(lines, k, b, acc, ParseCue(lines, k).value.0);
        RestMeans(lines, b, acc + [ParseCue(lines, k).value.0]);
      }
    }
  }

  lemma LastNotBad(lines: seq<string>, n: nat, cue: Cue)
    requires EndsAs(lines, n, cue)
    ensures forall a: nat :: !IsBadBlock(lines, a, n)
  {
    hide IsBlank, BlockMeans, Reserved;
    var c: nat :| c < n <= |lines| && IsCueBlock(lines, c, n) && BlockMeans(lines, c, n, cue);
    forall a: nat ensures !IsBadBlock(lines, a, n) {
      if IsBlock(lines, a, n) {
        BlockUnique(lines, a, c, n);
      }
    }
  }

  lemma NoEndNotBad(lines: seq<string>, n: nat)
    requires !EndsCue(lines, n)
    ensures forall a: nat :: !IsBadBlock(lines, a, n)
  {
    hide IsBlock, Reserved, BlockMeans;
  }

  lemma {:induction false} CuesLeaveNoBad(lines: seq<string>, n: nat, cues: seq<Cue>)
    requires AreCues(lines, n, cues)
    ensures !HasBadBlock(lines, n)
  {
    hide IsBadBlock, EndsCue, EndsAs;
    if n == 0 {
      NoBlockAtStart(lines);
    } else if EndsCue(lines, n) {
      CuesLeaveNoBad(lines, n - 1, cues[..|cues| - 1]);
      LastNotBad(lines, n, cues[|cues| - 1]);
    } else {
      CuesLeaveNoBad(lines, n - 1, cues);
      NoEndNotBad(lines, n);
    }
  }

  lemma NoBlockAtStart(lines: seq<string>)
    ensures forall a: nat :: !IsBadBlock(lines, a, 0)
  {
  }

  /** For any text: it is refused for its first line, or for a block that is no cue; otherwise the
      cues are those of its blocks. */
  lemma WebVttMeans(text: string)
    ensures var lines := NormalizedLines(text);
            match ParseWebVtt(text)
            case FormatUnsupported => !StartsWithKeyword(lines[0], "WEBVTT")
            case TimelineInvalid => StartsWithKeyword(lines[0], "WEBVTT") && HasBadBlock(lines, |lines|)
            case Cues(cues) => StartsWithKeyword(lines[0], "WEBVTT") && AreCues(lines, |lines|, cues)
  {
    hide NormalizedLines, StartsWithKeyword, IsBlock, ParseCues;
    var lines := NormalizedLines(text);
    NoBlockInFirst(lines);
    if StartsWithKeyword(lines[0], "WEBVTT") {
      RestMeans(lines, 1, []);
    }
  }

  lemma NoBlockInFirst(lines: seq<string>)
    ensures AreCues(lines, 1, [])
  {
    assert AreCues(lines, 0, []);
    forall a: nat ensures !IsBlock(lines, a, 1) {
    }
  }

  /** So a text is accepted exactly when it has the first line and no such block. */
  lemma WebVttAcceptedIff(text: string)
    ensures var lines := NormalizedLines(text);
            ParseWebVtt(text).Cues? <==> StartsWithKeyword(lines[0], "WEBVTT") && !HasBadBlock(lines, |lines|)
  {
    hide ParseWebVtt, NormalizedLines, HasBadBlock, AreCues, StartsWithKeyword;
    WebVttMeans(text);
    var lines := NormalizedLines(text);
    if ParseWebVtt(text).Cues? {
      CuesLeaveNoBad(lines, |lines|, ParseWebVtt(text).cues);
    }
  }

  // -------------------------------------------------------------------------- SRT

  ghost predicate HasGap(s: string) { exists a, b :: s == a + "\n\n" + b }

  ghost predicate LineBreaks(s: string) { forall k :: 0 <= k < |s| ==> s[k] == '\n' }

  /** Two line breaks or more stand between the two. */
  ghost predicate GapBetween(s: string, first: string, rest: string) {
    && (first == "" || first[|first| - 1] != '\n') && (rest == "" || rest[0] != '\n')
    && exists gap :: s == first + gap + rest && |gap| >= 2 && LineBreaks(gap)
  }

  /** The text is cut at every run of two line breaks or more. */
  ghost predicate CutAtGaps(s: string, parts: seq<string>)
    decreases |parts|
  {
    && parts != [] && !HasGap(parts[0])
    && if |parts| == 1 then s == parts[0]
       else exists rest :: GapBetween(s, parts[0], rest) && CutAtGaps(rest, parts[1..])
  }

  /** Line `t` is the first with an arrow. */
  ghost predicate ArrowFirstIn(lines: seq<string>, t: nat) {
    && t < |lines| && Contains(lines[t], ARROW)
    && forall k :: 0 <= k < t ==> !Contains(lines[k], ARROW)
  }

  /** The lines of a part, without white space at their ends. */
  ghost predicate LinesOfPart(part: string, lines: seq<string>) {
    exists raw :: |raw| > 0 && Join(raw, "\n") == part && (forall k :: 0 <= k < |raw| ==> '\n' !in raw[k])
                  && lines == TrimmedLines(raw)
  }

  /** The line with the arrow gives the times, what stands before it the id, if it is not blank,
      and what follows the text. */
  ghost predicate PartMeans(part: string, cue: Cue) {
    exists lines, t: nat ::
      && LinesOfPart(part, lines) && ArrowFirstIn(lines, t)
      && ParseTimingLine(lines[t], Srt) == Some(Timing(cue.startMs, cue.endMs))
      && cue.id == (var id := Trim(Join(lines[..t], " ")); if id == "" then None else Some(id))
      && cue.text == Escape(UnixNewlines(TrimEnd(Join(lines[t + 1..], "\n"))))
  }

  ghost predicate NoTiming(part: string) {
    exists lines :: LinesOfPart(part, lines) && forall t: nat :: !ArrowFirstIn(lines, t)
  }

  ghost predicate BadTiming(part: string) {
    exists lines, t: nat ::
      LinesOfPart(part, lines) && ArrowFirstIn(lines, t) && ParseTimingLine(lines[t], Srt).None?
  }

  /** The cues of the first `n` parts, in order; every one with an arrow is a cue. */
  ghost predicate ArePartCues(parts: seq<string>, n: nat, cues: seq<Cue>)
    requires n <= |parts|
  {
    if n == 0 then cues == []
    else if NoTiming(parts[n - 1]) then ArePartCues(parts, n - 1, cues)
    else cues != [] && PartMeans(parts[n - 1], cues[|cues| - 1]) && ArePartCues(parts, n - 1, cues[..|cues| - 1])
  }

  // ------------------------------------------------------------------ cutting at gaps

  lemma {:induction false} FirstGap(s: string, i: nat)
    ensures match FindBlankLine(s, i)
            case None => forall k :: i <= k && k + 1 < |s| ==> s[k] != '\n' || s[k + 1] != '\n'
            case Some(j) => forall k :: i <= k < j ==> s[k] != '\n' || s[k + 1] != '\n'
    decreases |s| - i
  {
    if i + 1 < |s| && !(s[i] == '\n' && s[i + 1] == '\n') {
      FirstGap(s, i + 1);
    }
  }

  lemma NoGapIn(s: string)
    requires forall k :: 0 <= k && k + 1 < |s| ==> s[k] != '\n' || s[k + 1] != '\n'
    ensures !HasGap(s)
  {
    if a, b :| s == a + "\n\n" + b {
      GapAt(a, b);
    }
  }

  lemma GapAt(a: string, b: string)
    ensures var s := a + "\n\n" + b; |a| + 1 < |s| && s[|a|] == '\n' && s[|a| + 1] == '\n'
  {
  }

  lemma {:induction false} BreaksSkipped(s: string, i: nat)
    requires i <= |s|
    ensures forall k :: i <= k < SkipNewlines(s, i) ==> s[k] == '\n'
    ensures SkipNewlines(s, i) < |s| ==> s[SkipNewlines(s, i)] != '\n'
    decreases |s| - i
  {
    if i < |s| && s[i] == '\n' {
      BreaksSkipped(s, i + 1);
    }
  }

  lemma {:induction false} BlocksAreCut(s: string)
    ensures CutAtGaps(s, SplitBlocks(s))
    decreases |s|
  {
    FirstGap(s, 0);
    match FindBlankLine(s, 0)
    case None => NoGapIn(s);
    case Some(i) =>
      var j := SkipNewlines(s, i);
      BreaksSkipped(s, i);
      assert SkipNewlines(s, i) == SkipNewlines(s, i + 1) == SkipNewlines(s, i + 2);
      var rest := s[j..];
      BlocksAreCut(rest);
      CutStep(s, i, j, SplitBlocks(rest));
  }

  lemma GapThere(s: string, i: nat, j: nat)
    requires i + 2 <= j <= |s| && (forall k :: i <= k < j ==> s[k] == '\n') && (j < |s| ==> s[j] != '\n')
    requires forall k :: 0 <= k < i ==> s[k] != '\n' || s[k + 1] != '\n'
    ensures GapBetween(s, s[..i], s[j..])
  {
    ThreeParts(s, i, j);
    assert LineBreaks(s[i..j]);
    if i > 0 {
      var k := i - 1;
      assert s[k + 1] == '\n';
      assert s[..i][k] == s[k] != '\n';
    }
  }

  lemma CutStep(s: string, i: nat, j: nat, more: seq<string>)
    requires i + 2 <= j <= |s| && (forall k :: i <= k < j ==> s[k] == '\n') && (j < |s| ==> s[j] != '\n')
    requires forall k :: 0 <= k < i ==> s[k] != '\n' || s[k + 1] != '\n'
    requires more != [] && CutAtGaps(s[j..], more)
    ensures CutAtGaps(s, [s[..i]] + more)
  {
    NoGapIn(s[..i]);
    GapThere(s, i, j);
    hide HasGap, GapBetween;
    var parts := [s[..i]] + more;
    assert |parts| > 1 && parts[0] == s[..i] && parts[1..] == more;
    var rest := s[j..];
    assert GapBetween(s, parts[0], rest) && CutAtGaps(rest, parts[1..]);
  }

  lemma ThreeParts(s: string, i: nat, j: nat)
    requires i <= j <= |s|
    ensures s == s[..i] + s[i..j] + s[j..]
  {
  }

  // ------------------------------------------------------------------------ one part

  lemma {:induction false} DropFrom(lines: seq<string>) returns (d: nat)
    ensures d <= |lines| && DropBlankLines(lines) == lines[d..] && forall k :: 0 <= k < d ==> IsBlank(lines[k])
  {
    hide IsBlank;
    d := 0;
    if lines != [] && IsBlank(lines[0]) {
      var n := DropFrom(lines[1..]);
      d := n + 1;
      assert lines[1..][n..] == lines[d..];
      forall k | 0 <= k < d ensures IsBlank(lines[k]) {
        assert k > 0 ==> lines[k] == lines[1..][k - 1];
      }
    }
  }

  lemma BlankHoldsNoArrow(line: string)
    requires IsBlank(line)
    ensures !Contains(line, ARROW)
  {
    if Contains(line, ARROW) {
      var i := ContainsWhere(line, ARROW);
      assert line[i] == line[i..i + 3][0] == '-';
      TrimStrips(line);
      BlankIsSpaces(line);
    }
  }

  lemma {:induction false} FindTimingIs(lines: seq<string>, i: nat)
    ensures FindTiming(lines, i).None? ==> forall k :: i <= k < |lines| ==> !Contains(lines[k], ARROW)
    decreases |lines| - i
  {
    hide Contains;
    if i < |lines| && !Contains(lines[i], ARROW) {
      FindTimingIs(lines, i + 1);
    }
  }

  /** Blank lines in front do not change a trimmed text. */
  lemma {:induction false} BlankStart(lines: seq<string>, d: nat)
    requires d <= |lines| && forall k :: 0 <= k < d ==> lines[k] == ""
    ensures Trim(Join(lines, " ")) == Trim(Join(lines[d..], " "))
  {
    hide Join;
    if d > 0 {
      BlankStart(lines[1..], d - 1);
      assert lines[1..][d - 1..] == lines[d..];
      SpaceFirst(lines);
    }
  }

  lemma SpaceFirst(lines: seq<string>)
    requires lines != [] && lines[0] == ""
    ensures Trim(Join(lines, " ")) == Trim(Join(lines[1..], " "))
  {
    hide Trim;
    if |lines| > 1 {
      assert Join(lines, " ") == " " + Join(lines[1..], " ");
      SpaceTrimmed(Join(lines[1..], " "));
    }
  }

  lemma SpaceTrimmed(s: string)
    ensures Trim(" " + s) == Trim(s)
  {
    hide TrimEnd;
    assert (" " + s)[1..] == s;
    assert TrimStart(" " + s) == TrimStart(s);
  }

  lemma RawLines(part: string)
    ensures LinesOfPart(part, TrimmedLines(Split(part, '\n')))
    ensures forall lines :: LinesOfPart(part, lines) ==> lines == TrimmedLines(Split(part, '\n'))
  {
    hide Split, Join;
    var raw := Split(part, '\n');
    JoinSplit(part, '\n');
    forall k | 0 <= k < |raw| ensures '\n' !in raw[k] {
      if '\n' in raw[k] {
        SplitParts(part, '\n', k, '\n');
      }
    }
    forall lines | LinesOfPart(part, lines) ensures lines == TrimmedLines(raw) {
      var other :| |other| > 0 && Join(other, "\n") == part
                   && (forall k :: 0 <= k < |other| ==> '\n' !in other[k]) && lines == TrimmedLines(other);
      SplitJoin(other, '\n');
    }
  }

  /** The timing line that is found is the first with an arrow. */
  lemma TimingIsFirst(all: seq<string>, d: nat)
    requires d <= |all| && forall k :: 0 <= k < d ==> IsBlank(all[k])
    ensures match FindTiming(all[d..], 0)
            case None => forall t: nat :: !ArrowFirstIn(all, t)
            case Some(t) => ArrowFirstIn(all, d + t) && forall u: nat :: ArrowFirstIn(all, u) ==> u == d + t
  {
    hide Contains, IsBlank;
    var lines := all[d..];
    FindTimingIs(lines, 0);
    forall k | 0 <= k < d ensures !Contains(all[k], ARROW) {
      BlankHoldsNoArrow(all[k]);
    }
    forall k | d <= k < |all| ensures all[k] == lines[k - d] {
    }
  }

  lemma BlankIsEmpty(line: string)
    requires IsBlank(TrimEnd(line))
    ensures TrimEnd(line) == ""
  {
    TrimStrips(TrimEnd(line));
    BlankIsSpaces(TrimEnd(line));
  }

  /** A part is left out, bad or read exactly as it means. */
  lemma PartIs(part: string)
    ensures match ParseBlock(part)
            case Skipped => NoTiming(part)
            case Invalid => BadTiming(part) && !NoTiming(part)
            case Read(cue) => PartMeans(part, cue) && !NoTiming(part)
  {
    hide Split, TrimEnd, Trim, Join, Contains, ParseTimingLine, SanitizeText, Escape, UnixNewlines, IsBlank,
      LinesOfPart, ArrowFirstIn, FindTiming, DropBlankLines;
    RawLines(part);
    var all := TrimmedLines(Split(part, '\n'));
    var d := DropFrom(all);
    TimingIsFirst(all, d);
    var lines := all[d..];
    match FindTiming(lines, 0)
    case None =>
    case Some(t) =>
      assert LinesOfPart(part, all) && ArrowFirstIn(all, d + t);
      assert lines[t] == all[d + t] && lines[t + 1..] == all[d + t + 1..];
      SanitizeIsEscape(TrimEnd(Join(lines[t + 1..], "\n")));
      assert all[..d + t][d..] == lines[..t];
      var before := all[..d + t];
      forall k | 0 <= k < d ensures before[k] == "" {
        BlankIsEmpty(Split(part, '\n')[k]);
      }
      BlankStart(all[..d + t], d);
      NothingTrimmed();
  }

  lemma NothingTrimmed()
    ensures Trim(Join([], " ")) == ""
  {
  }

  lemma {:induction false} PartsMean(parts: seq<string>, n: nat, acc: seq<Cue>)
    requires n <= |parts| && ArePartCues(parts, n, acc)
    ensures match ParseBlocks(parts[n..], acc)
            case Cues(cues) => ArePartCues(parts, |parts|, cues)
            case TimelineInvalid => exists k :: 0 <= k < |parts| && BadTiming(parts[k])
            case FormatUnsupported => false
    decreases |parts| - n
  {
    hide ParseBlock, NoTiming, PartMeans, BadTiming;
    if n < |parts| {
      PartIs(parts[n]);
      assert parts[n..][1..] == parts[n + 1..] && parts[n..][0] == parts[n];
      match ParseBlock(parts[n])
      case Skipped => PartsMean(parts, n + 1, acc);
      case Invalid =>
      case Read(cue) =>
        assert (acc + [cue])[..|acc|] == acc;
        PartsMean(parts, n + 1, acc + [cue]);
    }
  }

  /** For any text: an SRT file is refused for a part whose timing line is none; otherwise the cues
      are those of its parts. */
  lemma SrtMeans(text: string)
    ensures exists parts ::
              CutAtGaps(UnixNewlines(StripBom(text)), parts)
              && match ParseSrt(text)
                 case Cues(cues) => ArePartCues(parts, |parts|, cues)
                 case TimelineInvalid => exists k :: 0 <= k < |parts| && BadTiming(parts[k])
                 case FormatUnsupported => false
  {
    hide ParseBlocks, SplitBlocks, UnixNewlines, StripBom, BadTiming, CutAtGaps;
    var parts := SplitBlocks(UnixNewlines(StripBom(text)));
    BlocksAreCut(UnixNewlines(StripBom(text)));
    assert parts[0..] == parts;
    PartsMean(parts, 0, []);
  }
}
