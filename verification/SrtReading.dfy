/** Reading SRT, told by writing it: for every list of cues and every way to write it down, what
    is read is that list. */
module SrtReading {
  import opened Options
  import opened Strings
  import opened SubtitleTime
  import opened Subtitles
  import opened SubtitleRoundTrip

  // ---------------------------------------------------------------------- writing

  /** One cue as it is written: an id line or none, comma or point in the times, text behind the
      times, and lines of text, of which none is empty. */
  datatype Block = Block(
    id: Option<string>, startMs: nat, endMs: nat, point: char, setting: string, lines: seq<string>)

  function StampOf(ms: nat, point: char): string {
    Stamp(ms / HOUR_MS, ms % HOUR_MS / 60_000, ms % 60_000 / 1000, point, ms % 1000)
  }

  function TimingOf(b: Block): string { StampOf(b.startMs, b.point) + " --> " + StampOf(b.endMs, b.point) + b.setting }

  function LinesOf(b: Block): seq<string> { (if b.id.Some? then [b.id.value] else []) + ([TimingOf(b)] + b.lines) }

  predicate SettingOk(setting: string) {
    setting == "" || (setting[0] == ' ' && Trim(setting)!= "" && TrimEnd(setting) == setting
                      && forall k :: 0 <= k < |setting| ==> !IsLineTerminator(setting[k]))
  }

  predicate BlockOk(b: Block) {
    && (b.id.Some? ==> b.id.value != "" && Trim(b.id.value) == b.id.value && Clean(b.id.value)
                       && !Contains(b.id.value, ARROW))
    && b.startMs < b.endMs < TIME_LIMIT && (b.point == ',' || b.point == '.') && SettingOk(b.setting)
    && forall k :: 0 <= k < |b.lines| ==> b.lines[k] != "" && Clean(b.lines[k])
  }

  /** The cue that is meant: all its lines, without white space at their ends, escaped. */
  function CueOf(b: Block): Cue {
    Cue(b.id, b.startMs, b.endMs, Escape(TrimEnd(Join(TrimmedLines(b.lines), "\n"))))
  }

  function CuesOf(blocks: seq<Block>): seq<Cue> {
    seq(|blocks|, k requires 0 <= k < |blocks| => CueOf(blocks[k]))
  }

  function Empties(n: nat): seq<string> { seq(n, _ => "") }

  /** The lines of a whole file: behind each cue at least one empty line and behind the last any
      number. */
  function DocLines(blocks: seq<Block>, gaps: seq<nat>, n: nat): seq<string>
    requires |gaps| == |blocks| && n < |blocks|
    decreases |blocks| - n
  {
    if n == |blocks| - 1 then LinesOf(blocks[n]) + Empties(gaps[n])
    else LinesOf(blocks[n]) + (Empties(gaps[n] + 1) + DocLines(blocks, gaps, n + 1))
  }

  // ------------------------------------------------------------------ the break of lines

  lemma {:induction false} UnixLines(lines: seq<string>, br: string)
    requires br in {"\n", "\r\n", "\r"} && lines != []
    requires forall k :: 0 <= k < |lines| ==> Clean(lines[k])
    ensures UnixNewlines(Join(lines, br)) == Join(lines, "\n")
    decreases |lines|
  {
    hide UnixNewlines;
    if |lines| == 1 {
      NoCarriageReturn(lines[0]);
    } else {
      UnixLines(lines[1..], br);
      var rest := Join(lines[1..], br);
      assert rest != "" ==> rest[0] != '\n' || br != "\r" by { FirstOfLines(lines[1..], br); }
      LineThen(lines[0], br, rest);
    }
  }

  lemma FirstOfLines(lines: seq<string>, br: string)
    requires br in {"\n", "\r\n", "\r"} && lines != [] && Clean(lines[0])
    ensures Join(lines, br) != "" && Join(lines, br)[0] == '\n' ==> br == "\n"
  {
  }

  lemma BreakThen(br: string, rest: string)
    requires br in {"\n", "\r\n", "\r"} && (br == "\r" && rest != "" ==> rest[0] != '\n')
    ensures UnixNewlines(br + rest) == "\n" + UnixNewlines(rest)
  {
    var s := br + rest;
    if br == "\r\n" {
      assert s[2..] == rest;
    } else {
      assert s[1..] == rest;
      assert br == "\r" && |s| > 1 ==> s[1] == rest[0];
    }
  }

  lemma CharThen(c: char, s: string)
    requires c != '\r'
    ensures UnixNewlines([c] + s) == [c] + UnixNewlines(s)
  {
    assert ([c] + s)[1..] == s;
  }

  lemma {:induction false} LineThen(line: string, br: string, rest: string)
    requires br in {"\n", "\r\n", "\r"} && Clean(line) && (br == "\r" && rest != "" ==> rest[0] != '\n')
    ensures UnixNewlines(line + br + rest) == line + "\n" + UnixNewlines(rest)
  {
    hide UnixNewlines;
    if line == "" {
      assert line + br + rest == br + rest;
      BreakThen(br, rest);
    } else {
      LineThen(line[1..], br, rest);
      assert line + br + rest == [line[0]] + (line[1..] + br + rest);
      CharThen(line[0], line[1..] + br + rest);
    }
  }

  // ----------------------------------------------------------------- cutting into blocks

  function Newlines(n: nat): string { seq(n, _ => '\n') }

  /** No empty line inside, none at the ends. */
  predicate Solid(t: string) {
    && t != "" && t[0] != '\n' && t[|t| - 1] != '\n'
    && forall k :: 0 <= k && k + 1 < |t| ==> t[k] != '\n' || t[k + 1] != '\n'
  }

  lemma {:induction false} LinesAreSolid(lines: seq<string>)
    requires lines != [] && forall k :: 0 <= k < |lines| ==> lines[k] != "" && Clean(lines[k])
    ensures Solid(Join(lines, "\n"))
  {
    var t := Join(lines, "\n");
    if |lines| > 1 {
      LinesAreSolid(lines[1..]);
      var a, rest := lines[0], Join(lines[1..], "\n");
      assert t == a + "\n" + rest;
      assert t[|t| - 1] == rest[|rest| - 1];
      forall k | 0 <= k && k + 1 < |t| ensures t[k] != '\n' || t[k + 1] != '\n' {
        if k < |a| {
          assert t[k] == a[k];
        } else if k == |a| {
          assert t[k + 1] == rest[0];
        } else {
          assert t[k] == rest[k - |a| - 1] && t[k + 1] == rest[k - |a|];
        }
      }
    }
  }

  lemma {:induction false} BlankLineAt(s: string, i: nat, j: nat)
    requires i <= j && j + 1 < |s| && s[j] == s[j + 1] == '\n'
    requires forall k :: i <= k < j ==> s[k] != '\n' || s[k + 1] != '\n'
    ensures FindBlankLine(s, i) == Some(j)
    decreases j - i
  {
    if i < j {
      BlankLineAt(s, i + 1, j);
    }
  }

  lemma {:induction false} NoBlankLine(s: string, i: nat)
    requires forall k :: i <= k && k + 1 < |s| ==> s[k] != '\n' || s[k + 1] != '\n'
    ensures FindBlankLine(s, i) == None
    decreases |s| - i
  {
    if i + 1 < |s| {
      NoBlankLine(s, i + 1);
    }
  }

  lemma {:induction false} NewlinesEnd(s: string, i: nat, j: nat)
    requires i <= j <= |s| && (forall k :: i <= k < j ==> s[k] == '\n') && (j < |s| ==> s[j] != '\n')
    ensures SkipNewlines(s, i) == j
    decreases j - i
  {
    if i < j {
      NewlinesEnd(s, i + 1, j);
    }
  }

  lemma SolidCut(t: string, n: nat, rest: string)
    requires Solid(t) && n >= 2 && (rest != "" ==> rest[0] != '\n')
    ensures SplitBlocks(t + Newlines(n) + rest) == [t] + SplitBlocks(rest)
  {
    var s := t + Newlines(n) + rest;
    forall k | 0 <= k < |t| ensures s[k] != '\n' || s[k + 1] != '\n' {
      if k + 1 < |t| {
        assert s[k] == t[k] && s[k + 1] == t[k + 1];
      } else {
        assert s[k] == t[|t| - 1];
      }
    }
    BlankLineAt(s, 0, |t|);
    NewlinesEnd(s, |t|, |t| + n);
    assert s[..|t|] == t && s[|t| + n..] == rest;
  }

  lemma SolidAlone(t: string, n: nat)
    requires Solid(t)
    ensures n < 2 ==> SplitBlocks(t + Newlines(n)) == [t + Newlines(n)]
    ensures n >= 2 ==> SplitBlocks(t + Newlines(n)) == [t, ""]
  {
    if n < 2 {
      NoBlankLine(t + Newlines(n), 0);
    } else {
      assert t + Newlines(n) + "" == t + Newlines(n);
      SolidCut(t, n, "");
      assert SplitBlocks("") == [""];
    }
  }

  lemma {:induction false} JoinEmpties(lines: seq<string>, n: nat)
    requires lines != []
    ensures Join(lines + Empties(n), "\n") == Join(lines, "\n") + Newlines(n)
  {
    if n == 0 {
      assert lines + Empties(0) == lines && Newlines(0) == "";
    } else {
      JoinEmpties(lines, n - 1);
      assert lines + Empties(n) == (lines + Empties(n - 1)) + [""];
      JoinAppend(lines + Empties(n - 1), [""], "\n");
      assert Newlines(n) == Newlines(n - 1) + "\n";
      assert Join([""], "\n") == "";
    }
  }

  lemma JoinGap(lines: seq<string>, n: nat, more: seq<string>)
    requires lines != [] && more != []
    ensures Join(lines + (Empties(n) + more), "\n") == Join(lines, "\n") + Newlines(n + 1) + Join(more, "\n")
  {
    hide Join;
    JoinEmpties(lines, n);
    JoinAppend(lines + Empties(n), more, "\n");
    assert lines + (Empties(n) + more) == lines + Empties(n) + more;
    assert Newlines(n + 1) == Newlines(n) + "\n";
  }

  // --------------------------------------------------------------------- one block

  lemma StampShape(ms: nat, point: char)
    requires point == ',' || point == '.'
    ensures var t := StampOf(ms, point);
            |t| >= 12 && IsDigit(t[0]) && IsDigit(t[|t| - 1]) && NoSpaces(t) && Clean(t)
  {
    hide IsSpace;
    PadTwo(ms / HOUR_MS);
    PadTwo(ms % HOUR_MS / 60_000);
    PadTwo(ms % 60_000 / 1000);
    PadThree(ms % 1000);
    var t := StampOf(ms, point);
    forall k | 0 <= k < |t| ensures IsDigit(t[k]) || t[k] == ':' || t[k] == point {
    }
    StampCharacters();
  }

  lemma StampCharacters()
    ensures !IsSpace(':') && !IsSpace(',') && !IsSpace('.')
    ensures forall c :: IsDigit(c) ==> !IsSpace(c) && c != '\n' && c != '\r'
  {
  }

  lemma StampReads(ms: nat, point: char)
    requires ms < TIME_LIMIT && (point == ',' || point == '.')
    ensures ParseStandardTimestamp(StampOf(ms, point), Srt) == Some(ms)
  {
    hide ParseStandardTimestamp, Stamp;
    SplitMilliseconds(ms);
    StampIsRead(ms / HOUR_MS, ms % HOUR_MS / 60_000, ms % 60_000 / 1000, point, ms % 1000, Srt);
  }

  lemma TimingReads(b: Block)
    requires BlockOk(b)
    ensures ParseTimingLine(TimingOf(b), Srt) == Some(Timing(b.startMs, b.endMs))
  {
    hide StampOf, MatchTiming, ParseStandardTimestamp, IsLineTerminator, Trim, TrimEnd, Contains;
    StampShape(b.startMs, b.point);
    StampShape(b.endMs, b.point);
    TimingLineMatches(StampOf(b.startMs, b.point), StampOf(b.endMs, b.point), b.setting);
    StampReads(b.startMs, b.point);
    StampReads(b.endMs, b.point);
  }

  lemma TimingShape(b: Block)
    requires BlockOk(b)
    ensures var t := TimingOf(b);
            t != "" && Clean(t) && TrimEnd(t) == t && Contains(t, ARROW) && !IsBlank(t)
  {
    hide StampOf, Contains, IsSpace, Trim, TrimStart, TrimEnd;
    var x, y := StampOf(b.startMs, b.point), StampOf(b.endMs, b.point);
    StampShape(b.startMs, b.point);
    StampShape(b.endMs, b.point);
    var t := TimingOf(b);
    assert t[0] == x[0];
    assert t[|x| + 1..|x| + 4] == "-->";
    ContainsAt(t, ARROW, |x| + 1);
    StampCharacters();
    SettingShape(b.setting);
    assert b.setting != "" ==> t[|t| - 1] == b.setting[|b.setting| - 1];
    assert b.setting == "" ==> t[|t| - 1] == y[|y| - 1];
    TrimNothing(t);
    NothingTrimmed(t);
  }

  lemma SettingShape(setting: string)
    requires SettingOk(setting)
    ensures setting != "" ==> !IsSpace(setting[|setting| - 1])
    ensures Clean(setting)
  {
  }

  lemma NothingTrimmed(t: string)
    requires t != "" && !IsSpace(t[|t| - 1])
    ensures TrimEnd(t) == t
  {
  }

  lemma {:induction false} TimingFound(lines: seq<string>, i: nat, t: nat)
    requires i <= t < |lines| && Contains(lines[t], ARROW)
    requires forall k :: i <= k < t ==> !Contains(lines[k], ARROW)
    ensures FindTiming(lines, i) == Some(t)
    decreases t - i
  {
    hide Contains;
    if i < t {
      TimingFound(lines, i + 1, t);
    }
  }

  /** The block of a cue, with or without a line break behind it. */
  lemma BlockReads(b: Block, tail: nat)
    requires BlockOk(b) && tail < 2
    ensures ParseBlock(Join(LinesOf(b), "\n") + Newlines(tail)) == Read(CueOf(b))
  {
    hide TimingOf, ParseTimingLine, Contains, Trim, TrimEnd, Escape, SanitizeText, IsBlank;
    var all := LinesOf(b) + Empties(tail);
    LinesOfClean(b);
    JoinEmpties(LinesOf(b), tail);
    SplitJoin(all, '\n');
    TimingShape(b);
    TimingReads(b);
    var t := if b.id.Some? then 1 else 0;
    var lines := TrimmedLines(all);
    if b.id.Some? {
      IdShape(b.id.value);
      assert lines[0] == b.id.value && lines[1] == TimingOf(b);
      assert Join(lines[..1], " ") == b.id.value;
    } else {
      assert lines[0] == TimingOf(b);
    }
    assert DropBlankLines(lines) == lines;
    TimingFound(lines, 0, t);
    assert all[t + 1..] == b.lines + Empties(tail);
    assert lines[t + 1..] == TrimmedLines(b.lines + Empties(tail));
    TextReads(b, tail);
  }

  lemma IdShape(id: string)
    requires id != "" && Trim(id) == id
    ensures TrimEnd(id) == id && !IsBlank(id)
  {
    NothingTrimmed(id);
  }

  lemma LinesOfClean(b: Block)
    requires BlockOk(b)
    ensures forall k :: 0 <= k < |LinesOf(b)| ==> LinesOf(b)[k] != "" && Clean(LinesOf(b)[k])
  {
    hide TimingOf, Contains, Trim, SettingOk;
    TimingShape(b);
  }

  /** The text of a cue, without the empty line that may follow. */
  lemma TextReads(b: Block, tail: nat)
    requires BlockOk(b) && tail < 2
    ensures SanitizeText(TrimEnd(Join(TrimmedLines(b.lines + Empties(tail)), "\n")))
            == Escape(TrimEnd(Join(TrimmedLines(b.lines), "\n")))
  {
    hide Trim, TrimEnd, SanitizeText, Escape, Contains, TimingOf, SettingOk;
    var kept := TrimmedLines(b.lines);
    EmptyTrimmed();
    if tail == 0 {
      assert b.lines + Empties(0) == b.lines;
    } else if b.lines == [] {
      assert TrimmedLines(b.lines + Empties(1)) == [""];
      assert kept == [];
    } else {
      assert TrimmedLines(b.lines + Empties(1)) == kept + Empties(1);
      JoinEmpties(kept, 1);
      NewlineTrimmed(Join(kept, "\n"));
    }
    var text := TrimEnd(Join(kept, "\n"));
    NoReturnInText(b);
    NoCarriageReturn(text);
    SanitizeIsEscape(text);
  }

  lemma EmptyTrimmed()
    ensures TrimEnd("") == "" && Join([""], "\n") == "" && Join([], "\n") == ""
  {
  }

  lemma NewlineTrimmed(t: string)
    ensures TrimEnd(t + Newlines(1)) == TrimEnd(t)
  {
    var s := t + Newlines(1);
    assert s[|s| - 1] == '\n' && IsSpace('\n') && s[..|s| - 1] == t;
  }

  lemma NoReturnInText(b: Block)
    requires BlockOk(b)
    ensures '\r' !in TrimEnd(Join(TrimmedLines(b.lines), "\n"))
  {
    hide Trim, TimingOf, SettingOk, Contains;
    var kept := TrimmedLines(b.lines);
    forall p | p in kept ensures '\r' !in p {
      var k :| 0 <= k < |kept| && kept[k] == p;
      assert p == b.lines[k][..|p|];
    }
    JoinFree(kept, "\n", '\r');
    var j := Join(kept, "\n");
    assert TrimEnd(j) == j[..|TrimEnd(j)|];
  }

  // -------------------------------------------------------------------- the whole file

  predicate AllOk(blocks: seq<Block>) { forall k :: 0 <= k < |blocks| ==> BlockOk(blocks[k]) }

  lemma {:induction false} DocClean(blocks: seq<Block>, gaps: seq<nat>, n: nat)
    requires |gaps| == |blocks| && n < |blocks| && AllOk(blocks)
    ensures var doc := DocLines(blocks, gaps, n);
            && doc != [] && doc[0] != "" && Clean(doc[0])
            && forall k :: 0 <= k < |doc| ==> Clean(doc[k])
    decreases |blocks| - n
  {
    hide BlockOk, LinesOf;
    LinesOfClean(blocks[n]);
    SomeLines(blocks[n]);
    if n < |blocks| - 1 {
      DocClean(blocks, gaps, n + 1);
    }
  }

  lemma SomeLines(b: Block)
    ensures LinesOf(b) != []
  {
  }

  lemma ReadFirst(block: string, rest: seq<string>, cue: Cue, acc: seq<Cue>)
    requires ParseBlock(block) == Read(cue)
    ensures ParseBlocks([block] + rest, acc) == ParseBlocks(rest, acc + [cue])
  {
    hide ParseBlock;
    assert ([block] + rest)[1..] == rest;
  }

  lemma NothingRead(acc: seq<Cue>)
    ensures ParseBlocks([], acc) == Cues(acc) && ParseBlocks([""], acc) == Cues(acc)
  {
    assert [""][1..] == [];
    assert Split("", '\n') == [""];
    assert TrimmedLines([""]) == [""];
    assert DropBlankLines([""]) == [] by { assert [""][1..] == []; }
    assert ParseBlock("") == Skipped;
  }

  lemma {:induction false} DocReads(blocks: seq<Block>, gaps: seq<nat>, n: nat, acc: seq<Cue>)
    requires |gaps| == |blocks| && n < |blocks| && AllOk(blocks)
    ensures ParseBlocks(SplitBlocks(Join(DocLines(blocks, gaps, n), "\n")), acc) == Cues(acc + CuesOf(blocks)[n..])
    decreases |blocks| - n
  {
    hide BlockOk, LinesOf, CueOf, Join, SplitBlocks, ParseBlock, ParseBlocks, Solid, Newlines;
    var b, cue := blocks[n], CueOf(blocks[n]);
    var t := Join(LinesOf(b), "\n");
    LinesOfClean(b);
    SomeLines(b);
    LinesAreSolid(LinesOf(b));
    if n == |blocks| - 1 {
      JoinEmpties(LinesOf(b), gaps[n]);
      SolidAlone(t, gaps[n]);
      BlockReads(b, if gaps[n] < 2 then gaps[n] else 0);
      NoNewlines(t);
      ReadFirst(if gaps[n] < 2 then t + Newlines(gaps[n]) else t, if gaps[n] < 2 then [] else [""], cue, acc);
      assert [t + Newlines(gaps[n])] + [] == [t + Newlines(gaps[n])];
      assert [t] + [""] == [t, ""];
      NothingRead(acc + [cue]);
      assert CuesOf(blocks)[n..] == [cue];
    } else {
      var more := DocLines(blocks, gaps, n + 1);
      DocClean(blocks, gaps, n + 1);
      JoinGap(LinesOf(b), gaps[n] + 1, more);
      StartsWithLine(more);
      SolidCut(t, gaps[n] + 2, Join(more, "\n"));
      BlockReads(b, 0);
      NoNewlines(t);
      ReadFirst(t, SplitBlocks(Join(more, "\n")), cue, acc);
      DocReads(blocks, gaps, n + 1, acc + [cue]);
      assert acc + [cue] + CuesOf(blocks)[n + 1..] == acc + CuesOf(blocks)[n..];
    }
  }

  lemma NoNewlines(t: string)
    ensures t + Newlines(0) == t
  {
  }

  lemma StartsWithLine(lines: seq<string>)
    requires lines != [] && lines[0] != "" && Clean(lines[0])
    ensures Join(lines, "\n") != "" && Join(lines, "\n")[0] != '\n'
  {
  }

  /** Whatever cues there are, written as SRT with any kind of line break, any number of empty
      lines between and behind them, and with or without a byte order mark: they are read with
      their ids and times and with their whole texts, escaped. */
  lemma SrtIsRead(blocks: seq<Block>, gaps: seq<nat>, br: string, mark: bool)
    requires blocks != [] && |gaps| == |blocks| && AllOk(blocks) && br in {"\n", "\r\n", "\r"}
    ensures ParseSrt((if mark then [0xFEFF as char] else "") + Join(DocLines(blocks, gaps, 0), br))
            == Cues(CuesOf(blocks))
  {
    hide AllOk, Join, DocLines, UnixNewlines, SplitBlocks, ParseBlocks, CuesOf;
    var doc := DocLines(blocks, gaps, 0);
    var text := Join(doc, br);
    DocClean(blocks, gaps, 0);
    NoMark(blocks, gaps, br);
    assert StripBom((if mark then [0xFEFF as char] else "") + text) == text;
    UnixLines(doc, br);
    DocReads(blocks, gaps, 0, []);
    assert [] + CuesOf(blocks)[0..] == CuesOf(blocks);
  }

  /** The file does not itself start with the mark, unless its first id does. */
  lemma NoMark(blocks: seq<Block>, gaps: seq<nat>, br: string)
    requires blocks != [] && |gaps| == |blocks| && AllOk(blocks)
    ensures var text := Join(DocLines(blocks, gaps, 0), br); text != "" && text[0] as int != 0xFEFF
  {
    hide Contains, TrimStart, TrimEnd, TimingOf;
    var b := blocks[0];
    assert BlockOk(b);
    var first := LinesOf(b)[0];
    MarkIsSpace();
    if b.id.Some? {
      assert first == b.id.value && !IsSpace(first[0]);
    } else {
      StampStart(b);
    }
    FirstStands(DocLines(blocks, gaps, 0), br);
  }

  lemma StampStart(b: Block)
    requires BlockOk(b)
    ensures TimingOf(b) != "" && IsDigit(TimingOf(b)[0])
  {
    hide StampOf, Contains, Trim, TrimEnd, IsSpace;
    StampShape(b.startMs, b.point);
    assert TimingOf(b)[0] == StampOf(b.startMs, b.point)[0];
  }

  lemma MarkIsSpace()
    ensures forall c: char :: c as int == 0xFEFF ==> IsSpace(c) && !IsDigit(c)
  {
  }

  lemma FirstStands(lines: seq<string>, br: string)
    requires lines != [] && lines[0] != ""
    ensures Join(lines, br) != "" && Join(lines, br)[0] == lines[0][0]
  {
  }
}
