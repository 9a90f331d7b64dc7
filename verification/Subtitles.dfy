/** Reading SRT and WebVTT text, printing WebVTT. */
module Subtitles {
  import opened Options
  import opened Strings
  import opened SubtitleTime

  datatype Cue = Cue(id: Option<string>, startMs: nat, endMs: nat, text: string)

  /** The cues, or the code of the thrown error. */
  datatype Parsed = Cues(cues: seq<Cue>) | FormatUnsupported | TimelineInvalid

  const ARROW := "-->"

  // --------------------------------------------------------------- sanitising

  /** The chain of replacements, in the order of the code. */
  function EscapeChain(s: string): string {
    ReplaceAll(
      ReplaceAll(
        ReplaceAll(
          ReplaceAll(
            ReplaceAll(s, '&', "&amp;"),
            '<', "&lt;"),
          '>', "&gt;"),
        '\"', "&quot;"),
      '\'', "&#39;")
  }

  function SanitizeText(value: string): string { EscapeChain(UnixNewlines(value)) }

  // ------------------------------------------------------------------ WebVTT

  function StripBom(s: string): string {
    if s != "" && s[0] as int == 0xFEFF then s[1..] else s
  }

  function NormalizedLines(text: string): (lines: seq<string>)
    ensures |lines| > 0
  {
    Split(UnixNewlines(StripBom(text)), '\n')
  }

  predicate SameLetter(c: char, upper: char) {
    c == upper || ('A' <= upper <= 'Z' && c as int == upper as int + 32)
  }

  /** A keyword, in any case, at the start of the line, followed by white space or the end. */
  predicate StartsWithKeyword(line: string, keyword: string) {
    && |keyword| <= |line|
    && (forall k :: 0 <= k < |keyword| ==> SameLetter(line[k], keyword[k]))
    && (|line| == |keyword| || IsSpace(line[|keyword|]))
  }

  predicate Reserved(line: string) {
    StartsWithKeyword(line, "NOTE") || StartsWithKeyword(line, "STYLE") || StartsWithKeyword(line, "REGION")
  }

  function SkipBlankLines(lines: seq<string>, i: nat): (j: nat)
    requires i <= |lines|
    ensures i <= j <= |lines| && (j < |lines| ==> !IsBlank(lines[j]))
    decreases |lines| - i
  {
    if i < |lines| && IsBlank(lines[i]) then SkipBlankLines(lines, i + 1) else i
  }

  function SkipTextLines(lines: seq<string>, i: nat): (j: nat)
    requires i <= |lines|
    ensures i <= j <= |lines| && (j < |lines| ==> IsBlank(lines[j]))
    decreases |lines| - i
  {
    if i < |lines| && !IsBlank(lines[i]) then SkipTextLines(lines, i + 1) else i
  }

  /** One cue from its first line on, and the line after it. */
  function ParseCue(lines: seq<string>, i: nat): (r: Option<(Cue, nat)>)
    requires i < |lines| && !IsBlank(lines[i])
    ensures r.Some? ==> i < r.value.1 <= |lines|
  {
    var line := Trim(lines[i]);
    var hasId := !Contains(line, ARROW);
    var t := if hasId then i + 1 else i;
    if t >= |lines| || !Contains(Trim(lines[t]), ARROW) then None
    else
      match ParseTimingLine(Trim(lines[t]), Vtt)
      case None => None
      case Some(time) =>
        var end := SkipTextLines(lines, t + 1);
        Some((Cue(if hasId then Some(line) else None, time.startMs, time.endMs,
                  SanitizeText(Join(lines[t + 1..end], "\n"))),
              end))
  }

  function ParseCues(lines: seq<string>, i: nat, acc: seq<Cue>): (r: Parsed)
    requires i <= |lines|
    decreases |lines| - i
  {
    var k := SkipBlankLines(lines, i);
    if k == |lines| then Cues(acc)
    else if Reserved(Trim(lines[k])) then ParseCues(lines, SkipTextLines(lines, k + 1), acc)
    else
      match ParseCue(lines, k)
      case None => TimelineInvalid
      case Some((cue, end)) => ParseCues(lines, end, acc + [cue])
  }

  function ParseWebVtt(text: string): Parsed {
    var lines := NormalizedLines(text);
    if !StartsWithKeyword(lines[0], "WEBVTT") then FormatUnsupported else ParseCues(lines, 1, [])
  }

  method ReadWebVtt(text: string) returns (r: Parsed)
    ensures r == ParseWebVtt(text)
  {
    hide ParseCue, Reserved, NormalizedLines, StartsWithKeyword, IsBlank, Trim, SkipBlankLines, SkipTextLines;
    var lines := NormalizedLines(text);
    if !StartsWithKeyword(lines[0], "WEBVTT") {
      return FormatUnsupported;
    }
    var cues: seq<Cue> := [];
    var index := 1;
    while index < |lines|
      invariant index <= |lines| && ParseCues(lines, index, cues) == ParseCues(lines, 1, [])
      decreases |lines| - index
    {
      var k := PastBlankLines(lines, index);
      if k >= |lines| {
        break;
      }
      if Reserved(Trim(lines[k])) {
        index := PastTextLines(lines, k + 1);
        continue;
      }
      var cue := ReadCue(lines, k);
      if cue.None? {
        return TimelineInvalid;
      }
      cues := cues + [cue.value.0];
      index := cue.value.1;
    }
    r := Cues(cues);
  }

  method PastBlankLines(lines: seq<string>, i: nat) returns (index: nat)
    requires i <= |lines|
    ensures index == SkipBlankLines(lines, i)
  {
    hide IsBlank;
    index := i;
    while index < |lines| && IsBlank(lines[index])
      invariant i <= index <= |lines| && SkipBlankLines(lines, index) == SkipBlankLines(lines, i)
    {
      index := index + 1;
    }
  }

  method PastTextLines(lines: seq<string>, i: nat) returns (index: nat)
    requires i <= |lines|
    ensures index == SkipTextLines(lines, i)
  {
    hide IsBlank;
    index := i;
    while index < |lines| && !IsBlank(lines[index])
      invariant i <= index <= |lines| && SkipTextLines(lines, index) == SkipTextLines(lines, i)
    {
      index := index + 1;
    }
  }

  method ReadCue(lines: seq<string>, i: nat) returns (r: Option<(Cue, nat)>)
    requires i < |lines| && !IsBlank(lines[i])
    ensures r == ParseCue(lines, i)
  {
    hide Contains, ParseTimingLine, SanitizeText, IsBlank;
    var line := Trim(lines[i]);
    var index := i;
    var hasId := !Contains(line, ARROW);
    if hasId {
      index := index + 1;
    }
    if index >= |lines| || !Contains(Trim(lines[index]), ARROW) {
      return None;
    }
    var time := ParseTimingLine(Trim(lines[index]), Vtt);
    if time.None? {
      return None;
    }
    var cueLines, end := CollectText(lines, index + 1);
    r := Some((Cue(if hasId then Some(line) else None, time.value.startMs, time.value.endMs,
                   SanitizeText(Join(cueLines, "\n"))),
               end));
  }

  method CollectText(lines: seq<string>, i: nat) returns (cueLines: seq<string>, index: nat)
    requires i <= |lines|
    ensures index == SkipTextLines(lines, i) && cueLines == lines[i..index]
  {
    hide IsBlank;
    index, cueLines := i, [];
    while index < |lines| && !IsBlank(lines[index])
      invariant i <= index <= |lines| && SkipTextLines(lines, index) == SkipTextLines(lines, i)
      invariant cueLines == lines[i..index]
    {
      cueLines := cueLines + [lines[index]];
      index := index + 1;
    }
  }

  // -------------------------------------------------------------------- SRT

  function FindBlankLine(s: string, i: nat): (r: Option<nat>)
    ensures r.Some? ==> i <= r.value && r.value + 1 < |s| && s[r.value] == s[r.value + 1] == '\n'
    decreases |s| - i
  {
    if i + 1 >= |s| then None
    else if s[i] == '\n' && s[i + 1] == '\n' then Some(i)
    else FindBlankLine(s, i + 1)
  }

  function SkipNewlines(s: string, i: nat): (j: nat)
    requires i <= |s|
    ensures i <= j <= |s|
    decreases |s| - i
  {
    if i < |s| && s[i] == '\n' then SkipNewlines(s, i + 1) else i
  }

  /** `s.split(/\n{2,}/)` */
  function SplitBlocks(s: string): seq<string>
    decreases |s|
  {
    match FindBlankLine(s, 0)
    case None => [s]
    case Some(i) =>
      assert SkipNewlines(s, i) > i;
      [s[..i]] + SplitBlocks(s[SkipNewlines(s, i)..])
  }

  function TrimmedLines(lines: seq<string>): (r: seq<string>)
    ensures |r| == |lines| && forall k :: 0 <= k < |r| ==> r[k] == TrimEnd(lines[k])
  {
    seq(|lines|, k requires 0 <= k < |lines| => TrimEnd(lines[k]))
  }

  function DropBlankLines(lines: seq<string>): (r: seq<string>)
    ensures r != [] ==> !IsBlank(r[0])
    ensures forall p :: p in r ==> p in lines
  {
    if lines != [] && IsBlank(lines[0]) then DropBlankLines(lines[1..]) else lines
  }

  /** `lines.findIndex(line => line.includes("-->"))` */
  function FindTiming(lines: seq<string>, i: nat): (r: Option<nat>)
    ensures r.Some? ==> i <= r.value < |lines| && Contains(lines[r.value], ARROW)
    ensures r.Some? ==> forall k :: i <= k < r.value ==> !Contains(lines[k], ARROW)
    decreases |lines| - i
  {
    if i >= |lines| then None
    else if Contains(lines[i], ARROW) then Some(i)
    else FindTiming(lines, i + 1)
  }

  datatype Block = Skipped | Invalid | Read(cue: Cue)

  function ParseBlock(block: string): Block {
    var lines := DropBlankLines(TrimmedLines(Split(block, '\n')));
    match FindTiming(lines, 0)
    case None => Skipped
    case Some(t) =>
      var id := if t > 0 then Trim(Join(lines[..t], " ")) else "";
      match ParseTimingLine(lines[t], Srt)
      case None => Invalid
      case Some(time) =>
        Read(Cue(if id != "" then Some(id) else None, time.startMs, time.endMs,
                 SanitizeText(TrimEnd(Join(lines[t + 1..], "\n")))))
  }

  function ParseBlocks(blocks: seq<string>, acc: seq<Cue>): Parsed {
    if blocks == [] then Cues(acc)
    else
      match ParseBlock(blocks[0])
      case Skipped => ParseBlocks(blocks[1..], acc)
      case Invalid => TimelineInvalid
      case Read(cue) => ParseBlocks(blocks[1..], acc + [cue])
  }

  function ParseSrt(text: string): Parsed {
    ParseBlocks(SplitBlocks(UnixNewlines(StripBom(text))), [])
  }

  method ReadSrt(text: string) returns (r: Parsed)
    ensures r == ParseSrt(text)
  {
    var blocks := SplitBlocks(UnixNewlines(StripBom(text)));
    var cues: seq<Cue> := [];
    for n := 0 to |blocks|
      invariant ParseBlocks(blocks[n..], cues) == ParseBlocks(blocks, [])
    {
      assert blocks[n..][1..] == blocks[n + 1..];
      var lines := TrimmedLines(Split(blocks[n], '\n'));
      ghost var all := lines;
      while lines != [] && IsBlank(lines[0])
        invariant DropBlankLines(lines) == DropBlankLines(all)
        decreases |lines|
      {
        lines := lines[1..];
      }
      var t := FindTiming(lines, 0);
      if t.None? {
        continue;
      }
      var id := if t.value > 0 then Trim(Join(lines[..t.value], " ")) else "";
      var time := ParseTimingLine(lines[t.value], Srt);
      if time.None? {
        return TimelineInvalid;
      }
      var cueText := TrimEnd(Join(lines[t.value + 1..], "\n"));
      cues := cues + [Cue(if id != "" then Some(id) else None, time.value.startMs, time.value.endMs,
                          SanitizeText(cueText))];
    }
    r := Cues(cues);
  }

  // ---------------------------------------------------------------- printing

  function CueSetting(top: bool): string { if top then " line:10%" else "" }

  function IdText(cue: Cue, index: nat): string {
    match cue.id
    case Some(id) => id
    case None => Decimal(index + 1)
  }

  function TimingText(cue: Cue, top: bool): string {
    FormatVttTimestamp(cue.startMs) + " --> " + FormatVttTimestamp(cue.endMs) + CueSetting(top)
  }

  function PrintCue(cue: Cue, index: nat, top: bool): string {
    Join([IdText(cue, index), TimingText(cue, top), cue.text], "\n")
  }

  function PrintCues(cues: seq<Cue>, top: bool): seq<string> {
    seq(|cues|, k requires 0 <= k < |cues| => PrintCue(cues[k], k, top))
  }

  function ToWebVtt(cues: seq<Cue>, top: bool): string {
    var body := Join(PrintCues(cues, top), "\n\n");
    "WEBVTT\n\n" + body + if body != "" then "\n" else ""
  }

  // ------------------------------------------------------------- ASS fields

  function IndexOfChar(s: string, c: char, i: nat): (r: Option<nat>)
    ensures r.Some? ==> i <= r.value < |s| && s[r.value] == c && c !in s[i..r.value]
    ensures r.None? ==> i >= |s| || c !in s[i..]
    decreases |s| - i
  {
    if i >= |s| then None
    else if s[i] == c then Some(i)
    else
      var r := IndexOfChar(s, c, i + 1);
      assert r.Some? ==> s[i..r.value] == [s[i]] + s[i + 1..r.value];
      assert s[i..] == [s[i]] + s[i + 1..];
      r
  }

  function Commas(s: string): nat {
    if s == "" then 0 else (if s[0] == ',' then 1 else 0) + Commas(s[1..])
  }

  /** As many commas as a line is short of. */
  function Missing(value: string, textIndex: nat): string {
    seq(if Commas(value) < textIndex then textIndex - Commas(value) else 0, _ => ',')
  }

  /** An ASS dialogue is cut at its first `textIndex` commas: the fields before the text hold
      none, and joining them again gives the line back, with the commas it lacked. */
  method SplitAssFields(value: string, textIndex: nat) returns (fields: seq<string>)
    ensures |fields| == textIndex + 1
    ensures forall k :: 0 <= k < textIndex ==> ',' !in fields[k]
    ensures Join(fields, ",") == value + Missing(value, textIndex)
  {
    fields := [];
    var remainder := value;
    for index := 0 to textIndex
      invariant |fields| == index && forall k :: 0 <= k < index ==> ',' !in fields[k]
      invariant Join(fields + [remainder + Missing(remainder, textIndex - index)], ",")
                == value + Missing(value, textIndex)
    {
      var left := textIndex - index;
      var comma := IndexOfChar(remainder, ',', 0);
      var field := if comma.Some? then remainder[..comma.value] else remainder;
      var next := if comma.Some? then remainder[comma.value + 1..] else "";
      FieldCut(remainder, left, field, next);
      JoinLast(fields, field, next + Missing(next, left - 1));
      fields := fields + [field];
      remainder := next;
    }
    assert Missing(remainder, 0) == "";
    assert remainder + "" == remainder;
    fields := fields + [remainder];
  }

  lemma {:induction false} CommasAt(s: string, i: nat)
    requires i < |s| && s[i] == ',' && ',' !in s[..i]
    ensures Commas(s) == 1 + Commas(s[i + 1..])
  {
    if i > 0 {
      assert s[..i][0] == s[0];
      assert s[1..][..i - 1] == s[..i][1..];
      CommasAt(s[1..], i - 1);
      assert s[1..][i..] == s[i + 1..];
    }
  }

  lemma {:induction false} NoCommas(s: string)
    requires ',' !in s
    ensures Commas(s) == 0
  {
    if s != "" {
      NoCommas(s[1..]);
    }
  }

  lemma FieldCut(remainder: string, left: nat, field: string, next: string)
    requires left > 0
    requires ',' in remainder ==> remainder == field + "," + next && ',' !in field
    requires ',' !in remainder ==> field == remainder && next == ""
    ensures field + "," + (next + Missing(next, left - 1)) == remainder + Missing(remainder, left)
  {
    if ',' in remainder {
      assert remainder[..|field|] == field && remainder[|field|] == ',' && remainder[|field| + 1..] == next;
      CommasAt(remainder, |field|);
    } else {
      NoCommas(remainder);
      assert Missing(remainder, left) == "," + Missing(next, left - 1);
    }
  }

  lemma {:induction false} JoinLast(fields: seq<string>, a: string, b: string)
    ensures Join(fields + [a + "," + b], ",") == Join(fields + [a] + [b], ",")
  {
    if fields != [] {
      JoinLast(fields[1..], a, b);
      assert (fields + [a + "," + b])[1..] == fields[1..] + [a + "," + b];
      assert (fields + [a] + [b])[1..] == fields[1..] + [a] + [b];
    }
  }
}
