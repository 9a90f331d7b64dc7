/** What the two playlist strings of a detail mean, for any two strings, told without the
    functions that read them. */
module CatalogReading {
  import opened Options
  import opened Strings
  import opened EpisodeOrder
  import opened PlaybackCatalog

  /** The parts make up `s`, and the separator stands nowhere but between them. */
  ghost predicate CutInto(s: string, sep: string, parts: seq<string>) { Join(parts, sep) == s && Separable(parts, sep) }

  /** What plays an entry is `id`; in the plain form it ends at the first bar. */
  ghost predicate PlaysAs(raw: string, handoff: bool, id: string) {
    && id != ""
    && if handoff then raw == id
       else '|' !in id && exists rest :: raw == id + rest && (rest == "" || rest[0] == '|')
  }

  /** An entry is a caption, `$`, and what stands behind it; or that alone. */
  ghost predicate Written(entry: string, caption: string, raw: string) {
    || (entry == caption + "$" + raw && '$' !in caption)
    || (entry == raw && caption == "" && '$' !in entry)
  }

  /** Entry number `k` names episode `e`, called by the caption or else by the number. */
  ghost predicate EntryMeans(entry: string, k: nat, handoff: bool, e: Episode) {
    exists caption, raw, id ::
      && Written(entry, caption, raw) && PlaysAs(raw, handoff, id)
      && e == Episode(k, if caption == "" then Decimal(k + 1) else caption, id)
  }

  ghost predicate NamesEpisode(entry: string, k: nat, handoff: bool) { exists e :: EntryMeans(entry, k, handoff, e) }

  /** The episodes of those of the first `n` entries that name one, in order. */
  ghost predicate AreEpisodes(entries: seq<string>, n: nat, handoff: bool, es: seq<Episode>)
    requires n <= |entries|
  {
    if n == 0 then es == []
    else if NamesEpisode(entries[n - 1], n - 1, handoff) then
      && es != [] && EntryMeans(entries[n - 1], n - 1, handoff, es[|es| - 1])
      && AreEpisodes(entries, n - 1, handoff, es[..|es| - 1])
    else AreEpisodes(entries, n - 1, handoff, es)
  }

  /** Text number `k` has an entry that names an episode. */
  ghost predicate HasEpisodes(text: string, handoff: bool) {
    exists entries, k: nat :: CutInto(text, "#", entries) && k < |entries| && NamesEpisode(entries[k], k, handoff)
  }

  /** The line of text `k`: its number, the name at its place or a numbered one, its episodes
      in order, and whether one of them plays HLS. */
  ghost predicate LineMeans(labels: Labels, names: seq<string>, text: string, k: nat, handoff: bool, line: Line) {
    && line.index == k
    && line.name == (if k < |names| && names[k] != "" then names[k] else "线路 " + Decimal(k + 1))
    && (line.hls <==> PlaysHls(line))
    && exists entries, read, order ::
         CutInto(text, "#", entries) && AreEpisodes(entries, |entries|, handoff, read)
         && SortedBy(labels, read, order, line.episodes)
  }

  /** The lines of those of the first `n` texts that have episodes, in order. */
  ghost predicate AreLinesOf(
    labels: Labels, names: seq<string>, texts: seq<string>, n: nat, handoff: bool, lines: seq<Line>)
    requires n <= |texts|
  {
    if n == 0 then lines == []
    else if HasEpisodes(texts[n - 1], handoff) then
      && lines != [] && LineMeans(labels, names, texts[n - 1], n - 1, handoff, lines[|lines| - 1])
      && AreLinesOf(labels, names, texts, n - 1, handoff, lines[..|lines| - 1])
    else AreLinesOf(labels, names, texts, n - 1, handoff, lines)
  }

  /** The lines of two strings: of every text between `$$$` that has episodes. */
  ghost predicate StringsMean(labels: Labels, playFrom: string, playUrl: string, handoff: bool, lines: seq<Line>) {
    exists stripped, urls, names, texts ::
      && Stripped(playFrom, stripped) && Stripped(playUrl, urls) && stripped != "" && urls != ""
      && CutInto(stripped, "$$$", names) && CutInto(urls, "$$$", texts)
      && AreLinesOf(labels, names, texts, |texts|, handoff, lines)
  }

  // ------------------------------------------------------------------ the parts

  lemma SplitOnCuts(s: string, sep: string)
    requires sep != ""
    ensures CutInto(s, sep, SplitOn(s, sep))
  {
    hide SplitOn, Separable;
    JoinSplitOn(s, sep);
    SplitOnJoinIff(SplitOn(s, sep), sep);
  }

  /** Splitting at a character is splitting at the text of it. */
  lemma {:induction false} SplitIsSplitOn(s: string, c: char)
    ensures Split(s, c) == SplitOn(s, [c])
  {
    if s != "" {
      SplitIsSplitOn(s[1..], c);
      assert [c] <= s <==> s[0] == c;
    }
  }

  lemma SplitCuts(s: string, c: char)
    ensures CutInto(s, [c], Split(s, c))
  {
    SplitIsSplitOn(s, c);
    SplitOnCuts(s, [c]);
  }

  lemma CutUnique(s: string, sep: string, parts: seq<string>)
    requires sep != "" && CutInto(s, sep, parts)
    ensures parts == SplitOn(s, sep)
  {
    SplitOnJoinIff(parts, sep);
  }

  /** The first part ends at the first separator or with the text. */
  lemma {:induction false} FirstPartEnds(s: string, c: char)
    ensures var first := Split(s, c)[0];
            first <= s && c !in first && (s[|first|..] == "" || s[|first|..][0] == c)
  {
    if s != "" && s[0] != c {
      FirstPartEnds(s[1..], c);
      var first := Split(s[1..], c)[0];
      assert s[|first| + 1..] == s[1..][|first|..];
    }
  }

  // ------------------------------------------------------------------ an entry

  function RawOf(entry: string): (string, string) {
    match CutAt(entry, '$') { case Some((caption, raw)) => (caption, raw) case None => ("", entry) }
  }

  function IdOf(raw: string, handoff: bool): string { if handoff then raw else Split(raw, '|')[0] }

  lemma ReadEntryIs(entry: string, k: nat, handoff: bool)
    ensures var (caption, raw) := RawOf(entry);
            ReadEntry(entry, k, handoff)
            == if IdOf(raw, handoff) == "" then None
               else Some(Episode(k, if caption == "" then Decimal(k + 1) else caption, IdOf(raw, handoff)))
  {
    hide Decimal, CutAt, Split;
    assert Decimal(k + 1) != "";
  }

  lemma WrittenIff(entry: string, caption: string, raw: string)
    ensures Written(entry, caption, raw) <==> RawOf(entry) == (caption, raw)
  {
    hide CutAt;
    if entry == caption + "$" + raw && '$' !in caption {
      CutAtFirst(caption, '$', raw);
    }
  }

  lemma PlaysAsIff(raw: string, handoff: bool, id: string)
    ensures PlaysAs(raw, handoff, id) <==> id != "" && IdOf(raw, handoff) == id
  {
    hide Split;
    FirstPartEnds(raw, '|');
    var first := Split(raw, '|')[0];
    assert raw == first + raw[|first|..];
    if !handoff && PlaysAs(raw, handoff, id) {
      var rest :| raw == id + rest && (rest == "" || rest[0] == '|');
      FirstPartIs(id, rest);
    }
  }

  lemma FirstPartIs(id: string, rest: string)
    requires '|' !in id && (rest == "" || rest[0] == '|')
    ensures Split(id + rest, '|')[0] == id
  {
    if rest == "" {
      SplitNone(id, '|');
      assert id + rest == id;
    } else {
      SplitAfter(id, rest[1..], '|');
      assert id + rest == id + ['|'] + rest[1..];
    }
  }

  /** An entry is read exactly as it means. */
  lemma EntryIff(entry: string, k: nat, handoff: bool, e: Episode)
    ensures ReadEntry(entry, k, handoff) == Some(e) <==> EntryMeans(entry, k, handoff, e)
  {
    hide Decimal, RawOf, IdOf, Written, PlaysAs, ReadEntry;
    ReadEntryIs(entry, k, handoff);
    var (caption, raw) := RawOf(entry);
    WrittenIff(entry, caption, raw);
    PlaysAsIff(raw, handoff, IdOf(raw, handoff));
    if EntryMeans(entry, k, handoff, e) {
      var otherCaption, otherRaw, id :|
        && Written(entry, otherCaption, otherRaw) && PlaysAs(otherRaw, handoff, id)
        && e == Episode(k, if otherCaption == "" then Decimal(k + 1) else otherCaption, id);
      WrittenIff(entry, otherCaption, otherRaw);
      PlaysAsIff(otherRaw, handoff, id);
    }
  }

  lemma NamedIff(entry: string, k: nat, handoff: bool)
    ensures ReadEntry(entry, k, handoff).Some? <==> NamesEpisode(entry, k, handoff)
  {
    hide ReadEntry, EntryMeans;
    forall e ensures ReadEntry(entry, k, handoff) == Some(e) <==> EntryMeans(entry, k, handoff, e) {
      EntryIff(entry, k, handoff, e);
    }
  }

  lemma {:induction false} EntriesRead(entries: seq<string>, n: nat, handoff: bool)
    requires n <= |entries|
    ensures AreEpisodes(entries, n, handoff, ReadEntries(entries, n, handoff))
  {
    hide ReadEntry, EntryMeans, NamesEpisode;
    if n > 0 {
      EntriesRead(entries, n - 1, handoff);
      var read := ReadEntry(entries[n - 1], n - 1, handoff);
      var before := ReadEntries(entries, n - 1, handoff);
      NamedIff(entries[n - 1], n - 1, handoff);
      if read.Some? {
        EntryIff(entries[n - 1], n - 1, handoff, read.value);
        assert ReadEntries(entries, n, handoff) == before + [read.value];
        assert (before + [read.value])[..|before|] == before;
      } else {
        assert ReadEntries(entries, n, handoff) == before;
      }
    }
  }

  lemma {:induction false} SomeReadIff(entries: seq<string>, n: nat, handoff: bool)
    requires n <= |entries|
    ensures ReadEntries(entries, n, handoff) != []
            <==> exists k: nat :: k < n && NamesEpisode(entries[k], k, handoff)
  {
    hide ReadEntry, NamesEpisode;
    if n > 0 {
      SomeReadIff(entries, n - 1, handoff);
      NamedIff(entries[n - 1], n - 1, handoff);
    }
  }

  // -------------------------------------------------------------------- a line

  lemma LineRead(labels: Labels, names: seq<string>, text: string, k: nat, handoff: bool)
    ensures var line := ReadLine(labels, names, text, k, handoff);
            if HasEpisodes(text, handoff) then line.Some? && LineMeans(labels, names, text, k, handoff, line.value)
            else line.None?
  {
    hide SortEpisodes, ReadEntries, Split, AnyHls, PlaysHls, Decimal, CutInto, AreEpisodes, NamesEpisode, SortedBy;
    var entries := Split(text, '#');
    var read := ReadEntries(entries, |entries|, handoff);
    SplitCuts(text, '#');
    EntriesRead(entries, |entries|, handoff);
    SomeReadIff(entries, |entries|, handoff);
    SortedEpisodes(labels, read);
    SortedIff(labels, read, SortEpisodes(labels, read));
    if HasEpisodes(text, handoff) {
      var parts, j: nat :| CutInto(text, "#", parts) && j < |parts| && NamesEpisode(parts[j], j, handoff);
      CutUnique(text, "#", parts);
      CutUnique(text, "#", entries);
    }
    if ReadLine(labels, names, text, k, handoff).Some? {
      HlsOfLine(labels, names, text, k, handoff);
    }
  }

  lemma {:induction false} LinesRead(
    labels: Labels, names: seq<string>, texts: seq<string>, n: nat, handoff: bool)
    requires n <= |texts|
    ensures AreLinesOf(labels, names, texts, n, handoff, ReadLines(labels, names, texts, n, handoff))
  {
    hide ReadLine, LineMeans, HasEpisodes;
    if n > 0 {
      LinesRead(labels, names, texts, n - 1, handoff);
      LineRead(labels, names, texts[n - 1], n - 1, handoff);
      var before := ReadLines(labels, names, texts, n - 1, handoff);
      var line := ReadLine(labels, names, texts[n - 1], n - 1, handoff);
      if line.Some? {
        assert ReadLines(labels, names, texts, n, handoff) == before + [line.value];
        assert (before + [line.value])[..|before|] == before;
      } else {
        assert ReadLines(labels, names, texts, n, handoff) == before;
      }
    }
  }

  /** Any two strings: the catalog has the lines that the strings mean; there is none when
      either is blank or no line has an episode. */
  lemma CatalogMeans(labels: Labels, playFrom: string, playUrl: string, handoff: bool)
    ensures match Catalog(labels, playFrom, playUrl, handoff)
            case Some(lines) => lines != [] && StringsMean(labels, playFrom, playUrl, handoff, lines)
            case None =>
              OnlySpaces(playFrom) || OnlySpaces(playUrl) || StringsMean(labels, playFrom, playUrl, handoff, [])
  {
    hide Trim, SplitOn, ReadLines, OnlySpaces, AreLinesOf, CutInto;
    var stripped, urls := Trim(playFrom), Trim(playUrl);
    TrimStrips(playFrom);
    TrimStrips(playUrl);
    BlankIsSpaces(playFrom);
    BlankIsSpaces(playUrl);
    SplitOnCuts(stripped, "$$$");
    SplitOnCuts(urls, "$$$");
    var texts := SplitOn(urls, "$$$");
    LinesRead(labels, SplitOn(stripped, "$$$"), texts, |texts|, handoff);
  }
}
