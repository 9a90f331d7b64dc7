/** The renderer's reading of the two playlist strings. */
module PlaybackCatalog {
  import opened Options
  import opened Strings
  import opened EpisodeOrder
  import TextOrder

  datatype Line = Line(index: nat, name: string, hls: bool, episodes: seq<Episode>)

  /** What stands before and behind the first `c`. */
  function CutAt(s: string, c: char): (r: Option<(string, string)>)
    ensures r.None? <==> c !in s
    ensures r.Some? ==> s == r.value.0 + [c] + r.value.1 && c !in r.value.0
  {
    if s == "" then None
    else if s[0] == c then Some(("", s[1..]))
    else
      match CutAt(s[1..], c)
      case None => None
      case Some((before, behind)) => Some(([s[0]] + before, behind))
  }

  lemma {:induction false} CutAtFirst(before: string, c: char, behind: string)
    requires c !in before
    ensures CutAt(before + [c] + behind, c) == Some((before, behind))
  {
    var s := before + [c] + behind;
    if before == "" {
      assert s[1..] == behind;
    } else {
      CutAtFirst(before[1..], c, behind);
      assert s[1..] == before[1..] + [c] + behind;
      assert [before[0]] + before[1..] == before;
    }
  }

  /** One entry of a line; `handoff` keeps what stands behind the bar. */
  function ReadEntry(entry: string, k: nat, handoff: bool): Option<Episode> {
    var cut := CutAt(entry, '$');
    var caption := if cut.Some? then cut.value.0 else Decimal(k + 1);
    var rawId := if cut.Some? then cut.value.1 else entry;
    var id := if handoff then rawId else Split(rawId, '|')[0];
    if id == "" then None else Some(Episode(k, if caption == "" then Decimal(k + 1) else caption, id))
  }

  /** The first `n` entries, those without an id left out. */
  function ReadEntries(entries: seq<string>, n: nat, handoff: bool): seq<Episode>
    requires n <= |entries|
  {
    if n == 0 then []
    else
      ReadEntries(entries, n - 1, handoff) +
      match ReadEntry(entries[n - 1], n - 1, handoff) { case None => [] case Some(e) => [e] }
  }

  /** `/\.m3u8(?:$|[?#])/i` */
  predicate NamesHls(id: string) { exists i :: 0 <= i < |id| && HlsAt(id, i) }

  predicate HlsAt(id: string, i: nat) {
    && i + 5 <= |id| && id[i] == '.' && TextOrder.LowerChar(id[i + 1]) == 'm' && id[i + 2] == '3'
    && TextOrder.LowerChar(id[i + 3]) == 'u' && id[i + 4] == '8'
    && (i + 5 == |id| || id[i + 5] == '?' || id[i + 5] == '#')
  }

  predicate AnyHls(es: seq<Episode>) { exists e :: e in es && NamesHls(e.id) }

  function DefaultLineName(k: nat): string { "线路 " + Decimal(k + 1) }

  /** `fromLines[index] || default` */
  function ShownName(fromLines: seq<string>, k: nat): string {
    if k < |fromLines| && fromLines[k] != "" then fromLines[k] else DefaultLineName(k)
  }

  /** Line `k` of the strings, unless it has no episode. */
  function ReadLine(labels: Labels, fromLines: seq<string>, text: string, k: nat, handoff: bool): Option<Line> {
    var entries := Split(text, '#');
    var episodes := SortEpisodes(labels, ReadEntries(entries, |entries|, handoff));
    if episodes == [] then None
    else
      Some(Line(k, ShownName(fromLines, k),
                AnyHls(episodes), episodes))
  }

  function ReadLines(labels: Labels, fromLines: seq<string>, urlLines: seq<string>, n: nat, handoff: bool): seq<Line>
    requires n <= |urlLines|
  {
    if n == 0 then []
    else
      ReadLines(labels, fromLines, urlLines, n - 1, handoff) +
      match ReadLine(labels, fromLines, urlLines[n - 1], n - 1, handoff) { case None => [] case Some(line) => [line] }
  }

  function Catalog(labels: Labels, playFrom: string, playUrl: string, handoff: bool): Option<seq<Line>> {
    var names, urls := Trim(playFrom), Trim(playUrl);
    if names == "" || urls == "" then None
    else
      var urlLines := SplitOn(urls, "$$$");
      var lines := ReadLines(labels, SplitOn(names, "$$$"), urlLines, |urlLines|, handoff);
      if lines == [] then None else Some(lines)
  }

  method PlaybackCatalog(labels: Labels, playFrom: string, playUrl: string, handoff: bool)
    returns (r: Option<seq<Line>>)
    ensures r == Catalog(labels, playFrom, playUrl, handoff)
    ensures r.Some? ==> ValidCatalog(r.value) && forall line :: line in r.value ==> (line.hls <==> PlaysHls(line))
  {
    hide SortEpisodes, ReadEntries, Split, AnyHls, PlaysHls, SplitOn, Trim, ValidCatalog, DefaultLineName;
    var names, urls := Trim(playFrom), Trim(playUrl);
    if names == "" || urls == "" {
      return None;
    }
    var fromLines, urlLines := SplitOn(names, "$$$"), SplitOn(urls, "$$$");
    var lines: seq<Line> := [];
    for index := 0 to |urlLines|
      invariant lines == ReadLines(labels, fromLines, urlLines, index, handoff)
    {
      var entries := Split(urlLines[index], '#');
      var episodes := ReadEntries(entries, |entries|, handoff);
      var ordered := SortEpisodes(labels, episodes);
      SortedEpisodes(labels, episodes);
      if |episodes| > 0 {
        var name := if index < |fromLines| && fromLines[index] != "" then fromLines[index] else DefaultLineName(index);
        lines := lines + [Line(index, name, AnyHls(ordered), ordered)];
      }
    }
    LinesValid(labels, fromLines, urlLines, |urlLines|, handoff);
    HlsOfLines(labels, fromLines, urlLines, |urlLines|, handoff);
    return if lines == [] then None else Some(lines);
  }

  // --------------------------------------------------- what holds of a catalog

  ghost predicate ValidLine(line: Line) {
    && line.episodes != [] && line.name != ""
    && (forall k :: 0 <= k < |line.episodes| ==> line.episodes[k].index == k)
    && (forall e :: e in line.episodes ==> e.id != "" && e.name != "")
  }

  /** Line indexes ascend; every line has episodes, each with its position as index, and no
      name or id is empty. */
  ghost predicate ValidCatalog(lines: seq<Line>) {
    && (forall line :: line in lines ==> ValidLine(line))
    && (forall i, j :: 0 <= i < j < |lines| ==> lines[i].index < lines[j].index)
  }

  lemma {:induction false} EntriesValid(entries: seq<string>, n: nat, handoff: bool)
    requires n <= |entries|
    ensures forall e :: e in ReadEntries(entries, n, handoff) ==> e.id != "" && e.name != ""
  {
    if n > 0 {
      EntriesValid(entries, n - 1, handoff);
    }
  }

  lemma ReadLineValid(labels: Labels, fromLines: seq<string>, text: string, k: nat, handoff: bool)
    requires ReadLine(labels, fromLines, text, k, handoff).Some?
    ensures ValidLine(ReadLine(labels, fromLines, text, k, handoff).value)
    ensures ReadLine(labels, fromLines, text, k, handoff).value.index == k
  {
    hide SortEpisodes, ReadEntries, Split, AnyHls;
    var entries := Split(text, '#');
    var read := ReadEntries(entries, |entries|, handoff);
    EntriesValid(entries, |entries|, handoff);
    SortedEpisodes(labels, read);
    forall e | e in SortEpisodes(labels, read) ensures e.id != "" && e.name != "" {
      var i :| 0 <= i < |read| && e == read[i].(index := e.index);
      assert read[i] in read;
    }
  }

  lemma {:induction false} LinesValid(
    labels: Labels, fromLines: seq<string>, urlLines: seq<string>, n: nat, handoff: bool)
    requires n <= |urlLines|
    ensures ValidCatalog(ReadLines(labels, fromLines, urlLines, n, handoff))
    ensures forall line :: line in ReadLines(labels, fromLines, urlLines, n, handoff) ==> line.index < n
  {
    hide ReadLine, ValidLine;
    if n > 0 {
      LinesValid(labels, fromLines, urlLines, n - 1, handoff);
      var before := ReadLines(labels, fromLines, urlLines, n - 1, handoff);
      if ReadLine(labels, fromLines, urlLines[n - 1], n - 1, handoff).Some? {
        ReadLineValid(labels, fromLines, urlLines[n - 1], n - 1, handoff);
      }
    }
  }

  // ------------------------------------------------------------ playlist files

  const QUERY := "?#"

  ghost predicate IsM3u8(s: string) {
    |s| == 5 && s[0] == '.' && s[1] in "mM" && s[2] == '3' && s[3] in "uU" && s[4] == '8'
  }

  /** `.m3u8`, in letters of either case, ends the address or its path. */
  ghost predicate HoldsM3u8(id: string) {
    exists before, name, behind ::
      id == before + name + behind && IsM3u8(name) && (behind == "" || behind[0] in QUERY)
  }

  ghost predicate PlaysHls(line: Line) { exists e :: e in line.episodes && HoldsM3u8(e.id) }

  lemma HlsBehind(before: string, name: string, behind: string)
    requires IsM3u8(name) && (behind == "" || behind[0] in QUERY)
    ensures HlsAt(before + name + behind, |before|)
  {
    var id := before + name + behind;
    assert forall k :: 0 <= k < 5 ==> id[|before| + k] == name[k];
    assert behind != "" ==> id[|before| + 5] == behind[0];
  }

  lemma NamesHlsIff(id: string)
    ensures NamesHls(id) <==> HoldsM3u8(id)
  {
    if NamesHls(id) {
      var i :| 0 <= i < |id| && HlsAt(id, i);
      assert id == id[..i] + id[i..i + 5] + id[i + 5..];
      assert IsM3u8(id[i..i + 5]);
    }
    if before, name, behind :|
      id == before + name + behind && IsM3u8(name) && (behind == "" || behind[0] in QUERY) {
      HlsBehind(before, name, behind);
    }
  }

  lemma HlsOfLine(labels: Labels, fromLines: seq<string>, text: string, k: nat, handoff: bool)
    requires ReadLine(labels, fromLines, text, k, handoff).Some?
    ensures var line := ReadLine(labels, fromLines, text, k, handoff).value; line.hls <==> PlaysHls(line)
  {
    hide SortEpisodes, ReadEntries, Split, NamesHls, HoldsM3u8;
    var line := ReadLine(labels, fromLines, text, k, handoff).value;
    forall e | e in line.episodes ensures NamesHls(e.id) <==> HoldsM3u8(e.id) {
      NamesHlsIff(e.id);
    }
  }

  lemma {:induction false} HlsOfLines(
    labels: Labels, fromLines: seq<string>, urlLines: seq<string>, n: nat, handoff: bool)
    requires n <= |urlLines|
    ensures forall line :: line in ReadLines(labels, fromLines, urlLines, n, handoff) ==> (line.hls <==> PlaysHls(line))
  {
    hide ReadLine, PlaysHls;
    if n > 0 {
      HlsOfLines(labels, fromLines, urlLines, n - 1, handoff);
      if ReadLine(labels, fromLines, urlLines[n - 1], n - 1, handoff).Some? {
        HlsOfLine(labels, fromLines, urlLines[n - 1], n - 1, handoff);
      }
    }
  }

  /** A line of a catalog is marked for HLS exactly when one of its episodes plays such a file. */
  lemma HlsIff(labels: Labels, playFrom: string, playUrl: string, handoff: bool, line: Line)
    requires Catalog(labels, playFrom, playUrl, handoff).Some?
    requires line in Catalog(labels, playFrom, playUrl, handoff).value
    ensures line.hls <==> PlaysHls(line)
  {
    hide ReadLines, SplitOn, Trim, PlaysHls;
    var fromLines, urlLines := SplitOn(Trim(playFrom), "$$$"), SplitOn(Trim(playUrl), "$$$");
    HlsOfLines(labels, fromLines, urlLines, |urlLines|, handoff);
  }

  /** Every catalog that is read, from any two strings, is valid. */
  lemma CatalogIsValid(labels: Labels, playFrom: string, playUrl: string, handoff: bool)
    requires Catalog(labels, playFrom, playUrl, handoff).Some?
    ensures ValidCatalog(Catalog(labels, playFrom, playUrl, handoff).value)
  {
    hide ReadLines, SplitOn, Trim, ValidCatalog;
    var fromLines, urlLines := SplitOn(Trim(playFrom), "$$$"), SplitOn(Trim(playUrl), "$$$");
    LinesValid(labels, fromLines, urlLines, |urlLines|, handoff);
  }
}
