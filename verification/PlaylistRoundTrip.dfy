/** Reading the joined playlists back gives what was kept of the detail. */
module PlaylistRoundTrip {
  import opened Options
  import opened Strings
  import opened EpisodeOrder
  import opened PlaybackCatalog
  import opened PlaylistWire
  import TextOrder

  // ----------------------------------------------------- details without delimiters

  predicate Plain(s: string) { '$' !in s && '#' !in s && '|' !in s }

  predicate Trimmed(s: string) { s != "" ==> !IsSpace(s[0]) && !IsSpace(s[|s| - 1]) }

  /** A name may hold a bar, as it stands before the dollar sign. */
  predicate PlainName(s: string) { '$' !in s && '#' !in s && Trimmed(s) }

  predicate PlainLabel(s: string) { '$' !in s && Trimmed(s) }

  predicate PlainTitle(s: string) { '$' !in s && '#' !in s }

  predicate PlainEpisode(c: Config, e: SourceEpisode) {
    e.SourceEpisode? ==>
      && PlainName(e.name) && PlainName(e.title) && PlainName(e.nid) && Plain(e.url) && Plain(e.token)
      && (DirectUrl(c, e).Some? ==> Plain(DirectUrl(c, e).value) && DirectUrl(c, e).value != "")
      && (c.encrypt(e.url).Some? ==> Plain(c.encrypt(e.url).value))
  }

  predicate PlainPlaylist(c: Config, p: Playlist) {
    p.Playlist? ==>
      && PlainLabel(p.info.show) && PlainLabel(p.info.name) && PlainLabel(p.info.parse)
      && Plain(p.info.parse) && Plain(p.info.parseApi) && Plain(p.info.playerParseType)
      && forall e :: e in p.episodes ==> PlainEpisode(c, e)
  }

  predicate PlainDetail(c: Config, title: string, playlists: seq<Playlist>) {
    PlainTitle(title) && forall p :: p in playlists ==> PlainPlaylist(c, p)
  }

  // --------------------------------------------------------- what is kept is plain

  predicate PlainKept(k: Kept) { PlainName(k.name) && Plain(k.payload) && k.payload != "" && PlainName(k.nid) }

  predicate PlainLine(line: KeptLine) {
    && line.name != "" && PlainLabel(line.name)
    && line.episodes != [] && forall k :: k in line.episodes ==> PlainKept(k)
  }

  lemma PayloadPlain(c: Config, info: Info, e: SourceEpisode)
    requires e.SourceEpisode? && PlainEpisode(c, e)
    requires Plain(info.parse) && Plain(info.parseApi) && Plain(info.playerParseType)
    requires Payload(c, info, e).Ok? && Payload(c, info, e).value.Some?
    ensures PlainKept(Kept(EpisodeName(e), Payload(c, info, e).value.value, e.nid))
  {
    hide DirectUrl, Trimmed;
    ParserPlain(info);
    var parser := Parser(info);
    if DirectUrl(c, e).None? {
      if c.pythonForm {
        assert Plain(",token+");
        assert Plain(PythonPayload(parser, e.url, e.token, info.playerParseType));
      } else {
        var encrypted := c.encrypt(e.url).value;
        assert Plain("parse_api=") && Plain("&url=") && Plain("&token=");
        assert Plain(PlayerPayload(parser, encrypted, e.token));
      }
    }
  }

  lemma ParserPlain(info: Info)
    requires Plain(info.parse) && Plain(info.parseApi)
    ensures Plain(Parser(info))
  {
  }

  lemma {:induction false} EpisodesPlain(c: Config, info: Info, es: seq<SourceEpisode>, n: nat)
    requires n <= |es| && forall e :: e in es ==> PlainEpisode(c, e)
    requires Plain(info.parse) && Plain(info.parseApi) && Plain(info.playerParseType)
    requires KeptEpisodes(c, info, es, n).Ok?
    ensures forall k :: k in KeptEpisodes(c, info, es, n).value ==> PlainKept(k)
  {
    hide PlainKept, Plain, Payload, PlainEpisode;
    if n > 0 {
      EpisodesPlain(c, info, es, n - 1);
      var e := es[n - 1];
      assert e in es;
      if e.SourceEpisode? && Payload(c, info, e).value.Some? {
        PayloadPlain(c, info, e);
      }
    }
  }

  lemma {:induction false} DecimalPlain(n: nat)
    ensures '$' !in Decimal(n) && Trimmed(Decimal(n))
  {
    var s := Decimal(n);
    assert IsDigit(s[0]) && IsDigit(s[|s| - 1]);
  }

  lemma LabelPlain(c: Config, lines: seq<KeptLine>, info: Info)
    requires PlainLabel(info.show) && PlainLabel(info.name) && PlainLabel(info.parse)
    ensures Label(c, lines, info) != "" && PlainLabel(Label(c, lines, info))
  {
    hide IsSpace;
    var first := FirstText([info.show, info.name, info.parse]);
    var wanted := TextOr(first, "线路" + Decimal(|lines| + 1));
    DecimalPlain(|lines| + 1);
    DefaultStart();
    assert wanted != "" && PlainLabel(wanted);
    var name := UniqueName(LabelsOf(lines), wanted);
    if name != wanted {
      var n :| 1 <= n <= |lines| && name == Candidate(wanted, n) && TakenBelow(LabelsOf(lines), wanted, n);
      DecimalPlain(n);
      SuffixedPlain(wanted, n);
    }
  }

  lemma DefaultStart()
    ensures !IsSpace("线路"[0]) && '$' !in "线路"
  {
  }

  lemma SuffixedPlain(s: string, n: nat)
    requires s != "" && PlainLabel(s) && '$' !in Decimal(n) && Trimmed(Decimal(n))
    ensures PlainLabel(Candidate(s, n))
  {
    var t, d := Candidate(s, n), Decimal(n);
    assert t[0] == s[0] && t[|t| - 1] == d[|d| - 1];
  }

  lemma {:induction false} LinesPlain(c: Config, playlists: seq<Playlist>, n: nat)
    requires n <= |playlists| && forall p :: p in playlists ==> PlainPlaylist(c, p)
    requires KeptLines(c, playlists, n).Ok?
    ensures forall line :: line in KeptLines(c, playlists, n).value ==> PlainLine(line)
  {
    hide PlainLabel, PlainEpisode, Label, KeptEpisodes, PlainKept, Plain;
    if n > 0 {
      LinesPlain(c, playlists, n - 1);
      var p := playlists[n - 1];
      assert p in playlists;
      if p.Playlist? {
        var before := KeptLines(c, playlists, n - 1).value;
        EpisodesPlain(c, p.info, p.episodes, |p.episodes|);
        LabelPlain(c, before, p.info);
      }
    }
  }

  // ------------------------------------------------------ dollars standing alone

  /** Behind every dollar sign stands something else. */
  predicate Lone(s: string) { forall i :: 0 <= i < |s| && s[i] == '$' ==> i + 1 < |s| && s[i + 1] != '$' }

  lemma LoneConcat(a: string, b: string)
    requires Lone(a) && Lone(b)
    ensures Lone(a + b)
  {
    var s := a + b;
    forall i | 0 <= i < |s| && s[i] == '$' ensures i + 1 < |s| && s[i + 1] != '$' {
      if i < |a| {
        assert a[i] == '$';
      } else {
        assert b[i - |a|] == '$';
        assert s[i + 1] == b[i - |a| + 1];
      }
    }
  }

  lemma {:induction false} LoneJoin(parts: seq<string>)
    requires forall p :: p in parts ==> Lone(p)
    ensures Lone(Join(parts, "#"))
  {
    assert Lone("#");
    hide Lone;
    if |parts| == 1 {
      assert parts[0] in parts;
    } else if |parts| > 1 {
      LoneJoin(parts[1..]);
      assert parts[0] in parts;
      LoneConcat(parts[0], "#");
      LoneConcat(parts[0] + "#", Join(parts[1..], "#"));
    }
  }

  lemma TripleAt(s: string, i: nat)
    requires i <= |s| && "$$$" <= s[i..]
    ensures i + 1 < |s| && s[i] == '$' && s[i + 1] == '$'
  {
    var t := s[i..];
    assert t[0] == "$$$"[0] && t[1] == "$$$"[1];
  }

  lemma LoneIsClear(s: string)
    requires Lone(s)
    ensures Clear(s, "$$$") && !Contains(s, "$$$")
  {
    var p := "$$$";
    forall i | 0 <= i < |s| ensures !StartsAt(s + p, p, i) {
      if StartsAt(s + p, p, i) {
        TripleAt(s + p, i);
      }
    }
    if Contains(s, p) {
      var i := ContainsWhere(s, p);
      StartsThere(s, p, i);
      TripleAt(s, i);
    }
  }

  lemma StartsThere(s: string, p: string, i: nat)
    requires i + |p| <= |s| && s[i..i + |p|] == p
    ensures p <= s[i..]
  {
    assert s[i..][..|p|] == p;
  }

  lemma LoneSeparable(parts: seq<string>)
    requires parts != [] && forall p :: p in parts ==> Lone(p)
    ensures SplitOn(Join(parts, "$$$"), "$$$") == parts
  {
    hide Lone, Clear, Contains, SplitOn, Join;
    forall k | 0 <= k < |parts| ensures Clear(parts[k], "$$$") && !Contains(parts[k], "$$$") {
      assert parts[k] in parts;
      LoneIsClear(parts[k]);
    }
    SplitOnJoinIff(parts, "$$$");
  }

  // -------------------------------------------------------------- reading back

  function RawId(title: string, k: Kept): string { k.payload + "|" + title + "|" + k.nid }

  /** The kept episodes as the catalog shows them, before they are sorted. */
  function Shown(title: string, kept: seq<Kept>, handoff: bool): seq<Episode> {
    seq(|kept|, k requires 0 <= k < |kept| =>
      Episode(k, if kept[k].name == "" then Decimal(k + 1) else kept[k].name,
              if handoff then RawId(title, kept[k]) else kept[k].payload))
  }

  lemma ReadsEntry(title: string, kept: seq<Kept>, k: nat, handoff: bool)
    requires k < |kept| && PlainKept(kept[k])
    ensures ReadEntry(EntryText(title, kept[k]), k, handoff) == Some(Shown(title, kept, handoff)[k])
  {
    var e := kept[k];
    var rest := title + "|" + e.nid;
    assert RawId(title, e) == e.payload + ['|'] + rest;
    assert EntryText(title, e) == e.name + ['$'] + RawId(title, e);
    CutAtFirst(e.name, '$', RawId(title, e));
    SplitAfter(e.payload, rest, '|');
  }

  lemma {:induction false} ReadsEntries(title: string, kept: seq<Kept>, n: nat, handoff: bool)
    requires n <= |kept| && forall k :: k in kept ==> PlainKept(k)
    ensures ReadEntries(EntryTexts(title, kept), n, handoff) == Shown(title, kept, handoff)[..n]
  {
    hide ReadEntry, PlainKept;
    if n > 0 {
      ReadsEntries(title, kept, n - 1, handoff);
      assert kept[n - 1] in kept;
      ReadsEntry(title, kept, n - 1, handoff);
    }
  }

  lemma EntryPlain(title: string, k: Kept)
    requires PlainTitle(title) && PlainKept(k)
    ensures '#' !in EntryText(title, k) && Lone(EntryText(title, k))
    ensures EntryText(title, k) != "" && Trimmed(EntryText(title, k))
  {
    hide IsSpace;
    var s := EntryText(title, k);
    var rest := "$" + k.payload + "|" + title + "|" + k.nid;
    assert s == k.name + rest;
    assert forall i :: 0 < i < |rest| ==> rest[i] != '$';
    assert Lone(k.name) && Lone(rest);
    LoneConcat(k.name, rest);
    EndsPlain();
    assert s[0] == (if k.name == "" then '$' else k.name[0]);
    assert s[|s| - 1] == (if k.nid == "" then '|' else k.nid[|k.nid| - 1]);
  }

  lemma EndsPlain()
    ensures !IsSpace('$') && !IsSpace('|')
  {
  }

  lemma {:induction false} JoinEnds(parts: seq<string>, sep: string)
    requires parts != [] && forall p :: p in parts ==> p != "" && Trimmed(p)
    ensures Join(parts, sep) != "" && Trimmed(Join(parts, sep))
  {
    hide IsSpace;
    assert parts[0] in parts;
    var s := Join(parts, sep);
    if |parts| > 1 {
      forall p | p in parts[1..] ensures p != "" && Trimmed(p) {
        assert p in parts;
      }
      JoinEnds(parts[1..], sep);
      var rest := Join(parts[1..], sep);
      assert s[0] == parts[0][0] && s[|s| - 1] == rest[|rest| - 1];
    }
  }

  lemma LineTextIs(title: string, line: KeptLine)
    requires PlainTitle(title) && PlainLine(line)
    ensures var text := Join(EntryTexts(title, line.episodes), "#");
            && Split(text, '#') == EntryTexts(title, line.episodes)
            && Lone(text) && text != "" && Trimmed(text)
  {
    hide Join, Split, Lone, Trimmed, EntryText, PlainKept;
    var texts := EntryTexts(title, line.episodes);
    forall p | p in texts ensures '#' !in p && Lone(p) && p != "" && Trimmed(p) {
      var k :| 0 <= k < |texts| && texts[k] == p;
      assert line.episodes[k] in line.episodes;
      EntryPlain(title, line.episodes[k]);
    }
    SplitJoin(texts, '#');
    LoneJoin(texts);
    JoinEnds(texts, "#");
  }

  lemma ReadsLine(labels: Labels, names: seq<string>, title: string, line: KeptLine, k: nat, handoff: bool)
    requires PlainTitle(title) && PlainLine(line) && k < |names| && names[k] == line.name
    ensures var r := ReadLine(labels, names, Join(EntryTexts(title, line.episodes), "#"), k, handoff);
            && r.Some? && r.value.index == k && r.value.name == line.name
            && r.value.episodes == SortEpisodes(labels, Shown(title, line.episodes, handoff))
  {
    hide Join, Split, PlainKept, SortEpisodes, ReadEntries, AnyHls;
    LineTextIs(title, line);
    var texts := EntryTexts(title, line.episodes);
    ReadsEntries(title, line.episodes, |texts|, handoff);
    var shown := Shown(title, line.episodes, handoff);
    assert shown[..|texts|] == shown;
    SortedEpisodes(labels, shown);
  }

  /** Line `i` of the catalog is kept line `i`. */
  predicate Matches(labels: Labels, title: string, line: Line, k: nat, kept: KeptLine, handoff: bool) {
    && line.index == k && line.name == kept.name
    && line.episodes == SortEpisodes(labels, Shown(title, kept.episodes, handoff))
  }

  lemma {:induction false} ReadsLines(labels: Labels, title: string, lines: seq<KeptLine>, n: nat, handoff: bool)
    requires n <= |lines| && PlainTitle(title) && forall line :: line in lines ==> PlainLine(line)
    ensures |LineTexts(title, lines)| == |lines|
    ensures var r := ReadLines(labels, LabelsOf(lines), LineTexts(title, lines), n, handoff);
            |r| == n && forall k :: 0 <= k < n ==> Matches(labels, title, r[k], k, lines[k], handoff)
  {
    hide ReadLine, PlainLine, SortEpisodes, Join;
    if n > 0 {
      ReadsLines(labels, title, lines, n - 1, handoff);
      assert lines[n - 1] in lines;
      ReadsLine(labels, LabelsOf(lines), title, lines[n - 1], n - 1, handoff);
    }
  }

  lemma WirePlain(title: string, lines: seq<KeptLine>)
    requires lines != [] && PlainTitle(title) && forall line :: line in lines ==> PlainLine(line)
    ensures var names, texts := LabelsOf(lines), LineTexts(title, lines);
            && Join(names, "$$$") != "" && Trim(Join(names, "$$$")) == Join(names, "$$$")
            && Join(texts, "$$$") != "" && Trim(Join(texts, "$$$")) == Join(texts, "$$$")
            && SplitOn(Join(names, "$$$"), "$$$") == names
            && SplitOn(Join(texts, "$$$"), "$$$") == texts
  {
    hide Join, SplitOn, Trim, PlainKept, EntryTexts;
    var names, texts := LabelsOf(lines), LineTexts(title, lines);
    forall p | p in names ensures p != "" && Trimmed(p) && Lone(p) {
      var k :| 0 <= k < |names| && names[k] == p;
      assert lines[k] in lines;
    }
    forall p | p in texts ensures p != "" && Trimmed(p) && Lone(p) {
      var k :| 0 <= k < |texts| && texts[k] == p;
      assert lines[k] in lines;
      LineTextIs(title, lines[k]);
    }
    JoinEnds(names, "$$$");
    JoinEnds(texts, "$$$");
    TrimNothing(Join(names, "$$$"));
    TrimNothing(Join(texts, "$$$"));
    LoneSeparable(names);
    LoneSeparable(texts);
  }

  /** For a detail whose names are trimmed and whose texts hold no delimiter, the catalog has
      one line for each playlist that is kept, in the same order and under the same name, and
      its episodes are the kept ones, sorted, each under what plays it. */
  lemma CatalogReadsBack(labels: Labels, c: Config, title: string, playlists: seq<Playlist>, handoff: bool)
    requires PlainDetail(c, title, playlists)
    requires KeptLines(c, playlists, |playlists|).Ok? && KeptLines(c, playlists, |playlists|).value != []
    ensures var lines := KeptLines(c, playlists, |playlists|).value;
            var wire := WireOf(title, lines).value;
            var catalog := Catalog(labels, wire.playFrom, wire.playUrl, handoff);
            && catalog.Some? && |catalog.value| == |lines|
            && forall k :: 0 <= k < |lines| ==> Matches(labels, title, catalog.value[k], k, lines[k], handoff)
  {
    hide Join, SplitOn, Trim, ReadLines, PlainLine, PlainPlaylist, KeptLines, Matches;
    LinesPlain(c, playlists, |playlists|);
    var lines := KeptLines(c, playlists, |playlists|).value;
    WirePlain(title, lines);
    ReadsLines(labels, title, lines, |lines|, handoff);
  }

  // -------------------------------------------------------- names as they are shown

  /** The first part is where the text starts. */
  lemma {:induction false} FirstPartStarts(s: string)
    ensures SplitOn(s, "$$$")[0] <= s
    ensures SplitOn(s, "$$$")[0] == "" ==> s == "" || "$$$" <= s
  {
    if s != "" && !("$$$" <= s) {
      FirstPartStarts(s[1..]);
      HeadTail(s);
    }
  }

  /** `f` is `j` but for white space at the end. */
  predicate EndTrimmed(f: string, j: string) { f <= j && forall k :: |f| <= k < |j| ==> IsSpace(j[k]) }

  predicate ShownAs(parts: seq<string>, k: nat, offset: nat, name: string) {
    name == if k < |parts| && parts[k] != "" then parts[k] else DefaultLineName(k + offset)
  }

  lemma DefaultNameStarts(k: nat)
    ensures DefaultLineName(k)[0] == '线' && !IsSpace('线') && !IsSpace('$')
  {
  }

  lemma OnlyNameShown(name: string, f: string, offset: nat)
    requires name != "" && EndTrimmed(f, name) && ShownAs(SplitOn(f, "$$$"), 0, offset, name)
    ensures f == name && !Contains(name, "$$$")
  {
    hide IsSpace, Contains, SplitOn, DefaultLineName;
    FirstPartStarts(f);
    DefaultNameStarts(offset);
    if Contains(f, "$$$") {
      var i := ContainsWhere(f, "$$$");
      StartsThere(f, "$$$", i);
      FirstCut(f, "$$$", i);
    }
  }

  lemma TrimmedTail(name: string, rest: string, f: string)
    requires EndTrimmed(f, name + "$$$" + rest)
    ensures |f| >= |name| + 3 && f == name + "$$$" + f[|name| + 3..] && EndTrimmed(f[|name| + 3..], rest)
  {
    var j := name + "$$$" + rest;
    assert j[|name| + 2] == '$' && !IsSpace('$');
    assert f == j[..|f|];
    var tail := f[|name| + 3..];
    assert tail == rest[..|tail|];
    assert forall k :: |tail| <= k < |rest| ==> rest[k] == j[|name| + 3 + k];
  }

  lemma {:induction false} NamesShown(names: seq<string>, f: string, offset: nat)
    requires names != [] && (forall name :: name in names ==> name != "")
    requires EndTrimmed(f, Join(names, "$$$"))
    requires forall k :: 0 <= k < |names| ==> ShownAs(SplitOn(f, "$$$"), k, offset, names[k])
    ensures f == Join(names, "$$$") && Separable(names, "$$$")
  {
    hide SplitOn, Contains, Clear, EndTrimmed, DefaultLineName;
    var name := names[0];
    assert name in names;
    if |names| == 1 {
      OnlyNameShown(name, f, offset);
    } else {
      var rest := Join(names[1..], "$$$");
      TrimmedTail(name, rest, f);
      var tail := f[|name| + 3..];
      SeparableTail(names, "$$$");
      assert f[0] == name[0];
      if !Clear(name, "$$$") {
        CutInside(name, tail, "$$$");
        FirstPartStarts(f);
        DefaultNameStarts(offset);
      } else {
        SplitOnAfter(name, tail, "$$$");
        var parts := SplitOn(tail, "$$$");
        forall k | 0 <= k < |names[1..]| ensures ShownAs(parts, k, offset + 1, names[1..][k]) {
          assert ShownAs(SplitOn(f, "$$$"), k + 1, offset, names[k + 1]);
        }
        assert forall n :: n in names[1..] ==> n in names;
        NamesShown(names[1..], tail, offset + 1);
      }
    }
  }

  lemma {:induction false} TrimEndIs(s: string)
    ensures EndTrimmed(TrimEnd(s), s)
  {
    if s != "" && IsSpace(s[|s| - 1]) {
      TrimEndIs(s[..|s| - 1]);
    }
  }

  lemma JoinStarts(names: seq<string>)
    requires names != [] && names[0] != ""
    ensures Join(names, "$$$") != "" && Join(names, "$$$")[0] == names[0][0]
  {
  }

  lemma {:induction false} JoinStops(names: seq<string>)
    requires names != [] && names[|names| - 1] != ""
    ensures var j, last := Join(names, "$$$"), names[|names| - 1]; j != "" && j[|j| - 1] == last[|last| - 1]
  {
    if |names| > 1 {
      JoinStops(names[1..]);
    }
  }

  lemma FirstNameShown(names: seq<string>)
    requires names != [] && names[0] != ""
    requires ShownName(SplitOn(Trim(Join(names, "$$$")), "$$$"), 0) == names[0]
    ensures !IsSpace(names[0][0])
  {
    hide IsSpace, SplitOn, DefaultLineName, Join;
    var f := Trim(Join(names, "$$$"));
    FirstPartStarts(f);
    DefaultNameStarts(0);
  }

  lemma ShownIfSeparable(names: seq<string>)
    requires names != [] && (forall k :: 0 <= k < |names| ==> names[k] != "") && Separable(names, "$$$")
    requires !IsSpace(names[0][0]) && var last := names[|names| - 1]; !IsSpace(last[|last| - 1])
    ensures SplitOn(Trim(Join(names, "$$$")), "$$$") == names
  {
    hide IsSpace, SplitOn, Join, Separable, Trim;
    JoinStarts(names);
    JoinStops(names);
    TrimNothing(Join(names, "$$$"));
    SplitOnJoinIff(names, "$$$");
  }

  lemma SeparableIfShown(names: seq<string>)
    requires names != [] && forall k :: 0 <= k < |names| ==> names[k] != ""
    requires forall k :: 0 <= k < |names| ==> ShownName(SplitOn(Trim(Join(names, "$$$")), "$$$"), k) == names[k]
    ensures Separable(names, "$$$") && !IsSpace(names[0][0])
    ensures var last := names[|names| - 1]; !IsSpace(last[|last| - 1])
  {
    hide IsSpace, SplitOn, DefaultLineName, Join, Separable, TrimStart, TrimEnd, EndTrimmed;
    var j := Join(names, "$$$");
    var f := Trim(j);
    JoinStarts(names);
    JoinStops(names);
    FirstNameShown(names);
    StartKept(j);
    TrimEndIs(j);
    forall k | 0 <= k < |names| ensures ShownAs(SplitOn(f, "$$$"), k, 0, names[k]) {
      assert ShownName(SplitOn(f, "$$$"), k) == names[k];
    }
    NamesShown(names, f, 0);
  }

  // -------------------------------------------------------- which groups are shown

  /** What stands behind the first dollar sign, or everything. */
  function RawOf(entry: string): string {
    match CutAt(entry, '$') { case Some((_, behind)) => behind case None => entry }
  }

  /** The entry has an id: something behind the dollar sign, and before the first bar unless
      the bar is kept. */
  predicate HasId(entry: string, handoff: bool) {
    var raw := RawOf(entry);
    raw != "" && (handoff || raw[0] != '|')
  }

  /** One of the entries of a line has an id. */
  ghost predicate HasEntry(text: string, handoff: bool) {
    exists k :: 0 <= k < |Split(text, '#')| && HasId(Split(text, '#')[k], handoff)
  }

  lemma EntryReadIff(entry: string, k: nat, handoff: bool)
    ensures ReadEntry(entry, k, handoff).Some? <==> HasId(entry, handoff)
  {
    FirstFieldEmptyIff(RawOf(entry));
  }

  lemma FirstFieldEmptyIff(raw: string)
    ensures Split(raw, '|')[0] == "" <==> raw == "" || raw[0] == '|'
  {
  }

  lemma {:induction false} EntriesReadIff(entries: seq<string>, n: nat, handoff: bool)
    requires n <= |entries|
    ensures ReadEntries(entries, n, handoff) != [] <==> exists k :: 0 <= k < n && HasId(entries[k], handoff)
  {
    hide ReadEntry, HasId;
    if n > 0 {
      EntriesReadIff(entries, n - 1, handoff);
      EntryReadIff(entries[n - 1], n - 1, handoff);
    }
  }

  lemma LineReadIff(labels: Labels, fromLines: seq<string>, text: string, k: nat, handoff: bool)
    ensures var r := ReadLine(labels, fromLines, text, k, handoff);
            && (r.Some? <==> HasEntry(text, handoff))
            && (r.Some? ==> r.value.index == k && r.value.name == ShownName(fromLines, k))
  {
    hide SortEpisodes, ReadEntries, Split, AnyHls, HasId, ShownName;
    var entries := Split(text, '#');
    EntriesReadIff(entries, |entries|, handoff);
    SortedEpisodes(labels, ReadEntries(entries, |entries|, handoff));
  }

  /** Every line comes from a group with an entry, and has its index and name. */
  lemma {:induction false} LinesFromGroups(
    labels: Labels, names: seq<string>, groups: seq<string>, n: nat, handoff: bool)
    requires n <= |groups|
    ensures var r := ReadLines(labels, names, groups, n, handoff);
            && (forall j :: 0 <= j < |r| ==> r[j].index < n)
            && (forall j :: 0 <= j < |r| ==> HasEntry(groups[r[j].index], handoff))
            && (forall j :: 0 <= j < |r| ==> r[j].name == ShownName(names, r[j].index))
  {
    hide ReadLine, HasEntry, ShownName;
    if n > 0 {
      LinesFromGroups(labels, names, groups, n - 1, handoff);
      LineReadIff(labels, names, groups[n - 1], n - 1, handoff);
      GroupStep(labels, names, groups, n, handoff);
    }
  }

  lemma GroupStep(labels: Labels, names: seq<string>, groups: seq<string>, n: nat, handoff: bool)
    requires 0 < n <= |groups|
    ensures var line := ReadLine(labels, names, groups[n - 1], n - 1, handoff);
            ReadLines(labels, names, groups, n, handoff)
            == ReadLines(labels, names, groups, n - 1, handoff) + if line.Some? then [line.value] else []
  {
    hide ReadLine;
  }

  /** Every group with an entry becomes a line. */
  lemma {:induction false} GroupIsRead(
    labels: Labels, names: seq<string>, groups: seq<string>, n: nat, handoff: bool, k: nat)
    requires k < n <= |groups| && HasEntry(groups[k], handoff)
    ensures var r := ReadLines(labels, names, groups, n, handoff);
            exists j :: 0 <= j < |r| && r[j].index == k
  {
    hide ReadLine, HasEntry, ShownName;
    var before, r := ReadLines(labels, names, groups, n - 1, handoff), ReadLines(labels, names, groups, n, handoff);
    GroupStep(labels, names, groups, n, handoff);
    if k < n - 1 {
      GroupIsRead(labels, names, groups, n - 1, handoff, k);
      var j :| 0 <= j < |before| && before[j].index == k;
      assert r[j].index == k;
    } else {
      LineReadIff(labels, names, groups[n - 1], n - 1, handoff);
      assert r[|before|].index == k;
    }
  }

  /** The first `m` groups have an entry and the others have none. */
  ghost predicate JustFirst(groups: seq<string>, m: nat, handoff: bool) {
    && m <= |groups|
    && forall k :: 0 <= k < |groups| ==> (k < m <==> HasEntry(groups[k], handoff))
  }

  lemma {:induction false} FirstGroupsRead(
    labels: Labels, names: seq<string>, groups: seq<string>, m: nat, n: nat, handoff: bool)
    requires JustFirst(groups, m, handoff) && n <= |groups|
    ensures var r := ReadLines(labels, names, groups, n, handoff);
            |r| == (if n < m then n else m) && forall k :: 0 <= k < |r| ==> r[k].index == k
  {
    hide ReadLine, HasEntry;
    if n > 0 {
      FirstGroupsRead(labels, names, groups, m, n - 1, handoff);
      LineReadIff(labels, names, groups[n - 1], n - 1, handoff);
    }
  }

  /** The lines are those of the first `m` groups exactly when these alone have an entry. */
  lemma FirstLinesIff(labels: Labels, names: seq<string>, groups: seq<string>, m: nat, handoff: bool)
    ensures var r := ReadLines(labels, names, groups, |groups|, handoff);
            (|r| == m && forall k :: 0 <= k < m ==> r[k].index == k) <==> JustFirst(groups, m, handoff)
  {
    hide ReadLines, HasEntry, ShownName;
    var r := ReadLines(labels, names, groups, |groups|, handoff);
    LinesFromGroups(labels, names, groups, |groups|, handoff);
    if |r| == m && forall k :: 0 <= k < m ==> r[k].index == k {
      LinesValid(labels, names, groups, |groups|, handoff);
      assert m > 0 ==> r[m - 1] in r;
      forall k | 0 <= k < |groups| ensures k < m <==> HasEntry(groups[k], handoff) {
        if k < m {
          assert r[k].index == k;
        } else if HasEntry(groups[k], handoff) {
          GroupIsRead(labels, names, groups, |groups|, handoff, k);
        }
      }
    }
    if JustFirst(groups, m, handoff) {
      FirstGroupsRead(labels, names, groups, m, |groups|, handoff);
    }
  }

  // ------------------------------------------------------------ the catalog's lines

  /** The catalog has one line for each kept line, at its place and under its name. */
  ghost predicate ShowsLines(catalog: Option<seq<Line>>, lines: seq<KeptLine>) {
    && catalog.Some? && |catalog.value| == |lines|
    && forall k :: 0 <= k < |lines| ==> catalog.value[k].index == k && catalog.value[k].name == lines[k].name
  }

  /** The texts can be joined, trimmed and told apart again. */
  ghost predicate Survive(texts: seq<string>) {
    && Separable(texts, "$$$")
    && (texts[0] != "" ==> !IsSpace(texts[0][0]))
    && var last := texts[|texts| - 1]; last != "" ==> !IsSpace(last[|last| - 1])
  }

  lemma TextsSurviveIff(texts: seq<string>)
    requires texts != [] && forall k :: 0 <= k < |texts| ==> texts[k] != ""
    ensures SplitOn(Trim(Join(texts, "$$$")), "$$$") == texts <==> Survive(texts)
  {
    hide IsSpace, SplitOn, Join, Separable, Trim;
    var j := Join(texts, "$$$");
    JoinStarts(texts);
    JoinStops(texts);
    if Survive(texts) {
      ShownIfSeparable(texts);
    }
    if SplitOn(Trim(j), "$$$") == texts {
      JoinSplitOn(Trim(j), "$$$");
      assert Trim(j) == j;
      SplitOnJoinIff(texts, "$$$");
    }
  }

  /** Each of the lines is shown in its place exactly when the names survive, and the groups
      that the other string is cut into have an entry just as far as there are lines. */
  lemma ShowsLinesIff(labels: Labels, title: string, lines: seq<KeptLine>, handoff: bool)
    requires lines != [] && forall k :: 0 <= k < |lines| ==> lines[k].name != ""
    ensures var wire := WireOf(title, lines).value;
            ShowsLines(Catalog(labels, wire.playFrom, wire.playUrl, handoff), lines)
            <==> Survive(LabelsOf(lines)) && JustFirst(SplitOn(Trim(wire.playUrl), "$$$"), |lines|, handoff)
  {
    hide IsSpace, SplitOn, Join, Separable, Trim, ReadLines, HasEntry, LineTexts, DefaultLineName;
    var wire := WireOf(title, lines).value;
    var names := LabelsOf(lines);
    var from, urls := Trim(wire.playFrom), Trim(wire.playUrl);
    var fromLines, groups := SplitOn(from, "$$$"), SplitOn(urls, "$$$");
    LinesFromGroups(labels, fromLines, groups, |groups|, handoff);
    FirstLinesIff(labels, fromLines, groups, |lines|, handoff);
    if ShowsLines(Catalog(labels, wire.playFrom, wire.playUrl, handoff), lines) {
      forall k | 0 <= k < |names| ensures ShownName(fromLines, k) == names[k] {
        assert ReadLines(labels, fromLines, groups, |groups|, handoff)[k].index == k;
      }
      SeparableIfShown(names);
    }
    if Survive(names) && JustFirst(groups, |lines|, handoff) {
      ShownIfSeparable(names);
      JoinStarts(names);
      JoinStops(names);
      TrimNothing(wire.playFrom);
      NoGroup(handoff);
      assert HasEntry(groups[0], handoff);
    }
  }

  lemma NoGroup(handoff: bool)
    ensures SplitOn("", "$$$") == [""] && !HasEntry("", handoff)
  {
    assert Split("", '#') == [""];
  }

  /** The catalog shows the kept lines of a detail under their names, each in its place, exactly
      when no name is cut at or runs into a `$$$`, the first does not start and the last does
      not end with white space, and the url string falls into as many groups with an entry as
      there are lines, before any without. */
  lemma NamesReadBackIff(labels: Labels, c: Config, title: string, playlists: seq<Playlist>, handoff: bool)
    requires KeptLines(c, playlists, |playlists|).Ok? && KeptLines(c, playlists, |playlists|).value != []
    ensures var lines := KeptLines(c, playlists, |playlists|).value;
            var wire := WireOf(title, lines).value;
            ShowsLines(Catalog(labels, wire.playFrom, wire.playUrl, handoff), lines)
            <==> Survive(LabelsOf(lines)) && JustFirst(SplitOn(Trim(wire.playUrl), "$$$"), |lines|, handoff)
  {
    hide KeptLines, Catalog, Survive, JustFirst, ShowsLines;
    KeptNamesNotEmpty(c, playlists, |playlists|);
    ShowsLinesIff(labels, title, KeptLines(c, playlists, |playlists|).value, handoff);
  }

  lemma TextsNotEmpty(c: Config, title: string, playlists: seq<Playlist>)
    requires KeptLines(c, playlists, |playlists|).Ok?
    ensures var lines := KeptLines(c, playlists, |playlists|).value;
            forall k :: 0 <= k < |lines| ==> LineTexts(title, lines)[k] != ""
  {
    hide KeptLines;
    KeptLinesHaveEpisodes(c, playlists, |playlists|);
    var lines := KeptLines(c, playlists, |playlists|).value;
    forall k | 0 <= k < |lines| ensures LineTexts(title, lines)[k] != "" {
      assert lines[k] in lines;
      assert EntryTexts(title, lines[k].episodes)[0] == EntryText(title, lines[k].episodes[0]);
    }
  }

  lemma {:induction false} KeptLinesHaveEpisodes(c: Config, playlists: seq<Playlist>, n: nat)
    requires n <= |playlists| && KeptLines(c, playlists, n).Ok?
    ensures forall line :: line in KeptLines(c, playlists, n).value ==> line.episodes != []
  {
    hide KeptEpisodes, Label;
    if n > 0 {
      KeptLinesHaveEpisodes(c, playlists, n - 1);
    }
  }

  /** Besides, each line is read from its own text exactly when, in what is written, names and
      texts survive and every text has an entry. */
  lemma LinesReadBackIff(labels: Labels, c: Config, title: string, playlists: seq<Playlist>, handoff: bool)
    requires KeptLines(c, playlists, |playlists|).Ok? && KeptLines(c, playlists, |playlists|).value != []
    ensures var lines := KeptLines(c, playlists, |playlists|).value;
            var wire, texts := WireOf(title, lines).value, LineTexts(title, lines);
            (ShowsLines(Catalog(labels, wire.playFrom, wire.playUrl, handoff), lines)
             && SplitOn(Trim(wire.playUrl), "$$$") == texts)
            <==> && Survive(LabelsOf(lines)) && Survive(texts)
                 && forall k :: 0 <= k < |texts| ==> HasEntry(texts[k], handoff)
  {
    hide KeptLines, Catalog, Survive, ShowsLines, SplitOn, Trim, HasEntry;
    var lines := KeptLines(c, playlists, |playlists|).value;
    var texts := LineTexts(title, lines);
    NamesReadBackIff(labels, c, title, playlists, handoff);
    TextsNotEmpty(c, title, playlists);
    TextsSurviveIff(texts);
  }

  // --------------------------------------------------- details that are not shown

  /** Every url plays directly. */
  const DIRECT := Config(false, false, (_: string) => None, (url: string) => Some(url), (_: string) => None)

  function OnePlaylist(show: string, episode: string): seq<Playlist> {
    [Playlist(Info(show, "", "", "", ""), [SourceEpisode(episode, "", "u", "", "", "")])]
  }

  lemma OneLineKept(show: string, episode: string)
    requires show != "" && episode != ""
    ensures KeptLines(DIRECT, OnePlaylist(show, episode), 1) == Ok([KeptLine(show, [Kept(episode, "u", "")])])
  {
    var p := OnePlaylist(show, episode)[0];
    var e := p.episodes[0];
    assert KeptEpisodes(DIRECT, p.info, p.episodes, 0) == Ok([]);
    assert DirectUrl(DIRECT, e) == Some("u");
    assert Payload(DIRECT, p.info, e) == Ok(Some("u"));
    assert EpisodeName(e) == episode;
    assert [] + [Kept(episode, "u", "")] == [Kept(episode, "u", "")];
    assert KeptEpisodes(DIRECT, p.info, p.episodes, 1) == Ok([Kept(episode, "u", "")]);
    assert Label(DIRECT, [], p.info) == show;
    assert [] + [KeptLine(show, [Kept(episode, "u", "")])] == [KeptLine(show, [Kept(episode, "u", "")])];
    assert KeptLines(DIRECT, OnePlaylist(show, episode), 0) == Ok([]);
  }

  lemma OneWire(title: string, line: KeptLine, k: Kept)
    requires line.episodes == [k]
    ensures WireOf(title, [line]) == Some(Wire(line.name, EntryText(title, k)))
    ensures LabelsOf([line]) == [line.name]
  {
    assert EntryTexts(title, line.episodes) == [EntryText(title, k)];
    assert LineTexts(title, [line]) == [EntryText(title, k)];
  }

  /** A detail whose lines the catalog does not show as they were written. */
  ghost predicate Lost(labels: Labels, title: string, lines: seq<KeptLine>, handoff: bool)
    requires lines != []
  {
    var wire := WireOf(title, lines).value;
    !ShowsLines(Catalog(labels, wire.playFrom, wire.playUrl, handoff), lines)
  }

  /** A name that holds the separator, and a plain one whose only episode is called `$$`, which
      with its own dollar sign makes a separator in the other string. */
  lemma LinesAreLost(labels: Labels, title: string, handoff: bool)
    ensures var lines := [KeptLine("A$$$B", [Kept("1", "u", "")])];
            KeptLines(DIRECT, OnePlaylist("A$$$B", "1"), 1) == Ok(lines) && Lost(labels, title, lines, handoff)
    ensures var lines := [KeptLine("A", [Kept("$$", "u", "")])];
            KeptLines(DIRECT, OnePlaylist("A", "$$"), 1) == Ok(lines) && Survive(LabelsOf(lines))
            && Lost(labels, title, lines, handoff)
  {
    hide KeptLines, Catalog, ShowsLines, JustFirst, HasEntry, Trim, Contains, Clear, WireOf, LabelsOf;
    var k, l := Kept("1", "u", ""), Kept("$$", "u", "");
    OneLineKept("A$$$B", "1");
    OneWire(title, KeptLine("A$$$B", [k]), k);
    ShowsLinesIff(labels, title, [KeptLine("A$$$B", [k])], handoff);
    ContainsAt("A$$$B", "$$$", 1);
    OneLineKept("A", "$$");
    OneWire(title, KeptLine("A", [l]), l);
    ShowsLinesIff(labels, title, [KeptLine("A", [l])], handoff);
    PlainNameSurvives();
    DollarsCut(title, handoff);
  }

  lemma PlainNameSurvives()
    ensures Survive(["A"])
  {
    assert !Contains("A"[1..], "$$$");
  }

  lemma DollarsCut(title: string, handoff: bool)
    ensures !JustFirst(SplitOn(Trim(EntryText(title, Kept("$$", "u", ""))), "$$$"), 1, handoff)
  {
    hide IsSpace, HasEntry;
    var rest := "u|" + title + "|";
    var text := EntryText(title, Kept("$$", "u", ""));
    assert text == "$$$" + rest;
    assert text[|text| - 1] == '|';
    EndsPlain();
    TrimNothing(text);
    assert text[3..] == rest;
    assert SplitOn(text, "$$$")[0] == "";
    NoGroup(handoff);
  }

  lemma StartKept(s: string)
    requires s != "" && !IsSpace(s[0])
    ensures Trim(s) == TrimEnd(s)
  {
  }

  /** The names of kept lines are never empty. */
  lemma {:induction false} KeptNamesNotEmpty(c: Config, playlists: seq<Playlist>, n: nat)
    requires n <= |playlists| && KeptLines(c, playlists, n).Ok?
    ensures forall line :: line in KeptLines(c, playlists, n).value ==> line.name != ""
  {
    hide KeptEpisodes, Decimal, UniqueName;
    if n > 0 {
      KeptNamesNotEmpty(c, playlists, n - 1);
    }
  }

  // --------------------------------------------------- what is played of an id

  /** The two sides trim alike but for two characters: one side takes U+0085 for white space, the
      other U+FEFF. */
  lemma SpacesDiffer(c: char)
    ensures (IsSpace(c) <==> TextOrder.IsWhitespace(c)) <==> c as int != 0x85 && c as int != 0xFEFF
  {
  }

  /** What the player takes of an id: trimmed, up to the first bar, behind the first dollar
      sign. A blank id is refused. */
  function PlayedText(id: string): Option<string> {
    var raw := TextOrder.Trim(id);
    if raw == "" then None else Some(RawOf(Split(raw, '|')[0]))
  }

  /** No white space at the start. */
  predicate StartsFirmly(s: string) { s != "" ==> !TextOrder.IsWhitespace(s[0]) }

  /** The id under which the catalog shows a kept episode plays its payload exactly when this
      holds no bar and no dollar sign, trimming leaves it as it is, and the id is not empty. */
  lemma PlayedTextIff(title: string, k: Kept, handoff: bool)
    ensures PlayedText(if handoff then RawId(title, k) else k.payload) == Some(k.payload)
            <==> && '|' !in k.payload && '$' !in k.payload
                 && if handoff then StartsFirmly(k.payload) else TextOrder.Trimmed(k.payload) && k.payload != ""
  {
    hide TextOrder.Trim, TextOrder.TrimStart, TextOrder.Trimmed, StartsFirmly, Split, RawOf;
    var payload := k.payload;
    var trimmed := TextOrder.Trim(if handoff then RawId(title, k) else payload);
    FirstHasNoBar(trimmed);
    RawIsNoLonger(Split(trimmed, '|')[0]);
    if '|' !in payload {
      if handoff {
        FirstField(payload, title + "|" + k.nid);
        assert payload + "|" + (title + "|" + k.nid) == RawId(title, k);
        BarSurvives(payload, title + "|" + k.nid);
        StartKeptIff(payload);
      } else {
        SplitNone(trimmed, '|');
        TextOrder.TrimSameIff(payload);
        TextOrder.TrimShortens(payload);
      }
    }
  }

  lemma BarSurvives(payload: string, rest: string)
    ensures TextOrder.Trim(payload + "|" + rest) != ""
  {
    hide TextOrder.TrimStart, TextOrder.TrimEnd;
    BarStays(payload, rest);
    EndBehindBar(TextOrder.TrimStart(payload), rest);
  }

  lemma StartKeptIff(s: string)
    ensures |TextOrder.TrimStart(s)| <= |s|
    ensures if StartsFirmly(s) then TextOrder.TrimStart(s) == s else |TextOrder.TrimStart(s)| < |s|
  {
    hide TextOrder.IsWhitespace;
    TextOrder.TrimStartShortens(s);
  }

  lemma FirstHasNoBar(s: string)
    ensures '|' !in Split(s, '|')[0]
  {
    if '|' in Split(s, '|')[0] {
      SplitParts(s, '|', 0, '|');
    }
  }

  lemma RawIsNoLonger(entry: string)
    ensures '$' in entry ==> |RawOf(entry)| < |entry|
    ensures '$' !in entry ==> RawOf(entry) == entry
    ensures forall c :: c in RawOf(entry) ==> c in entry
  {
  }

  lemma FirstField(payload: string, rest: string)
    requires '|' !in payload
    ensures Split(TextOrder.Trim(payload + "|" + rest), '|')[0] == TextOrder.TrimStart(payload)
  {
    hide TextOrder.TrimStart, TextOrder.TrimEnd, TextOrder.IsWhitespace, Split;
    BarStays(payload, rest);
    var start := TextOrder.TrimStart(payload);
    EndBehindBar(start, rest);
    var t := TextOrder.TrimEnd(start + "|" + rest);
    SplitAfter(start, t[|start| + 1..], '|');
  }

  lemma EndBehindBar(start: string, rest: string)
    ensures var t := TextOrder.TrimEnd(start + "|" + rest);
            |t| > |start| && t == start + ['|'] + t[|start| + 1..]
  {
    hide TextOrder.TrimEnd;
    var s := start + "|" + rest;
    BarIsFirm();
    assert s[|start|] == '|' && s[..|start|] == start;
    TextOrder.TrimEndKeeps(s, |start|);
    TextOrder.TrimEndPrefix(s);
    var t := TextOrder.TrimEnd(s);
    assert t == s[..|t|];
    assert t[..|start|] == start && t[|start|] == '|';
  }

  lemma BarIsFirm()
    ensures !TextOrder.IsWhitespace('|')
  {
  }

  lemma {:induction false} BarStays(a: string, rest: string)
    ensures TextOrder.TrimStart(a + "|" + rest) == TextOrder.TrimStart(a) + "|" + rest
  {
    BarIsFirm();
    if a == "" {
      assert a + "|" + rest == "|" + rest;
    } else {
      BarStays(a[1..], rest);
      assert (a + "|" + rest)[1..] == a[1..] + "|" + rest;
    }
  }

  // ------------------------------------------- the python form, read when played

  /** `value.splitn(n, ',')` */
  function SplitAtMost(s: string, n: nat): (parts: seq<string>)
    requires n > 0
    ensures 0 < |parts| <= n
    decreases n
  {
    var cut := CutAt(s, ',');
    if n == 1 || cut.None? then [s] else [cut.value.0] + SplitAtMost(cut.value.1, n - 1)
  }

  /** `parse_python_episode`; `validUrl` tells the media urls. */
  function ParsePython(c: Config, value: string): Option<(string, string, string, string)> {
    var parts := SplitAtMost(value, 4);
    if |parts| < 4 then None
    else
      var parser, url := TextOrder.Trim(parts[0]), TextOrder.Trim(parts[1]);
      var token, parseType := TextOrder.Trim(parts[2]), TextOrder.Trim(parts[3]);
      if !("token+" <= token) || parser == "" || parseType == "" || c.validUrl(url).None? then None
      else Some((parser, url, token[6..], parseType))
  }

  lemma {:induction false} EarlierPartsClean(s: string, n: nat, k: nat)
    requires n > 0 && k < |SplitAtMost(s, n)| && k < n - 1
    ensures |SplitAtMost(s, n)| == n ==> ',' !in SplitAtMost(s, n)[k]
    decreases n
  {
    var cut := CutAt(s, ',');
    if cut.Some? && k > 0 {
      EarlierPartsClean(cut.value.1, n - 1, k - 1);
    }
  }

  lemma NextPart(part: string, rest: string, n: nat)
    requires n > 1 && ',' !in part
    ensures SplitAtMost(part + "," + rest, n) == [part] + SplitAtMost(rest, n - 1)
  {
    CutAtFirst(part, ',', rest);
    assert part + "," + rest == part + [','] + rest;
  }

  lemma PythonParts(parser: string, url: string, token: string, parseType: string)
    requires ',' !in parser && ',' !in url && ',' !in token
    ensures SplitAtMost(PythonPayload(parser, url, token, parseType), 4) == [parser, url, "token+" + token, parseType]
  {
    hide SplitAtMost, CutAt;
    var rest2 := "token+" + token + "," + parseType;
    var rest1 := url + "," + rest2;
    assert PythonPayload(parser, url, token, parseType) == parser + "," + rest1;
    NextPart(parser, rest1, 4);
    NextPart(url, rest2, 3);
    NextPart("token+" + token, parseType, 2);
    LastPart(parseType);
  }

  lemma LastPart(s: string)
    ensures SplitAtMost(s, 1) == [s]
  {
  }

  /** No white space at the end. */
  predicate EndsFirmly(s: string) { s != "" ==> !TextOrder.IsWhitespace(s[|s| - 1]) }

  /** What is written for the python form is read as it was meant, when it is played, exactly
      when parser, url and token hold no comma, trimming changes none of the four texts, neither
      the parser nor the parse type is empty, and the url is a media url. */
  lemma PythonRoundTripIff(c: Config, parser: string, url: string, token: string, parseType: string)
    ensures ParsePython(c, PythonPayload(parser, url, token, parseType)) == Some((parser, url, token, parseType))
            <==> && ',' !in parser && ',' !in url && ',' !in token
                 && TextOrder.Trimmed(parser) && TextOrder.Trimmed(url) && TextOrder.Trimmed(parseType)
                 && EndsFirmly(token)
                 && parser != "" && parseType != "" && c.validUrl(url).Some?
  {
    hide SplitAtMost, PythonPayload, TextOrder.Trim, TextOrder.Trimmed, EndsFirmly;
    var s := PythonPayload(parser, url, token, parseType);
    if ',' !in parser && ',' !in url && ',' !in token {
      PythonParts(parser, url, token, parseType);
      TextOrder.TrimSameIff(parser);
      TextOrder.TrimSameIff(url);
      TextOrder.TrimSameIff(parseType);
      TokenReadIff(token);
      assert "token+" <= TextOrder.Trim("token+" + token);
    } else {
      ParsedHasNoComma(c, s);
    }
  }

  lemma TokenReadIff(token: string)
    ensures "token+" <= TextOrder.Trim("token+" + token)
    ensures TextOrder.Trim("token+" + token)[6..] == token <==> EndsFirmly(token)
  {
    var s := "token+" + token;
    assert s[0] == 't' && s[5] == '+' && !TextOrder.IsWhitespace('t') && !TextOrder.IsWhitespace('+');
    assert TextOrder.Trim(s) == TextOrder.TrimEnd(s);
    TextOrder.TrimEndKeeps(s, 5);
    TextOrder.TrimEndPrefix(s);
    var t := TextOrder.TrimEnd(s);
    assert s[6..] == token;
    assert t != "" && (token != "" ==> s[|s| - 1] == token[|token| - 1]);
    if !EndsFirmly(token) {
      assert t != s;
      assert |t[6..]| < |token|;
    }
  }

  /** A comma in the parser, and an empty parse type: both are written and neither is read. */
  lemma PythonFormIsLost(c: Config, url: string, token: string)
    ensures ParsePython(c, PythonPayload("a,b", url, token, "0")) != Some(("a,b", url, token, "0"))
    ensures ParsePython(c, PythonPayload("a", url, token, "")) != Some(("a", url, token, ""))
  {
    hide ParsePython, PythonPayload;
    assert "a,b"[1] == ',';
    PythonRoundTripIff(c, "a,b", url, token, "0");
    PythonRoundTripIff(c, "a", url, token, "");
  }

  lemma ParsedHasNoComma(c: Config, s: string)
    ensures var r := ParsePython(c, s);
            r.Some? ==> ',' !in r.value.0 && ',' !in r.value.1 && ',' !in r.value.2
  {
    hide SplitAtMost, TextOrder.IsWhitespace;
    var parts := SplitAtMost(s, 4);
    if |parts| == 4 {
      EarlierPartsClean(s, 4, 0);
      EarlierPartsClean(s, 4, 1);
      EarlierPartsClean(s, 4, 2);
      TrimKeepsOut(parts[0], ',');
      TrimKeepsOut(parts[1], ',');
      TrimKeepsOut(parts[2], ',');
    }
  }

  lemma TrimKeepsOut(s: string, c: char)
    requires c !in s
    ensures c !in TextOrder.Trim(s)
  {
  }
}
