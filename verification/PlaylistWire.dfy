/** The playlists of a detail answer, joined into two strings. */
module PlaylistWire {
  import opened Counting
  import opened Options
  import opened Strings

  // ---------------------------------------------------------- unique line names

  function Candidate(requested: string, n: nat): string { requested + "+" + Decimal(n) }

  lemma CandidatesDiffer(requested: string, m: nat, n: nat)
    requires m != n
    ensures Candidate(requested, m) != Candidate(requested, n) && Candidate(requested, n) != requested
  {
    if Candidate(requested, m) == Candidate(requested, n) {
      assert Decimal(m) == Candidate(requested, m)[|requested| + 1..] == Decimal(n);
      DecimalInjective(m, n);
    }
    assert |Candidate(requested, n)| > |requested|;
  }

  /** The requested name and all candidates below `suffix` are in use. */
  ghost predicate TakenBelow(existing: seq<string>, requested: string, suffix: nat) {
    requested in existing && forall n :: 1 <= n < suffix ==> Candidate(requested, n) in existing
  }

  ghost function Tried(requested: string, suffix: nat): set<string> {
    if suffix <= 1 then {requested} else Tried(requested, suffix - 1) + {Candidate(requested, suffix - 1)}
  }

  lemma {:induction false} TriedAre(requested: string, suffix: nat)
    requires suffix >= 1
    ensures |Tried(requested, suffix)| == suffix
    ensures forall s :: s in Tried(requested, suffix)
                        ==> s == requested || exists n :: 1 <= n < suffix && s == Candidate(requested, n)
  {
    hide Candidate;
    if suffix > 1 {
      TriedAre(requested, suffix - 1);
      if Candidate(requested, suffix - 1) in Tried(requested, suffix - 1) {
        CandidatesDiffer(requested, 0, suffix - 1);
        var n :| 1 <= n < suffix - 1 && Candidate(requested, suffix - 1) == Candidate(requested, n);
        CandidatesDiffer(requested, n, suffix - 1);
      }
    }
  }

  /** There are only so many names in use. */
  lemma TakenBound(existing: seq<string>, requested: string, suffix: nat)
    requires suffix >= 1 && TakenBelow(existing, requested, suffix)
    ensures suffix <= |existing|
  {
    TriedAre(requested, suffix);
    ListHolds(Tried(requested, suffix), existing);
  }

  ghost predicate IsUnique(existing: seq<string>, requested: string, name: string) {
    if requested !in existing then name == requested
    else
      && name !in existing
      && exists n :: 1 <= n <= |existing| && name == Candidate(requested, n) && TakenBelow(existing, requested, n)
  }

  function FirstFree(existing: seq<string>, requested: string, suffix: nat): (name: string)
    requires suffix >= 1 && TakenBelow(existing, requested, suffix)
    ensures IsUnique(existing, requested, name)
    decreases |existing| + 1 - suffix
  {
    TakenBound(existing, requested, suffix);
    var candidate := Candidate(requested, suffix);
    if candidate in existing then
      assert TakenBelow(existing, requested, suffix + 1);
      TakenBound(existing, requested, suffix + 1);
      FirstFree(existing, requested, suffix + 1)
    else candidate
  }

  function UniqueName(existing: seq<string>, requested: string): (name: string)
    ensures IsUnique(existing, requested, name) && name !in existing
  {
    if requested in existing then FirstFree(existing, requested, 1) else requested
  }

  /** The loop ends, for it tries no more suffixes than there are names in use. */
  method UniqueLineName(existing: seq<string>, requested: string) returns (name: string)
    ensures name !in existing && IsUnique(existing, requested, name)
    ensures name == UniqueName(existing, requested)
  {
    if requested !in existing {
      return requested;
    }
    var suffix := 1;
    var candidate := Candidate(requested, suffix);
    TakenBound(existing, requested, 1);
    while candidate in existing
      invariant 1 <= suffix <= |existing| && candidate == Candidate(requested, suffix)
      invariant TakenBelow(existing, requested, suffix)
      invariant UniqueName(existing, requested) == FirstFree(existing, requested, suffix)
      decreases |existing| - suffix
    {
      assert TakenBelow(existing, requested, suffix + 1);
      TakenBound(existing, requested, suffix + 1);
      suffix := suffix + 1;
      candidate := Candidate(requested, suffix);
    }
    return candidate;
  }

  // ------------------------------------------------------------------- detail

  /** The texts of a playlist's `player_info`; an empty text stands for a missing one. */
  datatype Info = Info(show: string, name: string, parse: string, parseApi: string, playerParseType: string)

  datatype SourceEpisode =
    | NoObject
    | SourceEpisode(name: string, title: string, url: string, parseApiUrl: string, nid: string, token: string)

  datatype Playlist = NotAnObject | Playlist(info: Info, episodes: seq<SourceEpisode>)

  /** The configuration, and the libraries: which texts are media urls and in what form, and
      the encryption of a url. */
  datatype Config = Config(appQi: bool, pythonForm: bool,
                           validUrl: string -> Option<string>,
                           directUrl: string -> Option<string>,
                           encrypt: string -> Option<string>)

  datatype Result<T> = Ok(value: T) | TokenFailed

  /** An episode that is kept: its name, what plays it, and its number on the server. */
  datatype Kept = Kept(name: string, payload: string, nid: string)

  datatype KeptLine = KeptLine(name: string, episodes: seq<Kept>)

  function FirstText(texts: seq<string>): (r: Option<string>)
    ensures r.Some? ==> r.value != "" && r.value in texts
  {
    if texts == [] then None
    else if texts[0] != "" then Some(texts[0])
    else FirstText(texts[1..])
  }

  function TextOr(r: Option<string>, otherwise: string): string {
    match r { case Some(text) => text case None => otherwise }
  }

  function Parser(info: Info): string { TextOr(FirstText([info.parse, info.parseApi]), "") }

  function EpisodeName(e: SourceEpisode): string
    requires e.SourceEpisode?
  {
    TextOr(FirstText([e.name, e.title]), "")
  }

  function DirectUrl(c: Config, e: SourceEpisode): Option<string>
    requires e.SourceEpisode?
  {
    var fromApi := if e.parseApiUrl == "" then None else c.directUrl(e.parseApiUrl);
    if fromApi.Some? then fromApi
    else
      var own := c.directUrl(e.url);
      if own.Some? then own
      else if e.parseApiUrl == "" then None
      else c.validUrl(e.parseApiUrl)
  }

  function PythonPayload(parser: string, url: string, token: string, parseType: string): string {
    parser + "," + url + ",token+" + token + "," + parseType
  }

  function PlayerPayload(parser: string, encrypted: string, token: string): string {
    "parse_api=" + parser + "&url=" + encrypted + "&token=" + token
  }

  /** What plays one episode; nothing when it has neither a media url nor a parser and a url. */
  function Payload(c: Config, info: Info, e: SourceEpisode): Result<Option<string>>
    requires e.SourceEpisode?
  {
    var direct := DirectUrl(c, e);
    if direct.Some? then Ok(direct)
    else if Parser(info) == "" || e.url == "" then Ok(None)
    else if c.pythonForm then Ok(Some(PythonPayload(Parser(info), e.url, e.token, info.playerParseType)))
    else
      match c.encrypt(e.url)
      case None => TokenFailed
      case Some(encrypted) => Ok(Some(PlayerPayload(Parser(info), encrypted, e.token)))
  }

  /** What is kept of the first `n` episodes. */
  function KeptEpisodes(c: Config, info: Info, es: seq<SourceEpisode>, n: nat): Result<seq<Kept>>
    requires n <= |es|
  {
    if n == 0 then Ok([])
    else
      var before := KeptEpisodes(c, info, es, n - 1);
      var e := es[n - 1];
      if before.TokenFailed? || e.NoObject? then before
      else
        match Payload(c, info, e)
        case TokenFailed => TokenFailed
        case Ok(None) => before
        case Ok(Some(payload)) => Ok(before.value + [Kept(EpisodeName(e), payload, e.nid)])
  }

  function LabelsOf(lines: seq<KeptLine>): seq<string> {
    seq(|lines|, k requires 0 <= k < |lines| => lines[k].name)
  }

  function Label(c: Config, lines: seq<KeptLine>, info: Info): string {
    var wanted := TextOr(FirstText([info.show, info.name, info.parse]), "线路" + Decimal(|lines| + 1));
    if c.appQi then UniqueName(LabelsOf(lines), wanted) else wanted
  }

  /** What is kept of the first `n` playlists: those that have an episode left. */
  function KeptLines(c: Config, playlists: seq<Playlist>, n: nat): Result<seq<KeptLine>>
    requires n <= |playlists|
  {
    if n == 0 then Ok([])
    else
      var before := KeptLines(c, playlists, n - 1);
      var p := playlists[n - 1];
      if before.TokenFailed? || p.NotAnObject? then before
      else
        match KeptEpisodes(c, p.info, p.episodes, |p.episodes|)
        case TokenFailed => TokenFailed
        case Ok(episodes) =>
          if episodes == [] then before
          else Ok(before.value + [KeptLine(Label(c, before.value, p.info), episodes)])
  }

  // --------------------------------------------------------------------- wire

  datatype Wire = Wire(playFrom: string, playUrl: string)

  function EntryText(title: string, k: Kept): string { k.name + "$" + k.payload + "|" + title + "|" + k.nid }

  function EntryTexts(title: string, kept: seq<Kept>): seq<string> {
    seq(|kept|, k requires 0 <= k < |kept| => EntryText(title, kept[k]))
  }

  function LineTexts(title: string, lines: seq<KeptLine>): seq<string> {
    seq(|lines|, k requires 0 <= k < |lines| => Join(EntryTexts(title, lines[k].episodes), "#"))
  }

  function WireOf(title: string, lines: seq<KeptLine>): Option<Wire> {
    if lines == [] then None else Some(Wire(Join(LabelsOf(lines), "$$$"), Join(LineTexts(title, lines), "$$$")))
  }

  lemma AppendLine(title: string, lines: seq<KeptLine>, line: KeptLine)
    ensures LabelsOf(lines + [line]) == LabelsOf(lines) + [line.name]
    ensures LineTexts(title, lines + [line])
            == LineTexts(title, lines) + [Join(EntryTexts(title, line.episodes), "#")]
  {
  }

  lemma LineCounts(title: string, lines: seq<KeptLine>)
    ensures |LabelsOf(lines)| == |LineTexts(title, lines)| == |lines|
    ensures forall kept :: |EntryTexts(title, kept)| == |kept|
  {
  }

  // ------------------------------------------------- what is written, told by the detail

  /** The first of the texts that is not empty; empty when all are. */
  ghost predicate IsFirst(texts: seq<string>, t: string) {
    if t == "" then forall k :: 0 <= k < |texts| ==> texts[k] == ""
    else exists k :: 0 <= k < |texts| && texts[k] == t && forall j :: 0 <= j < k ==> texts[j] == ""
  }

  /** `u` is the address that plays an episode: what its `parse_api_url` is as a direct address,
      or else what its own url is, or else what the former is as any media address. */
  ghost predicate Address(c: Config, e: SourceEpisode, u: string)
    requires e.SourceEpisode?
  {
    var api := e.parseApiUrl != "";
    || (api && c.directUrl(e.parseApiUrl) == Some(u))
    || (!(api && c.directUrl(e.parseApiUrl).Some?) && c.directUrl(e.url) == Some(u))
    || (api && c.directUrl(e.parseApiUrl) == None && c.directUrl(e.url) == None && c.validUrl(e.parseApiUrl) == Some(u))
  }

  ghost predicate HasAddress(c: Config, e: SourceEpisode)
    requires e.SourceEpisode?
  {
    exists u :: Address(c, e, u)
  }

  /** An episode is written when it has an address, or else a url of its own and a parser. */
  ghost predicate IsPlayable(c: Config, info: Info, e: SourceEpisode) {
    && e.SourceEpisode?
    && (HasAddress(c, e) || (e.url != "" && (info.parse != "" || info.parseApi != "")))
  }

  /** What is written for it to be played by. */
  ghost predicate PlayedBy(c: Config, info: Info, e: SourceEpisode, p: string)
    requires e.SourceEpisode?
  {
    if HasAddress(c, e) then Address(c, e, p)
    else
      exists parser ::
        && IsFirst([info.parse, info.parseApi], parser)
        && if c.pythonForm then p == parser + "," + e.url + ",token+" + e.token + "," + info.playerParseType
           else
             exists encrypted :: c.encrypt(e.url) == Some(encrypted)
                                 && p == "parse_api=" + parser + "&url=" + encrypted + "&token=" + e.token
  }

  /** The text of one episode. */
  ghost predicate IsEntry(c: Config, title: string, info: Info, e: SourceEpisode, text: string) {
    && e.SourceEpisode?
    && exists name, payload :: IsFirst([e.name, e.title], name) && PlayedBy(c, info, e, payload)
                               && text == name + "$" + payload + "|" + title + "|" + e.nid
  }

  /** The texts of the playable ones of the first `n` episodes, in order. */
  ghost predicate AreEntries(c: Config, title: string, info: Info, es: seq<SourceEpisode>, n: nat, texts: seq<string>)
    requires n <= |es|
  {
    if n == 0 then texts == []
    else if !IsPlayable(c, info, es[n - 1]) then AreEntries(c, title, info, es, n - 1, texts)
    else
      && texts != [] && IsEntry(c, title, info, es[n - 1], texts[|texts| - 1])
      && AreEntries(c, title, info, es, n - 1, texts[..|texts| - 1])
  }

  /** A line is written for a playlist with a playable episode. */
  ghost predicate HasPlayable(c: Config, p: Playlist) {
    p.Playlist? && exists k :: 0 <= k < |p.episodes| && IsPlayable(c, p.info, p.episodes[k])
  }

  /** The name of a line behind those that have one: the first text of three or a number, with
      a suffix where names must differ. */
  ghost predicate IsLabel(c: Config, before: seq<string>, info: Info, name: string) {
    exists first ::
      && IsFirst([info.show, info.name, info.parse], first)
      && var wanted := if first != "" then first else "线路" + Decimal(|before| + 1);
         if c.appQi then IsUnique(before, wanted, name) else name == wanted
  }

  /** Names and texts of the lines of the first `n` playlists that have a playable episode, in
      order. */
  ghost predicate AreLines(
    c: Config, title: string, playlists: seq<Playlist>, n: nat, names: seq<string>, texts: seq<string>)
    requires n <= |playlists|
  {
    if n == 0 then names == [] && texts == []
    else if !HasPlayable(c, playlists[n - 1]) then AreLines(c, title, playlists, n - 1, names, texts)
    else
      && names != [] && texts != []
      && IsLabel(c, names[..|names| - 1], playlists[n - 1].info, names[|names| - 1])
      && (exists entries ::
            AreEntries(c, title, playlists[n - 1].info, playlists[n - 1].episodes, |playlists[n - 1].episodes|, entries)
            && texts[|texts| - 1] == Join(entries, "#"))
      && AreLines(c, title, playlists, n - 1, names[..|names| - 1], texts[..|texts| - 1])
  }

  lemma FirstTextIs(texts: seq<string>)
    ensures IsFirst(texts, TextOr(FirstText(texts), ""))
    ensures FirstText(texts).None? <==> forall k :: 0 <= k < |texts| ==> texts[k] == ""
  {
    if texts != [] && texts[0] == "" {
      FirstTextIs(texts[1..]);
      var t := TextOr(FirstText(texts[1..]), "");
      if t == "" {
        forall k | 0 <= k < |texts| ensures texts[k] == "" {
          assert k > 0 ==> texts[k] == texts[1..][k - 1];
        }
      } else {
        var k :| 0 <= k < |texts[1..]| && texts[1..][k] == t && forall j :: 0 <= j < k ==> texts[1..][j] == "";
        assert texts[k + 1] == t;
        forall j | 0 <= j < k + 1 ensures texts[j] == "" {
          assert j > 0 ==> texts[j] == texts[1..][j - 1];
        }
      }
    }
  }

  lemma AddressIff(c: Config, e: SourceEpisode, u: string)
    requires e.SourceEpisode?
    ensures DirectUrl(c, e) == Some(u) <==> Address(c, e, u)
  {
  }

  lemma PayloadIs(c: Config, info: Info, e: SourceEpisode)
    requires e.SourceEpisode? && Payload(c, info, e).Ok?
    ensures Payload(c, info, e).value.Some? <==> IsPlayable(c, info, e)
    ensures Payload(c, info, e).value.Some? ==> PlayedBy(c, info, e, Payload(c, info, e).value.value)
  {
    hide DirectUrl, Address;
    FirstTextIs([info.parse, info.parseApi]);
    var direct := DirectUrl(c, e);
    if direct.Some? {
      AddressIff(c, e, direct.value);
    } else {
      forall u ensures !Address(c, e, u) {
        AddressIff(c, e, u);
      }
      assert info.parse == [info.parse, info.parseApi][0] && info.parseApi == [info.parse, info.parseApi][1];
      assert Parser(info) == "" <==> info.parse == "" && info.parseApi == "";
    }
  }

  lemma EntryIs(c: Config, title: string, info: Info, e: SourceEpisode, payload: string)
    requires e.SourceEpisode? && PlayedBy(c, info, e, payload)
    ensures IsEntry(c, title, info, e, EntryText(title, Kept(EpisodeName(e), payload, e.nid)))
  {
    hide PlayedBy;
    FirstTextIs([e.name, e.title]);
  }

  lemma {:induction false} EntriesAre(c: Config, title: string, info: Info, es: seq<SourceEpisode>, n: nat)
    requires n <= |es| && KeptEpisodes(c, info, es, n).Ok?
    ensures AreEntries(c, title, info, es, n, EntryTexts(title, KeptEpisodes(c, info, es, n).value))
    ensures KeptEpisodes(c, info, es, n).value != [] <==> exists k :: 0 <= k < n && IsPlayable(c, info, es[k])
  {
    hide Payload, IsEntry;
    if n > 0 {
      EntriesAre(c, title, info, es, n - 1);
      var before, kept := KeptEpisodes(c, info, es, n - 1).value, KeptEpisodes(c, info, es, n).value;
      var e := es[n - 1];
      if e.SourceEpisode? {
        PayloadIs(c, info, e);
      }
      hide IsPlayable;
      if e.SourceEpisode? && Payload(c, info, e).value.Some? {
        var k := Kept(EpisodeName(e), Payload(c, info, e).value.value, e.nid);
        EntryIs(c, title, info, e, k.payload);
        assert kept == before + [k];
        assert EntryTexts(title, kept) == EntryTexts(title, before) + [EntryText(title, k)];
      } else {
        assert kept == before;
      }
    }
  }

  lemma LabelIs(c: Config, lines: seq<KeptLine>, info: Info)
    ensures IsLabel(c, LabelsOf(lines), info, Label(c, lines, info))
  {
    hide IsUnique, Decimal, FirstText, IsFirst, LabelsOf;
    FirstTextIs([info.show, info.name, info.parse]);
    var found := FirstText([info.show, info.name, info.parse]);
    var first := TextOr(found, "");
    var wanted := if first != "" then first else "线路" + Decimal(|lines| + 1);
    assert wanted == TextOr(found, "线路" + Decimal(|lines| + 1));
    assert |LabelsOf(lines)| == |lines| by { LineCounts("", lines); }
    var name := Label(c, lines, info);
    assert if c.appQi then IsUnique(LabelsOf(lines), wanted, name) else name == wanted;
  }

  lemma {:induction false} LinesAre(c: Config, title: string, playlists: seq<Playlist>, n: nat)
    requires n <= |playlists| && KeptLines(c, playlists, n).Ok?
    ensures var lines := KeptLines(c, playlists, n).value;
            AreLines(c, title, playlists, n, LabelsOf(lines), LineTexts(title, lines))
  {
    hide KeptEpisodes, Label, IsLabel, AreEntries, IsPlayable, Join;
    if n > 0 {
      LinesAre(c, title, playlists, n - 1);
      var before, lines := KeptLines(c, playlists, n - 1).value, KeptLines(c, playlists, n).value;
      var p := playlists[n - 1];
      if p.Playlist? {
        EntriesAre(c, title, p.info, p.episodes, |p.episodes|);
      }
      if p.Playlist? && KeptEpisodes(c, p.info, p.episodes, |p.episodes|).value != [] {
        var kept := KeptEpisodes(c, p.info, p.episodes, |p.episodes|).value;
        var line := KeptLine(Label(c, before, p.info), kept);
        LabelIs(c, before, p.info);
        AppendLine(title, before, line);
        LineCounts(title, before);
        assert lines == before + [line];
        assert (LabelsOf(before) + [line.name])[..|before|] == LabelsOf(before);
        var text := Join(EntryTexts(title, kept), "#");
        assert (LineTexts(title, before) + [text])[..|before|] == LineTexts(title, before);
      }
    }
  }

  /** The entries of one playlist. */
  method LineUrls(c: Config, title: string, info: Info, episodes: seq<SourceEpisode>)
    returns (r: Result<seq<string>>)
    ensures r == match KeptEpisodes(c, info, episodes, |episodes|)
                 case TokenFailed => TokenFailed
                 case Ok(kept) => Ok(EntryTexts(title, kept))
    ensures r.Ok? ==> AreEntries(c, title, info, episodes, |episodes|, r.value)
  {
    var parser := TextOr(FirstText([info.parse, info.parseApi]), "");
    var lineUrls: seq<string> := [];
    ghost var kept: seq<Kept> := [];
    for m := 0 to |episodes|
      invariant KeptEpisodes(c, info, episodes, m) == Ok(kept)
      invariant lineUrls == EntryTexts(title, kept)
    {
      hide DirectUrl, FirstText;
      var ep := episodes[m];
      if ep.NoObject? {
        continue;
      }
      var episodeName := TextOr(FirstText([ep.name, ep.title]), "");
      var direct := DirectUrl(c, ep);
      var payload: string;
      if direct.Some? {
        payload := direct.value;
      } else {
        if parser == "" || ep.url == "" {
          continue;
        }
        if c.pythonForm {
          payload := parser + "," + ep.url + ",token+" + ep.token + "," + info.playerParseType;
        } else {
          var encrypted := c.encrypt(ep.url);
          if encrypted.None? {
            EpisodesFailed(c, info, episodes, m + 1, |episodes|);
            return TokenFailed;
          }
          payload := "parse_api=" + parser + "&url=" + encrypted.value + "&token=" + ep.token;
        }
      }
      kept := kept + [Kept(episodeName, payload, ep.nid)];
      lineUrls := lineUrls + [episodeName + "$" + payload + "|" + title + "|" + ep.nid];
    }
    EntriesAre(c, title, info, episodes, |episodes|);
    return Ok(lineUrls);
  }

  /** The playlist part of a detail: the two strings of what is kept, or an error when a url
      cannot be encrypted. */
  method MapDetail(c: Config, title: string, playlists: seq<Playlist>) returns (r: Result<Option<Wire>>)
    ensures r == match KeptLines(c, playlists, |playlists|)
                 case TokenFailed => TokenFailed
                 case Ok(lines) => Ok(WireOf(title, lines))
    ensures r.Ok? ==>
              exists names, texts ::
                && AreLines(c, title, playlists, |playlists|, names, texts) && |names| == |texts|
                && r.value == if names == [] then None else Some(Wire(Join(names, "$$$"), Join(texts, "$$$")))
  {
    hide KeptEpisodes, FirstText, TextOr, Decimal, Join, UniqueName, IsUnique, LabelsOf, LineTexts, EntryTexts,
      AreEntries, AreLines;
    var from, urls: seq<string> := [], [];
    ghost var lines: seq<KeptLine> := [];
    LineCounts(title, lines);
    for n := 0 to |playlists|
      invariant KeptLines(c, playlists, n) == Ok(lines)
      invariant from == LabelsOf(lines) && urls == LineTexts(title, lines)
    {
      var playlist := playlists[n];
      if playlist.NotAnObject? {
        continue;
      }
      var info := playlist.info;
      var line := TextOr(FirstText([info.show, info.name, info.parse]), "线路" + Decimal(|from| + 1));
      var lineUrls := LineUrls(c, title, info, playlist.episodes);
      LineCounts(title, lines);
      if lineUrls.TokenFailed? {
        LinesFailed(c, playlists, n + 1, |playlists|);
        return TokenFailed;
      }
      if |lineUrls.value| > 0 {
        if c.appQi {
          line := UniqueLineName(from, line);
        }
        from := from + [line];
        urls := urls + [Join(lineUrls.value, "#")];
        ghost var kept := KeptEpisodes(c, info, playlist.episodes, |playlist.episodes|).value;
        AppendLine(title, lines, KeptLine(line, kept));
        lines := lines + [KeptLine(line, kept)];
      }
    }
    LineCounts(title, lines);
    LinesAre(c, title, playlists, |playlists|);
    return Ok(if |from| > 0 then Some(Wire(Join(from, "$$$"), Join(urls, "$$$"))) else None);
  }

  lemma {:induction false} EpisodesFailed(c: Config, info: Info, es: seq<SourceEpisode>, n: nat, m: nat)
    requires n <= m <= |es| && KeptEpisodes(c, info, es, n).TokenFailed?
    ensures KeptEpisodes(c, info, es, m).TokenFailed?
    decreases m - n
  {
    if n < m {
      EpisodesFailed(c, info, es, n, m - 1);
    }
  }

  lemma {:induction false} LinesFailed(c: Config, playlists: seq<Playlist>, n: nat, m: nat)
    requires n <= m <= |playlists| && KeptLines(c, playlists, n).TokenFailed?
    ensures KeptLines(c, playlists, m).TokenFailed?
    decreases m - n
  {
    if n < m {
      LinesFailed(c, playlists, n, m - 1);
    }
  }

  /** The episode has a parser and a url but no media url, and the form encrypts. */
  predicate NeedsEncryption(c: Config, info: Info, e: SourceEpisode) {
    && e.SourceEpisode? && DirectUrl(c, e).None?
    && Parser(info) != "" && e.url != "" && !c.pythonForm
  }

  predicate CannotEncrypt(c: Config, info: Info, e: SourceEpisode) {
    NeedsEncryption(c, info, e) && c.encrypt(e.url).None?
  }

  predicate CannotEncryptOne(c: Config, p: Playlist) {
    p.Playlist? && exists e :: e in p.episodes && CannotEncrypt(c, p.info, e)
  }

  lemma {:induction false} EpisodesFailIff(c: Config, info: Info, es: seq<SourceEpisode>, n: nat)
    requires n <= |es|
    ensures KeptEpisodes(c, info, es, n).TokenFailed? <==> exists k :: 0 <= k < n && CannotEncrypt(c, info, es[k])
  {
    hide DirectUrl, Parser;
    if n > 0 {
      EpisodesFailIff(c, info, es, n - 1);
    }
  }

  /** A detail fails exactly when one of its episodes must be encrypted and cannot be. */
  lemma {:induction false} DetailFailsIff(c: Config, playlists: seq<Playlist>, n: nat)
    requires n <= |playlists|
    ensures KeptLines(c, playlists, n).TokenFailed? <==> exists k :: 0 <= k < n && CannotEncryptOne(c, playlists[k])
  {
    hide KeptEpisodes, CannotEncrypt, Label;
    if n > 0 {
      DetailFailsIff(c, playlists, n - 1);
      var p := playlists[n - 1];
      if p.Playlist? {
        EpisodesFailIff(c, p.info, p.episodes, |p.episodes|);
        assert CannotEncryptOne(c, p) <==> exists k :: 0 <= k < |p.episodes| && CannotEncrypt(c, p.info, p.episodes[k]);
      }
    }
  }

  /** The line names of the AppQi protocol are pairwise distinct. */
  lemma {:induction false} AppQiNamesDistinct(c: Config, playlists: seq<Playlist>, n: nat)
    requires c.appQi && n <= |playlists| && KeptLines(c, playlists, n).Ok?
    ensures var lines := KeptLines(c, playlists, n).value;
            forall i, j :: 0 <= i < j < |lines| ==> lines[i].name != lines[j].name
  {
    hide KeptEpisodes, FirstText, TextOr, IsUnique;
    if n > 0 {
      AppQiNamesDistinct(c, playlists, n - 1);
      var before, lines := KeptLines(c, playlists, n - 1).value, KeptLines(c, playlists, n).value;
      if |lines| > |before| {
        var names := LabelsOf(before);
        assert forall i :: 0 <= i < |before| ==> names[i] == before[i].name;
        assert lines[|before|].name !in names;
      }
    }
  }
}
