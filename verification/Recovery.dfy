/** Which episodes of other lines a failed playback may continue with. */
module Recovery {
  import opened Options
  import opened Strings
  import opened EpisodeOrder
  import opened PlaybackCatalog

  datatype Selection = Selection(lineIndex: nat, episodeIndex: nat)

  /** What recovery reads off an episode's name: its number, and its normalised text. */
  datatype Names = Names(number: string -> Option<nat>, normal: string -> string)

  /** The two details, when they are given: whether they are the same content, and whether
      the current one is a movie. */
  datatype Details = Unknown | Details(same: bool, movie: bool)

  /** `lines.find(line => line.index === index)` */
  function FindLine(lines: seq<Line>, index: nat): (r: Option<Line>)
    ensures r.Some? ==> r.value in lines && r.value.index == index
    ensures r.None? ==> forall line :: line in lines ==> line.index != index
  {
    if lines == [] then None
    else if lines[0].index == index then Some(lines[0])
    else FindLine(lines[1..], index)
  }

  predicate SameEpisode(names: Names, wanted: string, other: string) {
    var number := names.number(wanted);
    if number.Some? then names.number(other) == number else names.normal(other) == names.normal(wanted)
  }

  function Matching(names: Names, wanted: string, es: seq<Episode>): seq<Episode> {
    if es == [] then []
    else (if SameEpisode(names, wanted, es[0].name) then [es[0]] else []) + Matching(names, wanted, es[1..])
  }

  function Wanted(current: seq<Line>, selected: Selection): Option<Episode> {
    var line := FindLine(current, selected.lineIndex);
    if line.Some? && selected.episodeIndex < |line.value.episodes|
    then Some(line.value.episodes[selected.episodeIndex])
    else None
  }

  predicate OneEach(lines: seq<Line>) { forall line :: line in lines ==> |line.episodes| == 1 }

  datatype Choice = Chosen(selection: Selection) | Ambiguous | NoMatch

  /** The first line with a match decides. */
  function Choose(names: Names, wanted: string, target: seq<Line>): Choice {
    if target == [] then NoMatch
    else
      var matches := Matching(names, wanted, target[0].episodes);
      if |matches| == 1 then Chosen(Selection(target[0].index, matches[0].index))
      else if |matches| > 1 then Ambiguous
      else Choose(names, wanted, target[1..])
  }

  predicate MovieRule(current: seq<Line>, target: seq<Line>, about: Details) {
    about.Details? && about.movie && OneEach(current) && OneEach(target)
  }

  function Recovered(names: Names, current: seq<Line>, selected: Selection, target: seq<Line>, about: Details)
    : Option<Selection>
  {
    var wanted := Wanted(current, selected);
    if (about.Details? && !about.same) || wanted.None? then None
    else
      match Choose(names, wanted.value.name, target)
      case Chosen(s) => Some(s)
      case Ambiguous => None
      case NoMatch =>
        if MovieRule(current, target, about) && target != []
        then Some(Selection(target[0].index, target[0].episodes[0].index))
        else None
  }

  method RecoverySelection(names: Names, current: seq<Line>, selected: Selection, target: seq<Line>, about: Details)
    returns (r: Option<Selection>)
    ensures r == Recovered(names, current, selected, target, about)
  {
    if about.Details? && !about.same {
      return None;
    }
    var episode := Wanted(current, selected);
    if episode.None? {
      return None;
    }
    for n := 0 to |target|
      invariant Choose(names, episode.value.name, target) == Choose(names, episode.value.name, target[n..])
    {
      var line := target[n];
      var matches := Matching(names, episode.value.name, line.episodes);
      if |matches| == 1 {
        return Some(Selection(line.index, matches[0].index));
      }
      if |matches| > 1 {
        return None;
      }
      assert target[n..][1..] == target[n + 1..];
    }
    if MovieRule(current, target, about) && target != [] {
      assert target[0] in target;
      return Some(Selection(target[0].index, target[0].episodes[0].index));
    }
    return None;
  }

  // ------------------------------------------------------------ what is offered

  ghost predicate HasNumber(names: Names, name: string, n: nat) { names.number(name) == Some(n) }

  /** The name has every number the wanted one has; and if that has none, their normalised
      texts are equal. */
  ghost predicate Meant(names: Names, wanted: string, name: string) {
    && (forall n: nat :: HasNumber(names, wanted, n) ==> HasNumber(names, name, n))
    && ((forall n: nat :: !HasNumber(names, wanted, n)) ==> names.normal(wanted) == names.normal(name))
  }

  lemma MeantIff(names: Names, wanted: string, name: string)
    ensures SameEpisode(names, wanted, name) <==> Meant(names, wanted, name)
  {
    var number := names.number(wanted);
    if number.Some? {
      assert HasNumber(names, wanted, number.value);
    }
  }

  /** Episode `k` and no other of the line is the wanted one. */
  ghost predicate OnlyMatch(names: Names, wanted: string, es: seq<Episode>, k: nat) {
    && k < |es| && Meant(names, wanted, es[k].name)
    && forall j :: 0 <= j < |es| && j != k ==> !Meant(names, wanted, es[j].name)
  }

  ghost predicate AnyMatch(names: Names, wanted: string, es: seq<Episode>) {
    exists k :: 0 <= k < |es| && Meant(names, wanted, es[k].name)
  }

  lemma {:induction false} MatchingIs(names: Names, wanted: string, es: seq<Episode>)
    ensures Matching(names, wanted, es) == [] <==> !AnyMatch(names, wanted, es)
    ensures |Matching(names, wanted, es)| == 1
            <==> exists k :: 0 <= k < |es| && OnlyMatch(names, wanted, es, k)
    ensures forall k :: 0 <= k < |es| && OnlyMatch(names, wanted, es, k) ==> Matching(names, wanted, es) == [es[k]]
  {
    hide SameEpisode, Meant;
    if es != [] {
      var rest := es[1..];
      MatchingIs(names, wanted, rest);
      assert es == [es[0]] + rest;
      MeantIff(names, wanted, es[0].name);
      if Meant(names, wanted, es[0].name) {
        if !AnyMatch(names, wanted, rest) {
          assert forall j :: 0 < j < |es| ==> es[j] == rest[j - 1];
          assert OnlyMatch(names, wanted, es, 0);
        }
        if k :| 0 <= k < |es| && OnlyMatch(names, wanted, es, k) {
          assert k == 0;
          forall j | 0 <= j < |rest| ensures !Meant(names, wanted, rest[j].name) {
            assert rest[j] == es[j + 1];
          }
        }
      } else {
        forall k | 0 < k < |es| ensures OnlyMatch(names, wanted, es, k) <==> OnlyMatch(names, wanted, rest, k - 1) {
          assert forall j :: 0 <= j < |rest| ==> rest[j] == es[j + 1];
          assert forall j :: 0 < j < |es| ==> es[j] == rest[j - 1];
        }
        if k :| 0 <= k < |rest| && OnlyMatch(names, wanted, rest, k) {
          assert OnlyMatch(names, wanted, es, k + 1);
        }
        if AnyMatch(names, wanted, rest) {
          var k :| 0 <= k < |rest| && Meant(names, wanted, rest[k].name);
          assert Meant(names, wanted, es[k + 1].name);
        }
      }
    }
  }

  /** Line `line` may be continued with its episode `k`: the only one with the number, or
      else the name, of the wanted one; or, for movies with one episode a line, the sole one. */
  ghost predicate Continues(names: Names, catalog: seq<Line>, wanted: string, line: Line, k: nat, about: Details) {
    && (about.Details? ==> about.same)
    && (|| OnlyMatch(names, wanted, line.episodes, k)
        || (!AnyMatch(names, wanted, line.episodes) && MovieRule(catalog, [line], about) && k == 0))
  }

  /** One line is searched: what is found is an episode of it, without doubt which. */
  lemma RecoveredIff(names: Names, catalog: seq<Line>, selected: Selection, line: Line, about: Details, k: nat)
    requires ValidLine(line)
    ensures Recovered(names, catalog, selected, [line], about) == Some(Selection(line.index, k))
            <==> Wanted(catalog, selected).Some?
                 && Continues(names, catalog, Wanted(catalog, selected).value.name, line, k, about)
  {
    hide SameEpisode, Meant, Matching;
    var wanted := Wanted(catalog, selected);
    if wanted.Some? {
      MatchingIs(names, wanted.value.name, line.episodes);
      ChooseOne(names, wanted.value.name, line);
      assert line in [line];
    }
  }

  lemma ChooseOne(names: Names, wanted: string, line: Line)
    ensures Choose(names, wanted, [line])
            == var matches := Matching(names, wanted, line.episodes);
               if |matches| == 1 then Chosen(Selection(line.index, matches[0].index))
               else if |matches| > 1 then Ambiguous
               else NoMatch
  {
    assert Choose(names, wanted, []) == NoMatch;
  }

  /** Line `n` of the target decides, and its episode `k` is chosen. */
  ghost predicate Decides(names: Names, wanted: string, target: seq<Line>, n: nat, k: nat) {
    && n < |target| && OnlyMatch(names, wanted, target[n].episodes, k)
    && forall m :: 0 <= m < n ==> !AnyMatch(names, wanted, target[m].episodes)
  }

  /** Among several lines the first that has any match decides, and only by a single match. */
  lemma {:induction false} ChooseIff(names: Names, wanted: string, target: seq<Line>, s: Selection)
    requires forall line :: line in target ==> ValidLine(line)
    ensures Choose(names, wanted, target) == Chosen(s)
            <==> exists n :: 0 <= n < |target| && target[n].index == s.lineIndex
                             && Decides(names, wanted, target, n, s.episodeIndex)
  {
    hide SameEpisode, Meant, Matching, ValidLine;
    if target != [] {
      var rest, es := target[1..], target[0].episodes;
      assert target == [target[0]] + rest;
      ChooseIff(names, wanted, rest, s);
      MatchingIs(names, wanted, es);
      ValidLineIndex(target[0]);
      if AnyMatch(names, wanted, es) {
        assert Decides(names, wanted, target, 0, s.episodeIndex) <==> OnlyMatch(names, wanted, es, s.episodeIndex);
      } else {
        forall n | 0 < n < |target|
          ensures Decides(names, wanted, target, n, s.episodeIndex)
                  <==> Decides(names, wanted, rest, n - 1, s.episodeIndex)
        {
          assert forall m :: 0 <= m < |rest| ==> rest[m] == target[m + 1];
          assert forall m :: 0 < m < |target| ==> target[m] == rest[m - 1];
        }
        if n :| 0 <= n < |rest| && rest[n].index == s.lineIndex && Decides(names, wanted, rest, n, s.episodeIndex) {
          assert target[n + 1].index == s.lineIndex && Decides(names, wanted, target, n + 1, s.episodeIndex);
        }
      }
    }
  }

  lemma ValidLineIndex(line: Line)
    requires ValidLine(line)
    ensures forall k :: 0 <= k < |line.episodes| ==> line.episodes[k].index == k
  {
  }

  datatype Candidate = Candidate(id: string, caption: string, lineKey: string)

  datatype Offer = Offer(candidate: Candidate, selection: Selection)

  function CandidateId(line: nat, episode: nat): string {
    "line:" + Decimal(line) + ":episode:" + Decimal(episode)
  }

  predicate HasEpisode(line: Option<Line>, index: nat) {
    line.Some? && exists e :: e in line.value.episodes && e.index == index
  }

  /** What line `line` offers, if anything. */
  function OfferOf(names: Names, catalog: seq<Line>, selected: Selection, line: Line, about: Details): Option<Offer> {
    if !HasEpisode(FindLine(catalog, selected.lineIndex), selected.episodeIndex) || line.index == selected.lineIndex
    then None
    else
      var found := Recovered(names, catalog, selected, [line], about);
      if found.None? || found.value.episodeIndex >= |line.episodes| then None
      else
        var episode := line.episodes[found.value.episodeIndex];
        Some(Offer(Candidate(CandidateId(line.index, episode.index), line.name + " · " + episode.name,
                             Decimal(line.index)),
                   Selection(line.index, episode.index)))
  }

  function Offers(names: Names, catalog: seq<Line>, selected: Selection, about: Details, n: nat): seq<Offer>
    requires n <= |catalog|
  {
    if n == 0 then []
    else
      Offers(names, catalog, selected, about, n - 1) +
      match OfferOf(names, catalog, selected, catalog[n - 1], about) { case None => [] case Some(o) => [o] }
  }

  function Candidates(offers: seq<Offer>): seq<Candidate> {
    seq(|offers|, k requires 0 <= k < |offers| => offers[k].candidate)
  }

  function Requests(offers: seq<Offer>): map<string, Selection> {
    if offers == [] then map[]
    else Requests(offers[..|offers| - 1])[offers[|offers| - 1].candidate.id := offers[|offers| - 1].selection]
  }

  lemma IdsInjective(a: nat, b: nat, c: nat, d: nat)
    requires CandidateId(a, b) == CandidateId(c, d)
    ensures a == c && b == d
  {
    hide Decimal;
    IdParts(a, b);
    IdParts(c, d);
    DecimalInjective(a, c);
    DecimalInjective(b, d);
  }

  /** The two numbers can be cut out of an id. */
  lemma IdParts(a: nat, b: nat)
    ensures CutAt(CandidateId(a, b)[5..], ':') == Some((Decimal(a), "episode:" + Decimal(b)))
    ensures ("episode:" + Decimal(b))[8..] == Decimal(b)
  {
    hide Decimal, CutAt;
    assert ':' !in Decimal(a);
    IdText(Decimal(a), Decimal(b));
    CutAtFirst(Decimal(a), ':', "episode:" + Decimal(b));
  }

  lemma IdText(x: string, y: string)
    ensures ("line:" + x + ":episode:" + y)[5..] == x + [':'] + ("episode:" + y)
  {
    assert "line:" + x + ":episode:" + y == "line:" + (x + [':'] + ("episode:" + y));
  }

  /** Offer `o` is what line `i` of the catalog allows: an episode that exists, on another line,
      shown by the names of both. */
  ghost predicate GoodOffer(names: Names, catalog: seq<Line>, selected: Selection, about: Details, o: Offer, i: nat) {
    && i < |catalog| && catalog[i].index == o.selection.lineIndex != selected.lineIndex
    && o.selection.episodeIndex < |catalog[i].episodes|
    && Wanted(catalog, selected).Some?
    && Continues(names, catalog, Wanted(catalog, selected).value.name, catalog[i], o.selection.episodeIndex, about)
    && o.candidate.id == CandidateId(o.selection.lineIndex, o.selection.episodeIndex)
    && o.candidate.caption == catalog[i].name + " · " + catalog[i].episodes[o.selection.episodeIndex].name
    && o.candidate.lineKey == Decimal(catalog[i].index)
  }

  lemma OfferIsGood(names: Names, catalog: seq<Line>, selected: Selection, about: Details, i: nat)
    requires ValidCatalog(catalog) && i < |catalog|
    requires OfferOf(names, catalog, selected, catalog[i], about).Some?
    ensures GoodOffer(names, catalog, selected, about, OfferOf(names, catalog, selected, catalog[i], about).value, i)
  {
    hide SameEpisode, Meant, Choose, Decimal;
    var line := catalog[i];
    assert line in catalog && ValidLine(line);
    var r := Recovered(names, catalog, selected, [line], about).value;
    assert r.lineIndex == line.index by {
      ChooseOne(names, Wanted(catalog, selected).value.name, line);
    }
    RecoveredIff(names, catalog, selected, line, about, r.episodeIndex);
  }

  lemma {:induction false} OffersGood(names: Names, catalog: seq<Line>, selected: Selection, about: Details, n: nat)
    requires ValidCatalog(catalog) && n <= |catalog|
    ensures forall o :: o in Offers(names, catalog, selected, about, n) ==>
              exists i :: 0 <= i < n && GoodOffer(names, catalog, selected, about, o, i)
  {
    hide OfferOf, GoodOffer;
    if n > 0 {
      OffersGood(names, catalog, selected, about, n - 1);
      if OfferOf(names, catalog, selected, catalog[n - 1], about).Some? {
        OfferIsGood(names, catalog, selected, about, n - 1);
      }
    }
  }

  lemma {:induction false} OffersAscend(names: Names, catalog: seq<Line>, selected: Selection, about: Details, n: nat)
    requires ValidCatalog(catalog) && n <= |catalog|
    ensures var os := Offers(names, catalog, selected, about, n);
            && (forall i, j :: 0 <= i < j < |os| ==> os[i].selection.lineIndex < os[j].selection.lineIndex)
            && (forall o :: o in os ==> n > 0 && o.selection.lineIndex <= catalog[n - 1].index)
  {
    hide Recovered, HasEpisode, FindLine, CandidateId, ValidLine;
    if n > 0 {
      OffersAscend(names, catalog, selected, about, n - 1);
    }
  }

  ghost predicate DistinctIds(os: seq<Offer>) {
    forall i, j :: 0 <= i < j < |os| ==> os[i].candidate.id != os[j].candidate.id
  }

  lemma {:induction false} RequestHeld(os: seq<Offer>, i: nat)
    requires DistinctIds(os) && i < |os|
    ensures os[i].candidate.id in Requests(os) && Requests(os)[os[i].candidate.id] == os[i].selection
  {
    var front, last := os[..|os| - 1], os[|os| - 1];
    if i < |front| {
      assert front[i] == os[i];
      RequestHeld(front, i);
      assert os[i].candidate.id != last.candidate.id;
    }
  }

  lemma OfferIdsDistinct(names: Names, catalog: seq<Line>, selected: Selection, about: Details)
    requires ValidCatalog(catalog)
    ensures DistinctIds(Offers(names, catalog, selected, about, |catalog|))
  {
    hide Offers, CandidateId, Continues, ValidLine;
    var os := Offers(names, catalog, selected, about, |catalog|);
    OffersAscend(names, catalog, selected, about, |catalog|);
    OffersGood(names, catalog, selected, about, |catalog|);
    forall i, j | 0 <= i < j < |os| ensures os[i].candidate.id != os[j].candidate.id {
      assert os[i] in os && os[j] in os;
      var a, b := os[i].selection, os[j].selection;
      if os[i].candidate.id == os[j].candidate.id {
        IdsInjective(a.lineIndex, a.episodeIndex, b.lineIndex, b.episodeIndex);
      }
    }
  }

  /** Every candidate that is offered has an id of its own, under which the requests hold an
      episode that exists on another line and that playing finds, and this episode is the only
      one of its line with the number or name looked for (or the sole one, by the movie rule). */
  lemma CandidatesResolve(names: Names, catalog: seq<Line>, selected: Selection, about: Details)
    requires ValidCatalog(catalog)
    ensures var os := Offers(names, catalog, selected, about, |catalog|);
            && DistinctIds(os)
            && forall o :: o in os ==> Resolves(names, catalog, selected, about, Requests(os), o)
  {
    hide Offers, GoodOffer, ValidLine, Requests, Wanted;
    var os := Offers(names, catalog, selected, about, |catalog|);
    OfferIdsDistinct(names, catalog, selected, about);
    OffersGood(names, catalog, selected, about, |catalog|);
    forall o | o in os ensures Resolves(names, catalog, selected, about, Requests(os), o) {
      var i :| 0 <= i < |os| && os[i] == o;
      RequestHeld(os, i);
      var n :| 0 <= n < |catalog| && GoodOffer(names, catalog, selected, about, o, n);
      GoodOfferPlays(names, catalog, selected, about, o, n);
    }
  }

  ghost predicate Resolves(names: Names, catalog: seq<Line>, selected: Selection, about: Details,
                           requests: map<string, Selection>, o: Offer) {
    && o.candidate.id in requests && requests[o.candidate.id] == o.selection
    && Wanted(catalog, o.selection).Some?
    && exists i :: 0 <= i < |catalog| && GoodOffer(names, catalog, selected, about, o, i)
  }

  lemma GoodOfferPlays(names: Names, catalog: seq<Line>, selected: Selection, about: Details, o: Offer, i: nat)
    requires ValidCatalog(catalog) && GoodOffer(names, catalog, selected, about, o, i)
    ensures Wanted(catalog, o.selection).Some?
  {
    hide Continues, CandidateId, ValidLine;
    LineFound(catalog, i);
  }

  lemma LineFound(catalog: seq<Line>, i: nat)
    requires ValidCatalog(catalog) && i < |catalog|
    ensures FindLine(catalog, catalog[i].index) == Some(catalog[i])
  {
    hide ValidLine;
    var found := FindLine(catalog, catalog[i].index);
    assert catalog[i] in catalog;
    var j :| 0 <= j < |catalog| && catalog[j] == found.value;
  }

  /** Exactly the lines are offered that can be continued without doubt. */
  lemma OfferedIff(names: Names, catalog: seq<Line>, selected: Selection, about: Details, i: nat)
    requires ValidCatalog(catalog) && i < |catalog|
    ensures (exists o :: o in Offers(names, catalog, selected, about, |catalog|)
                         && o.selection.lineIndex == catalog[i].index)
            <==> catalog[i].index != selected.lineIndex && Wanted(catalog, selected).Some?
                 && exists k :: Continues(names, catalog, Wanted(catalog, selected).value.name, catalog[i], k, about)
  {
    hide SameEpisode, Meant, Choose, Offers, OfferOf, Continues, ValidLine;
    var os := Offers(names, catalog, selected, about, |catalog|);
    if o :| o in os && o.selection.lineIndex == catalog[i].index {
      OffersGood(names, catalog, selected, about, |catalog|);
      var j :| 0 <= j < |catalog| && GoodOffer(names, catalog, selected, about, o, j);
      assert j == i;
    }
    if catalog[i].index != selected.lineIndex && Wanted(catalog, selected).Some? {
      if k :| Continues(names, catalog, Wanted(catalog, selected).value.name, catalog[i], k, about) {
        OfferMade(names, catalog, selected, about, i, k);
        OffersInclude(names, catalog, selected, about, |catalog|, i);
      }
    }
  }

  lemma OfferMade(names: Names, catalog: seq<Line>, selected: Selection, about: Details, i: nat, k: nat)
    requires ValidCatalog(catalog) && i < |catalog| && catalog[i].index != selected.lineIndex
    requires Wanted(catalog, selected).Some?
    requires Continues(names, catalog, Wanted(catalog, selected).value.name, catalog[i], k, about)
    ensures OfferOf(names, catalog, selected, catalog[i], about).Some?
    ensures OfferOf(names, catalog, selected, catalog[i], about).value.selection.lineIndex == catalog[i].index
  {
    hide SameEpisode, Meant, Recovered, CandidateId;
    assert catalog[i] in catalog && ValidLine(catalog[i]);
    RecoveredIff(names, catalog, selected, catalog[i], about, k);
    var line := FindLine(catalog, selected.lineIndex).value;
    assert line in catalog && ValidLine(line);
    assert line.episodes[selected.episodeIndex] in line.episodes;
    assert catalog[i] in [catalog[i]];
  }

  lemma {:induction false} OffersInclude(names: Names, catalog: seq<Line>, selected: Selection, about: Details,
                                         n: nat, i: nat)
    requires i < n <= |catalog| && OfferOf(names, catalog, selected, catalog[i], about).Some?
    ensures OfferOf(names, catalog, selected, catalog[i], about).value in Offers(names, catalog, selected, about, n)
  {
    hide OfferOf;
    if i < n - 1 {
      OffersInclude(names, catalog, selected, about, n - 1, i);
    }
  }

  /** So an attempt at an offered candidate finds its request, and an episode to play. */
  lemma CandidatesPlay(names: Names, catalog: seq<Line>, selected: Selection, about: Details)
    requires ValidCatalog(catalog)
    ensures var os := Offers(names, catalog, selected, about, |catalog|);
            forall c :: c in Candidates(os) ==> Plays(catalog, selected, Requests(os), c)
  {
    hide Offers, ValidCatalog, Requests, Wanted, Continues;
    var os := Offers(names, catalog, selected, about, |catalog|);
    CandidatesResolve(names, catalog, selected, about);
    forall c | c in Candidates(os) ensures Plays(catalog, selected, Requests(os), c) {
      var k :| 0 <= k < |os| && os[k].candidate == c;
      assert os[k] in os;
    }
  }

  /** The candidate has a request, for an episode that playing finds, on another line. */
  predicate Plays(catalog: seq<Line>, selected: Selection, requests: map<string, Selection>, c: Candidate) {
    c.id in requests && Wanted(catalog, requests[c.id]).Some? && requests[c.id].lineIndex != selected.lineIndex
  }

  /** For any two playlist strings: whatever is offered for the catalog read from them can be
      attempted and played. */
  lemma EveryOfferPlays(labels: Labels, playFrom: string, playUrl: string, handoff: bool,
                        names: Names, selected: Selection, about: Details)
    requires Catalog(labels, playFrom, playUrl, handoff).Some?
    ensures var catalog := Catalog(labels, playFrom, playUrl, handoff).value;
            var os := Offers(names, catalog, selected, about, |catalog|);
            DistinctIds(os) && forall c :: c in Candidates(os) ==> Plays(catalog, selected, Requests(os), c)
  {
    hide Catalog, Offers, ValidCatalog, Requests, Wanted, Candidates, DistinctIds;
    CatalogIsValid(labels, playFrom, playUrl, handoff);
    var catalog := Catalog(labels, playFrom, playUrl, handoff).value;
    OfferIdsDistinct(names, catalog, selected, about);
    CandidatesPlay(names, catalog, selected, about);
  }

  // ------------------------------------------------------------------ the object

  class Fallback {
    var requests: map<string, Selection>
    // what was offered last, for which catalog and selection
    ghost var offered: seq<Candidate>
    ghost var catalog: seq<Line>
    ghost var selected: Selection

    constructor ()
      ensures Valid() && requests == map[] && offered == []
    {
      requests, offered, catalog := map[], [], [];
    }

    /** Whatever is on offer for a catalog as it is read can be played. */
    ghost predicate Valid()
      reads this
    {
      ValidCatalog(catalog) ==> forall c :: c in offered ==> Plays(catalog, selected, requests, c)
    }

    /** `beginPlaybackFallback`: new candidates, and a new request for each. */
    method Begin(names: Names, catalog: seq<Line>, selected: Selection, about: Details)
      returns (candidates: seq<Candidate>)
      modifies this
      ensures var os := Offers(names, catalog, selected, about, |catalog|);
              candidates == Candidates(os) && requests == Requests(os)
      ensures Valid() && offered == candidates && this.catalog == catalog && this.selected == selected
    {
      hide HasEpisode, CandidateId, Recovered, ValidCatalog, Plays, Candidates, Requests, FindLine, Decimal;
      NoOffers();
      var made: map<string, Selection> := map[];
      candidates := [];
      var currentLine := FindLine(catalog, selected.lineIndex);
      for n := 0 to |catalog|
        invariant var os := Offers(names, catalog, selected, about, n);
                  candidates == Candidates(os) && made == Requests(os)
      {
        var line := catalog[n];
        ghost var before := Offers(names, catalog, selected, about, n);
        assert before + [] == before;
        if !HasEpisode(currentLine, selected.episodeIndex) || line.index == selected.lineIndex {
          continue;
        }
        var found := RecoverySelection(names, catalog, selected, [line], about);
        if found.None? || found.value.episodeIndex >= |line.episodes| {
          continue;
        }
        var episode := line.episodes[found.value.episodeIndex];
        var id := CandidateId(line.index, episode.index);
        made := made[id := Selection(line.index, episode.index)];
        var candidate := Candidate(id, line.name + " · " + episode.name, Decimal(line.index));
        candidates := candidates + [candidate];
        ghost var offer := Offer(candidate, Selection(line.index, episode.index));
        AppendOffer(before, offer);
      }
      requests := made;
      offered := candidates;
      this.catalog := catalog;
      this.selected := selected;
      if ValidCatalog(catalog) {
        CandidatesPlay(names, catalog, selected, about);
      }
    }

    /** `playbackFallbackRequests.clear()`: nothing is on offer any more. */
    method Clear()
      modifies this
      ensures Valid() && offered == [] && requests == map[]
    {
      requests, offered := map[], [];
    }

    /** `attemptPlaybackFallback`: a candidate on offer is never unavailable, and what is
        attempted is an episode that playing finds, on another line. Every catalog that is read
        is valid. */
    method Attempt(candidate: Candidate) returns (r: Option<Selection>)
      requires Valid()
      ensures ValidCatalog(catalog) && candidate in offered ==>
                r.Some? && Wanted(catalog, r.value).Some? && r.value.lineIndex != selected.lineIndex
      ensures r.None? <==> candidate.id !in requests
      ensures r.Some? ==> r.value == requests[candidate.id]
    {
      r := if candidate.id in requests then Some(requests[candidate.id]) else None;
    }
  }

  lemma NoOffers()
    ensures Candidates([]) == [] && Requests([]) == map[]
  {
  }

  lemma AppendOffer(os: seq<Offer>, o: Offer)
    ensures Candidates(os + [o]) == Candidates(os) + [o.candidate]
    ensures Requests(os + [o]) == Requests(os)[o.candidate.id := o.selection]
  {
    assert (os + [o])[..|os|] == os;
  }
}
