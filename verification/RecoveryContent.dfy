/** When two details are the same content, and what that means for the lines a failed playback
    may continue with: there a detail is compared with itself. */
module RecoveryContent {
  import opened Options
  import opened Strings
  import opened EpisodeOrder
  import opened PlaybackCatalog
  import opened Recovery
  import TextOrder

  /** The fields of a detail as texts; `None` stands for a missing one. */
  datatype Vod = Vod(
    vodName: Option<string>, title: Option<string>,
    vodYear: Option<string>, year: Option<string>,
    vodSeason: Option<string>, season: Option<string>,
    typeName: Option<string>, kind: Option<string>, vodClass: Option<string>)

  /** Text normalisation, and the season that a title names. */
  datatype Texts = Texts(normal: string -> string, seasonIn: string -> Option<string>)

  /** `a ?? b` */
  function Or(a: Option<string>, b: Option<string>): Option<string> { if a.Some? then a else b }

  /** `String(a ?? "")` */
  function Text(a: Option<string>): string { match a { case Some(text) => text case None => "" } }

  function TitleOf(v: Vod): string { Text(Or(v.vodName, v.title)) }

  function YearOf(v: Vod): string { Text(Or(v.vodYear, v.year)) }

  function SeasonOf(t: Texts, v: Vod): string {
    t.normal(Text(Or(Or(v.vodSeason, v.season), t.seasonIn(TitleOf(v)))))
  }

  /** Which fields count: `vod_` names first, and for the season at last the title. */
  lemma FieldsAre(t: Texts, v: Vod)
    ensures v.vodName.Some? ==> TitleOf(v) == v.vodName.value
    ensures v.vodName.None? && v.title.Some? ==> TitleOf(v) == v.title.value
    ensures v.vodYear.Some? ==> YearOf(v) == v.vodYear.value
    ensures v.vodYear.None? && v.year.Some? ==> YearOf(v) == v.year.value
    ensures v.vodSeason.Some? ==> SeasonOf(t, v) == t.normal(v.vodSeason.value)
    ensures v.vodSeason.None? && v.season.Some? ==> SeasonOf(t, v) == t.normal(v.season.value)
    ensures v.vodSeason.None? && v.season.None? ==>
              SeasonOf(t, v) == t.normal(match t.seasonIn(TitleOf(v)) { case Some(text) => text case None => "" })
  {
  }

  /** `/^(?:19|20)\d{2}$/` */
  predicate YearLike(s: string) {
    |s| == 4 && (s[..2] == "19" || s[..2] == "20") && IsDigit(s[2]) && IsDigit(s[3])
  }

  /** A year of the last or of this century. */
  lemma YearLikeIff(s: string)
    ensures YearLike(s) <==> |s| == 4 && AllDigits(s) && 1900 <= NumberOf(s) < 2100
  {
    if |s| == 4 && AllDigits(s) {
      FourDigits(s);
    }
  }

  lemma FourDigits(s: string)
    requires |s| == 4 && AllDigits(s)
    ensures NumberOf(s) == 1000 * (s[0] as int - '0' as int) + 100 * (s[1] as int - '0' as int)
                           + 10 * (s[2] as int - '0' as int) + (s[3] as int - '0' as int)
  {
    var a, b, c := s[..1], s[..2], s[..3];
    assert c[..2] == b && b[..1] == a && a[..0] == "";
    assert NumberOf(a) == s[0] as int - '0' as int;
    assert NumberOf(b) == 10 * NumberOf(a) + (s[1] as int - '0' as int);
    assert NumberOf(c) == 10 * NumberOf(b) + (s[2] as int - '0' as int);
  }

  predicate SameContent(t: Texts, left: Vod, right: Vod) {
    var title := t.normal(TitleOf(left));
    if title == "" || title != t.normal(TitleOf(right)) then false
    else if !YearLike(YearOf(left)) || YearOf(left) != YearOf(right) then false
    else SeasonOf(t, left) == SeasonOf(t, right)
  }

  /** The detail can be told apart at all. */
  predicate Identified(t: Texts, v: Vod) { t.normal(TitleOf(v)) != "" && YearLike(YearOf(v)) }

  /** Two details are the same content exactly when both can be told apart and agree in title,
      year and season; so one is the same as itself only when it can be told apart. */
  lemma SameContentIff(t: Texts, left: Vod, right: Vod)
    ensures SameContent(t, left, right)
            <==> && Identified(t, left) && Identified(t, right)
                 && t.normal(TitleOf(left)) == t.normal(TitleOf(right))
                 && YearOf(left) == YearOf(right) && SeasonOf(t, left) == SeasonOf(t, right)
    ensures SameContent(t, left, left) <==> Identified(t, left)
  {
  }

  // ------------------------------------------------------- what a failed playback gets

  /** `/电影|movie/i` */
  predicate NamesMovie(s: string) { TextOrder.Contains(TextOrder.Lower(s), "movie") || TextOrder.Contains(s, "电影") }

  /** The text holds one of the two words, the Latin one in any case. */
  lemma NamesMovieIff(s: string)
    ensures NamesMovie(s) <==> exists a, w, b :: s == a + w + b && (w == "电影" || TextOrder.Lower(w) == "movie")
  {
    var lower := TextOrder.Lower(s);
    if TextOrder.Contains(lower, "movie") {
      var i :| 0 <= i <= |s| - 5 && TextOrder.StandsAt(lower, "movie", i);
      assert TextOrder.Lower(s[i..i + 5]) == lower[i..i + 5];
      assert s == s[..i] + s[i..i + 5] + s[i + 5..];
    }
    if TextOrder.Contains(s, "电影") {
      var i :| 0 <= i <= |s| - 2 && TextOrder.StandsAt(s, "电影", i);
      assert s == s[..i] + s[i..i + 2] + s[i + 2..];
    }
    if a, w, b :| s == a + w + b && (w == "电影" || TextOrder.Lower(w) == "movie") {
      assert s[|a|..|a| + |w|] == w;
      if w == "电影" {
        assert TextOrder.StandsAt(s, w, |a|);
      } else {
        assert lower[|a|..|a| + 5] == TextOrder.Lower(w);
        assert TextOrder.StandsAt(lower, "movie", |a|);
      }
    }
  }

  /** The rule for the lines of one detail asks the class too. */
  predicate IsMovie(v: Vod) { NamesMovie(Text(Or(Or(v.typeName, v.kind), v.vodClass))) }

  /** The rule for differing labels asks the type alone. */
  predicate TypeIsMovie(v: Vod) { NamesMovie(Text(Or(v.typeName, v.kind))) }

  /** What the search of a line is told: the detail on both sides if it is a movie. */
  function LineDetails(t: Texts, detail: Option<Vod>): Details {
    if detail.Some? && IsMovie(detail.value)
    then Details(SameContent(t, detail.value, detail.value), TypeIsMovie(detail.value))
    else Unknown
  }

  /** What line `i` needs to be offered, the detail being set aside. */
  ghost predicate CanContinue(names: Names, catalog: seq<Line>, selected: Selection, i: nat, soleEpisodes: bool)
    requires i < |catalog|
  {
    && catalog[i].index != selected.lineIndex && Wanted(catalog, selected).Some?
    && var wanted := Wanted(catalog, selected).value.name;
       || (exists k :: OnlyMatch(names, wanted, catalog[i].episodes, k))
       || (soleEpisodes && !AnyMatch(names, wanted, catalog[i].episodes)
           && OneEach(catalog) && OneEach([catalog[i]]))
  }

  ghost predicate IsOffered(names: Names, catalog: seq<Line>, selected: Selection, about: Details, i: nat)
    requires i < |catalog|
  {
    exists o :: o in Offers(names, catalog, selected, about, |catalog|) && o.selection.lineIndex == catalog[i].index
  }

  /** A line is offered exactly when it can be continued, by sole episodes only if the type of
      the detail says movie; but none of a movie whose detail lacks a title or a year. */
  lemma LineOfferedIff(t: Texts, detail: Option<Vod>, names: Names, catalog: seq<Line>, selected: Selection, i: nat)
    requires ValidCatalog(catalog) && i < |catalog|
    ensures IsOffered(names, catalog, selected, LineDetails(t, detail), i)
            <==> var movie := detail.Some? && IsMovie(detail.value);
                 && (movie ==> Identified(t, detail.value))
                 && CanContinue(names, catalog, selected, i, movie && TypeIsMovie(detail.value))
  {
    hide ValidCatalog, SameEpisode, Offers, NamesMovie, SameContent, Identified, OneEach, Wanted;
    var about := LineDetails(t, detail);
    OfferedIff(names, catalog, selected, about, i);
    if detail.Some? {
      SameContentIff(t, detail.value, detail.value);
    }
    if catalog[i].index != selected.lineIndex && Wanted(catalog, selected).Some? {
      var wanted := Wanted(catalog, selected).value.name;
      if CanContinue(names, catalog, selected, i, about.Details? && about.movie) && (about.Details? ==> about.same) {
        if k :| OnlyMatch(names, wanted, catalog[i].episodes, k) {
          assert Continues(names, catalog, wanted, catalog[i], k, about);
        } else {
          assert Continues(names, catalog, wanted, catalog[i], 0, about);
        }
      }
      if k :| Continues(names, catalog, wanted, catalog[i], k, about) {
        assert OnlyMatch(names, wanted, catalog[i].episodes, k) || MovieRule(catalog, [catalog[i]], about);
      }
    }
  }

  /** So a movie without a title or a year is offered nothing at all, even a line whose episode
      has the very same name. */
  lemma UnidentifiedMovieGetsNothing(t: Texts, v: Vod, names: Names, catalog: seq<Line>, selected: Selection)
    requires ValidCatalog(catalog) && IsMovie(v) && !Identified(t, v)
    ensures Offers(names, catalog, selected, LineDetails(t, Some(v)), |catalog|) == []
  {
    hide ValidCatalog, IsMovie, Identified, Offers, Continues, CandidateId;
    var os := Offers(names, catalog, selected, LineDetails(t, Some(v)), |catalog|);
    if os != [] {
      OffersGood(names, catalog, selected, LineDetails(t, Some(v)), |catalog|);
      assert os[0] in os;
      var i :| 0 <= i < |catalog| && GoodOffer(names, catalog, selected, LineDetails(t, Some(v)), os[0], i);
      assert IsOffered(names, catalog, selected, LineDetails(t, Some(v)), i);
      LineOfferedIff(t, Some(v), names, catalog, selected, i);
    }
  }

  /** Two lines with one episode of the same name: nothing is offered for a movie without a
      year, and the other line for the same detail once its type is not given. */
  lemma YearDecides(t: Texts, names: Names)
    ensures var v := Vod(Some("A"), None, None, None, None, None, Some("电影"), None, None);
            var catalog := [Line(0, "a", false, [Episode(0, "1", "u")]), Line(1, "b", false, [Episode(0, "1", "w")])];
            && Offers(names, catalog, Selection(0, 0), LineDetails(t, Some(v)), 2) == []
            && IsOffered(names, catalog, Selection(0, 0), LineDetails(t, Some(v.(typeName := None))), 1)
  {
    hide SameEpisode, Offers, IsOffered;
    var v := Vod(Some("A"), None, None, None, None, None, Some("电影"), None, None);
    var line, other := Line(0, "a", false, [Episode(0, "1", "u")]), Line(1, "b", false, [Episode(0, "1", "w")]);
    var catalog := [line, other];
    assert ValidLine(line) && ValidLine(other);
    assert ValidCatalog(catalog);
    MovieNames();
    UnidentifiedMovieGetsNothing(t, v, names, catalog, Selection(0, 0));
    LineOfferedIff(t, Some(v.(typeName := None)), names, catalog, Selection(0, 0), 1);
    assert Wanted(catalog, Selection(0, 0)) == Some(line.episodes[0]);
    assert OnlyMatch(names, "1", other.episodes, 0);
  }

  lemma MovieNames()
    ensures NamesMovie("电影") && !NamesMovie("")
  {
    assert TextOrder.StandsAt("电影", "电影", 0);
  }
}
