/** Which subtitle files are accepted and what becomes of each, for any text: every time stamp,
    timing line, block and file is characterised from both sides. */
module SubtitleAccepted {
  import opened Options
  import opened Strings
  import opened SubtitleTime
  import opened Subtitles

  // ------------------------------------------------------------------ time stamps

  ghost predicate Digits(s: string, n: nat) { |s| == n && AllDigits(s) }

  /** The four fields as they are written, one to three digits first and last. */
  ghost predicate Spelled(s: string, f: Fields) {
    && (Digits(f.first, 1) || Digits(f.first, 2) || Digits(f.first, 3)) && Digits(f.second, 2)
    && (f.third.Some? ==> Digits(f.third.value, 2))
    && (Digits(f.fraction, 1) || Digits(f.fraction, 2) || Digits(f.fraction, 3))
    && exists point :: point in ".,"
         && s == f.first + ":" + f.second + (if f.third.Some? then ":" + f.third.value else "") + [point] + f.fraction
  }

  lemma MatchIff(s: string, f: Fields)
    ensures MatchTimestamp(s) == Some(f) <==> Spelled(s, f)
  {
    if Spelled(s, f) {
      var point :| point in ".,"
        && s == f.first + ":" + f.second + (if f.third.Some? then ":" + f.third.value else "") + [point] + f.fraction;
      if f.third.Some? {
        assert s == f.first + ":" + f.second + ":" + f.third.value + [point] + f.fraction;
        MatchFullTimestamp(f.first, f.second, f.third.value, point, f.fraction);
      } else {
        assert s == f.first + ":" + f.second + [point] + f.fraction;
        MatchTwoFields(f.first, f.second, point, f.fraction);
      }
    }
    if MatchTimestamp(s) == Some(f) {
      MatchedIsSpelled(s, f);
    }
  }

  lemma TwoPieces(s: string, a: nat, c: nat)
    requires a < c < |s| && s[a] == ':'
    ensures s == s[0..a] + ":" + s[a + 1..c] + "" + [s[c]] + s[c + 1..|s|]
  {
  }

  lemma ThreePieces(s: string, a: nat, b: nat, c: nat)
    requires a < b < c < |s| && s[a] == ':' && s[b] == ':'
    ensures s == s[0..a] + ":" + s[a + 1..b] + (":" + s[b + 1..c]) + [s[c]] + s[c + 1..|s|]
  {
    TwoPieces(s, a, b);
    TwoPieces(s, b, c);
  }

  lemma MatchedIsSpelled(s: string, f: Fields)
    requires MatchTimestamp(s) == Some(f)
    ensures Spelled(s, f)
  {
    hide AllDigits;
    var a := DigitRun(s, 0);
    var b := DigitRun(s, a + 1);
    hide DigitRun;
    if s[b] == ':' {
      var c := DigitRun(s, b + 1);
      ThreePieces(s, a, b, c);
      assert [s[c]] == "." || [s[c]] == ",";
      assert s[c] in ".,";
    } else {
      TwoPieces(s, a, b);
      assert s[b] in ".,";
    }
  }

  /** A time stamp is made of digits, colons and a point, so it holds no white space. */
  lemma SpelledIsWord(s: string, f: Fields)
    requires Spelled(s, f)
    ensures s != "" && NoSpaces(s)
  {
    hide IsSpace;
    StampCharacters();
    var point :| point in ".,"
      && s == f.first + ":" + f.second + (if f.third.Some? then ":" + f.third.value else "") + [point] + f.fraction;
    forall k | 0 <= k < |s| ensures !IsSpace(s[k]) {
      assert IsDigit(s[k]) || s[k] in ":.,";
    }
  }

  lemma StampCharacters()
    ensures forall c :: IsDigit(c) || c in ":.," ==> !IsSpace(c)
  {
  }

  // ----------------------------------------------------------------- timing lines

  ghost predicate IsWord(s: string) { s != "" && NoSpaces(s) }

  ghost predicate IsGap(s: string) { s != "" && OnlySpaces(s) }

  /** What may follow the second time stamp: nothing, or white space and then text on one line. */
  ghost predicate MayFollow(rest: string) {
    rest == ""
    || exists gap, text ::
         rest == gap + text && IsGap(gap) && forall k :: 0 <= k < |text| ==> !IsLineTerminator(text[k])
  }

  /** From `i` to `j` and from `n` to `e` stand words, around an arrow at `m` that white space
      sets apart. */
  ghost predicate Parted(line: string, i: nat, j: nat, m: nat, n: nat, e: nat) {
    && i <= j <= m && m + 3 <= n <= e <= |line|
    && OnlySpaces(line[..i]) && IsWord(line[i..j]) && IsGap(line[j..m]) && line[m..m + 3] == "-->"
    && IsGap(line[m + 3..n]) && IsWord(line[n..e]) && MayFollow(line[e..])
  }

  /** The words around the arrow of a line. */
  ghost predicate Around(line: string, a: string, b: string) {
    exists i: nat, j: nat, m: nat, n: nat, e: nat :: Parted(line, i, j, m, n, e) && a == line[i..j] && b == line[n..e]
  }

  lemma {:induction false} SkippedSpaces(s: string, i: nat)
    requires i <= |s|
    ensures OnlySpaces(s[i..SkipSpaces(s, i)])
    decreases |s| - i
  {
    hide IsSpace;
    if i < |s| && IsSpace(s[i]) {
      SkippedSpaces(s, i + 1);
      var j := SkipSpaces(s, i);
      assert s[i..j] == [s[i]] + s[i + 1..j];
    }
  }

  lemma {:induction false} SkippedWord(s: string, i: nat)
    requires i <= |s|
    ensures NoSpaces(s[i..SkipWord(s, i)])
    decreases |s| - i
  {
    hide IsSpace;
    if i < |s| && !IsSpace(s[i]) {
      SkippedWord(s, i + 1);
      var j := SkipWord(s, i);
      assert s[i..j] == [s[i]] + s[i + 1..j];
    }
  }

  lemma {:induction false} FirstArrow(s: string, i: nat)
    ensures FindArrow(s, i).Some? ==> forall k :: i <= k < FindArrow(s, i).value ==> !ArrowAt(s, k)
    decreases |s| - i
  {
    hide ArrowAt;
    if i < |s| && !ArrowAt(s, i) {
      FirstArrow(s, i + 1);
    }
  }

  lemma {:induction false} SpacesEnd(s: string, i: nat, j: nat)
    requires i <= j <= |s| && OnlySpaces(s[i..j])
    ensures SkipSpaces(s, i) == SkipSpaces(s, j)
    decreases j - i
  {
    hide IsSpace;
    if i < j {
      assert s[i] == s[i..j][0];
      assert s[i + 1..j] == s[i..j][1..];
      SpacesEnd(s, i + 1, j);
    }
  }

  /** A time stamp that white space does not touch at its ends holds none. */
  lemma StampIsWord(a: string, f: Fields)
    requires MatchTimestamp(Trim(a)) == Some(f) && a != "" && !IsSpace(a[0]) && !IsSpace(a[|a| - 1])
    ensures IsWord(a)
  {
    hide IsSpace, MatchTimestamp, Trim, Spelled;
    TrimNothing(a);
    MatchIff(a, f);
    SpelledIsWord(a, f);
  }

  lemma StampIsText(a: string, f: Fields)
    requires MatchTimestamp(Trim(a)) == Some(f)
    ensures a != ""
  {
    hide MatchTimestamp, Trim;
    EmptyIsNoStamp();
  }

  lemma EmptyIsNoStamp()
    ensures MatchTimestamp(Trim("")) == None
  {
    assert Trim("") == "";
    assert DigitRun("", 0) == 0;
  }

  lemma RestFollows(line: string, e: nat)
    requires e <= |line| && (e < |line| ==> IsSpace(line[e]))
    requires forall n :: SkipSpaces(line, e) <= n < |line| ==> !IsLineTerminator(line[n])
    ensures MayFollow(line[e..])
  {
    hide IsSpace, IsLineTerminator;
    var r := SkipSpaces(line, e);
    SkippedSpaces(line, e);
    assert line[e..] == line[e..r] + line[r..];
  }

  /** The first word ends where the white space before the arrow begins. */
  lemma ArrowFirst(line: string, k: nat, j: nat)
    requires FindArrow(line, k) == Some(j) && k < j
    ensures j < |line| && !IsSpace(line[j - 1])
  {
    hide IsSpace;
    FirstArrow(line, k);
    assert ArrowAt(line, j) && !ArrowAt(line, j - 1);
  }

  /** Where the parts of a matched line lie. */
  lemma MatchLies(line: string) returns (i: nat, j: nat, m: nat, n: nat, e: nat)
    requires MatchTiming(line).Some?
    ensures i <= j < m && m + 3 < n <= e <= |line| && line[m..m + 3] == "-->" && !IsSpace(line[i])
    ensures MatchTiming(line) == Some((line[i..j], line[n..e])) && FindArrow(line, i) == Some(j)
    ensures i == SkipSpaces(line, 0) && m == SkipSpaces(line, j) && n == SkipSpaces(line, m + 3)
    ensures e == SkipWord(line, n)
    ensures forall k :: SkipSpaces(line, e) <= k < |line| ==> !IsLineTerminator(line[k])
  {
    hide IsSpace, IsLineTerminator;
    i := SkipSpaces(line, 0);
    j := FindArrow(line, i).value;
    m := SkipSpaces(line, j);
    n := SkipSpaces(line, m + 3);
    e := SkipWord(line, n);
  }

  /** The two groups that are matched stand around the arrow, when they are time stamps. */
  lemma MatchedAround(line: string, a: string, b: string, f: Fields, g: Fields)
    requires MatchTiming(line) == Some((a, b))
    requires MatchTimestamp(Trim(a)) == Some(f) && MatchTimestamp(Trim(b)) == Some(g)
    ensures Around(line, a, b)
  {
    hide IsSpace, MatchTimestamp, IsLineTerminator, Trim, MayFollow, MatchTiming, FindArrow, SkipSpaces, SkipWord;
    var i, j, m, n, e := MatchLies(line);
    SkippedSpaces(line, 0);
    SkippedSpaces(line, j);
    SkippedSpaces(line, m + 3);
    SkippedWord(line, n);
    StampIsText(a, f);
    StampIsText(b, g);
    ArrowFirst(line, i, j);
    assert a[0] == line[i] && a[|a| - 1] == line[j - 1];
    StampIsWord(a, f);
    RestFollows(line, e);
    assert line[..i] == line[0..i];
    assert Parted(line, i, j, m, n, e);
  }

  lemma MatchAt(line: string, k: nat, j: nat, m: nat, q: nat, e: nat)
    requires k <= j <= m && m + 3 <= q <= e <= |line|
    requires SkipSpaces(line, 0) == k && FindArrow(line, k) == Some(j) && SkipSpaces(line, j) == m
    requires SkipSpaces(line, m + 3) == q && SkipWord(line, q) == e
    requires forall n :: SkipSpaces(line, e) <= n < |line| ==> !IsLineTerminator(line[n])
    ensures MatchTiming(line) == Some((line[k..j], line[q..e]))
  {
    hide SkipSpaces, FindArrow, SkipWord, IsLineTerminator;
  }

  lemma WordStops(line: string, i: nat, j: nat)
    requires i <= j <= |line| && NoSpaces(line[i..j]) && (j < |line| ==> IsSpace(line[j]))
    ensures SkipWord(line, i) == j
    ensures forall k :: i <= k < j ==> !IsSpace(line[k])
  {
    hide IsSpace;
    assert forall k :: i <= k < j ==> line[k] == line[i..j][k - i];
    WordEnds(line, i, j);
  }

  lemma FirstOf(s: string, i: nat, j: nat)
    requires i <= j <= |s|
    ensures IsWord(s[i..j]) ==> i < j && !IsSpace(s[i])
    ensures IsGap(s[i..j]) ==> i < j && IsSpace(s[i])
  {
    hide IsSpace;
    assert i < j ==> s[i] == s[i..j][0];
  }

  lemma ArrowStands(line: string, j: nat, m: nat)
    requires j < |line| && IsSpace(line[j]) && SkipSpaces(line, j) == m
    requires m + 3 < |line| && line[m..m + 3] == "-->" && IsSpace(line[m + 3])
    ensures ArrowAt(line, j)
  {
  }

  lemma PartedMatched(line: string, i: nat, j: nat, m: nat, n: nat, e: nat)
    requires Parted(line, i, j, m, n, e)
    ensures MatchTiming(line) == Some((line[i..j], line[n..e]))
  {
    hide IsSpace, IsLineTerminator, MayFollow, MatchTiming, SkipSpaces, SkipWord, FindArrow, ArrowAt;
    FirstOf(line, i, j);
    FirstOf(line, j, m);
    FirstOf(line, m + 3, n);
    FirstOf(line, n, e);
    MinusIsText();
    assert line[m] == line[m..m + 3][0];
    assert line[..i] == line[0..i];
    SpacesStop(line, 0, i);
    SpacesStop(line, j, m);
    SpacesStop(line, m + 3, n);
    ArrowStands(line, j, m);
    WordStops(line, i, j);
    NoArrowBefore(line, i, j);
    if e < |line| {
      FollowStart(line[e..]);
    }
    WordStops(line, n, e);
    RestFits(line, e);
    MatchAt(line, i, j, m, n, e);
  }

  lemma MinusIsText()
    ensures !IsSpace('-')
  {
  }

  lemma SpacesStop(s: string, i: nat, j: nat)
    requires i <= j < |s| && OnlySpaces(s[i..j]) && !IsSpace(s[j])
    ensures SkipSpaces(s, i) == j
  {
    SpacesEnd(s, i, j);
  }

  lemma FollowStart(rest: string)
    requires MayFollow(rest) && rest != ""
    ensures IsSpace(rest[0])
  {
    hide IsSpace, IsLineTerminator;
  }

  lemma RestFits(line: string, e: nat)
    requires e <= |line| && MayFollow(line[e..])
    ensures forall n :: SkipSpaces(line, e) <= n < |line| ==> !IsLineTerminator(line[n])
  {
    hide IsSpace, IsLineTerminator;
    var rest := line[e..];
    if rest != "" {
      var gap, text :| rest == gap + text && IsGap(gap)
                       && forall k :: 0 <= k < |text| ==> !IsLineTerminator(text[k]);
      assert line[e..e + |gap|] == gap;
      SpacesEnd(line, e, e + |gap|);
      forall n | SkipSpaces(line, e) <= n < |line| ensures !IsLineTerminator(line[n]) {
        assert line[n] == rest[n - e] == text[n - e - |gap|];
      }
    }
  }

  lemma AroundMatched(line: string, a: string, b: string)
    requires Around(line, a, b)
    ensures MatchTiming(line) == Some((a, b))
  {
    hide IsWord, IsGap, MayFollow, OnlySpaces, MatchTiming;
    var i: nat, j: nat, m: nat, n: nat, e: nat :|
      Parted(line, i, j, m, n, e) && i <= j <= |line| && n <= e <= |line| && a == line[i..j] && b == line[n..e];
    PartedMatched(line, i, j, m, n, e);
  }

  /** A timing line is accepted exactly when it is two time stamps, the second later than the
      first, around an arrow with white space on both sides. */
  lemma TimingIff(line: string, format: Format, t: Timing)
    ensures ParseTimingLine(line, format) == Some(t)
            <==> t.startMs < t.endMs
                 && exists a, b :: Around(line, a, b) && ParseStandardTimestamp(a, format) == Some(t.startMs)
                                   && ParseStandardTimestamp(b, format) == Some(t.endMs)
  {
    hide Around, MatchTiming, ParseStandardTimestamp;
    if ParseTimingLine(line, format) == Some(t) {
      var (a, b) := MatchTiming(line).value;
      var f := StampMatches(a, format);
      var g := StampMatches(b, format);
      MatchedAround(line, a, b, f, g);
    }
    if a, b :| Around(line, a, b) && ParseStandardTimestamp(a, format) == Some(t.startMs)
               && ParseStandardTimestamp(b, format) == Some(t.endMs) {
      AroundMatched(line, a, b);
    }
  }

  lemma StampMatches(s: string, format: Format) returns (f: Fields)
    requires ParseStandardTimestamp(s, format).Some?
    ensures MatchTimestamp(Trim(s)) == Some(f)
  {
    hide MatchTimestamp, Trim, NumberOf;
    f := MatchTimestamp(Trim(s)).value;
  }
}
