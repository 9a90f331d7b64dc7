/** Strings as sequences of characters: splitting, joining, trimming, replacing, decimal
    numbers. */
module Strings {

  lemma HeadTail(s: string)
    requires s != ""
    ensures [s[0]] + s[1..] == s
  {
  }

  lemma Regroup(a: string, b: string, c: string)
    ensures a + (b + c) == a + b + c
  {
  }

  // ------------------------------------------------------------ split, join

  /** `s.split(c)` for one character. */
  function Split(s: string, c: char): (parts: seq<string>)
    ensures |parts| > 0
  {
    if s == "" then [""]
    else if s[0] == c then [""] + Split(s[1..], c)
    else
      var rest := Split(s[1..], c);
      [[s[0]] + rest[0]] + rest[1..]
  }

  /** `parts.join(sep)` */
  function Join(parts: seq<string>, sep: string): string {
    if parts == [] then ""
    else if |parts| == 1 then parts[0]
    else parts[0] + sep + Join(parts[1..], sep)
  }

  lemma {:induction false} SplitAfter(s: string, rest: string, c: char)
    requires c !in s
    ensures Split(s + [c] + rest, c) == [s] + Split(rest, c)
  {
    if s == "" {
      assert s + [c] + rest == [c] + rest;
    } else {
      SplitAfter(s[1..], rest, c);
      assert (s + [c] + rest)[1..] == s[1..] + [c] + rest;
      assert [s[0]] + s[1..] == s;
    }
  }

  lemma {:induction false} SplitNone(s: string, c: char)
    requires c !in s
    ensures Split(s, c) == [s]
  {
    if s != "" {
      SplitNone(s[1..], c);
      assert [s[0]] + s[1..] == s;
    }
  }

  /** Splitting undoes joining when no part holds the separator. */
  lemma {:induction false} SplitJoin(parts: seq<string>, c: char)
    requires |parts| > 0 && forall p :: p in parts ==> c !in p
    ensures Split(Join(parts, [c]), c) == parts
  {
    if |parts| == 1 {
      SplitNone(parts[0], c);
    } else {
      SplitJoin(parts[1..], c);
      SplitAfter(parts[0], Join(parts[1..], [c]), c);
    }
  }

  /** Joining undoes splitting. */
  lemma {:induction false} JoinSplit(s: string, c: char)
    ensures Join(Split(s, c), [c]) == s
  {
    if s != "" {
      JoinSplit(s[1..], c);
      var rest := Split(s[1..], c);
      if s[0] == c {
        assert ([""] + rest)[1..] == rest;
      } else {
        FirstPart(s[0], rest, [c]);
        assert [s[0]] + s[1..] == s;
      }
    }
  }

  lemma FirstPart(x: char, parts: seq<string>, sep: string)
    requires |parts| > 0
    ensures Join([[x] + parts[0]] + parts[1..], sep) == [x] + Join(parts, sep)
  {
    if |parts| > 1 {
      assert ([[x] + parts[0]] + parts[1..])[1..] == parts[1..];
    }
  }

  /** No part holds the separator or a character that was not there. */
  lemma {:induction false} SplitParts(s: string, c: char, k: nat, x: char)
    requires k < |Split(s, c)| && x in Split(s, c)[k]
    ensures x != c && x in s
  {
    if s != "" {
      var rest := Split(s[1..], c);
      if s[0] == c {
        SplitParts(s[1..], c, k - 1, x);
      } else if k > 0 {
        SplitParts(s[1..], c, k, x);
      } else if x != s[0] {
        assert x in rest[0];
        SplitParts(s[1..], c, 0, x);
      }
    }
  }

  lemma {:induction false} JoinAppend(a: seq<string>, b: seq<string>, sep: string)
    requires |a| > 0 && |b| > 0
    ensures Join(a + b, sep) == Join(a, sep) + sep + Join(b, sep)
  {
    if |a| == 1 {
      assert (a + b)[1..] == b;
    } else {
      JoinAppend(a[1..], b, sep);
      assert (a + b)[1..] == a[1..] + b;
    }
  }

  // ------------------------------------------------------------------- trim

  /** White space as `trim` and `\s` have it. */
  predicate IsSpace(c: char) {
    var n := c as int;
    || 9 <= n <= 13
    || n == 0x20 || n == 0xA0 || n == 0x1680
    || 0x2000 <= n <= 0x200A
    || n == 0x2028 || n == 0x2029 || n == 0x202F || n == 0x205F || n == 0x3000 || n == 0xFEFF
  }

  ghost predicate OnlySpaces(s: string) { forall k :: 0 <= k < |s| ==> IsSpace(s[k]) }

  function TrimStart(s: string): (t: string)
    ensures |t| <= |s| && t == s[|s| - |t|..]
    ensures t != "" ==> !IsSpace(t[0])
  {
    if s != "" && IsSpace(s[0]) then TrimStart(s[1..]) else s
  }

  function TrimEnd(s: string): (t: string)
    ensures |t| <= |s| && t == s[..|t|]
    ensures t != "" ==> !IsSpace(t[|t| - 1])
  {
    if s != "" && IsSpace(s[|s| - 1]) then TrimEnd(s[..|s| - 1]) else s
  }

  function Trim(s: string): (t: string)
    ensures t != "" ==> !IsSpace(t[0]) && !IsSpace(t[|t| - 1])
    ensures forall c :: c in t ==> c in s
  {
    TrimEnd(TrimStart(s))
  }

  lemma TrimIsPart(s: string)
    ensures exists i, j :: 0 <= i <= j <= |s| && Trim(s) == s[i..j]
  {
    var a := TrimStart(s);
    var b := TrimEnd(a);
    var i := |s| - |a|;
    assert b == s[i..i + |b|];
  }

  lemma TrimNothing(s: string)
    requires s != "" ==> !IsSpace(s[0]) && !IsSpace(s[|s| - 1])
    ensures Trim(s) == s
  {
  }

  predicate IsBlank(s: string) { Trim(s) == "" }

  /** `t` is `s` without the white space at both ends. */
  ghost predicate Stripped(s: string, t: string) {
    && (exists before, behind :: s == before + t + behind && OnlySpaces(before) && OnlySpaces(behind))
    && (t != "" ==> !IsSpace(t[0]) && !IsSpace(t[|t| - 1]))
  }

  lemma PartInside(s: string, i: nat, j: nat)
    requires i <= j <= |s|
    ensures s == s[..i] + s[i..j] + s[j..]
  {
  }

  lemma TrimStrips(s: string)
    ensures Stripped(s, Trim(s))
  {
    hide IsSpace, OnlySpaces;
    var a := TrimStart(s);
    var t := TrimEnd(a);
    var i := |s| - |a|;
    var j := i + |t|;
    StartSpaces(s);
    EndSpaces(a);
    hide TrimStart, TrimEnd;
    PartInside(s, i, j);
    assert s[i..j] == a[..|t|] == t && s[j..] == a[|t|..];
  }

  lemma {:induction false} StartSpaces(s: string)
    ensures OnlySpaces(s[..|s| - |TrimStart(s)|])
  {
    if s != "" && IsSpace(s[0]) {
      StartSpaces(s[1..]);
      var n := |s| - |TrimStart(s)|;
      forall k | 0 <= k < n ensures IsSpace(s[k]) {
        assert k > 0 ==> s[k] == s[1..][..n - 1][k - 1];
      }
    }
  }

  lemma {:induction false} EndSpaces(s: string)
    ensures OnlySpaces(s[|TrimEnd(s)|..])
  {
    if s != "" && IsSpace(s[|s| - 1]) {
      var front := s[..|s| - 1];
      EndSpaces(front);
      var n := |TrimEnd(s)|;
      forall k | n <= k < |s| ensures IsSpace(s[k]) {
        assert k < |front| ==> s[k] == front[n..][k - n];
      }
    }
  }

  lemma BlankIsSpaces(s: string)
    ensures Stripped(s, "") ==> OnlySpaces(s)
  {
  }

  // --------------------------------------------------------------- contains

  /** `s.includes(p)` */
  predicate Contains(s: string, p: string) {
    p <= s || (s != "" && Contains(s[1..], p))
  }

  lemma {:induction false} ContainsAt(s: string, p: string, i: nat)
    requires i + |p| <= |s| && s[i..i + |p|] == p
    ensures Contains(s, p)
  {
    if i == 0 {
      assert p == s[..|p|];
    } else {
      assert s[1..][i - 1..i - 1 + |p|] == p;
      ContainsAt(s[1..], p, i - 1);
    }
  }

  lemma {:induction false} ContainsWhere(s: string, p: string) returns (i: nat)
    requires Contains(s, p)
    ensures i + |p| <= |s| && s[i..i + |p|] == p
  {
    if p <= s {
      i := 0;
    } else {
      i := ContainsWhere(s[1..], p);
      assert s[i + 1..i + 1 + |p|] == s[1..][i..i + |p|];
      i := i + 1;
    }
  }

  lemma SubPart(s: string, i: nat, j: nat, a: nat, b: nat)
    requires i <= j <= |s| && a <= b <= j - i
    ensures s[i..j][a..b] == s[i + a..i + b]
  {
    var x, y := s[i..j][a..b], s[i + a..i + b];
    assert forall t :: 0 <= t < |x| ==> x[t] == s[i + a + t] == y[t];
  }

  lemma PartContains(s: string, i: nat, j: nat, p: string)
    requires i <= j <= |s| && Contains(s[i..j], p)
    ensures Contains(s, p)
  {
    var k := ContainsWhere(s[i..j], p);
    SubPart(s, i, j, k, k + |p|);
    ContainsAt(s, p, i + k);
  }

  /** A pattern without the separator lies inside one of the two sides. */
  lemma ContainsAcross(a: string, sep: char, b: string, p: string)
    requires sep !in p && Contains(a + [sep] + b, p)
    ensures Contains(a, p) || Contains(b, p)
  {
    var s := a + [sep] + b;
    var k := ContainsWhere(s, p);
    if k + |p| <= |a| {
      assert a[k..k + |p|] == s[k..k + |p|];
      ContainsAt(a, p, k);
    } else if k > |a| {
      assert b[k - |a| - 1..k - |a| - 1 + |p|] == s[k..k + |p|];
      ContainsAt(b, p, k - |a| - 1);
    } else {
      SeparatorInside(a, sep, b, p, k);
    }
  }

  lemma SeparatorInside(a: string, sep: char, b: string, p: string, k: nat)
    requires k <= |a| < k + |p| <= |a| + 1 + |b| && (a + [sep] + b)[k..k + |p|] == p
    ensures sep in p
  {
    assert p[|a| - k] == (a + [sep] + b)[|a|];
  }

  // ------------------------------------------------- split at a longer string

  /** `s.split(p)` for a string that is not empty: cut at the first `p`, then go on. */
  function SplitOn(s: string, p: string): (parts: seq<string>)
    requires p != ""
    ensures |parts| > 0
    decreases |s|
  {
    if p <= s then [""] + SplitOn(s[|p|..], p)
    else if s == "" then [""]
    else
      var rest := SplitOn(s[1..], p);
      [[s[0]] + rest[0]] + rest[1..]
  }

  predicate StartsAt(s: string, p: string, i: nat) { i <= |s| && p <= s[i..] }

  /** When `p` follows `s`, none stands earlier. */
  ghost predicate Clear(s: string, p: string) { forall i :: 0 <= i < |s| ==> !StartsAt(s + p, p, i) }

  lemma ClearTail(s: string, p: string)
    requires Clear(s, p) && s != ""
    ensures Clear(s[1..], p) && !(p <= s + p)
  {
    assert !StartsAt(s + p, p, 0) && (s + p)[0..] == s + p;
    forall i | 0 <= i < |s[1..]| ensures !StartsAt(s[1..] + p, p, i) {
      assert !StartsAt(s + p, p, i + 1);
      assert (s + p)[i + 1..] == (s[1..] + p)[i..];
    }
  }

  lemma PrefixOfMore(s: string, rest: string, p: string)
    requires |s| >= |p|
    ensures p <= s + rest <==> p <= s
  {
    if p <= s + rest {
      assert forall k :: 0 <= k < |p| ==> s[k] == (s + rest)[k] == p[k];
    }
  }

  lemma SplitOnStep(s: string, p: string)
    requires p != "" && s != "" && !(p <= s)
    ensures SplitOn(s, p) == [[s[0]] + SplitOn(s[1..], p)[0]] + SplitOn(s[1..], p)[1..]
  {
  }

  lemma {:induction false} SplitOnAfter(s: string, rest: string, p: string)
    requires p != "" && Clear(s, p)
    ensures SplitOn(s + p + rest, p) == [s] + SplitOn(rest, p)
  {
    hide Clear;
    var all := s + p + rest;
    if s == "" {
      assert all == p + rest && all[|p|..] == rest;
    } else {
      ClearTail(s, p);
      PrefixOfMore(s + p, rest, p);
      SplitOnAfter(s[1..], rest, p);
      SplitOnStep(all, p);
      assert all[1..] == s[1..] + p + rest;
      HeadTail(s);
    }
  }

  lemma {:induction false} SplitOnNone(s: string, p: string)
    requires p != ""
    ensures SplitOn(s, p) == [s] <==> !Contains(s, p)
    ensures Contains(s, p) ==> |SplitOn(s, p)| > 1
  {
    if s != "" && !(p <= s) {
      SplitOnNone(s[1..], p);
      assert [s[0]] + s[1..] == s;
    }
  }

  lemma JoinEmptyFirst(parts: seq<string>, p: string)
    requires parts != []
    ensures Join([""] + parts, p) == p + Join(parts, p)
  {
    assert ([""] + parts)[1..] == parts;
  }

  lemma JoinNothing(p: string)
    ensures Join([""], p) == ""
  {
  }

  /** Joining undoes splitting. */
  lemma {:induction false} JoinSplitOn(s: string, p: string)
    requires p != ""
    ensures Join(SplitOn(s, p), p) == s
    decreases |s|
  {
    hide Join;
    if p <= s {
      JoinSplitOn(s[|p|..], p);
      JoinEmptyFirst(SplitOn(s[|p|..], p), p);
      assert s == p + s[|p|..];
    } else if s != "" {
      JoinSplitOn(s[1..], p);
      FirstPart(s[0], SplitOn(s[1..], p), p);
      HeadTail(s);
    } else {
      JoinNothing(p);
    }
  }

  /** The first part ends where `p` first stands. */
  lemma {:induction false} FirstCut(s: string, p: string, i: nat)
    requires p != "" && StartsAt(s, p, i)
    ensures |SplitOn(s, p)[0]| <= i
  {
    if i == 0 {
      assert s[0..] == s;
    } else if !(p <= s) {
      assert s[1..][i - 1..] == s[i..];
      FirstCut(s[1..], p, i - 1);
    }
  }

  /** The parts can be joined with `p` and told apart again. */
  ghost predicate Separable(parts: seq<string>, p: string) {
    && |parts| > 0
    && (forall k :: 0 <= k < |parts| - 1 ==> Clear(parts[k], p))
    && !Contains(parts[|parts| - 1], p)
  }

  lemma SeparableTail(parts: seq<string>, p: string)
    requires |parts| > 1
    ensures Separable(parts, p) <==> Clear(parts[0], p) && Separable(parts[1..], p)
  {
    hide Clear;
    if Clear(parts[0], p) && Separable(parts[1..], p) {
      forall k | 0 <= k < |parts| - 1 ensures Clear(parts[k], p) {
        if k > 0 {
          assert Clear(parts[1..][k - 1], p);
        }
      }
    }
  }

  /** Splitting undoes joining exactly when every part but the last is clear of the separator
      and the last does not hold it. */
  lemma {:induction false} SplitOnJoinIff(parts: seq<string>, p: string)
    requires p != "" && |parts| > 0
    ensures SplitOn(Join(parts, p), p) == parts <==> Separable(parts, p)
  {
    hide SplitOn, Contains, Clear, StartsAt;
    if |parts| == 1 {
      SplitOnNone(parts[0], p);
      assert parts == [parts[0]];
    } else {
      var a, rest := parts[0], Join(parts[1..], p);
      SplitOnJoinIff(parts[1..], p);
      SeparableTail(parts, p);
      assert parts == [a] + parts[1..];
      if Clear(a, p) {
        SplitOnAfter(a, rest, p);
        assert ([a] + SplitOn(rest, p))[1..] == SplitOn(rest, p);
      } else {
        CutInside(a, rest, p);
      }
    }
  }

  lemma CutInside(a: string, rest: string, p: string)
    requires p != "" && !Clear(a, p)
    ensures SplitOn(a + p + rest, p)[0] != a
  {
    var i :| 0 <= i < |a| && StartsAt(a + p, p, i);
    assert (a + p + rest)[i..] == (a + p)[i..] + rest;
    FirstCut(a + p + rest, p, i);
  }

  // ---------------------------------------------------------------- replace

  /** `s.replace(/c/g, text)` */
  function ReplaceAll(s: string, c: char, text: string): string {
    if s == "" then "" else (if s[0] == c then text else [s[0]]) + ReplaceAll(s[1..], c, text)
  }

  /** `s.replace(/\r\n?/g, "\n")` */
  function UnixNewlines(s: string): (t: string)
    ensures '\r' !in t
  {
    if s == "" then ""
    else if s[0] == '\r' then
      "\n" + UnixNewlines(if |s| > 1 && s[1] == '\n' then s[2..] else s[1..])
    else [s[0]] + UnixNewlines(s[1..])
  }

  lemma {:induction false} NoCarriageReturn(s: string)
    requires '\r' !in s
    ensures UnixNewlines(s) == s
  {
    if s != "" {
      NoCarriageReturn(s[1..]);
    }
  }

  // ---------------------------------------------------------------- numbers

  predicate IsDigit(c: char) { '0' <= c <= '9' }

  predicate AllDigits(s: string) { forall k :: 0 <= k < |s| ==> IsDigit(s[k]) }

  function DigitChar(d: nat): (c: char)
    requires d < 10
    ensures IsDigit(c) && c as int - '0' as int == d
  {
    '0' + d as char
  }

  /** `String(n)` for a natural number. */
  function Decimal(n: nat): (s: string)
    ensures |s| > 0 && AllDigits(s)
  {
    if n < 10 then [DigitChar(n)] else Decimal(n / 10) + [DigitChar(n % 10)]
  }

  /** `Number(s)` for a string of digits. */
  function NumberOf(s: string): nat
    requires AllDigits(s)
  {
    if s == "" then 0 else 10 * NumberOf(s[..|s| - 1]) + (s[|s| - 1] as int - '0' as int)
  }

  lemma {:induction false} NumberOfDecimal(n: nat)
    ensures NumberOf(Decimal(n)) == n
  {
    var s := Decimal(n);
    if n >= 10 {
      NumberOfDecimal(n / 10);
      assert s[..|s| - 1] == Decimal(n / 10);
    } else {
      assert s[..0] == "";
    }
  }

  lemma DecimalInjective(m: nat, n: nat)
    requires Decimal(m) == Decimal(n)
    ensures m == n
  {
    NumberOfDecimal(m);
    NumberOfDecimal(n);
  }

  /** `s.padStart(width, "0")` */
  function PadStart(s: string, width: nat): (t: string)
    ensures |t| == if |s| < width then width else |s|
    ensures AllDigits(s) ==> AllDigits(t)
    decreases if |s| < width then width - |s| else 0
  {
    if |s| < width then PadStart("0" + s, width) else s
  }

  lemma {:induction false} LeadingZero(s: string)
    requires AllDigits(s)
    ensures NumberOf("0" + s) == NumberOf(s)
  {
    var z := "0" + s;
    if s == "" {
      assert z[..0] == "";
    } else {
      LeadingZero(s[..|s| - 1]);
      assert z[..|z| - 1] == "0" + s[..|s| - 1];
    }
  }

  lemma {:induction false} NumberOfPadded(s: string, width: nat)
    requires AllDigits(s)
    ensures NumberOf(PadStart(s, width)) == NumberOf(s)
    decreases if |s| < width then width - |s| else 0
  {
    if |s| < width {
      LeadingZero(s);
      NumberOfPadded("0" + s, width);
    }
  }

  lemma {:induction false} DecimalLength(n: nat)
    ensures n < 10 ==> |Decimal(n)| == 1
    ensures 10 <= n < 100 ==> |Decimal(n)| == 2
    ensures 100 <= n < 1000 ==> |Decimal(n)| == 3
    ensures n >= 1000 ==> |Decimal(n)| >= 4
  {
    if n >= 10 {
      DecimalLength(n / 10);
    }
  }
}
