/** The order of the episodes of one line. */
module EpisodeOrder {
  import opened Counting
  import opened Options
  import opened SortedLists

  datatype Episode = Episode(index: nat, name: string, id: string)

  /** What is read off an episode's name. */
  datatype Labels = Labels(number: string -> Option<nat>, version: string -> nat)

  datatype Keyed = Keyed(episode: Episode, originalIndex: nat, number: Option<nat>, version: nat)

  /** The comparator handed to `sort`. */
  function Compare(left: Keyed, right: Keyed): int {
    if left.number.None? && right.number.None? then left.originalIndex - right.originalIndex
    else if left.number.None? then 1
    else if right.number.None? then -1
    else if left.number.value != right.number.value then left.number.value - right.number.value
    else if left.version != right.version then left.version - right.version
    else left.originalIndex - right.originalIndex
  }

  predicate KeyedLess(left: Keyed, right: Keyed) { Compare(left, right) < 0 }

  function Keys(labels: Labels, es: seq<Episode>): seq<Keyed> {
    seq(|es|, k requires 0 <= k < |es| => Keyed(es[k], k, labels.number(es[k].name), labels.version(es[k].name)))
  }

  function SortKeyed(ks: seq<Keyed>): seq<Keyed> {
    if ks == [] then [] else Insert(SortKeyed(ks[..|ks| - 1]), ks[|ks| - 1], KeyedLess)
  }

  function Renumber(ks: seq<Keyed>): seq<Episode> {
    seq(|ks|, k requires 0 <= k < |ks| => ks[k].episode.(index := k))
  }

  function SortEpisodes(labels: Labels, es: seq<Episode>): seq<Episode> { Renumber(SortKeyed(Keys(labels, es))) }

  // ------------------------------------------------------- what sorting means

  /** Episode `i` goes before episode `j`: numbered ones first, then by number, by version,
      and by the position they had. */
  predicate Earlier(labels: Labels, es: seq<Episode>, i: nat, j: nat)
    requires i < |es| && j < |es|
  {
    var m, n := labels.number(es[i].name), labels.number(es[j].name);
    var v, w := labels.version(es[i].name), labels.version(es[j].name);
    if m.Some? && n.Some? then
      || m.value < n.value
      || (m.value == n.value && (v < w || (v == w && i < j)))
    else m.Some? || (n.None? && i < j)
  }

  /** `p` lists the positions `0 .. n` each once. */
  ghost predicate IsPermutation(p: seq<nat>, n: nat) {
    && |p| == n
    && (forall k :: 0 <= k < n ==> p[k] < n)
    && (forall j, k :: 0 <= j < k < n ==> p[j] != p[k])
  }

  /** `r` lists the episodes in the order `p`, which puts earlier ones first, each with its
      own position as index. */
  ghost predicate SortedBy(labels: Labels, es: seq<Episode>, p: seq<nat>, r: seq<Episode>) {
    && IsPermutation(p, |es|) && |r| == |es|
    && (forall k :: 0 <= k < |r| ==> r[k] == es[p[k]].(index := k))
    && (forall j, k :: 0 <= j < k < |p| ==> Earlier(labels, es, p[j], p[k]))
  }

  lemma KeyedLessIsOrder()
    ensures forall a, b :: KeyedLess(a, b) ==> !KeyedLess(b, a)
    ensures forall a, b, c :: KeyedLess(a, b) && KeyedLess(b, c) ==> KeyedLess(a, c)
  {
  }

  lemma KeyedLessTotal(a: Keyed, b: Keyed)
    requires a.originalIndex != b.originalIndex
    ensures KeyedLess(a, b) || KeyedLess(b, a)
  {
  }

  ghost predicate DistinctIndexes(ks: seq<Keyed>) {
    forall j, k :: 0 <= j < k < |ks| ==> ks[j].originalIndex != ks[k].originalIndex
  }

  lemma {:induction false} SortKeyedIs(ks: seq<Keyed>)
    requires DistinctIndexes(ks)
    ensures |SortKeyed(ks)| == |ks|
    ensures Ascending(SortKeyed(ks), KeyedLess)
    ensures forall x :: x in SortKeyed(ks) <==> x in ks
  {
    hide KeyedLess, Insert, DistinctIndexes;
    if ks == [] {
      assert SortKeyed(ks) == [];
    } else {
      hide Ascending;
      var front, x := ks[..|ks| - 1], ks[|ks| - 1];
      LastIndexed(ks);
      SortKeyedIs(front);
      InsertKeyed(SortKeyed(front), x);
    }
  }

  lemma LastIndexed(ks: seq<Keyed>)
    requires ks != [] && DistinctIndexes(ks)
    ensures var front, x := ks[..|ks| - 1], ks[|ks| - 1];
            && DistinctIndexes(front)
            && (forall y :: y in front ==> y.originalIndex != x.originalIndex)
            && (forall y :: y in ks <==> y in front || y == x)
  {
    var front, x := ks[..|ks| - 1], ks[|ks| - 1];
    assert ks == front + [x];
    forall y | y in front ensures y.originalIndex != x.originalIndex {
      var j :| 0 <= j < |front| && front[j] == y;
      assert ks[j].originalIndex != ks[|ks| - 1].originalIndex;
    }
  }

  lemma InsertKeyed(s: seq<Keyed>, x: Keyed)
    requires Ascending(s, KeyedLess) && forall y :: y in s ==> y.originalIndex != x.originalIndex
    ensures Ascending(Insert(s, x, KeyedLess), KeyedLess)
    ensures forall y :: y in Insert(s, x, KeyedLess) <==> y == x || y in s
  {
    hide KeyedLess;
    forall y | y in s ensures KeyedLess(y, x) || KeyedLess(x, y) {
      KeyedLessTotal(y, x);
    }
    KeyedLessIsOrder();
    InsertAscends(s, x, KeyedLess);
  }

  lemma KeysCompare(labels: Labels, es: seq<Episode>, i: nat, j: nat)
    requires i < |es| && j < |es|
    ensures KeyedLess(Keys(labels, es)[i], Keys(labels, es)[j]) <==> Earlier(labels, es, i, j)
  {
  }

  /** The records of a permutation are all the records. */
  lemma {:induction false} PermutationCovers(p: seq<nat>, n: nat, i: nat)
    requires IsPermutation(p, n) && i < n
    ensures i in p
  {
    var all := UpTo(n);
    var listed := set k | 0 <= k < n :: p[k];
    ListedSize(p, n);
    if i !in listed {
      assert listed <= all - {i};
      SubsetSize(listed, all - {i});
    }
  }

  ghost function UpTo(n: nat): (s: set<nat>)
    ensures |s| == n && forall k: nat :: k in s <==> k < n
  {
    if n == 0 then {} else UpTo(n - 1) + {n - 1}
  }

  lemma {:induction false} ListedSize(p: seq<nat>, n: nat)
    requires n <= |p| && forall j, k :: 0 <= j < k < n ==> p[j] != p[k]
    ensures |set k | 0 <= k < n :: p[k]| == n
  {
    if n > 0 {
      ListedSize(p, n - 1);
      var before := set k | 0 <= k < n - 1 :: p[k];
      assert p[n - 1] !in before;
      assert (set k | 0 <= k < n :: p[k]) == before + {p[n - 1]};
    }
  }

  /** The result is a list of the episodes in order, and there is no other. */
  lemma SortedIff(labels: Labels, es: seq<Episode>, r: seq<Episode>)
    ensures r == SortEpisodes(labels, es) <==> exists p :: SortedBy(labels, es, p, r)
  {
    var ks := Keys(labels, es);
    var s := SortKeyed(ks);
    SortKeyedIs(ks);
    var p := seq(|s|, k requires 0 <= k < |s| => s[k].originalIndex);
    SortGivesPermutation(labels, es, p);
    if q :| SortedBy(labels, es, q, r) {
      OnlySorting(labels, es, q, r);
    }
  }

  lemma SortGivesPermutation(labels: Labels, es: seq<Episode>, p: seq<nat>)
    requires var s := SortKeyed(Keys(labels, es));
             |p| == |s| && forall k :: 0 <= k < |s| ==> p[k] == s[k].originalIndex
    ensures SortedBy(labels, es, p, SortEpisodes(labels, es))
  {
    var ks := Keys(labels, es);
    var s := SortKeyed(ks);
    SortKeyedIs(ks);
    forall k | 0 <= k < |s| ensures p[k] < |es| && s[k] == ks[p[k]] {
      assert s[k] in ks;
    }
    KeyedLessIsOrder();
    forall j, k | 0 <= j < k < |s| ensures p[j] != p[k] && Earlier(labels, es, p[j], p[k]) {
      KeysCompare(labels, es, p[j], p[k]);
      assert KeyedLess(s[j], s[k]);
    }
  }

  lemma OnlySorting(labels: Labels, es: seq<Episode>, p: seq<nat>, r: seq<Episode>)
    requires SortedBy(labels, es, p, r)
    ensures r == SortEpisodes(labels, es)
  {
    var ks := Keys(labels, es);
    var s := SortKeyed(ks);
    SortKeyedIs(ks);
    var t := seq(|p|, k requires 0 <= k < |p| => ks[p[k]]);
    forall j, k | 0 <= j < k < |t| ensures KeyedLess(t[j], t[k]) {
      KeysCompare(labels, es, p[j], p[k]);
    }
    forall x ensures x in t <==> x in s {
      if x in ks {
        var i :| 0 <= i < |ks| && ks[i] == x;
        PermutationCovers(p, |es|, i);
        var k :| 0 <= k < |p| && p[k] == i;
        assert t[k] == x;
      }
    }
    KeyedLessIsOrder();
    AscendingUnique(s, t, KeyedLess);
    assert r == Renumber(t);
  }

  /** Sorting a second time changes nothing. */
  lemma SortTwice(labels: Labels, es: seq<Episode>)
    ensures SortEpisodes(labels, SortEpisodes(labels, es)) == SortEpisodes(labels, es)
  {
    var r := SortEpisodes(labels, es);
    SortedIff(labels, es, r);
    var p :| SortedBy(labels, es, p, r);
    var same := seq(|r|, k requires 0 <= k < |r| => k);
    forall j, k | 0 <= j < k < |r| ensures Earlier(labels, r, j, k) {
      assert Earlier(labels, es, p[j], p[k]);
    }
    assert SortedBy(labels, r, same, r);
    SortedIff(labels, r, r);
  }

  lemma SortedEpisodes(labels: Labels, es: seq<Episode>)
    ensures |SortEpisodes(labels, es)| == |es|
    ensures forall k :: 0 <= k < |es| ==> SortEpisodes(labels, es)[k].index == k
    ensures forall e :: e in SortEpisodes(labels, es) ==> exists i :: 0 <= i < |es| && e == es[i].(index := e.index)
  {
    var r := SortEpisodes(labels, es);
    SortedIff(labels, es, r);
    var p :| SortedBy(labels, es, p, r);
    forall e | e in r ensures exists i :: 0 <= i < |es| && e == es[i].(index := e.index) {
      var k :| 0 <= k < |r| && r[k] == e;
      assert e == es[p[k]].(index := e.index);
    }
  }
}
