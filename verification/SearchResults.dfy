/** What every schedule of the search pool has in common, and when. */
module SearchResults {
  import opened Counting
  import opened SearchPool

  /** The items of all sites, in site order. */
  function InSiteOrder(answers: seq<Answer>): seq<nat> {
    if answers == [] then []
    else if answers[0].found then answers[0].listed + InSiteOrder(answers[1..])
    else InSiteOrder(answers[1..])
  }

  // ------------------------------------------------------- any schedule

  /** At any moment the sites probed so far are a prefix of the site list, each once; when the
      search completes they are all of it. */
  lemma EachSiteProbedOnce(c: Search, events: seq<Event>)
    requires c.Valid()
    ensures var s := Run(c, events);
            |s.probes| <= |c.keys| && (forall i :: 0 <= i < |s.probes| ==> s.probes[i] == i)
            && (s.outcome == Complete ==> |s.probes| == |c.keys|)
  {
    ReachableInv(c, events);
  }

  ghost function Sites(workers: seq<Worker>): set<nat> {
    set w | 0 <= w < |workers| && workers[w].Probing? :: workers[w].site
  }

  lemma {:induction false} FewSites(workers: seq<Worker>)
    ensures |Sites(workers)| <= |workers|
  {
    if workers != [] {
      var n := |workers| - 1;
      FewSites(workers[..n]);
      var last := if workers[n].Probing? then {workers[n].site} else {};
      forall i | i in Sites(workers) ensures i in Sites(workers[..n]) + last {
        var w :| 0 <= w < |workers| && workers[w].Probing? && workers[w].site == i;
        assert w < n ==> workers[..n][w] == workers[w];
      }
      assert Sites(workers) <= Sites(workers[..n]) + last;
      SubsetSize(Sites(workers), Sites(workers[..n]) + last);
    }
  }

  /** Never more than four sites are under way, and while the search is not cut short these
      are exactly the sites shown as running. */
  lemma AtMostFourRunning(c: Search, events: seq<Event>)
    requires c.Valid()
    ensures var s := Run(c, events);
            |Sites(s.workers)| <= 4
            && (Uncut(s) ==> forall i :: 0 <= i < |c.keys| ==>
                  |s.statuses| == |c.keys| && (s.statuses[i] == Running <==> i in Sites(s.workers)))
  {
    ReachableInv(c, events);
    var s := Run(c, events);
    FewSites(s.workers);
    forall i: nat ensures i in Sites(s.workers) <==> BeingProbed(s, i) {
    }
  }

  /** How an answer is shown: unsupported before all, failed when nothing was found out, and
      otherwise by whether there are items. */
  predicate ShownAs(a: Answer, shown: Status) {
    && (a.unsupported <==> shown == Unsupported)
    && (!a.unsupported && !a.found <==> shown == Failed)
    && (!a.unsupported && a.found && a.listed == [] <==> shown == Empty)
    && (!a.unsupported && a.found && a.listed != [] <==> shown == Success)
  }

  /** Whatever the schedule, a completed search shows for each site the status of its answer. */
  lemma FinalStatuses(c: Search, events: seq<Event>)
    requires c.Valid() && Run(c, events).outcome == Complete
    ensures var s := Run(c, events);
            |s.statuses| == |c.keys|
            && forall i :: 0 <= i < |c.keys| ==> ShownAs(c.answers[i], s.statuses[i])
  {
    ReachableInv(c, events);
    AllReturnedMeans(Run(c, events).workers);
  }

  /** The workers take the first sites at once, as many as there may be under way. */
  lemma {:induction false} StartsTogether(c: Search, n: nat) returns (events: seq<Event>)
    requires c.Valid() && n <= WorkerCount(c)
    ensures Started(c, Run(c, events), n)
  {
    hide Apply, Inv, Started;
    if n == 0 {
      events := [];
      NoneStarted(c);
    } else {
      var before := StartsTogether(c, n - 1);
      events := before + [Take(n - 1)];
      assert events[..|events| - 1] == before;
      ReachableInv(c, before);
      OneMoreStarts(c, Run(c, before), n - 1);
    }
  }

  /** The first `n` workers probe the first `n` sites. */
  ghost predicate Started(c: Search, s: State, n: nat) {
    && !s.cancelled && s.nextIndex == n && |s.workers| == WorkerCount(c)
    && forall w :: 0 <= w < |s.workers| ==> s.workers[w] == if w < n then Probing(w) else Ready
  }

  lemma NoneStarted(c: Search)
    ensures Started(c, Run(c, []), 0)
  {
  }

  lemma OneMoreStarts(c: Search, s: State, n: nat)
    requires c.Valid() && Inv(c, s) && Started(c, s, n) && n < WorkerCount(c)
    ensures Started(c, Apply(c, s, Take(n)), n + 1)
  {
    assert |s.statuses| == |c.keys|;
  }

  /** With four sites or more, four can be under way, and otherwise all of them. */
  lemma FourCanRun(c: Search) returns (events: seq<Event>)
    requires c.Valid()
    ensures forall i: nat :: i < |c.keys| && i < 4 ==> i in Sites(Run(c, events).workers)
  {
    hide Run;
    events := StartsTogether(c, WorkerCount(c));
    var workers := Run(c, events).workers;
    forall i: nat | i < |c.keys| && i < 4 ensures i in Sites(workers) {
      assert workers[i] == Probing(i);
    }
  }

  /** After a cancel the first probe that returns ends the search, whatever the other workers do. */
  lemma FirstReturnEnds(c: Search, events: seq<Event>, w: nat, current: bool)
    requires c.Valid() && Run(c, events).cancelled && Run(c, events).outcome == Pending
    requires w < |Run(c, events).workers| && Run(c, events).workers[w].Probing?
    ensures Run(c, events + [Resolve(w)] + [Reject(current)]).outcome == Rejected
  {
    ReachableInv(c, events);
    var more := events + [Resolve(w)];
    assert more[..|events|] == events && (more + [Reject(current)])[..|more|] == more;
    assert Run(c, more).workers[w] == Thrown;
  }

  /** A search that ends cancelled while it is the current one shows nothing as under way or
      still to come, and leaves every status that was reached. */
  lemma CancelledStatuses(c: Search, events: seq<Event>, e: Event)
    requires c.Valid() && Run(c, events).outcome == Pending
    requires e == Reject(true) || e == Finish(true)
    requires var t := Apply(c, Run(c, events), e); t.outcome == Rejected
    ensures var s, t := Run(c, events), Apply(c, Run(c, events), e);
            && |t.statuses| == |s.statuses| == |c.keys|
            && forall i :: 0 <= i < |c.keys| ==>
                 t.statuses[i] == if s.statuses[i] in {Queued, Running} then Cancelled else s.statuses[i]
  {
    ReachableInv(c, events);
  }

  /** A search that has been replaced leaves the statuses alone. */
  lemma ReplacedStatuses(c: Search, events: seq<Event>, e: Event)
    requires e == Reject(false) || (e == Finish(false) && Run(c, events).cancelled)
    ensures Apply(c, Run(c, events), e).statuses == Run(c, events).statuses
    ensures Apply(c, Run(c, events), e).log == Run(c, events).log
  {
  }

  /** A cancelled search never publishes again. */
  lemma {:induction false} CancelledNeverPublishes(c: Search, events: seq<Event>, more: seq<Event>)
    requires Run(c, events).cancelled
    ensures Run(c, events + more).cancelled && Run(c, events + more).log == Run(c, events).log
    decreases |more|
  {
    if more == [] {
      assert events + more == events;
    } else {
      var all := events + more;
      assert all[..|all| - 1] == events + more[..|more| - 1];
      CancelledNeverPublishes(c, events, more[..|more| - 1]);
    }
  }

  // ------------------------------------------------ when keys are distinct

  lemma {:induction false} FlattenIs(keys: seq<string>, answers: seq<Answer>, results: map<string, seq<nat>>)
    requires |keys| == |answers|
    requires forall i :: 0 <= i < |keys| ==> keys[i] in results && results[keys[i]] == answers[i].Items()
    ensures Flatten(keys, results) == InSiteOrder(answers)
  {
    if keys != [] {
      FlattenIs(keys[1..], answers[1..], results);
      assert [] + InSiteOrder(answers[1..]) == InSiteOrder(answers[1..]);
    }
  }

  /** Every schedule that completes ends with the same list: the sites' items in site order. */
  lemma SameListForEverySchedule(c: Search, events: seq<Event>)
    requires c.Valid() && DistinctKeys(c.keys) && Run(c, events).outcome == Complete
    ensures |Run(c, events).log| > 0 && Items(c, Run(c, events)) == InSiteOrder(c.answers)
  {
    var s := Run(c, events);
    ReachableInv(c, events);
    AllReturnedMeans(s.workers);
    forall i | 0 <= i < |c.keys|
      ensures c.keys[i] in s.results && s.results[c.keys[i]] == c.answers[i].Items()
    {
      assert !BeingProbed(s, i);
      var j: nat :| FromSite(c, s, c.keys[i], j);
      assert j == i;
    }
    FlattenIs(c.keys, c.answers, s.results);
  }

  ghost predicate Extends(a: map<string, seq<nat>>, b: map<string, seq<nat>>) {
    forall k :: k in a ==> k in b && b[k] == a[k]
  }

  ghost predicate LogGrows(s: State) {
    && (forall p, q :: 0 <= p <= q < |s.log| ==> Extends(s.log[p], s.log[q]))
    && |s.log| > 0 && s.log[|s.log| - 1] == s.results
  }

  lemma {:induction false} ReachableLogGrows(c: Search, events: seq<Event>)
    requires c.Valid() && DistinctKeys(c.keys)
    ensures LogGrows(Run(c, events))
  {
    if events != [] {
      var s := Run(c, events[..|events| - 1]);
      ReachableLogGrows(c, events[..|events| - 1]);
      ReachableInv(c, events[..|events| - 1]);
      StepLogGrows(c, s, events[|events| - 1]);
    }
  }

  lemma KeyNotYetStored(c: Search, s: State, w: nat)
    requires c.Valid() && DistinctKeys(c.keys) && Inv(c, s)
    requires w < |s.workers| && s.workers[w].Probing? && s.workers[w].site < |c.keys|
    ensures c.keys[s.workers[w].site] !in s.results
  {
    hide AllReturned, StatusOf, Progress;
    var site := s.workers[w].site;
    assert BeingProbed(s, site);
    if c.keys[site] in s.results {
      var j: nat :| FromSite(c, s, c.keys[site], j);
    }
  }

  lemma StepLogGrows(c: Search, s: State, e: Event)
    requires c.Valid() && DistinctKeys(c.keys) && Inv(c, s) && LogGrows(s)
    ensures LogGrows(Apply(c, s, e))
  {
    hide AllReturned, MarkCancelled, StatusOf, Progress;
    var t := Apply(c, s, e);
    if Enabled(c, s, e) && e.Resolve? {
      KeyNotYetStored(c, s, e.worker);
    }
    assert Extends(s.results, t.results);
    forall p, q | 0 <= p <= q < |t.log| ensures Extends(t.log[p], t.log[q]) {
      if q == |s.log| && p < |s.log| {
        assert Extends(s.log[p], s.log[|s.log| - 1]);
      }
    }
  }

  /** `a` can be got from `b` by leaving elements out. */
  ghost predicate Subsequence(a: seq<nat>, b: seq<nat>) {
    a == [] || (b != [] && ((a[0] == b[0] && Subsequence(a[1..], b[1..])) || Subsequence(a, b[1..])))
  }

  lemma {:induction false} SamePrefix(p: seq<nat>, a: seq<nat>, b: seq<nat>)
    requires Subsequence(a, b)
    ensures Subsequence(p + a, p + b)
  {
    if p == [] {
      assert p + a == a && p + b == b;
    } else {
      SamePrefix(p[1..], a, b);
      assert (p + a)[1..] == p[1..] + a && (p + b)[1..] == p[1..] + b;
    }
  }

  lemma {:induction false} MoreInFront(p: seq<nat>, a: seq<nat>, b: seq<nat>)
    requires Subsequence(a, b)
    ensures Subsequence(a, p + b)
  {
    if p == [] {
      assert p + b == b;
    } else {
      MoreInFront(p[1..], a, b);
      assert (p + b)[1..] == p[1..] + b;
    }
  }

  lemma {:induction false} FlattenGrows(keys: seq<string>, a: map<string, seq<nat>>, b: map<string, seq<nat>>)
    requires Extends(a, b)
    ensures Subsequence(Flatten(keys, a), Flatten(keys, b))
  {
    if keys != [] {
      FlattenGrows(keys[1..], a, b);
      var p := if keys[0] in b then b[keys[0]] else [];
      if keys[0] in a {
        SamePrefix(p, Flatten(keys[1..], a), Flatten(keys[1..], b));
      } else {
        MoreInFront(p, Flatten(keys[1..], a), Flatten(keys[1..], b));
        assert Flatten(keys, a) == Flatten(keys[1..], a);
      }
    }
  }

  /** Each published list is an ordered subsequence of every later one. */
  lemma PublishedListsGrow(c: Search, events: seq<Event>, p: nat, q: nat)
    requires c.Valid() && DistinctKeys(c.keys) && p <= q < |Run(c, events).log|
    ensures Subsequence(Flatten(c.keys, Run(c, events).log[p]), Flatten(c.keys, Run(c, events).log[q]))
  {
    ReachableLogGrows(c, events);
    FlattenGrows(c.keys, Run(c, events).log[p], Run(c, events).log[q]);
  }

  /** Whatever changes the state of a site, and the end of the search, is published. */
  lemma ChangesArePublished(c: Search, events: seq<Event>, e: Event)
    requires c.Valid() && !Run(c, events).cancelled
    ensures var s := Run(c, events);
            var t := Apply(c, s, e);
            t.statuses != s.statuses || t.outcome != s.outcome ==> t.log == s.log + [t.results]
  {
    ReachableInv(c, events);
  }

  // ----------------------------------------- when the result is determined

  /** Whatever the sites answer, any two schedules that complete publish the same list. */
  ghost predicate ScheduleIndependent(keys: seq<string>) {
    forall answers: seq<Answer>, one: seq<Event>, other: seq<Event> ::
      var c := Search(keys, answers);
      |answers| == |keys| && Run(c, one).outcome == Complete && Run(c, other).outcome == Complete
        && |Run(c, one).log| > 0 && |Run(c, other).log| > 0
      ==> Items(c, Run(c, one)) == Items(c, Run(c, other))
  }

  /** The final list does not depend on the schedule exactly when no two sites share a key.
      The imported configuration does not rule shared keys out. */
  lemma ScheduleIndependentIffKeysDistinct(keys: seq<string>)
    ensures ScheduleIndependent(keys) <==> DistinctKeys(keys)
  {
    if DistinctKeys(keys) {
      forall answers: seq<Answer>, one: seq<Event>, other: seq<Event> |
        |answers| == |keys| && Run(Search(keys, answers), one).outcome == Complete
        && Run(Search(keys, answers), other).outcome == Complete
        && |Run(Search(keys, answers), one).log| > 0 && |Run(Search(keys, answers), other).log| > 0
        ensures Items(Search(keys, answers), Run(Search(keys, answers), one))
                == Items(Search(keys, answers), Run(Search(keys, answers), other))
      {
        SameListForEverySchedule(Search(keys, answers), one);
        SameListForEverySchedule(Search(keys, answers), other);
      }
    } else {
      var i, j :| 0 <= i < j < |keys| && keys[i] == keys[j];
      var one, other := TwoSchedules(keys, i, j);
      var c := Search(keys, OnlyAt(|keys|, i));
      assert Items(c, Run(c, one)) != Items(c, Run(c, other));
    }
  }

  /** One site answers with one item, all others with none. */
  function OnlyAt(n: nat, i: nat): seq<Answer> {
    seq(n, k => Answer(false, true, if k == i then [1] else []))
  }

  lemma Then(c: Search, events: seq<Event>, s: State, e: Event) returns (more: seq<Event>, t: State)
    requires Run(c, events) == s
    ensures more == events + [e] && t == Apply(c, s, e) && Run(c, more) == t
  {
    more := events + [e];
    t := Apply(c, s, e);
    assert more[..|more| - 1] == events;
  }

  /** The result map after sites `from` to `upTo` have been stored in turn. */
  ghost function Overwrite(c: Search, results: map<string, seq<nat>>, from: nat, upTo: nat): map<string, seq<nat>>
    requires c.Valid() && upTo <= |c.keys|
    decreases upTo - from
  {
    if from >= upTo then results
    else Overwrite(c, results[c.keys[from] := c.answers[from].Items()], from + 1, upTo)
  }

  /** One worker probes the sites up to `upTo` in turn, the others stand still. */
  lemma {:induction false} WorkOn(c: Search, events: seq<Event>, s: State, w: nat, upTo: nat)
    returns (more: seq<Event>, t: State)
    requires c.Valid() && Run(c, events) == s && Inv(c, s)
    requires w < |s.workers| && s.workers[w] == Ready && s.nextIndex <= upTo <= |c.keys|
    requires !s.cancelled && s.outcome == Pending
    ensures Run(c, more) == t && Inv(c, t)
    ensures t.workers == s.workers && t.nextIndex == upTo && !t.cancelled && t.outcome == Pending
    ensures t.results == Overwrite(c, s.results, s.nextIndex, upTo)
    decreases upTo - s.nextIndex
  {
    if s.nextIndex == upTo {
      more, t := events, s;
    } else {
      var e, u := WorkOnce(c, events, s, w);
      more, t := WorkOn(c, e, u, w, upTo);
    }
  }

  lemma TakeOne(c: Search, events: seq<Event>, s: State, w: nat) returns (more: seq<Event>, t: State)
    requires c.Valid() && Run(c, events) == s && Inv(c, s)
    requires w < |s.workers| && s.workers[w] == Ready && s.nextIndex < |c.keys|
    requires !s.cancelled && s.outcome == Pending
    ensures Run(c, more) == t && Inv(c, t) && !t.cancelled && t.outcome == Pending
    ensures t.workers == s.workers[w := Probing(s.nextIndex)] && t.nextIndex == s.nextIndex + 1
    ensures t.results == s.results
  {
    hide Run, Progress, Results;
    more, t := Then(c, events, s, Take(w));
    ApplyKeeps(c, s, Take(w));
  }

  lemma ResolveOne(c: Search, events: seq<Event>, s: State, w: nat, i: nat) returns (more: seq<Event>, t: State)
    requires c.Valid() && Run(c, events) == s && Inv(c, s)
    requires w < |s.workers| && s.workers[w] == Probing(i) && i < |c.keys|
    requires !s.cancelled && s.outcome == Pending
    ensures Run(c, more) == t && Inv(c, t) && !t.cancelled && t.outcome == Pending
    ensures t.workers == s.workers[w := Ready] && t.nextIndex == s.nextIndex
    ensures t.results == s.results[c.keys[i] := c.answers[i].Items()]
  {
    hide Run, Progress, Results;
    more, t := Then(c, events, s, Resolve(w));
    ApplyKeeps(c, s, Resolve(w));
  }

  lemma WorkOnce(c: Search, events: seq<Event>, s: State, w: nat) returns (more: seq<Event>, t: State)
    requires c.Valid() && Run(c, events) == s && Inv(c, s)
    requires w < |s.workers| && s.workers[w] == Ready && s.nextIndex < |c.keys|
    requires !s.cancelled && s.outcome == Pending
    ensures Run(c, more) == t && Inv(c, t)
    ensures t.workers == s.workers && t.nextIndex == s.nextIndex + 1 && !t.cancelled && t.outcome == Pending
    ensures t.results == s.results[c.keys[s.nextIndex] := c.answers[s.nextIndex].Items()]
  {
    hide Run, Inv;
    var u: State;
    more, u := TakeOne(c, events, s, w);
    more, t := ResolveOne(c, more, u, w, s.nextIndex);
    assert t.workers == s.workers;
  }

  lemma FinalList(c: Search, s: State)
    requires c.Valid() && Inv(c, s)
    ensures |s.log| > 0 && Items(c, s) == Flatten(c.keys, s.results)
  {
  }

  /** Later empty answers clear whatever the same keys held before. */
  lemma {:induction false} OverwriteEmpty(c: Search, results: map<string, seq<nat>>, from: nat, upTo: nat)
    requires c.Valid() && from <= upTo <= |c.keys|
    requires forall i :: from <= i < upTo ==> c.answers[i].Items() == []
    requires forall k :: k in results && results[k] != [] ==> k in c.keys[from..upTo]
    ensures forall k :: k in Overwrite(c, results, from, upTo) ==> Overwrite(c, results, from, upTo)[k] == []
    decreases upTo - from
  {
    if from < upTo {
      var next := results[c.keys[from] := c.answers[from].Items()];
      assert c.keys[from..upTo] == [c.keys[from]] + c.keys[from + 1..upTo];
      OverwriteEmpty(c, next, from + 1, upTo);
    }
  }

  /** All workers find the list used up, and the search completes. */
  lemma {:induction false} RunOut(c: Search, events: seq<Event>, s: State, w: nat)
    returns (more: seq<Event>, t: State)
    requires c.Valid() && Run(c, events) == s && Inv(c, s)
    requires w <= |s.workers| && s.nextIndex >= |c.keys| && !s.cancelled && s.outcome == Pending
    requires forall v :: 0 <= v < |s.workers| ==> s.workers[v] == if v < w then Returned else Ready
    ensures Run(c, more) == t && Inv(c, t) && t.outcome == Complete && t.results == s.results
    decreases |s.workers| - w
  {
    if w == |s.workers| {
      AllReturnedMeans(s.workers);
      more, t := Then(c, events, s, Finish(true));
      ApplyKeeps(c, s, Finish(true));
    } else {
      var e1, s1 := Then(c, events, s, Take(w));
      ApplyKeeps(c, s, Take(w));
      more, t := RunOut(c, e1, s1, w + 1);
    }
  }

  /** With sites `i` and `j` under one key, the schedule decides whose answer is kept. */
  lemma TwoSchedules(keys: seq<string>, i: nat, j: nat) returns (one: seq<Event>, other: seq<Event>)
    requires i < j < |keys| && keys[i] == keys[j]
    ensures var c := Search(keys, OnlyAt(|keys|, i));
            && Run(c, one).outcome == Complete && Run(c, other).outcome == Complete
            && |Run(c, one).log| > 0 && |Run(c, other).log| > 0
            && Items(c, Run(c, one)) == [] && Items(c, Run(c, other)) != []
  {
    var c := Search(keys, OnlyAt(|keys|, i));
    one := InOrder(c, i, j);
    other := Overtaken(c, i, j);
  }

  lemma {:induction false} AllEmpty(keys: seq<string>, results: map<string, seq<nat>>)
    requires forall k :: 0 <= k < |keys| && keys[k] in results ==> results[keys[k]] == []
    ensures Flatten(keys, results) == []
  {
    if keys != [] {
      AllEmpty(keys[1..], results);
    }
  }

  lemma {:induction false} SomeNotEmpty(keys: seq<string>, results: map<string, seq<nat>>, i: nat)
    requires i < |keys| && keys[i] in results && results[keys[i]] != []
    ensures Flatten(keys, results) != []
  {
    if i > 0 {
      SomeNotEmpty(keys[1..], results, i - 1);
    }
  }

  /** One worker does everything: the later site overwrites the earlier one. */
  lemma InOrder(c: Search, i: nat, j: nat) returns (events: seq<Event>)
    requires i < j < |c.keys| && c.keys[i] == c.keys[j] && c.answers == OnlyAt(|c.keys|, i)
    ensures Run(c, events).outcome == Complete && |Run(c, events).log| > 0
    ensures Items(c, Run(c, events)) == []
  {
    hide Run, Overwrite, Inv, Flatten, Items;
    var s, t, u := Initial(c), Initial(c), Initial(c);
    events := Start(c);
    events, s := WorkOn(c, events, s, 0, i);
    OverwriteEmpty(c, map[], 0, i);
    events, t := WorkOnce(c, events, s, 0);
    assert c.keys[i] in c.keys[i + 1..] by {
      assert c.keys[i + 1..][j - i - 1] == c.keys[j];
    }
    events, u := WorkOn(c, events, t, 0, |c.keys|);
    assert c.keys[i + 1..|c.keys|] == c.keys[i + 1..];
    OverwriteEmpty(c, t.results, i + 1, |c.keys|);
    events, s := RunOut(c, events, u, 0);
    FinalList(c, s);
    AllEmpty(c.keys, s.results);
  }

  lemma Start(c: Search) returns (events: seq<Event>)
    requires c.Valid()
    ensures Run(c, events) == Initial(c) && Inv(c, Initial(c))
  {
    events := [];
    ReachableInv(c, []);
  }

  /** The first worker keeps site `i` under way while the second does all others. */
  lemma Overtaken(c: Search, i: nat, j: nat) returns (events: seq<Event>)
    requires i < j < |c.keys| && c.keys[i] == c.keys[j] && c.answers == OnlyAt(|c.keys|, i)
    ensures Run(c, events).outcome == Complete && |Run(c, events).log| > 0
    ensures Items(c, Run(c, events)) != []
  {
    hide Run, Overwrite, Inv, Flatten, Items;
    var s, t := Initial(c), Initial(c);
    events := Start(c);
    events, s := WorkOn(c, events, s, 0, i);
    events, t := TakeOne(c, events, s, 0);
    events, s := WorkOn(c, events, t, 1, |c.keys|);
    events, t := ResolveOne(c, events, s, 0, i);
    events, s := RunOut(c, events, t, 0);
    FinalList(c, s);
    SomeNotEmpty(c.keys, s.results, i);
  }
}
