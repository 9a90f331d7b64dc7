/** The search over all sources: at most four workers share one index, probe the sites and
    publish the partial result after each probe. Probes return in any order and the search
    can be cancelled at any moment. */
module SearchPool {

  /** What probing a site returns; the items are numbered. */
  datatype Answer = Answer(unsupported: bool, found: bool, listed: seq<nat>) {
    function Items(): seq<nat> { if found then listed else [] }
  }

  /** The sites in search order: their keys, and what probing each of them returns. */
  datatype Search = Search(keys: seq<string>, answers: seq<Answer>) {
    predicate Valid() { |keys| == |answers| }
  }

  datatype Worker = Ready | Probing(site: nat) | Returned | Thrown

  datatype Status = Queued | Running | Success | Empty | Unsupported | Failed | Cancelled

  datatype Outcome = Pending | Complete | Rejected

  /** `log` holds the result map at each publication, `probes` the sites probed, in order. */
  datatype State = State(
    workers: seq<Worker>,
    nextIndex: nat,
    statuses: seq<Status>,
    results: map<string, seq<nat>>,
    probes: seq<nat>,
    log: seq<map<string, seq<nat>>>,
    cancelled: bool,
    outcome: Outcome)

  datatype Event =
    | Take(worker: nat)
    | Resolve(worker: nat)
    | Cancel
    | Finish(current: bool)
    | Reject(current: bool)

  function WorkerCount(c: Search): (n: nat)
    ensures n <= 4
  {
    if |c.keys| < 4 then |c.keys| else 4
  }

  /** The first publication happens before any worker starts. */
  function Initial(c: Search): State {
    State(seq(WorkerCount(c), _ => Ready), 0, seq(|c.keys|, _ => Queued), map[], [], [map[]], false, Pending)
  }

  /** `sites.flatMap(site => results.get(site.key) ?? [])` */
  function Flatten(keys: seq<string>, results: map<string, seq<nat>>): seq<nat> {
    if keys == [] then []
    else (if keys[0] in results then results[keys[0]] else []) + Flatten(keys[1..], results)
  }

  /** `runtime.items`: the list published last. */
  function Items(c: Search, s: State): seq<nat>
    requires |s.log| > 0
  {
    Flatten(c.keys, s.log[|s.log| - 1])
  }

  function StatusOf(a: Answer): Status {
    if a.unsupported then Unsupported
    else if !a.found then Failed
    else if a.listed != [] then Success
    else Empty
  }

  /** One turn of the loop up to the probe. */
  function TakeNext(c: Search, s: State, w: nat): State
    requires w < |s.workers|
  {
    if s.cancelled then s.(workers := s.workers[w := Returned])
    else if s.nextIndex >= |c.keys| || s.nextIndex >= |s.statuses| then
      s.(workers := s.workers[w := Returned], nextIndex := s.nextIndex + 1)
    else
      s.(workers := s.workers[w := Probing(s.nextIndex)],
         nextIndex := s.nextIndex + 1,
         statuses := s.statuses[s.nextIndex := Running],
         probes := s.probes + [s.nextIndex],
         log := s.log + [s.results])
  }

  /** The probe has returned: check, store, publish. */
  function Store(c: Search, s: State, w: nat): State
    requires c.Valid() && w < |s.workers| && s.workers[w].Probing?
    requires s.workers[w].site < |c.keys| && |s.statuses| == |c.keys|
  {
    var i := s.workers[w].site;
    if s.cancelled then s.(workers := s.workers[w := Thrown])
    else
      var results := s.results[c.keys[i] := c.answers[i].Items()];
      s.(workers := s.workers[w := Ready],
         statuses := s.statuses[i := StatusOf(c.answers[i])],
         results := results,
         log := s.log + [results])
  }

  predicate AllReturned(workers: seq<Worker>) {
    workers == [] || (workers[0] == Returned && AllReturned(workers[1..]))
  }

  predicate Enabled(c: Search, s: State, e: Event) {
    match e
    case Take(w) => w < |s.workers| && s.workers[w] == Ready
    case Resolve(w) =>
      && c.Valid() && w < |s.workers| && s.workers[w].Probing?
      && s.workers[w].site < |c.keys| && |s.statuses| == |c.keys|
    case Cancel => true
    case Finish(_) => s.outcome == Pending && AllReturned(s.workers)
    case Reject(_) => s.outcome == Pending && Thrown in s.workers
  }

  function MarkCancelled(statuses: seq<Status>): seq<Status> {
    seq(|statuses|, i requires 0 <= i < |statuses| =>
      if statuses[i] == Queued || statuses[i] == Running then Cancelled else statuses[i])
  }

  function Apply(c: Search, s: State, e: Event): State {
    if !Enabled(c, s, e) then s
    else
      match e
      case Take(w) => TakeNext(c, s, w)
      case Resolve(w) => Store(c, s, w)
      case Cancel => s.(cancelled := true)
      case Finish(current) =>
        if s.cancelled then
          s.(outcome := Rejected, statuses := if current then MarkCancelled(s.statuses) else s.statuses)
        else s.(outcome := Complete, log := s.log + [s.results])
      case Reject(current) =>
        s.(outcome := Rejected, statuses := if current then MarkCancelled(s.statuses) else s.statuses)
  }

  function Run(c: Search, events: seq<Event>): State {
    if events == [] then Initial(c)
    else Apply(c, Run(c, events[..|events| - 1]), events[|events| - 1])
  }

  // -------------------------------------------------------------- invariant

  predicate DistinctKeys(keys: seq<string>) {
    forall i, j :: 0 <= i < j < |keys| ==> keys[i] != keys[j]
  }

  function Taken(c: Search, s: State): nat {
    if s.nextIndex < |c.keys| then s.nextIndex else |c.keys|
  }

  ghost predicate BeingProbed(s: State, i: nat) { Probing(i) in s.workers }

  /** Workers hold different sites, all of them handed out; every site handed out has been
      probed once, in order. */
  ghost predicate Handout(c: Search, s: State) {
    && |s.workers| == WorkerCount(c) && |s.statuses| == |c.keys|
    && |s.probes| == Taken(c, s) && (forall i :: 0 <= i < |s.probes| ==> s.probes[i] == i)
    && (forall w :: 0 <= w < |s.workers| && s.workers[w].Probing? ==> s.workers[w].site < Taken(c, s))
    && (forall v, w :: 0 <= v < w < |s.workers| && s.workers[v].Probing? ==> s.workers[v] != s.workers[w])
    && (Returned in s.workers ==> s.cancelled || s.nextIndex >= |c.keys|)
    && (Thrown in s.workers ==> s.cancelled)
    && (s.outcome == Complete ==> AllReturned(s.workers) && s.nextIndex >= |c.keys|)
    && (s.outcome == Rejected ==> s.cancelled)
  }

  /** The search has not been stopped before its end. */
  predicate Uncut(s: State) { !s.cancelled || s.outcome == Complete }

  ghost predicate Progress(c: Search, s: State)
    requires c.Valid()
  {
    |s.statuses| == |c.keys| && (Uncut(s) ==>
      forall i :: 0 <= i < |c.keys| ==>
        s.statuses[i] == if i >= Taken(c, s) then Queued
                         else if BeingProbed(s, i) then Running
                         else StatusOf(c.answers[i]))
  }

  ghost predicate FromSite(c: Search, s: State, k: string, i: nat)
    requires c.Valid()
  {
    i < Taken(c, s) && !BeingProbed(s, i) && c.keys[i] == k && k in s.results
    && s.results[k] == c.answers[i].Items()
  }

  /** The result map holds answers of finished sites, and every finished site has an entry. */
  ghost predicate Results(c: Search, s: State)
    requires c.Valid()
  {
    && |s.log| > 0 && s.log[|s.log| - 1] == s.results
    && (forall k :: k in s.results ==> exists i: nat :: FromSite(c, s, k, i))
    && (Uncut(s) ==> forall i :: 0 <= i < Taken(c, s) && !BeingProbed(s, i) ==> c.keys[i] in s.results)
  }

  ghost predicate Inv(c: Search, s: State)
    requires c.Valid()
  {
    Handout(c, s) && Progress(c, s) && Results(c, s)
  }

  lemma {:induction false} AllReturnedMeans(workers: seq<Worker>)
    ensures AllReturned(workers) <==> forall w :: 0 <= w < |workers| ==> workers[w] == Returned
  {
    if workers != [] {
      AllReturnedMeans(workers[1..]);
    }
  }

  /** A site is under way after a worker changed iff it was before or the worker took it. */
  lemma WorkerChange(workers: seq<Worker>, w: nat, now: Worker, i: nat)
    requires w < |workers|
    requires forall u, v :: 0 <= u < v < |workers| && workers[u].Probing? ==> workers[u] != workers[v]
    ensures Probing(i) in workers[w := now]
            <==> now == Probing(i) || (Probing(i) in workers && workers[w] != Probing(i))
  {
    var next := workers[w := now];
    assert next[w] == now;
    if Probing(i) in workers && workers[w] != Probing(i) {
      var v :| 0 <= v < |workers| && workers[v] == Probing(i);
      assert next[v] == Probing(i);
    }
  }

  lemma TakeKeepsHandout(c: Search, s: State, w: nat)
    requires c.Valid() && Handout(c, s) && w < |s.workers| && s.workers[w] == Ready
    ensures Handout(c, TakeNext(c, s, w))
  {
    AllReturnedMeans(s.workers);
  }

  lemma TakeKeeps(c: Search, s: State, w: nat)
    requires c.Valid() && Inv(c, s) && w < |s.workers| && s.workers[w] == Ready
    ensures Inv(c, TakeNext(c, s, w))
  {
    var t := TakeNext(c, s, w);
    TakeKeepsHandout(c, s, w);
    assert s.outcome != Complete by { AllReturnedMeans(s.workers); }
    forall i: nat ensures BeingProbed(t, i) <==> BeingProbed(s, i) || t.workers[w] == Probing(i) {
      WorkerChange(s.workers, w, t.workers[w], i);
    }
    forall k | k in t.results ensures exists i: nat :: FromSite(c, t, k, i) {
      var i: nat :| FromSite(c, s, k, i);
      assert FromSite(c, t, k, i);
    }
  }

  lemma StoreKeepsHandout(c: Search, s: State, w: nat)
    requires c.Valid() && Handout(c, s) && w < |s.workers| && s.workers[w].Probing?
    ensures Handout(c, Store(c, s, w))
  {
    AllReturnedMeans(s.workers);
  }

  lemma StoreKeeps(c: Search, s: State, w: nat)
    requires c.Valid() && Inv(c, s) && w < |s.workers| && s.workers[w].Probing?
    ensures Inv(c, Store(c, s, w))
  {
    var t := Store(c, s, w);
    var site := s.workers[w].site;
    StoreKeepsHandout(c, s, w);
    assert s.outcome != Complete by { AllReturnedMeans(s.workers); }
    forall i: nat ensures BeingProbed(t, i) <==> BeingProbed(s, i) && i != site {
      WorkerChange(s.workers, w, t.workers[w], i);
    }
    forall k | k in t.results ensures exists i: nat :: FromSite(c, t, k, i) {
      if !s.cancelled && k == c.keys[site] {
        assert FromSite(c, t, k, site);
      } else {
        var i: nat :| FromSite(c, s, k, i);
        assert FromSite(c, t, k, i);
      }
    }
  }

  /** A cancel and the two ways to end move no worker and store nothing. */
  lemma EndKeeps(c: Search, s: State, e: Event)
    requires c.Valid() && Inv(c, s) && Enabled(c, s, e) && !e.Take? && !e.Resolve?
    ensures Inv(c, Apply(c, s, e))
  {
    AllReturnedMeans(s.workers);
    var t := Apply(c, s, e);
    forall k | k in t.results ensures exists i: nat :: FromSite(c, t, k, i) {
      var i: nat :| FromSite(c, s, k, i);
      assert FromSite(c, t, k, i);
    }
  }

  lemma ApplyKeeps(c: Search, s: State, e: Event)
    requires c.Valid() && Inv(c, s)
    ensures Inv(c, Apply(c, s, e))
  {
    hide Inv, TakeNext, Store, MarkCancelled;
    if Enabled(c, s, e) {
      match e
      case Take(w) => TakeKeeps(c, s, w);
      case Resolve(w) => StoreKeeps(c, s, w);
      case _ => EndKeeps(c, s, e);
    }
  }

  lemma {:induction false} ReachableInv(c: Search, events: seq<Event>)
    requires c.Valid()
    ensures Inv(c, Run(c, events))
  {
    if events != [] {
      ReachableInv(c, events[..|events| - 1]);
      ApplyKeeps(c, Run(c, events[..|events| - 1]), events[|events| - 1]);
    }
  }
}
