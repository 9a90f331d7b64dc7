/** The search as it runs: the workers share one index, one result map and the published list.
    Each stretch of code between two waits is proved to be the step of the same kind in
    `SearchPool`. */
module SearchHost {
  import opened SearchPool

  class SearchRun {
    const search: Search
    var workers: seq<Worker>
    var nextIndex: nat
    var statuses: seq<Status>
    var results: map<string, seq<nat>>
    var items: seq<nat>
    var cancelled: bool
    var outcome: Outcome
    ghost var probes: seq<nat>
    ghost var log: seq<map<string, seq<nat>>>

    ghost function Snapshot(): State
      reads this
    {
      State(workers, nextIndex, statuses, results, probes, log, cancelled, outcome)
    }

    /** The list on show is the one published last. */
    ghost predicate Shown()
      reads this
    {
      |log| > 0 && items == Items(search, Snapshot())
    }

    ghost predicate Valid()
      reads this
    {
      search.Valid() && Inv(search, Snapshot()) && Shown()
    }

    constructor (search: Search)
      requires search.Valid()
      ensures this.search == search && Snapshot() == Initial(search) && Valid()
    {
      this.search := search;
      workers, nextIndex := seq(WorkerCount(search), _ => Ready), 0;
      statuses, results := seq(|search.keys|, _ => Queued), map[];
      items, cancelled, outcome := [], false, Pending;
      probes, log := [], [];
      new;
      Publish();
      assert [] + [results] == [results];
      ReachableInv(search, []);
    }

    /** `publish()`, when the task has not been cancelled. */
    method Publish()
      modifies this`items, this`log
      ensures log == old(log) + [results] && Shown()
    {
      items := [];
      assert search.keys[0..] == search.keys;
      for n := 0 to |search.keys|
        invariant log == old(log)
        invariant items + Flatten(search.keys[n..], results) == Flatten(search.keys, results)
      {
        hide Shown, Flatten;
        var key := search.keys[n];
        FlattenFrom(search.keys, results, n);
        if key in results {
          items := items + results[key];
        }
      }
      assert search.keys[|search.keys|..] == [];
      log := log + [results];
    }

    /** A worker's turn up to the probe. */
    method TakeSite(w: nat)
      requires Valid() && w < |workers| && workers[w] == Ready
      modifies this
      ensures Valid() && Snapshot() == Apply(search, old(Snapshot()), Take(w))
    {
      hide Inv;
      ApplyKeeps(search, Snapshot(), Take(w));
      if cancelled {
        workers := workers[w := Returned];
        return;
      }
      var index := nextIndex;
      nextIndex := nextIndex + 1;
      if index >= |search.keys| || index >= |statuses| {
        workers := workers[w := Returned];
        return;
      }
      statuses := statuses[index := Running];
      Publish();
      workers := workers[w := Probing(index)];
      probes := probes + [index];
    }

    /** The same worker's turn once the probe has returned. */
    method StoreResult(w: nat)
      requires Valid() && w < |workers| && workers[w].Probing?
      modifies this
      ensures Valid() && Snapshot() == Apply(search, old(Snapshot()), Resolve(w))
      ensures old(workers[w]).site < |search.keys| && (!cancelled ==>
                statuses[old(workers[w]).site] == StatusOf(search.answers[old(workers[w]).site]))
    {
      hide Inv;
      SiteOf(search, Snapshot(), w);
      ApplyKeeps(search, Snapshot(), Resolve(w));
      if cancelled {
        workers := workers[w := Thrown];
        return;
      }
      var site := workers[w].site;
      var answer := search.answers[site];
      var found: seq<nat> := if answer.found then answer.listed else [];
      statuses := statuses[site :=
        if answer.unsupported then Unsupported
        else if !answer.found then Failed
        else if |found| > 0 then Success
        else Empty];
      results := results[search.keys[site] := found];
      Publish();
      workers := workers[w := Ready];
    }

    /** All workers have returned: the search completes, or the cancel is noticed only now. */
    method AllDone(current: bool)
      requires Valid() && outcome == Pending && AllReturned(workers)
      modifies this
      ensures Valid() && Snapshot() == Apply(search, old(Snapshot()), Finish(current))
      ensures outcome == if cancelled then Rejected else Complete
    {
      hide Inv;
      ApplyKeeps(search, Snapshot(), Finish(current));
      if cancelled {
        if current {
          MarkUnfinished();
        }
        outcome := Rejected;
        return;
      }
      outcome := Complete;
      Publish();
    }

    /** The catch block: what was not finished is shown as cancelled, if the search is still
        the current one. */
    method FailWith(current: bool)
      requires Valid() && outcome == Pending && Thrown in workers
      modifies this
      ensures Valid() && Snapshot() == Apply(search, old(Snapshot()), Reject(current))
    {
      hide Inv;
      ApplyKeeps(search, Snapshot(), Reject(current));
      if current {
        MarkUnfinished();
      }
      outcome := Rejected;
    }

    method MarkUnfinished()
      modifies this`statuses
      ensures statuses == MarkCancelled(old(statuses))
    {
      for n := 0 to |statuses|
        invariant |statuses| == old(|statuses|)
        invariant forall i :: 0 <= i < |statuses| ==>
                    statuses[i] == if i < n then MarkCancelled(old(statuses))[i] else old(statuses)[i]
      {
        if statuses[n] == Queued || statuses[n] == Running {
          statuses := statuses[n := Cancelled];
        }
      }
    }
  }

  lemma FlattenFrom(keys: seq<string>, results: map<string, seq<nat>>, n: nat)
    requires n < |keys|
    ensures Flatten(keys[n..], results)
            == (if keys[n] in results then results[keys[n]] else []) + Flatten(keys[n + 1..], results)
  {
    assert keys[n..][1..] == keys[n + 1..];
  }

  lemma SiteOf(c: Search, s: State, w: nat)
    requires c.Valid() && Inv(c, s) && w < |s.workers| && s.workers[w].Probing?
    ensures s.workers[w].site < |c.keys| == |s.statuses|
  {
  }
}
