/** A search that nobody cancels comes to its end, whatever the schedule. */
module SearchProgress {
  import opened SearchPool

  // ---------------------------------------------------------------- the measure

  function WorkerWork(w: Worker): nat {
    match w
    case Probing(_) => 2
    case Ready => 1
    case _ => 0
  }

  function AllWork(workers: seq<Worker>): nat {
    if workers == [] then 0 else WorkerWork(workers[0]) + AllWork(workers[1..])
  }

  /** What is still to be done: sites to hand out, workers under way, the end. */
  function Measure(c: Search, s: State): nat {
    (if s.nextIndex < |c.keys| then 2 * (|c.keys| - s.nextIndex) else 0)
    + AllWork(s.workers)
    + (if s.outcome == Pending then 1 else 0)
  }

  lemma {:induction false} WorkAfter(workers: seq<Worker>, w: nat, now: Worker)
    requires w < |workers|
    ensures AllWork(workers[w := now]) + WorkerWork(workers[w]) == AllWork(workers) + WorkerWork(now)
  {
    hide WorkerWork;
    if w > 0 {
      WorkAfter(workers[1..], w - 1, now);
      assert workers[w := now][1..] == workers[1..][w - 1 := now];
    } else {
      assert workers[0 := now][1..] == workers[1..];
    }
  }

  /** Every event but a cancel brings the search nearer to its end. */
  lemma EventShrinks(c: Search, s: State, e: Event)
    requires c.Valid() && Inv(c, s) && Enabled(c, s, e) && e != Cancel
    ensures Measure(c, Apply(c, s, e)) < Measure(c, s)
  {
    hide Progress, Results, AllWork, MarkCancelled;
    match e
    case Take(w) =>
      WorkAfter(s.workers, w, Apply(c, s, e).workers[w]);
    case Resolve(w) =>
      WorkAfter(s.workers, w, Apply(c, s, e).workers[w]);
    case Finish(_) =>
    case Reject(_) =>
  }

  /** As long as the search has no outcome, something can happen. */
  lemma GoesOn(c: Search, s: State) returns (e: Event)
    requires c.Valid() && Inv(c, s) && s.outcome == Pending
    ensures e != Cancel && Enabled(c, s, e)
  {
    hide Progress, Results;
    AllReturnedMeans(s.workers);
    if w :| 0 <= w < |s.workers| && s.workers[w] == Ready {
      e := Take(w);
    } else if w :| 0 <= w < |s.workers| && s.workers[w].Probing? {
      e := Resolve(w);
    } else if Thrown in s.workers {
      e := Reject(true);
    } else {
      e := Finish(true);
    }
  }

  // ------------------------------------------------------------------ the results

  lemma RunAppend(c: Search, events: seq<Event>, e: Event)
    ensures Run(c, events + [e]) == Apply(c, Run(c, events), e)
  {
    assert (events + [e])[..|events|] == events;
  }

  /** From every state an end is reached without a cancel, completion if there was none. */
  lemma {:induction false} EndIsReached(c: Search, events: seq<Event>) returns (more: seq<Event>)
    requires c.Valid()
    ensures Cancel !in more && Run(c, events + more).outcome != Pending
    ensures !Run(c, events).cancelled ==> Run(c, events + more).outcome == Complete
    decreases Measure(c, Run(c, events))
  {
    hide Run, Measure, Progress, Results;
    var s := Run(c, events);
    ReachableInv(c, events);
    if s.outcome != Pending {
      more := [];
      assert events + more == events;
    } else {
      var e := GoesOn(c, s);
      EventShrinks(c, s, e);
      RunAppend(c, events, e);
      StaysUncancelled(c, s, e);
      var rest := EndIsReached(c, events + [e]);
      more := [e] + rest;
      assert events + more == events + [e] + rest;
    }
  }

  lemma StaysUncancelled(c: Search, s: State, e: Event)
    requires e != Cancel
    ensures Apply(c, s, e).cancelled == s.cancelled
  {
  }

  /** Each of the events can happen when its turn comes. */
  ghost predicate AllHappen(c: Search, events: seq<Event>, more: seq<Event>) {
    forall n :: 0 <= n < |more| ==> Enabled(c, Run(c, events + more[..n]), more[n])
  }

  /** However it goes on without a cancel, only so many events can happen. */
  lemma {:induction false} EventsAreBounded(c: Search, events: seq<Event>, more: seq<Event>)
    requires c.Valid() && AllHappen(c, events, more) && Cancel !in more
    ensures |more| + Measure(c, Run(c, events + more)) <= Measure(c, Run(c, events))
    decreases |more|
  {
    hide Run, Measure, Enabled, Apply, Inv;
    if more == [] {
      assert events + more == events;
    } else {
      var front, e := more[..|more| - 1], more[|more| - 1];
      forall n | 0 <= n < |front| ensures Enabled(c, Run(c, events + front[..n]), front[n]) {
        assert front[..n] == more[..n];
      }
      EventsAreBounded(c, events, front);
      assert events + more == events + front + [e];
      RunAppend(c, events + front, e);
      ReachableInv(c, events + front);
      EventShrinks(c, Run(c, events + front), e);
    }
  }

  /** In particular a whole search takes at most two events for each site, one for each worker
      and one for the end. */
  lemma SearchIsBounded(c: Search, events: seq<Event>)
    requires c.Valid() && AllHappen(c, [], events) && Cancel !in events
    ensures |events| <= 2 * |c.keys| + WorkerCount(c) + 1
  {
    hide Run, Enabled;
    EventsAreBounded(c, [], events);
    assert [] + events == events;
    InitialMeasure(c);
  }

  lemma InitialMeasure(c: Search)
    ensures Measure(c, Run(c, [])) == 2 * |c.keys| + WorkerCount(c) + 1
  {
    ReadyWork(Initial(c).workers);
  }

  lemma {:induction false} ReadyWork(workers: seq<Worker>)
    requires forall w :: 0 <= w < |workers| ==> workers[w] == Ready
    ensures AllWork(workers) == |workers|
  {
    if workers != [] {
      ReadyWork(workers[1..]);
    }
  }
}
