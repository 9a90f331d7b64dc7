/** One cancellable operation: a signal, a timer, and any number of waits that race a promise
    against the signal. */
module RequestTask {

  /** How a wait's own promise stands. */
  datatype Settlement<+T> = Pending | Resolved(value: T) | Rejected

  /** The signal, and the waits in the order of their calls. */
  datatype TaskState<T> = TaskState(aborted: bool, armed: bool, linked: bool, waits: seq<Settlement<T>>)

  datatype Event<T> =
    | Cancel
    | TimerFires
    | ParentAborts
    | Dispose
    | Wait
    | Fulfil(k: nat, value: T)
    | Fail(k: nat)

  /** Aborting runs the listener of every wait that is still pending. */
  function Aborted<T>(s: TaskState<T>): (t: TaskState<T>)
    ensures t.aborted && |t.waits| == |s.waits|
    ensures forall k :: 0 <= k < |s.waits| ==>
              t.waits[k] == if s.waits[k].Pending? && !s.aborted then Rejected else s.waits[k]
  {
    if s.aborted then s
    else
      s.(aborted := true,
         waits := seq(|s.waits|, k requires 0 <= k < |s.waits| =>
           if s.waits[k].Pending? then Rejected else s.waits[k]))
  }

  /** A fulfilled promise resolves a pending wait unless the signal has aborted. */
  function Fulfilled<T>(s: TaskState<T>, k: nat, v: T): TaskState<T> {
    if k < |s.waits| && s.waits[k].Pending?
    then s.(waits := s.waits[k := if s.aborted then Rejected else Resolved(v)])
    else s
  }

  function Failed<T>(s: TaskState<T>, k: nat): TaskState<T> {
    if k < |s.waits| && s.waits[k].Pending? then s.(waits := s.waits[k := Rejected]) else s
  }

  function Apply<T>(s: TaskState<T>, e: Event<T>): TaskState<T> {
    match e
    case Cancel => Aborted(s)
    case TimerFires => if s.armed then Aborted(s) else s
    case ParentAborts => if s.linked then Aborted(s) else s
    case Dispose => s.(armed := false, linked := false)
    case Wait => s.(waits := s.waits + [if s.aborted then Rejected else Pending])
    case Fulfil(k, v) => Fulfilled(s, k, v)
    case Fail(k) => Failed(s, k)
  }

  /** A task created under a parent, which may have been aborted before. */
  function New<T>(parentAborted: bool): TaskState<T> { TaskState(parentAborted, true, true, []) }

  function Run<T>(parentAborted: bool, events: seq<Event<T>>): TaskState<T> {
    if events == [] then New(parentAborted)
    else Apply(Run(parentAborted, events[..|events| - 1]), events[|events| - 1])
  }

  /** The timer and the parent count until the task is disposed of. */
  ghost predicate EndsTask<T(!new)>(events: seq<Event<T>>, n: nat) {
    && n < |events|
    && (events[n].Cancel? || ((events[n].TimerFires? || events[n].ParentAborts?) && Dispose !in events[..n]))
  }

  lemma {:induction false} ArmedIff<T>(parentAborted: bool, events: seq<Event<T>>)
    ensures var s := Run(parentAborted, events);
            (s.armed <==> Dispose !in events) && (s.linked <==> Dispose !in events)
  {
    if events != [] {
      ArmedIff(parentAborted, events[..|events| - 1]);
      assert events == events[..|events| - 1] + [events[|events| - 1]];
    }
  }

  /** The signal has aborted exactly when the parent's had, the task was cancelled, or its time
      was up or its parent aborted before it was disposed of. */
  lemma {:induction false} AbortedIff<T(!new)>(parentAborted: bool, events: seq<Event<T>>)
    ensures Run(parentAborted, events).aborted <==> parentAborted || exists n :: EndsTask(events, n)
  {
    if events != [] {
      var before, e := events[..|events| - 1], events[|events| - 1];
      AbortedIff(parentAborted, before);
      ArmedIff(parentAborted, before);
      forall n: nat | n < |before| ensures EndsTask(events, n) <==> EndsTask(before, n) {
        assert events[..n] == before[..n];
      }
      assert EndsTask(events, |before|)
             <==> e.Cancel? || ((e.TimerFires? || e.ParentAborts?) && Dispose !in before);
    }
  }

  /** Wait `k` is still undecided after the first `n` events. */
  ghost predicate Open<T>(parentAborted: bool, events: seq<Event<T>>, n: nat, k: nat)
    requires n <= |events|
  {
    var s := Run(parentAborted, events[..n]);
    k < |s.waits| && s.waits[k].Pending?
  }

  lemma {:induction false} AbortedHasNoPending<T>(parentAborted: bool, events: seq<Event<T>>)
    ensures var s := Run(parentAborted, events);
            s.aborted ==> forall k :: 0 <= k < |s.waits| ==> !s.waits[k].Pending?
  {
    if events != [] {
      AbortedHasNoPending(parentAborted, events[..|events| - 1]);
    }
  }

  /** Event `n` fulfils the promise of wait `k` with `v`, while the wait is undecided and the
      signal has not aborted. */
  ghost predicate Gives<T(!new)>(parentAborted: bool, events: seq<Event<T>>, n: nat, k: nat, v: T) {
    && n < |events| && events[n] == Fulfil(k, v)
    && Open(parentAborted, events, n, k) && !Run(parentAborted, events[..n]).aborted
  }

  predicate Has<T(==)>(s: TaskState<T>, k: nat, v: T) { k < |s.waits| && s.waits[k] == Resolved(v) }

  lemma StepGives<T>(s: TaskState<T>, e: Event<T>, k: nat, v: T)
    requires s.aborted ==> forall j :: 0 <= j < |s.waits| ==> !s.waits[j].Pending?
    ensures Has(Apply(s, e), k, v)
            <==> Has(s, k, v) || (e == Fulfil(k, v) && k < |s.waits| && s.waits[k].Pending? && !s.aborted)
  {
  }

  lemma GivesBefore<T(!new)>(parentAborted: bool, events: seq<Event<T>>, e: Event<T>, n: nat, k: nat, v: T)
    ensures n < |events| ==> (Gives(parentAborted, events + [e], n, k, v) <==> Gives(parentAborted, events, n, k, v))
  {
    hide Run;
    if n < |events| {
      assert (events + [e])[..n] == events[..n];
    }
  }

  /** A wait gives a value exactly when, at some moment, its promise was fulfilled with that
      value while the wait was undecided and the signal had not aborted. */
  lemma {:induction false} WaitGivesValueIff<T(!new)>(parentAborted: bool, events: seq<Event<T>>, k: nat, v: T)
    ensures Has(Run(parentAborted, events), k, v) <==> exists n :: Gives(parentAborted, events, n, k, v)
  {
    if events != [] {
      hide Run, Apply, Gives, Has;
      var before, e := events[..|events| - 1], events[|events| - 1];
      assert events == before + [e];
      WaitGivesValueIff(parentAborted, before, k, v);
      AbortedHasNoPending(parentAborted, before);
      RunOneMore(parentAborted, before, e);
      StepGives(Run(parentAborted, before), e, k, v);
      LastGives(parentAborted, before, e, k, v);
      if n :| Gives(parentAborted, events, n, k, v) {
        GivesInRange(parentAborted, events, n, k, v);
        GivesBefore(parentAborted, before, e, n, k, v);
      }
      if n :| Gives(parentAborted, before, n, k, v) {
        GivesInRange(parentAborted, before, n, k, v);
        GivesBefore(parentAborted, before, e, n, k, v);
      }
    }
  }

  lemma GivesInRange<T(!new)>(parentAborted: bool, events: seq<Event<T>>, n: nat, k: nat, v: T)
    ensures Gives(parentAborted, events, n, k, v) ==> n < |events|
  {
  }

  lemma LastGives<T(!new)>(parentAborted: bool, before: seq<Event<T>>, e: Event<T>, k: nat, v: T)
    ensures var s := Run(parentAborted, before);
            Gives(parentAborted, before + [e], |before|, k, v)
            <==> e == Fulfil(k, v) && k < |s.waits| && s.waits[k].Pending? && !s.aborted
  {
    assert (before + [e])[..|before|] == before;
  }

  /** Once the signal has aborted no wait changes to a value, however its promise ends. */
  lemma {:induction false} NoValueAfterAbort<T>(parentAborted: bool, events: seq<Event<T>>, more: seq<Event<T>>, k: nat)
    requires Run(parentAborted, events).aborted
    ensures Run(parentAborted, events + more).aborted
    ensures var s, t := Run(parentAborted, events), Run(parentAborted, events + more);
            k < |t.waits| && t.waits[k].Resolved? ==> k < |s.waits| && s.waits[k] == t.waits[k]
    decreases |more|
  {
    hide Run, Apply;
    if more == [] {
      assert events + more == events;
    } else {
      var less, last := more[..|more| - 1], more[|more| - 1];
      NoValueAfterAbort(parentAborted, events, less, k);
      AbortedHasNoPending(parentAborted, events + less);
      NothingSettlesOnceAborted(Run(parentAborted, events + less), last, k);
      RunOneMore(parentAborted, events + less, last);
      assert events + more == events + less + [last];
    }
  }

  lemma RunOneMore<T>(parentAborted: bool, events: seq<Event<T>>, e: Event<T>)
    ensures Run(parentAborted, events + [e]) == Apply(Run(parentAborted, events), e)
  {
    assert (events + [e])[..|events|] == events;
  }

  lemma NothingSettlesOnceAborted<T>(s: TaskState<T>, e: Event<T>, k: nat)
    requires s.aborted && forall j :: 0 <= j < |s.waits| ==> !s.waits[j].Pending?
    ensures var t := Apply(s, e);
            t.aborted && (k < |t.waits| && t.waits[k].Resolved? ==> k < |s.waits| && s.waits[k] == t.waits[k])
  {
  }

  /** A value that was settled before the abort is still handed over after it: this is why
      the callers check the signal again behind a wait. */
  lemma SettledValueOutlivesAbort()
    ensures exists events: seq<Event<int>> ::
              var s := Run(false, events); s.aborted && |s.waits| > 0 && s.waits[0] == Resolved(7)
  {
    var e1: seq<Event<int>> := [Wait];
    var e2 := [Wait, Fulfil(0, 7)];
    var e3 := [Wait, Fulfil(0, 7), Cancel];
    assert e1[..0] == [] && e2[..1] == e1 && e3[..2] == e2;
    assert Run(false, e1).waits == [Pending];
    assert Run(false, e3).aborted;
  }

  // ------------------------------------------------------------- the object

  class Task<T> {
    var aborted: bool
    var armed: bool
    var linked: bool
    var waits: seq<Settlement<T>>

    constructor (parentAborted: bool)
      ensures Valid() && State() == New(parentAborted)
    {
      aborted, armed, linked, waits := parentAborted, true, true, [];
    }

    ghost function State(): TaskState<T>
      reads this
    {
      TaskState(aborted, armed, linked, waits)
    }

    /** Once the signal has aborted no wait is undecided. */
    ghost predicate Valid()
      reads this
    {
      aborted ==> forall k :: 0 <= k < |waits| ==> !waits[k].Pending?
    }

    /** `cancel()`: every wait that was undecided is rejected, the others stay as they are. */
    method AbortNow()
      requires Valid()
      modifies this
      ensures Valid() && aborted && State() == Apply(old(State()), Cancel)
      ensures |waits| == old(|waits|) && forall k :: 0 <= k < |waits| ==>
                waits[k] == if old(waits)[k].Pending? then Rejected else old(waits)[k]
    {
      if aborted {
        return;
      }
      aborted := true;
      for k := 0 to |waits|
        invariant aborted && armed == old(armed) && linked == old(linked) && |waits| == old(|waits|)
        invariant forall j :: 0 <= j < k ==>
                    waits[j] == if old(waits)[j].Pending? then Rejected else old(waits)[j]
        invariant forall j :: k <= j < |waits| ==> waits[j] == old(waits)[j]
      {
        if waits[k].Pending? {
          waits := waits[k := Rejected];
        }
      }
      assert waits == Aborted(old(State())).waits;
    }

    /** `check()`: true when it does not throw. */
    method Check() returns (passes: bool)
      ensures passes <==> !aborted
    {
      passes := !aborted;
    }

    method OnTimer()
      requires Valid()
      modifies this
      ensures Valid() && State() == Apply(old(State()), TimerFires)
    {
      if armed {
        AbortNow();
      }
    }

    method OnParentAbort()
      requires Valid()
      modifies this
      ensures Valid() && State() == Apply(old(State()), ParentAborts)
    {
      if linked {
        AbortNow();
      }
    }

    method DisposeNow()
      requires Valid()
      modifies this
      ensures Valid() && State() == Apply(old(State()), Dispose)
    {
      armed := false;
      linked := false;
    }

    /** `wait(promise)`: a new wait, already rejected when the signal has aborted. */
    method BeginWait() returns (k: nat)
      requires Valid()
      modifies this
      ensures Valid() && k == old(|waits|) && State() == Apply(old(State()), Wait)
    {
      k := |waits|;
      waits := waits + [Pending];
      if aborted {
        waits := waits[k := Rejected];
      }
    }

    method OnFulfilled(k: nat, v: T)
      requires Valid()
      modifies this
      ensures Valid() && State() == Apply(old(State()), Fulfil(k, v))
    {
      if k < |waits| && waits[k].Pending? {
        waits := waits[k := if aborted then Rejected else Resolved(v)];
      }
    }

    method OnFailed(k: nat)
      requires Valid()
      modifies this
      ensures Valid() && State() == Apply(old(State()), Fail(k))
    {
      if k < |waits| && waits[k].Pending? {
        waits := waits[k := Rejected];
      }
    }
  }
}
