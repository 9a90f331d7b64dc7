/** Rest is reached: as long as nobody calls, every event that changes anything brings the
    machine nearer to rest, and it is stuck only when it rests. */
module PlaybackProgress {
  import opened Options
  import opened PlaybackProtocol
  import opened PlaybackSafety

  /** A new call from outside. */
  predicate IsCall(e: Event) { e.BeginPlay? || e.BeginStop? || e.CancelFallback? }

  // ---------------------------------------------------------------- the measure

  function PhaseRank(p: Phase): nat {
    match p
    case WindowStop => 8
    case ReleasingOld => 7
    case Preparing => 6
    case Opening => 5
    case Initialising => 4
    case Starting => 3
    case Recording => 2
    case Releasing => 1
    case Done => 0
  }

  function ReplyRank(r: Reply): nat {
    match r
    case Sent => 4
    case Answered(_) => 3
    case _ => 0
  }

  /** What an attempt can still do: its waits, its requests, the closes under way, its abort and
      the loss of its engine. */
  function Work(a: Attempt): nat {
    10 * PhaseRank(a.phase) + ReplyRank(a.opening) + ReplyRank(a.starting)
    + a.sourceCloses + a.strayCloses + a.proxyCloses
    + (if a.aborted then 0 else 3) + (if a.known then 1 else 0)
  }

  function StopWork(stop: Stop): nat {
    match stop.phase case ClosingMpv => 20 case AfterRelease => 10 case Stopped => 0
  }

  function AllWork(attempts: seq<Attempt>): nat {
    if attempts == [] then 0 else Work(attempts[0]) + AllWork(attempts[1..])
  }

  function AllStopWork(stops: seq<Stop>): nat {
    if stops == [] then 0 else StopWork(stops[0]) + AllStopWork(stops[1..])
  }

  function Measure(s: State): nat { AllWork(s.attempts) + AllStopWork(s.stops) }

  lemma {:induction false} WorkAfter(attempts: seq<Attempt>, i: nat, a: Attempt)
    requires i < |attempts|
    ensures AllWork(attempts[i := a]) + Work(attempts[i]) == AllWork(attempts) + Work(a)
  {
    hide Work;
    if i > 0 {
      WorkAfter(attempts[1..], i - 1, a);
      assert attempts[i := a][1..] == attempts[1..][i - 1 := a];
    } else {
      assert attempts[0 := a][1..] == attempts[1..];
    }
  }

  lemma {:induction false} StopWorkAfter(stops: seq<Stop>, k: nat, stop: Stop)
    requires k < |stops|
    ensures AllStopWork(stops[k := stop]) + StopWork(stops[k]) == AllStopWork(stops) + StopWork(stop)
  {
    hide StopWork;
    if k > 0 {
      StopWorkAfter(stops[1..], k - 1, stop);
      assert stops[k := stop][1..] == stops[1..][k - 1 := stop];
    } else {
      assert stops[0 := stop][1..] == stops[1..];
    }
  }

  /** One attempt changes. */
  lemma PutWork(s: State, i: nat, a: Attempt)
    requires i < |s.attempts|
    ensures Measure(Put(s, i, a)) + Work(s.attempts[i]) == Measure(s) + Work(a)
  {
    hide Work, AllWork, AllStopWork;
    WorkAfter(s.attempts, i, a);
  }

  // ----------------------------------------------------------- every event shrinks it

  /** Releasing a session sends two closes. */
  lemma ReleaseWork(a: Attempt)
    ensures Work(ReleaseKnown(a)) == Work(a) + 2 && Work(ReleaseLookedUp(a)) == Work(a) + 2
    ensures Work(Catch(a)) == Work(a) + 12 - 10 * PhaseRank(a.phase)
  {
  }

  lemma AbortShrinks(a: Attempt)
    ensures AbortAttempt(a) == a || Work(AbortAttempt(a)) < Work(a)
  {
  }

  lemma CancelShrinks(s: State)
    ensures CancelLane(s) == s || Measure(CancelLane(s)) < Measure(s)
  {
    hide Work, Measure, AbortAttempt;
    if s.lane.Some? && s.lane.value < |s.attempts| {
      var i := s.lane.value;
      AbortShrinks(s.attempts[i]);
      PutWork(s, i, AbortAttempt(s.attempts[i]));
    }
  }

  lemma FinishWork(s: State, i: nat)
    requires i < |s.attempts|
    ensures Measure(Finish(s, i)) + 10 * PhaseRank(s.attempts[i].phase) == Measure(s)
  {
    hide Measure;
    PutWork(s, i, s.attempts[i].(phase := Done));
    MeasureIgnores(Put(s, i, s.attempts[i].(phase := Done)), Finish(s, i));
  }

  lemma MeasureIgnores(s: State, t: State)
    requires s.attempts == t.attempts && s.stops == t.stops
    ensures Measure(s) == Measure(t)
  {
  }

  lemma WindowShrinks(s: State, i: nat, initialise: bool)
    requires i < |s.attempts| && s.attempts[i].phase == WindowStop
    ensures Measure(PlayResumes(s, i, initialise)) < Measure(s)
  {
    hide Measure, ReleaseLookedUp, ReleaseKnown;
    var a := s.attempts[i];
    if a.taken.Some? && a.taken.value < |s.attempts| {
      var t := a.taken.value;
      var released := Put(s, t, ReleaseLookedUp(s.attempts[t]));
      ReleaseWork(s.attempts[t]);
      PutWork(s, t, ReleaseLookedUp(s.attempts[t]));
      ReleaseKeepsPhase(s.attempts[t]);
      PutWork(released, i, released.attempts[i].(phase := ReleasingOld, passedWindow := true));
    } else {
      PutWork(s, i, a.(phase := Preparing, passedWindow := true));
    }
  }

  lemma ReleaseKeepsPhase(a: Attempt)
    ensures ReleaseLookedUp(a).phase == a.phase && ReleaseKnown(a).phase == a.phase
  {
  }

  lemma StartingShrinks(s: State, i: nat, initialise: bool)
    requires i < |s.attempts| && s.attempts[i].phase == Starting
    ensures Measure(PlayResumes(s, i, initialise)) < Measure(s)
  {
    hide Measure, ReleaseLookedUp, ReleaseKnown, Catch;
    var a := s.attempts[i];
    ReleaseWork(a);
    ReleaseKeepsPhase(a);
    PutWork(s, i, Catch(a));
    PutWork(s, i, ReleaseKnown(a));
    if a.intent != s.intent {
      FinishWork(Put(s, i, ReleaseKnown(a)), i);
    } else {
      var b := a.(phase := Recording, committed := true);
      PutWork(s, i, b);
      MeasureIgnores(Put(s, i, b), Put(s, i, b).(session := Some(i), commits := s.commits + [i]));
    }
  }

  /** From one wait to the next. */
  lemma PreparedWork(a: Attempt)
    ensures a.phase == ReleasingOld ==> Work(a.(phase := Preparing)) < Work(a)
  {
  }

  lemma OpeningWork(a: Attempt)
    ensures a.phase == Preparing ==> Work(a.(phase := Opening, opening := Sent)) < Work(a)
  {
  }

  lemma InitialisingWork(a: Attempt)
    ensures a.phase == Opening ==> Work(a.(phase := Initialising)) < Work(a)
  {
  }

  lemma StartingWork(a: Attempt)
    ensures a.phase in {Opening, Initialising} ==> Work(a.(phase := Starting, starting := Sent)) < Work(a)
  {
  }

  lemma WaitWork(a: Attempt)
    ensures a.phase == ReleasingOld ==> Work(a.(phase := Preparing)) < Work(a)
    ensures a.phase == Preparing ==> Work(a.(phase := Opening, opening := Sent)) < Work(a)
    ensures a.phase == Opening ==> Work(a.(phase := Initialising)) < Work(a)
    ensures a.phase in {Opening, Initialising} ==> Work(a.(phase := Starting, starting := Sent)) < Work(a)
    ensures a.phase in {Preparing, Opening, Initialising} ==> Work(Catch(a)) < Work(a)
  {
    hide Catch, Work;
    ReleaseWork(a);
    PreparedWork(a);
    OpeningWork(a);
    InitialisingWork(a);
    StartingWork(a);
  }

  lemma ResumeShrinks(s: State, i: nat, initialise: bool)
    requires i < |s.attempts| && CanResume(s.attempts[i])
    ensures Measure(PlayResumes(s, i, initialise)) < Measure(s)
  {
    hide Measure, Work, Catch, Finish;
    var a := s.attempts[i];
    WaitWork(a);
    match a.phase
    case WindowStop => WindowShrinks(s, i, initialise);
    case ReleasingOld => PutWork(s, i, a.(phase := Preparing));
    case Preparing =>
      PutWork(s, i, Catch(a));
      PutWork(s, i, a.(phase := Opening, opening := Sent));
    case Opening =>
      PutWork(s, i, Catch(a));
      PutWork(s, i, a.(phase := Initialising));
      PutWork(s, i, a.(phase := Starting, starting := Sent));
    case Initialising =>
      PutWork(s, i, Catch(a));
      PutWork(s, i, a.(phase := Starting, starting := Sent));
    case Starting => StartingShrinks(s, i, initialise);
    case Recording => FinishWork(s, i);
    case Releasing => FinishWork(s, i);
  }

  lemma RejectShrinks(s: State, i: nat)
    requires i < |s.attempts| && CanReject(s.attempts[i])
    ensures Measure(Put(s, i, Catch(s.attempts[i]))) < Measure(s)
  {
    hide Measure, Work, Catch;
    ReleaseWork(s.attempts[i]);
    PutWork(s, i, Catch(s.attempts[i]));
  }

  lemma AnswerWork(a: Attempt, request: Request, ok: bool)
    requires RequestOf(a, request) == Sent
    ensures Work(AnswerRequest(a, request, ok)) < Work(a)
  {
  }

  lemma DeliverWork(a: Attempt, request: Request, intent: nat)
    requires RequestOf(a, request).Answered?
    ensures Work(DeliverAnswer(a, request, intent)) < Work(a)
  {
    hide ReleaseKnown;
    match request
    case Open =>
      var b := a.(opening := Delivered(a.opening.ok));
      assert Work(b) == Work(a) - 3;
      ReleaseWork(b);
    case Start =>
      var b := a.(starting := Delivered(a.starting.ok));
      assert Work(b) == Work(a) - 3;
      ReleaseWork(b);
  }

  lemma StopShrinks(s: State, k: nat)
    requires k < |s.stops| && s.stops[k].phase != Stopped
    ensures Measure(StopResumes(s, k)) < Measure(s)
  {
    hide Work, AllWork, AllStopWork, ReleaseLookedUp;
    var stop := s.stops[k];
    StopWorkAfter(s.stops, k, stop.(phase := AfterRelease));
    StopWorkAfter(s.stops, k, stop.(phase := Stopped));
    if stop.captured.Some? && stop.captured.value < |s.attempts| {
      var i := stop.captured.value;
      ReleaseWork(s.attempts[i]);
      WorkAfter(s.attempts, i, ReleaseLookedUp(s.attempts[i]));
    }
  }

  lemma CloseWork(a: Attempt)
    ensures a.sourceCloses > 0 ==> Work(a.(source := false, sourceCloses := a.sourceCloses - 1)) < Work(a)
    ensures a.strayCloses > 0 ==> Work(a.(strayCloses := a.strayCloses - 1)) < Work(a)
  {
  }

  lemma ProxyCloseWork(a: Attempt)
    ensures a.proxyCloses > 0 ==> Work(a.(proxy := false, proxyCloses := a.proxyCloses - 1)) < Work(a)
    ensures a.known ==> Work(a.(known := false)) < Work(a)
  {
  }

  /** Every event but a call shrinks the measure or changes nothing. */
  lemma EventShrinks(s: State, e: Event)
    requires !IsCall(e) && Apply(s, e) != s
    ensures Measure(Apply(s, e)) < Measure(s)
  {
    hide Measure, Work, PlayResumes, StopResumes, CancelLane, AbortAttempt, Catch, AnswerRequest, DeliverAnswer,
      CanResume, CanReject, RequestOf;
    match e
    case PlayPastDeadline => CancelShrinks(s);
    case Abort(i) =>
      AbortShrinks(s.attempts[i]);
      PutWork(s, i, AbortAttempt(s.attempts[i]));
    case Resume(i, initialise) => ResumeShrinks(s, i, initialise);
    case Reject(i) => RejectShrinks(s, i);
    case Answer(i, request, ok) =>
      AnswerWork(s.attempts[i], request, ok);
      PutWork(s, i, AnswerRequest(s.attempts[i], request, ok));
    case Deliver(i, request) =>
      DeliverWork(s.attempts[i], request, s.intent);
      PutWork(s, i, DeliverAnswer(s.attempts[i], request, s.intent));
    case CloseSource(i) => SmallStep(s, e, i);
    case CloseStray(i) => SmallStep(s, e, i);
    case CloseProxy(i) => SmallStep(s, e, i);
    case Forget(i) => SmallStep(s, e, i);
    case ResumeStop(k) => StopStep(s, k);
  }

  lemma SmallStep(s: State, e: Event, i: nat)
    requires e in {CloseSource(i), CloseStray(i), CloseProxy(i), Forget(i)} && Apply(s, e) != s
    ensures Measure(Apply(s, e)) < Measure(s)
  {
    hide Measure, Work;
    var a := s.attempts[i];
    CloseWork(a);
    ProxyCloseWork(a);
    var b := Apply(s, e).attempts[i];
    PutWork(s, i, b);
  }

  lemma StopStep(s: State, k: nat)
    requires Apply(s, ResumeStop(k)) != s
    ensures Measure(Apply(s, ResumeStop(k))) < Measure(s)
  {
    hide Measure;
    StopShrinks(s, k);
  }

  // ------------------------------------------------------------ stuck only at rest

  /** An attempt that has not settled goes on by one of these. */
  lemma AttemptGoesOn(s: State, i: nat) returns (e: Event)
    requires i < |s.attempts| && Local(s.attempts[i]) && !Settled(s.attempts[i])
    ensures !IsCall(e) && Enabled(s, e) && Measure(Apply(s, e)) < Measure(s)
    ensures !e.PlayPastDeadline? && !e.ResumeStop? && e.i == i && !e.Abort? && (e.Answer? ==> e.ok)
    ensures CanResume(s.attempts[i]) || s.attempts[i].phase == Done || !CanReject(s.attempts[i]) ==> !e.Reject?
  {
    hide Measure, Work, Releases, Covered, Resources, PlayResumes, AnswerRequest, DeliverAnswer, Catch;
    var a := s.attempts[i];
    if CanResume(a) {
      e := Resume(i, false);
      ResumeShrinks(s, i, false);
    } else if CanReject(a) {
      e := Reject(i);
      RejectShrinks(s, i);
    } else if a.opening == Sent || a.starting == Sent {
      var request := if a.opening == Sent then Open else Start;
      e := Answer(i, request, true);
      AnswerWork(a, request, true);
      PutWork(s, i, AnswerRequest(a, request, true));
    } else if a.opening.Answered? || a.starting.Answered? {
      var request := if a.opening.Answered? then Open else Start;
      e := Deliver(i, request);
      DeliverWork(a, request, s.intent);
      PutWork(s, i, DeliverAnswer(a, request, s.intent));
    } else {
      e := CloseGoesOn(s, i);
    }
  }

  lemma CloseGoesOn(s: State, i: nat) returns (e: Event)
    requires i < |s.attempts|
    requires var a := s.attempts[i]; a.sourceCloses > 0 || a.strayCloses > 0 || a.proxyCloses > 0
    ensures !IsCall(e) && Enabled(s, e) && Measure(Apply(s, e)) < Measure(s)
    ensures e in {CloseSource(i), CloseStray(i), CloseProxy(i)}
  {
    hide Measure, Work;
    var a := s.attempts[i];
    e := if a.sourceCloses > 0 then CloseSource(i) else if a.strayCloses > 0 then CloseStray(i) else CloseProxy(i);
    CloseWork(a);
    ProxyCloseWork(a);
    PutWork(s, i, Apply(s, e).attempts[i]);
  }

  /** Where nothing but a call can change anything, everything has settled. */
  lemma GoesOn(s: State) returns (e: Event)
    requires Inv(s) && !Quiescent(s)
    ensures !IsCall(e) && Enabled(s, e) && Measure(Apply(s, e)) < Measure(s)
  {
    hide Measure, Local, Settled, OneLive, Intents, History, Custody, Stops, StopResumes;
    if i :| 0 <= i < |s.attempts| && !Settled(s.attempts[i]) {
      e := AttemptGoesOn(s, i);
    } else {
      var k :| 0 <= k < |s.stops| && s.stops[k].phase != Stopped;
      e := ResumeStop(k);
      StopShrinks(s, k);
    }
  }

  // ------------------------------------------------------------------ the results

  lemma RunAppend(events: seq<Event>, e: Event)
    ensures Run(events + [e]) == Apply(Run(events), e)
  {
    assert (events + [e])[..|events|] == events;
  }

  /** From every state that can be reached, rest can be reached without a further call. */
  lemma {:induction false} RestIsReached(events: seq<Event>) returns (more: seq<Event>)
    ensures Quiescent(Run(events + more)) && forall e :: e in more ==> !IsCall(e)
    decreases Measure(Run(events))
  {
    hide Quiescent, Measure, Run, Apply;
    if Quiescent(Run(events)) {
      more := [];
      assert events + more == events;
    } else {
      ReachableInv(events);
      var e := GoesOn(Run(events));
      RunAppend(events, e);
      var rest := RestIsReached(events + [e]);
      more := [e] + rest;
      assert events + more == events + [e] + rest;
    }
  }

  /** Each of the events changes something. */
  ghost predicate AllChange(events: seq<Event>, more: seq<Event>) {
    forall n :: 0 <= n < |more| ==> Run(events + more[..n]) != Run(events + more[..n + 1])
  }

  /** However it goes on without a call, only so many events can change anything; and where
      none can any more, it rests. */
  lemma {:induction false} ChangesAreBounded(events: seq<Event>, more: seq<Event>)
    requires AllChange(events, more) && forall e :: e in more ==> !IsCall(e)
    ensures |more| + Measure(Run(events + more)) <= Measure(Run(events))
    decreases |more|
  {
    hide Measure, Run, Apply, IsCall;
    if more == [] {
      assert events + more == events;
    } else {
      var front, e := more[..|more| - 1], more[|more| - 1];
      forall n | 0 <= n < |front| ensures Run(events + front[..n]) != Run(events + front[..n + 1]) {
        assert front[..n] == more[..n] && front[..n + 1] == more[..n + 1];
      }
      ChangesAreBounded(events, front);
      assert more[..|more|] == more && events + more == events + front + [e];
      RunAppend(events + front, e);
      EventShrinks(Run(events + front), e);
    }
  }

  /** A state that no event but a call can change is at rest. */
  lemma StuckIsRest(events: seq<Event>)
    requires forall e :: !IsCall(e) ==> Apply(Run(events), e) == Run(events)
    ensures Quiescent(Run(events))
  {
    hide Quiescent, Run, Measure;
    if !Quiescent(Run(events)) {
      ReachableInv(events);
      var e := GoesOn(Run(events));
    }
  }
}
