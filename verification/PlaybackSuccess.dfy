/** What playing and stopping are for: a play that nobody aborts and the backend does not refuse
    ends with its own session named and open, and a stop that nobody overtakes ends with none. */
module PlaybackSuccess {
  import opened Options
  import opened PlaybackProtocol
  import opened PlaybackSafety
  import opened PlaybackRest
  import opened PlaybackProgress

  // --------------------------------------------------------------- a play that succeeds

  predicate Refused(r: Reply) { r in {Answered(false), Delivered(false)} }

  /** The newest attempt is under way and nothing has been refused to it. */
  predicate Promising(s: State, i: nat) {
    && i < |s.attempts| && i == |s.attempts| - 1 && Live(s.attempts[i]) && s.attempts[i].phase != Releasing
    && !Refused(s.attempts[i].opening) && !Refused(s.attempts[i].starting)
  }

  /** Its session is the runtime's, has been committed, and is open at both ends. */
  predicate Succeeded(s: State, i: nat) {
    && i < |s.attempts| && s.session == Some(i) && i in s.commits
    && s.attempts[i].source && s.attempts[i].proxy
  }

  /** No call, no abort or time-out, and nothing goes wrong with attempt `i`. The other attempts
      may be aborted, rejected and refused. */
  predicate Benign(e: Event, i: nat) {
    && !IsCall(e) && !e.PlayPastDeadline? && e != Abort(i) && e != Reject(i)
    && (e.Answer? && e.i == i ==> e.ok)
  }

  /** What a promising attempt keeps until it has succeeded, and then keeps. */
  ghost predicate Held(s: State, i: nat) {
    && i < |s.attempts| && i == |s.attempts| - 1
    && Unharmed(s.attempts[i]) && s.attempts[i].intent == s.intent
    && (s.attempts[i].committed ==> s.session == Some(i))
    && (forall k :: 0 <= k < |s.stops| ==> s.stops[k].captured != Some(i) && s.stops[k].intent != s.intent)
  }

  predicate Unharmed(a: Attempt) {
    && !a.aborted && !a.released && a.phase != Releasing && (a.phase == Done ==> a.committed)
    && !Refused(a.opening) && !Refused(a.starting)
  }

  lemma PromisingIsHeld(events: seq<Event>, i: nat)
    requires Promising(Run(events), i)
    ensures Held(Run(events), i)
  {
    var s := Run(events);
    ReachableInv(events);
    ReachableCaused(events);
    assert Local(s.attempts[i]);
    assert CausedAt(s, i);
    hide Resources, Covered;
    forall k | 0 <= k < |s.stops| ensures s.stops[k].captured != Some(i) && s.stops[k].intent != s.intent {
    }
    assert forall j: nat :: !TakenBy(s, i, j);
  }

  // ------------------------------------------------------ nothing benign takes it away

  /** One step of the attempt itself. */
  lemma OwnStepUnharmed(a: Attempt, e: Event, i: nat, intent: nat)
    requires Unharmed(a) && Local(a)
    ensures forall request :: RequestOf(a, request) == Sent ==> Unharmed(AnswerRequest(a, request, true))
    ensures forall request :: RequestOf(a, request).Answered? && a.intent == intent ==>
              Unharmed(DeliverAnswer(a, request, intent))
    ensures Unharmed(a.(known := false))
    ensures a.sourceCloses == 0 && a.strayCloses == 0 && a.proxyCloses == 0
  {
    hide Resources, Covered;
  }

  lemma OwnResumeHeld(s: State, i: nat, initialise: bool)
    requires Inv(s) && Held(s, i) && CanResume(s.attempts[i])
    ensures Held(PlayResumes(s, i, initialise), i)
  {
    hide Intents, History, Stops, Resources, Covered, ReleaseKnown, ReleaseLookedUp, Catch;
    var a := s.attempts[i];
    assert Local(a);
    if a.phase == WindowStop && a.taken.Some? && a.taken.value < |s.attempts| {
      assert TakenBy(s, a.taken.value, i);
    }
  }

  lemma OtherResumeHeld(s: State, i: nat, j: nat, initialise: bool)
    requires Inv(s) && Held(s, i) && j != i && j < |s.attempts| && CanResume(s.attempts[j])
    ensures Held(PlayResumes(s, j, initialise), i)
  {
    hide Local, Intents, History, Stops, ReleaseKnown, ReleaseLookedUp, Catch;
    var a := s.attempts[j];
    if a.taken.Some? && a.taken.value < |s.attempts| {
      assert TakenBy(s, a.taken.value, j);
    }
    assert !Live(a);
  }

  lemma StopResumeHeld(s: State, i: nat, k: nat)
    requires Held(s, i) && k < |s.stops|
    ensures Held(StopResumes(s, k), i)
  {
    hide ReleaseLookedUp;
  }

  lemma HeldStep(s: State, i: nat, e: Event)
    requires Inv(s) && Held(s, i) && Benign(e, i)
    ensures Held(Apply(s, e), i)
  {
    hide OneLive, Intents, History, Custody, Stops, PlayResumes, StopResumes, Local;
    if Enabled(s, e) {
      assert Local(s.attempts[i]);
      OwnStepUnharmed(s.attempts[i], e, i, s.intent);
      match e
      case Resume(j, initialise) =>
        if j == i {
          OwnResumeHeld(s, i, initialise);
        } else {
          OtherResumeHeld(s, i, j, initialise);
        }
      case ResumeStop(k) => StopResumeHeld(s, i, k);
      case _ => QuietStepHeld(s, i, e);
    }
  }

  /** The events that touch one attempt. */
  lemma QuietStepHeld(s: State, i: nat, e: Event)
    requires Inv(s) && Held(s, i) && Benign(e, i) && Enabled(s, e) && !e.Resume? && !e.ResumeStop?
    ensures Held(Apply(s, e), i)
  {
    hide OneLive, Intents, History, Custody, Stops, Resources, Covered;
    assert Local(s.attempts[i]);
    hide Local, Shape, Releases;
    OwnStepUnharmed(s.attempts[i], e, i, s.intent);
    if e.i == i {
      assert Unharmed(Apply(s, e).attempts[i]) && Apply(s, e).attempts[i].intent == s.attempts[i].intent
             && Apply(s, e).attempts[i].committed == s.attempts[i].committed;
    }
  }

  lemma {:induction false} HeldRun(events: seq<Event>, more: seq<Event>, i: nat)
    requires Held(Run(events), i) && forall e :: e in more ==> Benign(e, i)
    ensures Held(Run(events + more), i)
    decreases |more|
  {
    hide Held, Run, Apply, Benign;
    if more == [] {
      assert events + more == events;
    } else {
      var front, e := more[..|more| - 1], more[|more| - 1];
      HeldRun(events, front, i);
      assert events + more == events + front + [e];
      RunAppend(events + front, e);
      ReachableInv(events + front);
      HeldStep(Run(events + front), i, e);
    }
  }

  lemma HeldAtRest(s: State, i: nat)
    requires Inv(s) && Held(s, i) && Quiescent(s)
    ensures Succeeded(s, i)
  {
    assert Local(s.attempts[i]) && Settled(s.attempts[i]);
  }

  /** However a promising attempt goes on without a call, an abort, a time-out, a rejection or a
      refusal: where that comes to rest, it has succeeded. */
  lemma PromisingSucceeds(events: seq<Event>, more: seq<Event>, i: nat)
    requires Promising(Run(events), i) && forall e :: e in more ==> Benign(e, i)
    requires Quiescent(Run(events + more))
    ensures Succeeded(Run(events + more), i)
  {
    hide Promising, Held, Quiescent, Succeeded, Run, Benign;
    PromisingIsHeld(events, i);
    HeldRun(events, more, i);
    ReachableInv(events + more);
    HeldAtRest(Run(events + more), i);
  }

  // ------------------------------------------------------------------ and it gets there

  /** The next benign event of the attempt itself. */
  lemma OwnAttemptGoesOn(s: State, i: nat) returns (e: Event)
    requires Inv(s) && Held(s, i) && !Settled(s.attempts[i])
    ensures Benign(e, i) && Measure(Apply(s, e)) < Measure(s)
  {
    hide Measure, Work, Releases, Covered, Resources, OneLive, Intents, History, Custody, Stops, PlayResumes,
      AnswerRequest, DeliverAnswer;
    var a := s.attempts[i];
    assert Local(a);
    if CanResume(a) {
      e := Resume(i, false);
      ResumeShrinks(s, i, false);
    } else if a.opening == Sent || a.starting == Sent {
      var request := if a.opening == Sent then Open else Start;
      e := Answer(i, request, true);
      AnswerWork(a, request, true);
      PutWork(s, i, AnswerRequest(a, request, true));
    } else if a.opening.Answered? || a.starting.Answered? {
      var request := if a.opening.Answered? then Open else Start;
      e := Deliver(i, request);
      DeliverWork(a, request, s.intent);
      PutWork(s, i, DeliverAnswer(a, request, s.intent));
    } else {
      e := CloseGoesOn(s, i);
    }
  }

  lemma HeldGoesOn(s: State, i: nat) returns (e: Event)
    requires Inv(s) && Held(s, i) && !Quiescent(s)
    ensures Benign(e, i) && Measure(Apply(s, e)) < Measure(s)
  {
    hide Measure, Local, Settled, OneLive, Intents, History, Custody, Stops, StopResumes, Held;
    if j :| 0 <= j < |s.attempts| && !Settled(s.attempts[j]) {
      if j == i {
        e := OwnAttemptGoesOn(s, i);
      } else {
        e := AttemptGoesOn(s, j);
      }
    } else {
      var k :| 0 <= k < |s.stops| && s.stops[k].phase != Stopped;
      e := ResumeStop(k);
      StopShrinks(s, k);
    }
  }

  lemma {:induction false} HeldComesToRest(events: seq<Event>, i: nat) returns (more: seq<Event>)
    requires Held(Run(events), i)
    ensures Quiescent(Run(events + more)) && forall e :: e in more ==> Benign(e, i)
    decreases Measure(Run(events))
  {
    hide Quiescent, Measure, Run, Apply, Held, Benign;
    if Quiescent(Run(events)) {
      more := [];
      assert events + more == events;
    } else {
      ReachableInv(events);
      var e := HeldGoesOn(Run(events), i);
      RunAppend(events, e);
      HeldStep(Run(events), i, e);
      var rest := HeldComesToRest(events + [e], i);
      more := [e] + rest;
      assert events + more == events + [e] + rest;
    }
  }

  // ----------------------------------------------------- what was refused never succeeds

  /** The attempt has not committed, and has failed or been refused. */
  predicate Lost(a: Attempt) {
    && !a.committed
    && (a.aborted || a.phase in {Releasing, Done} || Refused(a.opening) || Refused(a.starting))
  }

  lemma ReleasesKeepLost(a: Attempt)
    requires Lost(a)
    ensures Lost(ReleaseKnown(a)) && Lost(ReleaseLookedUp(a)) && Lost(AbortAttempt(a)) && Lost(Catch(a))
  {
  }

  lemma RepliesKeepLost(a: Attempt, request: Request, ok: bool, intent: nat)
    requires Lost(a)
    ensures RequestOf(a, request) == Sent ==> Lost(AnswerRequest(a, request, ok))
    ensures Lost(DeliverAnswer(a, request, intent))
  {
    hide ReleaseKnown;
    ReleasedIsLost(a.(opening := Delivered(true)));
    ReleasedIsLost(a.(starting := Delivered(true)));
    ReleasedIsLost(a.(opening := Delivered(false)));
    ReleasedIsLost(a.(starting := Delivered(false)));
  }

  lemma ReleasedIsLost(a: Attempt)
    ensures Lost(ReleaseKnown(a)) <==> Lost(a)
  {
  }

  lemma CloseKeepsLost(a: Attempt)
    requires Lost(a)
    ensures a.sourceCloses > 0 ==> Lost(a.(source := false, sourceCloses := a.sourceCloses - 1))
    ensures a.strayCloses > 0 ==> Lost(a.(strayCloses := a.strayCloses - 1))
    ensures a.proxyCloses > 0 ==> Lost(a.(proxy := false, proxyCloses := a.proxyCloses - 1))
    ensures Lost(a.(known := false))
  {
  }

  /** Unless it resumes, a lost attempt stays lost. */
  lemma OwnEventLost(s: State, i: nat, e: Event)
    requires Enabled(s, e) && i < |s.attempts| && Lost(s.attempts[i])
    requires e.Abort? || e.Reject? || e.Answer? || e.Deliver? || e.CloseSource? || e.CloseStray? || e.CloseProxy?
             || e.Forget?
    requires e.i == i
    ensures i < |Step(s, e).attempts| && Lost(Step(s, e).attempts[i])
  {
    hide Lost, ReleaseKnown, ReleaseLookedUp, AbortAttempt, Catch, AnswerRequest, DeliverAnswer;
    var a := s.attempts[i];
    ReleasesKeepLost(a);
    CloseKeepsLost(a);
    if e.Answer? || e.Deliver? {
      RepliesKeepLost(a, e.request, if e.Answer? then e.ok else true, s.intent);
    }
  }

  lemma OtherEventLost(s: State, i: nat, e: Event)
    requires Enabled(s, e) && i < |s.attempts| && Lost(s.attempts[i]) && !e.Resume?
    requires e.BeginPlay? || e.PlayPastDeadline? || e.BeginStop? || e.ResumeStop? || e.CancelFallback? || e.i != i
    ensures i < |Step(s, e).attempts| && Lost(Step(s, e).attempts[i])
  {
    hide Lost, ReleaseKnown, ReleaseLookedUp, AbortAttempt, Catch, AnswerRequest, DeliverAnswer, CanResume, CanReject;
    ReleasesKeepLost(s.attempts[i]);
    ReleaseAbortedLost(s.attempts[i]);
  }

  lemma ReleaseAbortedLost(a: Attempt)
    requires Lost(a)
    ensures Lost(ReleaseLookedUp(AbortAttempt(a)))
  {
    hide Lost, ReleaseKnown, ReleaseLookedUp, AbortAttempt;
    ReleasesKeepLost(a);
    ReleasesKeepLost(AbortAttempt(a));
  }

  lemma OwnResumeLost(s: State, i: nat, initialise: bool)
    requires i < |s.attempts| && Lost(s.attempts[i]) && Shape(s.attempts[i]) && CanResume(s.attempts[i])
    ensures |PlayResumes(s, i, initialise).attempts| == |s.attempts|
    ensures Lost(PlayResumes(s, i, initialise).attempts[i])
  {
    hide ReleaseKnown, ReleaseLookedUp, Catch;
    var a := s.attempts[i];
    ReleasesKeepLost(a);
    ReleaseKeepsPhase(a);
    ReleasedKeepsReplies(a);
    if a.phase == WindowStop && a.taken.Some? && a.taken.value < |s.attempts| {
      ReleasedKeepsReplies(s.attempts[a.taken.value]);
    }
  }

  lemma ReleasedKeepsReplies(a: Attempt)
    ensures var b := ReleaseLookedUp(a);
            b.opening == a.opening && b.starting == a.starting && b.committed == a.committed && b.aborted == a.aborted
    ensures var b := ReleaseKnown(a);
            b.opening == a.opening && b.starting == a.starting && b.committed == a.committed && b.aborted == a.aborted
  {
  }

  lemma OtherResumeLost(s: State, i: nat, j: nat, initialise: bool)
    requires i < |s.attempts| && Lost(s.attempts[i]) && j < |s.attempts| && j != i
    ensures |PlayResumes(s, j, initialise).attempts| == |s.attempts|
    ensures Lost(PlayResumes(s, j, initialise).attempts[i])
  {
    hide Lost, ReleaseKnown, ReleaseLookedUp, Catch;
    ReleasesKeepLost(s.attempts[i]);
  }

  lemma LostStep(s: State, i: nat, e: Event)
    requires Inv(s) && i < |s.attempts| && Lost(s.attempts[i])
    ensures i < |Apply(s, e).attempts| && Lost(Apply(s, e).attempts[i])
  {
    hide OneLive, Intents, History, Custody, Stops, Lost, PlayResumes, Step;
    if Enabled(s, e) {
      assert Local(s.attempts[i]);
      assert e.Resume? ==> Step(s, e) == PlayResumes(s, e.i, e.initialise) by { ResumeIs(s, e); }
      if e.Resume? {
        if e.i == i {
          OwnResumeLost(s, i, e.initialise);
        } else {
          OtherResumeLost(s, i, e.i, e.initialise);
        }
      } else if e.BeginPlay? || e.PlayPastDeadline? || e.BeginStop? || e.ResumeStop? || e.CancelFallback? || e.i != i {
        OtherEventLost(s, i, e);
      } else {
        OwnEventLost(s, i, e);
      }
    }
  }

  lemma ResumeIs(s: State, e: Event)
    requires Enabled(s, e)
    ensures e.Resume? ==> Step(s, e) == PlayResumes(s, e.i, e.initialise)
  {
  }

  lemma {:induction false} LostRun(events: seq<Event>, more: seq<Event>, i: nat)
    requires i < |Run(events).attempts| && Lost(Run(events).attempts[i])
    ensures i < |Run(events + more).attempts| && Lost(Run(events + more).attempts[i])
    decreases |more|
  {
    hide Lost, Run, Apply;
    if more == [] {
      assert events + more == events;
    } else {
      var front, e := more[..|more| - 1], more[|more| - 1];
      LostRun(events, front, i);
      assert events + more == events + front + [e];
      RunAppend(events + front, e);
      ReachableInv(events + front);
      LostStep(Run(events + front), i, e);
    }
  }

  /** The attempt under way can still succeed, without a further call, exactly when nothing has
      been refused to it and it has not given up. */
  lemma CanSucceedIff(events: seq<Event>, i: nat)
    requires i < |Run(events).attempts| && Live(Run(events).attempts[i])
    ensures (exists more :: Quiescent(Run(events + more)) && Succeeded(Run(events + more), i)
                            && forall e :: e in more ==> !IsCall(e))
            <==> Promising(Run(events), i)
  {
    hide Run, Quiescent, Held, Lost, Succeeded;
    var a := Run(events).attempts[i];
    ReachableInv(events);
    AtMostOneLive(events, i);
    if Promising(Run(events), i) {
      PromisingIsHeld(events, i);
      var more := HeldComesToRest(events, i);
      PromisingSucceeds(events, more, i);
    } else {
      assert Local(a);
      RefusedIsLost(a);
      forall more ensures !Succeeded(Run(events + more), i) {
        LostRun(events, more, i);
        ReachableInv(events + more);
        LostHasNotSucceeded(Run(events + more), i);
      }
    }
  }

  lemma RefusedIsLost(a: Attempt)
    requires Local(a) && Live(a) && (a.phase == Releasing || Refused(a.opening) || Refused(a.starting))
    ensures Lost(a)
  {
  }

  lemma LostHasNotSucceeded(s: State, i: nat)
    requires Inv(s) && i < |s.attempts| && Lost(s.attempts[i])
    ensures !Succeeded(s, i)
  {
  }

  lemma ChangesKeepTaken(a: Attempt, request: Request, ok: bool, intent: nat)
    ensures ReleaseKnown(a).taken == a.taken && ReleaseLookedUp(a).taken == a.taken
    ensures AbortAttempt(a).taken == a.taken && Catch(a).taken == a.taken
    ensures AnswerRequest(a, request, ok).taken == a.taken && DeliverAnswer(a, request, intent).taken == a.taken
  {
  }

  lemma ResumeKeepsTaken(s: State, i: nat, j: nat, initialise: bool)
    requires i < |s.attempts| && j < |s.attempts|
    ensures |PlayResumes(s, j, initialise).attempts| == |s.attempts|
    ensures PlayResumes(s, j, initialise).attempts[i].taken == s.attempts[i].taken
  {
    if s.attempts[j].phase == WindowStop {
      WindowKeepsTaken(s, i, j, initialise);
    } else {
      hide PlayResumes;
      ResumedFrame(s, j, initialise);
    }
  }

  lemma WindowKeepsTaken(s: State, i: nat, j: nat, initialise: bool)
    requires i < |s.attempts| && j < |s.attempts| && s.attempts[j].phase == WindowStop
    ensures |PlayResumes(s, j, initialise).attempts| == |s.attempts|
    ensures PlayResumes(s, j, initialise).attempts[i].taken == s.attempts[i].taken
  {
    hide ReleaseKnown, ReleaseLookedUp, Catch, Finish;
    var a := s.attempts[j];
    if a.taken.Some? && a.taken.value < |s.attempts| {
      ReleaseKeepsOwn(s.attempts[a.taken.value]);
    }
  }

  lemma TakenStays(s: State, i: nat, e: Event)
    requires i < |s.attempts| && !IsCall(e)
    ensures |Apply(s, e).attempts| == |s.attempts| && Apply(s, e).attempts[i].taken == s.attempts[i].taken
  {
    hide ReleaseKnown, ReleaseLookedUp, AbortAttempt, Catch, AnswerRequest, DeliverAnswer, PlayResumes, CanResume,
      CanReject;
    ChangesKeepTaken(s.attempts[i], Open, true, s.intent);
    if Enabled(s, e) && (e.Answer? || e.Deliver?) {
      ChangesKeepTaken(s.attempts[i], e.request, if e.Answer? then e.ok else true, s.intent);
    }
    if Enabled(s, e) && e.Resume? {
      ResumeKeepsTaken(s, i, e.i, e.initialise);
    }
  }

  lemma {:induction false} TakenRun(events: seq<Event>, more: seq<Event>, i: nat)
    requires i < |Run(events).attempts| && forall e :: e in more ==> !IsCall(e)
    ensures |Run(events + more).attempts| == |Run(events).attempts|
    ensures Run(events + more).attempts[i].taken == Run(events).attempts[i].taken
    decreases |more|
  {
    hide Run, Apply, IsCall;
    if more == [] {
      assert events + more == events;
    } else {
      var front, e := more[..|more| - 1], more[|more| - 1];
      TakenRun(events, front, i);
      assert events + more == events + front + [e];
      RunAppend(events + front, e);
      TakenStays(Run(events + front), i, e);
    }
  }

  /** In particular a new play, whatever went before it: left to itself it ends with its own
      session named and open, and with the one that was named before closed at both ends. */
  lemma PlaySucceeds(events: seq<Event>, quickJs: bool, more: seq<Event>)
    requires var i := |Run(events).attempts|; forall e :: e in more ==> Benign(e, i)
    requires Quiescent(Run(events + [BeginPlay(quickJs, false)] + more))
    ensures var s, t := Run(events), Run(events + [BeginPlay(quickJs, false)] + more);
            && Succeeded(t, |s.attempts|)
            && (s.session.Some? ==>
                  s.session.value < |s.attempts| < |t.attempts| && !IsOpen(t.attempts[s.session.value]))
  {
    hide Run, Quiescent, IsOpen;
    var s, played := Run(events), events + [BeginPlay(quickJs, false)];
    var i := |s.attempts|;
    RunAppend(events, BeginPlay(quickJs, false));
    NewIsPromising(s, quickJs);
    PromisingSucceeds(played, more, i);
    TakenRun(played, more, i);
    if s.session.Some? {
      ReachableInv(events);
      ReachableInv(played + more);
      ReachableCaused(played + more);
      assert s.session.value < i by { hide Local, Intents, History, Stops; }
      LeftOpenIff(played + more, s.session.value);
      TakenNotAbandoned(Run(played + more), s.session.value, i);
    }
  }

  /** A session whose taker has committed is not abandoned. */
  lemma TakenNotAbandoned(t: State, p: nat, i: nat)
    requires Inv(t) && TakenOnce(t) && TakenBy(t, p, i) && t.attempts[i].committed
    ensures forall j: nat :: !Abandoned(t, p, j)
  {
  }

  lemma NewIsPromising(s: State, quickJs: bool)
    ensures var t := PlayBegins(s, quickJs, false);
            && Promising(t, |s.attempts|) && |t.attempts| == |s.attempts| + 1
            && t.attempts[|s.attempts|].taken == s.session
  {
  }

  // ------------------------------------------------------------- stops and cancels

  ghost predicate NothingLive(s: State) { forall i :: 0 <= i < |s.attempts| ==> !Live(s.attempts[i]) }

  /** The newest intent is a stop's: no attempt is live, and once it is over no session is
      named. */
  ghost predicate Stopping(s: State, k: nat) {
    && k < |s.stops| && s.stops[k].intent == s.intent && NothingLive(s)
    && (s.stops[k].phase == Stopped ==> s.session == None)
  }

  lemma CallsBringNoLife(s: State, e: Event)
    requires Inv(s) && NothingLive(s) && !IsCall(e)
    ensures var t := Apply(s, e);
            && NothingLive(t) && t.commits == s.commits && t.intent == s.intent
            && (t.session == s.session || t.session == None)
  {
    hide OneLive, Intents, History, Custody, Stops, Local;
    ReachesNoLife(s, e);
    if Enabled(s, e) && e.Resume? {
      NoCommit(s, e.i, e.initialise);
    }
  }

  lemma NoCommit(s: State, j: nat, initialise: bool)
    requires j < |s.attempts| && !Live(s.attempts[j])
    ensures var t := PlayResumes(s, j, initialise);
            t.commits == s.commits && t.session == s.session && t.intent == s.intent
  {
  }

  lemma ReachesNoLife(s: State, e: Event)
    requires Inv(s) && NothingLive(s) && !IsCall(e)
    ensures NothingLive(Apply(s, e))
  {
    hide OneLive, Intents, History, Custody, Stops, Local;
    var t := Apply(s, e);
    forall i | 0 <= i < |t.attempts| ensures !Live(t.attempts[i]) {
      DeadStays(s, i, e);
    }
  }

  lemma DeadStays(s: State, i: nat, e: Event)
    requires i < |s.attempts| && !Live(s.attempts[i]) && !IsCall(e)
    ensures |Apply(s, e).attempts| == |s.attempts| && !Live(Apply(s, e).attempts[i])
  {
    hide ReleaseKnown, ReleaseLookedUp, AbortAttempt, Catch, AnswerRequest, DeliverAnswer, PlayResumes;
    var a := s.attempts[i];
    DeadKept(a);
    if Enabled(s, e) && (e.Answer? || e.Deliver?) {
      RepliesKeepDead(a, e.request, if e.Answer? then e.ok else true, s.intent);
    }
    if Enabled(s, e) && e.Resume? {
      ResumeKeepsDead(s, i, e.i, e.initialise);
    }
  }

  lemma DeadKept(a: Attempt)
    requires !Live(a)
    ensures !Live(ReleaseKnown(a)) && !Live(ReleaseLookedUp(a)) && !Live(AbortAttempt(a))
    ensures a.phase != Done ==> !Live(Catch(a))
  {
  }

  lemma RepliesKeepDead(a: Attempt, request: Request, ok: bool, intent: nat)
    requires !Live(a)
    ensures !Live(AnswerRequest(a, request, ok)) && !Live(DeliverAnswer(a, request, intent))
  {
  }

  lemma ResumeKeepsDead(s: State, i: nat, j: nat, initialise: bool)
    requires i < |s.attempts| && !Live(s.attempts[i]) && j < |s.attempts| && CanResume(s.attempts[j])
    ensures |PlayResumes(s, j, initialise).attempts| == |s.attempts|
    ensures !Live(PlayResumes(s, j, initialise).attempts[i])
  {
    hide ReleaseKnown, ReleaseLookedUp;
    var a := s.attempts[i];
    DeadKept(a);
    ReleasedKeepsReplies(a);
    ReleaseKeepsPhase(a);
    if s.attempts[j].taken.Some? && s.attempts[j].taken.value < |s.attempts| {
      ReleasedKeepsReplies(s.attempts[s.attempts[j].taken.value]);
    }
  }

  lemma StopStepStays(s: State, k: nat, e: Event)
    requires Inv(s) && Stopping(s, k) && !IsCall(e)
    ensures Stopping(Apply(s, e), k)
  {
    hide OneLive, Intents, History, Custody, Stops, Local, NothingLive;
    CallsBringNoLife(s, e);
    StopsAfter(s, k, e);
  }

  /** Only its own resuming changes a stop, and its last one clears the session. */
  lemma StopsAfter(s: State, k: nat, e: Event)
    requires k < |s.stops| && !IsCall(e)
    ensures var t := Apply(s, e);
            && k < |t.stops| && t.stops[k].intent == s.stops[k].intent && t.stops[k].captured == s.stops[k].captured
            && (t.stops[k].phase == Stopped ==>
                  s.stops[k].phase == Stopped || (s.stops[k].intent == s.intent ==> t.session == None))
  {
    hide ReleaseLookedUp, ReleaseKnown, AbortAttempt, Catch, AnswerRequest, DeliverAnswer;
  }

  lemma {:induction false} StoppingRun(events: seq<Event>, more: seq<Event>, k: nat)
    requires Stopping(Run(events), k) && forall e :: e in more ==> !IsCall(e)
    ensures Stopping(Run(events + more), k)
    ensures Run(events + more).stops[k].captured == Run(events).stops[k].captured
    ensures Run(events + more).commits == Run(events).commits
    decreases |more|
  {
    hide Run, Apply, IsCall, NothingLive;
    if more == [] {
      assert events + more == events;
    } else {
      var front, e := more[..|more| - 1], more[|more| - 1];
      StoppingRun(events, front, k);
      assert events + more == events + front + [e];
      RunAppend(events + front, e);
      ReachableInv(events + front);
      StopStepStays(Run(events + front), k, e);
      StopsAfter(Run(events + front), k, e);
      CallsBringNoLife(Run(events + front), e);
    }
  }

  /** A stop that is followed by no further call ends with no session named, none committed
      since, and the session that it found closed at both ends. */
  lemma StopSucceeds(events: seq<Event>, mpv: bool, more: seq<Event>)
    requires forall e :: e in more ==> !IsCall(e)
    requires Quiescent(Run(events + [BeginStop(mpv)] + more))
    ensures var s, t := Run(events), Run(events + [BeginStop(mpv)] + more);
            && t.session == None && t.commits == s.commits
            && (s.session.Some? ==> s.session.value < |t.attempts| && !IsOpen(t.attempts[s.session.value]))
  {
    hide Run, Quiescent, IsCall, StopBegins, IsOpen, Abandoned, Captured;
    var s, stopped := Run(events), events + [BeginStop(mpv)];
    var t := Run(stopped + more);
    ReachableInv(events);
    RunAppend(events, BeginStop(mpv));
    StopIsStopping(s, mpv);
    StoppingRun(stopped, more, |s.stops|);
    ReachableInv(stopped + more);
    AtRestStopped(t, |s.stops|);
    if s.session.Some? {
      CapturedIsThere(t, |s.stops|, s.session.value);
      LeftOpenIff(stopped + more, s.session.value);
    }
  }

  lemma StopIsStopping(s: State, mpv: bool)
    requires Inv(s)
    ensures var t := StopBegins(s, mpv);
            Stopping(t, |s.stops|) && t.stops[|s.stops|].captured == s.session && t.commits == s.commits
  {
    hide Local, Intents, History, Custody, Stops, ReleaseLookedUp;
    CancelLaneKeeps(s);
    var c := CancelLane(s);
    if s.session.Some? && s.session.value < |c.attempts| {
      ReleaseKeepsPhase(c.attempts[s.session.value]);
      ReleasedKeepsReplies(c.attempts[s.session.value]);
    }
  }

  lemma AtRestStopped(t: State, k: nat)
    requires Quiescent(t) && Stopping(t, k)
    ensures t.session == None
  {
  }

  lemma CapturedIsThere(t: State, k: nat, i: nat)
    requires Inv(t) && k < |t.stops| && t.stops[k].captured == Some(i)
    ensures i < |t.attempts| && Captured(t, i)
  {
  }

  // -------------------------------------------------------- what ends a play

  lemma {:induction false} NoLifeRun(events: seq<Event>, more: seq<Event>)
    requires NothingLive(Run(events)) && forall e :: e in more ==> !IsCall(e)
    ensures NothingLive(Run(events + more)) && Run(events + more).commits == Run(events).commits
    decreases |more|
  {
    hide Run, Apply, IsCall, NothingLive;
    if more == [] {
      assert events + more == events;
    } else {
      var front, e := more[..|more| - 1], more[|more| - 1];
      NoLifeRun(events, front);
      assert events + more == events + front + [e];
      RunAppend(events + front, e);
      ReachableInv(events + front);
      CallsBringNoLife(Run(events + front), e);
    }
  }

  /** After a stop, a cancel, or the time-out of the stored task, and after an abort of the
      attempt under way, nothing commits until the next play. */
  lemma EndedPlayNeverCommits(events: seq<Event>, e: Event, more: seq<Event>)
    requires var s := Run(events);
             e.BeginStop? || e.CancelFallback? || e.PlayPastDeadline? || (e.Abort? && e.i + 1 == |s.attempts|)
    requires forall f :: f in more ==> !IsCall(f)
    ensures Run(events + [e] + more).commits == Run(events).commits
  {
    hide Run, IsCall, NothingLive;
    ReachableInv(events);
    RunAppend(events, e);
    EndsAllLife(Run(events), e);
    NoLifeRun(events + [e], more);
  }

  lemma EndsAllLife(s: State, e: Event)
    requires Inv(s)
    requires e.BeginStop? || e.CancelFallback? || e.PlayPastDeadline? || (e.Abort? && e.i + 1 == |s.attempts|)
    ensures NothingLive(Apply(s, e)) && Apply(s, e).commits == s.commits
  {
    hide Local, Intents, History, Custody, Stops;
    CancelLaneKeeps(s);
    if e.BeginStop? {
      StopIsStopping(s, e.mpv);
    }
  }

  // ------------------------------------------------------------------- stray closes

  predicate Aimed(a: Attempt) { a.strayCloses > 0 ==> a.quickJs }

  ghost predicate StraysKnown(s: State) { forall i :: 0 <= i < |s.attempts| ==> Aimed(s.attempts[i]) }

  lemma PutAimed(s: State, i: nat, a: Attempt)
    requires StraysKnown(s) && i < |s.attempts| && Aimed(a)
    ensures StraysKnown(Put(s, i, a))
  {
  }

  lemma PartsAimed(a: Attempt, request: Request, ok: bool, intent: nat)
    requires Aimed(a)
    ensures Aimed(ReleaseLookedUp(a)) && Aimed(AbortAttempt(a)) && Aimed(Catch(a)) && Aimed(ReleaseKnown(a))
    ensures Aimed(AnswerRequest(a, request, ok)) && Aimed(DeliverAnswer(a, request, intent))
  {
    hide ReleaseLookedUp, AbortAttempt, Catch, ReleaseKnown, AnswerRequest, DeliverAnswer, Aimed;
    ReleasesAimed(a);
    AnswersAimed(a, request, ok, intent);
  }

  lemma ReleasesAimed(a: Attempt)
    requires Aimed(a)
    ensures Aimed(ReleaseLookedUp(a)) && Aimed(AbortAttempt(a)) && Aimed(Catch(a)) && Aimed(ReleaseKnown(a))
  {
  }

  lemma AnswersAimed(a: Attempt, request: Request, ok: bool, intent: nat)
    requires Aimed(a)
    ensures Aimed(AnswerRequest(a, request, ok)) && Aimed(DeliverAnswer(a, request, intent))
  {
    match request
    case Open =>
    case Start =>
  }

  lemma LaneAimed(s: State)
    requires StraysKnown(s)
    ensures StraysKnown(CancelLane(s))
  {
    if s.lane.Some? && s.lane.value < |s.attempts| {
      PartsAimed(s.attempts[s.lane.value], Open, true, 0);
      PutAimed(s, s.lane.value, AbortAttempt(s.attempts[s.lane.value]));
    }
  }

  lemma CapturedAimed(s: State, captured: Option<nat>)
    requires StraysKnown(s)
    ensures StraysKnown(ReleaseCaptured(s, captured))
  {
    if captured.Some? && captured.value < |s.attempts| {
      PartsAimed(s.attempts[captured.value], Open, true, 0);
      PutAimed(s, captured.value, ReleaseLookedUp(s.attempts[captured.value]));
    }
  }

  lemma WindowAimed(s: State, i: nat, initialise: bool)
    requires StraysKnown(s) && i < |s.attempts| && s.attempts[i].phase == WindowStop
    ensures StraysKnown(PlayResumes(s, i, initialise))
  {
    hide ReleaseLookedUp;
    var a := s.attempts[i];
    if a.taken.Some? && a.taken.value < |s.attempts| {
      CapturedAimed(s, a.taken);
      var released := ReleaseCaptured(s, a.taken);
      PutAimed(released, i, released.attempts[i].(phase := ReleasingOld, passedWindow := true));
    } else {
      PutAimed(s, i, a.(phase := Preparing, passedWindow := true));
    }
  }

  lemma FinishAimed(s: State, i: nat)
    requires StraysKnown(s) && i < |s.attempts|
    ensures StraysKnown(Finish(s, i))
  {
    PutAimed(s, i, s.attempts[i].(phase := Done));
  }

  lemma ResumeAimed(s: State, i: nat, initialise: bool)
    requires StraysKnown(s) && i < |s.attempts|
    ensures StraysKnown(PlayResumes(s, i, initialise))
  {
    hide ReleaseLookedUp, ReleaseKnown, Catch, Put, Finish;
    var a := s.attempts[i];
    PartsAimed(a, Open, true, 0);
    forall b | Aimed(b) ensures StraysKnown(Put(s, i, b)) && |Put(s, i, b).attempts| == |s.attempts| {
      PutAimed(s, i, b);
      PutLength(s, i, b);
    }
    FinishAimed(s, i);
    FinishAimed(Put(s, i, ReleaseKnown(a)), i);
    match a.phase
    case WindowStop => WindowAimed(s, i, initialise);
    case _ =>
  }

  lemma PutLength(s: State, i: nat, a: Attempt)
    requires i < |s.attempts|
    ensures |Put(s, i, a).attempts| == |s.attempts|
  {
  }

  lemma OwnEventAimed(s: State, e: Event)
    requires StraysKnown(s) && Enabled(s, e)
    requires e.Abort? || e.Reject? || e.Answer? || e.Deliver?
             || e.CloseSource? || e.CloseStray? || e.CloseProxy? || e.Forget?
    ensures StraysKnown(Step(s, e))
  {
    hide ReleaseLookedUp, AbortAttempt, Catch, ReleaseKnown, AnswerRequest, DeliverAnswer, Put;
    var a := s.attempts[e.i];
    PartsAimed(a, if e.Answer? || e.Deliver? then e.request else Open, if e.Answer? then e.ok else true, s.intent);
    forall b | Aimed(b) ensures StraysKnown(Put(s, e.i, b)) {
      PutAimed(s, e.i, b);
    }
  }

  lemma StrayStep(s: State, e: Event)
    requires StraysKnown(s)
    ensures StraysKnown(Apply(s, e))
  {
    hide PlayResumes, CancelLane, ReleaseCaptured;
    if !Enabled(s, e) {
      return;
    }
    LaneAimed(s);
    match e
    case Resume(i, initialise) => ResumeAimed(s, i, initialise);
    case BeginStop(mpv) => CapturedAimed(CancelLane(s), s.session);
    case ResumeStop(k) => CapturedAimed(s, s.stops[k].captured);
    case BeginPlay(_, _) =>
    case PlayPastDeadline =>
    case CancelFallback =>
    case _ => OwnEventAimed(s, e);
  }

  /** A close goes to the wrong engine only for a QuickJS session; those of all others arrive. */
  lemma {:induction false} OnlyQuickJsStrays(events: seq<Event>)
    ensures StraysKnown(Run(events))
  {
    hide Apply, StraysKnown;
    if events == [] {
      NoneStrayed();
    } else {
      OnlyQuickJsStrays(events[..|events| - 1]);
      StrayStep(Run(events[..|events| - 1]), events[|events| - 1]);
    }
  }

  lemma NoneStrayed()
    ensures StraysKnown(INITIAL)
  {
  }
}
