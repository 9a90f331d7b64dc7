/** What holds in every state the playback protocol can reach, and what follows when it has
    come to rest. */
module PlaybackSafety {
  import opened Options
  import opened PlaybackProtocol

  // -------------------------------------------------- one attempt by itself

  /** Which requests have been sent in which phase. */
  predicate Shape(a: Attempt) {
    && (a.phase in {WindowStop, ReleasingOld, Preparing} ==> a.opening == NotSent)
    && (a.phase in {WindowStop, ReleasingOld, Preparing, Opening, Initialising} ==> a.starting == NotSent)
    && (a.phase == Opening ==> a.opening != NotSent) && (a.phase == Starting ==> a.starting != NotSent)
    && (a.phase in {Initialising, Starting} || a.committed ==> a.opening == Delivered(true))
    && (a.committed ==> a.starting == Delivered(true) && a.phase in {Recording, Done})
    && (a.phase == Recording ==> a.committed)
    && (a.committed || a.phase !in {WindowStop, Releasing, Done} ==> a.passedWindow)
    && (a.opening == NotSent ==> a.starting == NotSent)
    && (a.starting != NotSent ==> a.opening == Delivered(true))
    && (a.opening == Sent || a.opening.Answered? ==> a.aborted || a.phase == Opening)
    && (a.starting == Sent || a.starting.Answered? ==> a.aborted || a.phase == Starting)
  }

  /** A resource is open only after its request was carried out, and stays open until a
      release. */
  predicate Resources(a: Attempt) {
    && (a.source ==> a.opening in {Answered(true), Delivered(true)})
    && (a.proxy ==> a.starting in {Answered(true), Delivered(true)})
    && (!a.released && a.opening in {Answered(true), Delivered(true)} ==> a.source)
    && (!a.released && a.starting in {Answered(true), Delivered(true)} ==> a.proxy)
  }

  predicate Releases(a: Attempt) {
    && (!a.released ==> a.known && a.sourceCloses == 0 && a.strayCloses == 0 && a.proxyCloses == 0)
    && (!a.aborted && !a.committed && a.phase !in {Releasing, Done} ==> !a.released)
    && (!a.committed && a.phase in {Releasing, Done} ==> a.released)
  }

  /** An open resource has a close under way, or a step to come that will send one. */
  predicate Covered(a: Attempt) {
    && (a.source && a.sourceCloses == 0 ==>
          || (!a.aborted && !a.committed && a.phase in {Opening, Initialising, Starting})
          || (a.aborted && a.opening == Answered(true))
          || (a.committed && !a.released))
    && (a.proxy && a.proxyCloses == 0 ==>
          || (!a.aborted && !a.committed && a.phase == Starting)
          || (a.aborted && a.starting == Answered(true))
          || (a.committed && !a.released))
  }

  predicate Local(a: Attempt) { Shape(a) && Resources(a) && Releases(a) && Covered(a) }

  // -------------------------------------------------------- the whole state

  predicate Live(a: Attempt) { !a.aborted && a.phase != Done }

  /** An attempt that has not been aborted is the newest one, is the task stored under its
      lane, and holds the newest intent. */
  ghost predicate OneLive(s: State) {
    && (s.lane.Some? ==>
          s.lane.value == |s.attempts| - 1 && s.attempts[|s.attempts| - 1].phase != Done)
    && forall i :: 0 <= i < |s.attempts| && Live(s.attempts[i]) ==>
         && i == |s.attempts| - 1 && s.lane == Some(i) && s.attempts[i].intent == s.intent
         && (!s.attempts[i].committed ==> s.session.None?)
  }

  ghost predicate Intents(s: State) {
    && (forall i :: 0 <= i < |s.attempts| ==> s.attempts[i].intent <= s.intent)
    && (forall k :: 0 <= k < |s.stops| ==> s.stops[k].intent <= s.intent)
    && (forall i, k :: 0 <= i < |s.attempts| && 0 <= k < |s.stops| ==> s.attempts[i].intent != s.stops[k].intent)
    && (forall i, j :: 0 <= i < j < |s.attempts| ==> s.attempts[i].intent < s.attempts[j].intent)
  }

  ghost predicate History(s: State) {
    && (forall i :: 0 <= i < |s.attempts| && s.attempts[i].committed ==> i in s.commits)
    && (forall n :: 0 <= n < |s.commits| ==> s.commits[n] < |s.attempts| && s.attempts[s.commits[n]].committed)
    && (forall m, n :: 0 <= m < n < |s.commits| ==> s.commits[m] < s.commits[n])
  }

  ghost predicate TakenBy(s: State, i: nat, j: nat) {
    j < |s.attempts| && s.attempts[j].taken == Some(i)
  }

  /** A committed session that nothing has released is named by the runtime or was taken
      out of it by a later attempt, which releases it if it gets past its first wait. */
  ghost predicate Custody(s: State) {
    && (s.session.Some? ==> s.session.value < |s.attempts| && s.attempts[s.session.value].committed)
    && (forall i: nat, j: nat :: TakenBy(s, i, j) ==>
          i < j && s.attempts[i].committed && s.session != Some(i)
          && (s.attempts[j].passedWindow ==> s.attempts[i].released))
    && (forall i :: 0 <= i < |s.attempts| && s.attempts[i].committed && !s.attempts[i].released ==>
          s.session == Some(i) || exists j: nat :: TakenBy(s, i, j))
  }

  ghost predicate Stops(s: State) {
    forall k :: 0 <= k < |s.stops| ==>
      && (s.stops[k].captured.Some? ==>
            s.stops[k].captured.value < |s.attempts| && s.attempts[s.stops[k].captured.value].committed
            && s.attempts[s.stops[k].captured.value].intent < s.stops[k].intent)
      && (s.stops[k].phase != ClosingMpv && s.stops[k].captured.Some? ==>
            s.attempts[s.stops[k].captured.value].released)
      && (s.stops[k].phase != Stopped && s.stops[k].intent == s.intent && s.session.Some? ==>
            s.session == s.stops[k].captured)
  }

  ghost predicate Inv(s: State) {
    && (forall i :: 0 <= i < |s.attempts| ==> Local(s.attempts[i]))
    && OneLive(s) && Intents(s) && History(s) && Custody(s) && Stops(s)
  }

  // ------------------------------------------------------ steps of one attempt

  /** What no step of an attempt undoes. */
  predicate Evolves(a: Attempt, b: Attempt) {
    && b.intent == a.intent && b.taken == a.taken && b.committed == a.committed
    && (a.passedWindow ==> b.passedWindow)
    && (a.released ==> b.released)
    && (a.aborted ==> b.aborted)
    && (a.phase == Done ==> b.phase == Done)
  }

  /** Attempt `i` becomes `b`; a task that is done leaves its lane. */
  function Advance(s: State, i: nat, b: Attempt): State
    requires i < |s.attempts|
  {
    Put(s, i, b).(lane := if b.phase == Done && s.lane == Some(i) then None else s.lane)
  }

  lemma AdvanceKeeps(s: State, i: nat, b: Attempt)
    requires Inv(s) && i < |s.attempts| && Local(b) && Evolves(s.attempts[i], b)
    requires b.passedWindow && !s.attempts[i].passedWindow && b.taken.Some? ==>
               b.taken.value < |s.attempts| && s.attempts[b.taken.value].released
    ensures Inv(Advance(s, i, b))
  {
    hide Local, OneLive, Intents, History, Custody, Stops;
    var t := Advance(s, i, b);
    LiveKept(s, i, b);
    IntentsKept(s, i, b);
    StopsKept(s, i, b);
    CustodyKept(s, t, i);
  }

  lemma LiveKept(s: State, i: nat, b: Attempt)
    requires OneLive(s) && i < |s.attempts| && Evolves(s.attempts[i], b)
    ensures OneLive(Advance(s, i, b))
  {
  }

  lemma IntentsKept(s: State, i: nat, b: Attempt)
    requires i < |s.attempts| && Evolves(s.attempts[i], b)
    ensures Intents(s) ==> Intents(Advance(s, i, b))
    ensures History(s) ==> History(Advance(s, i, b))
  {
  }

  lemma StopsKept(s: State, i: nat, b: Attempt)
    requires Stops(s) && i < |s.attempts| && Evolves(s.attempts[i], b)
    ensures Stops(Advance(s, i, b))
  {
  }

  lemma CustodyKept(s: State, t: State, i: nat)
    requires Custody(s) && i < |s.attempts| && |t.attempts| == |s.attempts| && t.session == s.session
    requires forall n :: 0 <= n < |s.attempts| && n != i ==> t.attempts[n] == s.attempts[n]
    requires Evolves(s.attempts[i], t.attempts[i])
    requires var b := t.attempts[i];
             b.passedWindow && !s.attempts[i].passedWindow && b.taken.Some? ==>
               b.taken.value < |s.attempts| && s.attempts[b.taken.value].released
    ensures Custody(t)
  {
    assert forall n: nat, m: nat :: TakenBy(t, n, m) <==> TakenBy(s, n, m);
  }

  lemma PutKeeps(s: State, i: nat, b: Attempt)
    requires Inv(s) && i < |s.attempts| && Local(b) && Evolves(s.attempts[i], b)
    requires b.passedWindow == s.attempts[i].passedWindow
    requires b.phase == Done ==> s.attempts[i].phase == Done
    ensures Inv(Put(s, i, b))
  {
    hide Local, Evolves, Intents, History, Custody, Stops;
    AdvanceKeeps(s, i, b);
    assert Advance(s, i, b) == Put(s, i, b);
  }

  lemma ReleaseIsLocal(a: Attempt)
    requires Local(a)
    requires a.aborted || a.committed || a.phase in {Releasing, Done}
    ensures Local(ReleaseKnown(a)) && Evolves(a, ReleaseKnown(a))
    ensures Local(ReleaseLookedUp(a)) && Evolves(a, ReleaseLookedUp(a))
  {
  }

  lemma AbortIsLocal(a: Attempt)
    requires Local(a) && a.phase != Done
    ensures Local(AbortAttempt(a)) && Evolves(a, AbortAttempt(a))
  {
  }

  lemma CatchIsLocal(a: Attempt)
    requires Local(a) && (CanReject(a) || (a.aborted && a.phase in {Preparing, Opening, Initialising, Starting}))
    ensures Local(Catch(a)) && Evolves(a, Catch(a))
  {
    CatchCovers(a);
    hide Covered;
  }

  lemma CatchCovers(a: Attempt)
    requires Local(a) && (CanReject(a) || (a.aborted && a.phase in {Preparing, Opening, Initialising, Starting}))
    ensures Covered(Catch(a))
  {
  }

  lemma BackendIsLocal(a: Attempt, request: Request, ok: bool, intent: nat)
    requires Local(a)
    requires a.phase == Starting && !a.aborted ==> a.intent == intent
    ensures RequestOf(a, request) == Sent ==>
              Local(AnswerRequest(a, request, ok)) && Evolves(a, AnswerRequest(a, request, ok))
    ensures RequestOf(a, request).Answered? ==>
              Local(DeliverAnswer(a, request, intent)) && Evolves(a, DeliverAnswer(a, request, intent))
  {
  }

  lemma CancelLaneKeeps(s: State)
    requires Inv(s)
    ensures Inv(CancelLane(s))
    ensures forall i :: 0 <= i < |s.attempts| ==> !Live(CancelLane(s).attempts[i])
    ensures |CancelLane(s).attempts| == |s.attempts| && CancelLane(s).(attempts := s.attempts) == s
    ensures forall i :: 0 <= i < |s.attempts| ==> Evolves(s.attempts[i], CancelLane(s).attempts[i])
  {
    if s.lane.Some? {
      AbortIsLocal(s.attempts[s.lane.value]);
      PutKeeps(s, s.lane.value, AbortAttempt(s.attempts[s.lane.value]));
    }
  }

  lemma SourceCloseIsLocal(a: Attempt)
    requires Local(a) && a.sourceCloses > 0
    ensures var b := a.(source := false, sourceCloses := a.sourceCloses - 1); Local(b) && Evolves(a, b)
  {
  }

  lemma ProxyCloseIsLocal(a: Attempt)
    requires Local(a) && a.proxyCloses > 0
    ensures var b := a.(proxy := false, proxyCloses := a.proxyCloses - 1); Local(b) && Evolves(a, b)
  {
  }

  lemma StrayCloseIsLocal(a: Attempt)
    requires Local(a) && a.strayCloses > 0
    ensures var b := a.(strayCloses := a.strayCloses - 1); Local(b) && Evolves(a, b)
  {
  }

  lemma ForgetIsLocal(a: Attempt)
    requires Local(a) && a.released
    ensures var b := a.(known := false); Local(b) && Evolves(a, b)
  {
  }

  lemma StartingIsNewest(s: State, i: nat)
    requires OneLive(s) && i < |s.attempts| && s.attempts[i].phase == Starting && !s.attempts[i].aborted
    ensures s.attempts[i].intent == s.intent
  {
  }

  lemma AnswerKeeps(s: State, i: nat, request: Request, ok: bool)
    requires Inv(s) && Enabled(s, Answer(i, request, ok))
    ensures Inv(Step(s, Answer(i, request, ok)))
  {
    hide Local, Evolves, OneLive, Intents, History, Custody, Stops;
    var a := s.attempts[i];
    BackendIsLocal(a, request, ok, a.intent);
    PutKeeps(s, i, AnswerRequest(a, request, ok));
  }

  lemma DeliverKeeps(s: State, i: nat, request: Request)
    requires Inv(s) && Enabled(s, Deliver(i, request))
    ensures Inv(Step(s, Deliver(i, request)))
  {
    hide Local, Evolves, OneLive, Intents, History, Custody, Stops;
    var a := s.attempts[i];
    if a.phase == Starting && !a.aborted {
      StartingIsNewest(s, i);
    }
    BackendIsLocal(a, request, true, s.intent);
    PutKeeps(s, i, DeliverAnswer(a, request, s.intent));
  }

  /** Requests, aborts and failures concern one attempt only. */
  lemma RequestEventKeeps(s: State, e: Event)
    requires Inv(s) && Enabled(s, e)
    requires e.Abort? || e.Reject? || e.Answer? || e.Deliver?
    ensures Inv(Step(s, e))
  {
    hide Local, Evolves, OneLive, Intents, History, Custody, Stops;
    match e
    case Abort(i) => AbortIsLocal(s.attempts[i]); PutKeeps(s, i, AbortAttempt(s.attempts[i]));
    case Reject(i) => CatchIsLocal(s.attempts[i]); PutKeeps(s, i, Catch(s.attempts[i]));
    case Answer(i, request, ok) => AnswerKeeps(s, i, request, ok);
    case Deliver(i, request) => DeliverKeeps(s, i, request);
  }

  /** So do the closes at the backend and the end of a release. */
  lemma CloseEventKeeps(s: State, e: Event)
    requires Inv(s) && Enabled(s, e)
    requires e.CloseSource? || e.CloseStray? || e.CloseProxy? || e.Forget?
    ensures Inv(Step(s, e))
  {
    hide Local, Evolves, OneLive, Intents, History, Custody, Stops;
    var a := s.attempts[e.i];
    match e
    case CloseSource(i) =>
      SourceCloseIsLocal(a);
      PutKeeps(s, i, a.(source := false, sourceCloses := a.sourceCloses - 1));
    case CloseStray(i) =>
      StrayCloseIsLocal(a);
      PutKeeps(s, i, a.(strayCloses := a.strayCloses - 1));
    case CloseProxy(i) =>
      ProxyCloseIsLocal(a);
      PutKeeps(s, i, a.(proxy := false, proxyCloses := a.proxyCloses - 1));
    case Forget(i) =>
      ForgetIsLocal(a);
      PutKeeps(s, i, a.(known := false));
  }

  // --------------------------------------------------------- resuming a play

  lemma FinishKeeps(s: State, i: nat)
    requires Inv(s) && i < |s.attempts| && s.attempts[i].phase in {Recording, Releasing}
    ensures Inv(Finish(s, i))
  {
    hide OneLive, Intents, History, Custody, Stops;
    AdvanceKeeps(s, i, s.attempts[i].(phase := Done));
  }

  lemma NextRequestIsLocal(a: Attempt)
    requires Local(a) && CanResume(a) && !a.aborted
    ensures a.phase == Preparing ==> var b := a.(phase := Opening, opening := Sent); Local(b) && Evolves(a, b)
    ensures a.phase == Opening ==> var b := a.(phase := Initialising); Local(b) && Evolves(a, b)
    ensures a.phase in {Opening, Initialising} ==>
              var b := a.(phase := Starting, starting := Sent); Local(b) && Evolves(a, b)
  {
  }

  /** The old session is released before the first wait is over. */
  lemma WindowPassedKeeps(s: State, i: nat, initialise: bool)
    requires Inv(s) && i < |s.attempts| && s.attempts[i].phase == WindowStop
    ensures Inv(PlayResumes(s, i, initialise))
  {
    hide OneLive, Intents, History, Stops;
    var a := s.attempts[i];
    if a.taken.Some? {
      var t := a.taken.value;
      assert TakenBy(s, t, i);
      ReleaseIsLocal(s.attempts[t]);
      PutKeeps(s, t, ReleaseLookedUp(s.attempts[t]));
      var r := Put(s, t, ReleaseLookedUp(s.attempts[t]));
      PassWindow(r, i, ReleasingOld);
    } else {
      PassWindow(s, i, Preparing);
    }
  }

  lemma PassWindow(s: State, i: nat, next: Phase)
    requires Inv(s) && i < |s.attempts| && s.attempts[i].phase == WindowStop
    requires next in {ReleasingOld, Preparing}
    requires s.attempts[i].taken.Some? ==>
               s.attempts[i].taken.value < |s.attempts| && s.attempts[s.attempts[i].taken.value].released
    ensures Inv(Put(s, i, s.attempts[i].(phase := next, passedWindow := true)))
  {
    hide OneLive, Intents, History, Custody, Stops;
    var b := s.attempts[i].(phase := next, passedWindow := true);
    AdvanceKeeps(s, i, b);
    assert Advance(s, i, b) == Put(s, i, b);
  }

  /** The commit: only a live attempt gets there, so it is the newest, and the runtime
      names no other session. */
  lemma CommitKeeps(s: State, i: nat, initialise: bool)
    requires Inv(s) && i < |s.attempts|
    requires s.attempts[i].phase == Starting && s.attempts[i].starting == Delivered(true) && !s.attempts[i].aborted
    ensures s.attempts[i].intent == s.intent
    ensures Inv(PlayResumes(s, i, initialise))
  {
    var a := s.attempts[i];
    assert Live(a);
    var t := PlayResumes(s, i, initialise);
    assert Local(t.attempts[i]);
    CommitCustody(s, t, i);
    CommitHistory(s, t, i);
  }

  lemma CommitCustody(s: State, t: State, i: nat)
    requires Custody(s) && i < |s.attempts| && !s.attempts[i].committed && s.session.None?
    requires t.attempts == s.attempts[i := s.attempts[i].(phase := Recording, committed := true)]
    requires t.session == Some(i)
    ensures Custody(t)
  {
    assert forall n: nat, m: nat :: TakenBy(t, n, m) <==> TakenBy(s, n, m);
  }

  lemma CommitHistory(s: State, t: State, i: nat)
    requires History(s) && i == |s.attempts| - 1 && !s.attempts[i].committed
    requires t.attempts == s.attempts[i := s.attempts[i].(phase := Recording, committed := true)]
    requires t.commits == s.commits + [i]
    ensures History(t)
  {
    assert forall n :: 0 <= n < |s.commits| ==> s.commits[n] < i;
  }

  lemma ResumeKeeps(s: State, i: nat, initialise: bool)
    requires Inv(s) && i < |s.attempts| && CanResume(s.attempts[i])
    ensures Inv(PlayResumes(s, i, initialise))
  {
    hide Local, Evolves, Intents, History, Custody, Stops;
    var a := s.attempts[i];
    if a.phase == WindowStop {
      WindowPassedKeeps(s, i, initialise);
    } else if a.phase in {Recording, Releasing} {
      FinishKeeps(s, i);
    } else if a.phase == ReleasingOld {
      ReleasedOldIsLocal(a);
      PutKeeps(s, i, a.(phase := Preparing));
    } else if a.aborted {
      CatchIsLocal(a);
      PutKeeps(s, i, Catch(a));
    } else if a.phase == Starting {
      CommitKeeps(s, i, initialise);
    } else {
      NextRequestIsLocal(a);
      var b := PlayResumes(s, i, initialise).attempts[i];
      PutKeeps(s, i, b);
    }
  }

  lemma ReleasedOldIsLocal(a: Attempt)
    requires Local(a) && a.phase == ReleasingOld
    ensures Local(a.(phase := Preparing)) && Evolves(a, a.(phase := Preparing))
  {
  }

  // ------------------------------------------------ plays, stops and cancels

  lemma NewAttemptIsLocal(s: State, quickJs: bool, bornAborted: bool)
    ensures Local(NewAttempt(s, quickJs, bornAborted))
  {
  }

  lemma PlayKeeps(s: State, quickJs: bool, bornAborted: bool)
    requires Inv(s)
    ensures Inv(PlayBegins(s, quickJs, bornAborted))
  {
    hide Local, Evolves, Intents, History, Custody, Stops;
    CancelLaneKeeps(s);
    NewAttemptIsLocal(s, quickJs, bornAborted);
    PlayAppends(s, CancelLane(s), NewAttempt(s, quickJs, bornAborted));
  }

  lemma PlayAppends(s: State, c: State, a: Attempt)
    requires Inv(c) && forall i :: 0 <= i < |c.attempts| ==> !Live(c.attempts[i])
    requires c.intent == s.intent && c.session == s.session
    requires Local(a) && a.intent == s.intent + 1 && a.taken == s.session && !a.passedWindow && !a.committed
    requires a.phase != Done
    ensures Inv(c.(attempts := c.attempts + [a], intent := s.intent + 1, lane := Some(|c.attempts|), session := None))
  {
    hide Local;
    var t := c.(attempts := c.attempts + [a], intent := s.intent + 1, lane := Some(|c.attempts|), session := None);
    PlayCustody(c, t, a);
  }

  lemma PlayCustody(c: State, t: State, a: Attempt)
    requires Custody(c)
    requires t.attempts == c.attempts + [a] && t.session.None? && a.taken == c.session
    requires !a.passedWindow && !a.committed
    ensures Custody(t)
  {
    var last := |c.attempts|;
    forall n: nat, m: nat
      ensures TakenBy(t, n, m) <==> TakenBy(c, n, m) || (m == last && a.taken == Some(n))
    {
    }
    forall n: nat | 0 <= n < |t.attempts| && t.attempts[n].committed && !t.attempts[n].released
      ensures exists j: nat :: TakenBy(t, n, j)
    {
      if c.session == Some(n) {
        assert TakenBy(t, n, last);
      } else {
        var j: nat :| TakenBy(c, n, j);
        assert TakenBy(t, n, j);
      }
    }
  }

  lemma ReleaseCapturedKeeps(s: State, captured: Option<nat>)
    requires Inv(s)
    requires captured.Some? && captured.value < |s.attempts| ==> s.attempts[captured.value].committed
    ensures Inv(ReleaseCaptured(s, captured))
    ensures |ReleaseCaptured(s, captured).attempts| == |s.attempts|
    ensures ReleaseCaptured(s, captured).(attempts := s.attempts) == s
    ensures captured.Some? && captured.value < |s.attempts| ==>
              ReleaseCaptured(s, captured).attempts[captured.value].released
    ensures forall i :: 0 <= i < |s.attempts| ==> Evolves(s.attempts[i], ReleaseCaptured(s, captured).attempts[i])
  {
    if captured.Some? && captured.value < |s.attempts| {
      ReleaseIsLocal(s.attempts[captured.value]);
      PutKeeps(s, captured.value, ReleaseLookedUp(s.attempts[captured.value]));
    }
  }

  lemma StopKeeps(s: State, mpv: bool)
    requires Inv(s)
    ensures Inv(StopBegins(s, mpv))
  {
    hide Local, OneLive, Intents, History, Stops, CancelLane, ReleaseCaptured;
    CancelLaneKeeps(s);
    var c := CancelLane(s);
    if mpv {
      StopAppends(c, Stop(s.intent + 1, s.session, ClosingMpv));
    } else {
      ReleaseCapturedKeeps(c, s.session);
      StopAppends(ReleaseCaptured(c, s.session), Stop(s.intent + 1, s.session, AfterRelease));
    }
  }

  lemma StopAppends(c: State, stop: Stop)
    requires Inv(c) && forall i :: 0 <= i < |c.attempts| ==> !Live(c.attempts[i])
    requires stop.intent == c.intent + 1 && stop.captured == c.session
    requires stop.phase != Stopped
    requires stop.captured.Some? ==>
               stop.captured.value < |c.attempts|
               && (stop.phase == AfterRelease ==> c.attempts[stop.captured.value].released)
    ensures Inv(c.(stops := c.stops + [stop], intent := c.intent + 1))
  {
    hide Local;
    var t := c.(stops := c.stops + [stop], intent := c.intent + 1);
    assert forall n: nat, m: nat :: TakenBy(t, n, m) <==> TakenBy(c, n, m);
  }

  lemma StopResumeKeeps(s: State, k: nat)
    requires Inv(s) && k < |s.stops|
    ensures Inv(StopResumes(s, k))
  {
    hide Local, OneLive, Intents, History, Custody, ReleaseCaptured;
    var stop := s.stops[k];
    if stop.phase == ClosingMpv {
      ReleaseCapturedKeeps(s, stop.captured);
      StopAdvances(ReleaseCaptured(s, stop.captured), k, AfterRelease);
    } else if stop.phase == AfterRelease {
      StopAdvances(s, k, Stopped);
      if stop.intent == s.intent {
        StopClears(s, s.(stops := s.stops[k := stop.(phase := Stopped)]), k);
      }
    }
  }

  lemma StopAdvances(s: State, k: nat, next: StopPhase)
    requires Inv(s) && k < |s.stops| && next != ClosingMpv
    requires s.stops[k].phase != Stopped
    requires s.stops[k].captured.Some? ==>
               s.stops[k].captured.value < |s.attempts| && s.attempts[s.stops[k].captured.value].released
    ensures Inv(s.(stops := s.stops[k := s.stops[k].(phase := next)]))
  {
    hide Local;
    var t := s.(stops := s.stops[k := s.stops[k].(phase := next)]);
    assert forall n: nat, m: nat :: TakenBy(t, n, m) <==> TakenBy(s, n, m);
  }

  /** A stop that still holds the newest intent clears the session it captured, never a
      later one. */
  lemma StopClears(s: State, t: State, k: nat)
    requires Inv(s) && k < |s.stops| && s.stops[k].phase == AfterRelease && s.stops[k].intent == s.intent
    requires Inv(t) && t.session == s.session && t.attempts == s.attempts
    ensures Inv(t.(session := None))
  {
    hide Local;
    var u := t.(session := None);
    KeptWithoutSession(t);
    hide OneLive, Intents, History;
    assert forall n: nat, m: nat :: TakenBy(u, n, m) <==> TakenBy(t, n, m);
  }

  lemma KeptWithoutSession(t: State)
    requires OneLive(t) && Intents(t) && History(t)
    ensures OneLive(t.(session := None)) && Intents(t.(session := None)) && History(t.(session := None))
  {
  }

  lemma StepKeeps(s: State, e: Event)
    requires Inv(s) && Enabled(s, e)
    ensures Inv(Step(s, e))
  {
    hide Local, OneLive, Intents, History, Custody, Stops;
    match e
    case BeginPlay(quickJs, bornAborted) => PlayKeeps(s, quickJs, bornAborted);
    case PlayPastDeadline => CancelLaneKeeps(s);
    case Resume(i, initialise) => ResumeKeeps(s, i, initialise);
    case BeginStop(mpv) => StopKeeps(s, mpv);
    case ResumeStop(k) => StopResumeKeeps(s, k);
    case CancelFallback => CancelKeeps(s);
    case _ =>
      if e.CloseSource? || e.CloseStray? || e.CloseProxy? || e.Forget? {
        CloseEventKeeps(s, e);
      } else {
        RequestEventKeeps(s, e);
      }
  }

  lemma CancelKeeps(s: State)
    requires Inv(s)
    ensures Inv(CancelLane(s).(intent := s.intent + 1))
  {
    hide Local, OneLive, Intents, History, Custody, Stops, CancelLane;
    CancelLaneKeeps(s);
    NewIntent(CancelLane(s));
  }

  lemma NewIntent(c: State)
    requires Inv(c) && forall i :: 0 <= i < |c.attempts| ==> !Live(c.attempts[i])
    ensures Inv(c.(intent := c.intent + 1))
  {
    hide Local;
    var t := c.(intent := c.intent + 1);
    assert forall n: nat, m: nat :: TakenBy(t, n, m) <==> TakenBy(c, n, m);
  }

  // ------------------------------------------------------------ the results

  lemma {:induction false} ReachableInv(events: seq<Event>)
    ensures Inv(Run(events))
  {
    hide Local, OneLive, Intents, History, Custody, Stops;
    if events == [] {
      InitialInv();
    } else {
      var before := Run(events[..|events| - 1]);
      ReachableInv(events[..|events| - 1]);
      if Enabled(before, events[|events| - 1]) {
        StepKeeps(before, events[|events| - 1]);
      }
    }
  }

  lemma InitialInv()
    ensures Inv(INITIAL)
  {
    assert OneLive(INITIAL);
    assert Intents(INITIAL);
    assert History(INITIAL);
    assert Custody(INITIAL);
    assert Stops(INITIAL);
  }

  /** At most one attempt is live in any reachable state: the newest, which is the task under
      its lane and holds the newest intent. */
  lemma AtMostOneLive(events: seq<Event>, i: nat)
    requires i < |Run(events).attempts| && Live(Run(events).attempts[i])
    ensures var s := Run(events);
            i == |s.attempts| - 1 && s.lane == Some(i) && s.attempts[i].intent == s.intent
            && forall j :: 0 <= j < |s.attempts| && j != i ==> !Live(s.attempts[j])
  {
    ReachableInv(events);
  }

  /** No late overwrite: whoever writes `proxySessionId` is live, the newest attempt, the task
      under its lane, holds the newest intent, and finds no session there. */
  lemma OnlyNewestCommits(events: seq<Event>, e: Event)
    requires var s, t := Run(events), Apply(Run(events), e);
             t.commits != s.commits || (t.session.Some? && t.session != s.session)
    ensures var s, t := Run(events), Apply(Run(events), e);
            && e.Resume? && e.i == |s.attempts| - 1 && s.lane == Some(e.i)
            && Live(s.attempts[e.i]) && s.attempts[e.i].intent == s.intent
            && s.session == None && t.session == Some(e.i) && t.commits == s.commits + [e.i]
  {
    ReachableInv(events);
    hide Resources, Releases, Covered, Intents, History, Custody, Stops;
    SessionWriters(Run(events), e);
  }

  lemma SessionWriters(s: State, e: Event)
    requires Enabled(s, e)
    requires Step(s, e).commits != s.commits || (Step(s, e).session.Some? && Step(s, e).session != s.session)
    ensures e.Resume? && s.attempts[e.i].phase == Starting && !s.attempts[e.i].aborted
            && s.attempts[e.i].intent == s.intent
  {
  }

  /** The check of the intent number after the last wait never finds a difference: by then
      the task has been aborted. */
  lemma IntentCheckNeverFires(events: seq<Event>, i: nat)
    requires var s := Run(events); i < |s.attempts| && s.attempts[i].phase == Starting && !s.attempts[i].aborted
    ensures Run(events).attempts[i].intent == Run(events).intent
  {
    ReachableInv(events);
  }

  /** Commits happen in increasing intent order, each attempt commits at most once, and the
      log holds exactly the committed attempts. */
  lemma CommitsInIntentOrder(events: seq<Event>)
    ensures var s := Run(events);
            && (forall n :: 0 <= n < |s.commits| ==> s.commits[n] < |s.attempts|)
            && (forall m, n :: 0 <= m < n < |s.commits| ==>
                  s.attempts[s.commits[m]].intent < s.attempts[s.commits[n]].intent)
            && (forall i :: 0 <= i < |s.attempts| ==> (s.attempts[i].committed <==> i in s.commits))
  {
    ReachableInv(events);
  }

  /** A stop that clears `proxySessionId` clears the session it captured when it began, and
      that session has been released. */
  lemma StopClearsOnlyItsOwn(events: seq<Event>, k: nat, i: nat)
    requires var s := Run(events);
             k < |s.stops| && s.session == Some(i) && Apply(s, ResumeStop(k)).session == None
    ensures Run(events).stops[k].captured == Some(i)
    ensures i < |Run(events).attempts| && Run(events).attempts[i].released
  {
    ReachableInv(events);
  }

  /** Attempt `j` took session `i` out of the runtime and gave up before its first wait was
      over, so it never released it. */
  ghost predicate Abandoned(s: State, i: nat, j: nat) {
    TakenBy(s, i, j) && !s.attempts[j].passedWindow && !s.attempts[j].committed
  }

  /** When every promise has settled, no uncommitted attempt has anything open, and a
      committed session is open exactly when nothing has ever released it. */
  lemma NothingLeftOpen(events: seq<Event>, i: nat)
    requires Quiescent(Run(events)) && i < |Run(events).attempts|
    ensures var a := Run(events).attempts[i];
            IsOpen(a) <==> a.committed && !a.released
  {
    ReachableInv(events);
    assert Local(Run(events).attempts[i]);
  }

  /** What is still open then is the runtime's own session or one abandoned by a later
      attempt. */
  lemma OpenSessionsAccountedFor(events: seq<Event>, i: nat)
    requires Quiescent(Run(events)) && i < |Run(events).attempts| && IsOpen(Run(events).attempts[i])
    ensures Run(events).session == Some(i) || exists j: nat :: Abandoned(Run(events), i, j)
  {
    ReachableInv(events);
    NothingLeftOpen(events, i);
    var s := Run(events);
    if s.session != Some(i) {
      var j: nat :| TakenBy(s, i, j);
      assert !s.attempts[j].passedWindow;
      assert Local(s.attempts[j]);
      assert Abandoned(s, i, j);
    }
  }
}
