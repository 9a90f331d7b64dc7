/** Why a committed session was released, and so when a session is left open for good and when
    the runtime is left naming a closed one. */
module PlaybackRest {
  import opened Options
  import opened PlaybackProtocol
  import opened PlaybackSafety

  /** A stop that captured session `i` has got as far as releasing it. */
  ghost predicate StopReleased(s: State, i: nat) {
    exists k :: 0 <= k < |s.stops| && s.stops[k].captured == Some(i) && s.stops[k].phase != ClosingMpv
  }

  /** A later attempt that took session `i` has got past its first wait. */
  ghost predicate TakerReleased(s: State, i: nat) {
    exists j :: 0 <= j < |s.attempts| && TakenBy(s, i, j) && s.attempts[j].passedWindow
  }

  /** A committed session is released by an abort of its own attempt, by a stop or by its
      taker, and by nothing else. */
  ghost predicate CausedAt(s: State, i: nat)
    requires i < |s.attempts|
  {
    var a := s.attempts[i];
    a.committed ==> (a.released <==> a.aborted || StopReleased(s, i) || TakerReleased(s, i))
  }

  /** A session is taken out of the runtime once. */
  ghost predicate TakenOnce(s: State) {
    forall i: nat, j: nat, k: nat :: TakenBy(s, i, j) && TakenBy(s, i, k) ==> j == k
  }

  ghost predicate Caused(s: State) {
    TakenOnce(s) && forall i :: 0 <= i < |s.attempts| ==> CausedAt(s, i)
  }

  /** Calls stay where they are, and what has been passed stays passed. */
  ghost predicate Continues(s: State, t: State) {
    && |s.attempts| <= |t.attempts| && |s.stops| <= |t.stops|
    && (forall j :: 0 <= j < |s.attempts| ==>
          t.attempts[j].taken == s.attempts[j].taken
          && (s.attempts[j].passedWindow ==> t.attempts[j].passedWindow))
    && (forall k :: 0 <= k < |s.stops| ==>
          t.stops[k].captured == s.stops[k].captured
          && (s.stops[k].phase != ClosingMpv ==> t.stops[k].phase != ClosingMpv))
  }

  lemma CausesStay(s: State, t: State, i: nat)
    requires Continues(s, t)
    ensures StopReleased(s, i) ==> StopReleased(t, i)
    ensures TakerReleased(s, i) ==> TakerReleased(t, i)
  {
    if StopReleased(s, i) {
      var k :| 0 <= k < |s.stops| && s.stops[k].captured == Some(i) && s.stops[k].phase != ClosingMpv;
      assert t.stops[k].captured == Some(i);
    }
    if TakerReleased(s, i) {
      var j :| 0 <= j < |s.attempts| && TakenBy(s, i, j) && s.attempts[j].passedWindow;
      assert TakenBy(t, i, j);
    }
  }

  /** Whatever of the three has happened, the session has been released. */
  lemma CauseReleases(s: State, i: nat)
    requires Inv(s) && i < |s.attempts| && (StopReleased(s, i) || TakerReleased(s, i))
    ensures s.attempts[i].released
  {
    hide Local, OneLive, Intents, History;
  }

  /** Nothing happens to a committed attempt but an abort that releases it. */
  predicate Quiet(a: Attempt, b: Attempt) {
    && b.taken == a.taken && (a.passedWindow ==> b.passedWindow)
    && (b.committed ==>
          && a.committed && (a.released ==> b.released) && (a.aborted ==> b.aborted)
          && (b.released ==> a.released || b.aborted)
          && (b.aborted ==> a.aborted || b.released))
  }

  /** All attempts of `s` but those excepted are quiet, and new ones have committed nothing. */
  ghost predicate QuietBut(s: State, t: State, but: set<nat>) {
    && |s.attempts| <= |t.attempts|
    && (forall j: nat :: j < |s.attempts| && j !in but ==> Quiet(s.attempts[j], t.attempts[j]))
    && (forall j :: |s.attempts| <= j < |t.attempts| ==> !t.attempts[j].committed)
  }

  lemma QuietCaused(s: State, t: State, i: nat)
    requires i < |s.attempts| <= |t.attempts| && CausedAt(s, i) && Continues(s, t)
    requires Quiet(s.attempts[i], t.attempts[i])
    requires Inv(t)
    ensures CausedAt(t, i)
  {
    hide Inv, Continues;
    CausesStay(s, t, i);
    if StopReleased(t, i) || TakerReleased(t, i) {
      CauseReleases(t, i);
    }
  }

  /** Steps that leave all attempts quiet keep the causes. */
  lemma QuietKeeps(s: State, t: State)
    requires Caused(s) && Inv(t) && Continues(s, t) && QuietBut(s, t, {}) && TakenOnce(t)
    ensures Caused(t)
  {
    hide Inv, Continues, CausedAt, Quiet;
    forall i | 0 <= i < |t.attempts| ensures CausedAt(t, i) {
      if i < |s.attempts| {
        QuietCaused(s, t, i);
      } else {
        Uncommitted(t, i);
      }
    }
  }

  lemma Uncommitted(t: State, i: nat)
    requires i < |t.attempts| && !t.attempts[i].committed
    ensures CausedAt(t, i)
  {
  }

  /** One attempt changes, quietly. */
  lemma PutQuiet(s: State, i: nat, b: Attempt)
    requires Caused(s) && i < |s.attempts| && Quiet(s.attempts[i], b) && Inv(Put(s, i, b))
    ensures Caused(Put(s, i, b))
  {
    hide Inv, CausedAt;
    var t := Put(s, i, b);
    assert Continues(s, t) && QuietBut(s, t, {});
    assert forall n: nat, m: nat :: TakenBy(t, n, m) <==> TakenBy(s, n, m);
    QuietKeeps(s, t);
  }

  // ------------------------------------------------------------------ the steps

  lemma OwnEventCaused(s: State, e: Event)
    requires Inv(s) && Caused(s) && Enabled(s, e)
    requires e.Abort? || e.Reject? || e.Answer? || e.Deliver? || e.CloseSource? || e.CloseStray? || e.CloseProxy?
             || e.Forget?
    ensures Caused(Step(s, e))
  {
    StepKeeps(s, e);
    OwnEventQuiet(s, e);
    hide Inv, Caused, Quiet;
    PutQuiet(s, e.i, Step(s, e).attempts[e.i]);
  }

  lemma OwnEventQuiet(s: State, e: Event)
    requires Inv(s) && Enabled(s, e)
    requires e.Abort? || e.Reject? || e.Answer? || e.Deliver? || e.CloseSource? || e.CloseStray? || e.CloseProxy?
             || e.Forget?
    ensures e.i < |s.attempts| == |Step(s, e).attempts|
    ensures Quiet(s.attempts[e.i], Step(s, e).attempts[e.i])
    ensures Step(s, e) == Put(s, e.i, Step(s, e).attempts[e.i])
  {
    hide OneLive, Intents, History, Custody, Stops, Resources, Covered;
    assert Local(s.attempts[e.i]);
  }

  lemma CancelLaneCaused(s: State)
    requires Inv(s) && Caused(s)
    ensures Caused(CancelLane(s))
  {
    hide Caused, Local, Intents, History, Custody, Stops;
    CancelLaneKeeps(s);
    if s.lane.Some? {
      PutQuiet(s, s.lane.value, AbortAttempt(s.attempts[s.lane.value]));
    }
  }

  lemma PlayCaused(s: State, quickJs: bool, bornAborted: bool)
    requires Inv(s) && Caused(s)
    ensures Caused(PlayBegins(s, quickJs, bornAborted))
  {
    PlayKeeps(s, quickJs, bornAborted);
    CancelLaneKeeps(s);
    CancelLaneCaused(s);
    hide CancelLane, CausedAt, Local, OneLive, Intents, History, Stops;
    var c, t := CancelLane(s), PlayBegins(s, quickJs, bornAborted);
    assert Continues(c, t) && QuietBut(c, t, {});
    PlayTakes(c, t, NewAttempt(s, quickJs, bornAborted));
    hide Inv, Continues, QuietBut;
    QuietKeeps(c, t);
  }

  /** What a new attempt takes nobody has taken before. */
  lemma PlayTakes(c: State, t: State, a: Attempt)
    requires TakenOnce(c) && Custody(c) && t.attempts == c.attempts + [a] && a.taken == c.session
    ensures TakenOnce(t)
  {
    forall n: nat, m: nat ensures TakenBy(t, n, m) <==> TakenBy(c, n, m) || (m == |c.attempts| && a.taken == Some(n)) {
    }
  }

  lemma StopKeptCaused(c: State, t: State)
    requires Caused(c) && Inv(t) && t.attempts == c.attempts
    requires Continues(c, t)
    ensures Caused(t)
  {
    hide Inv, CausedAt, Continues;
    assert QuietBut(c, t, {});
    assert forall n: nat, m: nat :: TakenBy(t, n, m) <==> TakenBy(c, n, m);
    QuietKeeps(c, t);
  }

  lemma CancelCaused(s: State)
    requires Inv(s) && Caused(s)
    ensures Caused(CancelLane(s).(intent := s.intent + 1))
  {
    CancelKeeps(s);
    CancelLaneKeeps(s);
    CancelLaneCaused(s);
    hide Inv, Caused, CancelLane;
    var c := CancelLane(s);
    StopKeptCaused(c, c.(intent := s.intent + 1));
  }

  /** A stop releases what it captured, and by then it is past its first wait. */
  lemma CapturedCaused(s: State, t: State, captured: Option<nat>, k: nat)
    requires Caused(s) && Inv(t) && Continues(s, t)
    requires t.attempts == ReleaseCaptured(s, captured).attempts
    requires k < |t.stops| && t.stops[k].captured == captured && t.stops[k].phase != ClosingMpv
    ensures Caused(t)
  {
    hide Inv, Continues;
    assert forall n: nat, m: nat :: TakenBy(t, n, m) <==> TakenBy(s, n, m);
    forall i | 0 <= i < |t.attempts| ensures CausedAt(t, i) {
      if captured == Some(i) {
        assert StopReleased(t, i);
        CauseReleases(t, i);
      } else {
        QuietCaused(s, t, i);
      }
    }
  }

  lemma ReleaseCapturedContinues(c: State, captured: Option<nat>)
    ensures var r := ReleaseCaptured(c, captured);
            && |r.attempts| == |c.attempts| && r.stops == c.stops
            && forall j :: 0 <= j < |c.attempts| ==>
                 r.attempts[j].taken == c.attempts[j].taken
                 && r.attempts[j].passedWindow == c.attempts[j].passedWindow
  {
  }

  lemma StopBeginsCaused(s: State, mpv: bool)
    requires Inv(s) && Caused(s)
    ensures Caused(StopBegins(s, mpv))
  {
    StopKeeps(s, mpv);
    CancelLaneKeeps(s);
    CancelLaneCaused(s);
    hide CancelLane, ReleaseCaptured, Inv, Caused;
    var c, t := CancelLane(s), StopBegins(s, mpv);
    if mpv {
      StopKeptCaused(c, t);
    } else {
      ReleaseCapturedContinues(c, s.session);
      CapturedCaused(c, t, s.session, |c.stops|);
    }
  }

  lemma StopResumesCaused(s: State, k: nat)
    requires Inv(s) && Caused(s) && k < |s.stops|
    ensures Caused(StopResumes(s, k))
  {
    StopResumeKeeps(s, k);
    hide Inv, Caused;
    var t := StopResumes(s, k);
    assert Continues(s, t);
    if s.stops[k].phase == ClosingMpv {
      CapturedCaused(s, t, s.stops[k].captured, k);
    } else {
      StopKeptCaused(s, t);
    }
  }

  /** The taker releases what it took, and by then it is past its first wait. */
  lemma WindowPassedCaused(s: State, i: nat, initialise: bool)
    requires Inv(s) && Caused(s) && i < |s.attempts| && s.attempts[i].phase == WindowStop
    ensures Caused(PlayResumes(s, i, initialise))
  {
    WindowPassedKeeps(s, i, initialise);
    var a, t := s.attempts[i], PlayResumes(s, i, initialise);
    WindowPassedQuiet(s, i, initialise);
    hide Inv, Continues, CausedAt, Quiet, PlayResumes;
    assert forall n: nat, m: nat :: TakenBy(t, n, m) <==> TakenBy(s, n, m);
    forall n | 0 <= n < |t.attempts| ensures CausedAt(t, n) {
      if a.taken == Some(n) {
        assert TakenBy(t, n, i);
        TakenIsCaused(t, n, i);
      } else {
        QuietCaused(s, t, n);
      }
    }
  }

  lemma TakenIsCaused(t: State, n: nat, i: nat)
    requires Inv(t) && n < |t.attempts| && TakenBy(t, n, i) && t.attempts[i].passedWindow
    ensures CausedAt(t, n)
  {
    hide Inv;
    assert TakerReleased(t, n);
    CauseReleases(t, n);
  }

  lemma WindowPassedQuiet(s: State, i: nat, initialise: bool)
    requires Inv(s) && i < |s.attempts| && s.attempts[i].phase == WindowStop
    ensures var a, t := s.attempts[i], PlayResumes(s, i, initialise);
            && |t.attempts| == |s.attempts| && t.attempts[i].passedWindow && t.attempts[i].taken == a.taken
            && Continues(s, t)
            && (forall n: nat :: n < |s.attempts| ==> t.attempts[n].taken == s.attempts[n].taken)
            && (forall n: nat :: n < |s.attempts| && a.taken != Some(n) ==> Quiet(s.attempts[n], t.attempts[n]))
  {
    hide OneLive, Intents, History, Stops, Local;
    var a := s.attempts[i];
    assert Local(a);
    if a.taken.Some? {
      assert TakenBy(s, a.taken.value, i);
    }
  }

  lemma ResumeCaused(s: State, i: nat, initialise: bool)
    requires Inv(s) && Caused(s) && i < |s.attempts| && CanResume(s.attempts[i])
    ensures Caused(PlayResumes(s, i, initialise))
  {
    var a, t := s.attempts[i], PlayResumes(s, i, initialise);
    ResumeKeeps(s, i, initialise);
    if a.phase == WindowStop {
      WindowPassedCaused(s, i, initialise);
    } else {
      ResumedQuiet(s, i, initialise);
      hide Inv, Continues, CausedAt, Quiet, PlayResumes;
      assert forall n: nat, m: nat :: TakenBy(t, n, m) <==> TakenBy(s, n, m);
      forall n | 0 <= n < |t.attempts| ensures CausedAt(t, n) {
        if n == i && t.attempts[i].committed && !a.committed {
          FreshCommit(t, i);
        } else {
          QuietCaused(s, t, n);
        }
      }
    }
  }

  lemma ResumedQuiet(s: State, i: nat, initialise: bool)
    requires Inv(s) && i < |s.attempts| && CanResume(s.attempts[i]) && s.attempts[i].phase != WindowStop
    ensures var a, t := s.attempts[i], PlayResumes(s, i, initialise);
            && |t.attempts| == |s.attempts| && t.attempts[i].taken == a.taken && Continues(s, t)
            && (forall n :: 0 <= n < |s.attempts| && n != i ==> t.attempts[n] == s.attempts[n])
            && (if t.attempts[i].committed && !a.committed then !t.attempts[i].released && !t.attempts[i].aborted
                else Quiet(a, t.attempts[i]))
  {
    hide Inv, Quiet, PlayResumes, Continues;
    ResumedFrame(s, i, initialise);
    OwnChangeContinues(s, PlayResumes(s, i, initialise), i);
    ResumedOwn(s, i, initialise);
  }

  lemma ResumedFrame(s: State, i: nat, initialise: bool)
    requires i < |s.attempts| && s.attempts[i].phase != WindowStop
    ensures var a, t := s.attempts[i], PlayResumes(s, i, initialise);
            && |t.attempts| == |s.attempts| && t.stops == s.stops && t.attempts == s.attempts[i := t.attempts[i]]
            && t.attempts[i].taken == a.taken && t.attempts[i].passedWindow == a.passedWindow
  {
    hide PlayResumes, ReleaseKnown, ReleaseLookedUp;
    var a := s.attempts[i];
    ReleaseKeepsOwn(a);
    if a.phase == Starting {
      StartingFrame(s, i, initialise);
    } else {
      ResumedIs(s, i, initialise);
    }
  }

  lemma ReleaseKeepsOwn(a: Attempt)
    ensures ReleaseKnown(a).taken == a.taken && ReleaseKnown(a).passedWindow == a.passedWindow
    ensures ReleaseLookedUp(a).taken == a.taken && ReleaseLookedUp(a).passedWindow == a.passedWindow
  {
  }

  lemma StartingFrame(s: State, i: nat, initialise: bool)
    requires i < |s.attempts| && s.attempts[i].phase == Starting
    ensures var a, t := s.attempts[i], PlayResumes(s, i, initialise);
            && |t.attempts| == |s.attempts| && t.stops == s.stops && t.attempts == s.attempts[i := t.attempts[i]]
            && t.attempts[i].taken == a.taken && t.attempts[i].passedWindow == a.passedWindow
  {
  }

  lemma ResumedIs(s: State, i: nat, initialise: bool)
    requires i < |s.attempts| && s.attempts[i].phase != WindowStop && s.attempts[i].phase != Starting
    ensures var a, t := s.attempts[i], PlayResumes(s, i, initialise);
            && t.stops == s.stops
            && (t.attempts == s.attempts[i := Catch(a)]
                || exists p, o, q :: t.attempts == s.attempts[i := a.(phase := p, opening := o, starting := q)])
  {
    hide Catch;
    var a := s.attempts[i];
    var t := PlayResumes(s, i, initialise);
    var b := t.attempts[i];
    assert a.phase == Done ==> t.attempts == s.attempts[i := a];
    assert b == Catch(a) || b == a.(phase := b.phase, opening := b.opening, starting := b.starting);
  }

  lemma OwnChangeContinues(s: State, t: State, i: nat)
    requires i < |s.attempts| == |t.attempts| && t.stops == s.stops && t.attempts == s.attempts[i := t.attempts[i]]
    requires t.attempts[i].taken == s.attempts[i].taken
    requires t.attempts[i].passedWindow == s.attempts[i].passedWindow
    ensures Continues(s, t)
  {
  }

  lemma ResumedOwn(s: State, i: nat, initialise: bool)
    requires Inv(s) && i < |s.attempts| && CanResume(s.attempts[i]) && s.attempts[i].phase != WindowStop
    ensures var a, b := s.attempts[i], PlayResumes(s, i, initialise).attempts[i];
            if b.committed && !a.committed then !b.released && !b.aborted else Quiet(a, b)
  {
    hide OneLive, Intents, History, Custody, Stops, Resources;
    var a := s.attempts[i];
    assert Local(a);
    if a.phase in {ReleasingOld, Preparing, Opening, Initialising} {
      var b := PlayResumes(s, i, initialise).attempts[i];
      assert b.committed == a.committed && b.aborted == a.aborted && !a.committed;
    }
  }

  lemma FreshCommit(t: State, i: nat)
    requires Inv(t) && i < |t.attempts| && !t.attempts[i].released && !t.attempts[i].aborted
    ensures CausedAt(t, i)
  {
    if StopReleased(t, i) || TakerReleased(t, i) {
      CauseReleases(t, i);
    }
  }

  lemma StepCaused(s: State, e: Event)
    requires Inv(s) && Caused(s) && Enabled(s, e)
    ensures Caused(Step(s, e))
  {
    hide Inv, Caused;
    match e
    case BeginPlay(quickJs, bornAborted) => PlayCaused(s, quickJs, bornAborted);
    case PlayPastDeadline => CancelLaneCaused(s);
    case Resume(i, initialise) => ResumeCaused(s, i, initialise);
    case BeginStop(mpv) => StopBeginsCaused(s, mpv);
    case ResumeStop(k) => StopResumesCaused(s, k);
    case CancelFallback => CancelCaused(s);
    case _ => OwnEventCaused(s, e);
  }

  lemma {:induction false} ReachableCaused(events: seq<Event>)
    ensures Caused(Run(events))
  {
    hide Inv;
    if events != [] {
      hide Caused;
      var before := Run(events[..|events| - 1]);
      ReachableInv(events[..|events| - 1]);
      ReachableCaused(events[..|events| - 1]);
      if Enabled(before, events[|events| - 1]) {
        StepCaused(before, events[|events| - 1]);
      }
    }
  }

  // ---------------------------------------------------------------- the results

  /** In every reachable state a committed session has been released exactly if its own
      attempt was aborted, a stop that captured it has released it, or its taker has. */
  lemma ReleasedIff(events: seq<Event>, i: nat)
    requires i < |Run(events).attempts| && Run(events).attempts[i].committed
    ensures var s := Run(events);
            s.attempts[i].released <==> s.attempts[i].aborted || StopReleased(s, i) || TakerReleased(s, i)
  {
    ReachableCaused(events);
    assert CausedAt(Run(events), i);
  }

  ghost predicate Captured(s: State, i: nat) { exists k :: 0 <= k < |s.stops| && s.stops[k].captured == Some(i) }

  /** At rest a session that the runtime does not name is open exactly if it was abandoned by
      its taker, its own attempt was never aborted, and no stop ever captured it. */
  lemma LeftOpenIff(events: seq<Event>, i: nat)
    requires Quiescent(Run(events)) && i < |Run(events).attempts|
    ensures var s := Run(events);
            IsOpen(s.attempts[i]) && s.session != Some(i)
            <==> (exists j: nat :: Abandoned(s, i, j)) && !s.attempts[i].aborted && !Captured(s, i)
  {
    var s := Run(events);
    ReachableInv(events);
    ReachableCaused(events);
    NothingLeftOpen(events, i);
    assert CausedAt(s, i);
    if IsOpen(s.attempts[i]) && s.session != Some(i) {
      OpenSessionsAccountedFor(events, i);
    }
    hide Local, OneLive, Intents, History, Stops;
    if j: nat :| Abandoned(s, i, j) {
      NotReleasedByTaker(s, i, j);
    }
  }

  lemma NotReleasedByTaker(s: State, i: nat, j: nat)
    requires TakenOnce(s) && TakenBy(s, i, j) && !s.attempts[j].passedWindow
    ensures !TakerReleased(s, i)
  {
  }

  /** At rest the runtime names a closed session exactly if the attempt that committed it was
      aborted afterwards or a stop captured it, which was then overtaken. */
  lemma NamesClosedIff(events: seq<Event>, i: nat)
    requires Quiescent(Run(events)) && Run(events).session == Some(i)
    ensures var s := Run(events);
            i < |s.attempts| && (!IsOpen(s.attempts[i]) <==> s.attempts[i].aborted || Captured(s, i))
  {
    var s := Run(events);
    ReachableInv(events);
    ReachableCaused(events);
    NothingLeftOpen(events, i);
    assert CausedAt(s, i);
  }

  // --------------------------------------------------- runs worth knowing of

  lemma Then(events: seq<Event>, s: State, e: Event) returns (more: seq<Event>, t: State)
    requires Run(events) == s
    ensures more == events + [e] && t == Apply(s, e) && Run(more) == t
  {
    more := events + [e];
    t := Apply(s, e);
    assert more[..|more| - 1] == events;
  }

  /** The session that a first play leaves behind. */
  const PLAYED := Attempt(1, false, Done, false, None, true, Delivered(true), Delivered(true), true, true, false,
                          true, true, 0, 0, 0)

  /** A first play up to its commit. */
  lemma FirstPlay() returns (events: seq<Event>, s: State)
    ensures Run(events) == s == State([PLAYED.(phase := Recording)], [], 1, Some(0), Some(0), [0])
  {
    hide Run;
    events, s := StartedPlay();
    events, s := Then(events, s, Answer(0, Open, true));
    events, s := Then(events, s, Deliver(0, Open));
    events, s := Then(events, s, Resume(0, false));
    events, s := Then(events, s, Answer(0, Start, true));
    events, s := Then(events, s, Deliver(0, Start));
    events, s := Then(events, s, Resume(0, false));
  }

  lemma StartedPlay() returns (events: seq<Event>, s: State)
    ensures Run(events) == s
    ensures s == State([Attempt(1, false, Opening, false, None, true, Sent, NotSent, false, true, false,
                                false, false, 0, 0, 0)], [], 1, Some(0), None, [])
  {
    events, s := [], INITIAL;
    events, s := Then(events, s, BeginPlay(false, false));
    events, s := Then(events, s, Resume(0, false));
    events, s := Then(events, s, Resume(0, false));
  }

  /** A session can be left open for good: the second play takes it and fails while it waits
      for the player window to stop. */
  lemma PredecessorCanLeak() returns (events: seq<Event>)
    ensures var s := Run(events);
            Quiescent(s) && |s.attempts| == 2 && IsOpen(s.attempts[0]) && s.session == None
            && Abandoned(s, 0, 1)
  {
    hide Run;
    var s: State;
    events, s := FirstPlay();
    events, s := Then(events, s, Resume(0, false));
    events, s := Then(events, s, BeginPlay(false, false));
    events, s := Then(events, s, Reject(1));
    events, s := Then(events, s, CloseSource(1));
    events, s := Then(events, s, CloseProxy(1));
    events, s := Then(events, s, Resume(1, false));
  }

  /** The runtime can name a closed session: a cancel that lands between the commit and the
      end of `play` releases the session without clearing `proxySessionId`. */
  lemma RuntimeCanNameClosedSession() returns (events: seq<Event>)
    ensures var s := Run(events);
            Quiescent(s) && |s.attempts| == 1 && s.session == Some(0) && !IsOpen(s.attempts[0])
  {
    hide Run;
    var s: State;
    events, s := FirstPlay();
    events, s := Then(events, s, CancelFallback);
    events, s := Then(events, s, CloseSource(0));
    events, s := Then(events, s, CloseProxy(0));
    events, s := Then(events, s, Resume(0, false));
  }

  /** The play of `FirstPlay` has ended, a stop that waits for the player has captured its
      session, and a second play has taken it and failed at once. */
  lemma CapturedThenTaken() returns (events: seq<Event>, s: State)
    ensures Run(events) == s
    ensures s == State([PLAYED, Attempt(3, false, Done, false, Some(0), false, NotSent, NotSent, false, true, true,
                                        false, false, 0, 0, 0)],
                       [Stop(2, Some(0), ClosingMpv)], 3, None, None, [0])
  {
    hide Run;
    events, s := FirstPlay();
    events, s := Then(events, s, Resume(0, false));
    events, s := Then(events, s, BeginStop(true));
    events, s := Then(events, s, BeginPlay(false, false));
    assert s == State([PLAYED, Attempt(3, false, WindowStop, false, Some(0), false, NotSent, NotSent, false, true, false,
                                       false, false, 0, 0, 0)],
                      [Stop(2, Some(0), ClosingMpv)], 3, Some(1), None, [0]);
    events, s := SecondPlayFails(events, s);
  }

  lemma SecondPlayFails(before: seq<Event>, at: State) returns (events: seq<Event>, s: State)
    requires Run(before) == at && |at.attempts| == 2 && at.lane == Some(1)
    requires at.attempts[1] == Attempt(3, false, WindowStop, false, Some(0), false, NotSent, NotSent, false, true, false,
                                       false, false, 0, 0, 0)
    ensures Run(events) == s
    ensures s == at.(attempts := [at.attempts[0], Attempt(3, false, Done, false, Some(0), false, NotSent, NotSent, false,
                                                          true, true, false, false, 0, 0, 0)],
                     lane := None)
  {
    hide Run;
    events, s := Then(before, at, Reject(1));
    events, s := Then(events, s, CloseSource(1));
    events, s := Then(events, s, CloseProxy(1));
    events, s := Then(events, s, Resume(1, false));
  }

  /** An abandoned session need not stay open: here the stop that was under way when the second
      play took the session releases it after all. */
  lemma AbandonedAndClosed() returns (events: seq<Event>)
    ensures var s := Run(events);
            Quiescent(s) && Abandoned(s, 0, 1) && Captured(s, 0) && !IsOpen(s.attempts[0])
  {
    hide Run;
    var s: State;
    events, s := CapturedThenTaken();
    events, s := Then(events, s, ResumeStop(0));
    events, s := Then(events, s, CloseSource(0));
    events, s := Then(events, s, CloseProxy(0));
    events, s := Then(events, s, ResumeStop(0));
    assert s.stops[0].captured == Some(0);
  }

  /** The other way to a closed session's name: a stop that is overtaken by a newer intent has
      released what it captured, but does not clear `proxySessionId`. */
  lemma OvertakenStopLeavesName() returns (events: seq<Event>)
    ensures var s := Run(events);
            Quiescent(s) && s.session == Some(0) && |s.attempts| == 1 && !s.attempts[0].aborted && Captured(s, 0)
            && !IsOpen(s.attempts[0])
  {
    hide Run;
    var s: State;
    events, s := FirstPlay();
    events, s := Then(events, s, Resume(0, false));
    events, s := Then(events, s, BeginStop(false));
    events, s := Then(events, s, CancelFallback);
    events, s := Then(events, s, ResumeStop(0));
    events, s := Then(events, s, CloseSource(0));
    events, s := Then(events, s, CloseProxy(0));
    assert s.stops[0].captured == Some(0);
  }
}
