/** The player part of the renderer class: its fields, and one method for each stretch of
    code between two awaits. Each method is proved to be the step of the same name of
    `PlaybackProtocol`; between the methods the object satisfies the protocol's invariant. */
module PlayerHost {
  import opened Options
  import opened PlaybackProtocol
  import opened PlaybackSafety

  class Player {
    // one entry per `play` and per `stopPlayer` call: the locals they keep over their awaits
    var attempts: seq<Attempt>
    var stops: seq<Stop>
    var playerIntent: nat
    // `tasks.get("playback")`
    var playbackTask: Option<nat>
    // `runtime.proxySessionId`
    var proxySessionId: Option<nat>
    ghost var commits: seq<nat>

    constructor ()
      ensures Valid() && Snapshot() == INITIAL
    {
      attempts, stops, playerIntent := [], [], 0;
      playbackTask, proxySessionId, commits := None, None, [];
      InitialInv();
    }

    ghost function Snapshot(): State
      reads this
    {
      State(attempts, stops, playerIntent, playbackTask, proxySessionId, commits)
    }

    ghost predicate Valid()
      reads this
    {
      Inv(Snapshot())
    }

    /** Some attempt is neither aborted nor done. */
    ghost predicate Playing()
      reads this
    {
      exists i :: 0 <= i < |attempts| && Live(attempts[i])
    }

    /** `releasePlaybackSession(sessionId, quickJs)`, called by the abort listener. */
    method ReleaseWithEngine(i: nat)
      requires i < |attempts|
      modifies this`attempts
      ensures attempts == old(attempts)[i := ReleaseKnown(old(attempts)[i])]
    {
      var a := attempts[i];
      attempts := attempts[i := a.(released := true, proxyCloses := a.proxyCloses + 1,
                                   sourceCloses := a.sourceCloses + 1)];
    }

    /** `releasePlaybackSession(sessionId)`, which looks the engine up. */
    method ReleasePlaybackSession(i: nat)
      requires i < |attempts|
      modifies this`attempts
      ensures attempts == old(attempts)[i := ReleaseLookedUp(old(attempts)[i])]
      ensures attempts[i].released && attempts[i].proxyCloses == old(attempts)[i].proxyCloses + 1
      ensures attempts[i].sourceCloses
              == old(attempts)[i].sourceCloses + if old(attempts)[i].quickJs && !old(attempts)[i].known then 0 else 1
    {
      var a := attempts[i];
      var engine := a.known && a.quickJs;
      a := a.(released := true, proxyCloses := a.proxyCloses + 1);
      if engine == a.quickJs {
        a := a.(sourceCloses := a.sourceCloses + 1);
      } else {
        a := a.(strayCloses := a.strayCloses + 1);
      }
      attempts := attempts[i := a];
    }

    /** `task.cancel()`: the first abort fires the listener while it is attached. */
    method CancelTask(i: nat)
      requires i < |attempts|
      modifies this`attempts
      ensures attempts == old(attempts)[i := AbortAttempt(old(attempts)[i])]
    {
      var a := attempts[i];
      if a.aborted {
        return;
      }
      attempts := attempts[i := a.(aborted := true)];
      if a.phase != Done {
        ReleaseWithEngine(i);
      }
    }

    method CancelPlaybackTask()
      requires Valid()
      modifies this`attempts
      ensures Snapshot() == CancelLane(old(Snapshot())) && |attempts| == old(|attempts|)
      ensures Valid() && !Playing()
    {
      hide Local, Intents, History, Custody, Stops;
      CancelLaneKeeps(Snapshot());
      if playbackTask.Some? {
        CancelTask(playbackTask.value);
      }
    }

    /** `play` up to its first await. All earlier attempts are dead then, the new one holds the
        session that the runtime named, and the runtime names none. */
    method Play(quickJs: bool, parentAborted: bool)
      requires Valid()
      modifies this
      ensures Valid() && Snapshot() == PlayBegins(old(Snapshot()), quickJs, parentAborted)
      ensures |attempts| == old(|attempts|) + 1 && attempts[|attempts| - 1].taken == old(proxySessionId)
      ensures proxySessionId == None
      ensures forall i :: 0 <= i < old(|attempts|) ==> !Live(attempts[i])
    {
      hide Inv;
      PlayKeeps(Snapshot(), quickJs, parentAborted);
      CancelPlaybackTask();
      playbackTask := Some(|attempts|);
      playerIntent := playerIntent + 1;
      var oldSession := proxySessionId;
      proxySessionId := None;
      attempts := attempts + [Attempt(playerIntent, quickJs, WindowStop, parentAborted, oldSession, false,
                                      NotSent, NotSent, false, true, false, false, false, 0, 0, 0)];
    }

    /** `play` from a fulfilled await to the next one. Only a live attempt with the newest
        intent makes the runtime name its session, and only where none was named. */
    method Continue(i: nat, initialise: bool)
      requires Valid() && i < |attempts| && CanResume(attempts[i])
      modifies this
      ensures Valid() && Snapshot() == PlayResumes(old(Snapshot()), i, initialise)
      ensures proxySessionId == old(proxySessionId)
              || (old(proxySessionId) == None && proxySessionId == Some(i) && Live(old(attempts[i]))
                  && old(attempts[i]).intent == playerIntent)
    {
      hide Inv;
      ResumeKeeps(Snapshot(), i, initialise);
      SessionWhereNone(Snapshot(), i, initialise);
      TakenBefore(Snapshot(), i);
      var a := attempts[i];
      match a.phase
      case WindowStop =>
        if a.taken.Some? {
          ReleasePlaybackSession(a.taken.value);
        }
        attempts := attempts[i := a.(phase := if a.taken.Some? then ReleasingOld else Preparing,
                                     passedWindow := true)];
      case ReleasingOld =>
        attempts := attempts[i := a.(phase := Preparing)];
      case Preparing =>
        if a.aborted {
          Throw(i);
        } else {
          attempts := attempts[i := a.(phase := Opening, opening := Sent)];
        }
      case Opening =>
        if a.aborted {
          Throw(i);
        } else if initialise {
          attempts := attempts[i := a.(phase := Initialising)];
        } else {
          attempts := attempts[i := a.(phase := Starting, starting := Sent)];
        }
      case Initialising =>
        if a.aborted {
          Throw(i);
        } else {
          attempts := attempts[i := a.(phase := Starting, starting := Sent)];
        }
      case Starting =>
        if a.aborted {
          Throw(i);
        } else if a.intent != playerIntent {
          // the code releases the session here, but never gets here
          LiveIsNewest(Snapshot(), i);
          assert false;
        } else {
          proxySessionId := Some(i);
          commits := commits + [i];
          attempts := attempts[i := a.(phase := Recording, committed := true)];
        }
      case Recording => Leave(i);
      case Releasing => Leave(i);
    }

    /** The catch block, up to its await. */
    method Throw(i: nat)
      requires i < |attempts|
      modifies this`attempts
      ensures attempts == old(attempts)[i := Catch(old(attempts)[i])]
    {
      ReleasePlaybackSession(i);
      attempts := attempts[i := attempts[i].(phase := Releasing)];
    }

    /** The finally block. */
    method Leave(i: nat)
      requires i < |attempts|
      modifies this`attempts, this`playbackTask
      ensures Snapshot() == Finish(old(Snapshot()), i)
    {
      attempts := attempts[i := attempts[i].(phase := Done)];
      if playbackTask == Some(i) {
        playbackTask := None;
      }
    }

    /** The callbacks `opening.then` and `starting.then`: a result that nobody may use any more
        is released. */
    method ThenCallback(i: nat, request: Request)
      requires Valid() && i < |attempts| && RequestOf(attempts[i], request).Answered?
      modifies this`attempts
      ensures Valid() && Snapshot() == Step(old(Snapshot()), Deliver(i, request))
      ensures |attempts| == old(|attempts|)
      ensures old(attempts[i]).aborted && old(RequestOf(attempts[i], request)).ok ==>
                attempts[i].released && attempts[i].sourceCloses > 0 && attempts[i].proxyCloses > 0
    {
      hide Inv;
      DeliverKeeps(Snapshot(), i, request);
      var a := attempts[i];
      var ok := RequestOf(a, request).ok;
      var unwanted := a.aborted || (request == Start && a.intent != playerIntent);
      attempts := attempts[i := if request == Open then a.(opening := Delivered(ok)) else a.(starting := Delivered(ok))];
      if ok && unwanted {
        ReleaseWithEngine(i);
      }
      assert attempts == old(attempts)[i := DeliverAnswer(a, request, playerIntent)];
    }

    /** `stopPlayer` up to its first await. No attempt is live then. */
    method StopPlayer(mpv: bool)
      requires Valid()
      modifies this
      ensures Valid() && Snapshot() == StopBegins(old(Snapshot()), mpv)
      ensures !Playing() && proxySessionId == old(proxySessionId)
    {
      hide Inv, Live, CancelLane;
      StopKeeps(Snapshot(), mpv);
      NamedExists(Snapshot());
      CancelPlaybackTask();
      ReleaseRevivesNothing(Snapshot());
      playerIntent := playerIntent + 1;
      var captured := proxySessionId;
      if !mpv && captured.Some? {
        ReleasePlaybackSession(captured.value);
      }
      stops := stops + [Stop(playerIntent, captured, if mpv then ClosingMpv else AfterRelease)];
    }

    /** The finally block of `stopPlayer`, in the two stretches around its awaits. It clears no
        session but the one the stop captured. */
    method ContinueStop(k: nat)
      requires Valid() && k < |stops|
      modifies this
      ensures Valid() && Snapshot() == StopResumes(old(Snapshot()), k)
      ensures proxySessionId == old(proxySessionId)
              || (proxySessionId == None && old(proxySessionId) == old(stops[k]).captured)
    {
      hide Inv;
      StopResumeKeeps(Snapshot(), k);
      CapturedExists(Snapshot(), k);
      var stop := stops[k];
      match stop.phase
      case ClosingMpv =>
        if stop.captured.Some? {
          ReleasePlaybackSession(stop.captured.value);
        }
        stops := stops[k := stop.(phase := AfterRelease)];
      case AfterRelease =>
        stops := stops[k := stop.(phase := Stopped)];
        if stop.intent == playerIntent {
          proxySessionId := None;
        }
      case Stopped =>
    }

    /** `cancelFallback` up to its first await. */
    method CancelFallbackCall()
      requires Valid()
      modifies this
      ensures Valid() && Snapshot() == Step(old(Snapshot()), CancelFallback)
      ensures !Playing() && proxySessionId == old(proxySessionId)
    {
      hide Inv, Live, CancelLane;
      CancelKeeps(Snapshot());
      CancelPlaybackTask();
      playerIntent := playerIntent + 1;
    }
  }

  lemma TakenBefore(s: State, i: nat)
    requires Inv(s) && i < |s.attempts|
    ensures s.attempts[i].taken.Some? ==> s.attempts[i].taken.value < i
  {
    if s.attempts[i].taken.Some? {
      assert TakenBy(s, s.attempts[i].taken.value, i);
    }
  }

  lemma NamedExists(s: State)
    requires Inv(s)
    ensures s.session.Some? ==> s.session.value < |s.attempts|
  {
  }

  /** What a stop captured exists, and a stop that may clear the runtime's session captured it. */
  lemma CapturedExists(s: State, k: nat)
    requires Inv(s) && k < |s.stops|
    ensures s.stops[k].captured.Some? ==> s.stops[k].captured.value < |s.attempts|
    ensures s.stops[k].phase == AfterRelease && s.stops[k].intent == s.intent && s.session.Some? ==>
              s.session == s.stops[k].captured
  {
  }

  lemma SessionWhereNone(s: State, i: nat, initialise: bool)
    requires Inv(s) && i < |s.attempts| && CanResume(s.attempts[i])
    ensures PlayResumes(s, i, initialise).session != s.session ==>
              s.session == None && Live(s.attempts[i]) && s.attempts[i].intent == s.intent
  {
    hide Resources, Releases, Covered, Intents, History, Custody, Stops;
    assert Local(s.attempts[i]);
  }

  lemma LiveIsNewest(s: State, i: nat)
    requires Inv(s) && i < |s.attempts| && s.attempts[i].phase == Starting && !s.attempts[i].aborted
    ensures s.attempts[i].intent == s.intent
  {
    StartingIsNewest(s, i);
  }

  lemma ReleaseRevivesNothing(s: State)
    ensures forall i :: 0 <= i < |s.attempts| ==> Live(ReleaseLookedUp(s.attempts[i])) == Live(s.attempts[i])
  {
  }
}
