/** The playback protocol of the renderer as a machine whose steps are the stretches of code
    between two awaits.

    Every `play` call owns one backend session (source session and proxy) and one intent
    number. Promises are settled by the environment in any order: requests are answered,
    answers are delivered, tasks time out, closes arrive late. One runtime is fixed. */
module PlaybackProtocol {
  import opened Options

  /** A request to the backend: sent, carried out there, and then seen by the renderer. */
  datatype Reply = NotSent | Sent | Answered(ok: bool) | Delivered(ok: bool)

  /** What a `play` call is waiting for. `Preparing` stands for its awaits between the
      release of the old session and the opening of its own. */
  datatype Phase =
    | WindowStop
    | ReleasingOld
    | Preparing
    | Opening
    | Initialising
    | Starting
    | Recording
    | Releasing
    | Done

  /** A `play` call together with the session it owns. */
  datatype Attempt = Attempt(
    intent: nat,
    quickJs: bool,
    phase: Phase,
    aborted: bool,
    taken: Option<nat>,
    passedWindow: bool,
    opening: Reply,
    starting: Reply,
    committed: bool,
    // the engine entry of this session is still in `playbackEngines`
    known: bool,
    // `releasePlaybackSession` has been called for this session
    released: bool,
    // the backend: what is open, and which closes are under way
    source: bool,
    proxy: bool,
    sourceCloses: nat,
    strayCloses: nat,
    proxyCloses: nat)

  datatype StopPhase = ClosingMpv | AfterRelease | Stopped

  /** A `stopPlayer` call; `captured` is the session it read at its start. */
  datatype Stop = Stop(intent: nat, captured: Option<nat>, phase: StopPhase)

  /** `session` is `runtime.proxySessionId`, `lane` the task stored under "playback",
      `commits` the attempts that have written `proxySessionId`, in order. A session is
      named by the index of the attempt that owns it. */
  datatype State = State(
    attempts: seq<Attempt>,
    stops: seq<Stop>,
    intent: nat,
    lane: Option<nat>,
    session: Option<nat>,
    commits: seq<nat>)

  const INITIAL := State([], [], 0, None, None, [])

  datatype Request = Open | Start

  datatype Event =
    | BeginPlay(quickJs: bool, bornAborted: bool)
    | PlayPastDeadline
    | Abort(i: nat)
    | Resume(i: nat, initialise: bool)
    | Reject(i: nat)
    | Answer(i: nat, request: Request, ok: bool)
    | Deliver(i: nat, request: Request)
    | CloseSource(i: nat)
    | CloseStray(i: nat)
    | CloseProxy(i: nat)
    | Forget(i: nat)
    | BeginStop(mpv: bool)
    | ResumeStop(k: nat)
    | CancelFallback

  // ------------------------------------------------- parts of the steps

  /** `releasePlaybackSession` with the engine given: both closes are sent, the source
      close to the right engine. */
  function ReleaseKnown(a: Attempt): Attempt {
    a.(released := true, proxyCloses := a.proxyCloses + 1, sourceCloses := a.sourceCloses + 1)
  }

  /** `releasePlaybackSession` with the engine looked up: once the entry is gone, the close
      for a QuickJS session goes to the wrong engine. */
  function ReleaseLookedUp(a: Attempt): Attempt {
    if a.known || !a.quickJs then ReleaseKnown(a)
    else a.(released := true, proxyCloses := a.proxyCloses + 1, strayCloses := a.strayCloses + 1)
  }

  /** The task's signal aborts: its listener releases the session. */
  function AbortAttempt(a: Attempt): Attempt {
    if a.aborted then a
    else if a.phase == Done then a.(aborted := true)
    else ReleaseKnown(a.(aborted := true))
  }

  /** The catch block: release, then wait for it. */
  function Catch(a: Attempt): Attempt { ReleaseLookedUp(a).(phase := Releasing) }

  function Put(s: State, i: nat, a: Attempt): State
    requires i < |s.attempts|
  {
    s.(attempts := s.attempts[i := a])
  }

  /** `this.tasks.get("playback")?.cancel()` */
  function CancelLane(s: State): State {
    if s.lane.Some? && s.lane.value < |s.attempts|
    then Put(s, s.lane.value, AbortAttempt(s.attempts[s.lane.value]))
    else s
  }

  /** The finally block of `play`. */
  function Finish(s: State, i: nat): State
    requires i < |s.attempts|
  {
    Put(s, i, s.attempts[i].(phase := Done)).(lane := if s.lane == Some(i) then None else s.lane)
  }

  function NewAttempt(s: State, quickJs: bool, bornAborted: bool): Attempt {
    Attempt(s.intent + 1, quickJs, WindowStop, bornAborted, s.session, false, NotSent, NotSent, false, true, false,
            false, false, 0, 0, 0)
  }

  function PlayBegins(s: State, quickJs: bool, bornAborted: bool): State {
    var c := CancelLane(s);
    c.(attempts := c.attempts + [NewAttempt(s, quickJs, bornAborted)],
       intent := s.intent + 1,
       lane := Some(|s.attempts|),
       session := None)
  }

  /** The awaited promise of attempt `i` was fulfilled and `play` runs to its next await. */
  function PlayResumes(s: State, i: nat, initialise: bool): State
    requires i < |s.attempts|
  {
    var a := s.attempts[i];
    match a.phase
    case WindowStop =>
      if a.taken.Some? && a.taken.value < |s.attempts| then
        var t := a.taken.value;
        var released := Put(s, t, ReleaseLookedUp(s.attempts[t]));
        Put(released, i, released.attempts[i].(phase := ReleasingOld, passedWindow := true))
      else Put(s, i, a.(phase := Preparing, passedWindow := true))
    case ReleasingOld => Put(s, i, a.(phase := Preparing))
    case Preparing =>
      if a.aborted then Put(s, i, Catch(a)) else Put(s, i, a.(phase := Opening, opening := Sent))
    case Opening =>
      if a.aborted then Put(s, i, Catch(a))
      else if initialise then Put(s, i, a.(phase := Initialising))
      else Put(s, i, a.(phase := Starting, starting := Sent))
    case Initialising =>
      if a.aborted then Put(s, i, Catch(a)) else Put(s, i, a.(phase := Starting, starting := Sent))
    case Starting =>
      if a.aborted then Put(s, i, Catch(a))
      else if a.intent != s.intent then Finish(Put(s, i, ReleaseKnown(a)), i)
      else Put(s, i, a.(phase := Recording, committed := true)).(session := Some(i), commits := s.commits + [i])
    case Recording => Finish(s, i)
    case Releasing => Finish(s, i)
    case Done => s
  }

  /** Whether the promise that attempt `i` awaits can have been fulfilled. */
  predicate CanResume(a: Attempt) {
    match a.phase
    case Opening => a.opening == Delivered(true)
    case Starting => a.starting == Delivered(true)
    case Done => false
    case _ => true
  }

  /** Whether it can have been rejected, by the backend or by the aborted task. */
  predicate CanReject(a: Attempt) {
    match a.phase
    case Opening => a.aborted || a.opening == Delivered(false)
    case Starting => a.aborted || a.starting == Delivered(false)
    case WindowStop => true
    case ReleasingOld => true
    case Preparing => true
    case Initialising => true
    case _ => false
  }

  /** The backend carries a request out: a fulfilled one leaves its resource open. */
  function AnswerRequest(a: Attempt, request: Request, ok: bool): Attempt {
    match request
    case Open => a.(opening := Answered(ok), source := a.source || ok)
    case Start => a.(starting := Answered(ok), proxy := a.proxy || ok)
  }

  function RequestOf(a: Attempt, request: Request): Reply {
    match request case Open => a.opening case Start => a.starting
  }

  /** The `then` callback beside the request: a result nobody may use is released. */
  function DeliverAnswer(a: Attempt, request: Request, intent: nat): Attempt {
    match request
    case Open =>
      if !a.opening.Answered? then a
      else
        var b := a.(opening := Delivered(a.opening.ok));
        if a.opening.ok && a.aborted then ReleaseKnown(b) else b
    case Start =>
      if !a.starting.Answered? then a
      else
        var b := a.(starting := Delivered(a.starting.ok));
        if a.starting.ok && (a.aborted || a.intent != intent) then ReleaseKnown(b) else b
  }

  function ReleaseCaptured(s: State, captured: Option<nat>): State {
    if captured.Some? && captured.value < |s.attempts|
    then Put(s, captured.value, ReleaseLookedUp(s.attempts[captured.value]))
    else s
  }

  function StopBegins(s: State, mpv: bool): State {
    var c := CancelLane(s);
    if mpv then c.(stops := c.stops + [Stop(s.intent + 1, s.session, ClosingMpv)], intent := s.intent + 1)
    else
      ReleaseCaptured(c, s.session).(
        stops := c.stops + [Stop(s.intent + 1, s.session, AfterRelease)],
        intent := s.intent + 1)
  }

  function StopResumes(s: State, k: nat): State
    requires k < |s.stops|
  {
    var stop := s.stops[k];
    match stop.phase
    case ClosingMpv => ReleaseCaptured(s, stop.captured).(stops := s.stops[k := stop.(phase := AfterRelease)])
    case AfterRelease =>
      s.(stops := s.stops[k := stop.(phase := Stopped)],
         session := if stop.intent == s.intent then None else s.session)
    case Stopped => s
  }

  // ------------------------------------------------------------ the machine

  predicate Enabled(s: State, e: Event) {
    match e
    case Abort(i) => i < |s.attempts| && s.attempts[i].phase != Done
    case Resume(i, _) => i < |s.attempts| && CanResume(s.attempts[i])
    case Reject(i) => i < |s.attempts| && CanReject(s.attempts[i])
    case Answer(i, request, _) => i < |s.attempts| && RequestOf(s.attempts[i], request) == Sent
    case Deliver(i, request) => i < |s.attempts| && RequestOf(s.attempts[i], request).Answered?
    case CloseSource(i) => i < |s.attempts| && s.attempts[i].sourceCloses > 0
    case CloseStray(i) => i < |s.attempts| && s.attempts[i].strayCloses > 0
    case CloseProxy(i) => i < |s.attempts| && s.attempts[i].proxyCloses > 0
    case Forget(i) => i < |s.attempts| && s.attempts[i].released
    case ResumeStop(k) => k < |s.stops|
    case _ => true
  }

  function Step(s: State, e: Event): State
    requires Enabled(s, e)
  {
    match e
    case BeginPlay(quickJs, bornAborted) => PlayBegins(s, quickJs, bornAborted)
    case PlayPastDeadline => CancelLane(s)
    case Abort(i) => Put(s, i, AbortAttempt(s.attempts[i]))
    case Resume(i, initialise) => PlayResumes(s, i, initialise)
    case Reject(i) => Put(s, i, Catch(s.attempts[i]))
    case Answer(i, request, ok) => Put(s, i, AnswerRequest(s.attempts[i], request, ok))
    case Deliver(i, request) => Put(s, i, DeliverAnswer(s.attempts[i], request, s.intent))
    case CloseSource(i) =>
      Put(s, i, s.attempts[i].(source := false, sourceCloses := s.attempts[i].sourceCloses - 1))
    case CloseStray(i) => Put(s, i, s.attempts[i].(strayCloses := s.attempts[i].strayCloses - 1))
    case CloseProxy(i) =>
      Put(s, i, s.attempts[i].(proxy := false, proxyCloses := s.attempts[i].proxyCloses - 1))
    case Forget(i) => Put(s, i, s.attempts[i].(known := false))
    case BeginStop(mpv) => StopBegins(s, mpv)
    case ResumeStop(k) => StopResumes(s, k)
    case CancelFallback => CancelLane(s).(intent := s.intent + 1)
  }

  /** An event that cannot happen is skipped, so every sequence of events is a schedule and
      every schedule is a sequence of events. */
  function Apply(s: State, e: Event): State { if Enabled(s, e) then Step(s, e) else s }

  /** The state after a sequence of events. */
  function Run(events: seq<Event>): State {
    if events == [] then INITIAL else Apply(Run(events[..|events| - 1]), events[|events| - 1])
  }

  /** Every promise has settled and every call has returned. */
  ghost predicate Quiescent(s: State) {
    && (forall i :: 0 <= i < |s.attempts| ==> Settled(s.attempts[i]))
    && (forall k :: 0 <= k < |s.stops| ==> s.stops[k].phase == Stopped)
  }

  predicate Settled(a: Attempt) {
    && a.phase == Done
    && !a.opening.Sent? && !a.opening.Answered?
    && !a.starting.Sent? && !a.starting.Answered?
    && a.sourceCloses == 0 && a.strayCloses == 0 && a.proxyCloses == 0
  }

  /** Something of the session is still open at the backend. */
  predicate IsOpen(a: Attempt) { a.source || a.proxy }
}
