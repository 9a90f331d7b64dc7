/** The watchdog that reports a playback which never starts or stops advancing. Times are in
    milliseconds. */
module Watchdog {

  datatype Report = Nothing | StartupTimeout | Stalled

  datatype Event =
    | Progress(now: real, position: real, decoded: bool)
    | Check(now: real, playing: bool, seeking: bool)

  datatype State = State(startedAt: real, lastProgressAt: real, position: real,
                         decoded: bool, suspended: bool, fired: bool)

  const STARTUP := 15000.0
  const STALL := 8000.0
  const JITTER := 0.025

  function Abs(x: real): real { if x < 0.0 then -x else x }

  function Begin(now: real): State { State(now, now, 0.0, false, false, false) }

  function OnProgress(s: State, now: real, position: real, decoded: bool): State {
    s.(decoded := s.decoded || decoded,
       lastProgressAt := if Abs(position - s.position) > JITTER || decoded then now else s.lastProgressAt,
       position := position)
  }

  function OnCheck(s: State, now: real, playing: bool, seeking: bool): (State, Report) {
    if !playing || seeking then (s.(suspended := true), Nothing)
    else
      var t := if s.suspended then s.(suspended := false, startedAt := now, lastProgressAt := now) else s;
      if t.fired then (t, Nothing)
      else if !t.decoded && now - t.startedAt >= STARTUP then (t.(fired := true), StartupTimeout)
      else if t.decoded && now - t.lastProgressAt >= STALL then (t.(fired := true), Stalled)
      else (t, Nothing)
  }

  function Step(s: State, e: Event): (State, Report) {
    match e
    case Progress(now, position, decoded) => (OnProgress(s, now, position, decoded), Nothing)
    case Check(now, playing, seeking) => OnCheck(s, now, playing, seeking)
  }

  /** The state after the first `n` events. */
  function Run(start: real, es: seq<Event>, n: nat): State
    requires n <= |es|
  {
    if n == 0 then Begin(start) else Step(Run(start, es, n - 1), es[n - 1]).0
  }

  /** What event `n` reports. */
  function Output(start: real, es: seq<Event>, n: nat): Report
    requires n < |es|
  {
    Step(Run(start, es, n), es[n]).1
  }

  // ------------------------------------------- the history, without any state

  ghost predicate Timely(start: real, es: seq<Event>) {
    && (forall i :: 0 <= i < |es| ==> start <= es[i].now)
    && (forall i, j :: 0 <= i <= j < |es| ==> es[i].now <= es[j].now)
  }

  predicate Active(e: Event) { e.Check? && e.playing && !e.seeking }

  predicate Paused(e: Event) { e.Check? && !Active(e) }

  /** The position that the last progress event before event `n` gave. */
  function PositionBefore(es: seq<Event>, n: nat): real
    requires n <= |es|
  {
    if n == 0 then 0.0
    else if es[n - 1].Progress? then es[n - 1].position
    else PositionBefore(es, n - 1)
  }

  /** Event `i` decoded a frame or moved the position. */
  predicate Advances(es: seq<Event>, i: nat)
    requires i < |es|
  {
    es[i].Progress? && (es[i].decoded || Abs(es[i].position - PositionBefore(es, i)) > JITTER)
  }

  ghost predicate DecodedBefore(es: seq<Event>, n: nat)
    requires n <= |es|
  {
    exists i :: 0 <= i < n && es[i].Progress? && es[i].decoded
  }

  /** Playback was taken up again between events `i` and `n`, at least `span` before `now`. */
  ghost predicate ResumedFor(es: seq<Event>, i: nat, n: nat, now: real, span: real)
    requires n <= |es|
  {
    exists j :: i < j < n && Active(es[j]) && now - es[j].now >= span
  }

  /** For all of `span` before `now` playback has been wanted: it began earlier, and after
      every pause it was resumed earlier. */
  ghost predicate WantedFor(start: real, es: seq<Event>, n: nat, now: real, span: real)
    requires n <= |es|
  {
    && now - start >= span
    && forall i :: 0 <= i < n && Paused(es[i]) ==> ResumedFor(es, i, n, now, span)
  }

  ghost predicate NoAdvanceFor(es: seq<Event>, n: nat, now: real, span: real)
    requires n <= |es|
  {
    forall i :: 0 <= i < n && Advances(es, i) ==> now - es[i].now >= span
  }

  ghost predicate SilentBefore(start: real, es: seq<Event>, n: nat)
    requires n <= |es|
  {
    forall i :: 0 <= i < n ==> Output(start, es, i) == Nothing
  }

  /** The event after which playback has been wanted since: the first check that resumes
      after the last pause, or none. */
  ghost predicate ResumedAt(es: seq<Event>, n: nat, j: nat)
    requires n <= |es|
  {
    && j < n && Active(es[j])
    && PausedNow(es, j)
    && (forall k :: j <= k < n ==> !Paused(es[k]))
  }

  ghost predicate NeverPaused(es: seq<Event>, n: nat)
    requires n <= |es|
  {
    forall k :: 0 <= k < n ==> !Paused(es[k])
  }

  ghost predicate PausedNow(es: seq<Event>, n: nat)
    requires n <= |es|
  {
    exists i :: 0 <= i < n && LastCheckPaused(es, n, i)
  }

  ghost predicate LastCheckPaused(es: seq<Event>, n: nat, i: nat)
    requires i < n <= |es|
  {
    Paused(es[i]) && forall k :: i < k < n ==> !es[k].Check?
  }

  lemma {:induction false} Fields(start: real, es: seq<Event>, n: nat)
    requires n <= |es|
    ensures var s := Run(start, es, n);
            && s.position == PositionBefore(es, n)
            && (s.decoded <==> DecodedBefore(es, n))
            && (s.suspended <==> PausedNow(es, n))
  {
    if n > 0 {
      Fields(start, es, n - 1);
      PausedNext(es, n);
    }
  }

  lemma PausedNext(es: seq<Event>, n: nat)
    requires 0 < n <= |es|
    ensures PausedNow(es, n) <==> if es[n - 1].Check? then Paused(es[n - 1]) else PausedNow(es, n - 1)
  {
    if es[n - 1].Check? {
      if Paused(es[n - 1]) {
        assert LastCheckPaused(es, n, n - 1);
      }
    } else if PausedNow(es, n - 1) {
      var i :| 0 <= i < n - 1 && LastCheckPaused(es, n - 1, i);
      assert LastCheckPaused(es, n, i);
    } else if i :| 0 <= i < n && LastCheckPaused(es, n, i) {
      assert LastCheckPaused(es, n - 1, i);
    }
  }

  lemma {:induction false} FiredIs(start: real, es: seq<Event>, n: nat)
    requires n <= |es|
    ensures Run(start, es, n).fired <==> !SilentBefore(start, es, n)
  {
    if n > 0 {
      FiredIs(start, es, n - 1);
      assert SilentBefore(start, es, n) <==> SilentBefore(start, es, n - 1) && Output(start, es, n - 1) == Nothing;
    }
  }

  /** When `startedAt` was last set. */
  lemma {:induction false} Clocks(start: real, es: seq<Event>, n: nat) returns (j: nat, resumed: bool)
    requires n <= |es| && !PausedNow(es, n)
    ensures resumed ==> ResumedAt(es, n, j) && Run(start, es, n).startedAt == es[j].now
    ensures !resumed ==> NeverPaused(es, n) && Run(start, es, n).startedAt == start
  {
    hide PausedNow;
    if n == 0 {
      j, resumed := 0, false;
    } else {
      Fields(start, es, n - 1);
      PausedNext(es, n);
      if PausedNow(es, n - 1) {
        j, resumed := n - 1, true;
      } else {
        j, resumed := Clocks(start, es, n - 1);
      }
    }
  }

  /** The wanted-for span is what the clock measures. */
  lemma StartedAtIs(start: real, es: seq<Event>, n: nat, now: real, span: real)
    requires n <= |es| && Timely(start, es) && !PausedNow(es, n) && span > 0.0
    requires forall i :: 0 <= i < n ==> es[i].now <= now
    ensures now - Run(start, es, n).startedAt >= span <==> WantedFor(start, es, n, now, span)
  {
    var j, resumed := Clocks(start, es, n);
    var s := Run(start, es, n);
    if resumed {
      var i :| 0 <= i < j && LastCheckPaused(es, j, i);
      if now - es[j].now >= span {
        forall k | 0 <= k < n && Paused(es[k]) ensures ResumedFor(es, k, n, now, span) {
          assert k < j && Active(es[j]);
        }
      }
      if WantedFor(start, es, n, now, span) {
        assert ResumedFor(es, i, n, now, span);
        var k :| i < k < n && Active(es[k]) && now - es[k].now >= span;
        assert j <= k && es[j].now <= es[k].now;
      }
    }
  }

  /** `lastProgressAt` is the later of the last advance and the last resumption. */
  lemma {:induction false} ProgressClock(start: real, es: seq<Event>, n: nat)
    requires n <= |es| && Timely(start, es)
    ensures var s := Run(start, es, n);
            && (n > 0 ==> s.startedAt <= es[n - 1].now)
            && s.startedAt <= s.lastProgressAt
            && (forall i :: 0 <= i < n && Advances(es, i) ==> es[i].now <= s.lastProgressAt)
            && (s.lastProgressAt == s.startedAt
                || exists i :: 0 <= i < n && Advances(es, i) && es[i].now == s.lastProgressAt)
  {
    hide Abs, PositionBefore, DecodedBefore, PausedNow;
    if n > 0 {
      ProgressClock(start, es, n - 1);
      Fields(start, es, n - 1);
      if Advances(es, n - 1) {
        assert Run(start, es, n).lastProgressAt == es[n - 1].now;
      }
    }
  }

  /** What is reported, told by the events alone: a playback that never started is reported
      exactly when, at a check, nothing was reported before, no frame was ever decoded, and
      playback has been wanted for 15 s; a stall exactly when a frame was decoded, and for 8 s
      playback has been wanted and nothing advanced. */
  lemma ReportIff(start: real, es: seq<Event>, n: nat)
    requires Timely(start, es) && n < |es|
    ensures Output(start, es, n) == StartupTimeout
            <==> Active(es[n]) && SilentBefore(start, es, n) && !DecodedBefore(es, n)
                 && WantedFor(start, es, n, es[n].now, STARTUP)
    ensures Output(start, es, n) == Stalled
            <==> Active(es[n]) && SilentBefore(start, es, n) && DecodedBefore(es, n)
                 && WantedFor(start, es, n, es[n].now, STALL) && NoAdvanceFor(es, n, es[n].now, STALL)
  {
    hide Run, WantedFor, SilentBefore, DecodedBefore, PausedNow;
    Fields(start, es, n);
    FiredIs(start, es, n);
    ProgressClock(start, es, n);
    var s, now := Run(start, es, n), es[n].now;
    if PausedNow(es, n) {
      NotWantedWhilePaused(start, es, n, now, STARTUP);
      NotWantedWhilePaused(start, es, n, now, STALL);
    } else {
      StartedAtIs(start, es, n, now, STARTUP);
      StartedAtIs(start, es, n, now, STALL);
    }
  }

  lemma NotWantedWhilePaused(start: real, es: seq<Event>, n: nat, now: real, span: real)
    requires n <= |es| && PausedNow(es, n)
    ensures !WantedFor(start, es, n, now, span)
  {
    var i :| 0 <= i < n && LastCheckPaused(es, n, i);
    assert !ResumedFor(es, i, n, now, span);
  }

  /** A watchdog reports at most once. */
  lemma AtMostOneReport(start: real, es: seq<Event>, m: nat, n: nat)
    requires m < n < |es| && Output(start, es, m) != Nothing
    ensures Output(start, es, n) == Nothing
  {
    FiredIs(start, es, n);
  }

  // --------------------------------------------------- reports come in time

  /** From `since` on, every check is at most `gap` after the one before. */
  ghost predicate CheckedEvery(es: seq<Event>, since: real, gap: real) {
    forall n :: 0 <= n < |es| && Active(es[n]) && es[n].now > since + gap ==>
      exists m :: 0 <= m < n && Active(es[m]) && es[n].now - es[m].now <= gap
  }

  /** Every pause was over at `since`. */
  ghost predicate WantedSince(start: real, es: seq<Event>, since: real) {
    && start <= since
    && forall i :: 0 <= i < |es| && Paused(es[i]) ==> ResumedBy(es, i, since)
  }

  ghost predicate ResumedBy(es: seq<Event>, i: nat, since: real) {
    exists j :: i < j < |es| && Active(es[j]) && es[j].now <= since
  }

  lemma {:induction false} FirstCheckFrom(es: seq<Event>, deadline: real, last: nat) returns (n: nat)
    requires last < |es| && Active(es[last]) && es[last].now >= deadline
    ensures n <= last && Active(es[n]) && es[n].now >= deadline
    ensures forall m :: 0 <= m < n && Active(es[m]) ==> es[m].now < deadline
  {
    if m :| 0 <= m < last && Active(es[m]) && es[m].now >= deadline {
      n := FirstCheckFrom(es, deadline, m);
    } else {
      n := last;
    }
  }

  /** When playback is wanted from `since` on and nothing is decoded (or, once something was,
      nothing advances), then checks at most `gap` apart report it at most `gap` after the
      time is up. */
  lemma SilenceIsReported(start: real, es: seq<Event>, since: real, gap: real, last: nat)
    requires Timely(start, es) && WantedSince(start, es, since) && CheckedEvery(es, since, gap) && gap >= 0.0
    requires DecodedBefore(es, |es|) ==> forall i :: 0 <= i < |es| && Advances(es, i) ==> es[i].now <= since
    requires last < |es| && Active(es[last])
    requires es[last].now >= since + if DecodedBefore(es, |es|) then STALL else STARTUP
    ensures exists n :: 0 <= n <= last && Output(start, es, n) != Nothing
                        && es[n].now <= since + gap + if DecodedBefore(es, |es|) then STALL else STARTUP
  {
    hide Output;
    var span := if DecodedBefore(es, |es|) then STALL else STARTUP;
    var n := FirstCheckFrom(es, since + span, last);
    assert es[n].now <= since + span + gap;
    if SilentBefore(start, es, n) {
      forall i | 0 <= i < n && Paused(es[i]) ensures ResumedFor(es, i, n, es[n].now, span) {
        assert ResumedBy(es, i, since);
        var j :| i < j < |es| && Active(es[j]) && es[j].now <= since;
        assert j < n && Active(es[j]) && es[n].now - es[j].now >= span;
      }
      if DecodedBefore(es, |es|) {
        var i :| 0 <= i < |es| && es[i].Progress? && es[i].decoded;
        assert Advances(es, i);
        assert i < n;
      }
      ReportIff(start, es, n);
    } else {
      var i :| 0 <= i < n && Output(start, es, i) != Nothing;
    }
  }

  // -------------------------------------------------------------- the object

  lemma {:induction false} RunPrefix(start: real, es: seq<Event>, e: Event, n: nat)
    requires n <= |es|
    ensures Run(start, es + [e], n) == Run(start, es, n)
  {
    if n > 0 {
      RunPrefix(start, es, e, n - 1);
      assert (es + [e])[n - 1] == es[n - 1];
    }
  }

  class PlaybackProgressWatchdog {
    var lastProgressAt: real
    var startedAt: real
    var position: real
    var decoded: bool
    var suspended: bool
    var fired: bool
    // what has happened to this watchdog
    ghost const start: real
    ghost var events: seq<Event>

    constructor (now: real)
      ensures Valid() && start == now && events == []
    {
      startedAt, lastProgressAt := now, now;
      position, decoded, suspended, fired := 0.0, false, false, false;
      start := now;
      events := [];
    }

    ghost function Value(): State
      reads this
    {
      State(startedAt, lastProgressAt, position, decoded, suspended, fired)
    }

    /** The fields are what the history has made of them. */
    ghost predicate Valid()
      reads this
    {
      Value() == Run(start, events, |events|)
    }

    method OnProgress(now: real, newPosition: real, frame: bool)
      requires Valid()
      modifies this
      ensures Valid() && events == old(events) + [Progress(now, newPosition, frame)]
      ensures decoded <==> DecodedBefore(events, |events|)
      ensures Advances(events, |events| - 1)
              <==> frame || Abs(newPosition - PositionBefore(old(events), old(|events|))) > JITTER
      ensures Advances(events, |events| - 1) ==> lastProgressAt == now
      ensures !Advances(events, |events| - 1) ==> lastProgressAt == old(lastProgressAt)
    {
      hide Run, DecodedBefore, PositionBefore, Abs;
      Fields(start, events, |events|);
      RunOneMore(start, events, Progress(now, newPosition, frame));
      PositionPrefix(events, Progress(now, newPosition, frame), |events|);
      decoded := decoded || frame;
      if Abs(newPosition - position) > JITTER || frame {
        lastProgressAt := now;
      }
      position := newPosition;
      events := events + [Progress(now, newPosition, frame)];
      Fields(start, events, |events|);
    }

    /** What a check reports is told by the history, as long as time has not run backwards. */
    method OnCheck(now: real, playingIntent: bool, seeking: bool) returns (r: Report)
      requires Valid()
      modifies this
      ensures Valid() && events == old(events) + [Check(now, playingIntent, seeking)]
      ensures var n := old(|events|);
              Timely(start, events) ==>
                && (r == StartupTimeout
                    <==> playingIntent && !seeking && SilentBefore(start, events, n) && !DecodedBefore(events, n)
                         && WantedFor(start, events, n, now, STARTUP))
                && (r == Stalled
                    <==> playingIntent && !seeking && SilentBefore(start, events, n) && DecodedBefore(events, n)
                         && WantedFor(start, events, n, now, STALL) && NoAdvanceFor(events, n, now, STALL))
      ensures r == Output(start, events, old(|events|))
    {
      hide Run, DecodedBefore, SilentBefore, WantedFor, NoAdvanceFor, Timely;
      ghost var e := Check(now, playingIntent, seeking);
      RunOneMore(start, events, e);
      ghost var all := events + [e];
      if Timely(start, all) {
        ReportIff(start, all, |events|);
      }
      events := all;
      if !playingIntent || seeking {
        suspended := true;
        return Nothing;
      }
      if suspended {
        suspended := false;
        startedAt := now;
        lastProgressAt := now;
      }
      if fired {
        return Nothing;
      }
      if !decoded && now - startedAt >= STARTUP {
        fired := true;
        return StartupTimeout;
      }
      if decoded && now - lastProgressAt >= STALL {
        fired := true;
        return Stalled;
      }
      return Nothing;
    }
  }

  lemma RunOneMore(start: real, es: seq<Event>, e: Event)
    ensures Run(start, es + [e], |es|) == Run(start, es, |es|)
    ensures Run(start, es + [e], |es| + 1) == Step(Run(start, es, |es|), e).0
  {
    RunPrefix(start, es, e, |es|);
  }

  lemma {:induction false} PositionPrefix(es: seq<Event>, e: Event, n: nat)
    requires n <= |es|
    ensures PositionBefore(es + [e], n) == PositionBefore(es, n)
  {
    if n > 0 {
      PositionPrefix(es, e, n - 1);
      assert (es + [e])[n - 1] == es[n - 1];
    }
  }
}
