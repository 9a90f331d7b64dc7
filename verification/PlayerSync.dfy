/** Reports of the player: the error reports of one failed playback share a single recovery. */
module PlayerSync {
  import opened Options

  /** A recovery that was started: its task's signal, and whether its work has settled. */
  datatype Recovery = Recovery(aborted: bool, finished: bool)

  /** All recoveries in the order of their starts; `task` is the one stored in `recoveryTask`
      and `work` the one stored in `recoveryWork`. */
  datatype State = State(recoveries: seq<Recovery>, task: Option<nat>, work: Option<nat>)

  /** What a report leads to. */
  datatype Reaction = Ignored | Joined(recovery: nat) | Applied | Started(recovery: nat)

  datatype Event =
    | Report(ofOtherSession: bool, error: bool)
    | Abort(i: nat)
    | Settle(i: nat)

  predicate TaskAborted(s: State) {
    s.task.Some? && s.task.value < |s.recoveries| && s.recoveries[s.task.value].aborted
  }

  function OnReport(s: State, ofOtherSession: bool, error: bool): (State, Reaction) {
    if ofOtherSession then (s, Ignored)
    else if s.work.Some? && !TaskAborted(s) then (s, Joined(s.work.value))
    else if !error then (s, Applied)
    else
      var i := |s.recoveries|;
      (State(s.recoveries + [Recovery(false, false)], Some(i), Some(i)), Started(i))
  }

  /** The work of recovery `i` has settled, and its finally block runs. */
  function OnSettle(s: State, i: nat): State {
    if i < |s.recoveries| && !s.recoveries[i].finished then
      var t := s.(recoveries := s.recoveries[i := s.recoveries[i].(finished := true)]);
      if s.task == Some(i) then t.(task := None, work := None) else t
    else s
  }

  function Apply(s: State, e: Event): State {
    match e
    case Report(ofOtherSession, error) => OnReport(s, ofOtherSession, error).0
    case Abort(i) =>
      if i < |s.recoveries| then s.(recoveries := s.recoveries[i := s.recoveries[i].(aborted := true)]) else s
    case Settle(i) => OnSettle(s, i)
  }

  function Run(events: seq<Event>): State {
    if events == [] then State([], None, None) else Apply(Run(events[..|events| - 1]), events[|events| - 1])
  }

  predicate Active(r: Recovery) { !r.aborted && !r.finished }

  /** Task and work are stored together, and whatever recovery is active is the stored one. */
  ghost predicate Inv(s: State) {
    && s.task == s.work
    && (s.task.Some? ==> s.task.value < |s.recoveries| && !s.recoveries[s.task.value].finished)
    && forall i :: 0 <= i < |s.recoveries| && Active(s.recoveries[i]) ==> s.task == Some(i)
  }

  lemma {:induction false} ReachableInv(events: seq<Event>)
    ensures Inv(Run(events))
  {
    if events != [] {
      ReachableInv(events[..|events| - 1]);
    }
  }

  /** At most one recovery is active, however reports, aborts and ends follow each other. */
  lemma AtMostOneRecovery(events: seq<Event>, i: nat, j: nat)
    requires i < |Run(events).recoveries| && j < |Run(events).recoveries|
    requires Active(Run(events).recoveries[i]) && Active(Run(events).recoveries[j])
    ensures i == j
  {
    ReachableInv(events);
  }

  /** While a recovery is active every report of the session joins it; a new one starts
      exactly when an error is reported and none is active. */
  lemma ErrorsShareRecovery(events: seq<Event>, error: bool)
    ensures var s := Run(events);
            var reaction := OnReport(s, false, error).1;
            && (forall i :: 0 <= i < |s.recoveries| && Active(s.recoveries[i]) ==> reaction == Joined(i))
            && (reaction.Started? <==> error && forall i :: 0 <= i < |s.recoveries| ==> !Active(s.recoveries[i]))
            && (reaction.Joined? ==> reaction.recovery < |s.recoveries| && Active(s.recoveries[reaction.recovery]))
  {
    ReachableInv(events);
  }

  /** The end of an earlier recovery does not touch the one that followed it. */
  lemma EndKeepsSuccessor(events: seq<Event>, i: nat, j: nat)
    requires i != j && j < |Run(events).recoveries| && Active(Run(events).recoveries[j])
    ensures var t := Apply(Run(events), Settle(i));
            Active(t.recoveries[j]) && t.task == Some(j) && t.work == Some(j)
  {
    ReachableInv(events);
  }

  // -------------------------------------------------------------- the object

  class Synchroniser {
    var recoveries: seq<Recovery>
    var recoveryTask: Option<nat>
    var recoveryWork: Option<nat>

    constructor ()
      ensures Valid() && Snapshot() == State([], None, None)
    {
      recoveries, recoveryTask, recoveryWork := [], None, None;
    }

    ghost function Snapshot(): State
      reads this
    {
      State(recoveries, recoveryTask, recoveryWork)
    }

    ghost predicate Valid()
      reads this
    {
      Inv(Snapshot())
    }

    /** `syncPlayer` up to its first wait. A recovery is started exactly for an error of this
        session while none is active, and then it is the only active one; a report joins only
        an active recovery, and reports that start none change nothing. */
    method SyncPlayer(ofOtherSession: bool, error: bool) returns (r: Reaction)
      requires Valid()
      modifies this
      ensures Valid() && (Snapshot(), r) == OnReport(old(Snapshot()), ofOtherSession, error)
      ensures r.Started? <==>
                !ofOtherSession && error && forall i :: 0 <= i < old(|recoveries|) ==> !Active(old(recoveries)[i])
      ensures r.Started? ==> |recoveries| == old(|recoveries|) + 1 && recoveryWork == Some(r.recovery)
      ensures r.Started? ==> forall i :: 0 <= i < |recoveries| ==> (Active(recoveries[i]) <==> i == r.recovery)
      ensures r.Ignored? <==> ofOtherSession
      ensures r.Joined? <==> !ofOtherSession && exists i :: 0 <= i < old(|recoveries|) && Active(old(recoveries)[i])
      ensures r.Joined? ==> r.recovery < |recoveries| && Active(recoveries[r.recovery])
      ensures !r.Started? ==> Snapshot() == old(Snapshot())
    {
      if ofOtherSession {
        return Ignored;
      }
      var aborted := recoveryTask.Some? && recoveries[recoveryTask.value].aborted;
      if recoveryWork.Some? && !aborted {
        return Joined(recoveryWork.value);
      }
      if !error {
        return Applied;
      }
      var task := |recoveries|;
      recoveries := recoveries + [Recovery(false, false)];
      recoveryTask := Some(task);
      recoveryWork := Some(task);
      r := Started(task);
    }

    /** The finally block of `syncPlayer`: whatever other recovery is active stays stored. */
    method EndRecovery(i: nat)
      requires Valid() && i < |recoveries| && !recoveries[i].finished
      modifies this
      ensures Valid() && Snapshot() == OnSettle(old(Snapshot()), i)
      ensures forall j :: 0 <= j < |recoveries| && j != i && Active(recoveries[j]) ==>
                recoveryTask == Some(j) && recoveryWork == Some(j)
    {
      recoveries := recoveries[i := recoveries[i].(finished := true)];
      if recoveryTask == Some(i) {
        recoveryTask := None;
        recoveryWork := None;
      }
    }
  }
}
