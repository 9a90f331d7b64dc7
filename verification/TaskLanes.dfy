/** The task table of the renderer: one stored task for each lane, replaced by newer work. */
module TaskLanes {

  datatype Lane = Connection | Search | Detail | Playback

  datatype Task = Task(lane: Lane, cancelled: bool, finished: bool)

  /** Every task ever started, in order, and the one stored under each lane. */
  datatype State = State(tasks: seq<Task>, stored: map<Lane, nat>)

  datatype Event =
    | RunTask(lane: Lane, bornCancelled: bool)
    | Play(bornCancelled: bool)
    | CancelLane(lane: Lane)
    | CancelAll
    | Cancel(i: nat)
    | Finish(i: nat)

  /** The stored lanes that starting work on `lane` cancels. */
  predicate Obsolete(lane: Lane, key: Lane) {
    key == lane || (lane != Playback && key != Playback && !(lane == Detail && key == Search))
  }

  function CancelOne(s: State, i: nat): State {
    if i < |s.tasks| then s.(tasks := s.tasks[i := s.tasks[i].(cancelled := true)]) else s
  }

  /** Cancel the tasks stored under the given lanes. */
  function CancelStored(s: State, lanes: set<Lane>): (t: State)
    ensures |t.tasks| == |s.tasks| && t.stored == s.stored
    ensures forall i :: 0 <= i < |s.tasks| ==>
              t.tasks[i] == if StoredIn(s, i, lanes) then s.tasks[i].(cancelled := true) else s.tasks[i]
  {
    s.(tasks := seq(|s.tasks|, i requires 0 <= i < |s.tasks| =>
      if StoredIn(s, i, lanes) then s.tasks[i].(cancelled := true) else s.tasks[i]))
  }

  predicate StoredIn(s: State, i: nat, lanes: set<Lane>) {
    exists lane :: lane in lanes && lane in s.stored && s.stored[lane] == i
  }

  function ObsoleteLanes(lane: Lane): set<Lane> {
    set key | key in {Connection, Search, Detail, Playback} && Obsolete(lane, key)
  }

  function Begin(s: State, lane: Lane, cancel: set<Lane>, bornCancelled: bool): State {
    var c := CancelStored(s, cancel);
    State(c.tasks + [Task(lane, bornCancelled, false)], c.stored[lane := |c.tasks|])
  }

  function Apply(s: State, e: Event): State {
    match e
    case RunTask(lane, born) => if lane == Playback then s else Begin(s, lane, ObsoleteLanes(lane), born)
    case Play(born) => Begin(s, Playback, {Playback}, born)
    case CancelLane(lane) => CancelStored(s, {lane})
    case CancelAll => CancelStored(s, {Connection, Search, Detail, Playback})
    case Cancel(i) => CancelOne(s, i)
    case Finish(i) =>
      if i < |s.tasks| then
        var lane := s.tasks[i].lane;
        State(s.tasks[i := s.tasks[i].(finished := true)],
              if lane in s.stored && s.stored[lane] == i then s.stored - {lane} else s.stored)
      else s
  }

  function Run(events: seq<Event>): State {
    if events == [] then State([], map[])
    else Apply(Run(events[..|events| - 1]), events[|events| - 1])
  }

  /** Started, neither cancelled nor finished. */
  predicate Live(t: Task) { !t.cancelled && !t.finished }

  ghost predicate Table(s: State) {
    forall lane :: lane in s.stored ==> s.stored[lane] < |s.tasks| && s.tasks[s.stored[lane]].lane == lane
  }

  /** Live work is stored under its lane. */
  ghost predicate LiveIsStored(s: State) {
    forall i :: 0 <= i < |s.tasks| && Live(s.tasks[i]) ==>
      s.tasks[i].lane in s.stored && s.stored[s.tasks[i].lane] == i
  }

  /** Two live tasks off the playback lane are a search and a detail started during it. */
  ghost predicate Exclusive(s: State) {
    forall i, j ::
      (0 <= i < j < |s.tasks| && Live(s.tasks[i]) && Live(s.tasks[j])
       && s.tasks[i].lane != Playback && s.tasks[j].lane != Playback)
      ==> s.tasks[i].lane == Search && s.tasks[j].lane == Detail
  }

  ghost predicate Inv(s: State) { Table(s) && LiveIsStored(s) && Exclusive(s) }

  /** Whoever is still live when a task starts was live before and is in no cancelled lane. */
  lemma Survivors(s: State, lane: Lane, cancel: set<Lane>, born: bool)
    requires LiveIsStored(s)
    ensures var t := Begin(s, lane, cancel, born);
            forall i :: 0 <= i < |s.tasks| && Live(t.tasks[i]) ==>
              s.tasks[i].lane !in cancel && t.tasks[i] == s.tasks[i]
  {
    forall i | 0 <= i < |s.tasks| && Live(s.tasks[i]) && s.tasks[i].lane in cancel
      ensures StoredIn(s, i, cancel)
    {
    }
  }

  lemma BeginKeeps(s: State, lane: Lane, cancel: set<Lane>, born: bool)
    requires Inv(s) && lane in cancel
    requires lane != Playback ==> cancel == ObsoleteLanes(lane)
    ensures Inv(Begin(s, lane, cancel, born))
  {
    hide StoredIn;
    Survivors(s, lane, cancel, born);
    var t := Begin(s, lane, cancel, born);
    assert Table(t);
    assert LiveIsStored(t);
    BeginExclusive(s, t, lane, cancel);
  }

  lemma BeginExclusive(s: State, t: State, lane: Lane, cancel: set<Lane>)
    requires Exclusive(s) && |t.tasks| == |s.tasks| + 1 && t.tasks[|s.tasks|].lane == lane
    requires lane != Playback ==> cancel == ObsoleteLanes(lane)
    requires forall i :: 0 <= i < |s.tasks| && Live(t.tasks[i]) ==>
               s.tasks[i].lane !in cancel && t.tasks[i] == s.tasks[i]
    ensures Exclusive(t)
  {
  }

  lemma CancelStoredKeeps(s: State, lanes: set<Lane>)
    requires Inv(s)
    ensures Inv(CancelStored(s, lanes))
    ensures forall i :: 0 <= i < |s.tasks| && s.tasks[i].lane in lanes ==> !Live(CancelStored(s, lanes).tasks[i])
  {
    forall i | 0 <= i < |s.tasks| && s.tasks[i].lane in lanes && Live(s.tasks[i])
      ensures StoredIn(s, i, lanes)
    {
    }
  }

  lemma OwnLaneIsObsolete(lane: Lane)
    ensures lane in ObsoleteLanes(lane)
  {
  }

  lemma CancelOneKeeps(s: State, i: nat)
    requires Inv(s)
    ensures Inv(CancelOne(s, i))
  {
  }

  lemma FinishKeeps(s: State, i: nat)
    requires Inv(s)
    ensures Inv(Apply(s, Finish(i)))
  {
  }

  lemma ApplyKeeps(s: State, e: Event)
    requires Inv(s)
    ensures Inv(Apply(s, e))
  {
    hide Begin, CancelStored, CancelOne, ObsoleteLanes, Table, LiveIsStored, Exclusive;
    match e
    case RunTask(lane, born) =>
      if lane != Playback {
        OwnLaneIsObsolete(lane);
        BeginKeeps(s, lane, ObsoleteLanes(lane), born);
      }
    case Play(born) => BeginKeeps(s, Playback, {Playback}, born);
    case CancelLane(lane) => CancelStoredKeeps(s, {lane});
    case CancelAll => CancelStoredKeeps(s, {Connection, Search, Detail, Playback});
    case Cancel(i) => CancelOneKeeps(s, i);
    case Finish(i) => FinishKeeps(s, i);
  }

  lemma {:induction false} ReachableInv(events: seq<Event>)
    ensures Inv(Run(events))
  {
    if events != [] {
      ReachableInv(events[..|events| - 1]);
      ApplyKeeps(Run(events[..|events| - 1]), events[|events| - 1]);
    }
  }

  /** No live task is out of reach: it is the one stored under its lane. */
  lemma LiveTaskIsStored(events: seq<Event>, i: nat)
    requires i < |Run(events).tasks| && Live(Run(events).tasks[i])
    ensures var s := Run(events);
            s.tasks[i].lane in s.stored && s.stored[s.tasks[i].lane] == i
  {
    ReachableInv(events);
  }

  /** So cancelling every stored task leaves nothing live. */
  lemma CancelAllReachesEverything(events: seq<Event>)
    ensures forall i :: 0 <= i < |Run(events + [CancelAll]).tasks| ==> !Live(Run(events + [CancelAll]).tasks[i])
  {
    ReachableInv(events);
    assert (events + [CancelAll])[..|events|] == events;
    CancelStoredKeeps(Run(events), {Connection, Search, Detail, Playback});
  }

  /** At most one connection, search or detail task is live, except that a detail may have
      been started while a search runs; and at most one playback task is live. */
  lemma AtMostOneLiveOffPlayback(events: seq<Event>, i: nat, j: nat)
    requires i < j < |Run(events).tasks| && Live(Run(events).tasks[i]) && Live(Run(events).tasks[j])
    ensures var s := Run(events);
            || (s.tasks[i].lane == Search && s.tasks[j].lane == Detail)
            || (s.tasks[i].lane == Playback) != (s.tasks[j].lane == Playback)
  {
    ReachableInv(events);
  }

  lemma OthersAfterStart(s: State, lane: Lane, born: bool)
    requires Inv(s) && lane != Playback
    ensures var t := Apply(s, RunTask(lane, born));
            forall n :: 0 <= n < |s.tasks| && Live(t.tasks[n]) ==>
              t.tasks[n].lane == Playback || (lane == Detail && t.tasks[n].lane == Search)
  {
    hide StoredIn;
    Survivors(s, lane, ObsoleteLanes(lane), born);
  }

  // ------------------------------------------------------- who survives a start

  /** A task that is started off the playback lane ends every live one but playbacks, and a
      search when it is a detail; a playback ends playbacks alone. The new one is live unless its
      parent was aborted before. */
  lemma StartSurvivors(events: seq<Event>, e: Event, i: nat)
    requires (e.RunTask? && e.lane != Playback) || e.Play?
    requires i < |Run(events).tasks|
    ensures var s, t := Run(events), Apply(Run(events), e);
            && |t.tasks| == |s.tasks| + 1 && t.tasks[|s.tasks|].lane == (if e.Play? then Playback else e.lane)
            && (Live(t.tasks[|s.tasks|]) <==> !e.bornCancelled)
            && (Live(t.tasks[i]) <==>
                  Live(s.tasks[i])
                  && if e.Play? then s.tasks[i].lane != Playback
                     else s.tasks[i].lane == Playback || (e.lane == Detail && s.tasks[i].lane == Search))
  {
    ReachableInv(events);
    var s := Run(events);
    var lane := if e.Play? then Playback else e.lane;
    var cancel := if e.Play? then {Playback} else ObsoleteLanes(e.lane);
    Survivors(s, lane, cancel, e.bornCancelled);
    if Live(s.tasks[i]) && StoredIn(s, i, cancel) {
      StoredHasLane(s, i, cancel);
    }
  }

  lemma StoredHasLane(s: State, i: nat, lanes: set<Lane>)
    requires Table(s) && StoredIn(s, i, lanes)
    ensures i < |s.tasks| && s.tasks[i].lane in lanes
  {
  }

  // -------------------------------------------------------------- the object

  /** One more lane, and the lanes that are in use. */
  lemma StoredInStep(s: State, done: set<Lane>, key: Lane, lanes: set<Lane>)
    ensures forall n :: StoredIn(s, n, (done + {key}) * lanes)
                        <==> StoredIn(s, n, done * lanes) || (key in lanes && key in s.stored && s.stored[key] == n)
  {
  }

  lemma StoredInKept(s: State, lanes: set<Lane>)
    ensures forall n :: StoredIn(s, n, s.stored.Keys * lanes) <==> StoredIn(s, n, lanes)
    ensures forall n :: !StoredIn(s, n, {} * lanes)
  {
  }

  class TaskTable {
    var tasks: seq<Task>
    var stored: map<Lane, nat>

    constructor ()
      ensures Valid() && Snapshot() == State([], map[])
    {
      tasks, stored := [], map[];
    }

    ghost function Snapshot(): State
      reads this
    {
      State(tasks, stored)
    }

    ghost predicate Valid()
      reads this
    {
      Inv(Snapshot())
    }

    /** `runTask` up to the start of its work: whatever else is live then is a playback, or the
        search that a detail was started from. */
    method StartTask(lane: Lane, parentAborted: bool) returns (i: nat)
      requires lane != Playback && Valid()
      modifies this
      ensures Valid() && Snapshot() == Apply(old(Snapshot()), RunTask(lane, parentAborted)) && i == old(|tasks|)
      ensures forall n :: 0 <= n < i && Live(tasks[n]) ==>
                tasks[n].lane == Playback || (lane == Detail && tasks[n].lane == Search)
    {
      hide Inv, CancelStored, ObsoleteLanes;
      ApplyKeeps(Snapshot(), RunTask(lane, parentAborted));
      OthersAfterStart(Snapshot(), lane, parentAborted);
      CancelObsolete(lane);
      i := |tasks|;
      tasks := tasks + [Task(lane, parentAborted, false)];
      stored := stored[lane := i];
    }

    /** The loop over the stored tasks. */
    method CancelObsolete(lane: Lane)
      requires Valid()
      modifies this`tasks
      ensures Snapshot() == CancelStored(old(Snapshot()), ObsoleteLanes(lane))
    {
      hide LiveIsStored, Exclusive, StoredIn;
      StoredInKept(Snapshot(), ObsoleteLanes(lane));
      var keys := stored.Keys;
      ghost var done: set<Lane> := {};
      while keys != {}
        invariant keys + done == stored.Keys && keys !! done
        invariant stored == old(stored) && |tasks| == old(|tasks|) && Table(Snapshot())
        invariant forall n :: 0 <= n < |tasks| ==>
                    tasks[n] == if StoredIn(old(Snapshot()), n, done * ObsoleteLanes(lane))
                                then old(tasks)[n].(cancelled := true) else old(tasks)[n]
        decreases keys
      {
        var key :| key in keys;
        StoredInStep(old(Snapshot()), done, key, ObsoleteLanes(lane));
        if Obsolete(lane, key) {
          var obsolete := stored[key];
          tasks := tasks[obsolete := tasks[obsolete].(cancelled := true)];
        }
        keys := keys - {key};
        done := done + {key};
      }
      assert done == stored.Keys;
      assert tasks == CancelStored(old(Snapshot()), ObsoleteLanes(lane)).tasks;
    }

    /** The finally block of `runTask`. */
    method EndTask(i: nat)
      requires i < |tasks| && Valid()
      modifies this
      ensures Valid() && Snapshot() == Apply(old(Snapshot()), Finish(i)) && !Live(tasks[i])
    {
      ApplyKeeps(Snapshot(), Finish(i));
      hide LiveIsStored, Exclusive;
      var lane := tasks[i].lane;
      tasks := tasks[i := tasks[i].(finished := true)];
      if lane in stored && stored[lane] == i {
        stored := stored - {lane};
      }
    }
  }
}
