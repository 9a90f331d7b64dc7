/** Favourites and their groups: the actions of the feature and the snapshot they return. */
module Favorites {
  import opened Options
  import opened TextOrder
  import opened KeyedTable
  import Data = BusinessData

  datatype Favorite = Favorite(
    favoriteId: string, sourceId: string, vodId: string, groupId: string, sortOrder: int, addedAt: int)

  datatype Group = Group(groupId: string, name: string, sortOrder: int, createdAt: int)

  /** The rows of the entities "favorite" and "favorite_group". */
  datatype Store = Store(favorites: Rows<Favorite>, groups: Rows<Group>)

  datatype Error =
    | IdRequired
    | KeyInvalid
    | SourceRequired
    | VodRequired
    | GroupRequired
    | NameRequired
    | GroupNotFound
    | FavoriteNotFound
    | SortInvalid
    | GroupExists
    | DefaultGroupProtected
    | DispositionRequired
    | GroupSortInvalid
    | StorageFailed

  datatype Outcome = Done | Failed(error: Error)

  const DEFAULT := "default"
  const DEFAULT_NAME := "默认收藏"

  const EMPTY := Store([], [])

  // ------------------------------------------------------------------ helpers

  /** `required_string`, and `optional_string` up to its error: the trimmed text if there is
      any. */
  function Text(raw: Option<string>): Option<string> {
    if raw.None? || Trim(raw.value) == "" then None else Some(Trim(raw.value))
  }

  /** `upsert_record`'s check of the id. */
  function CheckId(id: string): Outcome {
    if IsBlank(id) then Failed(IdRequired)
    else if !Data.KeyOk(id) then Failed(KeyInvalid)
    else Done
  }

  function EnsureDefault(s: Store, now: int): Store {
    if Find(s.groups, DEFAULT).Some? then s
    else s.(groups := Put(s.groups, DEFAULT, Group(DEFAULT, DEFAULT_NAME, 0, now)))
  }

  /** The favourite of a title, if there is one. */
  function FindTitle(t: Rows<Favorite>, sourceId: string, vodId: string): (r: Option<Favorite>)
    ensures r.Some? ==> r.value.sourceId == sourceId && r.value.vodId == vodId
                        && exists e :: e in t && e.record == r.value
    ensures r.None? ==> forall e :: e in t ==> e.record.sourceId != sourceId || e.record.vodId != vodId
  {
    if t == [] then None
    else if t[0].record.sourceId == sourceId && t[0].record.vodId == vodId then Some(t[0].record)
    else FindTitle(t[1..], sourceId, vodId)
  }

  /** One more than the largest sort order in a group, 0 for an empty one. */
  function NextOrder(t: Rows<Favorite>, groupId: string): int {
    if t == [] then 0
    else
      var rest := NextOrder(t[1..], groupId);
      if t[0].record.groupId == groupId && (rest < t[0].record.sortOrder + 1 || NoneIn(t[1..], groupId))
      then t[0].record.sortOrder + 1
      else rest
  }

  predicate NoneIn(t: Rows<Favorite>, groupId: string) {
    t == [] || (t[0].record.groupId != groupId && NoneIn(t[1..], groupId))
  }

  function NextGroupOrder(t: Rows<Group>): int {
    if t == [] then 1
    else if |t| == 1 then t[0].record.sortOrder + 1
    else
      var rest := NextGroupOrder(t[1..]);
      if rest < t[0].record.sortOrder + 1 then t[0].record.sortOrder + 1 else rest
  }

  predicate NameTaken(t: Rows<Group>, name: string) {
    t != [] && (t[0].record.name == name || NameTaken(t[1..], name))
  }

  function CountIn(t: Rows<Favorite>, groupId: string): nat {
    if t == [] then 0 else (if t[0].record.groupId == groupId then 1 else 0) + CountIn(t[1..], groupId)
  }

  // ------------------------------------------------------------------ actions

  /** `newId` is the id made from a new UUID. */
  function Toggle(s: Store, id: string, newId: string, sourceId: Option<string>, vodId: Option<string>,
                  now: int): (Store, Outcome) {
    var d := EnsureDefault(s, now);
    if Text(sourceId).None? then (d, Failed(SourceRequired))
    else if Text(vodId).None? then (d, Failed(VodRequired))
    else
      var source, vod := Text(sourceId).value, Text(vodId).value;
      match FindTitle(d.favorites, source, vod)
      case Some(f) =>
        if !Data.KeyOk(f.favoriteId) then (d, Failed(KeyInvalid))
        else (d.(favorites := Drop(d.favorites, f.favoriteId)), Done)
      case None =>
        var own := if IsBlank(id) then newId else id;
        match CheckId(own)
        case Failed(e) => (d, Failed(e))
        case Done =>
          var f := Favorite(own, source, vod, DEFAULT, NextOrder(d.favorites, DEFAULT), now);
          (d.(favorites := Put(d.favorites, own, f)), Done)
  }

  function Delete(s: Store, id: string): (Store, Outcome) {
    if !Data.KeyOk(id) then (s, Failed(KeyInvalid)) else (s.(favorites := Drop(s.favorites, id)), Done)
  }

  function Move(s: Store, id: string, groupId: Option<string>): (Store, Outcome) {
    match Text(groupId)
    case None => (s, Failed(GroupRequired))
    case Some(g) =>
      if !Data.KeyOk(g) then (s, Failed(KeyInvalid))
      else if Find(s.groups, g).None? then (s, Failed(GroupNotFound))
      else if !Data.KeyOk(id) then (s, Failed(KeyInvalid))
      else
        match Find(s.favorites, id)
        case None => (s, Failed(FavoriteNotFound))
        case Some(f) => (s.(favorites := Put(s.favorites, id, f.(groupId := g))), Done)
  }

  /** The check of a requested order: as many ids as the group has favourites, and each of
      them names a favourite of the group. */
  predicate OrderAccepted(t: Rows<Favorite>, groupId: string, ids: seq<string>) {
    && |ids| == CountIn(t, groupId)
    && forall k :: 0 <= k < |ids| ==>
         Find(t, ids[k]).Some? && Find(t, ids[k]).value.groupId == groupId
  }

  /** Writing the positions, from the favourites as they were read. */
  function WriteOrder(known: Rows<Favorite>, t: Rows<Favorite>, ids: seq<string>, n: nat): (Rows<Favorite>, Outcome)
    requires n <= |ids| && forall k :: 0 <= k < |ids| ==> Find(known, ids[k]).Some?
  {
    if n == 0 then (t, Done)
    else
      var (before, outcome) := WriteOrder(known, t, ids, n - 1);
      if outcome.Failed? then (before, outcome)
      else
        var id := ids[n - 1];
        match CheckId(id)
        case Failed(e) => (before, Failed(e))
        case Done => (Put(before, id, Find(known, id).value.(sortOrder := n - 1)), Done)
  }

  function Reorder(s: Store, groupId: Option<string>, ids: seq<string>): (Store, Outcome) {
    match Text(groupId)
    case None => (s, Failed(GroupRequired))
    case Some(g) =>
      if !OrderAccepted(s.favorites, g, ids) then (s, Failed(SortInvalid))
      else
        var (written, outcome) := WriteOrder(s.favorites, s.favorites, ids, |ids|);
        if outcome.Failed? then (s, outcome) else (s.(favorites := written), Done)
  }

  function CreateGroup(s: Store, id: string, newId: string, name: Option<string>, now: int): (Store, Outcome) {
    match Text(name)
    case None => (s, Failed(NameRequired))
    case Some(n) =>
      if NameTaken(s.groups, n) then (s, Failed(GroupExists))
      else
        var own := if IsBlank(id) then newId else id;
        match CheckId(own)
        case Failed(e) => (s, Failed(e))
        case Done => (s.(groups := Put(s.groups, own, Group(own, n, NextGroupOrder(s.groups), now))), Done)
  }

  function RenameGroup(s: Store, id: string, name: Option<string>): (Store, Outcome) {
    if IsBlank(id) then (s, Failed(IdRequired))
    else if id == DEFAULT then (s, Failed(DefaultGroupProtected))
    else if !Data.KeyOk(id) then (s, Failed(KeyInvalid))
    else
      match Find(s.groups, id)
      case None => (s, Failed(GroupNotFound))
      case Some(g) =>
        match Text(name)
        case None => (s, Failed(NameRequired))
        case Some(n) => (s.(groups := Put(s.groups, id, g.(name := n))), Done)
  }

  /** The loop of a group's deletion over the favourites that were read: those of the group
      go, or move to the default group. */
  function EmptyGroup(known: Rows<Favorite>, t: Rows<Favorite>, id: string, delete: bool, n: nat)
    : (Rows<Favorite>, Outcome)
    requires n <= |known|
  {
    if n == 0 then (t, Done)
    else
      var (before, outcome) := EmptyGroup(known, t, id, delete, n - 1);
      var f := known[n - 1].record;
      if outcome.Failed? || f.groupId != id then (before, outcome)
      else if delete then
        if !Data.KeyOk(f.favoriteId) then (before, Failed(KeyInvalid)) else (Drop(before, f.favoriteId), Done)
      else
        match CheckId(f.favoriteId)
        case Failed(e) => (before, Failed(e))
        case Done => (Put(before, f.favoriteId, f.(groupId := DEFAULT)), Done)
  }

  function DeleteGroup(s: Store, id: string, disposition: Option<string>): (Store, Outcome) {
    if IsBlank(id) then (s, Failed(IdRequired))
    else if id == DEFAULT then (s, Failed(DefaultGroupProtected))
    else if CountIn(s.favorites, id) > 0 && Text(disposition).None? then (s, Failed(DispositionRequired))
    else
      var (emptied, outcome) :=
        EmptyGroup(s.favorites, s.favorites, id, Text(disposition) == Some("delete"), |s.favorites|);
      if outcome.Failed? then (s, outcome)
      else if !Data.KeyOk(id) then (s, Failed(KeyInvalid))
      else (Store(emptied, Drop(s.groups, id)), Done)
  }

  predicate AllDistinct(ids: seq<string>) {
    forall i, j :: 0 <= i < j < |ids| ==> ids[i] != ids[j]
  }

  predicate IsGroup(t: Rows<Group>, id: string) { exists e :: e in t && e.record.groupId == id }

  /** The check of a requested group order: every group once. */
  predicate GroupOrderAccepted(t: Rows<Group>, ids: seq<string>) {
    && AllDistinct(ids)
    && (forall k :: 0 <= k < |ids| ==> IsGroup(t, ids[k]))
    && (forall e :: e in t ==> e.record.groupId in ids)
  }

  function WriteGroupOrder(t: Rows<Group>, ids: seq<string>, n: nat): (Rows<Group>, Outcome)
    requires n <= |ids|
  {
    if n == 0 then (t, Done)
    else
      var (before, outcome) := WriteGroupOrder(t, ids, n - 1);
      if outcome.Failed? then (before, outcome)
      else
        var id := ids[n - 1];
        match CheckId(id)
        case Failed(e) => (before, Failed(e))
        case Done =>
          match Find(before, id)
          case None => (before, Failed(GroupSortInvalid))
          case Some(g) => (Put(before, id, g.(sortOrder := n - 1)), Done)
  }

  function ReorderGroups(s: Store, ids: seq<string>): (Store, Outcome) {
    if !GroupOrderAccepted(s.groups, ids) then (s, Failed(GroupSortInvalid))
    else
      var (written, outcome) := WriteGroupOrder(s.groups, ids, |ids|);
      if outcome.Failed? then (s, outcome) else (s.(groups := written), Done)
  }

  datatype Action =
    | SnapshotAction
    | ToggleAction(id: string, newId: string, sourceId: Option<string>, vodId: Option<string>)
    | DeleteAction(id: string)
    | MoveAction(id: string, groupId: Option<string>)
    | ReorderAction(groupId: Option<string>, ids: seq<string>)
    | CreateGroupAction(id: string, newId: string, name: Option<string>)
    | RenameGroupAction(id: string, name: Option<string>)
    | DeleteGroupAction(id: string, disposition: Option<string>)
    | ReorderGroupsAction(ids: seq<string>)

  function Act(s: Store, a: Action, now: int): (Store, Outcome) {
    match a
    case SnapshotAction => (s, Done)
    case ToggleAction(id, newId, sourceId, vodId) => Toggle(s, id, newId, sourceId, vodId, now)
    case DeleteAction(id) => Delete(s, id)
    case MoveAction(id, groupId) => Move(s, id, groupId)
    case ReorderAction(groupId, ids) => Reorder(s, groupId, ids)
    case CreateGroupAction(id, newId, name) => CreateGroup(s, id, newId, name, now)
    case RenameGroupAction(id, name) => RenameGroup(s, id, name)
    case DeleteGroupAction(id, disposition) => DeleteGroup(s, id, disposition)
    case ReorderGroupsAction(ids) => ReorderGroups(s, ids)
  }

  /** `handle`: a successful action ends with a snapshot, which makes sure of the default
      group. */
  function Handle(s: Store, a: Action, now: int): (Store, Outcome) {
    var (t, outcome) := Act(s, a, now);
    if outcome.Failed? then (t, outcome) else (EnsureDefault(t, now), Done)
  }

  datatype Call = Call(action: Action, now: int)

  /** The store after a sequence of calls, failed ones included. */
  function Run(calls: seq<Call>): Store {
    if calls == [] then EMPTY
    else Handle(Run(calls[..|calls| - 1]), calls[|calls| - 1].action, calls[|calls| - 1].now).0
  }

  // ----------------------------------------------------------------- invariant

  predicate SameTitle(a: Favorite, b: Favorite) { a.sourceId == b.sourceId && a.vodId == b.vodId }

  /** Ids equal record keys, every favourite's group exists, the default group exists when a
      favourite does, and no title is a favourite twice. */
  ghost predicate Inv(s: Store) {
    && Ordered(s.favorites) && Ordered(s.groups)
    && (forall e :: e in s.favorites ==> e.record.favoriteId == e.id && Data.KeyOk(e.id))
    && (forall e :: e in s.groups ==> e.record.groupId == e.id && Data.KeyOk(e.id))
    && (forall e :: e in s.favorites ==> Find(s.groups, e.record.groupId).Some?)
    && (s.favorites != [] ==> Find(s.groups, DEFAULT).Some?)
    && (forall d, e ::
          d in s.favorites && e in s.favorites && SameTitle(d.record, e.record) ==> d == e)
  }
}
