/** The sorted snapshot, what reordering does to it, and the feature object. */
module FavoritesSnapshot {
  import opened Counting
  import opened Options
  import opened TextOrder
  import opened KeyedTable
  import opened Favorites
  import opened FavoritesSafety
  import opened SortedLists
  import Data = BusinessData

  // ----------------------------------------------------------------- ordering

  /** By group, position, newest first; rows that tie stay in the order of their ids. */
  predicate FavoriteLess(a: Favorite, b: Favorite) {
    || Less(a.groupId, b.groupId)
    || (a.groupId == b.groupId
        && (|| a.sortOrder < b.sortOrder
            || (a.sortOrder == b.sortOrder
                && (a.addedAt > b.addedAt || (a.addedAt == b.addedAt && Less(a.favoriteId, b.favoriteId))))))
  }

  predicate GroupLess(a: Group, b: Group) {
    || a.sortOrder < b.sortOrder
    || (a.sortOrder == b.sortOrder
        && (a.createdAt < b.createdAt || (a.createdAt == b.createdAt && Less(a.groupId, b.groupId))))
  }

  lemma FavoriteLessAsymmetric()
    ensures forall a, b :: FavoriteLess(a, b) ==> !FavoriteLess(b, a)
  {
    forall a, b | FavoriteLess(a, b) ensures !FavoriteLess(b, a) {
      if Less(a.groupId, b.groupId) {
        LessAsymmetric(a.groupId, b.groupId);
      } else {
        LessIrreflexive(a.groupId);
        if Less(a.favoriteId, b.favoriteId) {
          LessAsymmetric(a.favoriteId, b.favoriteId);
        }
      }
    }
  }

  lemma GroupLessAsymmetric()
    ensures forall a, b :: GroupLess(a, b) ==> !GroupLess(b, a)
  {
    forall a, b | GroupLess(a, b) ensures !GroupLess(b, a) {
      if Less(a.groupId, b.groupId) {
        LessAsymmetric(a.groupId, b.groupId);
      }
    }
  }

  // ----------------------------------------------------------------- snapshot

  ghost predicate HasRecord<R>(t: Rows<R>, r: R) { exists i :: 0 <= i < |t| && t[i].record == r }

  /** The favourites in snapshot order. */
  ghost predicate Items(s: Store, items: seq<Favorite>) {
    Ascending(items, FavoriteLess) && forall f :: f in items <==> HasRecord(s.favorites, f)
  }

  /** The groups in snapshot order. */
  ghost predicate Groups(s: Store, groups: seq<Group>) {
    Ascending(groups, GroupLess) && forall g :: g in groups <==> HasRecord(s.groups, g)
  }

  function Count(items: seq<Favorite>, groupId: string): nat {
    if items == [] then 0 else (if items[0].groupId == groupId then 1 else 0) + Count(items[1..], groupId)
  }

  function CountSum(items: seq<Favorite>, groups: seq<Group>): nat {
    if groups == [] then 0 else Count(items, groups[0].groupId) + CountSum(items, groups[1..])
  }

  ghost predicate DistinctGroups(groups: seq<Group>) {
    forall i, j :: 0 <= i < j < |groups| ==> groups[i].groupId != groups[j].groupId
  }

  function Matches(groups: seq<Group>, groupId: string): nat {
    if groups == [] then 0 else (if groups[0].groupId == groupId then 1 else 0) + Matches(groups[1..], groupId)
  }

  lemma {:induction false} CountSumStep(items: seq<Favorite>, groups: seq<Group>)
    requires items != []
    ensures CountSum(items, groups) == Matches(groups, items[0].groupId) + CountSum(items[1..], groups)
  {
    if groups != [] {
      CountSumStep(items, groups[1..]);
    }
  }

  lemma {:induction false} CountSumEmpty(groups: seq<Group>)
    ensures CountSum([], groups) == 0
  {
    if groups != [] {
      CountSumEmpty(groups[1..]);
    }
  }

  lemma {:induction false} MatchesOnce(groups: seq<Group>, groupId: string)
    requires DistinctGroups(groups)
    ensures Matches(groups, groupId) == if exists g :: g in groups && g.groupId == groupId then 1 else 0
  {
    if groups != [] {
      MatchesOnce(groups[1..], groupId);
      assert groups == [groups[0]] + groups[1..];
      if groups[0].groupId == groupId {
        forall g | g in groups[1..] ensures g.groupId != groupId {
          var i :| 0 <= i < |groups[1..]| && groups[1..][i] == g;
          assert groups[i + 1] == g;
        }
      }
    }
  }

  lemma {:induction false} CountsCover(items: seq<Favorite>, groups: seq<Group>)
    requires DistinctGroups(groups)
    requires forall f :: f in items ==> exists g :: g in groups && g.groupId == f.groupId
    ensures CountSum(items, groups) == |items|
  {
    if items == [] {
      CountSumEmpty(groups);
    } else {
      assert items == [items[0]] + items[1..];
      CountSumStep(items, groups);
      MatchesOnce(groups, items[0].groupId);
      CountsCover(items[1..], groups);
    }
  }

  lemma ItemsCovered(s: Store, items: seq<Favorite>, groups: seq<Group>)
    requires Inv(s) && Items(s, items) && Groups(s, groups)
    ensures CountSum(items, groups) == |items|
  {
    GroupsDistinct(s, groups);
    forall f | f in items ensures exists g :: g in groups && g.groupId == f.groupId {
      var i :| 0 <= i < |s.favorites| && s.favorites[i].record == f;
      assert s.favorites[i] in s.favorites;
      var k := IndexOfId(s.groups, f.groupId);
      assert s.groups[k] in s.groups;
      assert HasRecord(s.groups, s.groups[k].record);
    }
    CountsCover(items, groups);
  }

  /** In every store a run can reach, the counts shown for the groups add up to the number of
      favourites. */
  lemma CountsAddUp(calls: seq<Call>, items: seq<Favorite>, groups: seq<Group>)
    requires Items(Run(calls), items) && Groups(Run(calls), groups)
    ensures CountSum(items, groups) == |items|
  {
    hide Inv, Items, Groups;
    EveryRunKeeps(calls);
    ItemsCovered(Run(calls), items, groups);
  }

  lemma GroupsDistinct(s: Store, groups: seq<Group>)
    requires Inv(s) && Groups(s, groups)
    ensures DistinctGroups(groups)
  {
    GroupLessAsymmetric();
    forall i, j | 0 <= i < j < |groups| ensures groups[i].groupId != groups[j].groupId {
      assert groups[i] in groups && groups[j] in groups;
      var m :| 0 <= m < |s.groups| && s.groups[m].record == groups[i];
      var n :| 0 <= n < |s.groups| && s.groups[n].record == groups[j];
      assert s.groups[m] in s.groups && s.groups[n] in s.groups;
      assert GroupLess(groups[i], groups[j]);
      if groups[i].groupId == groups[j].groupId {
        OneRowPerId(s.groups, s.groups[m], s.groups[n]);
      }
    }
  }

  // ------------------------------------------------------------ after a reorder

  function InGroup(items: seq<Favorite>, groupId: string): seq<Favorite> {
    if items == [] then []
    else (if items[0].groupId == groupId then [items[0]] else []) + InGroup(items[1..], groupId)
  }

  function Ids(items: seq<Favorite>): seq<string> {
    seq(|items|, k requires 0 <= k < |items| => items[k].favoriteId)
  }

  lemma {:induction false} InGroupIs(items: seq<Favorite>, groupId: string)
    requires Ascending(items, FavoriteLess)
    ensures Ascending(InGroup(items, groupId), FavoriteLess)
    ensures forall f :: f in InGroup(items, groupId) <==> f in items && f.groupId == groupId
  {
    hide FavoriteLess;
    if items != [] {
      var rest := InGroup(items[1..], groupId);
      InGroupIs(items[1..], groupId);
      assert items == [items[0]] + items[1..];
      forall j | 0 <= j < |rest| ensures FavoriteLess(items[0], rest[j]) {
        assert rest[j] in rest;
        var k :| 0 <= k < |items[1..]| && items[1..][k] == rest[j];
        assert items[k + 1] == rest[j];
      }
    }
  }

  ghost function GroupIds(t: Rows<Favorite>, groupId: string): set<string> {
    set i | 0 <= i < |t| && t[i].record.groupId == groupId :: t[i].id
  }

  lemma {:induction false} CountIsSize(t: Rows<Favorite>, groupId: string)
    requires Ordered(t)
    ensures |GroupIds(t, groupId)| == CountIn(t, groupId)
  {
    hide Less, Ordered, GroupIds;
    if t == [] {
      assert GroupIds(t, groupId) == {} by {
        NoGroupIds(groupId);
      }
    } else {
      HeadIsLeast(t);
      CountIsSize(t[1..], groupId);
      GroupIdsStep(t, groupId);
    }
  }

  lemma NoGroupIds(groupId: string)
    ensures GroupIds([], groupId) == {}
  {
  }

  lemma GroupIdsStep(t: Rows<Favorite>, groupId: string)
    requires t != [] && forall e :: e in t[1..] ==> e.id != t[0].id
    ensures var head, rest := if t[0].record.groupId == groupId then {t[0].id} else {}, GroupIds(t[1..], groupId);
            GroupIds(t, groupId) == head + rest && head !! rest
  {
    var head, rest := if t[0].record.groupId == groupId then {t[0].id} else {}, GroupIds(t[1..], groupId);
    forall id | id in GroupIds(t, groupId) ensures id in head + rest {
      var i :| 0 <= i < |t| && t[i].record.groupId == groupId && t[i].id == id;
      if i > 0 {
        assert t[1..][i - 1] == t[i];
      }
    }
    forall id | id in rest ensures id in GroupIds(t, groupId) && id != t[0].id {
      var i :| 0 <= i < |t[1..]| && t[1..][i].record.groupId == groupId && t[1..][i].id == id;
      assert t[i + 1] == t[1..][i] && t[1..][i] in t[1..];
    }
  }

  lemma {:induction false} DistinctSize(ids: seq<string>)
    requires AllDistinct(ids)
    ensures |set id | id in ids| == |ids|
  {
    if ids != [] {
      DistinctSize(ids[1..]);
      assert ids == [ids[0]] + ids[1..];
      assert (set id | id in ids) == {ids[0]} + (set id | id in ids[1..]);
    }
  }

  /** Accepted distinct ids are all of the group's. */
  lemma OrderCoversGroup(t: Rows<Favorite>, groupId: string, ids: seq<string>, e: Entry<Favorite>)
    requires Ordered(t) && OrderAccepted(t, groupId, ids) && AllDistinct(ids)
    requires e in t && e.record.groupId == groupId
    ensures e.id in ids
  {
    hide Less;
    CountIsSize(t, groupId);
    DistinctSize(ids);
    var wanted := set id | id in ids;
    forall id | id in wanted ensures id in GroupIds(t, groupId) {
      var i := IndexOfId(t, id);
    }
    FullSubset(wanted, GroupIds(t, groupId));
    var i :| 0 <= i < |t| && t[i] == e;
    assert t[i].id in GroupIds(t, groupId);
  }

  lemma {:induction false} LastIndexDistinct(ids: seq<string>, n: nat, k: nat)
    requires AllDistinct(ids) && k < n <= |ids|
    ensures LastIndex(ids, n, ids[k]) == k
  {
    if k < n - 1 {
      LastIndexDistinct(ids, n - 1, k);
    }
  }

  /** The favourites in the requested order. */
  function Requested(t: Rows<Favorite>, ids: seq<string>): seq<Favorite>
    requires forall k :: 0 <= k < |ids| ==> Find(t, ids[k]).Some?
  {
    seq(|ids|, k requires 0 <= k < |ids| => Find(t, ids[k]).value.(sortOrder := k))
  }

  lemma RequestedIsListed(s: Store, groupId: string, ids: seq<string>, f: Favorite)
    requires Inv(s) && OrderAccepted(s.favorites, groupId, ids) && AllDistinct(ids)
    ensures f in Requested(s.favorites, ids)
            <==> f.groupId == groupId && HasRecord(PlacedRows(s.favorites, ids, |ids|), f)
  {
    hide Less, Data.KeyOk;
    var t, u := s.favorites, PlacedRows(s.favorites, ids, |ids|);
    var m := Requested(t, ids);
    if f in m {
      var k :| 0 <= k < |m| && m[k] == f;
      var i := IndexOfId(t, ids[k]);
      LastIndexDistinct(ids, |ids|, k);
      assert u[i].record == f;
    }
    if f.groupId == groupId && HasRecord(u, f) {
      var i :| 0 <= i < |u| && u[i].record == f;
      assert t[i] in t;
      OrderCoversGroup(t, groupId, ids, t[i]);
      var k :| 0 <= k < |ids| && ids[k] == t[i].id;
      LastIndexDistinct(ids, |ids|, k);
      FindAt(t, i);
      assert m[k] == f;
    }
  }

  lemma RequestedAscends(s: Store, groupId: string, ids: seq<string>)
    requires Inv(s) && OrderAccepted(s.favorites, groupId, ids)
    ensures Ascending(Requested(s.favorites, ids), FavoriteLess)
    ensures Ids(Requested(s.favorites, ids)) == ids
  {
    hide Less, Data.KeyOk;
    forall k | 0 <= k < |ids| ensures Requested(s.favorites, ids)[k].favoriteId == ids[k] {
      FindSome(s.favorites, ids[k]);
    }
  }

  lemma ListedIdsDistinct(s: Store, items: seq<Favorite>, groupId: string)
    requires Inv(s) && Items(s, items)
    ensures AllDistinct(Ids(InGroup(items, groupId)))
  {
    hide Less, Data.KeyOk, FavoriteLess;
    FavoriteLessAsymmetric();
    InGroupIs(items, groupId);
    var own := InGroup(items, groupId);
    forall i, j | 0 <= i < j < |own| ensures own[i].favoriteId != own[j].favoriteId {
      assert own[i] in own && own[j] in own && FavoriteLess(own[i], own[j]);
      var m :| 0 <= m < |s.favorites| && s.favorites[m].record == own[i];
      var n :| 0 <= n < |s.favorites| && s.favorites[n].record == own[j];
      assert s.favorites[m] in s.favorites && s.favorites[n] in s.favorites;
      if own[i].favoriteId == own[j].favoriteId {
        OneRowPerId(s.favorites, s.favorites[m], s.favorites[n]);
      }
    }
  }

  /** After an accepted reorder the snapshot lists the group exactly as requested if and only
      if the request names no favourite twice; the code accepts repeated ids. */
  lemma ReorderListsRequestIff(s: Store, groupId: Option<string>, ids: seq<string>, items: seq<Favorite>)
    requires Inv(s) && Reorder(s, groupId, ids).1 == Done
    requires Items(Reorder(s, groupId, ids).0, items)
    ensures Text(groupId).Some?
    ensures Ids(InGroup(items, Text(groupId).value)) == ids <==> AllDistinct(ids)
  {
    hide Less, Data.KeyOk, FavoriteLess, Text, WriteOrder, PlacedRows;
    ReorderIs(s, groupId, ids);
    PlacedKeeps(s, ids);
    var g, u := Text(groupId).value, Reorder(s, groupId, ids).0;
    ListedIdsDistinct(u, items, g);
    if AllDistinct(ids) {
      InGroupIs(items, g);
      RequestedAscends(s, g, ids);
      FavoriteLessAsymmetric();
      forall f ensures f in InGroup(items, g) <==> f in Requested(s.favorites, ids) {
        RequestedIsListed(s, g, ids, f);
      }
      AscendingUnique(InGroup(items, g), Requested(s.favorites, ids), FavoriteLess);
    }
  }

  /** A reorder changes nothing but the positions of the favourites it names, so the rows of
      other groups stay as they are. */
  lemma ReorderLeavesOthers(s: Store, groupId: Option<string>, ids: seq<string>, i: nat)
    requires Inv(s) && Reorder(s, groupId, ids).1 == Done && i < |s.favorites|
    ensures var u := Reorder(s, groupId, ids).0;
            && u.groups == s.groups && |u.favorites| == |s.favorites|
            && u.favorites[i].id == s.favorites[i].id
            && u.favorites[i].record == s.favorites[i].record.(sortOrder := u.favorites[i].record.sortOrder)
            && (Text(groupId) != Some(s.favorites[i].record.groupId) ==> u.favorites[i] == s.favorites[i])
  {
    hide Less, Data.KeyOk, Text, WriteOrder;
    ReorderIs(s, groupId, ids);
    var k := LastIndex(ids, |ids|, s.favorites[i].id);
    if k >= 0 {
      FindAt(s.favorites, i);
    }
  }

  // -------------------------------------------------------- groups reordered

  function RequestedGroups(t: Rows<Group>, ids: seq<string>): seq<Group>
    requires forall k :: 0 <= k < |ids| ==> Find(t, ids[k]).Some?
  {
    seq(|ids|, k requires 0 <= k < |ids| => Find(t, ids[k]).value.(sortOrder := k))
  }

  lemma AcceptedGroupsFound(s: Store, ids: seq<string>, k: nat)
    requires Inv(s) && GroupOrderAccepted(s.groups, ids) && k < |ids|
    ensures Find(s.groups, ids[k]).Some? && Find(s.groups, ids[k]).value.groupId == ids[k]
  {
    hide Less, Data.KeyOk;
    assert IsGroup(s.groups, ids[k]);
    FindSome(s.groups, ids[k]);
  }

  lemma RequestedGroupListed(s: Store, ids: seq<string>, g: Group)
    requires Inv(s) && GroupOrderAccepted(s.groups, ids)
    requires forall k :: 0 <= k < |ids| ==> Find(s.groups, ids[k]).Some?
    ensures g in RequestedGroups(s.groups, ids) <==> HasRecord(PlacedGroups(s.groups, ids, |ids|), g)
  {
    hide Less, Data.KeyOk;
    var t, u := s.groups, PlacedGroups(s.groups, ids, |ids|);
    var m := RequestedGroups(t, ids);
    if g in m {
      var k :| 0 <= k < |m| && m[k] == g;
      var i := IndexOfId(t, ids[k]);
      LastIndexDistinct(ids, |ids|, k);
      assert u[i].record == g;
    }
    if HasRecord(u, g) {
      var i :| 0 <= i < |u| && u[i].record == g;
      assert t[i] in t;
      var k :| 0 <= k < |ids| && ids[k] == t[i].id;
      LastIndexDistinct(ids, |ids|, k);
      FindAt(t, i);
      assert m[k] == g;
    }
  }

  /** After a successful reorder of the groups the snapshot lists them exactly as requested. */
  lemma ReorderGroupsListsRequest(s: Store, ids: seq<string>, groups: seq<Group>)
    requires Inv(s) && ReorderGroups(s, ids).1 == Done && Groups(ReorderGroups(s, ids).0, groups)
    ensures |groups| == |ids| && forall k :: 0 <= k < |ids| ==> groups[k].groupId == ids[k]
  {
    hide Less, Data.KeyOk, PlacedGroups, WriteGroupOrder;
    ReorderGroupsIs(s, ids);
    forall k | 0 <= k < |ids| ensures Find(s.groups, ids[k]).Some? && Find(s.groups, ids[k]).value.groupId == ids[k] {
      AcceptedGroupsFound(s, ids, k);
    }
    var m := RequestedGroups(s.groups, ids);
    forall g ensures g in groups <==> g in m {
      RequestedGroupListed(s, ids, g);
    }
    GroupLessAsymmetric();
    AscendingUnique(groups, m, GroupLess);
  }

  // --------------------------------------------------- which actions succeed

  /** What an action must bring along, on the store it meets. */
  ghost predicate Allowed(s: Store, a: Action) {
    match a
    case SnapshotAction => true
    case ToggleAction(id, newId, sourceId, vodId) =>
      && Text(sourceId).Some? && Text(vodId).Some?
      && (FindTitle(s.favorites, Text(sourceId).value, Text(vodId).value).Some?
          || CheckId(if IsBlank(id) then newId else id) == Done)
    case DeleteAction(id) => Data.KeyOk(id)
    case MoveAction(id, groupId) =>
      Text(groupId).Some? && Find(s.groups, Text(groupId).value).Some? && Find(s.favorites, id).Some?
    case ReorderAction(groupId, ids) => Text(groupId).Some? && OrderAccepted(s.favorites, Text(groupId).value, ids)
    case CreateGroupAction(id, newId, name) =>
      Text(name).Some? && !NameTaken(s.groups, Text(name).value) && CheckId(if IsBlank(id) then newId else id) == Done
    case RenameGroupAction(id, name) =>
      !IsBlank(id) && id != DEFAULT && Find(s.groups, id).Some? && Text(name).Some?
    case DeleteGroupAction(id, disposition) =>
      !IsBlank(id) && id != DEFAULT && Data.KeyOk(id) && (CountIn(s.favorites, id) > 0 ==> Text(disposition).Some?)
    case ReorderGroupsAction(ids) => GroupOrderAccepted(s.groups, ids)
  }

  lemma FoundHasKey<R(!new)>(t: Rows<R>, id: string)
    requires forall e :: e in t ==> Data.KeyOk(e.id)
    ensures Find(t, id).Some? ==> Data.KeyOk(id) && CheckId(id) == Done
  {
    FindSome(t, id);
    if Find(t, id).Some? {
      KeyIsId(id);
    }
  }

  /** Once a reorder is accepted every one of its writes goes through: no row of a reachable
      store has an id that a write would refuse. */
  lemma ReorderSucceedsIff(s: Store, groupId: Option<string>, ids: seq<string>)
    requires Inv(s)
    ensures Reorder(s, groupId, ids).1 == Done
            <==> Text(groupId).Some? && OrderAccepted(s.favorites, Text(groupId).value, ids)
  {
    hide Ordered, Data.KeyOk, IsBlank, Find, Text;
    if Text(groupId).Some? && OrderAccepted(s.favorites, Text(groupId).value, ids) {
      forall e | e in s.favorites ensures CheckId(e.id) == Done {
        KeyIsId(e.id);
      }
      WriteOrderIs(s.favorites, ids, |ids|);
    }
  }

  lemma ReorderGroupsSucceedsIff(s: Store, ids: seq<string>)
    requires Inv(s)
    ensures ReorderGroups(s, ids).1 == Done <==> GroupOrderAccepted(s.groups, ids)
  {
    hide Ordered, Data.KeyOk, IsBlank;
    if GroupOrderAccepted(s.groups, ids) {
      forall e | e in s.groups ensures CheckId(e.id) == Done {
        KeyIsId(e.id);
      }
      forall k | 0 <= k < |ids| ensures Find(s.groups, ids[k]).Some? {
        AcceptedGroupsFound(s, ids, k);
      }
      WriteGroupOrderIs(s.groups, ids, |ids|);
    }
  }

  lemma DeleteGroupSucceedsIff(s: Store, id: string, disposition: Option<string>)
    requires Inv(s)
    ensures DeleteGroup(s, id, disposition).1 == Done <==> Allowed(s, DeleteGroupAction(id, disposition))
  {
    hide Less, Data.KeyOk, Text, IsBlank, CountIn, EmptyGroup, Find;
    EmptyGroupIs(s.favorites, id, Text(disposition) == Some("delete"), |s.favorites|);
  }

  lemma RowActionsSucceedIff(s: Store, a: Action, now: int)
    requires Inv(s)
    requires a.ToggleAction? || a.MoveAction? || a.RenameGroupAction? || a.CreateGroupAction? || a.DeleteAction?
    ensures Act(s, a, now).1 == Done <==> Allowed(s, a)
  {
    hide Less, Ordered, Data.KeyOk, Text, IsBlank, Find, NextOrder, NextGroupOrder, NameTaken, CheckId;
    EnsureDefaultKeeps(s, now);
    match a
    case ToggleAction(id, newId, sourceId, vodId) =>
      if Text(sourceId).Some? && Text(vodId).Some? {
        var known := FindTitle(s.favorites, Text(sourceId).value, Text(vodId).value);
        if known.Some? {
          var e :| e in s.favorites && e.record == known.value;
        }
      }
    case MoveAction(id, groupId) =>
      FoundHasKey(s.favorites, id);
      if Text(groupId).Some? {
        FoundHasKey(s.groups, Text(groupId).value);
      }
    case RenameGroupAction(id, name) => FoundHasKey(s.groups, id);
    case _ =>
  }

  /** On every reachable store an action succeeds exactly if it is allowed. */
  lemma SucceedsIff(calls: seq<Call>, a: Action, now: int)
    ensures Handle(Run(calls), a, now).1 == Done <==> Allowed(Run(calls), a)
  {
    EveryRunKeeps(calls);
    hide Inv, Allowed, Toggle, Delete, Move, Reorder, CreateGroup, RenameGroup, DeleteGroup, ReorderGroups;
    var s := Run(calls);
    match a
    case SnapshotAction => SnapshotAllowed(s);
    case ReorderAction(groupId, ids) => ReorderSucceedsIff(s, groupId, ids); ReorderAllowed(s, groupId, ids);
    case ReorderGroupsAction(ids) => ReorderGroupsSucceedsIff(s, ids); ReorderGroupsAllowed(s, ids);
    case DeleteGroupAction(id, disposition) => DeleteGroupSucceedsIff(s, id, disposition);
    case _ => RowActionsSucceedIff(s, a, now);
  }

  lemma SnapshotAllowed(s: Store)
    ensures Allowed(s, SnapshotAction)
  {
  }

  lemma ReorderAllowed(s: Store, groupId: Option<string>, ids: seq<string>)
    ensures Allowed(s, ReorderAction(groupId, ids))
            <==> Text(groupId).Some? && OrderAccepted(s.favorites, Text(groupId).value, ids)
  {
  }

  lemma ReorderGroupsAllowed(s: Store, ids: seq<string>)
    ensures Allowed(s, ReorderGroupsAction(ids)) <==> GroupOrderAccepted(s.groups, ids)
  {
  }

  // ------------------------------------------------------ failures, the default

  lemma FailureChangesNothing(s: Store, a: Action, now: int)
    requires Handle(s, a, now).1.Failed?
    ensures Handle(s, a, now).0 == if a.ToggleAction? then EnsureDefault(s, now) else s
  {
    hide EnsureDefault, Find, Put, Drop, Text, IsBlank, Data.KeyOk, EmptyGroup, WriteOrder, WriteGroupOrder, CountIn,
      NextGroupOrder, NextOrder, NameTaken;
  }

  /** Once there, the default group is never deleted. */
  lemma DefaultGroupStays(s: Store, a: Action, now: int)
    requires Inv(s) && Find(s.groups, DEFAULT).Some?
    ensures Find(Handle(s, a, now).0.groups, DEFAULT).Some?
  {
    hide Ordered, Data.KeyOk, IsBlank, EmptyGroup, WriteOrder, WriteGroupOrder, CountIn, Text, Find, NextGroupOrder,
      NextOrder, NameTaken, Less;
    ActKeeps(s, a, now);
    if Handle(s, a, now).1 == Done {
      EnsureDefaultKeeps(Act(s, a, now).0, now);
    } else {
      FailureChangesNothing(s, a, now);
      EnsureDefaultKeeps(s, now);
    }
  }

  // ------------------------------------------------- deleting and toggling

  /** Deleting a group deletes its favourites or moves every one of them to the default group,
      as asked, and leaves all others alone. */
  lemma DeleteGroupDisposes(s: Store, id: string, disposition: Option<string>, r: Entry<Favorite>)
    requires Inv(s) && DeleteGroup(s, id, disposition).1 == Done && r in s.favorites
    ensures var u := DeleteGroup(s, id, disposition).0;
            && Find(u.groups, id) == None
            && Find(u.favorites, r.id)
               == if r.record.groupId != id then Some(r.record)
                  else if Text(disposition) == Some("delete") then None
                  else Some(r.record.(groupId := DEFAULT))
  {
    hide Less, Data.KeyOk, Text, IsBlank, CountIn, EmptyGroup;
    var delete := Text(disposition) == Some("delete");
    EmptyGroupIs(s.favorites, id, delete, |s.favorites|);
    FindAfterDrop(s.groups, id, id);
    var t := EmptyGroup(s.favorites, s.favorites, id, delete, |s.favorites|).0;
    var i :| 0 <= i < |s.favorites| && s.favorites[i] == r;
    EmptiedRow(s.favorites, t, id, delete, i);
  }

  lemma EmptiedRow(known: Rows<Favorite>, t: Rows<Favorite>, id: string, delete: bool, i: nat)
    requires Ordered(known) && Emptied(known, t, id, delete, |known|) && i < |known|
    ensures Find(t, known[i].id)
            == if known[i].record.groupId != id then Some(known[i].record)
               else if delete then None
               else Some(known[i].record.(groupId := DEFAULT))
  {
    hide Less;
    var r := known[i];
    if r.record.groupId != id {
      assert Became(known[i], true, id, delete, r);
      FindIff(t, r.id, r.record);
    } else if !delete {
      var e := Entry(r.id, r.record.(groupId := DEFAULT));
      assert Became(known[i], true, id, delete, e);
      FindIff(t, r.id, e.record);
    } else {
      FindSome(t, r.id);
      if Find(t, r.id).Some? {
        var e := Entry(r.id, Find(t, r.id).value);
        var j :| 0 <= j < |known| && Became(known[j], j < |known|, id, delete, e);
        if j != i {
          DistinctIds(known, i, j);
        }
      }
    }
  }

  lemma {:induction false} DropPut(t: Rows<Favorite>, id: string, f: Favorite)
    requires Ordered(t)
    ensures Drop(Put(t, id, f), id) == t <==> Find(t, id).None?
  {
    hide Less;
    if t != [] && !Less(id, t[0].id) {
      HeadIsLeast(t);
      if t[0].id != id {
        DropPut(t[1..], id, f);
      }
    } else if t != [] {
      HeadIsLeast(t);
      LessAsymmetric(id, t[0].id);
      forall e | e in t[1..] ensures e.id != id {
        LessTransitive(id, t[0].id, e.id);
        LessAsymmetric(id, e.id);
      }
      FindSome(t, id);
    }
  }

  /** Toggling a title on and off again gives the favourites back exactly when the id it was
      given was free: a favourite that had this id is overwritten and then lost. */
  lemma ToggleTwiceIff(s: Store, id: string, newId: string, sourceId: Option<string>, vodId: Option<string>,
                       now: int, later: int)
    requires Inv(s) && Text(sourceId).Some? && Text(vodId).Some?
    requires FindTitle(s.favorites, Text(sourceId).value, Text(vodId).value).None?
    requires Toggle(s, id, newId, sourceId, vodId, now).1 == Done
    ensures var once := Toggle(s, id, newId, sourceId, vodId, now).0;
            var (twice, outcome) := Toggle(once, id, newId, sourceId, vodId, later);
            && outcome == Done
            && (twice.favorites == s.favorites <==> Find(s.favorites, if IsBlank(id) then newId else id).None?)
  {
    hide Less, Data.KeyOk, Text, IsBlank, NextOrder;
    var source, vod := Text(sourceId).value, Text(vodId).value;
    var own := if IsBlank(id) then newId else id;
    var d := EnsureDefault(s, now);
    EnsureDefaultKeeps(s, now);
    ToggleKeeps(s, id, newId, sourceId, vodId, now);
    var once := Toggle(s, id, newId, sourceId, vodId, now).0;
    var f := Favorite(own, source, vod, DEFAULT, NextOrder(d.favorites, DEFAULT), now);
    PutKeepsOrder(d.favorites, own, f);
    EnsureDefaultKeeps(once, later);
    assert Entry(own, f) in once.favorites;
    TitleFound(once, Entry(own, f));
    DropPut(s.favorites, own, f);
  }

  lemma TitleFound(s: Store, e: Entry<Favorite>)
    requires Inv(s) && e in s.favorites
    ensures FindTitle(s.favorites, e.record.sourceId, e.record.vodId) == Some(e.record)
  {
    var r := FindTitle(s.favorites, e.record.sourceId, e.record.vodId);
    assert r.Some?;
    var d :| d in s.favorites && d.record == r.value;
    assert SameTitle(d.record, e.record);
  }

  // ------------------------------------------------------------------ two runs

  const A := Favorite("a", "s", "v", DEFAULT, 0, 0)
  const B := Favorite("b", "s", "w", DEFAULT, 1, 0)

  lemma PlainText(s: string)
    requires s != "" && !IsWhitespace(s[0]) && !IsWhitespace(s[|s| - 1])
    ensures Text(Some(s)) == Some(s)
  {
  }

  lemma ShortIdOk(id: string)
    requires 0 < |id| < 8 && !IsWhitespace(id[0])
    ensures CheckId(id) == Done && !IsBlank(id)
  {
    Data.ShortKeyOk(id, _ => false, Data.Null);
  }

  lemma RunOneMore(calls: seq<Call>, c: Call)
    ensures Run(calls + [c]) == Handle(Run(calls), c.action, c.now).0
  {
    assert (calls + [c])[..|calls|] == calls;
  }

  /** A title that is no favourite yet becomes one. */
  lemma ToggledOn(s: Store, id: string, source: string, vod: string)
    requires Inv(s) && CheckId(id) == Done && !IsBlank(id)
    requires Text(Some(source)) == Some(source) && Text(Some(vod)) == Some(vod)
    requires FindTitle(s.favorites, source, vod).None?
    ensures var (t, outcome) := Handle(s, ToggleAction(id, "n", Some(source), Some(vod)), 0);
            && outcome == Done && Find(t.groups, DEFAULT).Some?
            && t.favorites
               == Put(s.favorites, id, Favorite(id, source, vod, DEFAULT, NextOrder(s.favorites, DEFAULT), 0))
  {
    hide Inv, IsBlank, Text, CheckId, EnsureDefault, Put, FindTitle, NextOrder, Find;
    var a := ToggleAction(id, "n", Some(source), Some(vod));
    EnsureDefaultKeeps(s, 0);
    ActKeeps(s, a, 0);
    EnsureDefaultKeeps(Act(s, a, 0).0, 0);
  }

  /** The first favourite of all. */
  lemma FirstToggle() returns (calls: seq<Call>)
    ensures Run(calls).favorites == [Entry("a", A)]
    ensures Inv(Run(calls))
  {
    hide IsBlank, Text, CheckId, Run, Inv, Handle;
    calls := [] + [Call(ToggleAction("a", "n", Some("s"), Some("v")), 0)];
    RunNothing();
    RunOneMore([], calls[0]);
    EveryRunKeeps(calls);
    PlainText("s");
    PlainText("v");
    ShortIdOk("a");
    ToggledOn(EMPTY, "a", "s", "v");
  }

  lemma SecondToggle() returns (calls: seq<Call>)
    ensures Run(calls).favorites == [Entry("a", A), Entry("b", B)]
    ensures Inv(Run(calls))
  {
    hide IsBlank, Text, CheckId, Run, Inv, Handle;
    var before := FirstToggle();
    calls := before + [Call(ToggleAction("b", "n", Some("s"), Some("w")), 0)];
    RunOneMore(before, calls[|before|]);
    EveryRunKeeps(calls);
    PlainText("s");
    PlainText("w");
    ShortIdOk("b");
    var t := [Entry("a", A)];
    assert t[1..] == [];
    assert FindTitle(t, "s", "w").None? && NextOrder(t, DEFAULT) == 1;
    ToggledOn(Run(before), "b", "s", "w");
    assert Put([], "b", B) == [Entry("b", B)];
  }

  lemma TwoFavorites(t: Rows<Favorite>)
    requires t == [Entry("a", A), Entry("b", B)]
    ensures CountIn(t, DEFAULT) == 2 && Find(t, "a") == Some(A)
  {
    var rest := t[1..];
    assert rest == [Entry("b", B)];
    assert rest[1..] == [];
    assert CountIn(rest, DEFAULT) == 1;
  }

  /** A request that names one of two favourites twice is accepted on a store that two toggles
      made. */
  lemma RepeatedIdAccepted() returns (calls: seq<Call>)
    ensures Reorder(Run(calls), Some(DEFAULT), ["a", "a"]).1 == Done && !AllDistinct(["a", "a"])
  {
    hide IsBlank, Text, Run, Inv, Reorder;
    calls := SecondToggle();
    PlainText(DEFAULT);
    var t, ids := Run(calls).favorites, ["a", "a"];
    TwoFavorites(t);
    assert OrderAccepted(t, DEFAULT, ids);
    ReorderSucceedsIff(Run(calls), Some(DEFAULT), ids);
    assert ids[0] == ids[1];
  }

  /** An id in use is accepted for another title, whose two toggles then lose the first one. */
  lemma UsedIdAccepted() returns (calls: seq<Call>)
    ensures var s := Run(calls);
            && FindTitle(s.favorites, "s", "w").None? && Find(s.favorites, "a").Some?
            && Text(Some("s")) == Some("s") && Text(Some("w")) == Some("w") && !IsBlank("a")
            && Toggle(s, "a", "n", Some("s"), Some("w"), 0).1 == Done
            && var once := Toggle(s, "a", "n", Some("s"), Some("w"), 0).0;
               Toggle(once, "a", "n", Some("s"), Some("w"), 0).0.favorites != s.favorites
  {
    hide IsBlank, Text, CheckId, Run, Inv, EnsureDefault;
    calls := FirstToggle();
    PlainText("s");
    PlainText("w");
    ShortIdOk("a");
    var s := Run(calls);
    EnsureDefaultKeeps(s, 0);
    assert s.favorites[1..] == [];
    hide FindTitle, Find, Toggle;
    ToggleTwiceIff(s, "a", "n", Some("s"), Some("w"), 0, 0);
  }

  lemma RunNothing()
    ensures Run([]) == EMPTY && Inv(EMPTY)
  {
  }
}
