/** What a favourites action that succeeds leaves in the two tables, row by row, and which
    error one that fails gives. */
module FavoritesEffects {
  import opened Options
  import opened TextOrder
  import opened KeyedTable
  import opened Favorites
  import opened FavoritesSafety
  import opened FavoritesSnapshot
  import Data = BusinessData

  // ------------------------------------------------------------------- requests

  /** A text of a request counts without the white space at its ends, and only if anything is
      left. */
  lemma TextIs(raw: Option<string>)
    ensures match Text(raw)
            case Some(t) => raw.Some? && t != "" && IsTrimmed(raw.value, t)
            case None => raw.None? || IsBlank(raw.value)
  {
    hide Trim, IsWhitespace;
    if raw.Some? {
      TrimIs(raw.value);
    }
  }

  // ---------------------------------------------------------------- positions

  /** `order` is 0 in an empty group, and else one behind the last of the group. */
  ghost predicate Behind(t: Rows<Favorite>, groupId: string, order: int) {
    && (forall e :: e in t && e.record.groupId == groupId ==> e.record.sortOrder < order)
    && if exists e :: e in t && e.record.groupId == groupId
       then exists e :: e in t && e.record.groupId == groupId && e.record.sortOrder == order - 1
       else order == 0
  }

  lemma {:induction false} NoneInIff(t: Rows<Favorite>, groupId: string)
    ensures NoneIn(t, groupId) <==> forall e :: e in t ==> e.record.groupId != groupId
  {
    if t != [] {
      NoneInIff(t[1..], groupId);
      assert t == [t[0]] + t[1..];
    }
  }

  lemma {:induction false} NextOrderIs(t: Rows<Favorite>, groupId: string)
    ensures Behind(t, groupId, NextOrder(t, groupId))
  {
    if t != [] {
      NoneInIff(t[1..], groupId);
      NextOrderIs(t[1..], groupId);
      assert t == [t[0]] + t[1..];
    }
  }

  ghost predicate LastGroup(t: Rows<Group>, order: int) {
    && (forall e :: e in t ==> e.record.sortOrder < order)
    && if t == [] then order == 1 else exists e :: e in t && e.record.sortOrder == order - 1
  }

  lemma {:induction false} NextGroupOrderIs(t: Rows<Group>)
    ensures LastGroup(t, NextGroupOrder(t))
  {
    if |t| == 1 {
      assert t[0] in t && forall e :: e in t ==> e == t[0];
    } else if t != [] {
      NextGroupOrderIs(t[1..]);
      assert t == [t[0]] + t[1..];
    }
  }

  lemma {:induction false} NameTakenIff(t: Rows<Group>, name: string)
    ensures NameTaken(t, name) <==> exists e :: e in t && e.record.name == name
  {
    if t != [] {
      NameTakenIff(t[1..], name);
      assert t == [t[0]] + t[1..];
    }
  }

  // ------------------------------------------------------------------- toggles

  /** Outside `id` the two tables are alike. */
  ghost predicate AlikeBut<R(!new)>(s: Rows<R>, t: Rows<R>, id: string) {
    forall k :: k != id ==> Find(t, k) == Find(s, k)
  }

  /** The title got a row of its own, under the id, in the default group and behind all of it. */
  ghost predicate Added(s: Rows<Favorite>, t: Rows<Favorite>, own: string, sourceId: string, vodId: string, now: int) {
    && AlikeBut(s, t, own) && Find(t, own).Some?
    && var f := Find(t, own).value;
       && f.favoriteId == own && f.sourceId == sourceId && f.vodId == vodId
       && f.groupId == "default" && f.addedAt == now && Behind(s, "default", f.sortOrder)
  }

  /** The one row of the title is gone. */
  ghost predicate Removed(s: Rows<Favorite>, t: Rows<Favorite>, sourceId: string, vodId: string) {
    exists e :: e in s && e.record.sourceId == sourceId && e.record.vodId == vodId
                && Find(t, e.id).None? && AlikeBut(s, t, e.id)
  }

  ghost predicate IsFavorite(t: Rows<Favorite>, sourceId: string, vodId: string) {
    exists e :: e in t && e.record.sourceId == sourceId && e.record.vodId == vodId
  }

  /** What toggling leaves of the favourites. */
  ghost predicate Toggled(s: Rows<Favorite>, t: Rows<Favorite>, own: string, sourceId: string, vodId: string,
                          now: int) {
    if IsFavorite(s, sourceId, vodId) then Removed(s, t, sourceId, vodId)
    else Added(s, t, own, sourceId, vodId, now)
  }

  lemma FindTitleIff(t: Rows<Favorite>, sourceId: string, vodId: string)
    ensures FindTitle(t, sourceId, vodId).Some? <==> IsFavorite(t, sourceId, vodId)
  {
    hide FindTitle;
    var found := FindTitle(t, sourceId, vodId);
  }

  lemma PutAlike<R(!new)>(t: Rows<R>, id: string, r: R)
    requires Ordered(t)
    ensures Find(Put(t, id, r), id) == Some(r) && AlikeBut(t, Put(t, id, r), id)
  {
    hide Put, Find, Ordered;
    forall k ensures Find(Put(t, id, r), k) == if k == id then Some(r) else Find(t, k) {
      FindAfterPut(t, id, r, k);
    }
  }

  lemma DropAlike<R(!new)>(t: Rows<R>, id: string)
    requires Ordered(t)
    ensures Find(Drop(t, id), id).None? && AlikeBut(t, Drop(t, id), id)
  {
    hide Drop, Find, Ordered;
    forall k ensures Find(Drop(t, id), k) == if k == id then None else Find(t, k) {
      FindAfterDrop(t, id, k);
    }
  }

  lemma ToggleWrites(s: Store, id: string, newId: string, sourceId: Option<string>, vodId: Option<string>, now: int)
    requires Inv(s) && Toggle(s, id, newId, sourceId, vodId, now).1 == Done
    ensures Text(sourceId).Some? && Text(vodId).Some?
    ensures Toggled(s.favorites, Toggle(s, id, newId, sourceId, vodId, now).0.favorites,
                    if IsBlank(id) then newId else id, Text(sourceId).value, Text(vodId).value, now)
  {
    hide Less, Ordered, Find, Put, Drop, Text, IsBlank, Data.KeyOk, FindTitle, NextOrder, Behind, CheckId, AlikeBut;
    var source, vod := Text(sourceId).value, Text(vodId).value;
    var known := FindTitle(s.favorites, source, vod);
    EnsureDefaultKeeps(s, now);
    FindTitleIff(s.favorites, source, vod);
    if known.Some? {
      var e :| e in s.favorites && e.record == known.value;
      DropAlike(s.favorites, e.id);
    } else {
      var own := if IsBlank(id) then newId else id;
      var order := NextOrder(s.favorites, DEFAULT);
      NextOrderIs(s.favorites, DEFAULT);
      PutAlike(s.favorites, own, Favorite(own, source, vod, DEFAULT, order, now));
    }
  }

  // ------------------------------------------------------------------ snapshots

  /** Of two favourites of a group the one with the lower position is listed first, of two with
      the same position the one added last. */
  ghost predicate ListedInOrder(items: seq<Favorite>) {
    forall i, j :: 0 <= i < j < |items| ==>
      && (items[i].groupId == items[j].groupId || Less(items[i].groupId, items[j].groupId))
      && (items[i].groupId == items[j].groupId ==> items[i].sortOrder <= items[j].sortOrder)
      && (items[i].groupId == items[j].groupId && items[i].sortOrder == items[j].sortOrder ==>
            items[i].addedAt >= items[j].addedAt)
  }

  lemma ItemsInOrder(s: Store, items: seq<Favorite>)
    requires Items(s, items)
    ensures ListedInOrder(items)
  {
    hide Less;
    forall i, j | 0 <= i < j < |items| ensures FavoriteLess(items[i], items[j]) {
    }
    LessNever();
  }

  lemma LessNever()
    ensures forall a :: !Less(a, a)
  {
    forall a ensures !Less(a, a) {
      LessIrreflexive(a);
    }
  }

  /** Of two groups the one with the lower position is listed first, of two with the same the
      older one. */
  ghost predicate GroupsInOrder(groups: seq<Group>) {
    forall i, j :: 0 <= i < j < |groups| ==>
      && groups[i].sortOrder <= groups[j].sortOrder
      && (groups[i].sortOrder == groups[j].sortOrder ==> groups[i].createdAt <= groups[j].createdAt)
  }

  lemma GroupsAreInOrder(s: Store, groups: seq<Group>)
    requires Groups(s, groups)
    ensures GroupsInOrder(groups)
  {
    hide Less;
    forall i, j | 0 <= i < j < |groups| ensures GroupLess(groups[i], groups[j]) {
    }
  }

  /** A title that becomes a favourite is listed behind all others of the default group. */
  lemma AddedIsLast(s: Store, id: string, newId: string, sourceId: Option<string>, vodId: Option<string>, now: int,
                    items: seq<Favorite>, i: nat, j: nat)
    requires Inv(s) && Toggle(s, id, newId, sourceId, vodId, now).1 == Done
    requires Text(sourceId).Some? && Text(vodId).Some?
    requires !IsFavorite(s.favorites, Text(sourceId).value, Text(vodId).value)
    requires Items(Toggle(s, id, newId, sourceId, vodId, now).0, items)
    requires i < |items| && j < |items| && i != j && items[i].groupId == "default"
    requires items[j].sourceId == Text(sourceId).value && items[j].vodId == Text(vodId).value
    ensures i < j && items[j].groupId == "default"
  {
    hide Less, Ordered, Text, IsBlank, Data.KeyOk, Toggle, Find, Behind, Items, AlikeBut;
    var own := if IsBlank(id) then newId else id;
    var t := Toggle(s, id, newId, sourceId, vodId, now).0;
    ToggleWrites(s, id, newId, sourceId, vodId, now);
    ToggleKeeps(s, id, newId, sourceId, vodId, now);
    var f := Find(t.favorites, own).value;
    var a := RowOf(t, items, i);
    var b := RowOf(t, items, j);
    FindSome(t.favorites, own);
    assert SameTitle(b.record, Entry(own, f).record) && b == Entry(own, f);
    assert a == Entry(a.id, a.record);
    FindIff(t.favorites, a.id, a.record);
    if a.id != own {
      BehindRow(s.favorites, t.favorites, own, a, f.sortOrder);
    }
    LaterIsBehind(t, items, i, j);
  }

  /** The row of a listed favourite. */
  lemma RowOf(s: Store, items: seq<Favorite>, i: nat) returns (e: Entry<Favorite>)
    requires Items(s, items) && i < |items|
    ensures e in s.favorites && e.record == items[i]
  {
    hide FavoriteLess;
    assert items[i] in items;
    var k :| 0 <= k < |s.favorites| && s.favorites[k].record == items[i];
    e := s.favorites[k];
  }

  lemma BehindRow(s: Rows<Favorite>, t: Rows<Favorite>, own: string, a: Entry<Favorite>, order: int)
    requires Ordered(t) && AlikeBut(s, t, own) && Behind(s, "default", order)
    requires a in t && a.id != own && a.record.groupId == "default"
    ensures a.record.sortOrder < order
  {
    hide Ordered;
    assert a == Entry(a.id, a.record);
    FindIff(t, a.id, a.record);
    FindSome(s, a.id);
  }

  lemma LaterIsBehind(s: Store, items: seq<Favorite>, i: nat, j: nat)
    requires Items(s, items) && i < |items| && j < |items| && i != j
    requires items[i].groupId == items[j].groupId && (items[i] == items[j] || items[i].sortOrder < items[j].sortOrder)
    ensures i < j && items[i] != items[j]
  {
    hide Less;
    LessNever();
    forall a, b | 0 <= a < b < |items| ensures FavoriteLess(items[a], items[b]) {
    }
  }

  /** The table has one more group, under the id, named as asked and behind all others. */
  ghost predicate GroupAdded(s: Rows<Group>, t: Rows<Group>, own: string, name: string, now: int) {
    && AlikeBut(s, t, own) && Find(t, own).Some?
    && var g := Find(t, own).value;
       g.groupId == own && g.name == name && g.createdAt == now && LastGroup(s, g.sortOrder)
  }

  lemma CreateGroupWrites(s: Store, id: string, newId: string, name: Option<string>, now: int)
    requires Inv(s) && CreateGroup(s, id, newId, name, now).1 == Done
    ensures Text(name).Some?
    ensures var t := CreateGroup(s, id, newId, name, now).0;
            t.favorites == s.favorites
            && GroupAdded(s.groups, t.groups, if IsBlank(id) then newId else id, Text(name).value, now)
  {
    hide Less, Ordered, Find, Put, Text, IsBlank, Data.KeyOk, NextGroupOrder, NameTaken, LastGroup, AlikeBut;
    var own := if IsBlank(id) then newId else id;
    NextGroupOrderIs(s.groups);
    PutAlike(s.groups, own, Group(own, Text(name).value, NextGroupOrder(s.groups), now));
  }

  /** The group has the new name, and nothing else changes. */
  ghost predicate Renamed(s: Store, t: Store, id: string, name: string) {
    && t.favorites == s.favorites && AlikeBut(s.groups, t.groups, id)
    && Find(s.groups, id).Some? && Find(t.groups, id).Some?
    && var (before, g) := (Find(s.groups, id).value, Find(t.groups, id).value);
       && g.name == name && g.groupId == before.groupId
       && g.sortOrder == before.sortOrder && g.createdAt == before.createdAt
  }

  lemma RenameGroupWrites(s: Store, id: string, name: Option<string>)
    requires Inv(s) && RenameGroup(s, id, name).1 == Done
    ensures Text(name).Some? && Renamed(s, RenameGroup(s, id, name).0, id, Text(name).value)
  {
    hide Less, Ordered, Find, Put, Text, IsBlank, Data.KeyOk, AlikeBut;
    PutAlike(s.groups, id, Find(s.groups, id).value.(name := Text(name).value));
  }

  /** Deleting a group touches no other group and makes no favourite. */
  lemma DeleteGroupLeaves(s: Store, id: string, disposition: Option<string>)
    requires Inv(s) && DeleteGroup(s, id, disposition).1 == Done
    ensures var t := DeleteGroup(s, id, disposition).0;
            && Find(t.groups, id).None? && AlikeBut(s.groups, t.groups, id)
            && forall e :: e in t.favorites ==> Find(s.favorites, e.id).Some?
  {
    hide Less, Data.KeyOk, Text, IsBlank, CountIn, EmptyGroup, Ordered, Find, AlikeBut;
    var delete := Text(disposition) == Some("delete");
    DropAlike(s.groups, id);
    EmptyGroupIs(s.favorites, id, delete, |s.favorites|);
    var t := DeleteGroup(s, id, disposition).0.favorites;
    forall e | e in t ensures Find(s.favorites, e.id).Some? {
      var i :| 0 <= i < |s.favorites| && Became(s.favorites[i], i < |s.favorites|, id, delete, e);
      FindAt(s.favorites, i);
    }
  }

  // -------------------------------------------------------------------- errors

  /** The first requirement of an action that is not met, in the order they are looked at. */
  ghost predicate FailsFor(s: Store, a: Action, error: Error) {
    match a
    case SnapshotAction => false
    case ToggleAction(id, newId, sourceId, vodId) =>
      var own := if IsBlank(id) then newId else id;
      if Text(sourceId).None? then error == SourceRequired
      else if Text(vodId).None? then error == VodRequired
      else if IsBlank(own) then error == IdRequired
      else error == KeyInvalid
    case DeleteAction(id) => error == KeyInvalid
    case MoveAction(id, groupId) =>
      if Text(groupId).None? then error == GroupRequired
      else if !Data.KeyOk(Text(groupId).value) then error == KeyInvalid
      else if Find(s.groups, Text(groupId).value).None? then error == GroupNotFound
      else if !Data.KeyOk(id) then error == KeyInvalid
      else error == FavoriteNotFound
    case ReorderAction(groupId, ids) => error == if Text(groupId).None? then GroupRequired else SortInvalid
    case CreateGroupAction(id, newId, name) =>
      var own := if IsBlank(id) then newId else id;
      if Text(name).None? then error == NameRequired
      else if exists e :: e in s.groups && e.record.name == Text(name).value then error == GroupExists
      else if IsBlank(own) then error == IdRequired
      else error == KeyInvalid
    case RenameGroupAction(id, name) =>
      if IsBlank(id) then error == IdRequired
      else if id == "default" then error == DefaultGroupProtected
      else if !Data.KeyOk(id) then error == KeyInvalid
      else if Find(s.groups, id).None? then error == GroupNotFound
      else error == NameRequired
    case DeleteGroupAction(id, disposition) =>
      if IsBlank(id) then error == IdRequired
      else if id == "default" then error == DefaultGroupProtected
      else if (exists e :: e in s.favorites && e.record.groupId == id) && Text(disposition).None?
      then error == DispositionRequired
      else error == KeyInvalid
    case ReorderGroupsAction(ids) => error == GroupSortInvalid
  }

  lemma {:induction false} CountInIff(t: Rows<Favorite>, groupId: string)
    ensures CountIn(t, groupId) > 0 <==> exists e :: e in t && e.record.groupId == groupId
  {
    if t != [] {
      CountInIff(t[1..], groupId);
      assert t == [t[0]] + t[1..];
    }
  }

  /** An action that is not allowed gives the error of its first unmet requirement. */
  lemma ErrorIs(s: Store, a: Action, now: int)
    requires Inv(s) && Act(s, a, now).1.Failed?
    ensures FailsFor(s, a, Act(s, a, now).1.error)
  {
    hide Inv, FailsFor, Toggle, Delete, Move, Reorder, CreateGroup, RenameGroup, DeleteGroup, ReorderGroups;
    match a
    case ReorderAction(groupId, ids) => ReorderError(s, groupId, ids);
    case ReorderGroupsAction(ids) => ReorderGroupsError(s, ids);
    case DeleteGroupAction(id, disposition) => DeleteGroupError(s, id, disposition);
    case _ => RowActionError(s, a, now);
  }

  lemma ReorderError(s: Store, groupId: Option<string>, ids: seq<string>)
    requires Inv(s) && Reorder(s, groupId, ids).1.Failed?
    ensures FailsFor(s, ReorderAction(groupId, ids), Reorder(s, groupId, ids).1.error)
  {
    hide Inv, OrderAccepted, WriteOrder, Text;
    ReorderSucceedsIff(s, groupId, ids);
  }

  lemma ReorderGroupsError(s: Store, ids: seq<string>)
    requires Inv(s) && ReorderGroups(s, ids).1.Failed?
    ensures FailsFor(s, ReorderGroupsAction(ids), ReorderGroups(s, ids).1.error)
  {
    hide Inv, GroupOrderAccepted, WriteGroupOrder;
    ReorderGroupsSucceedsIff(s, ids);
  }

  lemma DeleteGroupError(s: Store, id: string, disposition: Option<string>)
    requires Inv(s) && DeleteGroup(s, id, disposition).1.Failed?
    ensures FailsFor(s, DeleteGroupAction(id, disposition), DeleteGroup(s, id, disposition).1.error)
  {
    hide Less, Data.KeyOk, Text, IsBlank, CountIn, EmptyGroup, Find;
    CountInIff(s.favorites, id);
    EmptyGroupIs(s.favorites, id, Text(disposition) == Some("delete"), |s.favorites|);
  }

  lemma TitleHasKey(s: Store, sourceId: string, vodId: string)
    requires Inv(s)
    ensures FindTitle(s.favorites, sourceId, vodId).Some?
            ==> Data.KeyOk(FindTitle(s.favorites, sourceId, vodId).value.favoriteId)
  {
    hide FindTitle, Data.KeyOk, Ordered;
    var known := FindTitle(s.favorites, sourceId, vodId);
  }

  lemma RowActionError(s: Store, a: Action, now: int)
    requires Inv(s) && Act(s, a, now).1.Failed?
    requires !a.ReorderAction? && !a.ReorderGroupsAction? && !a.DeleteGroupAction?
    ensures FailsFor(s, a, Act(s, a, now).1.error)
  {
    hide Less, Ordered, Data.KeyOk, Text, IsBlank, Find, NextOrder, NextGroupOrder, NameTaken, CountIn, Put, Drop;
    match a
    case ToggleAction(id, newId, sourceId, vodId) =>
      EnsureDefaultKeeps(s, now);
      if Text(sourceId).Some? && Text(vodId).Some? {
        TitleHasKey(s, Text(sourceId).value, Text(vodId).value);
      }
    case CreateGroupAction(id, newId, name) =>
      if Text(name).Some? {
        NameTakenIff(s.groups, Text(name).value);
      }
    case _ =>
  }

  // --------------------------------------------------- both, action by action

  lemma ToggleOutcome(s: Store, id: string, newId: string, sourceId: Option<string>, vodId: Option<string>, now: int)
    requires Inv(s)
    ensures var (t, r) := Toggle(s, id, newId, sourceId, vodId, now);
            if r.Failed? then FailsFor(s, ToggleAction(id, newId, sourceId, vodId), r.error)
            else && Text(sourceId).Some? && Text(vodId).Some?
                 && Toggled(s.favorites, t.favorites, if IsBlank(id) then newId else id,
                            Text(sourceId).value, Text(vodId).value, now)
  {
    hide Inv, Toggle, FailsFor, Toggled, Text, IsBlank;
    if Toggle(s, id, newId, sourceId, vodId, now).1.Failed? {
      RowActionError(s, ToggleAction(id, newId, sourceId, vodId), now);
    } else {
      ToggleWrites(s, id, newId, sourceId, vodId, now);
    }
  }

  lemma CreateGroupOutcome(s: Store, id: string, newId: string, name: Option<string>, now: int)
    requires Inv(s)
    ensures var (t, r) := CreateGroup(s, id, newId, name, now);
            if r.Failed? then FailsFor(s, CreateGroupAction(id, newId, name), r.error)
            else && Text(name).Some?
                 && GroupAdded(s.groups, t.groups, if IsBlank(id) then newId else id, Text(name).value, now)
  {
    hide Inv, CreateGroup, FailsFor, GroupAdded, Text, IsBlank;
    if CreateGroup(s, id, newId, name, now).1.Failed? {
      RowActionError(s, CreateGroupAction(id, newId, name), now);
    } else {
      CreateGroupWrites(s, id, newId, name, now);
    }
  }

  lemma RenameOutcome(s: Store, id: string, name: Option<string>)
    requires Inv(s)
    ensures var (t, r) := RenameGroup(s, id, name);
            if r.Failed? then FailsFor(s, RenameGroupAction(id, name), r.error)
            else Text(name).Some? && Renamed(s, t, id, Text(name).value)
  {
    hide Inv, RenameGroup, FailsFor, Renamed, Text;
    if RenameGroup(s, id, name).1.Failed? {
      RowActionError(s, RenameGroupAction(id, name), 0);
    } else {
      RenameGroupWrites(s, id, name);
    }
  }
}
