/** The favourites feature over its two tables, with the loops and transactions of the code.
    Each action is proved to be the function of the same name in `Favorites`; between actions
    the tables satisfy the invariant.

    The writes of a transaction go to a working copy, any of them and the commit may be refused
    by the storage, and the tables change only when all have succeeded. */
module FavoritesHost {
  import opened Options
  import opened TextOrder
  import opened KeyedTable
  import opened Favorites
  import opened FavoritesSafety
  import opened FavoritesSnapshot
  import opened FavoritesEffects
  import opened SortedLists
  import Data = BusinessData

  class Feature {
    var favorites: Rows<Favorite>
    var groups: Rows<Group>

    constructor ()
      ensures Valid() && Contents() == EMPTY
    {
      favorites, groups := [], [];
    }

    ghost function Contents(): Store
      reads this
    {
      Store(favorites, groups)
    }

    ghost predicate Valid()
      reads this
    {
      Inv(Contents())
    }

    /** Afterwards the default group exists; a group that is there is left alone. */
    method MakeDefaultGroup(now: int)
      requires Valid()
      modifies this`groups
      ensures Valid() && Contents() == EnsureDefault(old(Contents()), now)
      ensures Find(groups, DEFAULT).Some?
      ensures Find(old(groups), DEFAULT).None? ==>
                Find(groups, DEFAULT) == Some(Group("default", "默认收藏", 0, now))
      ensures forall id :: Find(old(groups), id).Some? ==> Find(groups, id) == Find(old(groups), id)
    {
      hide Inv, Find, Put;
      EnsureDefaultKeeps(Contents(), now);
      GroupsStay(Contents(), now);
      if Find(groups, DEFAULT).None? {
        groups := Put(groups, DEFAULT, Group(DEFAULT, DEFAULT_NAME, 0, now));
      }
    }

    /** A toggle that succeeds makes the title a favourite if it was none, behind all others of
        the default group, and no favourite if it was one; no other favourite changes. One that
        fails leaves the favourites as they were. */
    method ToggleFavorite(id: string, newId: string, sourceId: Option<string>, vodId: Option<string>, now: int)
      returns (r: Outcome)
      requires Valid()
      modifies this
      ensures Valid() && (Contents(), r) == Toggle(old(Contents()), id, newId, sourceId, vodId, now)
      ensures r == Done <==> Allowed(old(Contents()), ToggleAction(id, newId, sourceId, vodId))
      ensures r.Failed? ==>
                favorites == old(favorites)
                && FailsFor(old(Contents()), ToggleAction(id, newId, sourceId, vodId), r.error)
      ensures r == Done ==>
                Toggled(old(favorites), favorites, if IsBlank(id) then newId else id,
                        Text(sourceId).value, Text(vodId).value, now)
      ensures r == Done ==>
                (FindTitle(favorites, Text(sourceId).value, Text(vodId).value).Some?
                 <==> FindTitle(old(favorites), Text(sourceId).value, Text(vodId).value).None?)
      ensures Find(groups, DEFAULT).Some?
    {
      hide Inv, Find, Put, Drop, FindTitle, NextOrder, Data.KeyOk, IsBlank, Text, EnsureDefault, Toggled, FailsFor;
      ToggleKeeps(Contents(), id, newId, sourceId, vodId, now);
      RowActionsSucceedIff(Contents(), ToggleAction(id, newId, sourceId, vodId), now);
      ToggleFlips(Contents(), id, newId, sourceId, vodId, now);
      ToggleOutcome(Contents(), id, newId, sourceId, vodId, now);
      MakeDefaultGroup(now);
      var source := Text(sourceId);
      if source.None? {
        return Failed(SourceRequired);
      }
      var vod := Text(vodId);
      if vod.None? {
        return Failed(VodRequired);
      }
      var existing := FindTitle(favorites, source.value, vod.value);
      if existing.Some? {
        if !Data.KeyOk(existing.value.favoriteId) {
          return Failed(KeyInvalid);
        }
        favorites := Drop(favorites, existing.value.favoriteId);
        return Done;
      }
      var own := if IsBlank(id) then newId else id;
      var order := NextOrder(favorites, DEFAULT);
      r := CheckId(own);
      if r.Failed? {
        return;
      }
      favorites := Put(favorites, own, Favorite(own, source.value, vod.value, DEFAULT, order, now));
    }

    /** After a deletion no favourite has the id, and the others are untouched. */
    method DeleteFavorite(id: string) returns (r: Outcome)
      requires Valid()
      modifies this`favorites
      ensures Valid() && (Contents(), r) == Delete(old(Contents()), id)
      ensures r == if Data.KeyOk(id) then Done else Failed(KeyInvalid)
      ensures Find(favorites, id).None?
      ensures forall other :: other != id ==> Find(favorites, other) == Find(old(favorites), other)
    {
      hide Less, Put, Find, Data.KeyOk;
      DropFavoriteKeeps(Contents(), id);
      FoundHasKey(favorites, id);
      forall other ensures Find(Drop(favorites, id), other) == if other == id then None else Find(favorites, other) {
        FindAfterDrop(favorites, id, other);
      }
      if !Data.KeyOk(id) {
        return Failed(KeyInvalid);
      }
      favorites := Drop(favorites, id);
      r := Done;
    }

    /** A move succeeds exactly if favourite and group exist; it changes the group of this
        favourite and nothing else. */
    method MoveFavorite(id: string, groupId: Option<string>) returns (r: Outcome)
      requires Valid()
      modifies this`favorites
      ensures Valid() && (Contents(), r) == Move(old(Contents()), id, groupId)
      ensures r == Done
              <==> Text(groupId).Some? && Find(groups, Text(groupId).value).Some? && Find(old(favorites), id).Some?
      ensures r == Done ==> Find(favorites, id) == Some(Find(old(favorites), id).value.(groupId := Text(groupId).value))
      ensures r.Failed? ==> FailsFor(old(Contents()), MoveAction(id, groupId), r.error)
      ensures forall other :: other != id || r.Failed? ==> Find(favorites, other) == Find(old(favorites), other)
    {
      hide Less, Find, Put, Text, Data.KeyOk;
      MoveKeeps(Contents(), id, groupId);
      FoundHasKey(favorites, id);
      var group := Text(groupId);
      if group.None? {
        return Failed(GroupRequired);
      }
      FoundHasKey(groups, group.value);
      if !Data.KeyOk(group.value) {
        return Failed(KeyInvalid);
      }
      if Find(groups, group.value).None? {
        return Failed(GroupNotFound);
      }
      if !Data.KeyOk(id) {
        return Failed(KeyInvalid);
      }
      var favorite := Find(favorites, id);
      if favorite.None? {
        return Failed(FavoriteNotFound);
      }
      var moved := favorite.value.(groupId := group.value);
      forall other
        ensures Find(Put(favorites, id, moved), other) == if other == id then Some(moved) else Find(favorites, other)
      {
        FindAfterPut(favorites, id, moved, other);
      }
      favorites := Put(favorites, id, moved);
      r := Done;
    }

    /** A new group is listed behind all others, and none of these changes but one whose id it
        was given. */
    method AddGroup(id: string, newId: string, name: Option<string>, now: int) returns (r: Outcome)
      requires Valid()
      modifies this`groups
      ensures Valid() && (Contents(), r) == CreateGroup(old(Contents()), id, newId, name, now)
      ensures r == Done <==> Allowed(old(Contents()), CreateGroupAction(id, newId, name))
      ensures r.Failed? ==> groups == old(groups)
      ensures r.Failed? ==> FailsFor(old(Contents()), CreateGroupAction(id, newId, name), r.error)
      ensures r == Done ==>
                GroupAdded(old(groups), groups, if IsBlank(id) then newId else id, Text(name).value, now)
      ensures r == Done ==>
                var own := if IsBlank(id) then newId else id;
                forall e :: e in groups && e.id != own ==> GroupLess(e.record, Find(groups, own).value)
    {
      hide Inv, Less, Find, Put, Text, Data.KeyOk, IsBlank, NextGroupOrder, NameTaken, GroupAdded, FailsFor;
      RowActionsSucceedIff(Contents(), CreateGroupAction(id, newId, name), now);
      CreateGroupAppends(Contents(), id, newId, name, now);
      CreateGroupOutcome(Contents(), id, newId, name, now);
      var text := Text(name);
      if text.None? {
        return Failed(NameRequired);
      }
      if NameTaken(groups, text.value) {
        return Failed(GroupExists);
      }
      var own := if IsBlank(id) then newId else id;
      r := CheckId(own);
      if r.Failed? {
        return;
      }
      groups := Put(groups, own, Group(own, text.value, NextGroupOrder(groups), now));
    }

    /** Renaming changes the name of the group alone. */
    method NameGroup(id: string, name: Option<string>) returns (r: Outcome)
      requires Valid()
      modifies this`groups
      ensures Valid() && (Contents(), r) == RenameGroup(old(Contents()), id, name)
      ensures r == Done <==> Allowed(old(Contents()), RenameGroupAction(id, name))
      ensures r == Done ==> Renamed(old(Contents()), Contents(), id, Text(name).value)
      ensures r.Failed? ==> groups == old(groups) && FailsFor(old(Contents()), RenameGroupAction(id, name), r.error)
    {
      hide Inv, Less, Find, Put, Text, Data.KeyOk, IsBlank, Renamed, FailsFor;
      RowActionsSucceedIff(Contents(), RenameGroupAction(id, name), 0);
      RenameKeeps(Contents(), id, name);
      RenameOutcome(Contents(), id, name);
      if IsBlank(id) {
        return Failed(IdRequired);
      }
      if id == DEFAULT {
        return Failed(DefaultGroupProtected);
      }
      if !Data.KeyOk(id) {
        return Failed(KeyInvalid);
      }
      var group := Find(groups, id);
      if group.None? {
        return Failed(GroupNotFound);
      }
      var text := Text(name);
      if text.None? {
        return Failed(NameRequired);
      }
      groups := Put(groups, id, group.value.(name := text.value));
      r := Done;
    }

    /** All positions are written or none: `refused` tells which writes the storage refuses. */
    method ReorderFavorites(groupId: Option<string>, ids: seq<string>, refused: nat -> bool, commitRefused: bool)
      returns (r: Outcome)
      requires Valid()
      modifies this`favorites
      ensures Valid()
      ensures r == Done
              <==> Allowed(old(Contents()), ReorderAction(groupId, ids)) && !commitRefused
                   && forall n :: 0 <= n < |ids| ==> !refused(n)
      ensures r == Done ==> (Contents(), r) == Reorder(old(Contents()), groupId, ids)
      ensures r.Failed? ==>
                favorites == old(favorites)
                && (r.error == StorageFailed || FailsFor(old(Contents()), ReorderAction(groupId, ids), r.error))
    {
      hide Inv, Less, Find, Put, Text, Data.KeyOk, IsBlank;
      ReorderSucceedsIff(Contents(), groupId, ids);
      ActKeeps(Contents(), ReorderAction(groupId, ids), 0);
      var group := Text(groupId);
      if group.None? {
        return Failed(GroupRequired);
      }
      if !OrderAccepted(favorites, group.value, ids) {
        return Failed(SortInvalid);
      }
      var working := favorites;
      for index := 0 to |ids|
        invariant favorites == old(favorites) && WriteOrder(favorites, favorites, ids, index) == (working, Done)
        invariant forall n :: 0 <= n < index ==> !refused(n)
      {
        var id := ids[index];
        r := CheckId(id);
        if r.Failed? {
          // no row of a valid table has an id that a write refuses
          WriteOrderStopped(favorites, ids, index + 1, |ids|);
          assert false;
        }
        if refused(index) {
          return Failed(StorageFailed);
        }
        working := Put(working, id, Find(favorites, id).value.(sortOrder := index));
      }
      if commitRefused {
        return Failed(StorageFailed);
      }
      favorites := working;
      r := Done;
    }

    /** All groups get their positions or none does. */
    method OrderGroups(ids: seq<string>, refused: nat -> bool, commitRefused: bool) returns (r: Outcome)
      requires Valid()
      modifies this`groups
      ensures Valid()
      ensures r == Done
              <==> GroupOrderAccepted(old(groups), ids) && !commitRefused && forall n :: 0 <= n < |ids| ==> !refused(n)
      ensures r == Done ==> (Contents(), r) == ReorderGroups(old(Contents()), ids)
      ensures r.Failed? ==> groups == old(groups) && (r.error == StorageFailed || r.error == GroupSortInvalid)
    {
      hide Inv, Less, Find, Put, Text, Data.KeyOk, IsBlank, GroupOrderAccepted;
      ReorderGroupsSucceedsIff(Contents(), ids);
      ActKeeps(Contents(), ReorderGroupsAction(ids), 0);
      if !GroupOrderAccepted(groups, ids) {
        return Failed(GroupSortInvalid);
      }
      var working := groups;
      for index := 0 to |ids|
        invariant groups == old(groups) && WriteGroupOrder(groups, ids, index) == (working, Done)
        invariant forall n :: 0 <= n < index ==> !refused(n)
      {
        var id := ids[index];
        var group := Find(working, id);
        r := if CheckId(id).Failed? then CheckId(id) else if group.None? then Failed(GroupSortInvalid) else Done;
        if r.Failed? {
          WriteGroupOrderStopped(groups, ids, index + 1, |ids|);
          assert false;
        }
        if refused(index) {
          return Failed(StorageFailed);
        }
        working := Put(working, id, group.value.(sortOrder := index));
      }
      if commitRefused {
        return Failed(StorageFailed);
      }
      groups := working;
      r := Done;
    }

    /** The group goes together with the disposal of its favourites, or nothing changes. The
        write for favourite `n` has number `n`, the removal of the group the last one. */
    method RemoveGroup(id: string, disposition: Option<string>, refused: nat -> bool, commitRefused: bool)
      returns (r: Outcome)
      requires Valid()
      modifies this
      ensures Valid()
      ensures r == Done
              <==> Allowed(old(Contents()), DeleteGroupAction(id, disposition)) && !commitRefused
                   && !refused(|old(favorites)|)
                   && forall n :: 0 <= n < |old(favorites)| && old(favorites)[n].record.groupId == id ==> !refused(n)
      ensures r == Done ==> (Contents(), r) == DeleteGroup(old(Contents()), id, disposition)
      ensures r.Failed? ==>
                Contents() == old(Contents())
                && (r.error == StorageFailed || FailsFor(old(Contents()), DeleteGroupAction(id, disposition), r.error))
    {
      hide Inv, Less, Find, Put, Drop, Text, Data.KeyOk, IsBlank, CountIn;
      DeleteGroupSucceedsIff(Contents(), id, disposition);
      if DeleteGroup(Contents(), id, disposition).1.Failed? {
        DeleteGroupError(Contents(), id, disposition);
      }
      ActKeeps(Contents(), DeleteGroupAction(id, disposition), 0);
      if IsBlank(id) {
        return Failed(IdRequired);
      }
      if id == DEFAULT {
        return Failed(DefaultGroupProtected);
      }
      if CountIn(favorites, id) > 0 && Text(disposition).None? {
        return Failed(DispositionRequired);
      }
      var delete := Text(disposition) == Some("delete");
      var working := favorites;
      for n := 0 to |favorites|
        invariant Contents() == old(Contents())
        invariant EmptyGroup(favorites, favorites, id, delete, n) == (working, Done)
        invariant forall m :: 0 <= m < n && favorites[m].record.groupId == id ==> !refused(m)
      {
        var f := favorites[n].record;
        if f.groupId != id {
          continue;
        }
        r := if delete then (if Data.KeyOk(f.favoriteId) then Done else Failed(KeyInvalid)) else CheckId(f.favoriteId);
        if r.Failed? {
          EmptyGroupStopped(favorites, id, delete, n + 1, |favorites|);
          return;
        }
        if refused(n) {
          return Failed(StorageFailed);
        }
        if delete {
          working := Drop(working, f.favoriteId);
        } else {
          working := Put(working, f.favoriteId, f.(groupId := DEFAULT));
        }
      }
      if !Data.KeyOk(id) {
        return Failed(KeyInvalid);
      }
      if refused(|favorites|) || commitRefused {
        return Failed(StorageFailed);
      }
      favorites := working;
      groups := Drop(groups, id);
      r := Done;
    }

    /** The items of the snapshot: the rows in id order, sorted stably. */
    method SnapshotItems() returns (items: seq<Favorite>)
      requires Valid()
      ensures Items(Contents(), items) && ListedInOrder(items)
    {
      FavoriteLessTransitive();
      items := [];
      for n := 0 to |favorites|
        invariant Ascending(items, FavoriteLess)
        invariant forall f :: f in items <==> exists i :: 0 <= i < n && favorites[i].record == f
      {
        var f := favorites[n].record;
        forall g | g in items ensures FavoriteLess(g, f) || FavoriteLess(f, g) {
          var i :| 0 <= i < n && favorites[i].record == g;
          assert favorites[i] in favorites && favorites[n] in favorites;
          RowsCompare(favorites[i], favorites[n]);
        }
        InsertAscends(items, f, FavoriteLess);
        items := Insert(items, f, FavoriteLess);
      }
      ItemsInOrder(Contents(), items);
    }

    /** The groups of the snapshot, each with the number of its items; together they count
        every item. */
    method SnapshotGroups(items: seq<Favorite>) returns (sorted: seq<Group>, counts: seq<nat>)
      requires Valid() && Items(Contents(), items)
      ensures Groups(Contents(), sorted) && GroupsInOrder(sorted) && |counts| == |sorted|
      ensures forall k :: 0 <= k < |sorted| ==> counts[k] == Count(items, sorted[k].groupId)
      ensures Sum(counts) == |items|
    {
      GroupLessTransitive();
      sorted := [];
      for n := 0 to |groups|
        invariant Ascending(sorted, GroupLess)
        invariant forall g :: g in sorted <==> exists i :: 0 <= i < n && groups[i].record == g
      {
        var g := groups[n].record;
        forall h | h in sorted ensures GroupLess(h, g) || GroupLess(g, h) {
          var i :| 0 <= i < n && groups[i].record == h;
          assert groups[i] in groups && groups[n] in groups;
          GroupRowsCompare(groups[i], groups[n]);
        }
        InsertAscends(sorted, g, GroupLess);
        sorted := Insert(sorted, g, GroupLess);
      }
      counts := [];
      for k := 0 to |sorted|
        invariant |counts| == k && forall j :: 0 <= j < k ==> counts[j] == Count(items, sorted[j].groupId)
      {
        counts := counts + [Count(items, sorted[k].groupId)];
      }
      GroupsAreInOrder(Contents(), sorted);
      ItemsCovered(Contents(), items, sorted);
      CountsSum(items, sorted, counts);
    }
  }

  function Sum(counts: seq<nat>): nat { if counts == [] then 0 else counts[0] + Sum(counts[1..]) }

  lemma {:induction false} CountsSum(items: seq<Favorite>, groups: seq<Group>, counts: seq<nat>)
    requires |counts| == |groups|
    requires forall k :: 0 <= k < |groups| ==> counts[k] == Count(items, groups[k].groupId)
    ensures Sum(counts) == CountSum(items, groups)
  {
    if groups != [] {
      CountsSum(items, groups[1..], counts[1..]);
    }
  }

  lemma GroupRowsCompare(a: Entry<Group>, b: Entry<Group>)
    requires a.record.groupId == a.id && b.record.groupId == b.id && Less(a.id, b.id)
    ensures GroupLess(a.record, b.record) || GroupLess(b.record, a.record)
  {
  }

  lemma GroupLessTransitive()
    ensures forall a, b, c :: GroupLess(a, b) && GroupLess(b, c) ==> GroupLess(a, c)
  {
    forall a, b, c | GroupLess(a, b) && GroupLess(b, c) ensures GroupLess(a, c) {
      if Less(a.groupId, b.groupId) && Less(b.groupId, c.groupId) {
        LessTransitive(a.groupId, b.groupId, c.groupId);
      }
    }
  }

  lemma RowsCompare(a: Entry<Favorite>, b: Entry<Favorite>)
    requires a.record.favoriteId == a.id && b.record.favoriteId == b.id && Less(a.id, b.id)
    ensures FavoriteLess(a.record, b.record) || FavoriteLess(b.record, a.record)
  {
    LessTotal(a.record.groupId, b.record.groupId);
  }

  lemma FavoriteLessTransitive()
    ensures forall a, b, c :: FavoriteLess(a, b) && FavoriteLess(b, c) ==> FavoriteLess(a, c)
  {
    forall a, b, c | FavoriteLess(a, b) && FavoriteLess(b, c) ensures FavoriteLess(a, c) {
      if Less(a.groupId, b.groupId) && Less(b.groupId, c.groupId) {
        LessTransitive(a.groupId, b.groupId, c.groupId);
      }
      if Less(a.favoriteId, b.favoriteId) && Less(b.favoriteId, c.favoriteId) {
        LessTransitive(a.favoriteId, b.favoriteId, c.favoriteId);
      }
    }
  }

  lemma {:induction false} WriteOrderStopped(known: Rows<Favorite>, ids: seq<string>, n: nat, m: nat)
    requires n <= m <= |ids| && forall k :: 0 <= k < |ids| ==> Find(known, ids[k]).Some?
    requires WriteOrder(known, known, ids, n).1.Failed?
    ensures WriteOrder(known, known, ids, m).1 == WriteOrder(known, known, ids, n).1
    decreases m - n
  {
    if n < m {
      WriteOrderStopped(known, ids, n, m - 1);
    }
  }

  lemma {:induction false} WriteGroupOrderStopped(known: Rows<Group>, ids: seq<string>, n: nat, m: nat)
    requires n <= m <= |ids| && WriteGroupOrder(known, ids, n).1.Failed?
    ensures WriteGroupOrder(known, ids, m).1 == WriteGroupOrder(known, ids, n).1
    decreases m - n
  {
    if n < m {
      WriteGroupOrderStopped(known, ids, n, m - 1);
    }
  }

  lemma {:induction false} EmptyGroupStopped(known: Rows<Favorite>, id: string, delete: bool, n: nat, m: nat)
    requires n <= m <= |known| && EmptyGroup(known, known, id, delete, n).1.Failed?
    ensures EmptyGroup(known, known, id, delete, m).1 == EmptyGroup(known, known, id, delete, n).1
    decreases m - n
  {
    if n < m {
      EmptyGroupStopped(known, id, delete, n, m - 1);
    }
  }

  lemma GroupsStay(s: Store, now: int)
    requires Inv(s)
    ensures forall id :: Find(s.groups, id).Some? ==> Find(EnsureDefault(s, now).groups, id) == Find(s.groups, id)
    ensures Find(s.groups, DEFAULT).None? ==>
              Find(EnsureDefault(s, now).groups, DEFAULT) == Some(Group("default", "默认收藏", 0, now))
  {
    hide Less, Find, Put;
    PutAlike(s.groups, DEFAULT, Group(DEFAULT, DEFAULT_NAME, 0, now));
    forall id | Find(s.groups, id).Some? ensures Find(EnsureDefault(s, now).groups, id) == Find(s.groups, id) {
      FindAfterPut(s.groups, DEFAULT, Group(DEFAULT, DEFAULT_NAME, 0, now), id);
    }
  }

  lemma ToggleFlips(s: Store, id: string, newId: string, sourceId: Option<string>, vodId: Option<string>, now: int)
    requires Inv(s)
    ensures Toggle(s, id, newId, sourceId, vodId, now).1 == Done ==>
              && Text(sourceId).Some? && Text(vodId).Some?
              && (FindTitle(Toggle(s, id, newId, sourceId, vodId, now).0.favorites,
                            Text(sourceId).value, Text(vodId).value).Some?
                  <==> FindTitle(s.favorites, Text(sourceId).value, Text(vodId).value).None?)
  {
    hide Less, Find, Text, IsBlank, Data.KeyOk, FindTitle;
    if Toggle(s, id, newId, sourceId, vodId, now).1.Failed? {
      return;
    }
    var source, vod := Text(sourceId).value, Text(vodId).value;
    var d, t := EnsureDefault(s, now), Toggle(s, id, newId, sourceId, vodId, now).0;
    EnsureDefaultKeeps(s, now);
    var known := FindTitle(s.favorites, source, vod);
    if known.Some? {
      DropKeepsOrder(s.favorites, known.value.favoriteId);
    } else {
      var own := if IsBlank(id) then newId else id;
      var f := Favorite(own, source, vod, DEFAULT, NextOrder(d.favorites, DEFAULT), now);
      PutKeepsOrder(s.favorites, own, f);
      assert Entry(own, f) in t.favorites;
    }
  }

  lemma CreateGroupAppends(s: Store, id: string, newId: string, name: Option<string>, now: int)
    requires Inv(s)
    ensures Inv(CreateGroup(s, id, newId, name, now).0)
    ensures CreateGroup(s, id, newId, name, now).1 == Done ==>
              var t, own := CreateGroup(s, id, newId, name, now).0.groups, if IsBlank(id) then newId else id;
              && Find(t, own).Some? && Find(t, own).value.name == Text(name).value
              && (forall other :: other != own ==> Find(t, other) == Find(s.groups, other))
              && (forall e :: e in t && e.id != own ==> GroupLess(e.record, Find(t, own).value))
  {
    hide Less, Find, Put, Text, Data.KeyOk, IsBlank, NextGroupOrder, NameTaken;
    ActKeeps(s, CreateGroupAction(id, newId, name), now);
    if CreateGroup(s, id, newId, name, now).1 == Done {
      var own := if IsBlank(id) then newId else id;
      var g := Group(own, Text(name).value, NextGroupOrder(s.groups), now);
      PutKeepsOrder(s.groups, own, g);
      forall k ensures Find(Put(s.groups, own, g), k) == if k == own then Some(g) else Find(s.groups, k) {
        FindAfterPut(s.groups, own, g, k);
      }
      NextGroupOrderIs(s.groups);
    }
  }
}
