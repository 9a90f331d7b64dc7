/** What every run of favourites actions keeps, and that failures change nothing else. */
module FavoritesSafety {
  import opened Options
  import opened TextOrder
  import opened KeyedTable
  import opened Favorites
  import Data = BusinessData

  // ---------------------------------------------------------------- rewriting

  lemma {:induction false} PutAt<R(!new)>(t: Rows<R>, i: nat, r: R)
    requires Ordered(t) && i < |t|
    ensures Put(t, t[i].id, r) == t[i := Entry(t[i].id, r)]
  {
    hide Less;
    HeadIsLeast(t);
    if i == 0 {
      LessIrreflexive(t[0].id);
    } else {
      LessAsymmetric(t[0].id, t[i].id);
      PutAt(t[1..], i - 1, r);
    }
  }

  lemma {:induction false} FindAt<R(!new)>(t: Rows<R>, i: nat)
    requires Ordered(t) && i < |t|
    ensures Find(t, t[i].id) == Some(t[i].record)
  {
    assert t[i] == Entry(t[i].id, t[i].record) && t[i] in t;
    FindIff(t, t[i].id, t[i].record);
  }

  lemma IndexOfId<R(!new)>(t: Rows<R>, id: string) returns (i: nat)
    requires Ordered(t) && Find(t, id).Some?
    ensures i < |t| && t[i] == Entry(id, Find(t, id).value)
  {
    FindSome(t, id);
    i :| 0 <= i < |t| && t[i] == Entry(id, Find(t, id).value);
  }

  /** The last place of an id among the first `n`, -1 for none. */
  function LastIndex(ids: seq<string>, n: nat, id: string): (k: int)
    requires n <= |ids|
    ensures -1 <= k < n && (k >= 0 ==> ids[k] == id)
    ensures k < 0 ==> id !in ids[..n]
  {
    if n == 0 then -1
    else if ids[n - 1] == id then n - 1
    else
      assert ids[..n] == ids[..n - 1] + [ids[n - 1]];
      LastIndex(ids, n - 1, id)
  }

  function Placed(e: Entry<Favorite>, ids: seq<string>, n: nat): Entry<Favorite>
    requires n <= |ids|
  {
    var k := LastIndex(ids, n, e.id);
    if k < 0 then e else Entry(e.id, e.record.(sortOrder := k))
  }

  /** The rows with their new positions: everything but the sort order stays. */
  function PlacedRows(t: Rows<Favorite>, ids: seq<string>, n: nat): Rows<Favorite>
    requires n <= |ids|
  {
    seq(|t|, i requires 0 <= i < |t| => Placed(t[i], ids, n))
  }

  lemma PlacedRowsOrdered(t: Rows<Favorite>, ids: seq<string>, n: nat)
    requires Ordered(t) && n <= |ids|
    ensures Ordered(PlacedRows(t, ids, n))
  {
    hide Less, LastIndex;
  }

  /** Writing the order never fails once the ids are accepted, and changes sort orders only. */
  lemma {:induction false} WriteOrderIs(t: Rows<Favorite>, ids: seq<string>, n: nat)
    requires Ordered(t) && n <= |ids| && (forall k :: 0 <= k < |ids| ==> Find(t, ids[k]).Some?)
    requires forall e :: e in t ==> CheckId(e.id) == Done
    ensures WriteOrder(t, t, ids, n) == (PlacedRows(t, ids, n), Done)
  {
    hide CheckId, Less;
    if n == 0 {
      assert PlacedRows(t, ids, 0) == t;
    } else {
      WriteOrderIs(t, ids, n - 1);
      var before := PlacedRows(t, ids, n - 1);
      var id := ids[n - 1];
      var i := IndexOfId(t, id);
      assert t[i] in t;
      PlacedRowsOrdered(t, ids, n - 1);
      PutAt(before, i, t[i].record.(sortOrder := n - 1));
      forall j | 0 <= j < |t| && j != i ensures Placed(t[j], ids, n) == Placed(t[j], ids, n - 1) {
        if t[j].id == id {
          LessIrreflexive(id);
        }
      }
      assert before[i := Entry(id, t[i].record.(sortOrder := n - 1))] == PlacedRows(t, ids, n);
    }
  }

  function PlacedGroup(e: Entry<Group>, ids: seq<string>, n: nat): Entry<Group>
    requires n <= |ids|
  {
    var k := LastIndex(ids, n, e.id);
    if k < 0 then e else Entry(e.id, e.record.(sortOrder := k))
  }

  function PlacedGroups(t: Rows<Group>, ids: seq<string>, n: nat): Rows<Group>
    requires n <= |ids|
  {
    seq(|t|, i requires 0 <= i < |t| => PlacedGroup(t[i], ids, n))
  }

  lemma PlacedGroupsOrdered(t: Rows<Group>, ids: seq<string>, n: nat)
    requires Ordered(t) && n <= |ids|
    ensures Ordered(PlacedGroups(t, ids, n))
  {
    hide Less, LastIndex;
  }

  lemma {:induction false} WriteGroupOrderIs(t: Rows<Group>, ids: seq<string>, n: nat)
    requires Ordered(t) && n <= |ids| && (forall k :: 0 <= k < |ids| ==> Find(t, ids[k]).Some?)
    requires forall e :: e in t ==> CheckId(e.id) == Done
    ensures WriteGroupOrder(t, ids, n) == (PlacedGroups(t, ids, n), Done)
  {
    hide CheckId, Less;
    if n == 0 {
      assert PlacedGroups(t, ids, 0) == t;
    } else {
      WriteGroupOrderIs(t, ids, n - 1);
      var before := PlacedGroups(t, ids, n - 1);
      var id := ids[n - 1];
      var i := IndexOfId(t, id);
      assert t[i] in t;
      PlacedGroupsOrdered(t, ids, n - 1);
      FindAt(before, i);
      PutAt(before, i, before[i].record.(sortOrder := n - 1));
      PlacedStep(t, ids, n, i);
    }
  }

  lemma PlacedStep(t: Rows<Group>, ids: seq<string>, n: nat, i: nat)
    requires Ordered(t) && 0 < n <= |ids| && i < |t| && t[i].id == ids[n - 1]
    ensures var before := PlacedGroups(t, ids, n - 1);
            before[i := Entry(ids[n - 1], before[i].record.(sortOrder := n - 1))] == PlacedGroups(t, ids, n)
  {
    hide Less;
    forall j | 0 <= j < |t| && j != i ensures PlacedGroup(t[j], ids, n) == PlacedGroup(t[j], ids, n - 1) {
      if t[j].id == ids[n - 1] {
        LessIrreflexive(ids[n - 1]);
      }
    }
  }

  // -------------------------------------------------------- emptying a group

  /** What becomes of a row once the loop has passed it. */
  predicate Became(r: Entry<Favorite>, passed: bool, id: string, delete: bool, e: Entry<Favorite>) {
    if passed && r.record.groupId == id
    then !delete && e == Entry(r.id, r.record.(groupId := DEFAULT))
    else e == r
  }

  ghost predicate Emptied(known: Rows<Favorite>, t: Rows<Favorite>, id: string, delete: bool, n: nat) {
    && Ordered(t)
    && forall e :: e in t <==> exists i :: 0 <= i < |known| && Became(known[i], i < n, id, delete, e)
  }

  lemma {:induction false} EmptyGroupIs(known: Rows<Favorite>, id: string, delete: bool, n: nat)
    requires Ordered(known) && n <= |known|
    requires forall e :: e in known ==> e.record.favoriteId == e.id && Data.KeyOk(e.id)
    ensures EmptyGroup(known, known, id, delete, n).1 == Done
    ensures Emptied(known, EmptyGroup(known, known, id, delete, n).0, id, delete, n)
  {
    hide Less, Data.KeyOk, IsBlank;
    if n == 0 {
      forall e ensures e in known <==> exists i :: 0 <= i < |known| && Became(known[i], i < 0, id, delete, e) {
        if e in known {
          var i :| 0 <= i < |known| && known[i] == e;
          assert Became(known[i], i < 0, id, delete, e);
        }
      }
    } else {
      EmptyGroupIs(known, id, delete, n - 1);
      var r := known[n - 1];
      assert r in known;
      KeyIsId(r.id);
      var before := EmptyGroup(known, known, id, delete, n - 1).0;
      var after := EmptyGroup(known, known, id, delete, n).0;
      if r.record.groupId == id {
        if delete {
          DropKeepsOrder(before, r.id);
        } else {
          PutKeepsOrder(before, r.id, r.record.(groupId := DEFAULT));
        }
      }
      EmptiedStep(known, before, after, id, delete, n);
    }
  }

  lemma KeyIsId(id: string)
    requires Data.KeyOk(id)
    ensures CheckId(id) == Done
  {
  }

  lemma EmptiedStep(
    known: Rows<Favorite>, before: Rows<Favorite>, after: Rows<Favorite>, id: string, delete: bool, n: nat)
    requires 0 < n <= |known| && Ordered(known) && Emptied(known, before, id, delete, n - 1) && Ordered(after)
    requires var r := known[n - 1];
             forall e :: e in after <==>
               if r.record.groupId != id then e in before
               else (e in before && e.id != r.id) || (!delete && e == Entry(r.id, r.record.(groupId := DEFAULT)))
    ensures Emptied(known, after, id, delete, n)
  {
    hide Ordered;
    var r := known[n - 1];
    forall e ensures e in after <==> exists i :: 0 <= i < |known| && Became(known[i], i < n, id, delete, e) {
      if e in after {
        if r.record.groupId == id && !delete && e == Entry(r.id, r.record.(groupId := DEFAULT)) {
          assert Became(known[n - 1], n - 1 < n, id, delete, e);
        } else {
          var i :| 0 <= i < |known| && Became(known[i], i < n - 1, id, delete, e);
          assert Became(known[i], i < n, id, delete, e);
        }
      }
      if i :| 0 <= i < |known| && Became(known[i], i < n, id, delete, e) {
        if i != n - 1 {
          DistinctIds(known, i, n - 1);
          assert Became(known[i], i < n - 1, id, delete, e);
        } else if r.record.groupId != id {
          assert Became(known[i], i < n - 1, id, delete, e);
        }
      }
    }
  }

  lemma DistinctIds(t: Rows<Favorite>, i: nat, j: nat)
    requires Ordered(t) && i < |t| && j < |t| && i != j
    ensures t[i].id != t[j].id
  {
    LessIrreflexive(t[i].id);
  }

  // ------------------------------------------------------------ the invariant

  lemma DefaultKeyOk()
    ensures CheckId(DEFAULT) == Done && Data.KeyOk(DEFAULT)
  {
    assert DEFAULT[0] == 'd';
    assert Utf8Length(DEFAULT) == 7;
  }

  lemma FindAfterPut<R(!new)>(t: Rows<R>, id: string, r: R, k: string)
    requires Ordered(t)
    ensures Find(Put(t, id, r), k) == if k == id then Some(r) else Find(t, k)
  {
    hide Less, Ordered;
    PutKeepsOrder(t, id, r);
    var u := Put(t, id, r);
    FindIff(u, id, r);
    FindSome(u, k);
    FindSome(t, k);
    if k != id && Find(u, k).Some? {
      FindIff(t, k, Find(u, k).value);
    }
  }

  lemma FindAfterDrop<R(!new)>(t: Rows<R>, id: string, k: string)
    requires Ordered(t)
    ensures Find(Drop(t, id), k) == if k == id then None else Find(t, k)
  {
    hide Less, Ordered;
    DropKeepsOrder(t, id);
    var u := Drop(t, id);
    FindSome(u, k);
    FindSome(t, k);
    if Find(u, k).Some? {
      FindIff(t, k, Find(u, k).value);
    }
  }

  /** Writing a group's row keeps everything. */
  lemma PutGroupKeeps(s: Store, id: string, g: Group)
    requires Inv(s) && g.groupId == id && Data.KeyOk(id)
    ensures Inv(s.(groups := Put(s.groups, id, g)))
  {
    hide Ordered, Data.KeyOk;
    PutKeepsOrder(s.groups, id, g);
    forall k ensures Find(s.groups, k).Some? ==> Find(Put(s.groups, id, g), k).Some? {
      FindAfterPut(s.groups, id, g, k);
    }
  }

  lemma EnsureDefaultKeeps(s: Store, now: int)
    requires Inv(s)
    ensures Inv(EnsureDefault(s, now)) && Find(EnsureDefault(s, now).groups, DEFAULT).Some?
    ensures EnsureDefault(s, now).favorites == s.favorites
  {
    hide Ordered, Data.KeyOk, CheckId;
    DefaultKeyOk();
    if Find(s.groups, DEFAULT).None? {
      PutGroupKeeps(s, DEFAULT, Group(DEFAULT, DEFAULT_NAME, 0, now));
      FindAfterPut(s.groups, DEFAULT, Group(DEFAULT, DEFAULT_NAME, 0, now), DEFAULT);
    }
  }

  /** Writing a favourite's row keeps everything when its group exists and no other row has
      its title. */
  lemma PutFavoriteKeeps(s: Store, id: string, f: Favorite)
    requires Inv(s) && f.favoriteId == id && Data.KeyOk(id)
    requires Find(s.groups, f.groupId).Some? && Find(s.groups, DEFAULT).Some?
    requires forall e :: e in s.favorites && e.id != id ==> !SameTitle(e.record, f)
    ensures Inv(s.(favorites := Put(s.favorites, id, f)))
  {
    hide Ordered, Data.KeyOk, Find;
    PutKeepsOrder(s.favorites, id, f);
  }

  lemma DropFavoriteKeeps(s: Store, id: string)
    requires Inv(s)
    ensures Inv(s.(favorites := Drop(s.favorites, id)))
  {
    hide Ordered, Data.KeyOk, Find;
    DropKeepsOrder(s.favorites, id);
    assert forall e :: e in Drop(s.favorites, id) ==> e in s.favorites;
    if Drop(s.favorites, id) != [] {
      assert Drop(s.favorites, id)[0] in s.favorites;
    }
  }

  lemma ToggleKeeps(s: Store, id: string, newId: string, sourceId: Option<string>, vodId: Option<string>, now: int)
    requires Inv(s)
    ensures Inv(Toggle(s, id, newId, sourceId, vodId, now).0)
  {
    hide Inv, Data.KeyOk, NextOrder, Text, IsBlank, Find;
    var d := EnsureDefault(s, now);
    EnsureDefaultKeeps(s, now);
    if Text(sourceId).Some? && Text(vodId).Some? {
      var source, vod := Text(sourceId).value, Text(vodId).value;
      match FindTitle(d.favorites, source, vod)
      case Some(f) => DropFavoriteKeeps(d, f.favoriteId);
      case None =>
        var own := if IsBlank(id) then newId else id;
        if CheckId(own) == Done {
          PutFavoriteKeeps(d, own, Favorite(own, source, vod, DEFAULT, NextOrder(d.favorites, DEFAULT), now));
        }
    }
  }

  lemma MoveKeeps(s: Store, id: string, groupId: Option<string>)
    requires Inv(s)
    ensures Inv(Move(s, id, groupId).0)
  {
    hide Ordered, Data.KeyOk, Text;
    if Text(groupId).Some? && Find(s.groups, Text(groupId).value).Some? && Find(s.favorites, id).Some? {
      var f := Find(s.favorites, id).value;
      FindSome(s.favorites, id);
      PutFavoriteKeeps(s, id, f.(groupId := Text(groupId).value));
    }
  }

  /** Row `e` is a favourite of the store, perhaps with another group or position. */
  ghost predicate StillThere(s: Store, e: Entry<Favorite>) {
    exists r :: r in s.favorites && r.id == e.id && e.record.favoriteId == r.id && SameTitle(r.record, e.record)
  }

  /** A table of such rows keeps the invariant, if their groups exist. */
  lemma RewrittenKeeps(s: Store, t: Rows<Favorite>, groups: Rows<Group>)
    requires Inv(s) && Ordered(t) && Ordered(groups)
    requires forall e :: e in groups ==> e in s.groups
    requires forall e :: e in t ==> StillThere(s, e) && Find(groups, e.record.groupId).Some?
    requires Find(s.groups, DEFAULT).Some? ==> Find(groups, DEFAULT).Some?
    ensures Inv(Store(t, groups))
  {
    hide Ordered, Data.KeyOk, Find;
    if t != [] {
      assert t[0] in t && StillThere(s, t[0]);
    }
    forall d, e | d in t && e in t && SameTitle(d.record, e.record) ensures d == e {
      assert StillThere(s, d) && StillThere(s, e);
      var p :| p in s.favorites && p.id == d.id && SameTitle(p.record, d.record);
      var q :| q in s.favorites && q.id == e.id && SameTitle(q.record, e.record);
      assert SameTitle(p.record, q.record);
      OneRowPerId(t, d, e);
    }
    forall e | e in t ensures e.record.favoriteId == e.id && Data.KeyOk(e.id) {
      assert StillThere(s, e);
    }
  }

  /** Rows that change in their sort order only. */
  lemma PlacedKeeps(s: Store, ids: seq<string>)
    requires Inv(s)
    ensures Inv(s.(favorites := PlacedRows(s.favorites, ids, |ids|)))
  {
    hide Ordered, Data.KeyOk, Find;
    var t := PlacedRows(s.favorites, ids, |ids|);
    PlacedRowsOrdered(s.favorites, ids, |ids|);
    forall e | e in t ensures StillThere(s, e) && Find(s.groups, e.record.groupId).Some? {
      var i :| 0 <= i < |t| && t[i] == e;
      assert s.favorites[i] in s.favorites;
    }
    RewrittenKeeps(s, t, s.groups);
  }

  lemma ReorderIs(s: Store, groupId: Option<string>, ids: seq<string>)
    requires Inv(s) && Reorder(s, groupId, ids).1 == Done
    ensures Reorder(s, groupId, ids).0 == s.(favorites := PlacedRows(s.favorites, ids, |ids|))
    ensures Text(groupId).Some? && OrderAccepted(s.favorites, Text(groupId).value, ids)
  {
    hide Ordered, Data.KeyOk, IsBlank, Find, Text;
    forall e | e in s.favorites ensures CheckId(e.id) == Done {
      KeyIsId(e.id);
    }
    WriteOrderIs(s.favorites, ids, |ids|);
  }

  lemma ReorderGroupsIs(s: Store, ids: seq<string>)
    requires Inv(s) && ReorderGroups(s, ids).1 == Done
    ensures ReorderGroups(s, ids).0 == s.(groups := PlacedGroups(s.groups, ids, |ids|))
    ensures GroupOrderAccepted(s.groups, ids)
  {
    hide Ordered, Data.KeyOk, IsBlank;
    forall e | e in s.groups ensures CheckId(e.id) == Done {
      KeyIsId(e.id);
    }
    forall k | 0 <= k < |ids| ensures Find(s.groups, ids[k]).Some? {
      assert IsGroup(s.groups, ids[k]);
      FindSome(s.groups, ids[k]);
    }
    WriteGroupOrderIs(s.groups, ids, |ids|);
  }

  lemma PlacedGroupsKeeps(s: Store, ids: seq<string>)
    requires Inv(s)
    ensures Inv(s.(groups := PlacedGroups(s.groups, ids, |ids|)))
    ensures forall k :: Find(s.groups, k).Some? ==> Find(PlacedGroups(s.groups, ids, |ids|), k).Some?
  {
    hide Ordered, Data.KeyOk, Less;
    var t := PlacedGroups(s.groups, ids, |ids|);
    PlacedGroupsOrdered(s.groups, ids, |ids|);
    forall e | e in t ensures exists r :: r in s.groups && r.id == e.id && e.record.groupId == r.record.groupId {
      var i :| 0 <= i < |t| && t[i] == e;
      assert s.groups[i] in s.groups;
    }
    forall k | Find(s.groups, k).Some? ensures Find(t, k).Some? {
      var i := IndexOfId(s.groups, k);
      FindAt(t, i);
    }
  }

  lemma DeleteGroupKeeps(s: Store, id: string, disposition: Option<string>)
    requires Inv(s) && DeleteGroup(s, id, disposition).1 == Done
    ensures Inv(DeleteGroup(s, id, disposition).0)
  {
    hide Less, Data.KeyOk, Text, IsBlank, CountIn, EmptyGroup, Find;
    var delete := Text(disposition) == Some("delete");
    EmptyGroupIs(s.favorites, id, delete, |s.favorites|);
    var t := EmptyGroup(s.favorites, s.favorites, id, delete, |s.favorites|).0;
    DropKeepsOrder(s.groups, id);
    EmptiedKeeps(s, t, id, delete);
  }

  lemma EmptiedKeeps(s: Store, t: Rows<Favorite>, id: string, delete: bool)
    requires Inv(s) && id != DEFAULT && Emptied(s.favorites, t, id, delete, |s.favorites|)
    ensures Inv(Store(t, Drop(s.groups, id)))
  {
    hide Less, Data.KeyOk, Find, Ordered;
    DropKeepsOrder(s.groups, id);
    FindAfterDrop(s.groups, id, DEFAULT);
    forall e | e in t ensures StillThere(s, e) && Find(Drop(s.groups, id), e.record.groupId).Some? {
      var i :| 0 <= i < |s.favorites| && Became(s.favorites[i], i < |s.favorites|, id, delete, e);
      assert s.favorites[i] in s.favorites;
      FindAfterDrop(s.groups, id, e.record.groupId);
    }
    RewrittenKeeps(s, t, Drop(s.groups, id));
  }

  lemma ActKeeps(s: Store, a: Action, now: int)
    requires Inv(s)
    ensures Inv(Act(s, a, now).0)
  {
    hide Inv, Ordered, Data.KeyOk, Find, IsBlank, Text, EmptyGroup, WriteOrder, WriteGroupOrder, OrderAccepted,
      GroupOrderAccepted, NameTaken, CountIn, NextGroupOrder;
    match a
    case SnapshotAction =>
    case ToggleAction(id, newId, sourceId, vodId) => ToggleKeeps(s, id, newId, sourceId, vodId, now);
    case DeleteAction(id) => DropFavoriteKeeps(s, id);
    case MoveAction(id, groupId) => MoveKeeps(s, id, groupId);
    case ReorderAction(groupId, ids) =>
      if Reorder(s, groupId, ids).1 == Done {
        ReorderIs(s, groupId, ids);
        PlacedKeeps(s, ids);
      }
    case CreateGroupAction(id, newId, name) =>
      var own := if IsBlank(id) then newId else id;
      if Text(name).Some? && CheckId(own) == Done {
        PutGroupKeeps(s, own, Group(own, Text(name).value, NextGroupOrder(s.groups), now));
      }
    case RenameGroupAction(id, name) => RenameKeeps(s, id, name);
    case DeleteGroupAction(id, disposition) =>
      if DeleteGroup(s, id, disposition).1 == Done {
        DeleteGroupKeeps(s, id, disposition);
      }
    case ReorderGroupsAction(ids) =>
      if ReorderGroups(s, ids).1 == Done {
        ReorderGroupsIs(s, ids);
        PlacedGroupsKeeps(s, ids);
      }
  }

  lemma RenameKeeps(s: Store, id: string, name: Option<string>)
    requires Inv(s)
    ensures Inv(RenameGroup(s, id, name).0)
  {
    hide Ordered, Data.KeyOk, Text;
    if Find(s.groups, id).Some? && Text(name).Some? {
      FindSome(s.groups, id);
      PutGroupKeeps(s, id, Find(s.groups, id).value.(name := Text(name).value));
    }
  }

  /** Every run of actions from the empty store, failed ones included, keeps the invariant. */
  lemma {:induction false} EveryRunKeeps(calls: seq<Call>)
    ensures Inv(Run(calls))
  {
    hide Act, EnsureDefault;
    if calls != [] {
      var before, last := Run(calls[..|calls| - 1]), calls[|calls| - 1];
      EveryRunKeeps(calls[..|calls| - 1]);
      ActKeeps(before, last.action, last.now);
      EnsureDefaultKeeps(Act(before, last.action, last.now).0, last.now);
    }
  }
}
