/** Backing a table up and restoring it, and the database object. */
module BusinessBackup {
  import opened Options
  import opened TextOrder
  import opened BusinessData
  import opened BusinessRules

  // -------------------------------------------------- what a backup contains

  function RowField(t: Table, k: Key): Field
    requires k in t
  {
    Field(Name(k), t[k].value)
  }

  lemma {:induction false} BackupContents(t: Table, keys: seq<Key>, n: nat)
    requires Listing(t, keys) && n <= |keys| && forall k :: k in t ==> '/' !in k.0
    requires forall i :: 0 <= i < |keys| ==> keys[i] in t
    ensures Ascending(BackupFields(t, keys, n))
    ensures forall i :: 0 <= i < n ==> RowField(t, keys[i]) in BackupFields(t, keys, n)
    ensures forall f :: f in BackupFields(t, keys, n) ==> exists i :: 0 <= i < n && f == RowField(t, keys[i])
  {
    hide Listing, RowField;
    if n == 0 {
      assert BackupFields(t, keys, 0) == [];
    } else {
      BackupContents(t, keys, n - 1);
      BackupStep(t, keys, n - 1, n);
    }
  }

  lemma BackupStep(t: Table, keys: seq<Key>, n: nat, m: nat)
    requires Listing(t, keys) && n < m == n + 1 <= |keys| && forall k :: k in t ==> '/' !in k.0
    requires forall i :: 0 <= i < |keys| ==> keys[i] in t
    requires Ascending(BackupFields(t, keys, n))
    requires forall i :: 0 <= i < n ==> RowField(t, keys[i]) in BackupFields(t, keys, n)
    requires forall f :: f in BackupFields(t, keys, n) ==> exists i :: 0 <= i < n && f == RowField(t, keys[i])
    ensures Ascending(BackupFields(t, keys, m))
    ensures forall i :: 0 <= i < m ==> RowField(t, keys[i]) in BackupFields(t, keys, m)
    ensures forall f :: f in BackupFields(t, keys, m) ==> exists i :: 0 <= i < m && f == RowField(t, keys[i])
  {
    var before, k := BackupFields(t, keys, n), keys[n];
    var after := BackupFields(t, keys, m);
    InsertKeepsOrder(before, Name(k), t[k].value);
    forall i | 0 <= i < n ensures RowField(t, keys[i]) in after {
      SplitOnceName(keys[i]);
      SplitOnceName(k);
      KeysDiffer(t, keys, i, n);
    }
    forall f | f in after ensures exists i :: 0 <= i < m && f == RowField(t, keys[i]) {
      if f == RowField(t, k) {
      } else {
        var i :| 0 <= i < n && f == RowField(t, keys[i]);
      }
    }
  }

  lemma KeysDiffer(t: Table, keys: seq<Key>, i: nat, j: nat)
    requires Listing(t, keys) && i < j < |keys|
    ensures keys[i] != keys[j]
  {
    LessIrreflexive(keys[i].0);
    LessIrreflexive(keys[i].1);
  }

  /** The backup holds exactly one field for each row, named entity/id, with the row's value. */
  ghost predicate BacksUp(fields: seq<Field>, t: Table) {
    && Ascending(fields)
    && (forall k :: k in t ==> Field(Name(k), t[k].value) in fields)
    && (forall f :: f in fields ==> exists k: Key :: k in t && f == Field(Name(k), t[k].value))
  }

  lemma BackupIs(t: Table, keys: seq<Key>)
    requires Listing(t, keys) && (forall i :: 0 <= i < |keys| ==> keys[i] in t) && forall k :: k in t ==> '/' !in k.0
    ensures BacksUp(BackupFields(t, keys, |keys|), t)
  {
    assert forall i :: 0 <= i < |keys| ==> keys[i] in keys && keys[i] in t;
    BackupContents(t, keys, |keys|);
    var fields := BackupFields(t, keys, |keys|);
    forall k | k in t ensures Field(Name(k), t[k].value) in fields {
      assert k in keys;
      var i :| 0 <= i < |keys| && keys[i] == k;
    }
    forall f | f in fields ensures exists k: Key :: k in t && f == Field(Name(k), t[k].value) {
      var i :| 0 <= i < |keys| && f == Field(Name(keys[i]), t[keys[i]].value);
      assert keys[i] in t;
    }
  }

  // --------------------------------------------------- what a restore does

  /** A field that restores without error to the key `k`. */
  ghost predicate Restorable(f: Field, absolute: string -> bool) {
    var k := SplitOnce(f.key);
    k.Some? && KeyOk(k.value.0) && KeyOk(k.value.1) && Validate(k.value.0, f.value, absolute) == Done
  }

  /** The value that the fields hold under a key, in sanitised form. */
  ghost predicate Holds(fields: seq<Field>, k: Key, v: Json) {
    exists i :: 0 <= i < |fields| && SplitOnce(fields[i].key) == Some(k) && v == Sanitize(fields[i].value)
  }

  ghost predicate Names(fields: seq<Field>, k: Key) {
    exists i :: 0 <= i < |fields| && SplitOnce(fields[i].key) == Some(k)
  }

  lemma {:induction false} RestoreContents(t: Table, fields: seq<Field>, absolute: string -> bool)
    requires Ascending(fields) && forall f :: f in fields ==> Restorable(f, absolute)
    ensures var (u, outcome) := RestoreFields(t, fields, absolute);
            && outcome == Done
            && (forall k :: k in u <==> k in t || Names(fields, k))
            && (forall k :: k in u && Names(fields, k) ==>
                  Holds(fields, k, u[k].value) && u[k].sourceId == if k in t then t[k].sourceId else None)
            && (forall k :: k in t && !Names(fields, k) ==> u[k] == t[k])
    decreases |fields|
  {
    hide Validate, KeyOk, Sanitize;
    if fields != [] {
      var f, rest := fields[0], fields[1..];
      assert f in fields && Restorable(f, absolute);
      var k0 := SplitOnce(f.key).value;
      assert forall g :: g in rest ==> g in fields;
      var next := RestoreOne(t, f, absolute).0;
      RestoreContents(next, rest, absolute);
      forall k ensures Names(fields, k) <==> k == k0 || Names(rest, k) {
        NamesStep(fields, k);
      }
      if Names(rest, k0) {
        OneFieldPerKey(fields, k0);
      }
      forall k, v | Holds(rest, k, v) ensures Holds(fields, k, v) {
        var i :| 0 <= i < |rest| && SplitOnce(rest[i].key) == Some(k) && v == Sanitize(rest[i].value);
        assert fields[i + 1] == rest[i];
      }
    }
  }

  lemma NamesStep(fields: seq<Field>, k: Key)
    requires fields != []
    ensures Names(fields, k) <==> SplitOnce(fields[0].key) == Some(k) || Names(fields[1..], k)
  {
    if Names(fields, k) {
      var i :| 0 <= i < |fields| && SplitOnce(fields[i].key) == Some(k);
      if i > 0 {
        assert fields[1..][i - 1] == fields[i];
      }
    }
    if Names(fields[1..], k) {
      var i :| 0 <= i < |fields[1..]| && SplitOnce(fields[1..][i].key) == Some(k);
      assert fields[i + 1] == fields[1..][i];
    }
  }

  /** Ascending names are different names, so no key is written twice. */
  lemma OneFieldPerKey(fields: seq<Field>, k: Key)
    requires Ascending(fields) && fields != [] && SplitOnce(fields[0].key) == Some(k)
    ensures !Names(fields[1..], k)
  {
    if Names(fields[1..], k) {
      var i :| 0 <= i < |fields[1..]| && SplitOnce(fields[1..][i].key) == Some(k);
      assert fields[i + 1].key == Name(k) == fields[0].key;
      LessIrreflexive(fields[0].key);
    }
  }

  // -------------------------------------------------------------- round trip

  /** What the record columns say, apart from the source. */
  function Values(t: Table): map<Key, Json> { map k | k in t :: t[k].value }

  lemma BackupRestorable(t: Table, fields: seq<Field>, absolute: string -> bool)
    requires Stored(t, absolute) && BacksUp(fields, t) && forall k :: k in t ==> '/' !in k.0
    ensures forall f :: f in fields ==> Restorable(f, absolute)
    ensures forall k :: Names(fields, k) <==> k in t
    ensures forall k, v :: Holds(fields, k, v) && k in t ==> v == t[k].value
  {
    hide Validate, KeyOk, Clean, Sanitize;
    forall f | f in fields ensures Restorable(f, absolute) {
      var k: Key :| k in t && f == Field(Name(k), t[k].value);
      SplitOnceName(k);
    }
    forall k ensures Names(fields, k) <==> k in t {
      if k in t {
        SplitOnceName(k);
        var i :| 0 <= i < |fields| && fields[i] == Field(Name(k), t[k].value);
      }
      if Names(fields, k) {
        var i :| 0 <= i < |fields| && SplitOnce(fields[i].key) == Some(k);
        assert fields[i] in fields;
        var r: Key :| r in t && fields[i] == Field(Name(r), t[r].value);
        SplitOnceName(r);
      }
    }
    forall k, v | Holds(fields, k, v) && k in t ensures v == t[k].value {
      var i :| 0 <= i < |fields| && SplitOnce(fields[i].key) == Some(k) && v == Sanitize(fields[i].value);
      assert fields[i] in fields;
      var r: Key :| r in t && fields[i] == Field(Name(r), t[r].value);
      SplitOnceName(r);
      CleanUnchanged(t[k].value);
    }
  }

  /** A backup restores into an empty table as the same records. */
  lemma BackupIntoEmpty(t: Table, fields: seq<Field>, absolute: string -> bool)
    requires Stored(t, absolute) && BacksUp(fields, t) && forall k :: k in t ==> '/' !in k.0
    ensures var (u, outcome) := RestoreFields(map[], fields, absolute);
            outcome == Done && Values(u) == Values(t)
  {
    hide Restorable, Names, Holds, Stored, RestoreFields;
    BackupRestorable(t, fields, absolute);
    RestoreContents(map[], fields, absolute);
    var u := RestoreFields(map[], fields, absolute).0;
    assert forall k :: k in t ==> u[k].value == t[k].value;
  }

  /** Restored onto its own table, a backup changes nothing, sources included. */
  lemma BackupOntoSelf(t: Table, fields: seq<Field>, absolute: string -> bool)
    requires Stored(t, absolute) && BacksUp(fields, t) && forall k :: k in t ==> '/' !in k.0
    ensures RestoreFields(t, fields, absolute) == (t, Done)
  {
    hide Restorable, Names, Holds, Stored, RestoreFields;
    BackupRestorable(t, fields, absolute);
    RestoreContents(t, fields, absolute);
    var u := RestoreFields(t, fields, absolute).0;
    forall k | k in t ensures u[k] == t[k] {
      assert u[k].value == t[k].value && u[k].sourceId == t[k].sourceId;
    }
    assert u == t;
  }

  lemma {:induction false} RestoredKeysHaveNoSlash(t: Table, fields: seq<Field>, absolute: string -> bool)
    requires forall k :: k in t ==> '/' !in k.0
    ensures forall k :: k in RestoreFields(t, fields, absolute).0 ==> '/' !in k.0
    decreases |fields|
  {
    hide Validate, KeyOk;
    if fields != [] {
      var (next, outcome) := RestoreOne(t, fields[0], absolute);
      if outcome.Done? {
        RestoredKeysHaveNoSlash(next, fields[1..], absolute);
      }
    }
  }

  /** A restore succeeds exactly when every field could be written alone. */
  lemma {:induction false} RestoreSucceedsIff(t: Table, fields: seq<Field>, absolute: string -> bool)
    ensures RestoreFields(t, fields, absolute).1 == Done <==> forall f :: f in fields ==> Restorable(f, absolute)
    decreases |fields|
  {
    hide RestoreOne, Restorable;
    if fields != [] {
      assert fields == [fields[0]] + fields[1..];
      OneSucceedsIff(t, fields[0], absolute);
      RestoreSucceedsIff(RestoreOne(t, fields[0], absolute).0, fields[1..], absolute);
    }
  }

  lemma OneSucceedsIff(t: Table, f: Field, absolute: string -> bool)
    ensures RestoreOne(t, f, absolute).1 == Done <==> Restorable(f, absolute)
  {
    hide Validate, KeyOk, Sanitize;
  }

  /** The row that a field is written to already holds its value. */
  ghost predicate AlreadyThere(t: Table, f: Field) {
    var k := SplitOnce(f.key);
    k.Some? && k.value in t && t[k.value].value == Sanitize(f.value)
  }

  /** A restore succeeds and changes nothing exactly when every field can be written and its
      value is already there. */
  lemma RestoreChangesNothingIff(t: Table, fields: seq<Field>, absolute: string -> bool)
    requires Ascending(fields)
    ensures RestoreFields(t, fields, absolute) == (t, Done)
            <==> forall f :: f in fields ==> Restorable(f, absolute) && AlreadyThere(t, f)
  {
    hide Validate, KeyOk, RestoreFields, Ascending;
    RestoreSucceedsIff(t, fields, absolute);
    var (u, outcome) := RestoreFields(t, fields, absolute);
    if outcome == Done {
      RestoreContents(t, fields, absolute);
      if u == t {
        forall f | f in fields ensures AlreadyThere(t, f) {
          HeldOnce(t, fields, f);
        }
      }
      if forall f :: f in fields ==> AlreadyThere(t, f) {
        forall k | k in u ensures k in t && u[k] == t[k] {
          if Names(fields, k) {
            var i :| 0 <= i < |fields| && SplitOnce(fields[i].key) == Some(k)
                     && u[k].value == Sanitize(fields[i].value);
            assert fields[i] in fields;
          }
        }
        assert u == t;
      }
    }
  }

  /** A restored row that is named by a field holds the value of that field. */
  lemma HeldOnce(t: Table, fields: seq<Field>, f: Field)
    requires Ascending(fields) && f in fields && SplitOnce(f.key).Some?
    requires forall k :: Names(fields, k) ==> k in t && Holds(fields, k, t[k].value)
    ensures AlreadyThere(t, f)
  {
    var n :| 0 <= n < |fields| && fields[n] == f;
    var k := SplitOnce(f.key).value;
    assert Names(fields, k);
    var i :| 0 <= i < |fields| && SplitOnce(fields[i].key) == Some(k) && t[k].value == Sanitize(fields[i].value);
    assert fields[i].key == Name(k) == f.key;
    LessIrreflexive(f.key);
  }

  lemma {:induction false} FieldsAreRows(t: Table, keys: seq<Key>, n: nat)
    requires n <= |keys| && forall i :: 0 <= i < |keys| ==> keys[i] in t
    ensures Ascending(BackupFields(t, keys, n))
    ensures forall f :: f in BackupFields(t, keys, n) ==> exists k :: k in t && f == Field(Name(k), t[k].value)
  {
    hide Ascending, Name, Insert;
    if n == 0 {
      assert Ascending([]) by { NothingAscends(); }
    } else {
      FieldsAreRows(t, keys, n - 1);
      InsertKeepsOrder(BackupFields(t, keys, n - 1), Name(keys[n - 1]), t[keys[n - 1]].value);
    }
  }

  lemma NothingAscends()
    ensures Ascending([])
  {
  }

  lemma NameSplits(k: Key)
    ensures SplitOnce(Name(k)).Some?
  {
    assert Name(k)[|k.0|] == '/';
  }

  lemma RowIsThereIff(t: Table, k: Key, absolute: string -> bool)
    requires Stored(t, absolute) && k in t
    ensures SplitOnce(Name(k)).Some?
    ensures var f, named := Field(Name(k), t[k].value), SplitOnce(Name(k)).value;
            Restorable(f, absolute) && AlreadyThere(t, f) <==> named in t && t[named].value == t[k].value
  {
    hide Validate, KeyOk, Clean, Sanitize;
    NameSplits(k);
    CleanUnchanged(t[k].value);
  }

  /** Restored onto its own table, a backup succeeds and changes nothing exactly when each of
      its fields names a row, by its first slash, that holds the value of the field; and so
      whenever no entity name holds a slash. */
  lemma BackupOntoSelfIff(t: Table, keys: seq<Key>, absolute: string -> bool)
    requires Stored(t, absolute) && Listing(t, keys) && forall i :: 0 <= i < |keys| ==> keys[i] in t
    ensures var fields := BackupFields(t, keys, |keys|);
            RestoreFields(t, fields, absolute) == (t, Done)
            <==> forall f :: f in fields ==>
                   SplitOnce(f.key).Some? && SplitOnce(f.key).value in t && t[SplitOnce(f.key).value].value == f.value
    ensures (forall k :: k in t ==> '/' !in k.0) ==>
              RestoreFields(t, BackupFields(t, keys, |keys|), absolute) == (t, Done)
  {
    hide RestoreFields, Stored, Restorable, AlreadyThere, SplitOnce, Name, Ascending, BackupFields, Listing;
    var fields := BackupFields(t, keys, |keys|);
    FieldsAreRows(t, keys, |keys|);
    RestoreChangesNothingIff(t, fields, absolute);
    forall f | f in fields
      ensures Restorable(f, absolute) && AlreadyThere(t, f)
              <==> SplitOnce(f.key).Some? && SplitOnce(f.key).value in t
                   && t[SplitOnce(f.key).value].value == f.value
    {
      var k :| k in t && f == Field(Name(k), t[k].value);
      RowIsThereIff(t, k, absolute);
    }
    if forall k :: k in t ==> '/' !in k.0 {
      BackupIs(t, keys);
      BackupOntoSelf(t, fields, absolute);
    }
  }

  /** Backing up and restoring gives the records back exactly when no entity name holds a
      slash: a backup key is cut at its first one. */
  lemma BackupRoundTripIff(t: Table, keys: seq<Key>, absolute: string -> bool)
    requires Stored(t, absolute) && Listing(t, keys) && forall i :: 0 <= i < |keys| ==> keys[i] in t
    ensures (var (u, outcome) := RestoreFields(map[], BackupFields(t, keys, |keys|), absolute);
             outcome == Done && Values(u) == Values(t))
            <==> forall k :: k in t ==> '/' !in k.0
  {
    var fields := BackupFields(t, keys, |keys|);
    var (u, outcome) := RestoreFields(map[], fields, absolute);
    if forall k :: k in t ==> '/' !in k.0 {
      BackupIs(t, keys);
      BackupIntoEmpty(t, fields, absolute);
    } else {
      RestoredKeysHaveNoSlash(map[], fields, absolute);
      var k :| k in t && '/' in k.0;
      assert k in Values(t) && k !in Values(u);
    }
  }

  /** The other side of it: a table that one write made, and that its backup does not give
      back, neither to an empty table nor to itself. */
  lemma SlashIsLost(absolute: string -> bool) returns (t: Table)
    ensures t == RunOperations([Write("a/b", "c", None, Null)], absolute) && Listing(t, [("a/b", "c")])
    ensures var fields := BackupFields(t, [("a/b", "c")], 1);
            && Values(RestoreFields(map[], fields, absolute).0) == map[("a", "b/c") := Null]
            && ("a", "b/c") !in t && ("a", "b/c") in RestoreFields(t, fields, absolute).0
  {
    hide Validate, KeyOk;
    var o := Write("a/b", "c", None, Null);
    ShortKeyOk("a/b", absolute, Null);
    ShortKeyOk("c", absolute, Null);
    ShortKeyOk("a", absolute, Null);
    ShortKeyOk("b/c", absolute, Null);
    assert [o][..0] == [];
    t := map[("a/b", "c") := Row(None, Null)];
    var f := Field("a/b/c", Null);
    assert Name(("a/b", "c")) == "a/b/c" == Name(("a", "b/c"));
    assert BackupFields(t, [("a/b", "c")], 1) == [f];
    SplitOnceName(("a", "b/c"));
    OneFieldRestores(map[], f, absolute);
    OneFieldRestores(t, f, absolute);
  }

  lemma OneFieldRestores(t: Table, f: Field, absolute: string -> bool)
    ensures RestoreFields(t, [f], absolute) == RestoreOne(t, f, absolute)
  {
    assert [f][1..] == [];
  }

  // -------------------------------------------------------------- every run

  datatype Operation =
    | Write(entity: string, id: string, sourceId: Option<string>, value: Json)
    | Delete(entity: string, id: string)
    | Load(backup: Json)

  function ApplyOperation(t: Table, o: Operation, absolute: string -> bool): Table {
    match o
    case Write(entity, id, sourceId, v) => Upsert(t, entity, id, sourceId, v, absolute).0
    case Delete(entity, id) => Remove(t, entity, id).0
    case Load(backup) => Restore(t, backup, absolute).0
  }

  function RunOperations(operations: seq<Operation>, absolute: string -> bool): Table {
    if operations == [] then map[]
    else ApplyOperation(RunOperations(operations[..|operations| - 1], absolute), operations[|operations| - 1], absolute)
  }

  lemma {:induction false} RestoreStores(t: Table, fields: seq<Field>, absolute: string -> bool)
    requires Stored(t, absolute)
    ensures Stored(RestoreFields(t, fields, absolute).0, absolute)
    decreases |fields|
  {
    hide Validate, KeyOk, Clean, Sanitize;
    if fields != [] {
      var f := fields[0];
      var (next, outcome) := RestoreOne(t, f, absolute);
      SanitizeCleans(f.value);
      var k := SplitOnce(f.key);
      if k.Some? && Validate(k.value.0, f.value, absolute) == Done {
        SanitizeKeepsValid(k.value.0, f.value, absolute);
      }
      RestoreStores(next, fields[1..], absolute);
    }
  }

  /** After any run of writes, deletions and restores, failed ones included, every record is
      valid, holds no credential at any depth, and has usable keys. */
  lemma {:induction false} EveryRunStores(operations: seq<Operation>, absolute: string -> bool)
    ensures Stored(RunOperations(operations, absolute), absolute)
  {
    hide Validate, KeyOk, Clean, Sanitize;
    if operations != [] {
      var before := RunOperations(operations[..|operations| - 1], absolute);
      EveryRunStores(operations[..|operations| - 1], absolute);
      match operations[|operations| - 1]
      case Write(entity, id, sourceId, v) => UpsertStores(before, entity, id, sourceId, v, absolute);
      case Delete(entity, id) =>
      case Load(backup) => if backup.Obj? { RestoreStores(before, backup.fields, absolute); }
    }
  }

  /** So what stands in the table is acceptable for its entity, and there is nothing behind a
      secret name in it, at any depth. */
  lemma EveryRowIsSound(operations: seq<Operation>, absolute: string -> bool, k: Key)
    requires k in RunOperations(operations, absolute)
    ensures SoundRow(k, RunOperations(operations, absolute)[k], absolute)
  {
    hide Stored, SoundRow;
    EveryRunStores(operations, absolute);
    StoredIsSound(RunOperations(operations, absolute), absolute, k);
  }

  // -------------------------------------------------------- what a restore leaves

  /** A field that can be written is acceptable under usable keys. */
  lemma RestorableIff(f: Field, absolute: string -> bool)
    ensures Restorable(f, absolute)
            <==> exists entity, id :: '/' !in entity && f.key == entity + "/" + id && KeyOk(entity) && KeyOk(id)
                                      && Acceptable(entity, f.value, absolute)
  {
    hide KeyOk, Validate, Acceptable;
    if Restorable(f, absolute) {
      var k := SplitOnce(f.key).value;
      ValidateIff(k.0, f.value, absolute);
      assert f.key == k.0 + "/" + k.1;
    }
    if entity, id :| '/' !in entity && f.key == entity + "/" + id && KeyOk(entity) && KeyOk(id)
                     && Acceptable(entity, f.value, absolute) {
      SplitOnceName((entity, id));
      ValidateIff(entity, f.value, absolute);
    }
  }

  /** The row that a field was restored to. */
  ghost predicate RestoredRow(t: Table, f: Field, u: Table) {
    var k := SplitOnce(f.key);
    && k.Some? && k.value in u && Redacted(f.value, u[k.value].value)
    && u[k.value].sourceId == if k.value in t then t[k.value].sourceId else None
  }

  /** After a restore that succeeds every field stands in its row, without what is behind secret
      names and otherwise as it was in the backup; the source of a known row stays, and rows
      that no field names stay as they were. */
  lemma RestoredRows(t: Table, fields: seq<Field>, absolute: string -> bool)
    requires Ascending(fields) && RestoreFields(t, fields, absolute).1 == Done
    ensures var u := RestoreFields(t, fields, absolute).0;
            && (forall f :: f in fields ==> RestoredRow(t, f, u))
            && (forall k :: k in u && !Names(fields, k) ==> k in t && u[k] == t[k])
            && (forall k :: k in t ==> k in u)
  {
    hide Validate, KeyOk, RestoreFields, Redacted, Ascending;
    RestoreSucceedsIff(t, fields, absolute);
    RestoreContents(t, fields, absolute);
    var u := RestoreFields(t, fields, absolute).0;
    forall f | f in fields ensures RestoredRow(t, f, u) {
      assert Restorable(f, absolute);
      HeldOnce(u, fields, f);
      var k := SplitOnce(f.key).value;
      SanitizeRedacts(f.value);
      var n :| 0 <= n < |fields| && fields[n] == f;
      assert Names(fields, k);
    }
  }

  /** What is wrong with a value and its keys: the value is looked at first. */
  ghost predicate RowObjection(entity: string, id: string, v: Json, absolute: string -> bool, error: Error) {
    if !Acceptable(entity, v, absolute) then Objection(entity, v, error)
    else if !KeyOk(entity) then error == EntityInvalid
    else !KeyOk(id) && error == IdInvalid
  }

  /** What is wrong with a field that cannot be restored. */
  ghost predicate FieldObjection(f: Field, absolute: string -> bool, error: Error) {
    if '/' !in f.key then error == BackupKeyWithoutSlash
    else
      exists entity, id ::
        '/' !in entity && f.key == entity + "/" + id && RowObjection(entity, id, f.value, absolute, error)
  }

  lemma FieldErrorIs(t: Table, f: Field, absolute: string -> bool)
    requires RestoreOne(t, f, absolute).1.Failed?
    ensures FieldObjection(f, absolute, RestoreOne(t, f, absolute).1.error)
  {
    hide KeyOk, Validate, Acceptable, Objection, Sanitize;
    if SplitOnce(f.key).Some? {
      var (entity, id) := SplitOnce(f.key).value;
      assert f.key == entity + "/" + id;
      assert f.key[|entity|] == '/';
      ValidateIff(entity, f.value, absolute);
      if Validate(entity, f.value, absolute).Failed? {
        ErrorIs(entity, f.value, absolute);
      }
      assert RowObjection(entity, id, f.value, absolute, RestoreOne(t, f, absolute).1.error);
    }
  }

  /** A restore that fails has written the fields before the first that cannot be, and no other;
      the error is the one of that field. */
  lemma {:induction false} RestoreStops(t: Table, fields: seq<Field>, absolute: string -> bool)
    requires RestoreFields(t, fields, absolute).1 != Done
    ensures exists n :: 0 <= n < |fields| && !Restorable(fields[n], absolute)
                        && (forall i :: 0 <= i < n ==> Restorable(fields[i], absolute))
                        && RestoreFields(t, fields, absolute).0 == RestoreFields(t, fields[..n], absolute).0
                        && RestoreFields(t, fields[..n], absolute).1 == Done
                        && FieldObjection(fields[n], absolute, RestoreFields(t, fields, absolute).1.error)
    decreases |fields|
  {
    hide RestoreOne, Restorable, FieldObjection;
    OneSucceedsIff(t, fields[0], absolute);
    var (next, outcome) := RestoreOne(t, fields[0], absolute);
    if outcome.Failed? {
      OneFails(t, fields[0], absolute);
      FieldErrorIs(t, fields[0], absolute);
      assert fields[..0] == [];
    } else {
      RestoreStops(next, fields[1..], absolute);
      var n :| 0 <= n < |fields[1..]| && !Restorable(fields[1..][n], absolute)
               && (forall i :: 0 <= i < n ==> Restorable(fields[1..][i], absolute))
               && RestoreFields(next, fields[1..], absolute).0 == RestoreFields(next, fields[1..][..n], absolute).0
               && RestoreFields(next, fields[1..][..n], absolute).1 == Done
               && FieldObjection(fields[1..][n], absolute, RestoreFields(next, fields[1..], absolute).1.error);
      assert fields[..n + 1][1..] == fields[1..][..n] && fields[..n + 1][0] == fields[0];
      forall i | 0 <= i < n + 1 ensures Restorable(fields[i], absolute) {
        assert i > 0 ==> fields[i] == fields[1..][i - 1];
      }
      assert fields[n + 1] == fields[1..][n];
    }
  }

  lemma OneFails(t: Table, f: Field, absolute: string -> bool)
    ensures RestoreOne(t, f, absolute).1.Failed? ==> RestoreOne(t, f, absolute).0 == t
  {
  }

  // -------------------------------------------------------------- the object

  function InsertKey(keys: seq<Key>, k: Key): seq<Key> {
    if keys == [] || KeyLess(k, keys[0]) then [k] + keys else [keys[0]] + InsertKey(keys[1..], k)
  }

  ghost predicate KeysAscend(keys: seq<Key>) {
    forall i, j :: 0 <= i < j < |keys| ==> KeyLess(keys[i], keys[j])
  }

  lemma KeyLessTransitive(a: Key, b: Key, c: Key)
    requires KeyLess(a, b) && KeyLess(b, c)
    ensures KeyLess(a, c)
  {
    if Less(a.0, b.0) && Less(b.0, c.0) {
      LessTransitive(a.0, b.0, c.0);
    }
    if Less(a.1, b.1) && Less(b.1, c.1) {
      LessTransitive(a.1, b.1, c.1);
    }
  }

  lemma KeyLessTotal(a: Key, b: Key)
    ensures KeyLess(a, b) || a == b || KeyLess(b, a)
  {
    LessTotal(a.0, b.0);
    LessTotal(a.1, b.1);
  }

  lemma {:induction false} InsertKeyAscends(keys: seq<Key>, k: Key)
    requires KeysAscend(keys) && k !in keys
    ensures KeysAscend(InsertKey(keys, k))
    ensures forall x :: x in InsertKey(keys, k) <==> x == k || x in keys
  {
    hide KeyLess;
    if keys != [] {
      assert keys == [keys[0]] + keys[1..];
      if KeyLess(k, keys[0]) {
        forall j | 0 < j < |keys| ensures KeyLess(k, keys[j]) {
          KeyLessTransitive(k, keys[0], keys[j]);
        }
      } else {
        KeyLessTotal(k, keys[0]);
        InsertKeyAscends(keys[1..], k);
        var rest := InsertKey(keys[1..], k);
        forall j | 0 <= j < |rest| ensures KeyLess(keys[0], rest[j]) {
          assert rest[j] in rest;
        }
      }
    }
  }

  class Database {
    var rows: Table
    // `Path::is_absolute` of the platform
    const absolute: string -> bool

    constructor (absolute: string -> bool)
      ensures Valid() && rows == map[] && this.absolute == absolute
    {
      rows := map[];
      this.absolute := absolute;
    }

    /** Every record is valid, free of credentials and under usable keys. */
    ghost predicate Valid()
      reads this
    {
      Stored(rows, absolute)
    }

    /** The record is stored without its credentials exactly if its keys are usable and it is
        valid, and no other record is touched. */
    method UpsertRecord(entity: string, id: string, sourceId: Option<string>, v: Json) returns (r: Outcome)
      requires Valid()
      modifies this`rows
      ensures Valid() && (rows, r) == Upsert(old(rows), entity, id, sourceId, v, absolute)
      ensures r == Done <==> KeyOk(entity) && KeyOk(id) && Acceptable(entity, v, absolute)
      ensures r == Done ==>
                (entity, id) in rows && rows[(entity, id)].sourceId == sourceId && Clean(rows[(entity, id)].value)
                && (Clean(v) ==> rows[(entity, id)].value == v) && Redacted(v, rows[(entity, id)].value)
      ensures r.Failed? ==>
                && rows == old(rows)
                && if !KeyOk(entity) then r.error == EntityInvalid
                   else if !KeyOk(id) then r.error == IdInvalid
                   else Objection(entity, v, r.error)
      ensures rows - {(entity, id)} == old(rows) - {(entity, id)}
    {
      hide Validate, Sanitize, Clean, KeyOk, Acceptable, Redacted, Objection;
      ValidateIff(entity, v, absolute);
      if Validate(entity, v, absolute).Failed? {
        ErrorIs(entity, v, absolute);
      }
      SanitizeRedacts(v);
      UpsertStores(rows, entity, id, sourceId, v, absolute);
      SanitizeCleans(v);
      SanitizeChangesIff(v);
      if !KeyOk(entity) {
        return Failed(EntityInvalid);
      }
      if !KeyOk(id) {
        return Failed(IdInvalid);
      }
      r := Validate(entity, v, absolute);
      if r.Failed? {
        return;
      }
      rows := rows[(entity, id) := Row(sourceId, Sanitize(v))];
    }

    /** After a removal with usable keys the record is gone, and no other is touched. */
    method RemoveRecord(entity: string, id: string) returns (r: Outcome)
      requires Valid()
      modifies this`rows
      ensures Valid() && (rows, r) == Remove(old(rows), entity, id)
      ensures r == if !KeyOk(entity) then Failed(EntityInvalid) else if !KeyOk(id) then Failed(IdInvalid) else Done
      ensures (entity, id) !in rows
      ensures rows - {(entity, id)} == old(rows) - {(entity, id)}
    {
      hide Validate, Clean, KeyOk;
      if !KeyOk(entity) {
        return Failed(EntityInvalid);
      }
      if !KeyOk(id) {
        return Failed(IdInvalid);
      }
      rows := rows - {(entity, id)};
      r := Done;
    }

    /** The rows in `ORDER BY entity, record_id`. */
    method Query() returns (keys: seq<Key>)
      ensures Listing(rows, keys)
    {
      var left := rows.Keys;
      keys := [];
      while left != {}
        invariant left <= rows.Keys && KeysAscend(keys)
        invariant forall k :: k in keys <==> k in rows.Keys - left
        decreases left
      {
        var k :| k in left;
        InsertKeyAscends(keys, k);
        keys := InsertKey(keys, k);
        left := left - {k};
      }
    }

    method BackUp() returns (backup: Json)
      ensures backup.Obj?
      ensures exists keys: seq<Key> :: Listing(rows, keys) && (forall i :: 0 <= i < |keys| ==> keys[i] in rows)
                                       && backup.fields == BackupFields(rows, keys, |keys|)
    {
      var keys := Query();
      assert forall i :: 0 <= i < |keys| ==> keys[i] in keys && keys[i] in rows;
      var fields: seq<Field> := [];
      for n := 0 to |keys|
        invariant fields == BackupFields(rows, keys, n)
      {
        fields := Insert(fields, Name(keys[n]), rows[keys[n]].value);
      }
      backup := Obj(fields);
    }

    /** A restore, even one that stops at an error, leaves only valid records. */
    method RestoreBackup(backup: Json) returns (r: Outcome)
      requires Valid()
      modifies this`rows
      ensures Valid() && (rows, r) == Restore(old(rows), backup, absolute)
      ensures r == Done <==> backup.Obj? && forall f :: f in backup.fields ==> Restorable(f, absolute)
      ensures r.Failed? && backup.Obj? ==>
                exists f :: f in backup.fields && !Restorable(f, absolute) && FieldObjection(f, absolute, r.error)
      ensures !backup.Obj? ==> r == Failed(BackupNotAnObject) && rows == old(rows)
      ensures r == Done && Ascending(backup.fields) ==>
                forall f :: f in backup.fields ==> RestoredRow(old(rows), f, rows)
    {
      hide Validate, Sanitize, Clean, KeyOk, Restorable, RestoredRow, Ascending, FieldObjection;
      if backup.Obj? {
        if RestoreFields(rows, backup.fields, absolute).1 != Done {
          RestoreStops(rows, backup.fields, absolute);
        }
        RestoreStores(rows, backup.fields, absolute);
        RestoreSucceedsIff(rows, backup.fields, absolute);
        if RestoreFields(rows, backup.fields, absolute).1 == Done && Ascending(backup.fields) {
          RestoredRows(rows, backup.fields, absolute);
        }
      }
      if !backup.Obj? {
        return Failed(BackupNotAnObject);
      }
      var fields := backup.fields;
      for n := 0 to |fields|
        invariant RestoreFields(rows, fields[n..], absolute) == RestoreFields(old(rows), fields, absolute)
      {
        assert fields[n..][1..] == fields[n + 1..];
        var key := SplitOnce(fields[n].key);
        if key.None? {
          return Failed(BackupKeyWithoutSlash);
        }
        var entity, id := key.value.0, key.value.1;
        r := Validate(entity, fields[n].value, absolute);
        if r.Failed? {
          return;
        }
        if !KeyOk(entity) {
          return Failed(EntityInvalid);
        }
        if !KeyOk(id) {
          return Failed(IdInvalid);
        }
        var sourceId := if (entity, id) in rows then rows[(entity, id)].sourceId else None;
        rows := rows[(entity, id) := Row(sourceId, Sanitize(fields[n].value))];
      }
      r := Done;
    }
  }
}
