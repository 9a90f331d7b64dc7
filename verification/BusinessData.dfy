/** The keyed record table: writing with validation and sanitising, backup and restore. */
module BusinessData {
  import opened Options
  import opened TextOrder

  /** JSON as serde_json holds it: the fields of an object are in ascending key order. */
  datatype Json =
    | Null
    | Bool(b: bool)
    | Num(n: int)
    | Str(s: string)
    | Arr(items: seq<Json>)
    | Obj(fields: seq<Field>)

  datatype Field = Field(key: string, value: Json)

  datatype Error =
    | EntityInvalid
    | IdInvalid
    | DownloadReferenceRequired
    | DownloadReferenceEmpty
    | DownloadReferenceForbidden
    | LocalMediaPath
    | PlayerSessionUrl
    | BackupNotAnObject
    | BackupKeyWithoutSlash

  datatype Outcome = Done | Failed(error: Error)

  // --------------------------------------------------------------- sanitising

  /** A field name, in lower case, that names a credential or a temporary address. */
  predicate CredentialName(lower: string) {
    || Contains(lower, "token")
    || Contains(lower, "cookie")
    || lower == "authorization"
    || Contains(lower, "tempurl")
    || Contains(lower, "temporaryurl")
    || Contains(lower, "temporary_url")
  }

  predicate Credential(key: string) { CredentialName(Lower(key)) }

  function Sanitize(v: Json): Json {
    match v
    case Obj(fields) => Obj(SanitizeFields(fields))
    case Arr(items) => Arr(SanitizeItems(items))
    case _ => v
  }

  function SanitizeFields(fields: seq<Field>): seq<Field> {
    if fields == [] then []
    else
      var f := fields[0];
      (if Credential(f.key) then [] else [Field(f.key, Sanitize(f.value))]) + SanitizeFields(fields[1..])
  }

  function SanitizeItems(items: seq<Json>): seq<Json> {
    if items == [] then [] else [Sanitize(items[0])] + SanitizeItems(items[1..])
  }

  /** No field at any depth has a credential name. */
  predicate Clean(v: Json) {
    match v
    case Obj(fields) => forall k :: 0 <= k < |fields| ==> !Credential(fields[k].key) && Clean(fields[k].value)
    case Arr(items) => forall k :: 0 <= k < |items| ==> Clean(items[k])
    case _ => true
  }

  lemma {:induction false} SanitizeCleans(v: Json)
    ensures Clean(Sanitize(v))
    decreases v
  {
    hide Credential;
    match v
    case Obj(fields) => SanitizeFieldsClean(fields);
    case Arr(items) => SanitizeItemsClean(items);
    case _ =>
  }

  lemma {:induction false} SanitizeFieldsClean(fields: seq<Field>)
    ensures Clean(Obj(SanitizeFields(fields)))
    decreases fields
  {
    hide Credential;
    if fields != [] {
      SanitizeCleans(fields[0].value);
      SanitizeFieldsClean(fields[1..]);
    }
  }

  lemma {:induction false} SanitizeItemsClean(items: seq<Json>)
    ensures Clean(Arr(SanitizeItems(items)))
    decreases items
  {
    if items != [] {
      SanitizeCleans(items[0]);
      SanitizeItemsClean(items[1..]);
    }
  }

  lemma {:induction false} CleanUnchanged(v: Json)
    requires Clean(v)
    ensures Sanitize(v) == v
    decreases v
  {
    hide Credential;
    match v
    case Obj(fields) => CleanFieldsUnchanged(fields);
    case Arr(items) => CleanItemsUnchanged(items);
    case _ =>
  }

  lemma {:induction false} CleanFieldsUnchanged(fields: seq<Field>)
    requires Clean(Obj(fields))
    ensures SanitizeFields(fields) == fields
    decreases fields
  {
    hide Credential;
    if fields != [] {
      CleanUnchanged(fields[0].value);
      CleanFieldsUnchanged(fields[1..]);
      assert fields == [fields[0]] + fields[1..];
    }
  }

  lemma {:induction false} CleanItemsUnchanged(items: seq<Json>)
    requires Clean(Arr(items))
    ensures SanitizeItems(items) == items
    decreases items
  {
    if items != [] {
      CleanUnchanged(items[0]);
      CleanItemsUnchanged(items[1..]);
      assert items == [items[0]] + items[1..];
    }
  }

  /** Sanitising changes exactly the values that hold a credential somewhere, and what it
      leaves is never changed again. */
  lemma SanitizeChangesIff(v: Json)
    ensures Sanitize(v) == v <==> Clean(v)
    ensures Sanitize(Sanitize(v)) == Sanitize(v)
  {
    SanitizeCleans(v);
    CleanUnchanged(Sanitize(v));
    if Clean(v) {
      CleanUnchanged(v);
    }
  }

  // --------------------------------------------------------------- validation

  /** `validate_key` */
  predicate KeyOk(key: string) { !IsBlank(key) && Utf8Length(key) <= 256 }

  predicate HasKey(fields: seq<Field>, lowerNames: seq<string>) {
    fields != [] && (Lower(fields[0].key) in lowerNames || HasKey(fields[1..], lowerNames))
  }

  /** The first string among the fields whose name equals `lowerName` but for case. */
  function FindString(fields: seq<Field>, lowerName: string): Option<string> {
    if fields == [] then None
    else if Lower(fields[0].key) == lowerName && fields[0].value.Str? then Some(fields[0].value.s)
    else FindString(fields[1..], lowerName)
  }

  function FieldsOf(v: Json): seq<Field> { if v.Obj? then v.fields else [] }

  predicate ForbiddenReference(lower: string) {
    || "bt:" <= lower || "magnet:" <= lower || Contains(lower, "p2p")
    || EndsWith(lower, ".m3u8") || EndsWith(lower, ".mpd")
  }

  function ValidateDownload(v: Json): Outcome {
    if HasKey(FieldsOf(v), ["url", "downloadurl", "requesturl", "playbackurl"]) then Failed(DownloadReferenceRequired)
    else
      match FindString(FieldsOf(v), "requestreference")
      case None => Failed(DownloadReferenceRequired)
      case Some(reference) =>
        if IsBlank(reference) then Failed(DownloadReferenceEmpty)
        else if ForbiddenReference(Lower(reference)) then Failed(DownloadReferenceForbidden)
        else Done
  }

  /** `absolute` stands for the platform's `Path::is_absolute`. */
  function ValidateLocalMedia(v: Json, absolute: string -> bool): Outcome {
    match FindString(FieldsOf(v), "path")
    case None => Done
    case Some(path) =>
      if absolute(path) || Contains(path, "..\\") || Contains(path, "../") then Failed(LocalMediaPath) else Done
  }

  function ValidatePlayerSession(v: Json): Outcome {
    if HasKey(FieldsOf(v), ["url", "playbackurl", "proxyurl", "sourceurl"]) then Failed(PlayerSessionUrl) else Done
  }

  /** `validate_business_value` */
  function Validate(entity: string, v: Json, absolute: string -> bool): Outcome {
    var lower := Lower(entity);
    if lower == "download" then ValidateDownload(v)
    else if lower == "local_media" then ValidateLocalMedia(v, absolute)
    else if lower == "player_session" then ValidatePlayerSession(v)
    else Done
  }

  lemma {:induction false} SanitizeAddsNoKey(fields: seq<Field>, names: seq<string>)
    requires HasKey(SanitizeFields(fields), names)
    ensures HasKey(fields, names)
  {
    hide Credential;
    if fields != [] {
      var rest := SanitizeFields(fields[1..]);
      if Credential(fields[0].key) {
        assert SanitizeFields(fields) == rest;
        SanitizeAddsNoKey(fields[1..], names);
      } else if Lower(fields[0].key) !in names {
        assert SanitizeFields(fields)[1..] == rest;
        SanitizeAddsNoKey(fields[1..], names);
      }
    }
  }

  lemma {:induction false} SanitizeKeepsString(fields: seq<Field>, name: string)
    requires !CredentialName(name)
    ensures FindString(SanitizeFields(fields), name) == FindString(fields, name)
  {
    hide CredentialName;
    if fields != [] {
      SanitizeKeepsString(fields[1..], name);
      var all := SanitizeFields(fields);
      if !Credential(fields[0].key) {
        assert all[0] == Field(fields[0].key, Sanitize(fields[0].value));
        assert all[1..] == SanitizeFields(fields[1..]);
      } else {
        assert all == SanitizeFields(fields[1..]);
      }
    }
  }

  lemma NoCredentialWithout(lower: string)
    requires 'k' !in lower && 'm' !in lower && lower != "authorization"
    ensures !CredentialName(lower)
  {
    var names := ["token", "cookie", "tempurl", "temporaryurl", "temporary_url"];
    assert names[0][2] == 'k' && names[1][3] == 'k' && names[2][2] == 'm' && names[3][2] == 'm' && names[4][2] == 'm';
    if Contains(lower, names[0]) {
      ContainedCharacters(lower, names[0], 'k');
    }
    if Contains(lower, names[1]) {
      ContainedCharacters(lower, names[1], 'k');
    }
    if Contains(lower, names[2]) {
      ContainedCharacters(lower, names[2], 'm');
    }
    if Contains(lower, names[3]) {
      ContainedCharacters(lower, names[3], 'm');
    }
    if Contains(lower, names[4]) {
      ContainedCharacters(lower, names[4], 'm');
    }
  }

  /** Sanitising a valid value leaves it valid: the names that matter are never removed, and
      none is added. */
  lemma SanitizeKeepsValid(entity: string, v: Json, absolute: string -> bool)
    requires Validate(entity, v, absolute) == Done
    ensures Validate(entity, Sanitize(v), absolute) == Done
  {
    hide CredentialName, SanitizeFields, HasKey, FindString;
    NoCredentialWithout("requestreference");
    NoCredentialWithout("path");
    var fields := FieldsOf(v);
    if v.Obj? {
      SanitizeKeepsString(fields, "requestreference");
      SanitizeKeepsString(fields, "path");
      if HasKey(SanitizeFields(fields), ["url", "downloadurl", "requesturl", "playbackurl"]) {
        SanitizeAddsNoKey(fields, ["url", "downloadurl", "requesturl", "playbackurl"]);
      }
      if HasKey(SanitizeFields(fields), ["url", "playbackurl", "proxyurl", "sourceurl"]) {
        SanitizeAddsNoKey(fields, ["url", "playbackurl", "proxyurl", "sourceurl"]);
      }
    }
  }

  lemma {:induction false} Utf8Bound(s: string)
    ensures Utf8Length(s) <= 4 * |s|
  {
    if s != "" {
      Utf8Bound(s[1..]);
    }
  }

  lemma ShortKeyOk(key: string, absolute: string -> bool, v: Json)
    requires 0 < |key| < 8 && !IsWhitespace(key[0])
    ensures KeyOk(key) && Validate(key, v, absolute) == Done
  {
    Utf8Bound(key);
  }

  // ---------------------------------------------------------------- the table

  datatype Row = Row(sourceId: Option<string>, value: Json)

  type Key = (string, string)

  type Table = map<Key, Row>

  /** `upsert_connection`: the table afterwards, and the error if there is one. */
  function Upsert(t: Table, entity: string, id: string, sourceId: Option<string>, v: Json,
                  absolute: string -> bool): (Table, Outcome) {
    if !KeyOk(entity) then (t, Failed(EntityInvalid))
    else if !KeyOk(id) then (t, Failed(IdInvalid))
    else
      match Validate(entity, v, absolute)
      case Failed(e) => (t, Failed(e))
      case Done => (t[(entity, id) := Row(sourceId, Sanitize(v))], Done)
  }

  function Remove(t: Table, entity: string, id: string): (Table, Outcome) {
    if !KeyOk(entity) then (t, Failed(EntityInvalid))
    else if !KeyOk(id) then (t, Failed(IdInvalid))
    else (t - {(entity, id)}, Done)
  }

  /** What every row has once it was written by `upsert` or `restore`. */
  ghost predicate Stored(t: Table, absolute: string -> bool) {
    forall k :: k in t ==>
      KeyOk(k.0) && KeyOk(k.1) && Clean(t[k].value) && Validate(k.0, t[k].value, absolute) == Done
  }

  lemma UpsertStores(t: Table, entity: string, id: string, sourceId: Option<string>, v: Json, absolute: string -> bool)
    requires Stored(t, absolute)
    ensures Stored(Upsert(t, entity, id, sourceId, v, absolute).0, absolute)
  {
    hide Validate, Sanitize, Clean, KeyOk;
    SanitizeCleans(v);
    if Validate(entity, v, absolute) == Done {
      SanitizeKeepsValid(entity, v, absolute);
    }
  }

  // ------------------------------------------------------------------- backup

  /** `BTreeMap::insert` */
  function Insert(fields: seq<Field>, key: string, v: Json): seq<Field> {
    if fields == [] || Less(key, fields[0].key) then [Field(key, v)] + fields
    else if fields[0].key == key then [Field(key, v)] + fields[1..]
    else [fields[0]] + Insert(fields[1..], key, v)
  }

  ghost predicate Ascending(fields: seq<Field>) {
    forall i, j :: 0 <= i < j < |fields| ==> Less(fields[i].key, fields[j].key)
  }

  function Name(k: Key): string { k.0 + "/" + k.1 }

  /** `ORDER BY entity, record_id` */
  predicate KeyLess(a: Key, b: Key) { Less(a.0, b.0) || (a.0 == b.0 && Less(a.1, b.1)) }

  ghost predicate Listing(t: Table, keys: seq<Key>) {
    && (forall i, j :: 0 <= i < j < |keys| ==> KeyLess(keys[i], keys[j]))
    && (forall k :: k in keys <==> k in t)
  }

  /** The backup object after the first `n` rows. */
  function BackupFields(t: Table, keys: seq<Key>, n: nat): seq<Field>
    requires n <= |keys| && forall i :: 0 <= i < |keys| ==> keys[i] in t
  {
    if n == 0 then [] else Insert(BackupFields(t, keys, n - 1), Name(keys[n - 1]), t[keys[n - 1]].value)
  }

  lemma {:induction false} InsertKeepsOrder(fields: seq<Field>, key: string, v: Json)
    requires Ascending(fields)
    ensures Ascending(Insert(fields, key, v))
    ensures forall f :: f in Insert(fields, key, v) <==> f == Field(key, v) || (f in fields && f.key != key)
  {
    hide Less;
    if fields == [] {
    } else if Less(key, fields[0].key) {
      forall j | 0 <= j < |fields| ensures Less(key, fields[j].key) && fields[j].key != key {
        if j > 0 {
          LessTransitive(key, fields[0].key, fields[j].key);
        }
        LessAsymmetric(key, fields[j].key);
      }
    } else if fields[0].key == key {
      forall j | 0 < j < |fields| ensures fields[j].key != key {
        LessAsymmetric(key, fields[j].key);
      }
      assert fields == [fields[0]] + fields[1..];
    } else {
      LessTotal(key, fields[0].key);
      InsertKeepsOrder(fields[1..], key, v);
      var rest := Insert(fields[1..], key, v);
      forall j | 0 <= j < |rest| ensures Less(fields[0].key, rest[j].key) {
        assert rest[j] in rest;
      }
      assert fields == [fields[0]] + fields[1..];
    }
  }

  // ------------------------------------------------------------------ restore

  /** The index of the first slash. */
  function FirstSlash(key: string, i: nat): (r: Option<nat>)
    ensures r.Some? ==> i <= r.value < |key| && key[r.value] == '/' && '/' !in key[i..r.value]
    ensures r.None? ==> i >= |key| || '/' !in key[i..]
    decreases |key| - i
  {
    if i >= |key| then None
    else if key[i] == '/' then Some(i)
    else
      var r := FirstSlash(key, i + 1);
      assert r.Some? ==> key[i..r.value] == [key[i]] + key[i + 1..r.value];
      assert key[i..] == [key[i]] + key[i + 1..];
      r
  }

  /** `key.split_once('/')` */
  function SplitOnce(key: string): (r: Option<Key>)
    ensures r.Some? ==> '/' !in r.value.0 && Name(r.value) == key
    ensures r.None? ==> '/' !in key
  {
    match FirstSlash(key, 0)
    case None => None
    case Some(i) =>
      assert key == key[..i] + "/" + key[i + 1..];
      Some((key[..i], key[i + 1..]))
  }

  lemma {:induction false} FirstSlashIs(key: string, i: nat, j: nat)
    requires i <= j < |key| && key[j] == '/' && forall n :: i <= n < j ==> key[n] != '/'
    ensures FirstSlash(key, i) == Some(j)
    decreases j - i
  {
    if i < j {
      FirstSlashIs(key, i + 1, j);
    }
  }

  lemma SplitOnceName(k: Key)
    requires '/' !in k.0
    ensures SplitOnce(Name(k)) == Some(k)
  {
    var name := Name(k);
    assert name[|k.0|] == '/' && name[..|k.0|] == k.0 && name[|k.0| + 1..] == k.1;
    FirstSlashIs(name, 0, |k.0|);
  }

  /** One entry of the backup. */
  function RestoreOne(t: Table, f: Field, absolute: string -> bool): (Table, Outcome) {
    match SplitOnce(f.key)
    case None => (t, Failed(BackupKeyWithoutSlash))
    case Some(k) =>
      match Validate(k.0, f.value, absolute)
      case Failed(e) => (t, Failed(e))
      case Done =>
        if !KeyOk(k.0) then (t, Failed(EntityInvalid))
        else if !KeyOk(k.1) then (t, Failed(IdInvalid))
        else (t[k := Row(if k in t then t[k].sourceId else None, Sanitize(f.value))], Done)
  }

  /** The loop stops at the first error; the rows written before stay. */
  function RestoreFields(t: Table, fields: seq<Field>, absolute: string -> bool): (Table, Outcome)
    decreases |fields|
  {
    if fields == [] then (t, Done)
    else
      var (next, outcome) := RestoreOne(t, fields[0], absolute);
      if outcome.Failed? then (next, outcome) else RestoreFields(next, fields[1..], absolute)
  }

  function Restore(t: Table, backup: Json, absolute: string -> bool): (Table, Outcome) {
    if !backup.Obj? then (t, Failed(BackupNotAnObject)) else RestoreFields(t, backup.fields, absolute)
  }
}
