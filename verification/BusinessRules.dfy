/** What sanitising keeps, what validation lets pass and which keys are usable, said without the
    functions that do it. */
module BusinessRules {
  import opened Options
  import opened TextOrder
  import opened BusinessData

  // ------------------------------------------------------------------ places in a value

  datatype Step = Member(key: string) | Item(n: nat)

  function FindField(fields: seq<Field>, key: string): Option<Json> {
    if fields == [] then None
    else if fields[0].key == key then Some(fields[0].value)
    else FindField(fields[1..], key)
  }

  /** What stands at the end of a path of field names and list indexes. */
  function Reach(v: Json, path: seq<Step>): Option<Json>
    decreases |path|
  {
    if path == [] then Some(v)
    else
      match (v, path[0])
      case (Obj(fields), Member(key)) =>
        (match FindField(fields, key)
         case None => None
         case Some(w) => Reach(w, path[1..]))
      case (Arr(items), Item(n)) => if n < |items| then Reach(items[n], path[1..]) else None
      case _ => None
  }

  /** The key holds the word, in any case. */
  ghost predicate HasWord(key: string, word: string) {
    exists a, w, b :: key == a + w + b && Lower(w) == word
  }

  /** A name of a credential or of a temporary address. */
  ghost predicate Secret(key: string) {
    || Lower(key) == "authorization" || HasWord(key, "token") || HasWord(key, "cookie")
    || HasWord(key, "tempurl") || HasWord(key, "temporaryurl") || HasWord(key, "temporary_url")
  }

  ghost predicate ThroughSecret(path: seq<Step>) {
    exists k :: 0 <= k < |path| && path[k].Member? && Secret(path[k].key)
  }

  /** Two values of one kind: the same leaf, lists of one length, or objects. */
  predicate SameKind(v: Json, w: Json) {
    match v
    case Obj(_) => w.Obj?
    case Arr(items) => w.Arr? && |w.items| == |items|
    case _ => w == v
  }

  /** `w` is `v` without what stands behind secret names: there is nothing at a path through
      one, and at every other the same as before. */
  ghost predicate Redacted(v: Json, w: Json) {
    forall path: seq<Step> ::
      if ThroughSecret(path) || Reach(v, path).None? then Reach(w, path).None?
      else Reach(w, path).Some? && SameKind(Reach(v, path).value, Reach(w, path).value)
  }

  lemma LowerPart(key: string, i: nat, j: nat)
    requires i <= j <= |key|
    ensures Lower(key[i..j]) == Lower(key)[i..j]
  {
  }

  lemma HasWordIff(key: string, word: string)
    ensures Contains(Lower(key), word) <==> HasWord(key, word)
  {
    if Contains(Lower(key), word) {
      var i :| 0 <= i <= |Lower(key)| - |word| && StandsAt(Lower(key), word, i);
      LowerPart(key, i, i + |word|);
      assert key == key[..i] + key[i..i + |word|] + key[i + |word|..];
    }
    if a, w, b :| key == a + w + b && Lower(w) == word {
      LowerPart(key, |a|, |a| + |w|);
      assert key[|a|..|a| + |w|] == w;
      assert StandsAt(Lower(key), word, |a|);
    }
  }

  lemma SecretIff(key: string)
    ensures Credential(key) <==> Secret(key)
  {
    hide Contains, Lower, HasWord;
    HasWordIff(key, "token");
    HasWordIff(key, "cookie");
    HasWordIff(key, "tempurl");
    HasWordIff(key, "temporaryurl");
    HasWordIff(key, "temporary_url");
  }

  // ------------------------------------------------------------- what sanitising keeps

  lemma {:induction false} FieldAfter(fields: seq<Field>, key: string)
    ensures FindField(SanitizeFields(fields), key)
            == if Credential(key) then None
               else match FindField(fields, key) { case None => None case Some(w) => Some(Sanitize(w)) }
  {
    hide Credential;
    if fields != [] {
      FieldAfter(fields[1..], key);
      var f, rest := fields[0], SanitizeFields(fields[1..]);
      assert SanitizeFields(fields)
             == if Credential(f.key) then rest else [Field(f.key, Sanitize(f.value))] + rest;
    }
  }

  lemma {:induction false} ItemAfter(items: seq<Json>, n: nat)
    ensures |SanitizeItems(items)| == |items|
    ensures n < |items| ==> SanitizeItems(items)[n] == Sanitize(items[n])
  {
    if items != [] {
      ItemAfter(items[1..], if n > 0 then n - 1 else 0);
    }
  }

  lemma SanitizeKeepsKind(v: Json)
    ensures SameKind(v, Sanitize(v))
  {
    if v.Arr? {
      ItemAfter(v.items, 0);
    }
  }

  lemma {:induction false} ReachAfter(v: Json, path: seq<Step>)
    ensures Reach(Sanitize(v), path)
            == if ThroughSecret(path) then None
               else match Reach(v, path) { case None => None case Some(w) => Some(Sanitize(w)) }
    decreases |path|
  {
    hide Secret;
    if path != [] {
      PathStep(path);
      match (v, path[0])
      case (Obj(fields), Member(key)) =>
        SecretIff(key);
        FieldAfter(fields, key);
        if !Secret(key) && FindField(fields, key).Some? {
          ReachAfter(FindField(fields, key).value, path[1..]);
        }
      case (Arr(items), Item(n)) =>
        ItemAfter(items, n);
        if n < |items| {
          ReachAfter(items[n], path[1..]);
        }
      case _ =>
    }
  }

  lemma PathStep(path: seq<Step>)
    requires path != []
    ensures ThroughSecret(path) <==> (path[0].Member? && Secret(path[0].key)) || ThroughSecret(path[1..])
  {
    hide Secret;
    if ThroughSecret(path[1..]) {
      var k :| 0 <= k < |path[1..]| && path[1..][k].Member? && Secret(path[1..][k].key);
      assert path[k + 1] == path[1..][k];
    }
    if ThroughSecret(path) && !(path[0].Member? && Secret(path[0].key)) {
      var k :| 0 <= k < |path| && path[k].Member? && Secret(path[k].key);
      assert path[1..][k - 1] == path[k];
    }
  }

  /** Sanitising removes what stands behind a secret name, at any depth, and nothing else: every
      other field and list item is there as before. */
  lemma SanitizeRedacts(v: Json)
    ensures Redacted(v, Sanitize(v))
  {
    hide Secret, Reach, ThroughSecret;
    forall path: seq<Step>
      ensures if ThroughSecret(path) || Reach(v, path).None? then Reach(Sanitize(v), path).None?
              else Reach(Sanitize(v), path).Some? && SameKind(Reach(v, path).value, Reach(Sanitize(v), path).value)
    {
      ReachAfter(v, path);
      if Reach(v, path).Some? {
        SanitizeKeepsKind(Reach(v, path).value);
      }
    }
  }

  // ---------------------------------------------------------- what validation lets pass

  /** One of the fields has one of the names, in any case. */
  ghost predicate Named(v: Json, names: set<string>) {
    v.Obj? && exists k :: 0 <= k < |v.fields| && Lower(v.fields[k].key) in names
  }

  /** Field `k` is the first with this name, in any case, that holds a string. */
  ghost predicate FirstText(v: Json, name: string, k: nat) {
    && v.Obj? && k < |v.fields| && Lower(v.fields[k].key) == name && v.fields[k].value.Str?
    && forall j :: 0 <= j < k ==> !(Lower(v.fields[j].key) == name && v.fields[j].value.Str?)
  }

  /** A text that starts, ends or is filled like this, in any case. */
  ghost predicate Streamed(text: string) {
    var lower := Lower(text);
    || lower[..if |lower| < 3 then |lower| else 3] == "bt:"
    || lower[..if |lower| < 7 then |lower| else 7] == "magnet:"
    || (exists a, b :: lower == a + "p2p" + b)
    || (exists a :: lower == a + ".m3u8")
    || (exists a :: lower == a + ".mpd")
  }

  /** What a record of this entity must look like. */
  ghost predicate Acceptable(entity: string, v: Json, absolute: string -> bool) {
    && (Lower(entity) == "download" ==>
          && !Named(v, {"url", "downloadurl", "requesturl", "playbackurl"})
          && exists k: nat :: FirstText(v, "requestreference", k)
                         && !IsBlank(v.fields[k].value.s) && !Streamed(v.fields[k].value.s))
    && (Lower(entity) == "local_media" ==>
          forall k: nat :: FirstText(v, "path", k) ==>
            var path := v.fields[k].value.s;
            !absolute(path) && forall a, b :: path != a + "../" + b && path != a + "..\\" + b)
    && (Lower(entity) == "player_session" ==> !Named(v, {"url", "playbackurl", "proxyurl", "sourceurl"}))
  }

  lemma {:induction false} HasKeyIff(fields: seq<Field>, names: seq<string>)
    ensures HasKey(fields, names) <==> exists k :: 0 <= k < |fields| && Lower(fields[k].key) in names
  {
    hide Lower;
    if fields != [] {
      HasKeyIff(fields[1..], names);
      if k :| 0 <= k < |fields| && Lower(fields[k].key) in names {
        if k > 0 {
          assert fields[1..][k - 1] == fields[k];
        }
      }
      if k :| 0 <= k < |fields[1..]| && Lower(fields[1..][k].key) in names {
        assert fields[k + 1] == fields[1..][k];
      }
    }
  }

  lemma {:induction false} FindStringIs(fields: seq<Field>, name: string)
    ensures match FindString(fields, name)
            case None => forall k: nat :: !FirstText(Obj(fields), name, k)
            case Some(text) =>
              exists k: nat :: FirstText(Obj(fields), name, k) && fields[k].value.s == text
  {
    hide Lower;
    if fields != [] && !(Lower(fields[0].key) == name && fields[0].value.Str?) {
      FindStringIs(fields[1..], name);
      var rest := fields[1..];
      forall k: nat ensures FirstText(Obj(fields), name, k + 1) <==> FirstText(Obj(rest), name, k) {
        if k < |rest| {
          assert rest[k] == fields[k + 1];
          assert forall j :: 0 <= j < k ==> rest[j] == fields[j + 1];
          assert forall j :: 0 < j < k + 1 ==> fields[j] == rest[j - 1];
        }
      }
      if FindString(fields, name).Some? {
        var k: nat :| FirstText(Obj(rest), name, k) && rest[k].value.s == FindString(fields, name).value;
        assert FirstText(Obj(fields), name, k + 1);
      } else {
        forall k: nat ensures !FirstText(Obj(fields), name, k) {
          if k > 0 {
            assert FirstText(Obj(fields), name, k) <==> FirstText(Obj(rest), name, k - 1);
          }
        }
      }
    } else if fields != [] {
      assert FirstText(Obj(fields), name, 0);
    }
  }

  lemma FirstTextOnce(v: Json, name: string, j: nat, k: nat)
    requires FirstText(v, name, j) && FirstText(v, name, k)
    ensures j == k
  {
  }

  lemma ContainsIff(s: string, p: string)
    ensures Contains(s, p) <==> exists a, b :: s == a + p + b
  {
    if Contains(s, p) {
      var i :| 0 <= i <= |s| - |p| && StandsAt(s, p, i);
      assert s == s[..i] + p + s[i + |p|..];
    }
    if a, b :| s == a + p + b {
      assert StandsAt(s, p, |a|);
    }
  }

  lemma EndsWithIff(s: string, p: string)
    ensures EndsWith(s, p) <==> exists a :: s == a + p
  {
    if EndsWith(s, p) {
      assert s == s[..|s| - |p|] + p;
    }
  }

  lemma StreamedIff(text: string)
    ensures ForbiddenReference(Lower(text)) <==> Streamed(text)
  {
    hide Contains, EndsWith, Lower;
    var lower := Lower(text);
    ContainsIff(lower, "p2p");
    EndsWithIff(lower, ".m3u8");
    EndsWithIff(lower, ".mpd");
  }

  lemma NamedIff(v: Json, names: seq<string>, set_: set<string>)
    requires forall name :: name in names <==> name in set_
    ensures HasKey(FieldsOf(v), names) <==> Named(v, set_)
  {
    hide Lower;
    HasKeyIff(FieldsOf(v), names);
  }

  lemma TextIs(v: Json, name: string)
    ensures match FindString(FieldsOf(v), name)
            case None => forall k: nat :: !FirstText(v, name, k)
            case Some(text) => exists k: nat :: FirstText(v, name, k) && v.fields[k].value.s == text
  {
    hide Lower;
    FindStringIs(FieldsOf(v), name);
    if v.Obj? {
      assert v == Obj(v.fields);
    }
  }

  lemma ValidDownloadIff(v: Json)
    ensures ValidateDownload(v) == Done
            <==> && !Named(v, {"url", "downloadurl", "requesturl", "playbackurl"})
                 && exists k: nat :: FirstText(v, "requestreference", k)
                                     && !IsBlank(v.fields[k].value.s) && !Streamed(v.fields[k].value.s)
  {
    hide HasKey, FindString, Lower, IsBlank, ForbiddenReference, Streamed, Named;
    NamedIff(v, ["url", "downloadurl", "requesturl", "playbackurl"],
             {"url", "downloadurl", "requesturl", "playbackurl"});
    TextIs(v, "requestreference");
    var text := FindString(FieldsOf(v), "requestreference");
    if text.Some? {
      var k: nat :| FirstText(v, "requestreference", k) && v.fields[k].value.s == text.value;
      StreamedIff(text.value);
      forall j: nat | FirstText(v, "requestreference", j) ensures j == k {
        FirstTextOnce(v, "requestreference", j, k);
      }
    }
  }

  lemma ValidLocalMediaIff(v: Json, absolute: string -> bool)
    ensures ValidateLocalMedia(v, absolute) == Done
            <==> forall k: nat :: FirstText(v, "path", k) ==>
                   var path := v.fields[k].value.s;
                   !absolute(path) && forall a, b :: path != a + "../" + b && path != a + "..\\" + b
  {
    hide FindString, Lower, Contains;
    TextIs(v, "path");
    var text := FindString(FieldsOf(v), "path");
    if text.Some? {
      var k: nat :| FirstText(v, "path", k) && v.fields[k].value.s == text.value;
      ContainsIff(text.value, "../");
      ContainsIff(text.value, "..\\");
      forall j: nat | FirstText(v, "path", j) ensures j == k {
        FirstTextOnce(v, "path", j, k);
      }
    }
  }

  /** Exactly the acceptable values pass. */
  lemma ValidateIff(entity: string, v: Json, absolute: string -> bool)
    ensures Validate(entity, v, absolute) == Done <==> Acceptable(entity, v, absolute)
  {
    hide ValidateDownload, ValidateLocalMedia, HasKey, Named, Streamed, IsBlank, FirstText, Lower;
    if Lower(entity) == "download" {
      ValidDownloadIff(v);
    } else if Lower(entity) == "local_media" {
      ValidLocalMediaIff(v, absolute);
    } else if Lower(entity) == "player_session" {
      NamedIff(v, ["url", "playbackurl", "proxyurl", "sourceurl"], {"url", "playbackurl", "proxyurl", "sourceurl"});
    }
  }

  /** What is wrong with a value that is refused. */
  ghost predicate Objection(entity: string, v: Json, error: Error) {
    match error
    case DownloadReferenceRequired =>
      && Lower(entity) == "download"
      && (Named(v, {"url", "downloadurl", "requesturl", "playbackurl"})
          || forall k: nat :: !FirstText(v, "requestreference", k))
    case DownloadReferenceEmpty =>
      && Lower(entity) == "download" && !Named(v, {"url", "downloadurl", "requesturl", "playbackurl"})
      && exists k: nat :: FirstText(v, "requestreference", k) && IsBlank(v.fields[k].value.s)
    case DownloadReferenceForbidden =>
      && Lower(entity) == "download" && !Named(v, {"url", "downloadurl", "requesturl", "playbackurl"})
      && exists k: nat :: FirstText(v, "requestreference", k) && !IsBlank(v.fields[k].value.s)
                          && Streamed(v.fields[k].value.s)
    case LocalMediaPath => Lower(entity) == "local_media"
    case PlayerSessionUrl => Lower(entity) == "player_session"
    case _ => false
  }

  lemma DownloadObjection(entity: string, v: Json)
    requires Lower(entity) == "download" && ValidateDownload(v).Failed?
    ensures Objection(entity, v, ValidateDownload(v).error)
  {
    hide HasKey, FindString, Lower, IsBlank, ForbiddenReference, Streamed, Named, FirstText;
    NamedIff(v, ["url", "downloadurl", "requesturl", "playbackurl"],
             {"url", "downloadurl", "requesturl", "playbackurl"});
    TextIs(v, "requestreference");
    var text := FindString(FieldsOf(v), "requestreference");
    if text.Some? {
      StreamedIff(text.value);
    }
  }

  /** The error of a value that is not acceptable tells what is wrong with it. */
  lemma ErrorIs(entity: string, v: Json, absolute: string -> bool)
    requires Validate(entity, v, absolute).Failed?
    ensures Objection(entity, v, Validate(entity, v, absolute).error)
  {
    hide ValidateDownload, HasKey, FindString, Lower, Contains, IsBlank, Streamed, FirstText, Named;
    if Lower(entity) == "download" {
      DownloadObjection(entity, v);
    }
  }

  /** How many characters of the text are from `n` on. */
  function From(s: string, n: int): nat { if s == "" then 0 else (if s[0] as int >= n then 1 else 0) + From(s[1..], n) }

  lemma {:induction false} BytesAre(s: string)
    ensures Utf8Length(s) == |s| + From(s, 0x80) + From(s, 0x800) + From(s, 0x1_0000)
  {
    if s != "" {
      BytesAre(s[1..]);
    }
  }

  /** A key holds a character that is no white space and no more than 256 bytes, one for each
      character and one more each from U+0080, U+0800 and U+10000 on. */
  lemma KeyOkIff(key: string)
    ensures KeyOk(key)
            <==> (exists k :: 0 <= k < |key| && !IsWhitespace(key[k]))
                 && |key| + From(key, 0x80) + From(key, 0x800) + From(key, 0x1_0000) <= 256
  {
    BytesAre(key);
  }

  // ------------------------------------------------------------------ in every table

  /** A row as it may stand in the table: acceptable, and with nothing behind a secret name. */
  ghost predicate SoundRow(k: Key, row: Row, absolute: string -> bool) {
    && Acceptable(k.0, row.value, absolute)
    && forall path: seq<Step> :: ThroughSecret(path) ==> Reach(row.value, path).None?
  }

  lemma StoredIsSound(t: Table, absolute: string -> bool, k: Key)
    requires Stored(t, absolute) && k in t
    ensures SoundRow(k, t[k], absolute)
  {
    hide Validate, KeyOk, Clean, Acceptable, ThroughSecret, Reach;
    ValidateIff(k.0, t[k].value, absolute);
    CleanUnchanged(t[k].value);
    forall path: seq<Step> | ThroughSecret(path) ensures Reach(t[k].value, path).None? {
      ReachAfter(t[k].value, path);
    }
  }
}
