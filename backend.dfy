/** The request checks and table updates of the Flask backend (backend/app.py), with the SQL
    tables seen as maps: `entries` keyed by entry id, `moods` keyed by name, `user_moods` keyed
    by (user, mood id). */
module Backend {
  import opened Decimal
  import opened Wrappers

  // ---------------------------------------------------------------------------------------
  // Request bodies

  /** A JSON value of a request body field. */
  datatype Json = JNull | JBool(b: bool) | JInt(i: int) | JStr(s: string)

  /** `request.json`: `None` for a body of JSON `null`, otherwise the decoded object. */
  type Body = Option<map<string, Json>>

  /** Python truthiness of a field value. */
  predicate Truthy(v: Json)
  {
    match v
    case JNull => false
    case JBool(b) => b
    case JInt(i) => i != 0
    case JStr(s) => |s| > 0
  }

  /** `data.get(key)`: a missing key reads as `None`. */
  function Get(data: map<string, Json>, key: string): (v: Json)
    ensures key !in data ==> v == JNull
  {
    if key in data then data[key] else JNull
  }

  /** `all(field in data for field in fields)`. */
  predicate HasAll(data: map<string, Json>, fields: set<string>)
  {
    fields <= data.Keys
  }

  /** Python's `str(v)`, as an f-string prints the value. */
  function PyStr(v: Json): string
  {
    match v
    case JNull => "None"
    case JBool(b) => if b then "True" else "False"
    case JInt(i) => if i < 0 then "-" + NatToString(-i) else NatToString(i)
    case JStr(s) => s
  }

  // ---------------------------------------------------------------------------------------
  // Uploads

  const AllowedExtensions: set<string> := {"png", "jpg", "jpeg", "gif"}

  /** Lower-case of one character; only ASCII letters change. */
  function LowerChar(c: char): char
  {
    if 'A' <= c <= 'Z' then (c as int - 'A' as int + 'a' as int) as char else c
  }

  function Lower(s: string): (r: string)
    ensures |r| == |s| && forall i :: 0 <= i < |s| ==> r[i] == LowerChar(s[i])
  {
    seq(|s|, i requires 0 <= i < |s| => LowerChar(s[i]))
  }

  /** Index of the last '.' of `s`. */
  function LastDot(s: string): (r: Option<nat>)
    ensures r.None? <==> '.' !in s
    ensures r.Some? ==> r.value < |s| && s[r.value] == '.' && '.' !in s[r.value + 1..]
  {
    if |s| == 0 then None
    else if s[|s| - 1] == '.' then Some(|s| - 1)
    else
      var r := LastDot(s[..|s| - 1]);
      if r.Some? then
        assert s[r.value + 1..] == s[..|s| - 1][r.value + 1..] + [s[|s| - 1]];
        r
      else
        assert s == s[..|s| - 1] + [s[|s| - 1]];
        None
  }

  /** `allowed_file`: the text after the last '.', lower-cased, is a whitelisted extension. */
  predicate AllowedFile(filename: string)
  {
    var dot := LastDot(filename);
    dot.Some? && Lower(filename[dot.value + 1..]) in AllowedExtensions
  }

  /** `filename` is `<stem>.<ext>` with no '.' in `ext` and `ext`, lower-cased, whitelisted. */
  predicate AllowedSplit(filename: string, stem: string, ext: string)
  {
    filename == stem + "." + ext && '.' !in ext && Lower(ext) in AllowedExtensions
  }

  /** A file name is accepted exactly when it splits as `<stem>.<ext>` with no '.' in `ext`
      and `ext` lower-cased whitelisted. */
  lemma AllowedFileIff(filename: string)
    ensures AllowedFile(filename) <==> exists stem, ext :: AllowedSplit(filename, stem, ext)
  {
    if AllowedFile(filename) {
      var dot := LastDot(filename).value;
      SplitAtLastDot(filename);
      assert AllowedSplit(filename, filename[..dot], filename[dot + 1..]);
    }
    if exists stem, ext :: AllowedSplit(filename, stem, ext) {
      var stem, ext :| AllowedSplit(filename, stem, ext);
      AllowedFromSplit(filename, stem, ext);
    }
  }

  /** An accepted name splits at its last dot. */
  lemma SplitAtLastDot(filename: string)
    requires AllowedFile(filename)
    ensures var dot := LastDot(filename).value;
            AllowedSplit(filename, filename[..dot], filename[dot + 1..])
  {
    var dot := LastDot(filename).value;
    RejoinAtDot(filename, dot);
  }

  lemma RejoinAtDot(s: string, i: nat)
    requires i < |s| && s[i] == '.'
    ensures s == s[..i] + "." + s[i + 1..]
  {
    assert s == s[..i] + [s[i]] + s[i + 1..];
  }

  lemma AllowedFromSplit(filename: string, stem: string, ext: string)
    requires AllowedSplit(filename, stem, ext)
    ensures AllowedFile(filename)
  {
    LastDotAppend(stem + ".", ext);
    assert (stem + ".")[..|stem|] == stem;
    assert filename[|stem| + 1..] == ext;
  }

  /** Text without a '.' appended after the last dot leaves it where it was. */
  lemma {:induction false} LastDotAppend(s: string, ext: string)
    requires '.' !in ext
    ensures LastDot(s + ext) == LastDot(s)
  {
    if |ext| > 0 {
      var e' := ext[..|ext| - 1];
      assert ext[|ext| - 1] in ext;
      assert '.' !in e' by {
        assert forall c :: c in e' ==> c in ext;
      }
      LastDotAppend(s, e');
      AppendDropLast(s, ext);
      LastDotSkip(s + ext);
    } else {
      assert s + ext == s;
    }
  }

  lemma AppendDropLast(s: string, ext: string)
    requires |ext| > 0
    ensures (s + ext)[..|s + ext| - 1] == s + ext[..|ext| - 1]
    ensures (s + ext)[|s + ext| - 1] == ext[|ext| - 1]
  {
  }

  /** A last character other than '.' does not move the last dot. */
  lemma LastDotSkip(s: string)
    requires |s| > 0 && s[|s| - 1] != '.'
    ensures LastDot(s) == LastDot(s[..|s| - 1])
  {
  }

  lemma AllowedFileUpperCase()
    ensures AllowedFile("photo.PNG")
  {
    assert "photo.PNG" == "photo" + "." + "PNG";
    assert Lower("PNG") == "png";
    AllowedFromSplit("photo.PNG", "photo", "PNG");
  }

  /** Python's `rsplit` gives an empty stem for a name starting with the dot. */
  lemma AllowedFileNoStem()
    ensures AllowedFile(".gif")
  {
    assert ".gif" == "" + "." + "gif";
    assert Lower("gif") == "gif";
    assert AllowedSplit(".gif", "", "gif");
    AllowedFileIff(".gif");
  }

  /** Only the last extension counts. */
  lemma AllowedFileLastExtension()
    ensures !AllowedFile("archive.tar.gz")
  {
    var tgz := "archive.tar.gz";
    assert tgz[11] == '.' && '.' !in tgz[12..];
    assert Lower(tgz[12..]) == "gz";
  }

  lemma AllowedFileNoDot()
    ensures !AllowedFile("png")
  {
    assert "png"[0] != '.' && "png"[1] != '.' && "png"[2] != '.';
  }

  lemma AllowedFileTrailingDot()
    ensures !AllowedFile("image.jpeg.")
  {
    var j := "image.jpeg.";
    assert LastDot(j) == Some(10) && j[11..] == [];
  }

  /** An upload: its client file name and the path it is saved under (a fresh uuid joined to
      the sanitised name, chosen outside this model). */
  datatype Upload = Upload(filename: string, storedPath: string)

  /** `image_path`: the saved path of an upload with an allowed name, else `None`. */
  function ImagePath(upload: Option<Upload>): (p: Option<string>)
    ensures p.Some? <==> upload.Some? && AllowedFile(upload.value.filename)
    ensures p.Some? ==> p.value == upload.value.storedPath
  {
    if upload.Some? && AllowedFile(upload.value.filename) then Some(upload.value.storedPath) else None
  }

  // ---------------------------------------------------------------------------------------
  // Validation

  /** `register` before the insert: the status it returns early, or `None` to go on. A body of
      `null` fails on `.get` and a non-text password fails on `len`; both end in the generic
      500 handler. */
  function RegisterCheck(body: Body): (r: Option<int>)
    ensures r.Some? ==> r.value == 400 || r.value == 500
    ensures r == Some(500) <==>
      body.None? || (Truthy(Get(body.value, "username")) && Truthy(Get(body.value, "password"))
                     && !Get(body.value, "password").JStr?)
  {
    if body.None? then Some(500)
    else
      var username, password := Get(body.value, "username"), Get(body.value, "password");
      if !Truthy(username) || !Truthy(password) then Some(400)
      else if !password.JStr? then Some(500)
      else if |password.s| < 8 then Some(400)
      else None
  }

  /** The insert is reached exactly for a non-empty username and a text password of at
      least 8 characters. */
  lemma RegisterCheckPasses(body: Body)
    ensures RegisterCheck(body).None? <==>
      body.Some? && Truthy(Get(body.value, "username"))
      && Get(body.value, "password").JStr? && |Get(body.value, "password").s| >= 8
  {
  }

  /** A missing or empty username or password, or a short password, is refused with 400. */
  lemma RegisterBadRequest(body: map<string, Json>)
    ensures "username" !in body || body["username"] == JStr("") ==> RegisterCheck(Some(body)) == Some(400)
    ensures "password" !in body || body["password"] == JStr("") ==> RegisterCheck(Some(body)) == Some(400)
    ensures (Truthy(Get(body, "username")) && "password" in body && body["password"].JStr?
             && 0 < |body["password"].s| < 8) ==> RegisterCheck(Some(body)) == Some(400)
  {
  }

  /** `register` against the users table (usernames are unique): the status and the new table. */
  function Register(users: set<Json>, body: Body): (r: (int, set<Json>))
    ensures r.0 in {201, 400, 409, 500}
    ensures r.0 == 201 <==> RegisterCheck(body).None? && body.value["username"] !in users
    ensures r.0 == 201 ==> r.1 == users + {body.value["username"]}
    ensures r.0 != 201 ==> r.1 == users
  {
    var early := RegisterCheck(body);
    if early.Some? then (early.value, users)
    else
      var username := body.value["username"];
      if username in users then (409, users) else (201, users + {username})
  }

  /** A taken username is reported only for an otherwise valid request: validation comes first. */
  lemma ConflictOnlyWhenValid(users: set<Json>, body: Body)
    requires Register(users, body).0 == 409
    ensures RegisterCheck(body).None? && body.value["username"] in users
  {
  }

  const EntryFields: set<string> := {"date", "user_mood_id", "title", "entry_text"}

  /** `entries` POST before the upsert: an empty or `null` body and a body missing a required
      field are refused with 400. */
  function EntryPostCheck(body: Body): (r: Option<int>)
    ensures r.None? <==> body.Some? && HasAll(body.value, EntryFields)
    ensures r.Some? ==> r.value == 400
  {
    if body.None? || body.value == map[] then Some(400)
    else if !HasAll(body.value, EntryFields) then Some(400)
    else None
  }

  /** `manage_note`: the id must be a non-empty string of digits, or the request is refused
      with 400 before any table is read. */
  function NoteIdCheck(noteId: string): (r: Option<int>)
    ensures r.None? <==> |noteId| > 0 && forall i :: 0 <= i < |noteId| ==> '0' <= noteId[i] <= '9'
    ensures r.Some? ==> r.value == 400
  {
    if |noteId| > 0 && AllDigits(noteId) then None else Some(400)
  }

  /** Every printed number is an accepted note id. */
  lemma NoteIdOfNumber(n: nat)
    ensures NoteIdCheck(NatToString(n)).None?
  {
  }

  lemma NoteIdRejections()
    ensures NoteIdCheck("") == Some(400)
    ensures NoteIdCheck("-1") == Some(400)
    ensures NoteIdCheck("12a") == Some(400)
    ensures NoteIdCheck("abc") == Some(400)
  {
    assert !IsDigit("-1"[0]);
    assert !IsDigit("12a"[2]);
    assert !IsDigit("abc"[0]);
  }

  // ---------------------------------------------------------------------------------------
  // Entries

  /** A row of the `entries` table. */
  datatype EntryRow = EntryRow(userId: nat, date: Json, userMoodId: Json, title: Json,
                               imagePath: Option<string>, entryText: Json)

  /** `f'{current_user}_{data["date"]}'`. */
  function EntryId(user: nat, date: Json): (id: string)
    ensures var u := NatToString(user);
            && |u| < |id| && '_' !in u && id[..|u|] == u && id[|u|] == '_'
            && id[|u| + 1..] == PyStr(date)
  {
    NatToString(user) + "_" + PyStr(date)
  }

  /** Different users, or different printed dates, never share an entry id. */
  lemma EntryIdInjective(u1: nat, d1: Json, u2: nat, d2: Json)
    requires EntryId(u1, d1) == EntryId(u2, d2)
    ensures u1 == u2 && PyStr(d1) == PyStr(d2)
  {
    SplitAtFirstUnderscore(NatToString(u1), PyStr(d1), NatToString(u2), PyStr(d2));
    NatToStringInjective(u1, u2);
  }

  /** Text of digits before the first '_' is recovered from the joined id. */
  lemma SplitAtFirstUnderscore(a1: string, t1: string, a2: string, t2: string)
    requires AllDigits(a1) && AllDigits(a2)
    requires a1 + "_" + t1 == a2 + "_" + t2
    ensures a1 == a2 && t1 == t2
  {
    var s := a1 + "_" + t1;
    assert s[|a1|] == '_';
    assert (a2 + "_" + t2)[|a2|] == '_';
    if |a1| < |a2| {
      assert false;
    } else if |a2| < |a1| {
      assert false;
    }
    assert a1 == s[..|a1|] == a2;
    assert t1 == s[|a1| + 1..] == t2;
  }

  /** The row a valid `entries` POST body describes. */
  function NewEntryRow(user: nat, data: map<string, Json>, image: Option<string>): EntryRow
    requires HasAll(data, EntryFields)
  {
    EntryRow(user, data["date"], data["user_mood_id"], data["title"], image, data["entry_text"])
  }

  /** `INSERT ... ON CONFLICT (id) DO UPDATE`: a new id gets the row; an existing id keeps its
      id, user and date and takes the new mood, title, image path and text. */
  function UpsertEntry(entries: map<string, EntryRow>, id: string, row: EntryRow): (r: map<string, EntryRow>)
    ensures r.Keys == entries.Keys + {id}
    ensures forall k :: k in entries && k != id ==> r[k] == entries[k]
    ensures id !in entries ==> r[id] == row
    ensures id in entries ==>
      r[id] == entries[id].(userMoodId := row.userMoodId, title := row.title,
                            imagePath := row.imagePath, entryText := row.entryText)
  {
    if id in entries then
      entries[id := entries[id].(userMoodId := row.userMoodId, title := row.title,
                                 imagePath := row.imagePath, entryText := row.entryText)]
    else entries[id := row]
  }

  /** The `entries` POST handler on the table: the status, the returned id and the new table. */
  function PostEntry(entries: map<string, EntryRow>, user: nat, body: Body, upload: Option<Upload>)
    : (r: (int, Option<string>, map<string, EntryRow>))
    ensures r.0 == 200 <==> EntryPostCheck(body).None?
    ensures r.0 != 200 ==> r.0 == 400 && r.1.None? && r.2 == entries
    ensures r.0 == 200 ==> r.1 == Some(EntryId(user, body.value["date"]))
    ensures r.0 == 200 ==>
      r.2 == UpsertEntry(entries, EntryId(user, body.value["date"]),
                         NewEntryRow(user, body.value, ImagePath(upload)))
  {
    var early := EntryPostCheck(body);
    if early.Some? then (early.value, None, entries)
    else
      var id := EntryId(user, body.value["date"]);
      (200, Some(id), UpsertEntry(entries, id, NewEntryRow(user, body.value, ImagePath(upload))))
  }

  /** A post without a saved file stores no image path, also over a row that had one: the
      upsert copies `EXCLUDED.image_path`. */
  lemma PostWithoutFileClearsImage(entries: map<string, EntryRow>, user: nat, body: map<string, Json>)
    requires HasAll(body, EntryFields)
    ensures var (status, _, e) := PostEntry(entries, user, Some(body), None);
            var id := EntryId(user, body["date"]);
            status == 200 && id in e && e[id].imagePath == None
  {
  }

  /** Posting twice for the same user and date leaves one row for that id, with the identity of
      the first post (or of the row already there) and the content of the second. */
  lemma SecondPostReplaces(entries: map<string, EntryRow>, user: nat, b1: map<string, Json>,
                           b2: map<string, Json>, u1: Option<Upload>, u2: Option<Upload>)
    requires HasAll(b1, EntryFields) && HasAll(b2, EntryFields)
    requires PyStr(b1["date"]) == PyStr(b2["date"])
    ensures var (_, _, e1) := PostEntry(entries, user, Some(b1), u1);
            var (s2, id2, e2) := PostEntry(e1, user, Some(b2), u2);
            var id := EntryId(user, b1["date"]);
            && s2 == 200 && id2 == Some(id)
            && e2.Keys == entries.Keys + {id}
            && e2[id].userId == e1[id].userId && e2[id].date == e1[id].date
            && e2[id].userMoodId == b2["user_mood_id"] && e2[id].title == b2["title"]
            && e2[id].entryText == b2["entry_text"] && e2[id].imagePath == ImagePath(u2)
  {
    assert EntryId(user, b1["date"]) == EntryId(user, b2["date"]);
  }

  /** `manage_entry` PUT for an existing row of the caller: the new date, mood, title and text,
      and the image path only when a new image was saved (`COALESCE`). */
  function UpdateEntry(row: EntryRow, data: map<string, Json>, image: Option<string>): (r: EntryRow)
    requires HasAll(data, EntryFields)
    ensures image.None? ==> r.imagePath == row.imagePath
    ensures image.Some? ==> r.imagePath == image
    ensures r.userId == row.userId
    ensures r.date == data["date"] && r.userMoodId == data["user_mood_id"]
    ensures r.title == data["title"] && r.entryText == data["entry_text"]
  {
    row.(date := data["date"], userMoodId := data["user_mood_id"], title := data["title"],
         entryText := data["entry_text"], imagePath := if image.Some? then image else row.imagePath)
  }

  /** The PUT handler: 400 for an id that is not a uuid (`validUuid`, decided by the uuid
      library) or a body missing a field, 500 for a `null` body, 404 unless the row exists and
      belongs to the caller. */
  function PutEntry(entries: map<string, EntryRow>, user: nat, entryId: string, validUuid: bool,
                    body: Body, upload: Option<Upload>): (r: (int, map<string, EntryRow>))
    ensures r.0 in {200, 400, 404, 500}
    ensures r.0 != 200 ==> r.1 == entries
    ensures r.0 == 200 <==>
      validUuid && body.Some? && HasAll(body.value, EntryFields)
      && entryId in entries && entries[entryId].userId == user
    ensures r.1.Keys == entries.Keys
    ensures forall k :: k in entries && k != entryId ==> r.1[k] == entries[k]
    ensures r.0 == 200 ==>
      body.Some? && HasAll(body.value, EntryFields) && entryId in entries
      && r.1[entryId] == UpdateEntry(entries[entryId], body.value, ImagePath(upload))
  {
    if !validUuid then (400, entries)
    else if body.None? then (500, entries)
    else if !HasAll(body.value, EntryFields) then (400, entries)
    else if entryId !in entries || entries[entryId].userId != user then (404, entries)
    else (200, entries[entryId := UpdateEntry(entries[entryId], body.value, ImagePath(upload))])
  }

  // ---------------------------------------------------------------------------------------
  // Moods

  /** A row of `user_moods`: its id and the colour the user gave the mood. */
  datatype UserMood = UserMood(id: nat, color: Json)

  /** Ids below `next` are taken, each by one key. */
  ghost predicate FreshIds<K(!new)>(ids: map<K, nat>, next: nat)
  {
    (forall k :: k in ids ==> ids[k] < next)
    && (forall a, b :: a in ids && b in ids && a != b ==> ids[a] != ids[b])
  }

  /** The get-or-create of `moods` POST: the id of the mood with that name, whether it was
      created, and the new table and id counter. */
  function GetOrCreateMood(moods: map<Json, nat>, nextId: nat, name: Json): (r: (nat, bool, map<Json, nat>, nat))
    ensures r.1 <==> name !in moods
    ensures name in r.2 && r.2[name] == r.0
    ensures forall n :: n in moods ==> n in r.2 && r.2[n] == moods[n]
    ensures r.2.Keys == moods.Keys + {name}
  {
    if name in moods then (moods[name], false, moods, nextId)
    else (nextId, true, moods[name := nextId], nextId + 1)
  }

  /** Created moods get ids not used before, so ids stay unique. */
  lemma GetOrCreateKeepsFresh(moods: map<Json, nat>, nextId: nat, name: Json)
    requires FreshIds(moods, nextId)
    ensures var (_, _, moods', next') := GetOrCreateMood(moods, nextId, name);
            FreshIds(moods', next') && next' >= nextId
  {
  }

  /** Asking again for the same name finds the mood just created, unchanged. */
  lemma GetOrCreateIdempotent(moods: map<Json, nat>, nextId: nat, name: Json)
    ensures var (id, _, moods', next') := GetOrCreateMood(moods, nextId, name);
            GetOrCreateMood(moods', next', name) == (id, false, moods', next')
  {
  }

  /** `INSERT INTO user_moods ... ON CONFLICT (user_id, mood_id) DO UPDATE SET color`: the row's
      id, and the new table and id counter. */
  function UpsertUserMood(userMoods: map<(nat, Json), UserMood>, nextId: nat, key: (nat, Json), color: Json)
    : (r: (nat, map<(nat, Json), UserMood>, nat))
    ensures r.1.Keys == userMoods.Keys + {key}
    ensures r.1[key] == UserMood(r.0, color)
    ensures key in userMoods ==> r.0 == userMoods[key].id
    ensures forall k :: k in userMoods && k != key ==> r.1[k] == userMoods[k]
  {
    if key in userMoods then (userMoods[key].id, userMoods[key := userMoods[key].(color := color)], nextId)
    else (nextId, userMoods[key := UserMood(nextId, color)], nextId + 1)
  }

  function UserMoodIds(userMoods: map<(nat, Json), UserMood>): map<(nat, Json), nat>
  {
    map k | k in userMoods :: userMoods[k].id
  }

  /** The upsert changes colours only: every existing row keeps its id, new rows get fresh ids. */
  lemma UpsertUserMoodKeepsIds(userMoods: map<(nat, Json), UserMood>, nextId: nat, key: (nat, Json), color: Json)
    requires FreshIds(UserMoodIds(userMoods), nextId)
    ensures var (_, um', next') := UpsertUserMood(userMoods, nextId, key, color);
            && (forall k :: k in userMoods ==> um'[k].id == userMoods[k].id)
            && FreshIds(UserMoodIds(um'), next')
  {
    var (_, um', next') := UpsertUserMood(userMoods, nextId, key, color);
    var ids, ids' := UserMoodIds(userMoods), UserMoodIds(um');
    IdsOfUpdate(userMoods, key, um'[key]);
    if key in userMoods {
      assert um'[key].id == ids[key];
      FreshSameId(ids, nextId, key);
    } else {
      FreshInsert(ids, nextId, key);
    }
  }

  lemma IdsOfUpdate(userMoods: map<(nat, Json), UserMood>, key: (nat, Json), row: UserMood)
    ensures UserMoodIds(userMoods[key := row]) == UserMoodIds(userMoods)[key := row.id]
  {
  }

  /** Rewriting a key with the id it already has keeps ids unique. */
  lemma FreshSameId<K(!new)>(ids: map<K, nat>, next: nat, key: K)
    requires FreshIds(ids, next) && key in ids
    ensures FreshIds(ids[key := ids[key]], next)
  {
  }

  /** Giving a new key the next id keeps ids unique and below the advanced counter. */
  lemma FreshInsert<K(!new)>(ids: map<K, nat>, next: nat, key: K)
    requires FreshIds(ids, next) && key !in ids
    ensures FreshIds(ids[key := next], next + 1)
  {
  }

  /** The reply of `moods` POST. */
  datatype MoodReply = MoodReply(id: nat, name: Json, isNew: bool, color: Json, userMoodId: Option<nat>)

  /** The whole state the backend keeps, as tables. */
  class Database {
    var users: set<Json>
    var entries: map<string, EntryRow>
    var moods: map<Json, nat>
    var nextMoodId: nat
    var userMoods: map<(nat, Json), UserMood>
    var nextUserMoodId: nat

    /** Serial ids are unique and below their counters. */
    ghost predicate Valid()
      reads this
    {
      FreshIds(moods, nextMoodId) && FreshIds(UserMoodIds(userMoods), nextUserMoodId)
    }

    constructor ()
      ensures Valid()
      ensures users == {} && entries == map[] && moods == map[] && userMoods == map[]
    {
      users, entries, moods, userMoods := {}, map[], map[], map[];
      nextMoodId, nextUserMoodId := 1, 1;
    }

    /** `POST /api/register`. */
    method RegisterUser(body: Body) returns (status: int)
      modifies this`users
      ensures (status, users) == Register(old(users), body)
    {
      var early := RegisterCheck(body);
      if early.Some? {
        return early.value;
      }
      var username := body.value["username"];
      if username in users {
        return 409;
      }
      users := users + {username};
      return 201;
    }

    /** `POST /api/entries`. */
    method PostEntryRequest(user: nat, body: Body, upload: Option<Upload>) returns (status: int, id: Option<string>)
      modifies this`entries
      ensures (status, id, entries) == PostEntry(old(entries), user, body, upload)
    {
      var early := EntryPostCheck(body);
      if early.Some? {
        return early.value, None;
      }
      var entryId := EntryId(user, body.value["date"]);
      entries := UpsertEntry(entries, entryId, NewEntryRow(user, body.value, ImagePath(upload)));
      return 200, Some(entryId);
    }

    /** `PUT /api/entries/<entry_id>`. */
    method PutEntryRequest(user: nat, entryId: string, validUuid: bool, body: Body, upload: Option<Upload>)
      returns (status: int)
      modifies this`entries
      ensures (status, entries) == PutEntry(old(entries), user, entryId, validUuid, body, upload)
    {
      var r := PutEntry(entries, user, entryId, validUuid, body, upload);
      status, entries := r.0, r.1;
    }

    /** `POST /api/moods`: get-or-create the mood by name; with a truthy colour, upsert the
        caller's colour for it. 201 when the mood was created, 200 when it existed; a `null`
        body fails the field test outside the handler's `try` (500). */
    method PostMood(user: nat, body: Body) returns (status: int, reply: Option<MoodReply>)
      requires Valid()
      modifies this`moods, this`nextMoodId, this`userMoods, this`nextUserMoodId
      ensures Valid()
      ensures body.None? ==> status == 500 && reply.None?
      ensures body.Some? && "name" !in body.value ==> status == 400 && reply.None?
      ensures body.None? || "name" !in body.value ==>
        moods == old(moods) && userMoods == old(userMoods)
      ensures body.Some? && "name" in body.value ==>
        var name := body.value["name"];
        var color := Get(body.value, "color");
        && reply.Some?
        && (reply.value.isNew <==> name !in old(moods))
        && (status == if reply.value.isNew then 201 else 200)
        && moods == old(moods)[name := reply.value.id]
        && (name in old(moods) ==> reply.value.id == old(moods)[name])
        && reply.value.name == name && reply.value.color == color
        && (Truthy(color) ==>
              reply.value.userMoodId.Some?
              && userMoods.Keys == old(userMoods).Keys + {(user, JInt(reply.value.id))}
              && userMoods[(user, JInt(reply.value.id))] == UserMood(reply.value.userMoodId.value, color)
              && ((user, JInt(reply.value.id)) in old(userMoods) ==>
                    reply.value.userMoodId.value == old(userMoods)[(user, JInt(reply.value.id))].id)
              && forall k :: k in old(userMoods) && k != (user, JInt(reply.value.id)) ==> userMoods[k] == old(userMoods)[k])
        && (!Truthy(color) ==> reply.value.userMoodId.None? && userMoods == old(userMoods))
    {
      if body.None? {
        return 500, None;
      }
      if "name" !in body.value {
        return 400, None;
      }
      var name := body.value["name"];
      var color := Get(body.value, "color");
      GetOrCreateKeepsFresh(moods, nextMoodId, name);
      var (moodId, isNew, moods', next') := GetOrCreateMood(moods, nextMoodId, name);
      moods, nextMoodId := moods', next';
      var userMoodId: Option<nat> := None;
      if Truthy(color) {
        var key := (user, JInt(moodId));
        UpsertUserMoodKeepsIds(userMoods, nextUserMoodId, key, color);
        var r := UpsertUserMood(userMoods, nextUserMoodId, key, color);
        userMoods, nextUserMoodId := r.1, r.2;
        userMoodId := Some(r.0);
      }
      status := if isNew then 201 else 200;
      reply := Some(MoodReply(moodId, name, isNew, color, userMoodId));
    }

    /** `POST /api/user_moods`: upsert the caller's colour for a mood id. */
    method PostUserMood(user: nat, body: Body) returns (status: int, userMoodId: Option<nat>)
      requires Valid()
      modifies this`userMoods, this`nextUserMoodId
      ensures Valid()
      ensures body.None? ==> status == 500 && userMoodId.None? && userMoods == old(userMoods)
      ensures body.Some? && !HasAll(body.value, {"mood_id", "color"}) ==>
        status == 400 && userMoodId.None? && userMoods == old(userMoods)
      ensures body.Some? && HasAll(body.value, {"mood_id", "color"}) ==>
        var key := (user, body.value["mood_id"]);
        && status == 200 && userMoodId.Some?
        && userMoods.Keys == old(userMoods).Keys + {key}
        && userMoods[key] == UserMood(userMoodId.value, body.value["color"])
        && (key in old(userMoods) ==> userMoodId.value == old(userMoods)[key].id)
        && forall k :: k in old(userMoods) && k != key ==> userMoods[k] == old(userMoods)[k]
    {
      if body.None? {
        return 500, None;
      }
      if !HasAll(body.value, {"mood_id", "color"}) {
        return 400, None;
      }
      var key := (user, body.value["mood_id"]);
      UpsertUserMoodKeepsIds(userMoods, nextUserMoodId, key, body.value["color"]);
      var r := UpsertUserMood(userMoods, nextUserMoodId, key, body.value["color"]);
      userMoods, nextUserMoodId := r.1, r.2;
      return 200, Some(r.0);
    }
  }
}
