/** The backend of the productivity hub: a credential list, an in-memory session
    map and one JSON document ("bundle") per user, reached through REST handlers
    that check a bearer token first. The disk is a map from file name to bundle;
    the credential file `users.json` is the sequence `users`. Every handler runs
    to completion without interleaving. */
module Server {
  import opened JsValues

  datatype Profile = Profile(name: string, phone: string, school: string, goal: string, updatedAt: string)

  /** The per-user document `{profile, todos, events}`. */
  datatype Bundle = Bundle(profile: Option<Profile>, todos: seq<Todo>, events: seq<Event>)

  /** One entry of `users.json`. */
  datatype UserRecord = UserRecord(username: string, password: string, profileFile: Option<string>)

  const EmptyBundle := Bundle(None, [], [])
  const UsersFile := "users.json"
  const BearerPrefix := "Bearer "
  const FallbackName := "user"
  const DocumentExtension := ".json"

  const OK := 200
  const BAD_REQUEST := 400
  const UNAUTHORIZED := 401
  const CONFLICT := 409
  /** A handler that throws after it has written (TypeError on a missing record). */
  const SERVER_ERROR := 500

  /** JavaScript truthiness of an optional string: present and not "". */
  predicate Truthy(v: Option<string>)
  {
    v.Some? && v.value != ""
  }

  // ---------------------------------------------------------------------------
  // Document names

  /** The characters `[A-Za-z0-9_-]` that the file-name filter keeps. Without the
      `u` flag, case-insensitive matching never maps a non-ASCII character onto
      an ASCII one, so the class is exactly these 64 ASCII characters. */
  predicate IsFileNameChar(c: char)
  {
    ('a' <= c <= 'z') || ('A' <= c <= 'Z') || ('0' <= c <= '9') || c == '_' || c == '-'
  }

  /** `name.replace(/[^a-z0-9_-]/gi, '')`. */
  function Sanitize(name: string): (r: string)
    ensures |r| <= |name|
    ensures forall i :: 0 <= i < |r| ==> IsFileNameChar(r[i])
    ensures forall c :: c in r <==> c in name && IsFileNameChar(c)
  {
    Filter(name, IsFileNameChar)
  }

  /** The filter keeps the allowed characters of each part, in order. */
  lemma SanitizeAppend(a: string, b: string)
    ensures Sanitize(a + b) == Sanitize(a) + Sanitize(b)
  {
    FilterAppend(a, b, IsFileNameChar);
  }

  /** A name is left unchanged exactly when it has only allowed characters; so sanitizing is idempotent. */
  lemma SanitizeFixedPoints(name: string)
    ensures Sanitize(name) == name <==> forall i :: 0 <= i < |name| ==> IsFileNameChar(name[i])
    ensures Sanitize(Sanitize(name)) == Sanitize(name)
  {
    FilterIdentity(name, IsFileNameChar);
    FilterIdempotent(name, IsFileNameChar);
  }

  /** The document a profile save writes: `(sanitizeFileName(name) || 'user') + '.json'`. */
  function ProfileFileName(name: string): (r: string)
    ensures |r| > |DocumentExtension| && r[|r| - |DocumentExtension|..] == DocumentExtension
    ensures var stem := r[..|r| - |DocumentExtension|];
      && (forall i :: 0 <= i < |stem| ==> IsFileNameChar(stem[i]))
      && (if Sanitize(name) == "" then stem == FallbackName else stem == Sanitize(name))
  {
    var safe := Sanitize(name);
    var stem := if safe == "" then FallbackName else safe;
    assert (stem + DocumentExtension)[..|stem|] == stem;
    stem + DocumentExtension
  }

  /** The document a list save writes for a user without one: `sanitizeFileName(username) + '.json'`,
      with no fallback name. */
  function DefaultFileName(username: string): (r: string)
    ensures |r| >= |DocumentExtension| && r[|r| - |DocumentExtension|..] == DocumentExtension
    ensures r[..|r| - |DocumentExtension|] == Sanitize(username)
  {
    var stem := Sanitize(username);
    assert (stem + DocumentExtension)[..|stem|] == stem;
    stem + DocumentExtension
  }

  /** A name made only of allowed characters is kept verbatim in front of the extension. */
  lemma ProfileFileNameKeepsSafeNames(name: string)
    requires name != "" && forall i :: 0 <= i < |name| ==> IsFileNameChar(name[i])
    ensures ProfileFileName(name) == name + DocumentExtension
  {
    SanitizeFixedPoints(name);
  }

  /** A string with no allowed character is sanitized to nothing: a profile save then uses
      the fallback `user.json`, while a list save uses the bare extension `.json`. */
  lemma JunkNames(name: string)
    requires forall i :: 0 <= i < |name| ==> !IsFileNameChar(name[i])
    ensures Sanitize(name) == ""
    ensures ProfileFileName(name) == FallbackName + DocumentExtension
    ensures DefaultFileName(name) == DocumentExtension
  {
  }

  /** Usernames that differ only in characters the filter drops share one default
      document (`bob` and `bob!` both write `bob.json`). */
  lemma DefaultFileNameIgnoresJunk(name: string, junk: string)
    requires forall i :: 0 <= i < |junk| ==> !IsFileNameChar(junk[i])
    ensures DefaultFileName(name + junk) == DefaultFileName(name)
  {
    SanitizeAppend(name, junk);
    JunkNames(junk);
    assert Sanitize(name) + "" == Sanitize(name);
  }

  /** Every profile name that sanitizes to `users` (`users`, `users!`, `us ers`) is given
      the name of the credential file. */
  lemma ProfileFileNameAliasesUsersFile(name: string)
    requires Sanitize(name) == "users"
    ensures ProfileFileName(name) == UsersFile
  {
    assert Sanitize(name) + DocumentExtension == UsersFile;
  }

  /** Profile names that sanitize alike share one document (`Jane Doe` and `JaneDoe!`). */
  lemma ProfileFileNameCollides(a: string, b: string)
    requires Sanitize(a) == Sanitize(b)
    ensures ProfileFileName(a) == ProfileFileName(b)
  {
  }

  /** Every username that sanitizes to `users` is given the name of the credential file
      by a list save. */
  lemma DefaultFileNameAliasesUsersFile(name: string)
    requires Sanitize(name) == "users"
    ensures DefaultFileName(name) == UsersFile
  {
    assert Sanitize(name) + DocumentExtension == UsersFile;
  }

  // ---------------------------------------------------------------------------
  // Bearer tokens

  /** `header.startsWith('Bearer ') ? header.substring(7) : null`, case-sensitive. */
  function BearerToken(header: string): (r: Option<string>)
    ensures r.Some? <==> |header| >= |BearerPrefix| && header[..|BearerPrefix|] == BearerPrefix
    ensures r.Some? ==> header == BearerPrefix + r.value
  {
    if |header| >= |BearerPrefix| && header[..|BearerPrefix|] == BearerPrefix then
      assert header == header[..|BearerPrefix|] + header[|BearerPrefix|..];
      Some(header[|BearerPrefix|..])
    else None
  }

  /** The header a client builds from a token yields that token back. */
  lemma BearerRoundTrip(token: string)
    ensures BearerToken(BearerPrefix + token) == Some(token)
  {
    assert (BearerPrefix + token)[..|BearerPrefix|] == BearerPrefix;
    assert (BearerPrefix + token)[|BearerPrefix|..] == token;
  }

  /** The gate of `requireAuth`: the username of a non-empty token found in `sessions`. */
  function Authenticate(sessions: map<string, string>, header: string): (r: Option<string>)
    ensures r.Some? <==> |header| > |BearerPrefix| && header[..|BearerPrefix|] == BearerPrefix && header[|BearerPrefix|..] in sessions
    ensures r.Some? ==> r.value == sessions[header[|BearerPrefix|..]]
  {
    var token := BearerToken(header);
    if token.Some? && token.value != "" && token.value in sessions then Some(sessions[token.value]) else None
  }

  /** The header `Bearer <t>` passes the gate exactly when `t` is a non-empty live token. */
  lemma AuthenticateToken(sessions: map<string, string>, t: string)
    ensures Authenticate(sessions, BearerPrefix + t) == if t != "" && t in sessions then Some(sessions[t]) else None
  {
    BearerRoundTrip(t);
  }

  /** A session token as the login handler makes it: 24 random bytes in lower-case hex. */
  predicate IsSessionToken(token: string)
  {
    |token| == 48 && forall i :: 0 <= i < |token| ==> ('0' <= token[i] <= '9') || ('a' <= token[i] <= 'f')
  }

  // ---------------------------------------------------------------------------
  // Credential records and documents

  predicate UniqueUsernames(users: seq<UserRecord>)
  {
    forall i, j :: 0 <= i < j < |users| ==> users[i].username != users[j].username
  }

  predicate IsRegistered(users: seq<UserRecord>, name: string)
  {
    exists i :: 0 <= i < |users| && users[i].username == name
  }

  /** `users.find(entry => entry.username === name)`, as an index. */
  function FindUser(users: seq<UserRecord>, name: string): (r: Option<nat>)
    ensures r.Some? ==> r.value < |users| && users[r.value].username == name
    ensures r.Some? ==> forall j :: 0 <= j < r.value ==> users[j].username != name
    ensures r.None? <==> !IsRegistered(users, name)
  {
    FindIndex(users, (u: UserRecord) => u.username == name)
  }

  /** `users.find(entry => entry.username === username && entry.password === password)`. */
  function FindCredential(users: seq<UserRecord>, username: Option<string>, password: Option<string>): (r: Option<nat>)
    ensures r.Some? ==> r.value < |users| && Some(users[r.value].username) == username && Some(users[r.value].password) == password
    ensures r.Some? ==> forall j :: 0 <= j < r.value ==> !(Some(users[j].username) == username && Some(users[j].password) == password)
    ensures r.None? <==> forall j :: 0 <= j < |users| ==> !(Some(users[j].username) == username && Some(users[j].password) == password)
  {
    FindIndex(users, (u: UserRecord) => Some(u.username) == username && Some(u.password) == password)
  }

  /** The first record with `name` is not moved by an update that keeps every username. */
  lemma FindUserSameNames(users: seq<UserRecord>, users': seq<UserRecord>, name: string)
    requires |users'| == |users|
    requires forall i :: 0 <= i < |users| ==> users'[i].username == users[i].username
    ensures FindUser(users', name) == FindUser(users, name)
  {
    var a, b := FindUser(users, name), FindUser(users', name);
    if a.Some? { assert users'[a.value].username == name; }
    if b.Some? { assert users[b.value].username == name; }
    if a.Some? && b.Some? {
      assert !(a.value < b.value) && !(b.value < a.value);
    }
  }

  /** `loadUserBundle`: a missing reference or a missing file reads as the empty document. */
  function LoadBundle(files: map<string, Bundle>, profileFile: Option<string>): (b: Bundle)
    ensures !Truthy(profileFile) ==> b == EmptyBundle
    ensures Truthy(profileFile) && profileFile.value !in files ==> b == EmptyBundle
    ensures Truthy(profileFile) && profileFile.value in files ==> b == files[profileFile.value]
  {
    if !Truthy(profileFile) then EmptyBundle
    else if profileFile.value in files then files[profileFile.value]
    else EmptyBundle
  }

  /** `saveUserBundle` then `loadUserBundle` of the same file gives back what was saved. */
  lemma LoadAfterSave(files: map<string, Bundle>, file: string, b: Bundle, other: string)
    requires file != ""
    ensures LoadBundle(files[file := b], Some(file)) == b
    ensures other != file ==> LoadBundle(files[file := b], Some(other)) == LoadBundle(files, Some(other))
  {
  }

  /** `user && user.profileFile`: the reference of the first record with that name, if any. */
  function FileOf(users: seq<UserRecord>, name: string): (r: Option<string>)
    ensures !IsRegistered(users, name) ==> r == None
    ensures forall i :: 0 <= i < |users| && users[i].username == name && (forall j :: 0 <= j < i ==> users[j].username != name)
                        ==> r == users[i].profileFile
  {
    match FindUser(users, name)
    case None => None
    case Some(i) =>
      assert forall k :: 0 <= k < |users| && users[k].username == name && (forall j :: 0 <= j < k ==> users[j].username != name) ==> k == i by {
        forall k | 0 <= k < |users| && users[k].username == name && (forall j :: 0 <= j < k ==> users[j].username != name)
          ensures k == i
        {
          assert !(k < i) && !(i < k);
        }
      }
      users[i].profileFile
  }

  /** The document a list save writes to (server.js lines 154 and 179): the user's own
      reference when it is truthy, otherwise the default name for the username. */
  function TargetFile(users: seq<UserRecord>, name: string): (r: string)
    ensures r != ""
    ensures Truthy(FileOf(users, name)) ==> r == FileOf(users, name).value
    ensures !Truthy(FileOf(users, name)) ==> r == DefaultFileName(name)
  {
    var f := FileOf(users, name);
    if Truthy(f) then f.value else DefaultFileName(name)
  }

  /** A list save for a user who has no document yet and whose username sanitizes to
      `users` (`users`, `users!`, `us ers`) writes to the credential file. */
  lemma ListSaveTargetsUsersFile(users: seq<UserRecord>, name: string)
    requires !Truthy(FileOf(users, name)) && Sanitize(name) == "users"
    ensures TargetFile(users, name) == UsersFile
  {
    DefaultFileNameAliasesUsersFile(name);
  }

  /** What the handlers keep: unique, non-empty usernames and passwords, and every
      session naming a registered user with a non-empty token. */
  ghost predicate ValidState(users: seq<UserRecord>, sessions: map<string, string>)
  {
    && UniqueUsernames(users)
    && (forall i :: 0 <= i < |users| ==> users[i].username != "" && users[i].password != "")
    && (forall t :: t in sessions ==> t != "" && IsRegistered(users, sessions[t]))
  }

  /** `user.profileFile = file` on the first record named `name`, if there is one. */
  function Claimed(users: seq<UserRecord>, name: string, file: string): (r: seq<UserRecord>)
    ensures |r| == |users|
    ensures forall i :: 0 <= i < |users| ==> r[i].username == users[i].username && r[i].password == users[i].password
    ensures forall i :: 0 <= i < |users| && users[i].username != name ==> r[i] == users[i]
    ensures IsRegistered(users, name) ==> FileOf(r, name) == Some(file)
    ensures !IsRegistered(users, name) ==> r == users
  {
    match FindUser(users, name)
    case None => users
    case Some(i) =>
      var r := users[i := users[i].(profileFile := Some(file))];
      FindUserSameNames(users, r, name);
      r
  }

  /** Pointing one user's record at a document leaves every other user's reference alone. */
  lemma ClaimedKeepsOthers(users: seq<UserRecord>, name: string, other: string, file: string)
    requires other != name
    ensures FileOf(Claimed(users, name, file), other) == FileOf(users, other)
  {
    var r := Claimed(users, name, file);
    FindUserSameNames(users, r, other);
    assert IsRegistered(r, other) <==> IsRegistered(users, other) by {
      SameNamesRegistered(users, r);
    }
  }

  /** Two registered users who save the same profile name are both pointed at one
      document, so each then reads the other's lists. */
  lemma SharedProfileDocument(users: seq<UserRecord>, u1: string, u2: string, name: string)
    requires u1 != u2 && IsRegistered(users, u1) && IsRegistered(users, u2)
    ensures var file := ProfileFileName(name);
      var after := Claimed(Claimed(users, u1, file), u2, file);
      FileOf(after, u1) == Some(file) && FileOf(after, u2) == Some(file)
  {
    var file := ProfileFileName(name);
    var mid := Claimed(users, u1, file);
    SameNamesRegistered(users, mid);
    ClaimedKeepsOthers(mid, u2, u1, file);
  }

  /** Pointing a record at a document keeps the credential invariant. */
  lemma ClaimedValid(users: seq<UserRecord>, sessions: map<string, string>, name: string, file: string)
    ensures ValidState(users, sessions) ==> ValidState(Claimed(users, name, file), sessions)
  {
    SameNamesRegistered(users, Claimed(users, name, file));
  }

  /** The records after a list save for `name` into `file`: the first record named
      `name` is pointed at `file` unless its reference is already truthy. */
  function ListSaveUsers(users: seq<UserRecord>, name: string, file: string): (r: seq<UserRecord>)
    ensures Truthy(FileOf(users, name)) ==> r == users
    ensures !Truthy(FileOf(users, name)) ==> r == Claimed(users, name, file)
  {
    if Truthy(FileOf(users, name)) then users else Claimed(users, name, file)
  }

  /** After a list save, the user's record refers to the document that was written, so
      the next read of the list returns what was saved; for a user without a record the
      records stay as they were. */
  lemma ListSaveReadsBack(users: seq<UserRecord>, files: map<string, Bundle>, name: string, b: Bundle)
    ensures var file := TargetFile(users, name);
      && (IsRegistered(users, name) ==> FileOf(ListSaveUsers(users, name, file), name) == Some(file))
      && (IsRegistered(users, name) ==> LoadBundle(files[file := b], FileOf(ListSaveUsers(users, name, file), name)) == b)
      && (!IsRegistered(users, name) ==> ListSaveUsers(users, name, file) == users)
  {
    var file := TargetFile(users, name);
    if IsRegistered(users, name) && Truthy(FileOf(users, name)) {
      assert ListSaveUsers(users, name, file) == users;
    }
  }

  /** After a profile save, a registered user's record refers to the document that was
      written, so the next read returns it. */
  lemma ProfileSaveReadsBack(users: seq<UserRecord>, files: map<string, Bundle>, name: string, file: string, b: Bundle)
    requires IsRegistered(users, name) && file != ""
    ensures FileOf(Claimed(users, name, file), name) == Some(file)
    ensures LoadBundle(files[file := b], FileOf(Claimed(users, name, file), name)) == b
  {
  }

  /** A list save keeps the credential invariant. */
  lemma ListSaveValid(users: seq<UserRecord>, sessions: map<string, string>, name: string, file: string)
    ensures ValidState(users, sessions) ==> ValidState(ListSaveUsers(users, name, file), sessions)
  {
    ClaimedValid(users, sessions, name, file);
  }

  // ---------------------------------------------------------------------------
  // The server

  class UserStore {
    /** The records of `users.json`, in file order. */
    var users: seq<UserRecord>
    /** The process-lifetime session map, token to username. */
    var sessions: map<string, string>
    /** The user documents on disk, by file name. */
    var files: map<string, Bundle>

    /** The credential invariant on the current state. */
    ghost predicate Valid()
      reads this
    {
      ValidState(users, sessions)
    }

    /** The document the user `name` sees: the one its record refers to. */
    function DocumentOf(name: string): Bundle
      reads this
    {
      LoadBundle(files, FileOf(users, name))
    }

    /** Process start: the files on disk are read as they are and no session exists.
        A missing `users.json` reads as `{users: []}`. */
    constructor (storedUsers: seq<UserRecord>, storedFiles: map<string, Bundle>)
      ensures users == storedUsers && files == storedFiles && sessions == map[]
      ensures Valid() <==> UniqueUsernames(storedUsers) && forall i :: 0 <= i < |storedUsers| ==> storedUsers[i].username != "" && storedUsers[i].password != ""
    {
      users := storedUsers;
      sessions := map[];
      files := storedFiles;
    }

    /** POST /api/register. */
    method Register(username: Option<string>, password: Option<string>) returns (status: int)
      modifies this
      ensures sessions == old(sessions) && files == old(files)
      ensures !Truthy(username) || !Truthy(password) ==> status == BAD_REQUEST && users == old(users)
      ensures Truthy(username) && Truthy(password) && IsRegistered(old(users), username.value)
              ==> status == CONFLICT && users == old(users)
      ensures Truthy(username) && Truthy(password) && !IsRegistered(old(users), username.value)
              ==> status == OK && users == old(users) + [UserRecord(username.value, password.value, None)]
      ensures old(Valid()) ==> Valid()
    {
      if !Truthy(username) || !Truthy(password) {
        return BAD_REQUEST;
      }
      if FindUser(users, username.value).Some? {
        return CONFLICT;
      }
      ghost var before := users;
      users := users + [UserRecord(username.value, password.value, None)];
      assert forall n :: IsRegistered(before, n) ==> IsRegistered(users, n) by {
        forall n | IsRegistered(before, n) ensures IsRegistered(users, n) {
          var i :| 0 <= i < |before| && before[i].username == n;
          assert users[i].username == n;
        }
      }
      status := OK;
    }

    /** POST /api/login with a fresh token from the random source. The token is not
        checked against existing sessions: a collision overwrites. */
    method Login(username: Option<string>, password: Option<string>, token: string)
      returns (status: int, bundle: Bundle, profileFile: Option<string>)
      requires IsSessionToken(token)
      modifies this
      ensures users == old(users) && files == old(files)
      ensures status == OK || status == UNAUTHORIZED
      ensures status == OK <==> exists i :: 0 <= i < |users| && Some(users[i].username) == username && Some(users[i].password) == password
      ensures status == UNAUTHORIZED ==> sessions == old(sessions) && bundle == EmptyBundle && profileFile == None
      ensures status == OK ==> username.Some? && sessions == old(sessions)[token := username.value]
      ensures status == OK ==>
        var i := FindCredential(users, username, password).value;
        profileFile == users[i].profileFile && bundle == LoadBundle(files, profileFile)
      ensures status == OK && UniqueUsernames(users) ==> profileFile == FileOf(users, username.value) && bundle == DocumentOf(username.value)
      ensures old(Valid()) ==> Valid()
    {
      var found := FindCredential(users, username, password);
      if found.None? {
        return UNAUTHORIZED, EmptyBundle, None;
      }
      var user := users[found.value];
      sessions := sessions[token := username.value];
      assert IsRegistered(users, username.value) by { assert users[found.value].username == username.value; }
      status, bundle, profileFile := OK, LoadBundle(files, user.profileFile), user.profileFile;
    }

    /** POST /api/logout: drops the session of a well-formed token; always answers success. */
    method Logout(header: string) returns (status: int)
      modifies this`sessions
      ensures status == OK
      ensures match BearerToken(header)
        case Some(t) => sessions == if t != "" then old(sessions) - {t} else old(sessions)
        case None => sessions == old(sessions)
      ensures old(Valid()) ==> Valid()
    {
      var token := BearerToken(header);
      if token.Some? && token.value != "" && token.value in sessions {
        sessions := sessions - {token.value};
      }
      status := OK;
    }

    /** GET /api/user. */
    method GetUser(header: string) returns (status: int, bundle: Bundle, profileFile: Option<string>)
      ensures Authenticate(sessions, header).None? ==> status == UNAUTHORIZED && bundle == EmptyBundle && profileFile == None
      ensures Authenticate(sessions, header).Some? ==>
        var name := Authenticate(sessions, header).value;
        status == OK && profileFile == FileOf(users, name) && bundle == LoadBundle(files, profileFile)
    {
      var name := Authenticate(sessions, header);
      if name.None? {
        return UNAUTHORIZED, EmptyBundle, None;
      }
      profileFile := FileOf(users, name.value);
      bundle := LoadBundle(files, profileFile);
      status := OK;
    }

    /** POST /api/user: the gate, the field check, then the save. */
    method PostUser(header: string, name: Option<string>, phone: Option<string>, school: Option<string>,
                    goal: Option<string>, now: string)
      returns (status: int, bundle: Bundle, profileFile: Option<string>)
      modifies this
      ensures sessions == old(sessions)
      ensures Authenticate(sessions, header).None? ==> status == UNAUTHORIZED && unchanged(this)
      ensures Authenticate(sessions, header).Some? && !(Truthy(name) && Truthy(phone) && Truthy(school) && Truthy(goal))
              ==> status == BAD_REQUEST && unchanged(this)
      ensures Authenticate(sessions, header).Some? && Truthy(name) && Truthy(phone) && Truthy(school) && Truthy(goal) ==>
        var user := Authenticate(sessions, header).value;
        var file := ProfileFileName(name.value);
        && status == OK
        && profileFile == Some(file)
        && bundle == LoadBundle(old(files), Some(file)).(profile := Some(Profile(name.value, phone.value, school.value, goal.value, now)))
        && files == old(files)[file := bundle]
        && users == Claimed(old(users), user, file)
      ensures old(Valid()) ==> Valid()
    {
      var who := Authenticate(sessions, header);
      if who.None? {
        return UNAUTHORIZED, EmptyBundle, None;
      }
      if !(Truthy(name) && Truthy(phone) && Truthy(school) && Truthy(goal)) {
        return BAD_REQUEST, EmptyBundle, None;
      }
      bundle, profileFile := SaveProfile(who.value, Profile(name.value, phone.value, school.value, goal.value, now));
      status := OK;
    }

    /** The body of POST /api/user once the fields are present: the document is named
        after the profile name (not after the user's current document), the profile is
        written into it, and the user's record is pointed at it. */
    method SaveProfile(user: string, profile: Profile) returns (bundle: Bundle, profileFile: Option<string>)
      modifies this`users, this`files
      ensures var file := ProfileFileName(profile.name);
        && profileFile == Some(file)
        && bundle == LoadBundle(old(files), Some(file)).(profile := Some(profile))
        && files == old(files)[file := bundle]
        && users == Claimed(old(users), user, file)
      ensures old(Valid()) ==> Valid()
    {
      var file := ProfileFileName(profile.name);
      bundle := LoadBundle(files, Some(file));
      bundle := bundle.(profile := Some(profile));
      files := files[file := bundle];
      ClaimedValid(users, sessions, user, file);
      var found := FindUser(users, user);
      if found.Some? {
        users := users[found.value := users[found.value].(profileFile := Some(file))];
      }
      profileFile := Some(file);
    }

    /** GET /api/todos. */
    method GetTodos(header: string) returns (status: int, todos: seq<Todo>)
      ensures Authenticate(sessions, header).None? ==> status == UNAUTHORIZED && todos == []
      ensures Authenticate(sessions, header).Some? ==> status == OK && todos == DocumentOf(Authenticate(sessions, header).value).todos
    {
      var name := Authenticate(sessions, header);
      if name.None? {
        return UNAUTHORIZED, [];
      }
      var bundle := LoadBundle(files, FileOf(users, name.value));
      status, todos := OK, bundle.todos;
    }

    /** POST /api/todos: the gate, the array check, then the save. */
    method PostTodos(header: string, body: Body<Todo>) returns (status: int, todos: seq<Todo>)
      modifies this
      ensures sessions == old(sessions)
      ensures Authenticate(sessions, header).None? ==> status == UNAUTHORIZED && unchanged(this)
      ensures Authenticate(sessions, header).Some? && body.NotArray? ==> status == BAD_REQUEST && unchanged(this)
      ensures Authenticate(sessions, header).Some? && body.ArrayValue? ==>
        var user := Authenticate(sessions, header).value;
        var file := TargetFile(old(users), user);
        && files == old(files)[file := LoadBundle(old(files), Some(file)).(todos := body.items)]
        && users == ListSaveUsers(old(users), user, file)
        && status == (if IsRegistered(old(users), user) then OK else SERVER_ERROR)
        && todos == (if status == OK then body.items else [])
      ensures old(Valid()) && Authenticate(sessions, header).Some? && body.ArrayValue? ==> status == OK
      ensures old(Valid()) ==> Valid()
    {
      var who := Authenticate(sessions, header);
      if who.None? {
        return UNAUTHORIZED, [];
      }
      if body.NotArray? {
        return BAD_REQUEST, [];
      }
      if Valid() {
        assert IsRegistered(users, who.value) by {
          assert BearerToken(header).value in sessions;
        }
      }
      status, todos := SaveTodos(who.value, body.items);
    }

    /** The body of POST /api/todos once the list is an array: writes it into the
        user's target document and, if the record had no reference, points the record
        there. A user without a record makes the handler throw after the write. */
    method SaveTodos(user: string, items: seq<Todo>) returns (status: int, todos: seq<Todo>)
      modifies this`users, this`files
      ensures var file := TargetFile(old(users), user);
        && files == old(files)[file := LoadBundle(old(files), Some(file)).(todos := items)]
        && users == ListSaveUsers(old(users), user, file)
        && status == (if IsRegistered(old(users), user) then OK else SERVER_ERROR)
        && todos == (if status == OK then items else [])
      ensures old(Valid()) ==> Valid()
    {
      var found := FindUser(users, user);
      var file := TargetFile(users, user);
      var bundle := LoadBundle(files, Some(file));
      bundle := bundle.(todos := items);
      files := files[file := bundle];
      ListSaveValid(users, sessions, user, file);
      if found.None? {
        return SERVER_ERROR, [];
      }
      if !Truthy(users[found.value].profileFile) {
        users := users[found.value := users[found.value].(profileFile := Some(file))];
      }
      status, todos := OK, bundle.todos;
    }

    /** GET /api/events. */
    method GetEvents(header: string) returns (status: int, events: seq<Event>)
      ensures Authenticate(sessions, header).None? ==> status == UNAUTHORIZED && events == []
      ensures Authenticate(sessions, header).Some? ==> status == OK && events == DocumentOf(Authenticate(sessions, header).value).events
    {
      var name := Authenticate(sessions, header);
      if name.None? {
        return UNAUTHORIZED, [];
      }
      var bundle := LoadBundle(files, FileOf(users, name.value));
      status, events := OK, bundle.events;
    }

    /** POST /api/events: the gate, the array check, then the save. */
    method PostEvents(header: string, body: Body<Event>) returns (status: int, events: seq<Event>)
      modifies this
      ensures sessions == old(sessions)
      ensures Authenticate(sessions, header).None? ==> status == UNAUTHORIZED && unchanged(this)
      ensures Authenticate(sessions, header).Some? && body.NotArray? ==> status == BAD_REQUEST && unchanged(this)
      ensures Authenticate(sessions, header).Some? && body.ArrayValue? ==>
        var user := Authenticate(sessions, header).value;
        var file := TargetFile(old(users), user);
        && files == old(files)[file := LoadBundle(old(files), Some(file)).(events := body.items)]
        && users == ListSaveUsers(old(users), user, file)
        && status == (if IsRegistered(old(users), user) then OK else SERVER_ERROR)
        && events == (if status == OK then body.items else [])
      ensures old(Valid()) && Authenticate(sessions, header).Some? && body.ArrayValue? ==> status == OK
      ensures old(Valid()) ==> Valid()
    {
      var who := Authenticate(sessions, header);
      if who.None? {
        return UNAUTHORIZED, [];
      }
      if body.NotArray? {
        return BAD_REQUEST, [];
      }
      if Valid() {
        assert IsRegistered(users, who.value) by {
          assert BearerToken(header).value in sessions;
        }
      }
      status, events := SaveEvents(who.value, body.items);
    }

    /** The body of POST /api/events once the list is an array; the same steps as `SaveTodos`. */
    method SaveEvents(user: string, items: seq<Event>) returns (status: int, events: seq<Event>)
      modifies this`users, this`files
      ensures var file := TargetFile(old(users), user);
        && files == old(files)[file := LoadBundle(old(files), Some(file)).(events := items)]
        && users == ListSaveUsers(old(users), user, file)
        && status == (if IsRegistered(old(users), user) then OK else SERVER_ERROR)
        && events == (if status == OK then items else [])
      ensures old(Valid()) ==> Valid()
    {
      var found := FindUser(users, user);
      var file := TargetFile(users, user);
      var bundle := LoadBundle(files, Some(file));
      bundle := bundle.(events := items);
      files := files[file := bundle];
      ListSaveValid(users, sessions, user, file);
      if found.None? {
        return SERVER_ERROR, [];
      }
      if !Truthy(users[found.value].profileFile) {
        users := users[found.value := users[found.value].(profileFile := Some(file))];
      }
      status, events := OK, bundle.events;
    }
  }

  /** Changing only reference fields keeps who is registered and the uniqueness of names. */
  lemma SameNamesRegistered(users: seq<UserRecord>, users': seq<UserRecord>)
    requires |users'| == |users|
    requires forall i :: 0 <= i < |users| ==> users'[i].username == users[i].username && users'[i].password == users[i].password
    ensures forall n :: IsRegistered(users', n) <==> IsRegistered(users, n)
    ensures UniqueUsernames(users') <==> UniqueUsernames(users)
  {
    forall n ensures IsRegistered(users', n) <==> IsRegistered(users, n) {
      if IsRegistered(users, n) {
        var i :| 0 <= i < |users| && users[i].username == n;
        assert users'[i].username == n;
      }
      if IsRegistered(users', n) {
        var i :| 0 <= i < |users'| && users'[i].username == n;
        assert users[i].username == n;
      }
    }
  }
}

/** An end-to-end run of the handlers: register, log in, read and replace the
    to-do list, log out, and be refused afterwards. Only the handlers' contracts
    are used. */
module ServerScenario {
  import opened JsValues
  import opened Server

  /** Registration on a fresh server: the first attempt succeeds, a second one with
      the same name conflicts. */
  method Registration() returns (store: UserStore)
    ensures store.users == [UserRecord("alice", "pw12", None)] && store.sessions == map[]
  {
    store := new UserStore([], map[]);
    var status := store.Register(Some("alice"), Some("pw12"));
    assert status == OK && store.users == [UserRecord("alice", "pw12", None)];
    assert store.users[0].username == "alice";
    status := store.Register(Some("alice"), Some("other"));
    assert status == CONFLICT;
  }

  /** A wrong password is refused without a session; the right one opens one. */
  method LoginAttempts(store: UserStore, token: string)
    requires store.users == [UserRecord("alice", "pw12", None)] && store.sessions == map[]
    requires IsSessionToken(token)
    modifies store
    ensures store.users == [UserRecord("alice", "pw12", None)] && store.sessions == map[token := "alice"]
  {
    var status, bundle, profileFile := store.Login(Some("alice"), Some("wrong"), token);
    assert store.users[0].password != "wrong";
    assert status == UNAUTHORIZED && store.sessions == map[];
    assert store.users[0].username == "alice";
    status, bundle, profileFile := store.Login(Some("alice"), Some("pw12"), token);
    assert status == OK && bundle == EmptyBundle;
  }

  /** Before the first save the list reads as empty; a saved list is read back through
      the same session; after logout the session is refused. */
  method SaveReadLogout(store: UserStore, token: string, item: Todo)
    returns (before: seq<Todo>, after: seq<Todo>, refused: int)
    requires store.users == [UserRecord("alice", "pw12", None)] && store.sessions == map[token := "alice"]
    requires token != ""
    modifies store
    ensures before == [] && after == [item] && refused == UNAUTHORIZED
    ensures token !in store.sessions
  {
    var header := BearerPrefix + token;
    AuthenticateToken(store.sessions, token);
    assert store.users[0].username == "alice";
    assert FileOf(store.users, "alice") == None;
    var status;
    status, before := store.GetTodos(header);
    status, after := store.PostTodos(header, ArrayValue([item]));
    assert status == OK;
    ListSaveReadsBack(old(store.users), old(store.files), "alice", LoadBundle(old(store.files), Some(TargetFile(old(store.users), "alice"))).(todos := [item]));
    status, after := store.GetTodos(header);
    status := store.Logout(header);
    BearerRoundTrip(token);
    AuthenticateToken(store.sessions, token);
    var none;
    refused, none := store.GetTodos(header);
  }
}
