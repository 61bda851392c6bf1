# Productivity hub: a verified model of its server and its three components

The productivity hub is a small web application. Each user registers, logs in with a
bearer token, and keeps one JSON document holding a profile, a to-do list and
calendar events. This project models in Dafny the parts of it that hold logic:

- **The backend** (`my-app/backend/server.js`). It has a credential list (`users.json`),
  an in-memory session map, and one document per user. REST handlers reach them, and
  every handler except register, login and logout goes through a bearer-token gate.
  The model is the class `Server.UserStore`:
  - `users` is a sequence of `{username, password, profileFile}` records.
  - `sessions` is a map from token to username.
  - The disk is a map from file name to bundle. A missing file reads as the empty
    bundle, as `ENOENT` does in the source.
  - Each handler is one atomic method. It returns the HTTP status and the response
    data, and it states the new state.
  - `sanitizeFileName`, the document-name derivation, the `Bearer ` parsing and
    `loadUserBundle` are pure functions.
- **The to-do list component** (`TodoList.js`). This is the class `TodoListView.TodoList`:
  - The `onChange` calls are recorded, with their arguments, in `notifications`.
  - `suspendNotify` is a field, as in the source.
- **The calendar component** (`Calendar.js`). This is the class `CalendarView.Calendar`:
  - the submit handler (upsert by day and title);
  - `setEvents` and `selectDate`;
  - the per-day filter of the event list;
  - the has-event marking of the day cells.

  Day keys are opaque strings.
- **The timer/stopwatch component** (`TimerStopwatch.js`). This is the class `TimerView.TimerStopwatch`:
  - The interval handle is the flag `running`.
  - Each firing of the interval is an explicit `Tick`.

The JavaScript built-ins the code relies on are defined once in `JsValues`:
`Array.prototype.filter` and `find`, `String.prototype.trim` (ECMAScript white space and
line terminators), `String(n)` for a non-negative integer, `padStart`, and `Array.isArray`
(as the `Body` datatype). Truthiness of an optional string is `Server.Truthy`.

Main results:
- The handlers keep the credential invariant (`ValidState`): usernames are unique and
  non-empty, passwords are non-empty, and every session token is non-empty and names a
  registered user.
- A failed gate (401) or a rejected body (400) changes nothing.
- A list save replaces only that list in the target document, and the next read returns it
  (`ListSaveReadsBack`). This holds in the model, where the credential list is kept apart
  from the documents. In the source it fails for one kind of username (see "## Left out"
  on the shared directory).
- `sanitizeFileName` keeps exactly the characters `[A-Za-z0-9_-]` in their order and is
  idempotent.
- The bearer parser inverts the header a client builds.
- After a calendar submit, the submitted event is the only one under its day and title, and
  it is last. Every event under another day or title is kept. The submit is idempotent.
- A day is marked exactly when its event list is non-empty.
- The timer display reads back as the counter it was drawn from (`ClockRoundTrip`).

A user's document reference is re-derived from the profile name on every `POST /api/user`,
not only on the first profile save, and the record is re-pointed at it. Renaming the profile
therefore moves the user to another document (`Server.UserStore.SaveProfile`).

A user whose session outlives their credential record makes `POST /api/todos` and
`POST /api/events` throw a `TypeError` at `user.profileFile` after the document has
been written. The model returns status 500 with the write done and the records
unchanged. The invariant rules this state out, since every session names a registered
user: from a valid state an authenticated save of an array always answers 200
(`Server.UserStore.PostTodos`, `Server.UserStore.PostEvents`).

## Model

| member | source | states |
|---|---|---|
| JsValues.Filter | my-app/frontend/components/TodoList.js:69 | `Array.prototype.filter`: the result is no longer than the input, and holds exactly the input elements that pass the test, and each of them passes |
| JsValues.FilterAppend | my-app/frontend/components/TodoList.js:69 | filtering a concatenation is the concatenation of the filtered parts, so the survivors keep their relative order |
| JsValues.FilterIdentity | my-app/frontend/components/Calendar.js:56 | a filter leaves a list unchanged exactly when every element passes (both directions) |
| JsValues.FilterIdempotent | my-app/frontend/components/Calendar.js:56 | filtering twice with the same test is filtering once |
| JsValues.FindIndex | my-app/backend/server.js:94 | `find`/`some`: the first index whose element passes, with no earlier one passing, and none exactly when no element passes |
| JsValues.LeadingSpace | my-app/frontend/components/TodoList.js:27 | the length of the white-space prefix that `trim` removes: every character before it is white space and the one at it is not |
| JsValues.TrailingStart | my-app/frontend/components/TodoList.js:27 | where the white-space suffix that `trim` removes starts: every character from it on is white space and the one before it is not |
| JsValues.LeadingSpaceUnique | my-app/frontend/components/TodoList.js:27 | the white-space prefix is determined by its two properties |
| JsValues.TrailingStartUnique | my-app/frontend/components/TodoList.js:27 | the white-space suffix is determined by its two properties |
| JsValues.Trim | my-app/frontend/components/TodoList.js:27 | `trim`: a piece cut out of the input; it is empty exactly when the input is all white space, neither end of a non-empty result is white space, and everything around it is white space |
| JsValues.TrimIdempotent | my-app/frontend/components/TodoList.js:27 | trimming a trimmed title changes nothing |
| JsValues.TrimmedIsFixed | my-app/frontend/components/Calendar.js:52-53 | a string with no white space at either end is its own trim |
| JsValues.TrimPadded | my-app/frontend/components/Calendar.js:52-53 | trimming removes any white space added around a non-empty trimmed text, giving it back exactly |
| JsValues.DecimalString | my-app/frontend/components/TimerStopwatch.js:78-79 | `String(n)`: decimal digits, one digit exactly for numbers below ten, and no leading zero |
| JsValues.DecimalStringValue | my-app/frontend/components/TimerStopwatch.js:78-79 | the numeral reads back as the number |
| JsValues.DecimalStringShort | my-app/frontend/components/TimerStopwatch.js:78 | a numeral has at most two digits exactly when the number is below 100 |
| JsValues.PadStart | my-app/frontend/components/TimerStopwatch.js:78-79 | `padStart`: the length is the larger of the width and the input length, the input is the suffix, and everything before it is the fill character |
| JsValues.LeadingZeroValue | my-app/frontend/components/TimerStopwatch.js:78-79 | a leading zero does not change a numeral's value |
| JsValues.PadZerosValue | my-app/frontend/components/TimerStopwatch.js:78-79 | zero-padding a numeral keeps it a numeral for the same number |
| JsValues.ZerosValue | my-app/frontend/components/TimerStopwatch.js:78-79 | any number of leading zeros keeps a numeral's value |
| Server.Sanitize | my-app/backend/server.js:39-41 | `sanitizeFileName`: only `[A-Za-z0-9_-]` remain, and a character is in the result exactly when it is in the name and allowed; the result is no longer than the name |
| Server.SanitizeAppend | my-app/backend/server.js:39-41 | sanitizing a concatenation sanitizes each part, so the kept characters stay in order |
| Server.SanitizeFixedPoints | my-app/backend/server.js:39-41 | a name is unchanged exactly when all its characters are allowed, and sanitizing is idempotent |
| Server.ProfileFileName | my-app/backend/server.js:125-126 | the profile document name ends in `.json`, its stem uses only allowed characters, and the stem is the sanitized name, or `user` when that is empty |
| Server.DefaultFileName | my-app/backend/server.js:154 | the list-save default name is the sanitized username followed by `.json`, with no fallback |
| Server.ProfileFileNameKeepsSafeNames | my-app/backend/server.js:125-126 | a non-empty name made of allowed characters is kept verbatim in front of `.json` |
| Server.JunkNames | my-app/backend/server.js:125-126 | a name with no allowed character gives `user.json` for a profile save but the bare `.json` for a list save |
| Server.DefaultFileNameIgnoresJunk | my-app/backend/server.js:154 | usernames that differ only in dropped characters share one default document |
| Server.ProfileFileNameAliasesUsersFile | my-app/backend/server.js:125-126 | every profile name that sanitizes to `users` (such as `users`, `users!` or `us ers`) is given the name of the credential file `users.json` |
| Server.ProfileFileNameCollides | my-app/backend/server.js:125-126 | profile names that sanitize alike are given one document name |
| Server.DefaultFileNameAliasesUsersFile | my-app/backend/server.js:154 | every username that sanitizes to `users` is given the name of the credential file `users.json` by a list save |
| Server.ListSaveTargetsUsersFile | my-app/backend/server.js:154-157 | a list save for a user without a truthy reference whose username sanitizes to `users` writes to `users.json` |
| Server.Truthy | my-app/backend/server.js:154 | JavaScript truthiness of an optional string, as the `x && …` test here and the `!x` tests at server.js:46, 69, 79, 122 and 158 use it: present and not empty. A definition; `Server.Authenticate`, `Server.UserStore.Register`, `Server.UserStore.PostUser`, `Server.LoadBundle`, `Server.TargetFile` and `Server.ListSaveUsers` state what each test decides |
| Server.BearerToken | my-app/backend/server.js:68 | a token is extracted exactly when the header starts with the exact text `Bearer `, and the header is that prefix followed by the token |
| Server.BearerRoundTrip | my-app/backend/server.js:68 | the header a client builds from a token yields that token back |
| Server.Authenticate | my-app/backend/server.js:66-74 | `requireAuth` passes exactly when the header is `Bearer ` followed by a non-empty token present in the session map, and then yields that token's username |
| Server.AuthenticateToken | my-app/backend/server.js:69 | `Bearer t` passes exactly when `t` is non-empty and a live token, with that session's username |
| Server.FindUser | my-app/backend/server.js:115 | the first record with the username, or none exactly when the name is not registered |
| Server.FindCredential | my-app/backend/server.js:94 | the first record matching both username and password exactly, or none exactly when no record matches both |
| Server.FindUserSameNames | my-app/backend/server.js:132-134 | changing records without changing any username keeps which record is found first |
| Server.LoadBundle | my-app/backend/server.js:45-58 | `loadUserBundle`: a missing or empty reference, or a missing file, gives the empty bundle; otherwise the stored one |
| Server.LoadAfterSave | my-app/backend/server.js:61-63 | loading the file just saved gives back what was saved, and other files are unaffected |
| Server.FileOf | my-app/backend/server.js:116 | `user && user.profileFile`: none for an unregistered name, otherwise the first matching record's reference |
| Server.TargetFile | my-app/backend/server.js:154 | the file a list save writes: the user's reference when truthy, otherwise the default name for the username; never empty |
| Server.Claimed | my-app/backend/server.js:132-134 | pointing the first record named `name` at a file keeps every username and password and every other user's record, makes that name's reference the file, and changes nothing for an unregistered name |
| Server.ClaimedKeepsOthers | my-app/backend/server.js:132-134 | re-pointing one user's record leaves every other username's reference as it was |
| Server.SharedProfileDocument | my-app/backend/server.js:125-135 | two registered users who save profiles under the same name are both pointed at one document |
| Server.ClaimedValid | my-app/backend/server.js:132-135 | re-pointing a record keeps the credential invariant |
| Server.ListSaveUsers | my-app/backend/server.js:158-161 | a list save leaves the records alone when the user already has a truthy reference, and otherwise points the record at the target file |
| Server.ListSaveReadsBack | my-app/backend/server.js:152-161 | after a list save a registered user's record refers to the written document and reading it returns what was saved; an unregistered user's records are unchanged |
| Server.ProfileSaveReadsBack | my-app/backend/server.js:125-135 | after a profile save a registered user's record refers to the written document and reading it returns what was saved |
| Server.ListSaveValid | my-app/backend/server.js:158-161 | a list save keeps the credential invariant |
| Server.SameNamesRegistered | my-app/backend/server.js:134 | changing only references keeps who is registered and whether usernames are unique |
| Server.UserStore.DocumentOf | my-app/backend/server.js:142-143 | the document a user sees, `loadUserBundle(user && user.profileFile)`, as here and at server.js:167-168. A definition; `Server.LoadBundle`, `Server.FileOf`, `Server.ListSaveReadsBack` and `Server.ProfileSaveReadsBack` state what it returns |
| Server.UserStore.constructor | my-app/backend/server.js:17-32 | the stored records and files are taken as they are and no session exists; the invariant holds exactly when the stored records satisfy it |
| Server.UserStore.Register | my-app/backend/server.js:77-89 | a missing or empty username or password gives 400 and a taken name gives 409, with the records unchanged; otherwise exactly one record with no document is appended; sessions and files never change; the invariant is kept |
| Server.UserStore.Login | my-app/backend/server.js:91-102 | success exactly when some record matches both fields; failure gives 401 with no session and no data; success maps the token to the username and returns the first matching record's reference and its document |
| Server.UserStore.Logout | my-app/backend/server.js:104-111 | always 200; removes exactly the presented non-empty token and otherwise changes nothing |
| Server.UserStore.GetUser | my-app/backend/server.js:113-118 | 401 through the gate, otherwise the user's reference and its document |
| Server.UserStore.PostUser | my-app/backend/server.js:120-138 | 401 or 400 (some field missing or empty) change nothing; otherwise the profile with the given time is written into the document named from the profile name, that document is returned, and the user's record points at it |
| Server.UserStore.SaveProfile | my-app/backend/server.js:125-137 | the profile save: only the profile field of the named document changes, the record is re-pointed, and the invariant is kept |
| Server.UserStore.GetTodos | my-app/backend/server.js:140-145 | 401 through the gate, otherwise the to-do list of the user's document |
| Server.UserStore.PostTodos | my-app/backend/server.js:147-163 | 401 or a non-array body (400) change nothing; otherwise only the `todos` field of the target document is replaced, the record gets the file if it had none, and the answer is 200 with the list, or 500 for a user without a record |
| Server.UserStore.SaveTodos | my-app/backend/server.js:152-162 | the list save after the checks: the target document's other fields are preserved and the invariant is kept |
| Server.UserStore.GetEvents | my-app/backend/server.js:165-170 | 401 through the gate, otherwise the event list of the user's document |
| Server.UserStore.PostEvents | my-app/backend/server.js:172-188 | 401 or a non-array body (400) change nothing; otherwise only the `events` field of the target document is replaced, the record gets the file if it had none, and the answer is 200 with the list, or 500 for a user without a record |
| Server.UserStore.SaveEvents | my-app/backend/server.js:177-187 | the event save after the checks: the target document's other fields are preserved and the invariant is kept |
| ServerScenario.Registration | my-app/backend/server.js:77-89 | on a fresh server the first registration succeeds and a second with the same name conflicts, leaving one record |
| ServerScenario.LoginAttempts | my-app/backend/server.js:91-102 | a wrong password opens no session; the right one maps the token to the user, and the records are not changed |
| ServerScenario.SaveReadLogout | my-app/backend/server.js:104-163 | a fresh user's list reads as empty, a saved list is read back through the same session, and after logout the token is gone and the read is refused with 401 |
| TodoListView.WithoutId | my-app/frontend/components/TodoList.js:69 | the delete filter keeps exactly the items with another id, never lengthens the list, and changes nothing when no item has the id |
| TodoListView.WithoutIdAppend | my-app/frontend/components/TodoList.js:69 | deleting from a concatenation deletes from each part, so the survivors keep their order |
| TodoListView.WithoutIdIdempotent | my-app/frontend/components/TodoList.js:69 | deleting an id twice is deleting it once |
| TodoListView.Toggled | my-app/frontend/components/TodoList.js:64 | the item at the position has its completion flipped and every other item is unchanged |
| TodoListView.ToggledTwice | my-app/frontend/components/TodoList.js:63-64 | toggling the same item twice restores the list |
| TodoListView.TodoList.constructor | my-app/frontend/components/TodoList.js:2-8 | an empty list, notifications not suspended, none sent |
| TodoListView.TodoList.NotifyChange | my-app/frontend/components/TodoList.js:79-83 | calls `onChange` with the current list unless notifications are suspended or there is no callback |
| TodoListView.TodoList.Render | my-app/frontend/components/TodoList.js:44-77 | rendering ends with one `notifyChange` |
| TodoListView.TodoList.SetTodos | my-app/frontend/components/TodoList.js:37-42 | an array is stored as it is and anything else as `[]`, with no notification, and the flag is clear afterwards |
| TodoListView.TodoList.Add | my-app/frontend/components/TodoList.js:25-34 | a title that trims to empty changes nothing; otherwise exactly one open item with the trimmed title is appended and `onChange` gets the new list once |
| TodoListView.TodoList.Toggle | my-app/frontend/components/TodoList.js:63-67 | flips that item only, then notifies twice (directly and through the re-render) |
| TodoListView.TodoList.Delete | my-app/frontend/components/TodoList.js:68-72 | removes every item with the id, keeping the rest in order, then notifies twice |
| CalendarView.OtherSlots | my-app/frontend/components/Calendar.js:56 | the submit filter keeps exactly the events not stored under that day and title |
| CalendarView.Upserted | my-app/frontend/components/Calendar.js:56-57 | after a submit the new event is last and is the only one under its day and title, every other event is kept in its order (all but the last element are exactly the filtered list), nothing else is added, and with no earlier match it is a plain append |
| CalendarView.UpsertedAppend | my-app/frontend/components/Calendar.js:56-57 | a submit into a concatenation filters the first part and submits into the second, so stored order is kept |
| CalendarView.UpsertedIdempotent | my-app/frontend/components/Calendar.js:56-57 | submitting the same event twice gives the list after the first submit |
| CalendarView.EventsOn | my-app/frontend/components/Calendar.js:140 | the day's event list holds exactly the events with that date |
| CalendarView.EventsOnAppend | my-app/frontend/components/Calendar.js:140 | the day list of a concatenation concatenates the day lists, so stored order is kept |
| CalendarView.EventDates | my-app/frontend/components/Calendar.js:113 | the set of dates of the stored events. A definition; `CalendarView.MarkedIffListed` and `CalendarView.Calendar.RenderDays` state what it marks |
| CalendarView.MarkedIffListed | my-app/frontend/components/Calendar.js:113-125 | a day is in the event-date set exactly when its event list is non-empty |
| CalendarView.Calendar.constructor | my-app/frontend/components/Calendar.js:4-8 | no events, today selected, no notification |
| CalendarView.Calendar.Submit | my-app/frontend/components/Calendar.js:49-64 | an empty trimmed title or description changes nothing and notifies nobody; otherwise the list becomes the upsert of the trimmed event on the selected day and `onChange` gets it once |
| CalendarView.Calendar.SetEvents | my-app/frontend/components/Calendar.js:67-71 | an array is stored as it is and anything else as `[]` |
| CalendarView.Calendar.SelectDate | my-app/frontend/components/Calendar.js:78-79 | the selected day becomes the given one |
| CalendarView.Calendar.VisibleEvents | my-app/frontend/components/Calendar.js:138-140 | the shown list holds exactly the events of the selected day |
| CalendarView.Calendar.RenderDays | my-app/frontend/components/Calendar.js:110-136 | one cell per grid key; a cell is marked `has-event` exactly when some event has its key, and `selected` exactly when it is the selected day |
| TimerView.Field | my-app/frontend/components/TimerStopwatch.js:78-79 | one display field, `String(n).padStart(2, '0')`. A definition; `TimerView.FieldValue` and `TimerView.FieldDigits` state what it draws |
| TimerView.Clock | my-app/frontend/components/TimerStopwatch.js:78-80 | the `mm:ss` text: whole minutes, a colon, seconds past the minute. A definition; `TimerView.ClockRoundTrip`, `TimerView.ClockWidth`, `TimerView.ClockInjective` and `TimerView.ClockOfDigits` state what it draws |
| TimerView.FieldValue | my-app/frontend/components/TimerStopwatch.js:78-79 | a padded field is a numeral for its number, at least two characters long and exactly two below 100 |
| TimerView.FieldDigits | my-app/frontend/components/TimerStopwatch.js:78-79 | a number below 100 is drawn as exactly its tens digit and its ones digit |
| TimerView.ClockOfDigits | my-app/frontend/components/TimerStopwatch.js:78-80 | below 100 minutes the display is exactly the two minute digits, a colon and the two second digits |
| TimerView.OneDigitField | my-app/frontend/components/TimerStopwatch.js:79 | a number below ten is drawn with one leading zero |
| TimerView.TwoDigitField | my-app/frontend/components/TimerStopwatch.js:78 | a number from 10 to 99 is drawn as its two digits |
| TimerView.ParseClock | my-app/frontend/components/TimerStopwatch.js:80 | reading a display back (the inverse of the format): a result means at least five characters with a colon before the last two |
| TimerView.ParseFields | my-app/frontend/components/TimerStopwatch.js:80 | a minutes field and a seconds field read back only when both are numerals |
| TimerView.ParseJoined | my-app/frontend/components/TimerStopwatch.js:80 | two numeral fields joined by a colon read back as 60 times the minutes plus the seconds |
| TimerView.ColonSplit | my-app/frontend/components/TimerStopwatch.js:80 | the colon splits a display back into its two fields |
| TimerView.ParseDrawnFields | my-app/frontend/components/TimerStopwatch.js:78-80 | the fields drawn for a count read back as that count |
| TimerView.ClockRoundTrip | my-app/frontend/components/TimerStopwatch.js:78-80 | the `mm:ss` display reads back as exactly the number of seconds it was drawn from |
| TimerView.ClockWidth | my-app/frontend/components/TimerStopwatch.js:78-80 | the display is at least five characters, and exactly five while below 100 minutes |
| TimerView.ClockInjective | my-app/frontend/components/TimerStopwatch.js:78-80 | different counts give different displays |
| TimerView.InitialClock | my-app/frontend/components/TimerStopwatch.js:20 | the countdown's starting display is the `25:00` of the initial markup |
| TimerView.TimerStopwatch.Shown | my-app/frontend/components/TimerStopwatch.js:72-77 | the counter the display is drawn from: `remaining` in timer mode, `elapsed` in stopwatch mode. A definition; `TimerView.TimerStopwatch.DisplayShowsCounter` and `TimerView.TimerStopwatch.UpdateDisplay` state its use |
| TimerView.TimerStopwatch.DisplayShowsCounter | my-app/frontend/components/TimerStopwatch.js:71-81 | between handlers the display reads back as the current mode's counter |
| TimerView.TimerStopwatch.constructor | my-app/frontend/components/TimerStopwatch.js:2-6 | timer mode, stopped, 1500 seconds left, none elapsed, and the display drawn from 1500 |
| TimerView.TimerStopwatch.UpdateDisplay | my-app/frontend/components/TimerStopwatch.js:71-81 | the display is drawn from `remaining` in timer mode and from `elapsed` in stopwatch mode |
| TimerView.TimerStopwatch.Start | my-app/frontend/components/TimerStopwatch.js:39-40 | afterwards the interval is scheduled; when it already was, nothing changes |
| TimerView.TimerStopwatch.Stop | my-app/frontend/components/TimerStopwatch.js:54-59 | afterwards no interval is scheduled, whatever the state before (so stopping is idempotent) |
| TimerView.TimerStopwatch.Tick | my-app/frontend/components/TimerStopwatch.js:41-51 | a stopped component ignores the second; in timer mode the countdown drops by one to no less than 0 and the clock stops exactly when it reaches 0; in stopwatch mode `elapsed` rises by one and `remaining` is untouched; the counters stay in range and the display shows the counter |
| TimerView.TimerStopwatch.Reset | my-app/frontend/components/TimerStopwatch.js:61-69 | stops the clock and restarts only the current mode's counter (1500 or 0), leaving the other one |
| TimerView.TimerStopwatch.ChangeMode | my-app/frontend/components/TimerStopwatch.js:32-35 | sets the mode, then resets it |

## Left out

- File-system and JSON input/output. `readUsers`/`writeUsers` and `loadUserBundle`/`saveUserBundle` become the `users` and `files` state. Read and parse failures other than a missing file rethrow in the source and are not modelled. Neither is the creation of `users.json` on first read, which has no observable effect apart from the file itself.
- Concurrency across `await` points. Each handler is modelled as one atomic step, so the last-writer-wins races between concurrent requests are not captured.
- Randomness and time are parameters:
  - the login token (`crypto.randomBytes(24)` in hex, 48 lower-case hex characters; the code does not check for collisions, and the model lets a collision overwrite);
  - the to-do id (`crypto.randomUUID` or `Math.random`);
  - the profile timestamp (`new Date().toISOString()`).
- Express plumbing: routing, JSON body parsing, CORS, static files, the catch-all route and `listen`. The response message texts are not modelled either, only the status and the returned data.
- Body shapes. The fields of a request body are modelled as optional strings, and a list body as "an array of items, or not an array". Non-string field values (numbers, objects) and array elements of other shapes are not modelled.
- A stored document without a `todos` or `events` key (`bundle.todos || []`) is not modelled. A `Bundle` always has both lists.
- Server.UserStore.PostTodos: the thrown `TypeError`, for a session whose user has no record, is modelled as status 500 after the write, and so is the one in `Server.UserStore.PostEvents`. The handlers are `async`, so what the client sees depends on the Express version. Express 5 passes the rejected promise to its default error handler, which answers 500. Express 4 leaves the rejection unhandled: no response is sent, and on Node 15 or later the process exits, which drops every session. Neither outcome is modelled beyond the 500.
- The shared directory. `users.json` and the user documents live in one directory in the source, and the model keeps the credential list apart from `files`. Every name that sanitizes to `users`, such as `users`, `users!` or `us ers`, reaches the credential file, by two routes:
  - a profile save under such a name, through `Server.ProfileFileName` (`Server.ProfileFileNameAliasesUsersFile`);
  - through `Server.DefaultFileName` and `Server.TargetFile`, a list save for a user who has no document yet and whose username sanitizes to `users`, such as `users`, `users!` or `us ers` (`Server.DefaultFileNameAliasesUsersFile`, `Server.ListSaveTargetsUsersFile`).
- What the source then does is not modelled:
  - (a) The first `POST /api/todos` or `POST /api/events` of such a user writes the list into `users.json` (server.js:155-157, 180-182). `writeUsers` at server.js:160 and 185 then rewrites that file from the copy read at server.js:152 and 177, which has no `todos` or `events` key, so the next GET (server.js:144, 169) answers `[]`. `Server.ListSaveReadsBack` therefore holds only in the model for this input.
  - (b) From then on, login (server.js:100-101) and `GET /api/user` (server.js:116-117) send this user the whole credential document as their bundle, with every username and plaintext password. The same happens after a profile save under any name that sanitizes to `users` (server.js:125-135).
- Shared user documents. These are modelled (the model's `files` is that one directory). Two users who save profiles under the same name, or under names that sanitize alike, are pointed at one document (`Server.SharedProfileDocument`, `Server.ProfileFileNameCollides`), so each then reads and overwrites the other's lists. The same holds for usernames that sanitize alike and have no document yet (`Server.DefaultFileNameIgnoresJunk`).
- The file system is taken to be case-sensitive. On a case-insensitive one, such as the default on Windows and macOS, `Users.json` is `users.json`, so the names that reach the credential file also include those that sanitize to `Users` or `USERS`, and usernames such as `Bob` and `bob` share one default document. The model treats file names as exact strings.
- `my-app/frontend/utils/date.js` and month navigation (`changeMonth`, the month grid). Date keys are opaque strings, and `RenderDays` takes the grid's keys as input.
- The DOM: element creation, `innerHTML`, labels, form reset and event-listener wiring. Only the component state and the computed lists, marks and display are modelled. `App.js`, `UserForm.js` and `app.js` are not part of this model.
- TodoListView.TodoList.Toggle: the button handler captures the item object. The model flips the item at a position, so sharing of one object between positions or lists (JavaScript aliasing) is not modelled. Nor is the fact that `onChange` receives a reference to the live list rather than a copy.
- TimerView.TimerStopwatch.UpdateDisplay: the display element is modelled as the count it was last drawn from (`drawn`), with its text given by `Display()`, that is `Clock(drawn)`. The text is not a stored string.
- TimerView.TimerStopwatch.Tick: real time is not modelled. Each call is one firing of the one-second interval.
- JsValues.DecimalString: JavaScript numbers count exactly only up to 2^53, and `String(n)` switches to exponent notation from 10^21. The model's `nat` has neither limit, and neither does the timer's `remaining` or `elapsed`. A seconds counter ticking once a second never reaches either bound.
- JsValues.Trim: strings are sequences of code points rather than UTF-16 code units. Every character `trim` removes is a single code unit, so this does not change what is removed.
