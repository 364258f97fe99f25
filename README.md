# Doctor portal backend: a verified model

This project models the server side of the doctor portal. The portal is an
Express and MongoDB service through which doctors do four things:

- sign up and log in with a username and password;
- present an opaque session token on every later request;
- list patient query records and answer them (status, prescription, doctor
  name and details);
- list appointment requests and change their status.

The model covers these parts of the service:

- the account handlers `register`, `login`, `logout` and `getMe`;
- the `sessionAuth` guard;
- the record handlers `getRecords` and `updateStatus`;
- the appointment handlers `getAppointments` and `updateStatus`;
- the four document schemas: `Doctor`, `DoctorSession`, `Record` and
  `Appointment`.

Each MongoDB collection is a map from `_id` to document:

- Handlers that only read a collection are pure functions of the map.
- Handlers that write to a collection are methods of a store class. The class
  holds the map and the next fresh `_id`.
- The session collection is keyed by token. That stands for its unique index
  on `token`.

The model represents values as follows:

- A handler's answer is a `Reply`: `Success(code, value)` or
  `Failure(code, error)`. The failure messages are the handlers' own strings.
- A request field is an `Option<string>`. The test `if (!x)` is `Truthy`
  (absent and `''` are falsy).
- Times are milliseconds since the epoch.

The model leaves the following to its callers:

- bcrypt's `hash` and `compare` are function parameters.
- The clock (`now`), the fresh uuid (`token`) and the `SESSION_TTL_HOURS`
  setting are ordinary parameters.

A listing of a collection has three properties, proved over all inputs:

- It contains exactly the documents the query selects.
- Each document appears once.
- The documents are ordered by `createdAt`, newest first.

Modules, one per file:

- `Common`, `Text`, `Ordering` and `Collection` hold the shared values and the
  string, sorting and enumeration helpers.
- `DoctorSchema`, `DoctorSessionSchema`, `RecordSchema` and
  `AppointmentSchema` hold the documents.
- `SessionAuth` is the guard.
- `AuthController`, `RecordController` and `AppointmentController` are the
  handlers.
- `Scenarios` drives the account and appointment stores through the documented
  request sequences, relying only on the contracts.

## Model

| member | source | states |
|---|---|---|
| Common.OrEmpty | backend/src/controllers/authController.js:21-22 | `field \|\| ''`: the field when it is truthy, otherwise the empty string |
| Text.LowerChar | backend/src/controllers/authController.js:14 | a capital A to Z becomes the letter 32 code points later, its lower-case form; every other character is unchanged; whitespace stays whitespace |
| Text.Lower | backend/src/controllers/authController.js:14 | `toLowerCase()` keeps the length, maps each character on its own, and leaves no upper-case letter |
| Text.LowerConcat | backend/src/controllers/authController.js:14 | lower-casing a concatenation lower-cases each part |
| Text.LowerKeepsSpace | backend/src/controllers/authController.js:14 | lower-casing whitespace leaves whitespace |
| Text.LowerOfLowerCase | backend/src/controllers/authController.js:14 | lower-casing a lower-case string changes nothing |
| Text.TrimStart | backend/src/controllers/authController.js:14 | `trimStart()` removes only whitespace, and its result does not start with whitespace |
| Text.TrimEnd | backend/src/controllers/authController.js:14 | `trimEnd()` removes only whitespace, and its result does not end with whitespace |
| Text.TrimStartIsSuffix | backend/src/controllers/authController.js:14 | the result of `trimStart()` is a suffix of its input |
| Text.TrimEndIsPrefix | backend/src/controllers/authController.js:14 | the result of `trimEnd()` is a prefix of its input |
| Text.Trim | backend/src/controllers/authController.js:14 | `trim()` leaves no whitespace at either end and never lengthens |
| Text.TrimSlice | backend/src/controllers/authController.js:14 | `trim()` returns the slice of its input that starts after the leading whitespace, and what it drops on either side is whitespace |
| Text.TrimUnique | backend/src/controllers/authController.js:14 | a slice with only whitespace around it and none at its own ends is the trim, so the properties above determine `trim()` completely |
| Text.TrimOuterSpace | backend/src/controllers/authController.js:14 | adding whitespace around a string does not change its trim |
| Text.TrimOfTrimmed | backend/src/controllers/authController.js:14 | trimming a string with no outer whitespace changes nothing |
| Text.TrimKeepsLowerCase | backend/src/controllers/authController.js:14 | trimming a lower-case string keeps it lower-case |
| Text.Normalize | backend/src/controllers/authController.js:14 | `toLowerCase().trim()` yields a lower-case string with no outer whitespace, never longer than its input |
| Text.NormalizeSlice | backend/src/controllers/authController.js:14 | the normal form is the lower-cased input with the whitespace around it removed, and only whitespace is removed |
| Text.NormalizeIgnoresCase | backend/src/models/Doctor.js:4 | two usernames that differ only in the case of their letters have the same normal form |
| Text.NormalizeIgnoresOuterSpace | backend/src/models/Doctor.js:4 | whitespace around a username does not change its normal form |
| Text.NormalizedIff | backend/src/models/Doctor.js:4 | the strings the schema's `lowercase` and `trim` leave unchanged are exactly the fixed points of normalisation |
| Text.NormalizeIdempotent | backend/src/controllers/authController.js:19 | normalising twice is normalising once, so a stored username is found again by its own normal form |
| Text.Split | backend/src/controllers/recordController.js:14 | `split(',')` yields at least one piece, and no piece contains the separator |
| Text.JoinSplit | backend/src/controllers/recordController.js:14 | joining the pieces of a split with the separator gives back the input |
| Text.SplitAfterPiece | backend/src/controllers/recordController.js:14 | splitting a separator-free piece, the separator and a rest gives that piece followed by the split of the rest |
| Text.SplitOnlyPiece | backend/src/controllers/recordController.js:14 | a string without the separator splits into itself alone |
| Text.SplitJoin | backend/src/controllers/recordController.js:17 | splitting a join of separator-free pieces gives back the pieces |
| Ordering.InsertNewestFirst | backend/src/controllers/recordController.js:22 | inserting into a newest-first list adds exactly that element and keeps the list newest first |
| Ordering.SortNewestFirst | backend/src/controllers/recordController.js:21-22 | `.sort({ createdAt: -1 })` yields a permutation of its input, ordered newest first |
| Ordering.DistinctCount | backend/src/controllers/recordController.js:21-22 | in a list without repeats every element occurs at most once |
| Ordering.PermutationKeepsDistinct | backend/src/controllers/recordController.js:21-22 | sorting a list without repeats creates no repeats |
| Collection.IdsBelow | backend/src/controllers/recordController.js:21 | enumerating a collection yields exactly its ids, each once, in ascending order |
| DoctorSchema.FindByUsername | backend/src/controllers/authController.js:14 | `Doctor.findOne({ username })` finds nothing exactly when no account has that username; otherwise it finds the one account with that username, which is unique by the schema's index |
| DoctorSessionSchema.TtlHours | backend/src/controllers/authController.js:47 | the session lifetime is the configured number of hours, or 48 when none is set |
| DoctorSessionSchema.ExpiryFor | backend/src/controllers/authController.js:48 | a session expires exactly `ttlHours * 3600 * 1000` milliseconds after `now` |
| DoctorSessionSchema.Reaped | backend/src/models/DoctorSession.js:10 | the TTL index removes exactly the expired sessions and leaves the others untouched |
| DoctorSessionSchema.WithoutId | backend/src/controllers/authController.js:67 | `deleteOne({ _id })` removes exactly the sessions with that id and leaves the others untouched |
| RecordSchema.ParseStatus | backend/src/controllers/recordController.js:49 | a status is accepted exactly when it is one of the five record status names, and is read as the status of that name |
| RecordSchema.ParseStatusName | backend/src/models/Record.js:21 | every record status's stored name reads back as that status |
| RecordSchema.NewRecord | backend/src/models/Record.js:3-22 | a created record defaults to pending, is stamped with its creation time, carries no response yet, and stores its attachments without a `url` |
| AppointmentSchema.ParseStatus | backend/src/controllers/appointmentController.js:22 | a status is accepted exactly when it is one of the four appointment status names, and is read as the status of that name |
| AppointmentSchema.ParseStatusName | backend/src/models/Appointment.js:11 | every appointment status's stored name reads back as that status |
| AppointmentSchema.NewAppointment | backend/src/models/Appointment.js:3-12 | a created appointment defaults to pending and is stamped with its creation time |
| SessionAuth.Attach | backend/src/middleware/sessionAuth.js:25-28 | the guard sets `req.session` and `req.doctor`, and leaves `req.user` unset |
| SessionAuth.Authenticate | backend/src/middleware/sessionAuth.js:4-33 | the guard checks, in this order, that the token is present, the session exists, it has not expired and its account exists; each failure answers 401 with its own message (each stated as an if-and-only-if); it lets a request through exactly when the session is live, attaching that session and its account |
| SessionAuth.AcceptedUntilExpiry | backend/src/middleware/sessionAuth.js:16-18 | a session is accepted at every instant up to and including `expiresAt` and refused as expired at every later one |
| SessionAuth.ReapingKeepsDecisions | backend/src/models/DoctorSession.js:10 | purging expired sessions never changes whether a later request passes the guard, nor what it resolves to; at most "session expired" becomes "invalid session" |
| AuthController.PublicView | backend/src/controllers/authController.js:26 | the register and login replies carry the account's `_id`, `username` and `fullName`, and never its password digest |
| AuthController.ProfileOf | backend/src/controllers/authController.js:91-97 | the profile carries the account's `_id`, `username`, `fullName`, `mobile` and `email` |
| AuthController.GetMe | backend/src/controllers/authController.js:83-103 | `getMe` as written: 401 "not authenticated" exactly when `req.user` is unset, otherwise the profile of `req.user` |
| AuthController.GetMeRefusesGuardedRequests | backend/src/controllers/authController.js:85-88 | `getMe` as written answers 401 to every request the guard has let through |
| AuthController.GetMeFromDoctor | backend/src/controllers/authController.js:83-103 | corrected `getMe`: 401 exactly when `req.doctor` is unset, otherwise the profile of `req.doctor` |
| AuthController.GetMeFromDoctorAnswersGuardedRequests | backend/src/controllers/authController.js:89-98 | behind the guard, the corrected `getMe` answers with the profile of the account that owns the presented session |
| AuthController.OtherSpellingTaken | backend/src/controllers/authController.js:14-15 | once a username is taken, every spelling of it in other letter case and with whitespace around it is taken, so `register` answers 409 for each |
| AuthController.LoggedOutTokenRefused | backend/src/controllers/authController.js:75 | after a logout by token, the guard refuses that token |
| AuthController.LoggedOutSessionRefused | backend/src/controllers/authController.js:67 | after a logout by session id, the guard refuses that session's token |
| AuthController.AddAccountKeepsKeyed | backend/src/controllers/authController.js:18-23 | storing a well-formed account under a fresh `_id` keeps every account stored under its own, handed-out `_id` |
| AuthController.AddAccountKeepsUnique | backend/src/models/Doctor.js:4 | storing an account whose username is not taken keeps usernames unique |
| AuthController.AddAccountKeepsValid | backend/src/controllers/authController.js:14-23 | register's insertion keeps the account collection's invariant, and the new `_id` was free |
| AuthController.AddSessionKeepsValid | backend/src/controllers/authController.js:50 | storing a new session under a fresh token and a fresh `_id` keeps the session collection's invariant |
| AuthController.BumpKeepsAccountsValid | backend/src/controllers/authController.js:50 | handing out an `_id` to a session keeps the account collection's invariant |
| AuthController.RemoveSessionsKeepsValid | backend/src/controllers/authController.js:67 | deleting sessions keeps the session collection's invariant |
| AuthController.AuthStore.Register | backend/src/controllers/authController.js:8-32 | 400 without a truthy username and password; 409 when the normalised username is taken; 500 when schema validation fails; otherwise 201, and exactly one account is added under a fresh `_id`, with the normalised username, the digest, and `fullName` and `mobile` defaulting to `''` |
| AuthController.AuthStore.Login | backend/src/controllers/authController.js:34-61 | 400 without a truthy username and password; 401 "User not found"; 401 "Incorrect password"; 500 when the session cannot be stored; otherwise exactly one session is added under the new token, expiring after the configured lifetime, and the reply carries the token and the public account view; accounts never change |
| AuthController.AuthStore.Logout | backend/src/controllers/authController.js:63-81 | with a guarded session, deletes the session with that `_id`; otherwise 400 without a header token, or deletes the session with that token, a success even when there is none |
| AuthController.AuthStore.ReapExpired | backend/src/models/DoctorSession.js:10 | the TTL purge leaves exactly the unexpired sessions and keeps the invariant |
| RecordController.BuildFilter | backend/src/controllers/recordController.js:9-19 | the query object constrains `userId` when one is given; `status` gives `$in` of its comma-separated names, and otherwise `excludeStatus` gives `$nin` of its names |
| RecordController.FilterSelects | backend/src/controllers/recordController.js:9-19 | a record matches the built query object exactly when it is one the query parameters ask for |
| RecordController.WithUrl | backend/src/controllers/recordController.js:29-32 | an attachment gains `url` equal to its `gridFsId`, and nothing else about it changes |
| RecordController.WithUrls | backend/src/controllers/recordController.js:26-35 | every attachment of a listed record gains `url` equal to its `gridFsId`; no other field of the record changes |
| RecordController.Chosen | backend/src/controllers/recordController.js:21 | the chosen ids are exactly those whose record matches, in ascending order |
| RecordController.Shown | backend/src/controllers/recordController.js:26-35 | the listing shows each chosen record with its attachment urls |
| RecordController.GetRecords | backend/src/controllers/recordController.js:4-42 | the listing holds exactly the selected records, each once, as shown with urls, newest first |
| RecordController.ListingFacts | backend/src/controllers/recordController.js:21-35 | a newest-first permutation of the shown, chosen records holds exactly the selected records, each once |
| RecordController.StatusTakesPrecedence | backend/src/controllers/recordController.js:12-19 | when `status` is given, `excludeStatus` makes no difference to the listing |
| RecordController.NoQueryListsAll | backend/src/controllers/recordController.js:9-21 | with no query parameters every record is listed |
| RecordController.BuildUpdate | backend/src/controllers/recordController.js:49-57 | 400 "invalid status" exactly when a truthy status is not one of the five names; otherwise the update sets the status when it is given, and each response field exactly when its value is truthy |
| RecordController.Apply | backend/src/controllers/recordController.js:59-63 | `findByIdAndUpdate` sets the fields present in the update and keeps every other field |
| RecordController.ApplyIdempotent | backend/src/controllers/recordController.js:59-63 | sending the same update twice leaves the record as sending it once |
| RecordController.RecordStore.Add | backend/src/models/Record.js:11-22 | a new record is stored under a fresh `_id` as the schema creates it |
| RecordController.RecordStore.UpdateStatus | backend/src/controllers/recordController.js:44-72 | 400 for an invalid status and 404 for an unknown id, both leaving the collection unchanged; otherwise only that record changes, and only in the given fields, and the reply is the updated record |
| AppointmentController.Shown | backend/src/controllers/appointmentController.js:6-8 | the listing shows the documents of the given ids, in that order |
| AppointmentController.GetAppointments | backend/src/controllers/appointmentController.js:3-15 | the listing holds every appointment, each once, unchanged, newest first |
| AppointmentController.ListingFacts | backend/src/controllers/appointmentController.js:6-8 | a newest-first permutation of all the appointments holds each of them exactly once |
| AppointmentController.AppointmentStore.Add | backend/src/models/Appointment.js:3-12 | a new appointment is stored under a fresh `_id` as the schema creates it |
| AppointmentController.AppointmentStore.UpdateStatus | backend/src/controllers/appointmentController.js:17-39 | 400 when the status is missing or not one of the four names, and 404 for an unknown id, both leaving the collection unchanged; otherwise that appointment alone takes the new status, whatever its old one, and the reply is the updated appointment |
| Scenarios.SameUsername | backend/src/controllers/authController.js:14 | "dr_amit" is already normal, and " DR_Amit " normalises to it |
| Scenarios.RegisterFirst | backend/src/controllers/authController.js:8-32 | registering in an empty store stores the account under its normal username and the digest of its password |
| Scenarios.RegisterAgain | backend/src/controllers/authController.js:14-15 | registering a spelling of a taken username is refused and changes nothing |
| Scenarios.LogIn | backend/src/controllers/authController.js:34-61 | a wrong-password attempt followed by a login with the right password adds exactly one session, under the new token, and the guard accepts that token for the account |
| Scenarios.LogOut | backend/src/controllers/authController.js:71-76 | logging out twice by the same header token removes exactly that token's session and nothing else |

## Left out

- Text.Lower: lower-cases only the letters A to Z. `toLowerCase()` also folds other scripts, which the model does not.
- Whitespace is the set of ECMAScript WhiteSpace and LineTerminator code points. Characters are Dafny `char`s, not UTF-16 code units.
- DoctorSessionSchema.TtlHours: takes the setting as an already parsed whole, non-negative number of hours. Parsing with `Number()` is not modelled: a non-numeric setting gives `NaN` and an invalid date, and the resulting 500 is not modelled either.
- DoctorSessionSchema.TtlHours: fractional and negative settings are not modelled either. `0.5` would give 30-minute sessions, and `-1` sessions that are already expired when created.
- The 500 "server error" paths are modelled where the store's schema or unique index refuses the write:
  - a username that normalises to `''`;
  - an empty password digest;
  - an empty or already stored session token.
- Other 500s are not modelled: a lost database connection, a bcrypt failure, and a malformed `_id` that the store cannot cast (`CastError`). In the model ids are natural numbers, so an uncastable id is not representable.
- `populate('userId', ...)` in both listings is left out. It joins patient documents from the `User` collection, which is not part of this model. The listings return the stored reference.
- `toObject()`, the `updatedAt` timestamp and mongoose's `__v` field are not modelled.
- Query-string values that arrive as arrays (`?status=a&status=b`) are not modelled. Every query parameter is a string or absent.
- Request-body fields of other JSON types are not modelled: every body field is a string or absent. A numeric `username` makes `toLowerCase` throw, which answers 500. A numeric record `status` is not one of the names, which answers 400.
- The guard's `session.expiresAt < new Date()` compares against the clock. The clock is the parameter `now`.
- The TTL monitor runs in the background about once a minute. `AuthStore.ReapExpired` is one purge at a given instant, and the timing of purges is left to the caller.
- bcrypt's hashing and comparison, uuid generation, Express routing, CORS, the HTTP layer and logging are not modelled. Hashing, comparison, the token and the clock are parameters. The routes that mount the guard are not part of this model.
- Concurrency is not modelled: two registrations of the same username racing past the `findOne` check are not modelled. Each handler runs atomically against the store.
- RecordController.GetRecords: takes a bound `limit` on the ids in the collection. This is a device of the model for enumerating a map in `_id` order, not an input of the handler.
- AppointmentController.GetAppointments: takes the same `limit` bound, for the same reason.
- Ties in `createdAt` are ordered by insertion into a newest-first list. MongoDB leaves the order of equal keys unspecified, so the contracts state only that the listing is newest first.
- The appointment listing reads no query parameters and lists every appointment. The model follows the handler.
- `Scenarios.AccountLifecycle` and `Scenarios.AppointmentStatusChanges` chain the other scenarios on literal values and state nothing beyond their assertions, so they have no rows.

## Findings

| source | as written | input that shows it | evidently intended | confidence | as-written member | corrected member |
|---|---|---|---|---|---|---|
| backend/src/controllers/authController.js:86 | `getMe` answers from `req.user`, but the `sessionAuth` guard sets only `req.session` and `req.doctor` | any request with a live session token that the guard lets through to `getMe` is answered 401 "not authenticated" | answer with the profile of `req.doctor`, the account the guard attached | high (proved over all inputs; not executed) | AuthController.GetMeRefusesGuardedRequests | AuthController.GetMeFromDoctorAnswersGuardedRequests |
