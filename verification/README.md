# Highway Delight notes: a Dafny model of the server handlers and the client stores

Highway Delight is a note-taking application. Its Express server signs users up with a
password or a Google account and proves e-mail ownership with six-digit one-time codes.
Password login, code login, Google sign-in and logout answer with a signed token, also set
as the `token` cookie. Signed-in users read, create, update and delete their own notes and
manage their profile. The React client keeps three Redux stores: auth, notes and theme.

This project models the parts of that system whose behaviour can be stated:

- **OTP store** (`otp_service.dfy`, module `OtpService`). A code table in which issuing a
  code supersedes the pair's earlier codes, a check consumes the code it accepts, and
  cleanup sweeps expired rows. It is a class whose `tokens` field the methods reassign. The
  table's invariant is proved preserved: at most one unused code per e-mail and purpose.
- **Tables** (`database.dfy`, module `Database`). The user and note tables behind the
  ORM, as a class `Db` shared by every controller. Ids come from counters; e-mails are unique.
- **Auth handlers** (`auth_controller.dfy`). Signup, login, send-otp, verify-otp, Google
  sign-in and logout, as methods over the shared tables. Each method's contract gives the
  reply and the new tables for every branch.
- **Request middleware** (`auth_middleware.dfy`). Token extraction (header, then cookie)
  and the ladder of 401 replies.
- **Error handler** (`error_handler.dfy`) and **request validation** (`validation.dfy`):
  the failure replies and the request schemas, which yield every error detail in the
  schema library's order.
- **Note and profile handlers** (`note_controller.dfy`, `user_controller.dfy`). Every
  note query is scoped to the requester. Account deletion cascades to the user's notes.
- **Client stores** (`notes_slice.dfy`, `auth_slice.dfy`, `theme_slice.dfy`, with the
  browser's two string stores in `browser_storage.dfy`). Each store is a class whose
  methods are the reducers and the request thunks.
- `base.dfy` holds optional values and JavaScript truthiness. `text.dfy` holds `split`,
  `join` and decimal rendering. `session_gap.dfy` relates verify-otp, login and the
  middleware.

Password hashing and comparison, token signing and checking, Google's credential check,
the e-mail and date format checks, and the system colour preference are all oracles.
Each is a function-typed or datatype parameter. The clock is a parameter `now` in
milliseconds. The random code is a parameter in 100000..999999.

Two details of the code are kept exactly:
- Codes are `Math.floor(100000 + random * 900000)`, so they never start with a zero.
- The code lookup accepts a row only while `expiresAt > now`, and cleanup deletes only rows
  with `expiresAt < now`. A row expiring exactly at `now` is kept but no longer accepted.

Three behaviours are taken from the code's own comments and the ORM's conventions. The
user delete cascades to the user's notes (server/src/controllers/UserController.ts:130).
A note's `updatedAt` is set on every update. An `undefined` value in a lookup filter means
"no condition".

The verify-otp and Google routes read their bodies without a schema. There a member may be
missing, `null` or a string (`BodyField`). A destructuring default replaces only a missing
member. A `null` Google mode therefore signs up, and a `null` purpose names none, so the
request is refused. The schemas count string lengths in UTF-16 code units, as JavaScript's
`length` does, so a character outside the Basic Multilingual Plane counts twice.

Two observations are proved rather than corrected:
- A LOGIN code accepted by verify-otp opens a session for an unverified account. Password
  or code login refuses that account with 401, and so does the middleware on every
  protected route (`SessionGap`).
- The login route's schema does not declare `remember`, so a login body carrying it is
  refused as an unknown key. The `remember` branch of the login handler is therefore
  reachable only without validation. The handler is still modelled with it.

## Model

| member | source | states |
|---|---|---|
| OtpService.ParseOtpType | server/src/services/OtpService.ts:9 | each of the three purpose names, and only it, maps to its purpose; any other string names none |
| OtpService.FirstMatch | server/src/services/OtpService.ts:56-66 | the found row matches e-mail, code and purpose, is unused and unexpired, and is the first such row; None means no row matches |
| OtpService.UnusedCountInvalidate | server/src/services/OtpService.ts:19-29 | after superseding, the pair has no unused code and every other pair keeps its count |
| OtpService.UnusedCountConsume | server/src/services/OtpService.ts:72-76 | consuming an unused row lowers its pair's unused count by one and no other pair's |
| OtpService.UnusedCountUnexpired | server/src/services/OtpService.ts:85-93 | cleanup never adds an unused code to any pair |
| OtpService.IssueKeepsInvariant | server/src/services/OtpService.ts:17-40 | issuing a code keeps at most one unused code per e-mail and purpose |
| OtpService.IssueOnlyNewestMatches | server/src/services/OtpService.ts:14-40 | right after issuing, a check accepts exactly the new code before its ten minutes are up, on the new row, and nothing else |
| OtpService.ConsumeChangesOneRow | server/src/services/OtpService.ts:68-78 | a successful check marks exactly the matched row used and leaves every other row unchanged |
| OtpService.SecondVerificationFails | server/src/services/OtpService.ts:56-78 | a code is single-use: repeating a successful check fails at any later time |
| OtpService.MatchIsUnique | server/src/services/OtpService.ts:56-66 | under the table invariant at most one row can match a check |
| OtpService.ConsumeKeepsInvariant | server/src/services/OtpService.ts:72-76 | consuming a row keeps the at-most-one-unused invariant |
| OtpService.CleanupKeepsInvariant | server/src/services/OtpService.ts:85-93 | cleanup keeps the at-most-one-unused invariant |
| OtpService.CleanupExact | server/src/services/OtpService.ts:85-93 | a row survives cleanup if and only if its expiry is not before `now` |
| OtpService.CleanupKeepsVerification | server/src/services/OtpService.ts:56-66 | cleanup at `now` never changes what a check at a time not before `now` decides, nor which row it finds |
| OtpService.ExpiryBoundary | server/src/services/OtpService.ts:62-64 | a row expiring exactly at `now` survives cleanup at `now` yet fails a check at `now` |
| OtpService.IssuedCodeIsSixDigits | server/src/services/OtpService.ts:14 | every drawn code renders as six decimal digits without a leading zero |
| OtpService.SupersededCodeRejected | server/src/services/OtpService.ts:19-40 | once a different code is issued, the old code's string is rejected at any time |
| OtpService.FirstMatchAsWritten | server/src/services/OtpService.ts:56-66 | the lookup as written: the first row passing the filter, where a missing e-mail or code drops that column; with both present it is `FirstMatch` |
| OtpService.IssuedRowPasses | server/src/services/OtpService.ts:56-66 | right after issuing, the as-written lookup finds a row for any request whose given e-mail and code are the issued ones |
| OtpService.MissingCodeAcceptedAsWritten | server/src/services/OtpService.ts:56-66 | right after issuing, the as-written lookup with the e-mail and no code finds a row |
| OtpService.MissingEmailAcceptedAsWritten | server/src/services/OtpService.ts:56-66 | right after issuing a code to any account, the as-written lookup with that code and no e-mail finds an unused row with that code and purpose |
| OtpService.RequestMatch | server/src/controllers/AuthController.ts:272-282 | a request without an e-mail or a code matches nothing; a complete one is the as-written lookup, its found row matches, and None means no row does |
| OtpService.OtpStore.GenerateAndSendOtp | server/src/services/OtpService.ts:7-40 | the pair's rows become used, the new six-digit code is appended with a ten-minute expiry, other rows are unchanged and the invariant holds |
| OtpService.OtpStore.VerifyOtp | server/src/services/OtpService.ts:50-83 | true if and only if some row matches; then exactly the first match is consumed, otherwise the table is unchanged |
| OtpService.OtpStore.CleanupExpiredOtps | server/src/services/OtpService.ts:85-97 | the table becomes its unexpired rows in order, keeping the invariant |
| Text.Utf16Length | server/src/middleware/validation.ts:46 | a string's `length` is its number of UTF-16 code units: at least its characters, at most twice them, and equal exactly when all lie in the Basic Multilingual Plane |
| Text.AstralLength | server/src/middleware/validation.ts:46 | a string of characters outside the Basic Multilingual Plane is two units per character |
| Text.JoinSplit | server/src/middleware/auth.ts:27 | joining a split with the same separator gives back the string |
| Text.SplitJoin | server/src/middleware/auth.ts:27 | splitting a join of separator-free pieces gives back the pieces |
| Text.ParseDecimalString | server/src/services/OtpService.ts:14 | reading back a number's decimal rendering gives the number |
| Text.DecimalStringInjective | server/src/services/OtpService.ts:14 | distinct codes render as distinct strings |
| Text.DecimalLength | server/src/services/OtpService.ts:14 | a number in 10^(k-1)..10^k-1 renders with exactly k digits |
| Text.NoLeadingZero | server/src/services/OtpService.ts:14 | a positive number's rendering does not start with a zero |
| Database.FormatUser | server/src/controllers/AuthController.ts:191-201 | the public view keeps id, e-mail, name and verification, drops empty date and avatar, and exposes no password hash or Google id |
| Database.UserByEmail | server/src/controllers/AuthController.ts:68-70 | the found user is stored with that e-mail; None means no stored user has it |
| Database.UserById | server/src/middleware/auth.ts:43-51 | the found user is stored with that id; None means no stored user has it |
| Database.UserByIdUnique | server/src/middleware/auth.ts:43-51 | with unique ids, lookup by a stored user's id finds that user |
| Database.UserByEmailUnique | server/src/controllers/AuthController.ts:124-126 | with unique e-mails, lookup by a stored user's e-mail finds that user |
| Database.OwnedNotes | server/src/controllers/NoteController.ts:39-42 | a note is listed if and only if it is in the table and owned by the user |
| Database.NotesOfOthers | server/src/controllers/UserController.ts:130-133 | a note survives if and only if it is in the table and owned by someone else |
| Database.OwnedPartition | server/src/controllers/UserController.ts:130-133 | a user's notes and everyone else's partition the table, as multisets and by count |
| Database.WithoutNote | server/src/controllers/NoteController.ts:229-231 | a note remains if and only if it was present and has another id |
| Database.WithoutUser | server/src/controllers/UserController.ts:131-133 | a user remains if and only if it was present and has another id |
| Database.WithoutNoteRemovesOne | server/src/controllers/NoteController.ts:229-231 | with unique ids, deleting a present note removes exactly that note: multiset minus one, length minus one |
| Database.WithoutNoteUnique | server/src/controllers/NoteController.ts:229-231 | deleting a note keeps note ids unique |
| Database.NoNoteWithId | server/src/controllers/NoteController.ts:229-231 | deleting an id no note has leaves the table unchanged |
| Database.WithoutUserUnique | server/src/controllers/UserController.ts:131-133 | deleting a user keeps ids and e-mails unique |
| Database.NotesOfOthersUnique | server/src/controllers/UserController.ts:130-133 | the cascade keeps note ids unique |
| Database.UpdateUser | server/src/controllers/AuthController.ts:286-289 | the record with the id becomes the update; every other record and the length are unchanged |
| Database.UpdateNote | server/src/controllers/NoteController.ts:174-181 | the note with the id becomes the update; every other note and the length are unchanged |
| Database.Db.CreateUser | server/src/controllers/AuthController.ts:87-95 | appends the user under a fresh id that no stored user has, keeping ids and e-mails unique |
| Database.Db.PutUser | server/src/controllers/AuthController.ts:402-409 | the record is replaced; notes and counters are unchanged and uniqueness holds |
| Database.Db.PutNote | server/src/controllers/NoteController.ts:174-181 | the note is replaced; users and counters are unchanged |
| Database.Db.DeleteNote | server/src/controllers/NoteController.ts:229-231 | the note leaves the table; users are unchanged |
| Database.Db.DeleteUser | server/src/controllers/UserController.ts:130-133 | the user leaves the table and the user's notes go with it |
| Database.Db.CreateNote | server/src/controllers/NoteController.ts:119-125 | appends the note under a fresh id; users are unchanged |
| AuthController.Fail | server/src/controllers/AuthController.ts:128-134 | a failure reply carries the status and message, no data and no cookie |
| AuthController.SessionCookieOptions | server/src/controllers/AuthController.ts:205-214 | the cookie is HTTP-only and `lax`, secure exactly in production, and has a seven-day lifetime exactly when remembered |
| AuthController.SessionReply | server/src/controllers/AuthController.ts:184-221 | 200 with the user's public view, a token for the user's id, and the same token set as the cookie with the session options |
| AuthController.Logout | server/src/controllers/AuthController.ts:460-472 | 200 "Logout successful", clearing the cookie with the non-persistent session options |
| AuthController.LoginLadder | server/src/controllers/AuthController.ts:124-182 | a session is granted if and only if the user exists, the password step passes, a supplied code is valid, some credential was supplied and the user is verified; each failure has its own status and message: 401 for an unknown user, a wrong password, a rejected code or an unverified user; 400 for a Google-only account or no credential |
| AuthController.RequestedType | server/src/controllers/AuthController.ts:272-274 | SIGNUP exactly when the member is missing or names SIGNUP; a `null` purpose names none; a given name is parsed |
| AuthController.AcceptedRow | server/src/controllers/AuthController.ts:272-282 | an accepted row requires an e-mail, a code and a known purpose and matches them; None with all three present means no row matches |
| AuthController.NewLocalUser | server/src/controllers/AuthController.ts:80-95 | a new local user is unverified, has no Google id or avatar, and stores a hash only for a non-empty password |
| AuthController.NewGoogleUser | server/src/controllers/AuthController.ts:391-399 | a new Google user is verified, with the Google subject and picture and no password |
| AuthController.LinkGoogle | server/src/controllers/AuthController.ts:400-409 | linking sets the Google id and verification, keeps the avatar unless a picture is given, and changes nothing else |
| AuthController.GoogleMode | server/src/controllers/AuthController.ts:352 | the mode is `login` exactly when the member is missing or `login`; a `null` or other mode is kept as it is |
| AuthController.LookupAfterUpdate | server/src/controllers/AuthController.ts:286-294 | after replacing a record, keeping its e-mail, lookup by that e-mail finds the new record and e-mails stay unique |
| AuthController.AuthController.Signup | server/src/controllers/AuthController.ts:63-109 | a taken e-mail gives 409 and no change; otherwise an unverified user is created and a SIGNUP code bound to it is issued, 201 |
| AuthController.AuthController.Login | server/src/controllers/AuthController.ts:120-221 | the reply follows `LoginLadder`; a code is checked only after the password step passes, and it is consumed exactly when it matches |
| AuthController.AuthController.SendOtp | server/src/controllers/AuthController.ts:232-259 | an unknown e-mail gives 404 and no change; otherwise a LOGIN code bound to the user is issued |
| AuthController.AuthController.VerifyOtp | server/src/controllers/AuthController.ts:270-347 | the corrected handler: a request without an e-mail or a code is refused with 400 and nothing changes. Success only on an accepted row, which is consumed. SIGNUP marks the user verified (500 when no user). Other purposes answer 404 for no user, else a session for the user as stored |
| AuthController.AuthController.GoogleAuth | server/src/controllers/AuthController.ts:350-455 | a rejected credential gives 500 and no payload 400. An unknown e-mail gives 404 in login mode (a missing mode included) and a new verified user in any other, `null` included. An unlinked account is linked; then a session |
| AuthMiddleware.HeaderToken | server/src/middleware/auth.ts:26-27 | the header yields a token if and only if it is non-empty and has a second space-separated word, which is the token |
| AuthMiddleware.ExtractToken | server/src/middleware/auth.ts:26-31 | a non-empty header token wins; otherwise a non-empty cookie; a found token is never empty |
| AuthMiddleware.Authenticate | server/src/middleware/auth.ts:33-77 | proceeds if and only if a token is present, verifies to an id, the user exists and is verified. Every refusal is 401 with its own message: "Access token is required", "Invalid or expired token", "User not found", "Please verify your email address" |
| AuthMiddleware.AnySchemeYieldsToken | server/src/middleware/auth.ts:27 | any first word followed by a space and a space-free token yields the token: the scheme is not checked |
| AuthMiddleware.BearerTokenDecision | server/src/middleware/auth.ts:41-70 | a bearer token verifying to a stored user's id proceeds exactly when that user is verified, else 401 "Please verify your email address" |
| AuthMiddleware.AuthRequest.AuthenticateToken | server/src/middleware/auth.ts:20-78 | on proceeding `req.user` is set and `next` called once; otherwise a 401 reply is written and `next` is not called |
| SessionGap.LoginCodeAccepted | server/src/controllers/AuthController.ts:248-282 | a just-issued LOGIN code is accepted by verify-otp, on the new row, for the user that holds the e-mail |
| SessionGap.UnverifiedLoginCodeOpensRefusedSession | server/src/controllers/AuthController.ts:270-338 | for an unverified user, verify-otp accepts the LOGIN code, while login refuses with 401 and the middleware refuses the session token with 401 |
| ErrorHandler.DefaultStatus | server/src/middleware/errorHandler.ts:22 | a missing or zero status becomes 500; any other status is kept |
| ErrorHandler.DefaultMessage | server/src/middleware/errorHandler.ts:23 | an empty message becomes "Internal Server Error"; the message is never empty |
| ErrorHandler.HandleError | server/src/middleware/errorHandler.ts:16-61 | every reply is a failure with a message. The four known error names get their statuses and messages; others keep the defaults. The stack is exposed only in development |
| Validation.Validate | server/src/middleware/validation.ts:17-38 | passes if and only if there are no details; otherwise 400 with one entry per detail, in order, its field the dot-joined path |
| Validation.FieldRecoversPath | server/src/middleware/validation.ts:22-25 | a reported field splits back into its path when no step contains a dot |
| Validation.RuleDetails | server/src/middleware/validation.ts:42-56 | no detail if and only if every rule passes, lengths counted in UTF-16 code units; at most one detail per rule, under the key |
| Validation.BrokenRuleReported | server/src/middleware/validation.ts:42-56 | a broken rule is reported under the key with its own message |
| Validation.LengthBounds | server/src/middleware/validation.ts:46-50 | a minimum and a maximum length together accept exactly the lengths between them |
| Validation.StringKey | server/src/middleware/validation.ts:42-56 | a missing key reports only its required message; `''` reports only the empty message unless allowed; otherwise the broken rules |
| Validation.UnknownDetails | server/src/middleware/validation.ts:41-98 | one "is not allowed" detail per undeclared key, in order |
| Validation.SignupDetails | server/src/middleware/validation.ts:41-57 | no detail if and only if the body has a valid e-mail, a name of 2-50 UTF-16 units, a valid date if any, a password of at least 8 units if any, and no other key |
| Validation.AstralLengths | server/src/middleware/validation.ts:46-55 | four emoji make a password long enough, and one emoji a name long enough, since each counts two units |
| Validation.SignupMessages | server/src/middleware/validation.ts:41-57 | each missing, out-of-bounds or malformed signup field reports the schema's own message |
| Validation.LoginDetails | server/src/middleware/validation.ts:59-66 | no detail if and only if there is a valid e-mail, a non-empty password or code (at least one), and no other key; a missing pair and every unknown key are reported |
| Validation.OtpDetails | server/src/middleware/validation.ts:68-73 | no detail if and only if the body is exactly a valid e-mail |
| Validation.NoteDetails | server/src/middleware/validation.ts:75-86 | no detail if and only if the title has 1-200 UTF-16 units and no other key is present; a missing or empty title reports first |
| Validation.UpdateNoteDetails | server/src/middleware/validation.ts:88-98 | no detail if and only if at least one key is present, any title has 1-200 UTF-16 units and no other key is present; an empty body reports only the key-count message |
| Validation.EmptyTitleMessageUnreachable | server/src/middleware/validation.ts:76-77 | the schema's "Title cannot be empty" message is never reported, for either note schema |
| NoteController.FormatNote | server/src/controllers/NoteController.ts:44-52 | the view keeps id, title, owner and times, drops empty content, and reads a missing `completed` as false |
| NoteController.InsertByRecency | server/src/controllers/NoteController.ts:41 | inserting into a newest-first list keeps it newest first and adds exactly the note |
| NoteController.SortByRecency | server/src/controllers/NoteController.ts:41 | the result is newest first and a permutation of the input |
| NoteController.FormatNotes | server/src/controllers/NoteController.ts:44-52 | each position holds the formatted note of the same position |
| NoteController.SortedViewsOrdered | server/src/controllers/NoteController.ts:39-52 | the sorted views of one user's notes are that user's, newest first, one per note |
| NoteController.SortedViewsMembers | server/src/controllers/NoteController.ts:39-52 | the sorted views are exactly the formatted members of the list |
| NoteController.GetNotes | server/src/controllers/NoteController.ts:35-61 | 200 with exactly the requester's notes, formatted, newest first, as many as the requester owns |
| NoteController.FindOwned | server/src/controllers/NoteController.ts:74-79 | the found note has the id and the requester as owner; None means no such note |
| NoteController.GetNote | server/src/controllers/NoteController.ts:69-105 | 404 unless the requester owns a note with the id; then 200 with that note formatted |
| NoteController.FindOwnedSeesOwnNotes | server/src/controllers/NoteController.ts:74-79 | the scoped lookup gives the same answer on the requester's notes alone |
| NoteController.OtherUsersInvisible | server/src/controllers/NoteController.ts:35-105 | two tables with the same notes for a user give that user the same list and single-note replies |
| NoteController.ForeignNoteLooksMissing | server/src/controllers/NoteController.ts:74-87 | another user's note answers 404 exactly as a deleted one does |
| NoteController.NewNote | server/src/controllers/NoteController.ts:116-125 | a new note has the title and owner, content `''` when none is given, no `completed`, and both times `now` |
| NoteController.ApplyNoteUpdate | server/src/controllers/NoteController.ts:174-181 | exactly the supplied fields change, and `updatedAt` becomes `now` |
| NoteController.NoteController.CreateNote | server/src/controllers/NoteController.ts:114-140 | one note owned by the requester is appended; 201 with its view |
| NoteController.NoteController.UpdateNote | server/src/controllers/NoteController.ts:152-198 | 404 and no change unless the requester owns the note; otherwise that note gets the supplied fields; 200 |
| NoteController.NoteController.DeleteNote | server/src/controllers/NoteController.ts:208-237 | 404 and no change unless the requester owns the note; otherwise exactly that note goes (multiset minus one); 200 |
| UserController.GetProfile | server/src/controllers/UserController.ts:24-66 | 404 when no record has the id; otherwise 200 with the record's public view |
| UserController.ProfileIsOwnRecord | server/src/controllers/UserController.ts:28-57 | with unique ids, the profile returned for a stored user is that user's |
| UserController.ApplyProfile | server/src/controllers/UserController.ts:81-87 | name, date and avatar change only when a non-empty value is given; nothing else changes |
| UserController.EmptyUpdateKeepsRecord | server/src/controllers/UserController.ts:81-87 | an update whose name, date and avatar are all missing or empty leaves the record exactly as it was |
| UserController.UserController.UpdateProfile | server/src/controllers/UserController.ts:76-123 | a missing record gives 500 and no change; otherwise the record is replaced by the applied update; 200 |
| UserController.UserController.DeleteAccount | server/src/controllers/UserController.ts:126-146 | a missing record gives 500 and no change; otherwise the user and all of the user's notes are gone; 200 |
| NotesSlice.FallbackMessage | client/src/store/slices/notesSlice.ts:20-56 | each request's fallback message, non-empty |
| NotesSlice.FindIndex | client/src/store/slices/notesSlice.ts:114 | the first index holding the id, or -1 if and only if no note holds it |
| NotesSlice.ReplaceFirst | client/src/store/slices/notesSlice.ts:112-117 | the length and every position's id are kept |
| NotesSlice.ReplaceFirstAtFoundIndex | client/src/store/slices/notesSlice.ts:114-117 | the reducer's index assignment equals the note-by-note replacement; an absent id changes nothing |
| NotesSlice.ReplaceFirstChangesOnlyFirstMatch | client/src/store/slices/notesSlice.ts:114-117 | only the first match's position changes, and it then holds the payload |
| NotesSlice.WithoutId | client/src/store/slices/notesSlice.ts:134 | a note remains if and only if it was present and has another id |
| NotesSlice.WithoutIdAppend | client/src/store/slices/notesSlice.ts:134 | filtering distributes over concatenation, so the remaining notes keep their relative order |
| NotesSlice.WithoutAbsentId | client/src/store/slices/notesSlice.ts:134 | deleting an id the list does not hold leaves it unchanged |
| NotesSlice.NotesStore.ClearError | client/src/store/slices/notesSlice.ts:65-67 | only the error is cleared |
| NotesSlice.NotesStore.SetCurrentNote | client/src/store/slices/notesSlice.ts:68-70 | only the selection changes |
| NotesSlice.NotesStore.ClearNotes | client/src/store/slices/notesSlice.ts:71-75 | the list, selection and error are cleared; the loading flag is kept |
| NotesSlice.NotesStore.Pending | client/src/store/slices/notesSlice.ts:80-83 | loading on, error cleared, list and selection kept, for each of the four requests |
| NotesSlice.NotesStore.Rejected | client/src/store/slices/notesSlice.ts:89-92 | loading off, error the server's message or the request's fallback (never empty), list and selection kept |
| NotesSlice.NotesStore.FetchFulfilled | client/src/store/slices/notesSlice.ts:84-88 | the list becomes the payload; loading off, error cleared, selection kept |
| NotesSlice.NotesStore.CreateFulfilled | client/src/store/slices/notesSlice.ts:98-102 | the new note is first and the old list follows in order |
| NotesSlice.NotesStore.UpdateFulfilled | client/src/store/slices/notesSlice.ts:112-122 | the list becomes the first-match replacement, and the selection becomes the payload exactly when its id matches |
| NotesSlice.NotesStore.DeleteFulfilled | client/src/store/slices/notesSlice.ts:132-139 | every note with the id leaves the list; the selection is dropped exactly when its id matches |
| Storage.Get | client/src/store/slices/authSlice.ts:8 | a value is read exactly for a stored key, and it is the stored value |
| Storage.BrowserStorage.SetLocal | client/src/store/slices/authSlice.ts:36 | only the persistent store changes, at that key |
| Storage.BrowserStorage.RemoveLocal | client/src/store/slices/authSlice.ts:144 | only the persistent store changes: the key is gone |
| Storage.BrowserStorage.SetSession | client/src/store/slices/authSlice.ts:38 | only the tab's store changes, at that key |
| Storage.BrowserStorage.RemoveSession | client/src/store/slices/authSlice.ts:117 | only the tab's store changes: the key is gone |
| AuthSlice.FallbackMessage | client/src/store/slices/authSlice.ts:23-92 | each request's fallback message, non-empty |
| AuthSlice.StoredToken | client/src/services/api.ts:29 | a usable token is stored if and only if one store holds a non-empty one; the persistent one wins |
| AuthSlice.TabTokenOutlivesLocalRemoval | client/src/store/slices/authSlice.ts:143-148 | after removing only the persistent token, a token in the tab's store is still the stored token |
| AuthSlice.NoTokenAfterRemovingBoth | client/src/store/slices/authSlice.ts:115-117 | after removing the token from both stores no usable token is stored |
| AuthSlice.AuthStore.constructor | client/src/store/slices/authSlice.ts:6-13 | the token is read from the persistent store only; nobody is signed in and start-up is pending |
| AuthSlice.AuthStore.ClearError | client/src/store/slices/authSlice.ts:157-159 | only the error is cleared |
| AuthSlice.AuthStore.SetUser | client/src/store/slices/authSlice.ts:160-163 | the user is set and counts as signed in; the token is unchanged |
| AuthSlice.AuthStore.ClearAuth | client/src/store/slices/authSlice.ts:164-170 | user, token, sign-in and error are cleared and the persistent token removed; the tab's store is untouched |
| AuthSlice.AuthStore.Pending | client/src/store/slices/authSlice.ts:175-178 | loading on, error cleared, nothing else changed, for each of the five requests |
| AuthSlice.AuthStore.CodeSentFulfilled | client/src/store/slices/authSlice.ts:179-182 | loading off and error cleared; nobody is signed in by it |
| AuthSlice.AuthStore.SessionFulfilled | client/src/store/slices/authSlice.ts:192-198 | user and token from the payload, signed in, loading off, error cleared |
| AuthSlice.AuthStore.Rejected | client/src/store/slices/authSlice.ts:183-247 | loading off and error the server's message or the fallback. Only a failed login signs out of the state; the others keep the sign-in flag |
| AuthSlice.AuthStore.InitializePending | client/src/store/slices/authSlice.ts:250-252 | start-up pending; nothing else changes |
| AuthSlice.AuthStore.InitializeSettled | client/src/store/slices/authSlice.ts:253-258 | start-up over on either outcome; nothing else changes |
| AuthSlice.AuthStore.LogoutPending | client/src/store/slices/authSlice.ts:260-262 | loading on; the error is kept |
| AuthSlice.AuthStore.LogoutFulfilled | client/src/store/slices/authSlice.ts:263-269 | signed out and error cleared |
| AuthSlice.AuthStore.LogoutRejected | client/src/store/slices/authSlice.ts:270-275 | signed out; the error is kept |
| AuthSlice.AuthStore.KeepToken | client/src/store/slices/authSlice.ts:35-39 | the token goes to the persistent store when remembered and to the tab's store otherwise, never both |
| AuthSlice.AuthStore.SessionRequest | client/src/store/slices/authSlice.ts:28-95 | on success the payload is signed in and its token kept in exactly one store; on failure the stores are untouched and the error set |
| AuthSlice.AuthStore.LogoutAsWritten | client/src/store/slices/authSlice.ts:139-150 | signed out and the persistent token removed on either outcome; a token in the tab's store remains the stored token |
| AuthSlice.AuthStore.Logout | client/src/store/slices/authSlice.ts:139-150 | signed out and the token removed from both stores, so no usable token remains |
| AuthSlice.AuthStore.InitializeAuth | client/src/store/slices/authSlice.ts:98-136 | fulfilled exactly when the profile call succeeds with a stored token, or returns a user without one. A returned user is signed in. A failure with a stored token removes it from both stores |
| ThemeSlice.SystemTheme | client/src/store/slices/themeSlice.ts:5-10 | dark exactly when the system prefers dark |
| ThemeSlice.GetSavedTheme | client/src/store/slices/themeSlice.ts:13-24 | the stored theme, not following the system, exactly when one is stored and the flag is not `'true'`; otherwise the system theme, following it |
| ThemeSlice.Toggled | client/src/store/slices/themeSlice.ts:63 | light becomes dark; anything else becomes light |
| ThemeSlice.ToggleTwice | client/src/store/slices/themeSlice.ts:62-64 | toggling twice restores light or dark |
| ThemeSlice.SetThemeRoundTrip | client/src/store/slices/themeSlice.ts:13-24 | what `setTheme` stores reads back as that theme, chosen by the user |
| ThemeSlice.UseSystemRoundTrip | client/src/store/slices/themeSlice.ts:13-24 | what `useSystemTheme` stores reads back as following the system |
| ThemeSlice.ThemeStore.constructor | client/src/store/slices/themeSlice.ts:26-43 | the initial state is the saved theme, applied to the page |
| ThemeSlice.ThemeStore.SetTheme | client/src/store/slices/themeSlice.ts:49-61 | the theme is chosen, stored with the flag `'false'`, applied, and read back as chosen |
| ThemeSlice.ThemeStore.ToggleTheme | client/src/store/slices/themeSlice.ts:62-75 | the toggled theme is chosen, stored with the flag `'false'`, applied, and read back as chosen |
| ThemeSlice.ThemeStore.UseSystemTheme | client/src/store/slices/themeSlice.ts:76-89 | the system theme is applied, the flag set and the stored theme removed, so the saved state follows the system |
| ThemeSlice.ThemeStore.UpdateSystemTheme | client/src/store/slices/themeSlice.ts:90-96 | when following the system the theme becomes the system's; otherwise nothing changes |

## Left out

- Password hashing and comparison, token signing and checking, and Google's credential check are oracles. Their cryptography is not modelled.
- Sending e-mail is not modelled. The mail service catches and logs every send failure (server/src/services/EmailService.ts:19-32), so issuance succeeds whether or not the mail goes out, as in the model.
- The random draw of a code is not modelled: the code is a parameter in 100000..999999.
- The request rate limiter (server/src/middleware/rateLimiter.ts) is not part of this model.
- The React pages, components and hooks are not part of this model. That includes the dashboard's local completed-map, the media-query listener and Google SDK loading.
- The axios client is not modelled beyond the stored-token choice of its request interceptor. Its 401 handler removes the persistent token, and that is not modelled.
- Concurrency is not modelled: handlers and reducers run one at a time.
- The `500` replies of the catch blocks are modelled only where the model's own state makes the call fail. These are verify-otp's SIGNUP update with no user, profile update and account deletion of a missing record, and Google's rejected credential. Failures of the database itself are not modelled.
- `Date` parsing of birth dates and the user table's timestamps are not modelled. Dates are kept as strings; note timestamps are integers.
- A number, boolean or object in the verify-otp and Google bodies is not modelled on its own: it takes the branches of `null`, as the handlers' comparisons and the code lookup treat it.
- The schema library's type coercion and `string.base`/`boolean.base` messages are not modelled. Every value is taken to have the declared type.
- The e-mail and date format checks of the schemas are oracles, so the model does not pin down which strings they accept.
- AuthSlice.AuthStore.SessionRequest: `remember` is a boolean here, where the client reads any truthy value.
- AuthSlice.AuthStore.ClearAuth: modelled as written. Like the `logout` thunk it leaves the tab's token in place (see Findings).
- The signup and send-otp thunks have no storage step. They are covered by `AuthStore.Pending`, `AuthStore.CodeSentFulfilled` and `AuthStore.Rejected`.
- The theme model takes the browser window to exist. The server-rendering branch (`typeof window === 'undefined'`) is not modelled.
- `rootClass` stands for the class list of the document element. Only which theme class it carries is modelled.

## Findings

| source | as written | input that shows it | evidently intended | confidence | as-written member | corrected member |
|---|---|---|---|---|---|---|
| server/src/services/OtpService.ts:56-66 with server/src/routes/auth.ts:18 | verify-otp has no body validation, and a missing `otp` reaches the lookup as `undefined`. The ORM treats that as no condition, so any unused, unexpired code of the e-mail and purpose is accepted and consumed, and a session is issued. | `POST /auth/verify-otp {"email": e}` within ten minutes of a signup for `e` | a request without a code is refused like a wrong code | medium, not executed | OtpService.MissingCodeAcceptedAsWritten | AuthController.AuthController.VerifyOtp |
| server/src/services/OtpService.ts:56-76 with server/src/controllers/AuthController.ts:284-294 | a verify-otp body without `email` reaches the lookup as `undefined`, so the e-mail column is not compared. The first unused, unexpired row with the code and purpose is consumed, whichever account owns it. The follow-up update or lookup by an undefined e-mail then throws, and the reply is 500 "OTP verification failed". Another account's code has been spent. | `POST /auth/verify-otp {"otp": c}` while `c` is another account's live SIGNUP code | a request without an e-mail is refused like a wrong code and consumes nothing | medium, not executed | OtpService.MissingEmailAcceptedAsWritten | AuthController.AuthController.VerifyOtp |
| client/src/store/slices/authSlice.ts:143-148 | the `logout` thunk, and `clearAuth` after it, remove the token from `localStorage` only. A token kept in `sessionStorage` by a login without "remember" survives. The request interceptor and start-up both fall back to it, so the next load in the tab signs the user back in. | log in without "remember", log out, reload the page | logout removes the token from both stores, as start-up already does for a rejected token (client/src/store/slices/authSlice.ts:115-117) | medium, not executed | AuthSlice.AuthStore.LogoutAsWritten | AuthSlice.AuthStore.Logout |
