# Clinical notes backend — a Dafny model

This project models the core of a clinical-practice backend written in
Python (FastAPI, SQLModel, PyJWT): the clinical-notes endpoints, the
registration and login endpoints, the bearer-token authentication ladder and
the records they work on.

- `http.dfy` (`Http`): HTTP errors, `Result` and `Outcome`, the server error
  (500) an uncaught exception turns into.
- `models.dfy` (`Models`): the `User` and `ClinicalNote` rows, the
  `NoteCreate` / `NoteUpdate` / `NoteRead` request and response shapes, their
  defaults, and the unique-email constraint.
- `db.dfy` (`Db`): the database as a class `Database` holding the user and
  note tables (`map<int, _>` keyed by primary key) and the two id sequences;
  its `Valid()` predicate states the table constraints: stored ids equal
  their keys and lie below the sequence, emails are unique, and both foreign
  keys of every note resolve. It also holds the user-by-email query
  (main.py:96, main.py:126, auth.py:41) and the ascending id order the model
  uses to break creation-time ties in the note listing.
- `auth.py` → `auth.dfy` (`Auth`): the claims an access token is signed over
  and the `get_current_user` decision ladder.
- `main.py` → `users.dfy` (`Users`): `register_user` (a method on the
  database) and `login` (a function of the user table).
- `routes/notes.py` → `notequery.dfy` (`NoteQuery`) and `notes.dfy`
  (`Notes`): the listing query as a pipeline of functions (filters,
  newest-first order, offset/limit window, views); the role gate, the 404
  lookup, the ownership check, and the five handlers. Create, update and
  delete are methods that change the database; listing is a method whose
  loop builds the views; reading one note is a function.

Every notes handler takes the decoded bearer token and the database, runs
the dependency chain "current user, then psychologist role" itself, and
returns `Ok` or `Err(HttpError(status, detail))` with the source's status
codes and messages; registration and login do no authentication and return
the same kind of result. Timestamps are an integer `now` parameter. Password hashing and
verification are the parameters `hash` and `verify`. A token is represented
by its claims; decoding one is the value `Decoded` (claims, expired, or
invalid).

The clinical role is the string "psychologist" (routes/notes.py:16), not a
role named "doctor" as the service's own design description calls clinical
staff; roles are free text, and registration stores any role string,
defaulting to "patient" (main.py:31).

Two handlers and the ownership check read attributes the records do not
declare, so as written they raise (see "## Findings"). There the model
follows the intended code instead: `Notes.ValidateAuthorOwnership`,
`Notes.GetSingleNote`, `Notes.UpdateNote` and `Notes.DeleteNote` compare and
look up the note's `psychologist_id` and leave the confidentiality field out,
while the members named `…AsWritten` model the code as it stands.

## Model

| member | source | states |
|---|---|---|
| `Models.NewUser` | model/models.py:10-15 | a new user has no id until stored, the given email, name and hash, and role "patient" unless one is given |
| `Models.NewClinicalNote` | model/models.py:17-23 | a new note has no id, no update time, creation time `now`, and the given content, patient and author |
| `Models.ToNoteRead` | model/models.py:37-43 | the client view carries the note's id, content and both timestamps plus the author name, and neither user id |
| `Db.FindUserByEmail` | main.py:96 | the user the email query finds has that email; it finds none exactly when no stored user has it; with unique emails it is the only one |
| `Db.Database.constructor` | db/db.py:13-14 | the tables start empty with both id sequences at 1, and satisfy the primary-key, unique-email and foreign-key constraints |
| `Auth.CreateAccessToken` | auth.py:22-26 | the signed claims are the caller's claims plus "exp" = now + delta, default 1440 minutes; every other claim is kept |
| `Auth.GetCurrentUser` | auth.py:28-44 | expired token → 401 "Token has expired"; other invalid token → 401 "Invalid token"; missing subject → 401 "Invalid authentication credentials"; a subject that is not a string (null or a number) → 401 "Invalid token"; otherwise the stored user with the subject email, or 401 "User not found"; every failure is a 401 |
| `Auth.OnlySubjectConsulted` | auth.py:33-44 | payloads that agree on "sub" give the same user, whatever their role claim says, so the role comes from the table |
| `Users.RegisterUser` | main.py:93-121 | a registered email gives 400 and no change; otherwise exactly one user is added under the next id with the given fields and the hash of the password; the response summary has no hash; the table constraints, email uniqueness included, are kept |
| `Users.Login` | main.py:123-148 | unknown email and wrong password give the same 401 "Invalid email or password"; success only for a stored user with that email and a verified password, whose token has sub = email, user_id = id, role = role, exp = now + 1440 min, type "bearer" |
| `Users.Summary` | main.py:115-120 | the user part of a response holds id, email, full name and role, and no password hash |
| `Users.LoginTokenAuthenticatesUser` | main.py:135-148 | the token issued at login, once decoded, authenticates the very user who logged in |
| `Notes.EnsurePsychologist` | routes/notes.py:11-21 | the caller passes unchanged exactly when their role is "psychologist", otherwise 403 |
| `Notes.CurrentPsychologist` | routes/notes.py:47 | authentication errors (401) come first, then the role gate (403); the caller is a stored user |
| `Notes.GetNoteOr404` | routes/notes.py:23-30 | the stored note for a present id, 404 "Clinical note not found" otherwise |
| `Notes.ValidateAuthorOwnership` | routes/notes.py:32-40 | passes exactly when the caller's id is the note's author id, otherwise 403, whatever the caller's role |
| `Notes.ValidateAuthorOwnershipAsWritten` | routes/notes.py:36 | the check as written never passes and fails with a server error, for every note and caller |
| `Notes.AuthorLockedOutAsWritten` | routes/notes.py:36 | the author of a note passes the intended check and gets a server error from the check as written |
| `Notes.ApplyNoteUpdate` | routes/notes.py:148-154 | content replaced only when given, update time always set, id, creation time, patient and author kept |
| `Notes.ApplyNoteUpdateAsWritten` | routes/notes.py:149-152 | the update step as written always fails with a server error |
| `Notes.UpdateNoteAsWritten` | routes/notes.py:138-146 | `update_note` as written never succeeds |
| `Notes.UpdateFailsAsWritten` | routes/notes.py:145-151 | as written, every PUT that passes the role gate and finds the note is a 500, the author's included, and the update step at line 151 raises on its own |
| `Notes.DeleteNoteAsWritten` | routes/notes.py:166-173 | `delete_note` as written never succeeds |
| `Notes.DeleteFailsAsWritten` | routes/notes.py:166-173 | as written, 401/403 and 404 come as intended, and every DELETE that passes them is a 500, the author's included |
| `Notes.CreateClinicalNote` | routes/notes.py:43-75 | 401/403 first; unknown patient → 404 before a non-patient target → 400, the store unchanged on every error; on success exactly one note is added under the next id with the given content and patient, the caller as author, creation time now, no update time, and the view names the caller |
| `Notes.ViewRows` | routes/notes.py:112-118 | the loop yields, in row order, the view of each row with its author's name or "Unknown" |
| `Notes.GetNotes` | routes/notes.py:78-120 | no filters, limit 20 and offset 0 unless given; 401/403 first; negative limit or offset → 500; otherwise the views, in order, of the offset/limit window of some newest-first listing of exactly the matching notes: at most `limit`, newest first, each a note both filters accept; nothing changes |
| `Notes.GetSingleNote` | routes/notes.py:123-135 | 401/403, then 404 for an unknown id, otherwise the note's view with its author's name |
| `Notes.AnyPsychologistMayRead` | routes/notes.py:123-135 | reading has no ownership check: every authorised caller gets the same answer |
| `Notes.GetSingleNoteAsWritten` | routes/notes.py:129-130 | reading a note as written never succeeds |
| `Notes.SingleNoteUnreadableAsWritten` | routes/notes.py:130 | where the intended read succeeds, the one as written is a server error; its other errors are the intended ones |
| `Notes.UpdateNote` | routes/notes.py:138-163 | 401/403, then 404, then 403 for a non-author, store unchanged on each; the author's update replaces that note by its updated form and nothing else; the view names the caller |
| `Notes.DeleteNote` | routes/notes.py:166-178 | 401/403, then 404, then 403 for a non-author, store unchanged on each; the author's delete removes exactly that note |
| `NoteQuery.Lower` | routes/notes.py:100 | lower-casing keeps the length and lower-cases each character |
| `NoteQuery.MatchingIds` | routes/notes.py:94-100 | a note matches exactly when the patient filter (absent or 0 means none) and the case-insensitive search (absent or empty means none) both accept it |
| `NoteQuery.SearchIgnoresCase` | routes/notes.py:99-100 | a search text and its lower-case form select the same notes |
| `NoteQuery.InsertNewestFirst` | routes/notes.py:107 | inserting into a newest-first sequence adds exactly that id and keeps it newest first |
| `NoteQuery.SortNewestFirst` | routes/notes.py:107 | the result is a permutation of the ids, newest first |
| `NoteQuery.Ordered` | routes/notes.py:92-107 | the ordered query holds every matching note exactly once, newest first |
| `NoteQuery.Window` | routes/notes.py:108 | offset/limit keeps `min(limit, n - offset)` ids (none past the end), the ones starting at `offset` |
| `NoteQuery.Query` | routes/notes.py:92-110 | the query returns only stored notes both filters accept |
| `NoteQuery.QueryIsWindowOfListing` | routes/notes.py:92-110 | the answer is the offset/limit window of some newest-first listing of exactly the matching notes, is newest first and holds at most `limit` notes |
| `NoteQuery.WindowKeepsOrder` | routes/notes.py:108 | a window of a newest-first sequence is newest first |
| `NoteQuery.ListingsHaveSameLength` | routes/notes.py:107-108 | all correct orderings (ties in either order) give windows of the same length |
| `NoteQuery.LastPageHoldsOldest` | routes/notes.py:108 | a window reaching past the end is the tail of the listing, the oldest matches |
| `NoteQuery.AuthorName` | routes/notes.py:114-117 | the author's full name, or "Unknown" when no user has the author id |
| `NoteQuery.NoteView` | routes/notes.py:115-118 | a listed view shows the note's id, content and timestamps and its author's name |
| `NoteQuery.NoteViews` | routes/notes.py:112-120 | one view per returned row, in the query's order |
| `NoteQuery.ViewsKeepOrder` | routes/notes.py:107-118 | the views of a newest-first sequence are newest first |
| `NoteQuery.ViewsShowKeys` | routes/notes.py:115-116 | each view shows the id of the row it was built from |
| `NoteQuery.QueryViewsNewestFirst` | routes/notes.py:107-120 | the listed views are newest first, at most `limit` many, and each shows a matching note |
| `NoteQuery.QueryViewsOfSomeListing` | routes/notes.py:107-118 | the listed views are those of the offset/limit window of some newest-first listing of the matching notes, whatever order that listing gives notes created at the same time |

## Left out

- JSON Web Token encoding, decoding and the HS256 signature are the JWT library's; a token is its claims, and decoding is the abstract value `Decoded`.
- Password hashing and verification are the hashing library's; they are the parameters `hash` and `verify`.
- The database engine, sessions, commit and refresh, table creation and settings: the store is the `Database` class, and a fresh id is the next value of its sequence.
- Routing, dependency injection, bearer-header parsing, CORS and the `read_root` and `hello_world` endpoints are framework glue.
- Clocks and time zones: `datetime.now()` and `datetime.utcnow()` are both the integer `now`, and the naive expiry time the JWT library converts is taken as `now + delta` seconds.
- main.py:44-66 repeats auth.py:22-44 line for line; both are `Auth.CreateAccessToken` and `Auth.GetCurrentUser`.
- `Auth.GetCurrentUser`: a "sub" claim that is present but null or a number gives "Invalid token", as JWT library versions that check the subject while decoding do; older versions would pass a null subject to the "Invalid authentication credentials" branch and a numeric one to the email query, which the model does not capture. Other claim value types are not modelled.
- `NoteQuery.MatchesSearch`: `icontains` is modelled as an ASCII lower-case substring test; the database's own case folding and the `%` and `_` wildcards of SQL `LIKE` in an unescaped search text are not modelled.
- `NoteQuery.Ordered`: the database may break creation-time ties in any order; the model picks ascending id, and its contracts only claim "some newest-first listing".
- `Notes.GetNotes`: a negative limit or offset is rejected by the database and is modelled as a 500; no other database failure is modelled.
- `Db.FindUserByEmail`: when several users share an email (impossible under the unique constraint), the model picks the least id, the database any one of them.
- Email syntax validation and normalisation of the request models is not modelled; emails are plain strings.
- model/ClinicalNoteDTO.py and model/AppointmentDTOs.py only declare records no modelled handler uses.
- Concurrent requests and transaction isolation are left to the database.

## Findings

| source | as written | input that shows it | evidently intended | confidence | as-written member | corrected member |
|---|---|---|---|---|---|---|
| routes/notes.py:36 | `validate_author_ownership` compares `note.author_id`, which `ClinicalNote` does not declare, so it raises and every update and delete of an existing note ends in a 500 (`Notes.UpdateFailsAsWritten`, `Notes.DeleteFailsAsWritten`) | the author of note 1 sends `PUT /notes/1` or `DELETE /notes/1` | compare the note's `psychologist_id` with the caller's id (the function's docstring) | high, not executed | `Notes.AuthorLockedOutAsWritten` | `Notes.ValidateAuthorOwnership` |
| routes/notes.py:130 | `get_single_note` looks the author up by `note.author_id`, which raises, so reading any existing note ends in a 500 | any psychologist sends `GET /notes/1` for a stored note 1 | look the author up by `psychologist_id`, as the listing does at routes/notes.py:114 | high, not executed | `Notes.SingleNoteUnreadableAsWritten` | `Notes.GetSingleNote` |
| routes/notes.py:151 | `update_note` reads `update_data.is_confidential`, which `NoteUpdate` does not declare, so it raises before anything is committed | as written the request already raises at routes/notes.py:146, so line 151 is reached only once routes/notes.py:36 is fixed; then the author of note 1 sends `PUT /notes/1` with `{"content": "x"}` | drop the confidentiality branch, as the commented-out fields at model/models.py:34 and model/models.py:43 suggest | high, not executed | `Notes.UpdateFailsAsWritten` | `Notes.ApplyNoteUpdate` |
