/**
 * The clinical-notes endpoints. Every endpoint first runs the dependency
 * chain "authenticate the bearer token, then require the psychologist role"
 * and then climbs the same ladder: look the note (or the patient) up, check
 * the target's role or the caller's authorship, and make one change to the
 * note table. Each rung has its own error, and a request that fails a rung
 * leaves the database as it was.
 */
module Notes {
  import opened Http
  import opened Models
  import opened Db
  import opened Auth
  import opened NoteQuery

  const NotPsychologist := HttpError(403, "Access Forbidden: Only clinical staff can manage notes.")
  const NoteNotFound := HttpError(404, "Clinical note not found")
  const NotAuthor := HttpError(403, "Access Denied: You can only modify notes you created.")
  const PatientNotFound := HttpError(404, "Patient ID not found")
  const NotAPatient := HttpError(400, "Target user is not a patient")
  const NoteDeleted := "Clinical note deleted successfully"

  /** The role gate: the caller passes through unchanged exactly when their role is "psychologist". */
  function EnsurePsychologist(user: User): (r: Result<User>)
    ensures r.Ok? <==> user.role == PsychologistRole
    ensures r.Ok? ==> r.value == user
    ensures r.Err? ==> r.error == NotPsychologist
  {
    if user.role != PsychologistRole then Err(NotPsychologist) else Ok(user)
  }

  /**
   * The dependency every notes endpoint declares: the authenticated user,
   * who must hold the psychologist role. Authentication failures (401) come
   * before the role check (403).
   */
  function CurrentPsychologist(token: Decoded, users: map<int, User>): (r: Result<User>)
    ensures r.Ok? <==> GetCurrentUser(token, users).Ok? && GetCurrentUser(token, users).value.role == PsychologistRole
    ensures r.Ok? ==> r.value == GetCurrentUser(token, users).value && r.value in users.Values
    ensures GetCurrentUser(token, users).Err? ==> r.Err? && r.error == GetCurrentUser(token, users).error
    ensures GetCurrentUser(token, users).Ok? && r.Err? ==> r.error == NotPsychologist
  {
    match GetCurrentUser(token, users)
    case Err(e) => Err(e)
    case Ok(user) => EnsurePsychologist(user)
  }

  /** The stored note with that id, or 404. */
  function GetNoteOr404(notes: map<int, ClinicalNote>, noteId: int): (r: Result<ClinicalNote>)
    ensures r.Ok? <==> noteId in notes
    ensures r.Ok? ==> r.value == notes[noteId]
    ensures r.Err? ==> r.error == NoteNotFound
  {
    if noteId in notes then Ok(notes[noteId]) else Err(NoteNotFound)
  }

  /**
   * Only the author may change a note: passes exactly when the caller's id is
   * the note's `psychologistId`, whatever the caller's role. The source reads
   * an attribute `author_id` here, which the note record does not declare;
   * this is the comparison its documentation describes (see
   * `ValidateAuthorOwnershipAsWritten`).
   */
  function ValidateAuthorOwnership(note: ClinicalNote, user: User): (r: Outcome)
    ensures r.Pass? <==> user.id == Some(note.psychologistId)
    ensures r.Fail? ==> r.error == NotAuthor
  {
    if user.id != Some(note.psychologistId) then Fail(NotAuthor) else Pass
  }

  /**
   * The ownership check as written: reading the undeclared `author_id`
   * raises, so no caller passes and the request ends in a server error.
   */
  function ValidateAuthorOwnershipAsWritten(note: ClinicalNote, user: User): (r: Outcome)
    ensures r.Fail? && r.error.status == 500
  {
    Fail(InternalServerError)
  }

  /** The author of a note is refused by the check as written and accepted by the intended one. */
  lemma AuthorLockedOutAsWritten(note: ClinicalNote, user: User)
    requires user.id == Some(note.psychologistId)
    ensures ValidateAuthorOwnership(note, user) == Pass
    ensures ValidateAuthorOwnershipAsWritten(note, user) == Fail(InternalServerError)
  {
  }

  /**
   * Applies an update request: the content is replaced only when one is
   * given, the update time is always set, and nothing else changes.
   */
  function ApplyNoteUpdate(note: ClinicalNote, update: NoteUpdate, now: int): (n: ClinicalNote)
    ensures update.content.Some? ==> n.content == update.content.value
    ensures update.content.None? ==> n.content == note.content
    ensures n.updatedAt == Some(now)
    ensures n.id == note.id && n.createdAt == note.createdAt
    ensures n.patientId == note.patientId && n.psychologistId == note.psychologistId
  {
    var content := if update.content.Some? then update.content.value else note.content;
    note.(content := content, updatedAt := Some(now))
  }

  /**
   * The update as written: after the content it reads
   * `update_data.is_confidential`, which the update request does not declare,
   * so it raises and nothing is committed.
   */
  function ApplyNoteUpdateAsWritten(note: ClinicalNote, update: NoteUpdate, now: int): (r: Result<ClinicalNote>)
    ensures r.Err? && r.error.status == 500
  {
    Err(InternalServerError)
  }

  /**
   * `update_note` as written: the ownership check reads `author_id` and
   * raises, so the request fails before anything is changed; the store is
   * therefore only read.
   */
  function UpdateNoteAsWritten(users: map<int, User>, notes: map<int, ClinicalNote>, token: Decoded, noteId: int, update: NoteUpdate, now: int): (r: Result<NoteRead>)
    ensures r.Err?
  {
    match CurrentPsychologist(token, users)
    case Err(e) => Err(e)
    case Ok(caller) =>
      match GetNoteOr404(notes, noteId)
      case Err(e) => Err(e)
      case Ok(note) =>
        // the ownership check never passes as written, so the update step is not reached
        Err(ValidateAuthorOwnershipAsWritten(note, caller).error)
  }

  /**
   * As written, every PUT that passes the role gate and the 404 lookup ends
   * in a server error, the author's included; the update step raises on its
   * own as well, so fixing the ownership check alone does not help.
   */
  lemma UpdateFailsAsWritten(users: map<int, User>, notes: map<int, ClinicalNote>, token: Decoded, noteId: int, update: NoteUpdate, now: int)
    ensures CurrentPsychologist(token, users).Ok? && noteId in notes ==>
      UpdateNoteAsWritten(users, notes, token, noteId, update, now) == Err(InternalServerError)
    ensures noteId in notes ==> ApplyNoteUpdateAsWritten(notes[noteId], update, now) == Err(InternalServerError)
  {
  }

  /**
   * `delete_note` as written: the ownership check reads `author_id` and
   * raises, so the note is never removed; the store is therefore only read.
   */
  function DeleteNoteAsWritten(users: map<int, User>, notes: map<int, ClinicalNote>, token: Decoded, noteId: int): (r: Result<string>)
    ensures r.Err?
  {
    match CurrentPsychologist(token, users)
    case Err(e) => Err(e)
    case Ok(caller) =>
      match GetNoteOr404(notes, noteId)
      case Err(e) => Err(e)
      case Ok(note) => Err(ValidateAuthorOwnershipAsWritten(note, caller).error)
  }

  /**
   * As written, every DELETE that passes the role gate and finds the note is
   * a server error, the author's included; the earlier errors are those of
   * the intended handler.
   */
  lemma DeleteFailsAsWritten(users: map<int, User>, notes: map<int, ClinicalNote>, token: Decoded, noteId: int)
    ensures CurrentPsychologist(token, users).Err? ==>
      DeleteNoteAsWritten(users, notes, token, noteId) == Err(CurrentPsychologist(token, users).error)
    ensures CurrentPsychologist(token, users).Ok? && noteId !in notes ==>
      DeleteNoteAsWritten(users, notes, token, noteId) == Err(NoteNotFound)
    ensures CurrentPsychologist(token, users).Ok? && noteId in notes ==>
      DeleteNoteAsWritten(users, notes, token, noteId) == Err(InternalServerError)
  {
  }

  /** POST /notes/: adds one note for a patient, authored by the caller. */
  method CreateClinicalNote(db: Database, token: Decoded, noteData: NoteCreate, now: int) returns (r: Result<NoteRead>)
    requires db.Valid()
    modifies db
    ensures db.Valid()
    ensures db.users == old(db.users) && db.nextUserId == old(db.nextUserId)
    ensures CurrentPsychologist(token, old(db.users)).Err? ==>
      && r == Err(CurrentPsychologist(token, old(db.users)).error)
      && db.notes == old(db.notes) && db.nextNoteId == old(db.nextNoteId)
    ensures CurrentPsychologist(token, old(db.users)).Ok? && noteData.patientId !in old(db.users) ==>
      && r == Err(PatientNotFound)
      && db.notes == old(db.notes) && db.nextNoteId == old(db.nextNoteId)
    ensures (CurrentPsychologist(token, old(db.users)).Ok? && noteData.patientId in old(db.users)
        && old(db.users)[noteData.patientId].role != PatientRole) ==>
      && r == Err(NotAPatient)
      && db.notes == old(db.notes) && db.nextNoteId == old(db.nextNoteId)
    ensures (CurrentPsychologist(token, old(db.users)).Ok? && noteData.patientId in old(db.users)
        && old(db.users)[noteData.patientId].role == PatientRole) ==>
      var caller := CurrentPsychologist(token, old(db.users)).value;
      var id := old(db.nextNoteId);
      && id !in old(db.notes) && id in db.notes
      && db.notes == old(db.notes)[id := db.notes[id]]
      && db.nextNoteId == id + 1
      && db.notes[id].id == Some(id)
      && db.notes[id].content == noteData.content
      && db.notes[id].patientId == noteData.patientId
      && caller.id == Some(db.notes[id].psychologistId)
      && db.notes[id].createdAt == now && db.notes[id].updatedAt == None
      && r == Ok(ToNoteRead(db.notes[id], caller.fullName))
  {
    var auth := CurrentPsychologist(token, db.users);
    if auth.Err? {
      return Err(auth.error);
    }
    var caller := auth.value;
    if noteData.patientId !in db.users {
      return Err(PatientNotFound);
    }
    var patient := db.users[noteData.patientId];
    if patient.role != PatientRole {
      return Err(NotAPatient);
    }
    StoredUserHasKey(db.users, db.nextUserId, caller);
    var id := db.nextNoteId;
    var stored := NewClinicalNote(noteData.content, noteData.patientId, caller.id.value, now).(id := Some(id));
    db.notes := db.notes[id := stored];
    db.nextNoteId := id + 1;
    r := Ok(ToNoteRead(stored, caller.fullName));
  }

  /**
   * The loop of GET /notes/ that turns each returned row into its view,
   * looking the author up row by row and falling back to "Unknown".
   */
  method ViewRows(users: map<int, User>, notes: map<int, ClinicalNote>, rows: seq<int>) returns (results: seq<NoteRead>)
    requires forall i :: 0 <= i < |rows| ==> rows[i] in notes && notes[rows[i]].id == Some(rows[i])
    ensures results == NoteViews(users, notes, rows)
  {
    results := [];
    var i := 0;
    while i < |rows|
      invariant 0 <= i <= |rows|
      invariant |results| == i
      invariant forall j :: 0 <= j < i ==> results[j] == NoteView(users, notes[rows[j]])
    {
      var note := notes[rows[i]];
      var author := if note.psychologistId in users then Some(users[note.psychologistId]) else None;
      var authorName := if author.Some? then author.value.fullName else UnknownAuthor;
      results := results + [ToNoteRead(note, authorName)];
      i := i + 1;
    }
  }

  /**
   * GET /notes/: the views of the notes the listing query returns, each with
   * its author's name, in the query's order. Negative offsets and limits are
   * refused by the database. Nothing is changed.
   */
  method GetNotes(db: Database, token: Decoded, patientId: Option<int> := None, search: Option<string> := None, limit: int := 20, offset: int := 0)
    returns (r: Result<seq<NoteRead>>)
    requires db.Valid()
    ensures CurrentPsychologist(token, db.users).Err? ==> r == Err(CurrentPsychologist(token, db.users).error)
    ensures CurrentPsychologist(token, db.users).Ok? && (limit < 0 || offset < 0) ==> r == Err(InternalServerError)
    ensures r.Ok? <==> CurrentPsychologist(token, db.users).Ok? && limit >= 0 && offset >= 0
    ensures r.Ok? ==> r.value == NoteViews(db.users, db.notes, Query(db.notes, patientId, search, offset, limit))
    ensures r.Ok? ==> ViewsOfSomeListing(r.value, db.users, db.notes, patientId, search, offset, limit)
    ensures r.Ok? ==> |r.value| <= limit
    ensures r.Ok? ==> forall i, j :: 0 <= i < j < |r.value| ==> r.value[i].createdAt >= r.value[j].createdAt
    ensures r.Ok? ==> forall v :: v in r.value ==> v.id in MatchingIds(db.notes, patientId, search)
  {
    var auth := CurrentPsychologist(token, db.users);
    if auth.Err? {
      return Err(auth.error);
    }
    if limit < 0 || offset < 0 {
      return Err(InternalServerError);
    }
    var notes := db.notes;
    var users := db.users;
    var rows := Query(notes, patientId, search, offset, limit);
    assert NotesCarryIds(notes);
    RowsCarryKeys(notes, rows);
    var results := ViewRows(users, notes, rows);
    QueryViewsNewestFirst(users, notes, patientId, search, offset, limit);
    QueryViewsOfSomeListing(users, notes, patientId, search, offset, limit);
    r := Ok(results);
  }

  /** GET /notes/{id}: the view of one note; any psychologist may read any note. */
  function GetSingleNote(users: map<int, User>, notes: map<int, ClinicalNote>, token: Decoded, noteId: int): (r: Result<NoteRead>)
    requires NotesCarryIds(notes)
    ensures CurrentPsychologist(token, users).Err? ==> r == Err(CurrentPsychologist(token, users).error)
    ensures CurrentPsychologist(token, users).Ok? && noteId !in notes ==> r == Err(NoteNotFound)
    ensures r.Ok? <==> CurrentPsychologist(token, users).Ok? && noteId in notes
    ensures r.Ok? ==> r.value.id == noteId && r.value.content == notes[noteId].content
    ensures r.Ok? ==> r.value.authorName == AuthorName(users, notes[noteId].psychologistId)
    ensures r.Ok? ==> r.value == NoteView(users, notes[noteId])
  {
    match CurrentPsychologist(token, users)
    case Err(e) => Err(e)
    case Ok(_) =>
      match GetNoteOr404(notes, noteId)
      case Err(e) => Err(e)
      case Ok(note) => Ok(NoteView(users, note))
  }

  /** Reading involves no ownership check: every authorised caller sees the same answer. */
  lemma AnyPsychologistMayRead(users: map<int, User>, notes: map<int, ClinicalNote>, t1: Decoded, t2: Decoded, noteId: int)
    requires NotesCarryIds(notes)
    requires CurrentPsychologist(t1, users).Ok? && CurrentPsychologist(t2, users).Ok?
    ensures GetSingleNote(users, notes, t1, noteId) == GetSingleNote(users, notes, t2, noteId)
  {
  }

  /**
   * `get_single_note` as written: it looks the author up by the undeclared
   * `note.author_id`, which raises once the note has been found.
   */
  function GetSingleNoteAsWritten(users: map<int, User>, notes: map<int, ClinicalNote>, token: Decoded, noteId: int): (r: Result<NoteRead>)
    ensures r.Err?
  {
    match CurrentPsychologist(token, users)
    case Err(e) => Err(e)
    case Ok(_) =>
      match GetNoteOr404(notes, noteId)
      case Err(e) => Err(e)
      case Ok(note) => Err(InternalServerError)
  }

  /** Every read the intended code answers fails with a server error as written; the errors agree. */
  lemma SingleNoteUnreadableAsWritten(users: map<int, User>, notes: map<int, ClinicalNote>, token: Decoded, noteId: int)
    requires NotesCarryIds(notes)
    ensures GetSingleNote(users, notes, token, noteId).Ok? ==>
      GetSingleNoteAsWritten(users, notes, token, noteId) == Err(InternalServerError)
    ensures GetSingleNote(users, notes, token, noteId).Err? ==>
      GetSingleNoteAsWritten(users, notes, token, noteId) == GetSingleNote(users, notes, token, noteId)
  {
  }

  /** PUT /notes/{id}: the author changes the content and the update time of one note. */
  method UpdateNote(db: Database, token: Decoded, noteId: int, update: NoteUpdate, now: int) returns (r: Result<NoteRead>)
    requires db.Valid()
    modifies db
    ensures db.Valid()
    ensures db.users == old(db.users) && db.nextUserId == old(db.nextUserId) && db.nextNoteId == old(db.nextNoteId)
    ensures CurrentPsychologist(token, old(db.users)).Err? ==>
      r == Err(CurrentPsychologist(token, old(db.users)).error) && db.notes == old(db.notes)
    ensures CurrentPsychologist(token, old(db.users)).Ok? && noteId !in old(db.notes) ==>
      r == Err(NoteNotFound) && db.notes == old(db.notes)
    ensures (CurrentPsychologist(token, old(db.users)).Ok? && noteId in old(db.notes)
        && CurrentPsychologist(token, old(db.users)).value.id != Some(old(db.notes)[noteId].psychologistId)) ==>
      r == Err(NotAuthor) && db.notes == old(db.notes)
    ensures (CurrentPsychologist(token, old(db.users)).Ok? && noteId in old(db.notes)
        && CurrentPsychologist(token, old(db.users)).value.id == Some(old(db.notes)[noteId].psychologistId)) ==>
      var updated := ApplyNoteUpdate(old(db.notes)[noteId], update, now);
      && updated.id.Some?
      && db.notes == old(db.notes)[noteId := updated]
      && r == Ok(ToNoteRead(updated, CurrentPsychologist(token, old(db.users)).value.fullName))
  {
    var auth := CurrentPsychologist(token, db.users);
    if auth.Err? {
      return Err(auth.error);
    }
    var caller := auth.value;
    var found := GetNoteOr404(db.notes, noteId);
    if found.Err? {
      return Err(found.error);
    }
    var owned := ValidateAuthorOwnership(found.value, caller);
    if owned.Fail? {
      return Err(owned.error);
    }
    var updated := ApplyNoteUpdate(found.value, update, now);
    db.notes := db.notes[noteId := updated];
    r := Ok(ToNoteRead(updated, caller.fullName));
  }

  /** DELETE /notes/{id}: the author removes exactly that note. */
  method DeleteNote(db: Database, token: Decoded, noteId: int) returns (r: Result<string>)
    requires db.Valid()
    modifies db
    ensures db.Valid()
    ensures db.users == old(db.users) && db.nextUserId == old(db.nextUserId) && db.nextNoteId == old(db.nextNoteId)
    ensures CurrentPsychologist(token, old(db.users)).Err? ==>
      r == Err(CurrentPsychologist(token, old(db.users)).error) && db.notes == old(db.notes)
    ensures CurrentPsychologist(token, old(db.users)).Ok? && noteId !in old(db.notes) ==>
      r == Err(NoteNotFound) && db.notes == old(db.notes)
    ensures (CurrentPsychologist(token, old(db.users)).Ok? && noteId in old(db.notes)
        && CurrentPsychologist(token, old(db.users)).value.id != Some(old(db.notes)[noteId].psychologistId)) ==>
      r == Err(NotAuthor) && db.notes == old(db.notes)
    ensures (CurrentPsychologist(token, old(db.users)).Ok? && noteId in old(db.notes)
        && CurrentPsychologist(token, old(db.users)).value.id == Some(old(db.notes)[noteId].psychologistId)) ==>
      db.notes == old(db.notes) - {noteId} && r == Ok(NoteDeleted)
  {
    var auth := CurrentPsychologist(token, db.users);
    if auth.Err? {
      return Err(auth.error);
    }
    var caller := auth.value;
    var found := GetNoteOr404(db.notes, noteId);
    if found.Err? {
      return Err(found.error);
    }
    var owned := ValidateAuthorOwnership(found.value, caller);
    if owned.Fail? {
      return Err(owned.error);
    }
    db.notes := db.notes - {noteId};
    r := Ok(NoteDeleted);
  }
}
