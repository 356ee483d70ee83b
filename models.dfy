/**
 * The records of the service: the two stored tables (users and clinical
 * notes) and the request and response shapes of the notes endpoints.
 * Timestamps are abstract integers (seconds); ids are `None` until the
 * record has been stored, as with an auto-incremented primary key.
 */
module Models {
  import opened Http

  const PatientRole := "patient"
  const PsychologistRole := "psychologist"

  /** A row of the user table. `role` is free text: any string may be stored. */
  datatype User = User(
    id: Option<int>,
    email: string,
    fullName: string,
    role: string,
    hashedPassword: string)

  /** A row of the clinical-note table; `patientId` and `psychologistId` refer to user ids. */
  datatype ClinicalNote = ClinicalNote(
    id: Option<int>,
    content: string,
    createdAt: int,
    updatedAt: Option<int>,
    patientId: int,
    psychologistId: int)

  /** Body of a create request. */
  datatype NoteCreate = NoteCreate(patientId: int, content: string)

  /** Body of an update request: an absent content means "leave the content as it is". */
  datatype NoteUpdate = NoteUpdate(content: Option<string> := None)

  /** The view of a note sent to clients: neither the patient nor the author id is part of it. */
  datatype NoteRead = NoteRead(
    id: int,
    content: string,
    createdAt: int,
    updatedAt: Option<int>,
    authorName: string)

  /** A user record before it is stored: no id yet, and role "patient" unless one is given. */
  function NewUser(email: string, fullName: string, hashedPassword: string, role: string := PatientRole): (u: User)
    ensures u.id == None
    ensures u.email == email && u.fullName == fullName && u.role == role
    ensures u.hashedPassword == hashedPassword
  {
    User(None, email, fullName, role, hashedPassword)
  }

  /** A note record before it is stored: no id yet, created at `now`, never updated. */
  function NewClinicalNote(content: string, patientId: int, psychologistId: int, now: int): (n: ClinicalNote)
    ensures n.id == None && n.updatedAt == None && n.createdAt == now
    ensures n.content == content && n.patientId == patientId && n.psychologistId == psychologistId
  {
    ClinicalNote(None, content, now, None, patientId, psychologistId)
  }

  /** The client view of a stored note, with the author's display name added. */
  function ToNoteRead(note: ClinicalNote, authorName: string): (v: NoteRead)
    requires note.id.Some?
    ensures Some(v.id) == note.id && v.content == note.content
    ensures v.createdAt == note.createdAt && v.updatedAt == note.updatedAt
    ensures v.authorName == authorName
  {
    NoteRead(note.id.value, note.content, note.createdAt, note.updatedAt, authorName)
  }

  /** The unique constraint on `user.email`: no two stored users share an email. */
  ghost predicate EmailsUnique(users: map<int, User>) {
    forall a, b :: a in users && b in users && a != b ==> users[a].email != users[b].email
  }
}
