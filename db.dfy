/**
 * The database the handlers share: the user table and the clinical-note
 * table, each a map from primary key to row, and the two id sequences that
 * hand out fresh primary keys. Rows are only reached through the methods and
 * functions of the other modules; this one holds the state, its invariant,
 * the user-by-email query of registration, login and authentication, and the
 * ascending id order the model uses to break creation-time ties in the
 * note listing.
 */
module Db {
  import opened Http
  import opened Models

  /** Every non-empty finite set of ids has a least element. */
  lemma {:induction false} LeastElement(s: set<int>) returns (m: int)
    requires s != {}
    ensures m in s && forall x :: x in s ==> m <= x
    decreases |s|
  {
    if forall e :: e !in s { assert false; }
    var y :| y in s;
    var rest := s - {y};
    if rest == {} {
      m := y;
      forall x | x in s ensures m <= x {
        assert x !in rest;
      }
    } else {
      var least := LeastElement(rest);
      m := if y < least then y else least;
      forall x | x in s ensures m <= x {
        if x != y { assert x in rest; }
      }
    }
  }

  lemma MinExists(s: set<int>)
    requires s != {}
    ensures exists m :: m in s && forall x :: x in s ==> m <= x
  {
    var m := LeastElement(s);
  }

  /** The least id of a non-empty set. */
  function Min(s: set<int>): (m: int)
    requires s != {}
    ensures m in s && forall x :: x in s ==> m <= x
  {
    MinExists(s);
    var m :| m in s && forall x :: x in s ==> m <= x;
    m
  }

  /** The ids of a set in ascending order: each id exactly once. */
  function SortedKeys(s: set<int>): (r: seq<int>)
    ensures forall i, j :: 0 <= i < j < |r| ==> r[i] < r[j]
    ensures forall k :: k in r <==> k in s
    ensures multiset(r) == multiset(s)
    decreases |s|
  {
    if s == {} then []
    else
      var m := Min(s);
      assert multiset(s) == multiset{m} + multiset(s - {m});
      [m] + SortedKeys(s - {m})
  }

  /**
   * The user row a `WHERE email = ...` query finds, by primary key: none
   * exactly when no stored user has that email.
   */
  function FindUserByEmail(users: map<int, User>, email: string): (r: Option<int>)
    ensures r.Some? ==> r.value in users && users[r.value].email == email
    ensures r.None? <==> forall k :: k in users ==> users[k].email != email
    ensures r.Some? && EmailsUnique(users) ==>
      forall k :: k in users && users[k].email == email ==> k == r.value
  {
    var matches := set k | k in users && users[k].email == email;
    if matches == {} then
      assert forall k :: k in users && users[k].email == email ==> k in matches;
      None
    else
      Some(Min(matches))
  }

  /** Each stored row carries its own primary key as id, and that key is below the sequence. */
  ghost predicate UserIdsConsistent(users: map<int, User>, next: int) {
    forall k :: k in users ==> 1 <= k < next && users[k].id == Some(k)
  }

  /** Every stored note carries its primary key as id. */
  ghost predicate NotesCarryIds(notes: map<int, ClinicalNote>) {
    forall k :: k in notes ==> notes[k].id == Some(k)
  }

  ghost predicate NoteIdsConsistent(notes: map<int, ClinicalNote>, next: int) {
    NotesCarryIds(notes) && forall k :: k in notes ==> 1 <= k < next
  }

  /** A user found in the table carries the key it is stored under. */
  lemma StoredUserHasKey(users: map<int, User>, next: int, u: User)
    requires UserIdsConsistent(users, next)
    requires u in users.Values
    ensures u.id.Some? && u.id.value in users && users[u.id.value] == u
  {
    if forall j :: j in users ==> users[j] != u { assert false; }
    var k :| k in users && users[k] == u;
  }

  /** The two foreign keys of every note refer to stored users. */
  ghost predicate ReferencesResolve(users: map<int, User>, notes: map<int, ClinicalNote>) {
    forall k :: k in notes ==> notes[k].patientId in users && notes[k].psychologistId in users
  }

  class Database {
    var users: map<int, User>
    var notes: map<int, ClinicalNote>
    var nextUserId: int
    var nextNoteId: int

    /** The table constraints: primary keys, the unique email, the foreign keys. */
    ghost predicate Valid()
      reads this
    {
      && 1 <= nextUserId && 1 <= nextNoteId
      && UserIdsConsistent(users, nextUserId)
      && NoteIdsConsistent(notes, nextNoteId)
      && EmailsUnique(users)
      && ReferencesResolve(users, notes)
    }

    /** An empty database whose sequences both start at 1. */
    constructor ()
      ensures Valid()
      ensures users == map[] && notes == map[]
      ensures nextUserId == 1 && nextNoteId == 1
    {
      users := map[];
      notes := map[];
      nextUserId := 1;
      nextNoteId := 1;
    }
  }
}
