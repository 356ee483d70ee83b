/**
 * The query behind the note listing: which notes match the optional patient
 * and search filters, their newest-first order, the offset/limit window, and
 * the views built from the result. The database answers this query in the
 * source; here it is a pipeline of functions over the note table.
 *
 * The order by creation time has no tie-breaker, so several newest-first
 * orders of the matching notes are correct answers. `IsListing` says what
 * every one of them is; `Ordered` is the one the model picks (ties by
 * ascending id).
 */
module NoteQuery {
  import opened Http
  import opened Models
  import opened Db

  /** Display name of a note's author, or "Unknown" when no user has that id. */
  const UnknownAuthor := "Unknown"

  /** ASCII lower-casing, standing for the database's `lower()` on note text. */
  function LowerChar(c: char): char {
    if 'A' <= c <= 'Z' then (c as int + 32) as char else c
  }

  function Lower(s: string): (r: string)
    ensures |r| == |s|
    ensures forall i :: 0 <= i < |s| ==> r[i] == LowerChar(s[i])
  {
    seq(|s|, i requires 0 <= i < |s| => LowerChar(s[i]))
  }

  /** `needle` occurs in `haystack` starting at position `i`. */
  predicate OccursAt(haystack: string, needle: string, i: int) {
    0 <= i && i + |needle| <= |haystack| && haystack[i..i + |needle|] == needle
  }

  /** `needle` occurs in `haystack` as a contiguous substring. */
  predicate Contains(haystack: string, needle: string) {
    exists i :: 0 <= i <= |haystack| && OccursAt(haystack, needle, i)
  }

  /**
   * The patient filter: an absent id and the id 0 are both falsy in the
   * source, so neither restricts the listing.
   */
  predicate MatchesPatient(note: ClinicalNote, patientId: Option<int>) {
    patientId.None? || patientId.value == 0 || note.patientId == patientId.value
  }

  /**
   * The search filter: an absent and an empty search text do not restrict the
   * listing; otherwise the content must contain it, ignoring case.
   */
  predicate MatchesSearch(note: ClinicalNote, search: Option<string>) {
    search.None? || search.value == "" || Contains(Lower(note.content), Lower(search.value))
  }

  /** The ids of the notes both filters let through. */
  function MatchingIds(notes: map<int, ClinicalNote>, patientId: Option<int>, search: Option<string>): (ids: set<int>)
    ensures forall k :: k in ids <==> k in notes && MatchesPatient(notes[k], patientId) && MatchesSearch(notes[k], search)
  {
    set k | k in notes && MatchesPatient(notes[k], patientId) && MatchesSearch(notes[k], search)
  }

  /** Creation times never increase along `ks`. */
  ghost predicate NewestFirst(ks: seq<int>, notes: map<int, ClinicalNote>) {
    forall i, j :: 0 <= i < j < |ks| && ks[i] in notes && ks[j] in notes ==>
      notes[ks[i]].createdAt >= notes[ks[j]].createdAt
  }

  /**
   * A correct answer to the ordered query before the window: every matching
   * id exactly once, newest first.
   */
  ghost predicate IsListing(ord: seq<int>, notes: map<int, ClinicalNote>, patientId: Option<int>, search: Option<string>) {
    multiset(ord) == multiset(MatchingIds(notes, patientId, search)) && NewestFirst(ord, notes)
  }

  /** Puts `k` into a newest-first sequence, in front of the notes no newer than it. */
  function InsertNewestFirst(k: int, sorted: seq<int>, notes: map<int, ClinicalNote>): (r: seq<int>)
    requires k in notes && forall i :: 0 <= i < |sorted| ==> sorted[i] in notes
    requires NewestFirst(sorted, notes)
    ensures multiset(r) == multiset(sorted) + multiset{k}
    ensures forall x :: x in r <==> x == k || x in sorted
    ensures forall i :: 0 <= i < |r| ==> r[i] in notes
    ensures NewestFirst(r, notes)
  {
    if sorted == [] then [k]
    else if notes[k].createdAt >= notes[sorted[0]].createdAt then
      PrependNewestFirst(k, sorted, notes);
      [k] + sorted
    else
      var rest := InsertNewestFirst(k, sorted[1..], notes);
      assert sorted == [sorted[0]] + sorted[1..];
      HeadIsNewest(sorted, notes);
      PrependNewestFirst(sorted[0], rest, notes);
      [sorted[0]] + rest
  }

  /** The first id of a newest-first sequence is no older than any other in it. */
  lemma HeadIsNewest(sorted: seq<int>, notes: map<int, ClinicalNote>)
    requires |sorted| > 0 && forall i :: 0 <= i < |sorted| ==> sorted[i] in notes
    requires NewestFirst(sorted, notes)
    ensures forall x :: x in sorted ==> notes[sorted[0]].createdAt >= notes[x].createdAt
  {
    forall x | x in sorted ensures notes[sorted[0]].createdAt >= notes[x].createdAt {
      var i :| 0 <= i < |sorted| && sorted[i] == x;
      if i > 0 {
        assert notes[sorted[0]].createdAt >= notes[sorted[i]].createdAt;
      }
    }
  }

  /** An id no older than every id of a newest-first sequence may go in front of it. */
  lemma PrependNewestFirst(x: int, s: seq<int>, notes: map<int, ClinicalNote>)
    requires x in notes && forall i :: 0 <= i < |s| ==> s[i] in notes
    requires NewestFirst(s, notes)
    requires forall y :: y in s ==> notes[x].createdAt >= notes[y].createdAt
    ensures NewestFirst([x] + s, notes)
  {
    var r := [x] + s;
    forall i, j | 0 <= i < j < |r| && r[i] in notes && r[j] in notes
      ensures notes[r[i]].createdAt >= notes[r[j]].createdAt
    {
      if i == 0 {
        assert r[j] == s[j - 1];
      } else {
        assert r[i] == s[i - 1] && r[j] == s[j - 1];
      }
    }
  }

  /** A newest-first permutation of `ks`. */
  function SortNewestFirst(ks: seq<int>, notes: map<int, ClinicalNote>): (r: seq<int>)
    requires forall i :: 0 <= i < |ks| ==> ks[i] in notes
    ensures multiset(r) == multiset(ks)
    ensures forall i :: 0 <= i < |r| ==> r[i] in notes
    ensures NewestFirst(r, notes)
  {
    if ks == [] then []
    else
      assert ks == [ks[0]] + ks[1..];
      InsertNewestFirst(ks[0], SortNewestFirst(ks[1..], notes), notes)
  }

  /** The matching ids in the order the model answers with. */
  function Ordered(notes: map<int, ClinicalNote>, patientId: Option<int>, search: Option<string>): (ord: seq<int>)
    ensures IsListing(ord, notes, patientId, search)
    ensures forall k :: k in ord ==> k in notes
  {
    SortNewestFirst(SortedKeys(MatchingIds(notes, patientId, search)), notes)
  }

  /** The `OFFSET offset LIMIT limit` window of a sequence. */
  function Window(ks: seq<int>, offset: nat, limit: nat): (r: seq<int>)
    ensures |r| == if offset >= |ks| then 0 else if limit <= |ks| - offset then limit else |ks| - offset
    ensures forall i :: 0 <= i < |r| ==> r[i] == ks[offset + i]
  {
    var start := if offset <= |ks| then offset else |ks|;
    var rest := ks[start..];
    if limit <= |rest| then rest[..limit] else rest
  }

  /** The ids the listing query returns: matching notes only. */
  function Query(notes: map<int, ClinicalNote>, patientId: Option<int>, search: Option<string>, offset: nat, limit: nat): (q: seq<int>)
    ensures forall i :: 0 <= i < |q| ==> q[i] in notes && q[i] in MatchingIds(notes, patientId, search)
  {
    var ord := Ordered(notes, patientId, search);
    var q := Window(ord, offset, limit);
    assert forall i :: 0 <= i < |q| ==> q[i] in multiset(ord);
    q
  }

  /**
   * The answer is the window of a newest-first listing of exactly the matching
   * notes, is itself newest first, and holds at most `limit` notes.
   */
  lemma QueryIsWindowOfListing(notes: map<int, ClinicalNote>, patientId: Option<int>, search: Option<string>, offset: nat, limit: nat)
    ensures exists ord :: IsListing(ord, notes, patientId, search) && Query(notes, patientId, search, offset, limit) == Window(ord, offset, limit)
    ensures NewestFirst(Query(notes, patientId, search, offset, limit), notes)
    ensures |Query(notes, patientId, search, offset, limit)| <= limit
  {
    WindowKeepsOrder(Ordered(notes, patientId, search), notes, offset, limit);
  }

  /** A window of a newest-first sequence is newest first. */
  lemma WindowKeepsOrder(ord: seq<int>, notes: map<int, ClinicalNote>, offset: nat, limit: nat)
    requires NewestFirst(ord, notes)
    ensures NewestFirst(Window(ord, offset, limit), notes)
  {
    var w := Window(ord, offset, limit);
    forall i, j | 0 <= i < j < |w| && w[i] in notes && w[j] in notes
      ensures notes[w[i]].createdAt >= notes[w[j]].createdAt
    {
      assert w[i] == ord[offset + i] && w[j] == ord[offset + j];
    }
  }

  /**
   * Two listings of the same query hold the same notes, so every window of
   * either has the same length.
   */
  lemma ListingsHaveSameLength(o1: seq<int>, o2: seq<int>, notes: map<int, ClinicalNote>, patientId: Option<int>, search: Option<string>, offset: nat, limit: nat)
    requires IsListing(o1, notes, patientId, search) && IsListing(o2, notes, patientId, search)
    ensures |o1| == |o2|
    ensures |Window(o1, offset, limit)| == |Window(o2, offset, limit)|
  {
    assert |multiset(o1)| == |o1| && |multiset(o2)| == |o2|;
  }

  /**
   * When the window reaches past the end of the listing, it is the listing's
   * tail: the oldest matching notes, e.g. the last 5 of 25 for offset 20 and
   * limit 20.
   */
  lemma LastPageHoldsOldest(ord: seq<int>, offset: nat, limit: nat)
    requires offset <= |ord| <= offset + limit
    ensures Window(ord, offset, limit) == ord[offset..]
  {
  }

  /** The author's display name, looked up by the note's author id. */
  function AuthorName(users: map<int, User>, authorId: int): (name: string)
    ensures authorId in users ==> name == users[authorId].fullName
    ensures authorId !in users ==> name == UnknownAuthor
  {
    if authorId in users then users[authorId].fullName else UnknownAuthor
  }

  /** The view of a stored note, with its author's name resolved at read time. */
  function NoteView(users: map<int, User>, note: ClinicalNote): (v: NoteRead)
    requires note.id.Some?
    ensures Some(v.id) == note.id && v.content == note.content
    ensures v.createdAt == note.createdAt && v.updatedAt == note.updatedAt
    ensures v.authorName == AuthorName(users, note.psychologistId)
  {
    ToNoteRead(note, AuthorName(users, note.psychologistId))
  }

  /** Keys drawn from a table whose rows carry their keys lead to rows carrying those keys. */
  lemma RowsCarryKeys(notes: map<int, ClinicalNote>, ks: seq<int>)
    requires NotesCarryIds(notes)
    requires forall i :: 0 <= i < |ks| ==> ks[i] in notes
    ensures forall i :: 0 <= i < |ks| ==> ks[i] in notes && notes[ks[i]].id == Some(ks[i])
  {
    forall i | 0 <= i < |ks| ensures notes[ks[i]].id == Some(ks[i]) {
      var k := ks[i];
      assert k in notes;
      assert notes[k].id == Some(k);
    }
  }

  /** The views of the notes `ks`, in the same order. */
  function NoteViews(users: map<int, User>, notes: map<int, ClinicalNote>, ks: seq<int>): (vs: seq<NoteRead>)
    requires forall i :: 0 <= i < |ks| ==> ks[i] in notes && notes[ks[i]].id == Some(ks[i])
    ensures |vs| == |ks|
    ensures forall i :: 0 <= i < |ks| ==> vs[i] == NoteView(users, notes[ks[i]])
  {
    seq(|ks|, i requires 0 <= i < |ks| => NoteView(users, notes[ks[i]]))
  }

  /** The views of a newest-first sequence of notes are newest first. */
  lemma ViewsKeepOrder(users: map<int, User>, notes: map<int, ClinicalNote>, ks: seq<int>)
    requires forall i :: 0 <= i < |ks| ==> ks[i] in notes && notes[ks[i]].id == Some(ks[i])
    requires NewestFirst(ks, notes)
    ensures var vs := NoteViews(users, notes, ks);
      forall i, j :: 0 <= i < j < |vs| ==> vs[i].createdAt >= vs[j].createdAt
  {
    var vs := NoteViews(users, notes, ks);
    forall i, j | 0 <= i < j < |vs| ensures vs[i].createdAt >= vs[j].createdAt {
      assert vs[i].createdAt == notes[ks[i]].createdAt;
      assert vs[j].createdAt == notes[ks[j]].createdAt;
    }
  }

  /** The view of a stored note shows the key it is stored under. */
  lemma ViewsShowKeys(users: map<int, User>, notes: map<int, ClinicalNote>, ks: seq<int>)
    requires forall i :: 0 <= i < |ks| ==> ks[i] in notes && notes[ks[i]].id == Some(ks[i])
    ensures var vs := NoteViews(users, notes, ks);
      forall i :: 0 <= i < |vs| ==> vs[i].id == ks[i]
  {
  }

  /**
   * The views of the query's answer are newest first, at most `limit` many,
   * and each shows a note both filters let through.
   */
  lemma QueryViewsNewestFirst(users: map<int, User>, notes: map<int, ClinicalNote>, patientId: Option<int>, search: Option<string>, offset: nat, limit: nat)
    requires NotesCarryIds(notes)
    ensures var vs := NoteViews(users, notes, Query(notes, patientId, search, offset, limit));
      && |vs| <= limit
      && (forall i, j :: 0 <= i < j < |vs| ==> vs[i].createdAt >= vs[j].createdAt)
      && (forall v :: v in vs ==> v.id in MatchingIds(notes, patientId, search))
  {
    var q := Query(notes, patientId, search, offset, limit);
    QueryIsWindowOfListing(notes, patientId, search, offset, limit);
    RowsCarryKeys(notes, q);
    ViewsKeepOrder(users, notes, q);
    ViewsShowKeys(users, notes, q);
    var vs := NoteViews(users, notes, q);
    forall v | v in vs ensures v.id in MatchingIds(notes, patientId, search) {
      var i :| 0 <= i < |vs| && vs[i] == v;
      assert v.id == q[i];
    }
  }

  /**
   * `vs` are the views, in order, of the offset/limit window of some
   * newest-first listing of exactly the matching notes, whatever order that
   * listing gives notes created at the same time.
   */
  ghost predicate ViewsOfSomeListing(vs: seq<NoteRead>, users: map<int, User>, notes: map<int, ClinicalNote>, patientId: Option<int>, search: Option<string>, offset: nat, limit: nat)
    requires NotesCarryIds(notes)
  {
    exists ord :: && IsListing(ord, notes, patientId, search)
                  && Window(ord, offset, limit) == Query(notes, patientId, search, offset, limit)
                  && vs == NoteViews(users, notes, Window(ord, offset, limit))
  }

  /** The views of the query's answer are those of a window of some correct listing. */
  lemma QueryViewsOfSomeListing(users: map<int, User>, notes: map<int, ClinicalNote>, patientId: Option<int>, search: Option<string>, offset: nat, limit: nat)
    requires NotesCarryIds(notes)
    ensures ViewsOfSomeListing(NoteViews(users, notes, Query(notes, patientId, search, offset, limit)), users, notes, patientId, search, offset, limit)
  {
    QueryIsWindowOfListing(notes, patientId, search, offset, limit);
  }

  /** Searching ignores case: a search text and its lower-case form select the same notes. */
  lemma SearchIgnoresCase(note: ClinicalNote, search: string)
    ensures MatchesSearch(note, Some(search)) == MatchesSearch(note, Some(Lower(search)))
  {
    assert Lower(Lower(search)) == Lower(search);
  }
}
