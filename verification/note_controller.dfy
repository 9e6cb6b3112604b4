/**
 * `NoteController`: the notes of the signed-in user. Every read and write is scoped to
 * the requester's id, so another user's note answers exactly like a missing one.
 */
module NoteController {
  import opened Base
  import opened Database

  /** The note view the API returns. */
  datatype NoteView = NoteView(id: nat, title: string, content: Option<string>, completed: bool,
                               userId: nat, createdAt: int, updatedAt: int)

  /** The reply of the list route. */
  datatype NotesReply = NotesReply(status: int, success: bool, message: string, notes: seq<NoteView>)

  /** The reply of the single-note routes. */
  datatype NoteReply = NoteReply(status: int, success: bool, message: string, note: Option<NoteView>)

  /** The response formatting: empty content is dropped, a missing `completed` reads false. */
  function FormatNote(n: Note): (v: NoteView)
    ensures v.id == n.id && v.title == n.title && v.userId == n.userId
    ensures v.createdAt == n.createdAt && v.updatedAt == n.updatedAt
    ensures v.content.Some? <==> Truthy(n.content)
    ensures v.content.Some? ==> v.content == n.content
    ensures v.completed <==> n.completed == Some(true)
  {
    NoteView(n.id, n.title, OrUndefined(n.content), n.completed == Some(true), n.userId, n.createdAt, n.updatedAt)
  }

  /** `orderBy: { updatedAt: 'desc' }`. */
  ghost predicate NewestFirst(s: seq<Note>) {
    forall i, j :: 0 <= i < j < |s| ==> s[i].updatedAt >= s[j].updatedAt
  }

  /** Insert a note into a newest-first list, before the first older note. */
  function InsertByRecency(n: Note, s: seq<Note>): (r: seq<Note>)
    requires NewestFirst(s)
    ensures NewestFirst(r)
    ensures multiset(r) == multiset(s) + multiset{n}
    ensures |r| == |s| + 1
    ensures r != [] && (r[0] == n || (s != [] && r[0] == s[0]))
  {
    if s == [] || n.updatedAt >= s[0].updatedAt then [n] + s
    else
      var rest := InsertByRecency(n, s[1..]);
      assert s == [s[0]] + s[1..];
      [s[0]] + rest
  }

  /** Order notes newest first. */
  function SortByRecency(s: seq<Note>): (r: seq<Note>)
    ensures NewestFirst(r)
    ensures multiset(r) == multiset(s)
    ensures |r| == |s|
  {
    if s == [] then []
    else
      assert s == [s[0]] + s[1..];
      InsertByRecency(s[0], SortByRecency(s[1..]))
  }

  /** The formatted form of a list of notes, in order. */
  function FormatNotes(s: seq<Note>): (r: seq<NoteView>)
    ensures |r| == |s|
    ensures forall i :: 0 <= i < |s| ==> r[i] == FormatNote(s[i])
  {
    seq(|s|, i requires 0 <= i < |s| => FormatNote(s[i]))
  }

  /** A reordering has the same members. */
  lemma SameMembers(a: seq<Note>, b: seq<Note>)
    requires multiset(a) == multiset(b)
    ensures forall n :: n in a <==> n in b
  {
    forall n
      ensures n in a <==> n in b
    {
      assert n in a <==> n in multiset(a);
      assert n in b <==> n in multiset(b);
    }
  }

  /** The views of a list are exactly the formatted members of the list. */
  lemma FormattedMembers(s: seq<Note>)
    ensures forall n :: n in s ==> FormatNote(n) in FormatNotes(s)
    ensures forall v :: v in FormatNotes(s) ==> exists n :: n in s && v == FormatNote(n)
  {
    var r := FormatNotes(s);
    forall n | n in s
      ensures FormatNote(n) in r
    {
      var k :| 0 <= k < |s| && s[k] == n;
      assert r[k] == FormatNote(n);
    }
    forall v | v in r
      ensures exists n :: n in s && v == FormatNote(n)
    {
      var k :| 0 <= k < |r| && r[k] == v;
      assert s[k] in s;
    }
  }

  /** `getNotes`: the requester's notes, newest first, formatted. */
  function GetNotes(notes: seq<Note>, userId: nat): (r: NotesReply)
    ensures r.status == 200 && r.success && r.message == "Notes retrieved successfully"
    ensures |r.notes| == |OwnedNotes(notes, userId)|
    ensures forall i :: 0 <= i < |r.notes| ==> r.notes[i].userId == userId
    ensures forall i, j :: 0 <= i < j < |r.notes| ==> r.notes[i].updatedAt >= r.notes[j].updatedAt
    ensures forall n :: n in notes && n.userId == userId ==> FormatNote(n) in r.notes
    ensures forall v :: v in r.notes ==> exists n :: n in notes && n.userId == userId && v == FormatNote(n)
  {
    var owned := OwnedNotes(notes, userId);
    SortedViewsOrdered(owned, userId);
    SortedViewsMembers(owned);
    NotesReply(200, true, "Notes retrieved successfully", FormatNotes(SortByRecency(owned)))
  }

  /** The views of a user's notes sorted by recency: all the user's, newest first, one per note. */
  lemma SortedViewsOrdered(owned: seq<Note>, userId: nat)
    requires forall n :: n in owned ==> n.userId == userId
    ensures var r := FormatNotes(SortByRecency(owned));
      && |r| == |owned|
      && (forall i :: 0 <= i < |r| ==> r[i].userId == userId)
      && (forall i, j :: 0 <= i < j < |r| ==> r[i].updatedAt >= r[j].updatedAt)
  {
    var sorted := SortByRecency(owned);
    SameMembers(owned, sorted);
    assert forall k :: 0 <= k < |sorted| ==> sorted[k] in sorted;
  }

  /** The views of a list sorted by recency are exactly the formatted members of the list. */
  lemma SortedViewsMembers(owned: seq<Note>)
    ensures forall n :: n in owned ==> FormatNote(n) in FormatNotes(SortByRecency(owned))
    ensures forall v :: v in FormatNotes(SortByRecency(owned)) ==> exists n :: n in owned && v == FormatNote(n)
  {
    var sorted := SortByRecency(owned);
    SameMembers(owned, sorted);
    FormattedMembers(sorted);
  }

  /** `findFirst({ where: { id, userId } })`. */
  function FindOwned(notes: seq<Note>, id: nat, userId: nat): (r: Option<Note>)
    ensures r.Some? ==> r.value in notes && r.value.id == id && r.value.userId == userId
    ensures r.None? ==> forall n :: n in notes ==> n.id != id || n.userId != userId
  {
    if notes == [] then None
    else if notes[0].id == id && notes[0].userId == userId then Some(notes[0])
    else FindOwned(notes[1..], id, userId)
  }

  /** The reply for a note that is missing or not the requester's. */
  function NoteNotFound(): (r: NoteReply)
    ensures r.status == 404 && !r.success && r.note.None?
  {
    NoteReply(404, false, "Note not found", None)
  }

  /** `getNote`. */
  function GetNote(notes: seq<Note>, id: nat, userId: nat): (r: NoteReply)
    ensures FindOwned(notes, id, userId).None? ==> r == NoteNotFound()
    ensures r.success ==> r.status == 200 && r.note.Some? && r.note.value.id == id && r.note.value.userId == userId
    ensures FindOwned(notes, id, userId).Some? ==>
      r == NoteReply(200, true, "Note retrieved successfully", Some(FormatNote(FindOwned(notes, id, userId).value)))
  {
    var found := FindOwned(notes, id, userId);
    if found.None? then NoteNotFound()
    else NoteReply(200, true, "Note retrieved successfully", Some(FormatNote(found.value)))
  }

  /** The scoped lookup sees only the requester's notes. */
  lemma {:induction false} FindOwnedSeesOwnNotes(notes: seq<Note>, id: nat, userId: nat)
    ensures FindOwned(notes, id, userId) == FindOwned(OwnedNotes(notes, userId), id, userId)
  {
    if notes != [] {
      FindOwnedSeesOwnNotes(notes[1..], id, userId);
      if notes[0].userId == userId {
        assert OwnedNotes(notes, userId) == [notes[0]] + OwnedNotes(notes[1..], userId);
        assert ([notes[0]] + OwnedNotes(notes[1..], userId))[1..] == OwnedNotes(notes[1..], userId);
      } else {
        assert OwnedNotes(notes, userId) == OwnedNotes(notes[1..], userId);
      }
    }
  }

  /**
   * Non-interference: two tables that hold the same notes for a user give that user the
   * same replies, whatever other users' notes they hold.
   */
  lemma OtherUsersInvisible(t1: seq<Note>, t2: seq<Note>, userId: nat, id: nat)
    requires OwnedNotes(t1, userId) == OwnedNotes(t2, userId)
    ensures GetNote(t1, id, userId) == GetNote(t2, id, userId)
    ensures GetNotes(t1, userId) == GetNotes(t2, userId)
  {
    FindOwnedSeesOwnNotes(t1, id, userId);
    FindOwnedSeesOwnNotes(t2, id, userId);
  }

  /** A note of another user answers exactly as if it were absent: 404 either way. */
  lemma ForeignNoteLooksMissing(notes: seq<Note>, i: nat, userId: nat)
    requires UniqueNoteIds(notes) && i < |notes| && notes[i].userId != userId
    ensures GetNote(notes, notes[i].id, userId) == NoteNotFound()
    ensures GetNote(WithoutNote(notes, notes[i].id), notes[i].id, userId) == NoteNotFound()
  {
    var id := notes[i].id;
    forall n | n in notes
      ensures n.id != id || n.userId != userId
    {
      var k :| 0 <= k < |notes| && notes[k] == n;
      if k != i {
        assert notes[k].id != notes[i].id;
      }
    }
  }

  /** `createNote`'s record: content defaults to `''`; `completed` is not stored. */
  function NewNote(title: string, content: Option<string>, userId: nat, now: int): (n: Note)
    ensures n.title == title && n.userId == userId && n.completed == None
    ensures n.content == Some(if Truthy(content) then content.value else "")
    ensures n.createdAt == now && n.updatedAt == now
  {
    Note(0, title, Some(OrElse(content, Some("")).value), None, userId, now, now)
  }

  /** The fields an update sets: exactly those supplied, and the update time. */
  function ApplyNoteUpdate(n: Note, title: Option<string>, content: Option<string>, completed: Option<bool>,
                           now: int): (r: Note)
    ensures r.id == n.id && r.userId == n.userId && r.createdAt == n.createdAt && r.updatedAt == now
    ensures r.title == (if title.Some? then title.value else n.title)
    ensures r.content == (if content.Some? then content else n.content)
    ensures r.completed == (if completed.Some? then completed else n.completed)
  {
    n.(title := if title.Some? then title.value else n.title,
       content := if content.Some? then content else n.content,
       completed := if completed.Some? then completed else n.completed,
       updatedAt := now)
  }

  /** The mutating handlers, over the shared tables. */
  class NoteController {
    const db: Db

    constructor (db: Db)
      ensures this.db == db
    {
      this.db := db;
    }

    /** `createNote`: one new note owned by the requester. */
    method CreateNote(userId: nat, title: string, content: Option<string>, completed: Option<bool>, now: int)
      returns (reply: NoteReply)
      requires db.Valid()
      modifies db
      ensures db.Valid()
      ensures db.users == old(db.users)
      ensures
        var created := NewNote(title, content, userId, now).(id := old(db.nextNoteId));
        && db.notes == old(db.notes) + [created]
        && reply == NoteReply(201, true, "Note created successfully", Some(FormatNote(created)))
    {
      var created := db.CreateNote(NewNote(title, content, userId, now));
      reply := NoteReply(201, true, "Note created successfully", Some(FormatNote(created)));
    }

    /** `updateNote`: 404 unless the note is the requester's; then only the supplied fields change. */
    method UpdateNote(id: nat, userId: nat, title: Option<string>, content: Option<string>, completed: Option<bool>,
                      now: int) returns (reply: NoteReply)
      requires db.Valid()
      modifies db
      ensures db.Valid()
      ensures db.users == old(db.users)
      ensures FindOwned(old(db.notes), id, userId).None? ==> reply == NoteNotFound() && db.notes == old(db.notes)
      ensures FindOwned(old(db.notes), id, userId).Some? ==>
        var updated := ApplyNoteUpdate(FindOwned(old(db.notes), id, userId).value, title, content, completed, now);
        && db.notes == Database.UpdateNote(old(db.notes), id, updated)
        && reply == NoteReply(200, true, "Note updated successfully", Some(FormatNote(updated)))
    {
      var existing := FindOwned(db.notes, id, userId);
      if existing.None? {
        return NoteNotFound();
      }
      var updated := ApplyNoteUpdate(existing.value, title, content, completed, now);
      db.PutNote(id, updated);
      reply := NoteReply(200, true, "Note updated successfully", Some(FormatNote(updated)));
    }

    /** `deleteNote`: 404 unless the note is the requester's; then exactly that note goes. */
    method DeleteNote(id: nat, userId: nat) returns (reply: NoteReply)
      requires db.Valid()
      modifies db
      ensures db.Valid()
      ensures db.users == old(db.users)
      ensures FindOwned(old(db.notes), id, userId).None? ==> reply == NoteNotFound() && db.notes == old(db.notes)
      ensures FindOwned(old(db.notes), id, userId).Some? ==>
        && db.notes == WithoutNote(old(db.notes), id)
        && |db.notes| == |old(db.notes)| - 1
        && multiset(db.notes) == multiset(old(db.notes)) - multiset{FindOwned(old(db.notes), id, userId).value}
        && reply == NoteReply(200, true, "Note deleted successfully", None)
    {
      var existing := FindOwned(db.notes, id, userId);
      if existing.None? {
        return NoteNotFound();
      }
      var i :| 0 <= i < |db.notes| && db.notes[i] == existing.value;
      WithoutNoteRemovesOne(db.notes, i);
      db.DeleteNote(id);
      reply := NoteReply(200, true, "Note deleted successfully", None);
    }
  }
}
