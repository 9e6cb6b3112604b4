/**
 * The server's persistent tables, in memory: users and notes, with the uniqueness the
 * relational schema guarantees (ids, user e-mails). Record ids are drawn from counters.
 */
module Database {
  import opened Base

  /** A row of the User table. `password` holds the bcrypt hash, never the password. */
  datatype User = User(
    id: nat,
    email: string,
    name: string,
    dateOfBirth: Option<string>,
    password: Option<string>,
    googleId: Option<string>,
    avatar: Option<string>,
    isVerified: bool)

  /** A row of the Note table; `completed` is None when the column holds no value. */
  datatype Note = Note(
    id: nat,
    title: string,
    content: Option<string>,
    completed: Option<bool>,
    userId: nat,
    createdAt: int,
    updatedAt: int)

  /** The user view the API returns: no password hash and no Google subject id. */
  datatype PublicUser = PublicUser(
    id: nat,
    email: string,
    name: string,
    dateOfBirth: Option<string>,
    avatar: Option<string>,
    isVerified: bool)

  /** The response formatting of a user record, shared by every handler that returns one. */
  function FormatUser(u: User): (p: PublicUser)
    ensures p.id == u.id && p.email == u.email && p.name == u.name && p.isVerified == u.isVerified
    ensures p.dateOfBirth.Some? <==> Truthy(u.dateOfBirth)
    ensures p.avatar.Some? <==> Truthy(u.avatar)
    ensures p.dateOfBirth.Some? ==> p.dateOfBirth == u.dateOfBirth
    ensures p.avatar.Some? ==> p.avatar == u.avatar
  {
    PublicUser(u.id, u.email, u.name, OrUndefined(u.dateOfBirth), OrUndefined(u.avatar), u.isVerified)
  }

  /** `findUnique({ where: { email } })`. */
  function UserByEmail(users: seq<User>, email: string): (r: Option<User>)
    ensures r.Some? ==> r.value in users && r.value.email == email
    ensures r.None? ==> forall u :: u in users ==> u.email != email
  {
    if users == [] then None
    else if users[0].email == email then Some(users[0])
    else UserByEmail(users[1..], email)
  }

  /** `findUnique({ where: { id } })`. */
  function UserById(users: seq<User>, id: nat): (r: Option<User>)
    ensures r.Some? ==> r.value in users && r.value.id == id
    ensures r.None? ==> forall u :: u in users ==> u.id != id
  {
    if users == [] then None
    else if users[0].id == id then Some(users[0])
    else UserById(users[1..], id)
  }

  /** No two users share an id. */
  ghost predicate UniqueUserIds(users: seq<User>) {
    forall i, j :: 0 <= i < j < |users| ==> users[i].id != users[j].id
  }

  /** No two users share an e-mail. */
  ghost predicate UniqueEmails(users: seq<User>) {
    forall i, j :: 0 <= i < j < |users| ==> users[i].email != users[j].email
  }

  /** No two notes share an id. */
  ghost predicate UniqueNoteIds(notes: seq<Note>) {
    forall i, j :: 0 <= i < j < |notes| ==> notes[i].id != notes[j].id
  }

  /** `update({ where: { id }, data })`: the record with that id is replaced by `updated`. */
  function UpdateUser(users: seq<User>, id: nat, updated: User): (r: seq<User>)
    ensures |r| == |users|
    ensures forall i :: 0 <= i < |users| && users[i].id == id ==> r[i] == updated
    ensures forall i :: 0 <= i < |users| && users[i].id != id ==> r[i] == users[i]
  {
    seq(|users|, i requires 0 <= i < |users| => if users[i].id == id then updated else users[i])
  }

  /** With unique ids, the record found by id is the only one of that id. */
  lemma {:induction false} UserByIdUnique(users: seq<User>, id: nat, i: nat)
    requires UniqueUserIds(users)
    requires i < |users| && users[i].id == id
    ensures UserById(users, id) == Some(users[i])
  {
    if i > 0 {
      assert users[0].id != users[i].id;
      UserByIdUnique(users[1..], id, i - 1);
    }
  }

  /** With unique e-mails, the record found by e-mail is the only one of that e-mail. */
  lemma {:induction false} UserByEmailUnique(users: seq<User>, email: string, i: nat)
    requires UniqueEmails(users)
    requires i < |users| && users[i].email == email
    ensures UserByEmail(users, email) == Some(users[i])
  {
    if i > 0 {
      assert users[0].email != users[i].email;
      UserByEmailUnique(users[1..], email, i - 1);
    }
  }

  /** `findMany({ where: { userId } })`: a user's notes, in table order. */
  function OwnedNotes(notes: seq<Note>, userId: nat): (r: seq<Note>)
    ensures forall n :: n in r <==> n in notes && n.userId == userId
    ensures |r| <= |notes|
  {
    if notes == [] then []
    else (if notes[0].userId == userId then [notes[0]] else []) + OwnedNotes(notes[1..], userId)
  }

  /** The notes of every other user: what survives deleting a user's notes. */
  function NotesOfOthers(notes: seq<Note>, userId: nat): (r: seq<Note>)
    ensures forall n :: n in r <==> n in notes && n.userId != userId
    ensures |r| <= |notes|
  {
    if notes == [] then []
    else (if notes[0].userId != userId then [notes[0]] else []) + NotesOfOthers(notes[1..], userId)
  }

  /** A user's notes and everybody else's partition the table. */
  lemma {:induction false} OwnedPartition(notes: seq<Note>, userId: nat)
    ensures |OwnedNotes(notes, userId)| + |NotesOfOthers(notes, userId)| == |notes|
    ensures multiset(OwnedNotes(notes, userId)) + multiset(NotesOfOthers(notes, userId)) == multiset(notes)
  {
    if notes != [] {
      OwnedPartition(notes[1..], userId);
      assert notes == [notes[0]] + notes[1..];
    }
  }

  /** `note.delete({ where: { id } })`: the table without the note of that id. */
  function WithoutNote(notes: seq<Note>, id: nat): (r: seq<Note>)
    ensures forall n :: n in r <==> n in notes && n.id != id
    ensures |r| <= |notes|
  {
    if notes == [] then []
    else (if notes[0].id != id then [notes[0]] else []) + WithoutNote(notes[1..], id)
  }

  /** `user.delete({ where: { id } })`: the table without the user of that id. */
  function WithoutUser(users: seq<User>, id: nat): (r: seq<User>)
    ensures forall u :: u in r <==> u in users && u.id != id
    ensures |r| <= |users|
  {
    if users == [] then []
    else (if users[0].id != id then [users[0]] else []) + WithoutUser(users[1..], id)
  }

  /** With unique ids, deleting a present note removes exactly that one note. */
  lemma {:induction false} WithoutNoteRemovesOne(notes: seq<Note>, i: nat)
    requires UniqueNoteIds(notes) && i < |notes|
    ensures multiset(WithoutNote(notes, notes[i].id)) == multiset(notes) - multiset{notes[i]}
    ensures |WithoutNote(notes, notes[i].id)| == |notes| - 1
  {
    var id := notes[i].id;
    assert notes == [notes[0]] + notes[1..];
    if i == 0 {
      forall n | n in notes[1..]
        ensures n.id != id
      {
        var k :| 0 <= k < |notes[1..]| && notes[1..][k] == n;
        assert notes[k + 1] == n;
      }
      NoNoteWithId(notes[1..], id);
    } else {
      WithoutNoteRemovesOne(notes[1..], i - 1);
      assert notes[0].id != id;
      assert notes[1..][i - 1] == notes[i];
    }
  }

  /** Deleting a note keeps the ids unique. */
  lemma {:induction false} WithoutNoteUnique(notes: seq<Note>, id: nat)
    requires UniqueNoteIds(notes)
    ensures UniqueNoteIds(WithoutNote(notes, id))
  {
    if notes != [] {
      WithoutNoteUnique(notes[1..], id);
      var rest := WithoutNote(notes[1..], id);
      var r := WithoutNote(notes, id);
      if notes[0].id != id {
        assert r == [notes[0]] + rest;
        forall a, b | 0 <= a < b < |r|
          ensures r[a].id != r[b].id
        {
          if a == 0 {
            assert r[b] in notes[1..];
            var k :| 0 <= k < |notes[1..]| && notes[1..][k] == r[b];
            assert notes[k + 1] == r[b];
          } else {
            assert r[a] == rest[a - 1] && r[b] == rest[b - 1];
          }
        }
      } else {
        assert r == rest;
      }
    }
  }

  /** When no note has the id, deleting it changes nothing. */
  lemma {:induction false} NoNoteWithId(notes: seq<Note>, id: nat)
    requires forall n :: n in notes ==> n.id != id
    ensures WithoutNote(notes, id) == notes
  {
    if notes != [] {
      NoNoteWithId(notes[1..], id);
      assert notes == [notes[0]] + notes[1..];
    }
  }

  /** Filtering the users keeps their ids and e-mails unique. */
  lemma {:induction false} WithoutUserUnique(users: seq<User>, id: nat)
    requires UniqueUserIds(users) && UniqueEmails(users)
    ensures UniqueUserIds(WithoutUser(users, id)) && UniqueEmails(WithoutUser(users, id))
  {
    if users != [] {
      WithoutUserUnique(users[1..], id);
      var rest := WithoutUser(users[1..], id);
      var r := WithoutUser(users, id);
      if users[0].id != id {
        assert r == [users[0]] + rest;
        forall a, b | 0 <= a < b < |r|
          ensures r[a].id != r[b].id && r[a].email != r[b].email
        {
          if a == 0 {
            assert r[b] in users[1..];
            var k :| 0 <= k < |users[1..]| && users[1..][k] == r[b];
            assert users[k + 1] == r[b];
          } else {
            assert r[a] == rest[a - 1] && r[b] == rest[b - 1];
          }
        }
      } else {
        assert r == rest;
      }
    }
  }

  /** Filtering the notes by owner keeps their ids unique. */
  lemma {:induction false} NotesOfOthersUnique(notes: seq<Note>, userId: nat)
    requires UniqueNoteIds(notes)
    ensures UniqueNoteIds(NotesOfOthers(notes, userId))
  {
    if notes != [] {
      NotesOfOthersUnique(notes[1..], userId);
      var rest := NotesOfOthers(notes[1..], userId);
      var r := NotesOfOthers(notes, userId);
      if notes[0].userId != userId {
        assert r == [notes[0]] + rest;
        forall a, b | 0 <= a < b < |r|
          ensures r[a].id != r[b].id
        {
          if a == 0 {
            assert r[b] in notes[1..];
            var k :| 0 <= k < |notes[1..]| && notes[1..][k] == r[b];
            assert notes[k + 1] == r[b];
          } else {
            assert r[a] == rest[a - 1] && r[b] == rest[b - 1];
          }
        }
      } else {
        assert r == rest;
      }
    }
  }

  /** `note.update({ where: { id } })`: the note with that id is replaced by `updated`. */
  function UpdateNote(notes: seq<Note>, id: nat, updated: Note): (r: seq<Note>)
    ensures |r| == |notes|
    ensures forall i :: 0 <= i < |notes| && notes[i].id == id ==> r[i] == updated
    ensures forall i :: 0 <= i < |notes| && notes[i].id != id ==> r[i] == notes[i]
  {
    seq(|notes|, i requires 0 <= i < |notes| => if notes[i].id == id then updated else notes[i])
  }

  /** The tables behind the ORM client. */
  class Db {
    var users: seq<User>
    var notes: seq<Note>
    var nextUserId: nat
    var nextNoteId: nat

    ghost predicate Valid()
      reads this
    {
      && UniqueUserIds(users)
      && UniqueEmails(users)
      && (forall u :: u in users ==> u.id < nextUserId)
      && UniqueNoteIds(notes)
      && (forall n :: n in notes ==> n.id < nextNoteId)
    }

    constructor ()
      ensures Valid() && users == [] && notes == []
    {
      users, notes := [], [];
      nextUserId, nextNoteId := 0, 0;
    }

    /** `user.create`: append a user under a fresh id; the caller has checked the e-mail is free. */
    method CreateUser(u: User) returns (created: User)
      requires Valid()
      requires forall v :: v in users ==> v.email != u.email
      modifies this
      ensures Valid()
      ensures created == u.(id := old(nextUserId))
      ensures users == old(users) + [created]
      ensures notes == old(notes) && nextNoteId == old(nextNoteId)
      ensures forall v :: v in old(users) ==> v.id != created.id
    {
      created := u.(id := nextUserId);
      users := users + [created];
      nextUserId := nextUserId + 1;
    }

    /**
     * `user.update({ where: { id } })` on a record the caller has found: the record is
     * replaced; the new e-mail must not be another user's.
     */
    method PutUser(id: nat, updated: User)
      requires Valid()
      requires updated.id == id
      requires exists i :: 0 <= i < |users| && users[i].id == id
      requires forall v :: v in users && v.id != id ==> v.email != updated.email
      modifies this
      ensures Valid()
      ensures users == UpdateUser(old(users), id, updated)
      ensures notes == old(notes) && nextUserId == old(nextUserId) && nextNoteId == old(nextNoteId)
    {
      users := UpdateUser(users, id, updated);
    }

    /** `note.update({ where: { id } })` on a note the caller has found. */
    method PutNote(id: nat, updated: Note)
      requires Valid()
      requires updated.id == id
      requires exists i :: 0 <= i < |notes| && notes[i].id == id
      modifies this
      ensures Valid()
      ensures notes == UpdateNote(old(notes), id, updated)
      ensures users == old(users) && nextUserId == old(nextUserId) && nextNoteId == old(nextNoteId)
    {
      notes := UpdateNote(notes, id, updated);
    }

    /** `note.delete({ where: { id } })` on a note the caller has found. */
    method DeleteNote(id: nat)
      requires Valid()
      requires exists i :: 0 <= i < |notes| && notes[i].id == id
      modifies this
      ensures Valid()
      ensures notes == WithoutNote(old(notes), id)
      ensures users == old(users) && nextUserId == old(nextUserId) && nextNoteId == old(nextNoteId)
    {
      WithoutNoteUnique(notes, id);
      notes := WithoutNote(notes, id);
    }

    /**
     * `user.delete({ where: { id } })`, with the schema's cascade taking the user's notes
     * along.
     */
    method DeleteUser(id: nat)
      requires Valid()
      modifies this
      ensures Valid()
      ensures users == WithoutUser(old(users), id)
      ensures notes == NotesOfOthers(old(notes), id)
      ensures nextUserId == old(nextUserId) && nextNoteId == old(nextNoteId)
    {
      WithoutUserUnique(users, id);
      NotesOfOthersUnique(notes, id);
      users := WithoutUser(users, id);
      notes := NotesOfOthers(notes, id);
    }

    /** `note.create`: append a note under a fresh id. */
    method CreateNote(n: Note) returns (created: Note)
      requires Valid()
      modifies this
      ensures Valid()
      ensures created == n.(id := old(nextNoteId))
      ensures notes == old(notes) + [created]
      ensures users == old(users) && nextUserId == old(nextUserId)
      ensures forall m :: m in old(notes) ==> m.id != created.id
    {
      created := n.(id := nextNoteId);
      notes := notes + [created];
      nextNoteId := nextNoteId + 1;
    }
  }
}
