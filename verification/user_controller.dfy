/**
 * `UserController`: the signed-in user's own profile: read it, change the name, date of
 * birth or avatar, or delete the account.
 */
module UserController {
  import opened Base
  import opened Database

  /** A profile reply: status, message and the public view of the user. */
  datatype ProfileReply = ProfileReply(status: int, success: bool, message: string, user: Option<PublicUser>)

  /** `getProfile`: the requester's own record, formatted, or 404. */
  function GetProfile(users: seq<User>, userId: nat): (r: ProfileReply)
    ensures UserById(users, userId).None? ==> r == ProfileReply(404, false, "User not found", None)
    ensures UserById(users, userId).Some? ==>
      r == ProfileReply(200, true, "Profile retrieved successfully", Some(FormatUser(UserById(users, userId).value)))
    ensures r.user.Some? ==> r.user.value.id == userId
  {
    var user := UserById(users, userId);
    if user.None? then ProfileReply(404, false, "User not found", None)
    else ProfileReply(200, true, "Profile retrieved successfully", Some(FormatUser(user.value)))
  }

  /** The profile of a stored user is that user's, whatever else the table holds. */
  lemma ProfileIsOwnRecord(users: seq<User>, i: nat)
    requires UniqueUserIds(users) && i < |users|
    ensures GetProfile(users, users[i].id).user == Some(FormatUser(users[i]))
  {
    UserByIdUnique(users, users[i].id, i);
  }

  /**
   * The record after `updateProfile`: a field changes only when a truthy value is given
   * for it; nothing else changes.
   */
  function ApplyProfile(u: User, name: Option<string>, dateOfBirth: Option<string>, avatar: Option<string>): (r: User)
    ensures r.id == u.id && r.email == u.email && r.isVerified == u.isVerified
    ensures r.password == u.password && r.googleId == u.googleId
    ensures r.name == (if Truthy(name) then name.value else u.name)
    ensures r.dateOfBirth == (if Truthy(dateOfBirth) then dateOfBirth else u.dateOfBirth)
    ensures r.avatar == (if Truthy(avatar) then avatar else u.avatar)
  {
    u.(name := if Truthy(name) then name.value else u.name,
       dateOfBirth := OrElse(dateOfBirth, u.dateOfBirth),
       avatar := OrElse(avatar, u.avatar))
  }

  /** An update with nothing truthy leaves the record as it was. */
  lemma EmptyUpdateKeepsRecord(u: User, name: Option<string>, dateOfBirth: Option<string>, avatar: Option<string>)
    requires !Truthy(name) && !Truthy(dateOfBirth) && !Truthy(avatar)
    ensures ApplyProfile(u, name, dateOfBirth, avatar) == u
  {
  }

  /** The mutating handlers, over the shared tables. */
  class UserController {
    const db: Db

    constructor (db: Db)
      ensures this.db == db
    {
      this.db := db;
    }

    /** `updateProfile`: a missing record makes the update throw, answered with 500. */
    method UpdateProfile(userId: nat, name: Option<string>, dateOfBirth: Option<string>, avatar: Option<string>)
      returns (reply: ProfileReply)
      requires db.Valid()
      modifies db
      ensures db.Valid()
      ensures db.notes == old(db.notes)
      ensures UserById(old(db.users), userId).None? ==>
        reply == ProfileReply(500, false, "Failed to update profile", None) && db.users == old(db.users)
      ensures UserById(old(db.users), userId).Some? ==>
        var updated := ApplyProfile(UserById(old(db.users), userId).value, name, dateOfBirth, avatar);
        && db.users == UpdateUser(old(db.users), userId, updated)
        && reply == ProfileReply(200, true, "Profile updated successfully", Some(FormatUser(updated)))
    {
      var user := UserById(db.users, userId);
      if user.None? {
        return ProfileReply(500, false, "Failed to update profile", None);
      }
      var updated := ApplyProfile(user.value, name, dateOfBirth, avatar);
      forall v | v in db.users && v.id != userId
        ensures v.email != updated.email
      {
        var a :| 0 <= a < |db.users| && db.users[a] == v;
        var b :| 0 <= b < |db.users| && db.users[b] == user.value;
        assert a != b;
      }
      ghost var k :| 0 <= k < |db.users| && db.users[k] == user.value;
      db.PutUser(userId, updated);
      reply := ProfileReply(200, true, "Profile updated successfully", Some(FormatUser(updated)));
    }

    /**
     * `deleteAccount`: remove the requester's record and, by the schema's cascade, the
     * requester's notes; a missing record makes the delete throw, answered with 500.
     */
    method DeleteAccount(userId: nat) returns (reply: ProfileReply)
      requires db.Valid()
      modifies db
      ensures db.Valid()
      ensures UserById(old(db.users), userId).None? ==>
        && reply == ProfileReply(500, false, "Failed to delete account", None)
        && db.users == old(db.users) && db.notes == old(db.notes)
      ensures UserById(old(db.users), userId).Some? ==>
        && reply == ProfileReply(200, true, "Account deleted successfully", None)
        && db.users == WithoutUser(old(db.users), userId)
        && db.notes == NotesOfOthers(old(db.notes), userId)
        && UserById(db.users, userId).None?
        && (forall n :: n in db.notes ==> n.userId != userId)
    {
      var user := UserById(db.users, userId);
      if user.None? {
        return ProfileReply(500, false, "Failed to delete account", None);
      }
      db.DeleteUser(userId);
      reply := ProfileReply(200, true, "Account deleted successfully", None);
    }
  }
}
