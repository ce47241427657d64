/** backend/src/services/user.service.js: identity lookup-or-create and the presence flag. */
module UserService {
  import opened Base
  import opened Models

  /** `findOrCreateUserById(id, usernameIfNew)`: a known id yields its user and creates none;
      an absent or unknown id falls back to creating a user named `usernameIfNew`, which the
      store refuses when the name is missing, outside 3 to 50 characters or already taken. */
  method FindOrCreateUserById(db: Store, id: Option<Id>, usernameIfNew: Option<string>)
    returns (r: Result<User, DbError>)
    requires db.Valid()
    modifies db
    ensures db.Valid()
    ensures id.Some? && id.value in old(db.users) ==>
              r == Success(old(db.users)[id.value]) && unchanged(db)
    ensures !(id.Some? && id.value in old(db.users)) ==>
              && (usernameIfNew.None? ==> r == Failure(ValidationError) && unchanged(db))
              && (usernameIfNew.Some? ==>
                    var name := usernameIfNew.value;
                    && (!UsernameFits(name) ==> r == Failure(ValidationError) && unchanged(db))
                    && (UsernameFits(name) && UsernameTaken(old(db.users), name) ==>
                          r == Failure(UniqueViolation) && unchanged(db))
                    && (UsernameFits(name) && !UsernameTaken(old(db.users), name) ==>
                          && r == Success(User(old(db.nextId), name, false))
                          && old(db.nextId) !in old(db.users)
                          && db.users == old(db.users)[old(db.nextId) := r.value]
                          && db.rooms == old(db.rooms) && db.memberships == old(db.memberships)
                          && db.messages == old(db.messages)))
  {
    if id.Some? && id.value in db.users {
      return Success(db.users[id.value]);
    }
    if usernameIfNew.None? {
      // `username` is `allowNull: false`
      return Failure(ValidationError);
    }
    r := db.CreateUser(usernameIfNew.value);
  }

  /** `setOnline(userId, online)`: that user's `is_online` becomes `online`; no other user,
      no other column and no other table changes, and an unknown id changes nothing. */
  method SetOnline(db: Store, userId: Id, online: bool)
    requires db.Valid()
    modifies db
    ensures db.Valid()
    ensures db.users == if userId in old(db.users) then old(db.users)[userId := old(db.users)[userId].(isOnline := online)]
                        else old(db.users)
    ensures forall k :: k in db.users && k != userId ==> db.users[k] == old(db.users)[k]
    ensures db.rooms == old(db.rooms) && db.memberships == old(db.memberships)
    ensures db.messages == old(db.messages) && db.clock == old(db.clock) && db.nextId == old(db.nextId)
  {
    db.UpdateOnline(userId, online);
  }
}
