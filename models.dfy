/** The relational store behind the chat backend: the four tables the Sequelize models of
    backend/src/models declare, and the create / find / update / destroy calls the services and
    route handlers make on them. Each call is one atomic step; a call the database would reject
    (a foreign key to a missing row, a violated validation or unique index, a value too long for
    its column) fails and changes nothing. */
module Models {
  import opened Base

  /** A row of `users`. */
  datatype User = User(id: Id, username: string, isOnline: bool)

  /** A row of `rooms`; `createdAt` and `updatedAt` are the timestamps Sequelize maintains. */
  datatype Room = Room(id: Id, name: string, isGroup: bool, createdAt: nat, updatedAt: nat)

  datatype MessageType = Text | System

  /** The `kind` a system message records in its `meta` column. */
  datatype MetaKind = Leave | InviteJoin

  /** The `{ id, username }` pair the source sends wherever it names a user. */
  datatype UserRef = UserRef(id: Id, username: string)

  datatype Meta = Meta(kind: MetaKind, user: UserRef)

  /** A row of `messages`: `senderId` is null for system messages. */
  datatype Message = Message(id: Id, roomId: Id, senderId: Option<Id>, content: string,
                             msgType: MessageType, meta: Option<Meta>, createdAt: nat)

  /** Why the database refuses a write. */
  datatype DbError = ValidationError | UniqueViolation | ForeignKeyViolation | ValueTooLong

  /** `username`: `validate: { len: [3, 50] }`. */
  const MinUsername: nat := 3
  const MaxUsername: nat := 50
  /** `name`: `STRING(100)`. */
  const MaxRoomName: nat := 100

  predicate UsernameFits(name: string) {
    MinUsername <= |name| <= MaxUsername
  }

  predicate UsernameTaken(users: map<Id, User>, name: string) {
    exists k :: k in users && users[k].username == name
  }

  /** `users`: key and row agree, the length validation holds, `username` is unique. */
  ghost predicate UsersValid(users: map<Id, User>, nextId: Id) {
    && (forall k :: k in users ==> users[k].id == k && UsernameFits(users[k].username) && k < nextId)
    && (forall j, k :: j in users && k in users && j != k ==> users[j].username != users[k].username)
  }

  ghost predicate RoomsValid(rooms: map<Id, Room>, nextId: Id, clock: nat) {
    forall k :: k in rooms ==>
      && rooms[k].id == k && |rooms[k].name| <= MaxRoomName && k < nextId
      && rooms[k].createdAt <= rooms[k].updatedAt < clock
  }

  /** `user_rooms`: both foreign keys point at existing rows. Being a set, it never holds a
      (user_id, room_id) pair twice, which is what its unique index demands. */
  ghost predicate MembershipsValid(memberships: set<(Id, Id)>, users: map<Id, User>, rooms: map<Id, Room>) {
    forall p :: p in memberships ==> p.0 in users && p.1 in rooms
  }

  /** `messages`, in insertion order: each `created_at` is later than the one before. */
  predicate Chronological(msgs: seq<Message>) {
    forall i, j :: 0 <= i < j < |msgs| ==> msgs[i].createdAt < msgs[j].createdAt
  }

  ghost predicate MessagesValid(msgs: seq<Message>, users: map<Id, User>, nextId: Id, clock: nat) {
    && Chronological(msgs)
    && forall i :: 0 <= i < |msgs| ==>
         && msgs[i].createdAt < clock && msgs[i].id < nextId
         && (msgs[i].senderId.Some? ==> msgs[i].senderId.value in users)
  }

  /** The application's own invariant, which no index enforces (backend/src/models/Room.js
      declares none): no two direct rooms share a name. */
  ghost predicate DirectRoomsUnique(rooms: map<Id, Room>) {
    forall j, k :: j in rooms && k in rooms && j != k && !rooms[j].isGroup && !rooms[k].isGroup
      ==> rooms[j].name != rooms[k].name
  }

  /** The user ids that `memberships` lists as members of `roomId`. */
  function MembersOf(memberships: set<(Id, Id)>, roomId: Id): (ms: set<Id>)
    ensures forall u :: u in ms <==> (u, roomId) in memberships
  {
    set p | p in memberships && p.1 == roomId :: p.0
  }

  /** Adding or removing one membership row changes the members of that row's room by that
      user and leaves every other room's members as they were. */
  lemma MembersOfChange(memberships: set<(Id, Id)>, u: Id, roomId: Id, other: Id)
    requires other != roomId
    ensures MembersOf(memberships + {(u, roomId)}, roomId) == MembersOf(memberships, roomId) + {u}
    ensures MembersOf(memberships - {(u, roomId)}, roomId) == MembersOf(memberships, roomId) - {u}
    ensures MembersOf(memberships + {(u, roomId)}, other) == MembersOf(memberships, other)
    ensures MembersOf(memberships - {(u, roomId)}, other) == MembersOf(memberships, other)
  {
  }

  class Store {
    var users: map<Id, User>
    var rooms: map<Id, Room>
    /** (user_id, room_id) rows of `user_rooms`. */
    var memberships: set<(Id, Id)>
    var messages: seq<Message>
    /** The time `new Date()` would read; each timestamp taken advances it. */
    var clock: nat
    /** The next fresh identifier, standing for `randomUUID()`. */
    var nextId: Id

    ghost predicate Valid()
      reads this
    {
      && UsersValid(users, nextId)
      && RoomsValid(rooms, nextId, clock)
      && MembershipsValid(memberships, users, rooms)
      && MessagesValid(messages, users, nextId, clock)
    }

    constructor ()
      ensures Valid()
      ensures users == map[] && rooms == map[] && memberships == {} && messages == []
    {
      users, rooms, memberships, messages := map[], map[], {}, [];
      clock, nextId := 0, 0;
    }

    /** `User.create({ username })`: the length validation runs first, then the unique index. */
    method CreateUser(username: string) returns (r: Result<User, DbError>)
      requires Valid()
      modifies this
      ensures Valid()
      ensures !UsernameFits(username) ==> r == Failure(ValidationError) && unchanged(this)
      ensures UsernameFits(username) && UsernameTaken(old(users), username) ==>
                r == Failure(UniqueViolation) && unchanged(this)
      ensures UsernameFits(username) && !UsernameTaken(old(users), username) ==>
                && r == Success(User(old(nextId), username, false))
                && old(nextId) !in old(users)
                && users == old(users)[old(nextId) := r.value] && nextId == old(nextId) + 1
                && rooms == old(rooms) && memberships == old(memberships)
                && messages == old(messages) && clock == old(clock)
    {
      if !UsernameFits(username) {
        return Failure(ValidationError);
      }
      if UsernameTaken(users, username) {
        return Failure(UniqueViolation);
      }
      var u := User(nextId, username, false);
      users := users[nextId := u];
      nextId := nextId + 1;
      r := Success(u);
    }

    /** `User.update({ is_online }, { where: { id } })`: updates no row when `id` is unknown. */
    method UpdateOnline(id: Id, online: bool)
      requires Valid()
      modifies this
      ensures Valid()
      ensures users == if id in old(users) then old(users)[id := old(users)[id].(isOnline := online)]
                       else old(users)
      ensures rooms == old(rooms) && memberships == old(memberships) && messages == old(messages)
      ensures clock == old(clock) && nextId == old(nextId)
    {
      if id in users {
        users := users[id := users[id].(isOnline := online)];
      }
    }

    /** `User.findOne({ where: { username } })`: the unique index makes the row unique. */
    method FindUserByName(username: string) returns (r: Option<User>)
      requires Valid()
      ensures r.Some? ==> r.value.id in users && users[r.value.id] == r.value && r.value.username == username
      ensures r.None? <==> !UsernameTaken(users, username)
    {
      if UsernameTaken(users, username) {
        var k :| k in users && users[k].username == username;
        r := Some(users[k]);
      } else {
        r := None;
      }
    }

    /** `Room.create({ name, is_group })`: `name` is a VARCHAR(100), so a longer one fails. */
    method CreateRoom(name: string, isGroup: bool) returns (r: Result<Room, DbError>)
      requires Valid()
      modifies this
      ensures Valid()
      ensures |name| > MaxRoomName ==> r == Failure(ValueTooLong) && unchanged(this)
      ensures |name| <= MaxRoomName ==>
                && r == Success(Room(old(nextId), name, isGroup, old(clock), old(clock)))
                && old(nextId) !in old(rooms)
                && rooms == old(rooms)[old(nextId) := r.value] && nextId == old(nextId) + 1
                && clock == old(clock) + 1
                && users == old(users) && memberships == old(memberships) && messages == old(messages)
    {
      if |name| > MaxRoomName {
        return Failure(ValueTooLong);
      }
      var room := Room(nextId, name, isGroup, clock, clock);
      rooms := rooms[nextId := room];
      nextId, clock := nextId + 1, clock + 1;
      r := Success(room);
    }

    /** `Room.findOne({ where: { name, is_group: false } })`. */
    method FindDirectRoom(name: string) returns (r: Option<Room>)
      requires Valid()
      ensures r.Some? ==> && r.value.id in rooms && rooms[r.value.id] == r.value
                          && r.value.name == name && !r.value.isGroup
      ensures r.None? ==> forall k :: k in rooms ==> rooms[k].name != name || rooms[k].isGroup
    {
      if exists k :: k in rooms && rooms[k].name == name && !rooms[k].isGroup {
        var k :| k in rooms && rooms[k].name == name && !rooms[k].isGroup;
        r := Some(rooms[k]);
      } else {
        r := None;
      }
    }

    /** `Room.update({ updated_at: new Date() }, { where: { id } })`. */
    method TouchRoom(id: Id)
      requires Valid()
      modifies this
      ensures Valid()
      ensures rooms == if id in old(rooms) then old(rooms)[id := old(rooms)[id].(updatedAt := old(clock))]
                       else old(rooms)
      ensures clock == old(clock) + 1
      ensures users == old(users) && memberships == old(memberships) && messages == old(messages)
      ensures nextId == old(nextId)
    {
      if id in rooms {
        rooms := rooms[id := rooms[id].(updatedAt := clock)];
      }
      clock := clock + 1;
    }

    /** `Room.destroy({ where: { id } })`; the `user_rooms` rows of the room go with it
        (ON DELETE CASCADE of the through table). */
    method DestroyRoom(id: Id)
      requires Valid()
      modifies this
      ensures Valid()
      ensures rooms == old(rooms) - {id}
      ensures memberships == set p | p in old(memberships) && p.1 != id
      ensures users == old(users) && messages == old(messages)
      ensures clock == old(clock) && nextId == old(nextId)
    {
      rooms := rooms - {id};
      memberships := set p | p in memberships && p.1 != id;
    }

    /** `UserRoom.findOrCreate({ where: { user_id, room_id } })`: the flag says whether a row
        was inserted; inserting a row whose keys point nowhere violates a foreign key. */
    method FindOrCreateMembership(userId: Id, roomId: Id) returns (r: Result<bool, DbError>)
      requires Valid()
      modifies this
      ensures Valid()
      ensures (userId !in old(users) || roomId !in old(rooms)) ==>
                r == Failure(ForeignKeyViolation) && unchanged(this)
      ensures userId in old(users) && roomId in old(rooms) ==>
                && r == Success((userId, roomId) !in old(memberships))
                && memberships == old(memberships) + {(userId, roomId)}
                && users == old(users) && rooms == old(rooms) && messages == old(messages)
                && clock == old(clock) && nextId == old(nextId)
    {
      if userId !in users || roomId !in rooms {
        return Failure(ForeignKeyViolation);
      }
      r := Success((userId, roomId) !in memberships);
      memberships := memberships + {(userId, roomId)};
    }

    /** `UserRoom.destroy({ where: { user_id, room_id } })`: deleting no row is not an error. */
    method DestroyMembership(userId: Id, roomId: Id)
      requires Valid()
      modifies this
      ensures Valid()
      ensures memberships == old(memberships) - {(userId, roomId)}
      ensures users == old(users) && rooms == old(rooms) && messages == old(messages)
      ensures clock == old(clock) && nextId == old(nextId)
    {
      memberships := memberships - {(userId, roomId)};
    }

    /** `Message.create(...)`: `room_id` and a non-null `sender_id` are foreign keys. */
    method CreateMessage(roomId: Id, senderId: Option<Id>, content: string,
                         msgType: MessageType, meta: Option<Meta>)
      returns (r: Result<Message, DbError>)
      requires Valid()
      modifies this
      ensures Valid()
      ensures (roomId !in old(rooms) || (senderId.Some? && senderId.value !in old(users))) ==>
                r == Failure(ForeignKeyViolation) && unchanged(this)
      ensures roomId in old(rooms) && (senderId.Some? ==> senderId.value in old(users)) ==>
                && r == Success(Message(old(nextId), roomId, senderId, content, msgType, meta, old(clock)))
                && messages == old(messages) + [r.value]
                && nextId == old(nextId) + 1 && clock == old(clock) + 1
                && users == old(users) && rooms == old(rooms) && memberships == old(memberships)
    {
      if roomId !in rooms || (senderId.Some? && senderId.value !in users) {
        return Failure(ForeignKeyViolation);
      }
      var m := Message(nextId, roomId, senderId, content, msgType, meta, clock);
      messages := messages + [m];
      nextId, clock := nextId + 1, clock + 1;
      r := Success(m);
    }
  }
}
