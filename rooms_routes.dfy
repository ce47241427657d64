/** backend/src/routes/rooms.routes.js: the REST endpoints under `/rooms`. */
module RoomsRoutes {
  import opened Base
  import opened Text
  import opened Models
  import opened RoomService
  import opened MessageService
  import opened Chat

  datatype RouteError = NameRequired | CreateFailed | InvalidUserIds | DirectFailed
                      | RoomRequired | UserRequired | UserNotFound | InviteFailed

  /** The body of a JSON reply: `{ ok: true, ... }`, or an HTTP status with `{ ok: false, error }`. */
  datatype Response<+T> = Ok(body: T) | Error(status: nat, code: RouteError)

  /** `POST /rooms { name, creatorId }`: creates a group room with the trimmed name, makes the
      creator a member when one is given and bumps `updated_at`. A missing name throws (500),
      a blank one is refused (400), one too long for the column fails the insert (500). The room
      is created before the membership, with no transaction, so an unknown creator leaves the
      new room behind while the reply says `create_failed`. The room in the reply is the
      instance `Room.create` returned, from before the bump. */
  method CreateGroup(db: Store, name: Option<string>, creatorId: Option<Id>) returns (r: Response<Room>)
    requires db.Valid() && DirectRoomsUnique(db.rooms)
    modifies db
    ensures db.Valid() && DirectRoomsUnique(db.rooms)
    ensures db.users == old(db.users) && db.messages == old(db.messages)
    ensures name.None? ==> r == Error(500, CreateFailed) && unchanged(db)
    ensures name.Some? && Trim(name.value) == [] ==> r == Error(400, NameRequired) && unchanged(db)
    ensures name.Some? && |Trim(name.value)| > MaxRoomName ==> r == Error(500, CreateFailed) && unchanged(db)
    ensures name.Some? && 0 < |Trim(name.value)| <= MaxRoomName ==>
              var k := old(db.nextId);
              var room := Room(k, Trim(name.value), true, old(db.clock), old(db.clock));
              && k !in old(db.rooms)
              && (creatorId.Some? && creatorId.value !in old(db.users) ==>
                    && r == Error(500, CreateFailed)
                    && db.rooms == old(db.rooms)[k := room] && db.memberships == old(db.memberships))
              && (creatorId.None? || creatorId.value in old(db.users) ==>
                    && r == Ok(room)
                    && db.rooms == old(db.rooms)[k := room.(updatedAt := old(db.clock) + 1)]
                    && db.memberships == old(db.memberships) + (if creatorId.Some? then {(creatorId.value, k)} else {}))
  {
    if name.None? {
      return Error(500, CreateFailed);
    }
    var trimmed := Trim(name.value);
    if trimmed == [] {
      return Error(400, NameRequired);
    }
    r := CreateNamedGroup(db, trimmed, creatorId);
  }

  /** The part of `POST /rooms` after the name check, given the trimmed name. */
  method CreateNamedGroup(db: Store, name: string, creatorId: Option<Id>) returns (r: Response<Room>)
    requires db.Valid() && DirectRoomsUnique(db.rooms)
    modifies db
    ensures db.Valid() && DirectRoomsUnique(db.rooms)
    ensures db.users == old(db.users) && db.messages == old(db.messages)
    ensures |name| > MaxRoomName ==> r == Error(500, CreateFailed) && unchanged(db)
    ensures |name| <= MaxRoomName ==>
              var k := old(db.nextId);
              var room := Room(k, name, true, old(db.clock), old(db.clock));
              && k !in old(db.rooms)
              && (creatorId.Some? && creatorId.value !in old(db.users) ==>
                    && r == Error(500, CreateFailed)
                    && db.rooms == old(db.rooms)[k := room] && db.memberships == old(db.memberships))
              && (creatorId.None? || creatorId.value in old(db.users) ==>
                    && r == Ok(room)
                    && db.rooms == old(db.rooms)[k := room.(updatedAt := old(db.clock) + 1)]
                    && db.memberships == old(db.memberships) + (if creatorId.Some? then {(creatorId.value, k)} else {}))
  {
    var created := db.CreateRoom(name, true);
    if created.Failure? {
      return Error(500, CreateFailed);
    }
    var room := created.value;
    AddRoomKeepsUnique(old(db.rooms), room.id, room);
    var seated := SeatCreator(db, room.id, creatorId);
    if seated.Failure? {
      return Error(500, CreateFailed);
    }
    r := Ok(room);
  }

  /** The end of `POST /rooms` once the room exists: the creator's membership, when a creator
      is given, then the bump of `updated_at`. An unknown creator fails the insert and stops
      there. */
  method SeatCreator(db: Store, k: Id, creatorId: Option<Id>) returns (r: Result<(), DbError>)
    requires db.Valid() && DirectRoomsUnique(db.rooms) && k in db.rooms
    modifies db
    ensures db.Valid() && DirectRoomsUnique(db.rooms)
    ensures db.users == old(db.users) && db.messages == old(db.messages)
    ensures r.Failure? <==> creatorId.Some? && creatorId.value !in old(db.users)
    ensures r.Failure? ==> unchanged(db)
    ensures r.Success? ==>
              && db.rooms == old(db.rooms)[k := old(db.rooms)[k].(updatedAt := old(db.clock))]
              && db.memberships == old(db.memberships) + (if creatorId.Some? then {(creatorId.value, k)} else {})
  {
    if creatorId.Some? {
      var joined := db.FindOrCreateMembership(creatorId.value, k);
      if joined.Failure? {
        return Failure(joined.error);
      }
    }
    db.TouchRoom(k);
    r := Success(());
  }

  /** `POST /rooms/direct { userAId, userBId }`: two distinct ids are required; then the one
      direct room of the pair is found or created and both become members. Any store error
      answers `direct_failed`, leaving behind whatever `ensureDirectRoom` had already written. */
  method DirectRoom(db: Store, a: Option<Id>, b: Option<Id>) returns (r: Response<Room>)
    requires db.Valid() && DirectRoomsUnique(db.rooms)
    modifies db
    ensures db.Valid() && DirectRoomsUnique(db.rooms)
    ensures db.users == old(db.users) && db.messages == old(db.messages)
    ensures a.None? || b.None? || a.value == b.value ==> r == Error(400, InvalidUserIds) && unchanged(db)
    ensures a.Some? && b.Some? && a.value != b.value ==>
              var name := DirectName(a.value, b.value);
              && (HasDirectRoom(old(db.rooms), name) ==> db.rooms == old(db.rooms))
              && (!HasDirectRoom(old(db.rooms), name) && |name| <= MaxRoomName ==>
                    db.rooms == old(db.rooms)[old(db.nextId) := Room(old(db.nextId), name, false, old(db.clock), old(db.clock))])
              && (!DirectRoomReachable(old(db.rooms), name) ==> unchanged(db))
              && (DirectRoomReachable(old(db.rooms), name) ==>
                    && HasDirectRoom(db.rooms, name)
                    && var k := DirectRoomId(db.rooms, name);
                    db.memberships == old(db.memberships) + Joined(old(db.users), a.value, k) + Joined(old(db.users), b.value, k))
              && (r.Ok? <==> DirectRoomReachable(old(db.rooms), name) && a.value in old(db.users) && b.value in old(db.users))
              && (r.Error? ==> r == Error(500, DirectFailed))
              && (r.Ok? ==> && r.body.name == name && !r.body.isGroup
                            && r.body.id in db.rooms && r.body == db.rooms[r.body.id]
                            && db.memberships == old(db.memberships) + {(a.value, r.body.id), (b.value, r.body.id)})
  {
    if a.None? || b.None? || a.value == b.value {
      return Error(400, InvalidUserIds);
    }
    var room := EnsureDirectRoom(db, a.value, b.value);
    if room.Failure? {
      return Error(500, DirectFailed);
    }
    r := Ok(room.value);
  }

  /** The newest message of a room, `ORDER BY created_at DESC LIMIT 1`. */
  function Latest(msgs: seq<Message>, roomId: Id): (r: Option<Message>)
    ensures r.None? <==> forall i :: 0 <= i < |msgs| ==> msgs[i].roomId != roomId
    ensures r.Some? ==> r.value in msgs && r.value.roomId == roomId
    ensures r.Some? ==> forall i :: 0 <= i < |msgs| && msgs[i].roomId == roomId ==> msgs[i].createdAt <= r.value.createdAt
  {
    if msgs == [] then None
    else
      var rest := Latest(msgs[1..], roomId);
      assert forall i :: 1 <= i < |msgs| ==> msgs[i] == msgs[1..][i - 1];
      if msgs[0].roomId == roomId && (rest.None? || rest.value.createdAt <= msgs[0].createdAt) then Some(msgs[0])
      else rest
  }

  /** In a store whose messages are in time order, the newest message of a room is the last of
      the room's messages. */
  lemma LatestIsLastSent(msgs: seq<Message>, roomId: Id)
    requires Chronological(msgs) && InRoom(msgs, roomId) != []
    ensures var rs := InRoom(msgs, roomId); Latest(msgs, roomId) == Some(rs[|rs| - 1])
  {
    var rs := InRoom(msgs, roomId);
    LatestAtLeast(msgs, roomId, rs[|rs| - 1]);
    NoneLaterThanLast(rs, Latest(msgs, roomId).value);
  }

  /** No message of the room is later than its newest. */
  lemma LatestAtLeast(msgs: seq<Message>, roomId: Id, m: Message)
    requires m in msgs && m.roomId == roomId
    ensures Latest(msgs, roomId).Some? && m.createdAt <= Latest(msgs, roomId).value.createdAt
  {
    var i :| 0 <= i < |msgs| && msgs[i] == m;
  }

  /** In a sequence in time order only the last element is as late as the last. */
  lemma NoneLaterThanLast(rs: seq<Message>, m: Message)
    requires Chronological(rs) && m in rs && rs[|rs| - 1].createdAt <= m.createdAt
    ensures m == rs[|rs| - 1]
  {
    var j :| 0 <= j < |rs| && rs[j] == m;
    assert forall i :: 0 <= i < |rs| - 1 ==> rs[i].createdAt < rs[|rs| - 1].createdAt;
  }

  /** One element of the `GET /rooms/mine/:userId` reply: the room's own columns, its member
      count and its newest message, the last two null when looking them up failed. */
  datatype RoomSummary = RoomSummary(room: Room, members: Option<nat>, lastMessage: Option<MessageSummary>)

  function LastMessageOf(db: Store, roomId: Id): Option<MessageSummary>
    reads db
  {
    match Latest(db.messages, roomId)
    case None => None
    case Some(m) => Some(SummaryOf(ViewOf(db.users, m)))
  }

  /** The enrichment of one room; `failing` holds the rooms whose count or newest-message
      query raises, which the handler catches room by room. */
  function Summarize(db: Store, roomId: Id, failing: set<Id>): RoomSummary
    reads db
    requires roomId in db.rooms
  {
    if roomId in failing then RoomSummary(db.rooms[roomId], None, None)
    else RoomSummary(db.rooms[roomId], Some(|MembersOf(db.memberships, roomId)|), LastMessageOf(db, roomId))
  }

  /** A non-empty set of rooms has one updated no earlier than the others. */
  lemma {:induction false} FreshestExists(rooms: map<Id, Room>, left: set<Id>)
    requires left != {} && left <= rooms.Keys
    ensures exists k :: k in left && forall j :: j in left ==> rooms[j].updatedAt <= rooms[k].updatedAt
    decreases |left|
  {
    var x :| x in left;
    if left != {x} {
      FreshestExists(rooms, left - {x});
      var k :| k in left - {x} && forall j :: j in left - {x} ==> rooms[j].updatedAt <= rooms[k].updatedAt;
      if rooms[x].updatedAt > rooms[k].updatedAt {
        assert forall j :: j in left ==> rooms[j].updatedAt <= rooms[x].updatedAt;
      } else {
        assert forall j :: j in left ==> rooms[j].updatedAt <= rooms[k].updatedAt;
      }
    } else {
      assert forall j :: j in left ==> j == x;
    }
  }

  /** `GET /rooms/mine/:userId`: every room the user is a member of, once each, most recently
      updated first (rooms updated at the same moment in no particular order), each with its
      member count and newest message; a room whose enrichment fails still appears, with both
      null. It writes nothing. */
  method ListMine(db: Store, userId: Option<Id>, failing: set<Id>) returns (rs: seq<RoomSummary>)
    requires db.Valid()
    ensures userId.None? ==> rs == []
    ensures userId.Some? ==> forall k :: (exists i :: 0 <= i < |rs| && rs[i].room.id == k) <==> k in GetUserRooms(db, userId.value)
    ensures forall i :: 0 <= i < |rs| ==> rs[i].room.id in db.rooms && rs[i] == Summarize(db, rs[i].room.id, failing)
    ensures forall i, j :: 0 <= i < j < |rs| ==> rs[i].room.id != rs[j].room.id
    ensures forall i, j :: 0 <= i < j < |rs| ==> rs[i].room.updatedAt >= rs[j].room.updatedAt
  {
    if userId.None? {
      return [];
    }
    var mine := GetUserRooms(db, userId.value);
    var order := ByRecency(db.rooms, mine);
    rs := seq(|order|, i requires 0 <= i < |order| && order[i] in db.rooms reads db => Summarize(db, order[i], failing));
    assert forall i :: 0 <= i < |rs| ==> rs[i].room.id == order[i];
  }

  /** `order: [["updated_at", "DESC"]]` on the rooms `ids`: each listed once, most recently
      updated first. */
  method ByRecency(rooms: map<Id, Room>, ids: set<Id>) returns (order: seq<Id>)
    requires ids <= rooms.Keys
    ensures forall i :: 0 <= i < |order| ==> order[i] in ids
    ensures forall k :: k in order <==> k in ids
    ensures forall i, j :: 0 <= i < j < |order| ==> order[i] != order[j]
    ensures forall i, j :: 0 <= i < j < |order| ==> rooms[order[i]].updatedAt >= rooms[order[j]].updatedAt
  {
    order := [];
    var left := ids;
    while left != {}
      invariant left <= ids
      invariant forall i :: 0 <= i < |order| ==> order[i] in ids
      invariant forall k :: k in order <==> k in ids - left
      invariant forall i, j :: 0 <= i < j < |order| ==> order[i] != order[j]
      invariant forall i, j :: 0 <= i < j < |order| ==> rooms[order[i]].updatedAt >= rooms[order[j]].updatedAt
      invariant forall i, k :: 0 <= i < |order| && k in left ==> rooms[k].updatedAt <= rooms[order[i]].updatedAt
      decreases |left|
    {
      FreshestExists(rooms, left);
      var k :| k in left && forall j :: j in left ==> rooms[j].updatedAt <= rooms[k].updatedAt;
      assert k !in order;
      order := order + [k];
      left := left - {k};
    }
  }

  /** Non-empty, as JavaScript's truthiness asks of a string. */
  predicate Given(s: Option<string>) {
    s.Some? && s.value != ""
  }

  /** The user `POST /rooms/:roomId/invite` invites: looked up by id when an id is given, even
      if a username is given too, otherwise by username. */
  ghost function Invitee(users: map<Id, User>, username: Option<string>, userId: Option<Id>): (u: Option<User>)
    ensures userId.Some? ==> u == (if userId.value in users then Some(users[userId.value]) else None)
    ensures userId.None? ==> (u.Some? <==> Given(username) && UsernameTaken(users, username.value))
    ensures userId.None? && u.Some? ==> u.value.username == username.value && u.value in users.Values
  {
    if userId.Some? then (if userId.value in users then Some(users[userId.value]) else None)
    else if Given(username) && UsernameTaken(users, username.value) then
      var k :| k in users && users[k].username == username.value; Some(users[k])
    else None
  }

  /** With usernames unique, as the store keeps them, the lookup by name finds the one user of
      that name. */
  lemma InviteeByName(users: map<Id, User>, name: string, u: User)
    requires forall j, k :: j in users && k in users && j != k ==> users[j].username != users[k].username
    requires u in users.Values && u.username == name && name != ""
    ensures Invitee(users, Some(name), None) == Some(u)
  {
    var k :| k in users && users[k] == u;
  }

  /** An id wins over a username: an unknown id finds nobody even when the username names a
      user who would have been found without it. */
  lemma InviteeIdWins(users: map<Id, User>, name: string, id: Id)
    requires id !in users && name != "" && UsernameTaken(users, name)
    ensures Invitee(users, Some(name), Some(id)) == None
    ensures Invitee(users, Some(name), None).Some?
  {
  }

  /** `POST /rooms/:roomId/invite { username, userId }`: the invitee becomes a member, a system
      message "<username> joined" is recorded, the room is bumped, the sockets already in the
      room hear `user_joined_room`, and only then does every socket of the invitee join the
      room. Any room will do, direct rooms included. A room that does not exist fails the
      membership insert before anything changes. */
  method Invite(server: ChatServer, roomId: Option<Id>, username: Option<string>, userId: Option<Id>)
    returns (r: Response<UserRef>)
    requires server.Valid()
    modifies server, server.db
    ensures server.Valid()
    ensures server.session == old(server.session) && server.socketUser == old(server.socketUser)
    ensures server.db.users == old(server.db.users)
    ensures roomId.None? ==> r == Error(400, RoomRequired) && unchanged(server) && unchanged(server.db)
    ensures roomId.Some? && !Given(username) && userId.None? ==>
              r == Error(400, UserRequired) && unchanged(server) && unchanged(server.db)
    ensures roomId.Some? && (Given(username) || userId.Some?) ==>
              var invitee := Invitee(old(server.db.users), username, userId);
              var k := roomId.value;
              && (invitee.None? ==> r == Error(404, UserNotFound) && unchanged(server) && unchanged(server.db))
              && (invitee.Some? && k !in old(server.db.rooms) ==>
                    r == Error(500, InviteFailed) && unchanged(server) && unchanged(server.db))
              && (invitee.Some? && k in old(server.db.rooms) ==>
                    var who := UserRef(invitee.value.id, invitee.value.username);
                    && r == Ok(who)
                    && server.db.memberships == old(server.db.memberships) + {(who.id, k)}
                    && server.db.messages == old(server.db.messages)
                         + [Message(old(server.db.nextId), k, None, who.username + " joined", System,
                                    Some(Meta(InviteJoin, who)), old(server.db.clock))]
                    && server.db.rooms == old(server.db.rooms)[k := old(server.db.rooms)[k].(updatedAt := old(server.db.clock) + 1)]
                    && server.outbox == old(server.outbox) + [Emit(Subscribers(old(server.subscriptions), k), UserJoinedRoom(k, who))]
                    && server.subscriptions == old(server.subscriptions) + Joining(ConnsOf(server.session, who.id), k))
  {
    if roomId.None? {
      return Error(400, RoomRequired);
    }
    if !Given(username) && userId.None? {
      return Error(400, UserRequired);
    }
    var user := FindInvitee(server.db, username, userId);
    if user.None? {
      return Error(404, UserNotFound);
    }
    r := InviteUser(server, roomId.value, UserRef(user.value.id, user.value.username));
  }

  /** The lookup `POST /rooms/:roomId/invite` makes; it writes nothing. */
  method FindInvitee(db: Store, username: Option<string>, userId: Option<Id>) returns (user: Option<User>)
    requires db.Valid() && (Given(username) || userId.Some?)
    ensures user == Invitee(db.users, username, userId)
    ensures user.Some? ==> user.value.id in db.users && db.users[user.value.id] == user.value
  {
    if userId.Some? {
      user := if userId.value in db.users then Some(db.users[userId.value]) else None;
    } else {
      user := db.FindUserByName(username.value);
    }
  }

  /** The writes and events of `POST /rooms/:roomId/invite` once the invitee is known. */
  method InviteUser(server: ChatServer, k: Id, who: UserRef) returns (r: Response<UserRef>)
    requires server.Valid() && who.id in server.db.users
    modifies server, server.db
    ensures server.Valid()
    ensures server.session == old(server.session) && server.socketUser == old(server.socketUser)
    ensures server.db.users == old(server.db.users)
    ensures k !in old(server.db.rooms) ==> r == Error(500, InviteFailed) && unchanged(server) && unchanged(server.db)
    ensures k in old(server.db.rooms) ==>
              && r == Ok(who)
              && server.db.memberships == old(server.db.memberships) + {(who.id, k)}
              && server.db.messages == old(server.db.messages)
                   + [Message(old(server.db.nextId), k, None, who.username + " joined", System,
                              Some(Meta(InviteJoin, who)), old(server.db.clock))]
              && server.db.rooms == old(server.db.rooms)[k := old(server.db.rooms)[k].(updatedAt := old(server.db.clock) + 1)]
              && server.outbox == old(server.outbox) + [Emit(Subscribers(old(server.subscriptions), k), UserJoinedRoom(k, who))]
              && server.subscriptions == old(server.subscriptions) + Joining(ConnsOf(server.session, who.id), k)
  {
    var db := server.db;
    var joined := db.FindOrCreateMembership(who.id, k);
    if joined.Failure? {
      return Error(500, InviteFailed);
    }
    RecordJoin(db, k, who);
    server.outbox := server.outbox + [Emit(Subscribers(server.subscriptions, k), UserJoinedRoom(k, who))];
    server.JoinUser(who.id, k);
    r := Ok(who);
  }

  /** The two writes of an invitation after the membership: the system message
      "<username> joined" of kind `invite_join`, then the bump of the room's `updated_at`. */
  method RecordJoin(db: Store, k: Id, who: UserRef)
    requires db.Valid() && DirectRoomsUnique(db.rooms) && k in db.rooms
    modifies db
    ensures db.Valid() && DirectRoomsUnique(db.rooms)
    ensures db.messages == old(db.messages)
              + [Message(old(db.nextId), k, None, who.username + " joined", System,
                         Some(Meta(InviteJoin, who)), old(db.clock))]
    ensures db.rooms == old(db.rooms)[k := old(db.rooms)[k].(updatedAt := old(db.clock) + 1)]
    ensures db.users == old(db.users) && db.memberships == old(db.memberships)
  {
    var logged := db.CreateMessage(k, None, who.username + " joined", System, Some(Meta(InviteJoin, who)));
    db.TouchRoom(k);
  }
}
