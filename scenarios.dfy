/** Properties that need two calls in a row, stated as client methods of the model. */
module Scenarios {
  import opened Base
  import opened Models
  import opened RoomService
  import opened Chat

  /** `ensureDirectRoom(a, b)` then `ensureDirectRoom(b, a)` resolve the same room, and the
      second call creates no room and no membership. */
  method DirectRoomIsShared(db: Store, a: Id, b: Id) returns (first: Result<Room, DbError>, second: Result<Room, DbError>)
    requires db.Valid() && DirectRoomsUnique(db.rooms)
    requires a in db.users && b in db.users && |DirectName(a, b)| <= MaxRoomName
    modifies db
    ensures first.Success? && second == first && !first.value.isGroup
    ensures (a, first.value.id) in db.memberships && (b, first.value.id) in db.memberships
    ensures db.rooms.Keys <= old(db.rooms.Keys) + {old(db.nextId)}
  {
    first := EnsureDirectRoom(db, a, b);
    ghost var afterFirst := db.memberships;
    DirectNameSymmetric(a, b);
    second := EnsureDirectRoom(db, b, a);
    assert db.memberships == afterFirst;
  }

  /** A second `join_room` of the same socket and room leaves memberships and subscriptions as
      the first left them; only another `chat_history` is sent. */
  method JoinTwice(server: ChatServer, conn: ConnId, roomId: Id) returns (once: Ack, twice: Ack)
    requires server.Valid() && conn in server.session && roomId in server.db.rooms
    modifies server, server.db
    ensures once == Done && twice == Done
    ensures server.db.memberships == old(server.db.memberships) + {(old(server.session)[conn], roomId)}
    ensures server.subscriptions == old(server.subscriptions) + {(conn, roomId)}
    ensures |server.outbox| == |old(server.outbox)| + 2
  {
    once := server.JoinRoom(conn, roomId);
    twice := server.JoinRoom(conn, roomId);
  }

  /** `disconnect` marks the user offline although another socket of theirs is still in the
      session. */
  method OtherTabStaysRegistered(server: ChatServer, conn: ConnId, other: ConnId)
    requires server.Valid() && conn != other && conn in server.session && other in server.session
    requires server.session[conn] == server.session[other]
    modifies server, server.db
    ensures other in server.session && server.session[other] in server.db.users
    ensures !server.db.users[server.session[other]].isOnline
  {
    server.Disconnect(conn);
  }

  /** A socket that registers as a known user and then again without an id, under a fresh
      (already trimmed) name, is bound to the new user in the session while `socket.data.userId` still names the
      first: `leave_room` then acts for the first user and `send_message` posts as the second. */
  method ActingUserCanDifferFromSession(server: ChatServer, conn: ConnId, x: Id, name: string)
    returns (first: Ack, second: Ack)
    requires server.Valid() && x in server.db.users
    requires UsernameFits(name) && !UsernameTaken(server.db.users, name)
    modifies server, server.db
    ensures first == Registered(old(server.db.users)[x]) && second.Registered?
    ensures ActingUser(server.socketUser, server.session, conn) == Some(x)
    ensures conn in server.session && server.session[conn] != x
  {
    first := server.RegisterKnown(conn, x);
    assert server.db.users.Keys == old(server.db.users.Keys);
    assert forall k :: k in server.db.users ==> server.db.users[k].username == old(server.db.users)[k].username;
    second := server.RegisterNew(conn, name);
  }
}
