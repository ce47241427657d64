/** backend/src/sockets/chat.js: the socket.io handlers of one chat server. The server keeps the
    `session` map from socket id to user id, each socket's own `socket.data.userId`, the
    socket.io rooms each socket has joined, and the events it has emitted so far. */
module Chat {
  import opened Base
  import opened Text
  import opened Models
  import opened UserService
  import opened RoomService
  import opened MessageService

  /** One entry of the `chat_history` payload. */
  datatype HistoryEntry = HistoryEntry(id: Id, content: string, createdAt: nat,
                                       sender: Option<UserRef>, kind: Option<MetaKind>)

  /** The events the server emits. */
  datatype Event =
    | ChatHistory(roomId: Id, history: seq<HistoryEntry>)
    | ReceiveMessage(roomId: Id, message: MessageSummary)
    | UserJoinedRoom(roomId: Id, user: UserRef)
    | UserLeftRoom(roomId: Id, user: UserRef)

  /** An event delivered to a set of sockets. */
  datatype Emit = Emit(to: set<ConnId>, event: Event)

  datatype ErrorCode = NotRegistered | InvalidUserId | UsernameRequired | RegisterFailed
                     | LeaveRoomFailed | BadRequest

  /** The `error` string an acknowledgement carries. */
  function Wire(c: ErrorCode): string {
    match c
    case NotRegistered => "not_registered"
    case InvalidUserId => "invalid_user_id"
    case UsernameRequired => "username_required"
    case RegisterFailed => "register_failed"
    case LeaveRoomFailed => "leave_room_failed"
    case BadRequest => "bad_request"
  }

  /** What a handler acknowledges: nothing at all (`NoReply`, when the handler's promise
      rejects outside any `try`), `{ ok: false, error }`, or one of the `{ ok: true, ... }`
      replies. */
  datatype Ack =
    | NoReply
    | Fail(code: ErrorCode)
    | Done
    | Registered(user: User)
    | Left(result: RemoveResult)
    | Sent(message: MessageSummary)

  /** The `(socket, room)` pairs of `socket.join` for every room in `rooms`. */
  function Tagged(conn: ConnId, rooms: set<Id>): (t: set<(ConnId, Id)>)
    ensures forall p :: p in t <==> p.0 == conn && p.1 in rooms
  {
    set r | r in rooms :: (conn, r)
  }

  /** The sockets `io.to(roomId)` reaches. */
  function Subscribers(subscriptions: set<(ConnId, Id)>, roomId: Id): (cs: set<ConnId>)
    ensures forall c :: c in cs <==> (c, roomId) in subscriptions
  {
    set p | p in subscriptions && p.1 == roomId :: p.0
  }

  /** The `(socket, room)` pairs of `s.join(roomId)` for every socket in `conns`. */
  function Joining(conns: set<ConnId>, roomId: Id): (t: set<(ConnId, Id)>)
    ensures forall p :: p in t <==> p.0 in conns && p.1 == roomId
  {
    set c | c in conns :: (c, roomId)
  }

  /** The sockets the session binds to user `u`. */
  function ConnsOf(session: map<ConnId, Id>, u: Id): (cs: set<ConnId>)
    ensures forall c :: c in cs <==> c in session && session[c] == u
  {
    set c | c in session && session[c] == u
  }

  /** The subscriptions that survive `conn` closing. */
  function Without(subscriptions: set<(ConnId, Id)>, conn: ConnId): (rest: set<(ConnId, Id)>)
    ensures forall p :: p in rest <==> p in subscriptions && p.0 != conn
  {
    set p | p in subscriptions && p.0 != conn
  }

  /** `socket.data.userId ?? session.get(socket.id)`: the socket's own id wins over the
      session's, and either is enough to count as registered. */
  function ActingUser(socketUser: map<ConnId, Id>, session: map<ConnId, Id>, conn: ConnId): (u: Option<Id>)
    ensures u.None? <==> conn !in socketUser && conn !in session
    ensures conn in socketUser ==> u == Some(socketUser[conn])
    ensures conn !in socketUser && conn in session ==> u == Some(session[conn])
  {
    if conn in socketUser then Some(socketUser[conn])
    else if conn in session then Some(session[conn])
    else None
  }

  /** `socket.join` for every room in `rooms` makes those rooms reach `conn` and changes no
      other room's audience. */
  lemma SubscribersAfterRegister(subscriptions: set<(ConnId, Id)>, conn: ConnId, rooms: set<Id>, roomId: Id)
    ensures Subscribers(subscriptions + Tagged(conn, rooms), roomId)
            == if roomId in rooms then Subscribers(subscriptions, roomId) + {conn}
               else Subscribers(subscriptions, roomId)
  {
  }

  /** `socket.leave(roomId)` stops that room reaching the socket and changes nothing else a
      room reaches. */
  lemma SubscribersAfterLeave(subscriptions: set<(ConnId, Id)>, conn: ConnId, roomId: Id, other: Id)
    requires other != roomId
    ensures Subscribers(subscriptions - {(conn, roomId)}, roomId) == Subscribers(subscriptions, roomId) - {conn}
    ensures Subscribers(subscriptions - {(conn, roomId)}, other) == Subscribers(subscriptions, other)
  {
  }

  /** `s.join(roomId)` for the sockets `conns` adds exactly them to that room's audience and
      changes no other room's. */
  lemma SubscribersAfterJoin(subscriptions: set<(ConnId, Id)>, conns: set<ConnId>, roomId: Id, other: Id)
    requires other != roomId
    ensures Subscribers(subscriptions + Joining(conns, roomId), roomId) == Subscribers(subscriptions, roomId) + conns
    ensures Subscribers(subscriptions + Joining(conns, roomId), other) == Subscribers(subscriptions, other)
  {
  }

  /** A socket that closed is reached by no room any more; every other socket still is. */
  lemma SubscribersAfterClose(subscriptions: set<(ConnId, Id)>, conn: ConnId, roomId: Id)
    ensures Subscribers(Without(subscriptions, conn), roomId) == Subscribers(subscriptions, roomId) - {conn}
    ensures forall p :: p in Without(subscriptions, conn) ==> p.0 != conn
  {
  }

  /** Binding a socket to a user adds it to that user's sockets and takes it out of any other
      user's; `session.delete` takes it out of all of them. */
  lemma ConnsOfChange(session: map<ConnId, Id>, conn: ConnId, u: Id, v: Id)
    requires v != u
    ensures ConnsOf(session[conn := u], u) == ConnsOf(session, u) + {conn}
    ensures ConnsOf(session[conn := u], v) == ConnsOf(session, v) - {conn}
    ensures ConnsOf(session - {conn}, u) == ConnsOf(session, u) - {conn}
  {
  }

  /** While `socket.data.userId` is only set together with a session entry, as the server
      keeps it, `leave_room` counts a socket as registered exactly when the session has it. */
  lemma ActingUserRegistered(socketUser: map<ConnId, Id>, session: map<ConnId, Id>, conn: ConnId)
    requires socketUser.Keys <= session.Keys
    ensures ActingUser(socketUser, session, conn).Some? <==> conn in session
  {
  }

  function HistoryEntryOf(v: MessageView): HistoryEntry {
    HistoryEntry(v.id, v.content, v.createdAt, v.sender,
                 if v.meta.Some? then Some(v.meta.value.kind) else None)
  }

  /** `history.map(...)`: one entry per message, in the same order. */
  function HistoryOf(vs: seq<MessageView>): (hs: seq<HistoryEntry>)
    ensures |hs| == |vs|
    ensures forall i :: 0 <= i < |vs| ==> hs[i] == HistoryEntryOf(vs[i])
  {
    seq(|vs|, i requires 0 <= i < |vs| => HistoryEntryOf(vs[i]))
  }

  /** The size of the history `join_room` sends. */
  const HistoryLimit: nat := 50

  /** The `chat_history` of `join_room`: at most `HistoryLimit` entries, oldest first, each
      one a stored message of that room. */
  lemma JoinHistory(db: Store, roomId: Id)
    ensures var hs := HistoryOf(GetRecentMessages(db, roomId, HistoryLimit));
            && |hs| <= HistoryLimit
            && (forall i, j :: 0 <= i < j < |hs| ==> hs[i].createdAt <= hs[j].createdAt)
            && (forall i :: 0 <= i < |hs| ==> exists m :: m in db.messages && m.roomId == roomId && m.id == hs[i].id)
  {
    var rs := Recent(db.messages, roomId, HistoryLimit);
    var hs := HistoryOf(GetRecentMessages(db, roomId, HistoryLimit));
    forall i | 0 <= i < |hs|
      ensures exists m :: m in db.messages && m.roomId == roomId && m.id == hs[i].id
    {
      assert rs[i] in db.messages && rs[i].roomId == roomId && rs[i].id == hs[i].id;
    }
  }

  class ChatServer {
    const db: Store
    /** `session`: socket id to user id. */
    var session: map<ConnId, Id>
    /** `socket.data.userId` of each socket that has one. */
    var socketUser: map<ConnId, Id>
    /** The socket.io rooms, as (socket, room id) pairs. */
    var subscriptions: set<(ConnId, Id)>
    /** Every event emitted, oldest first. */
    var outbox: seq<Emit>

    /** Every registered socket names an existing user, and `socket.data.userId` is only ever
        set together with a session entry. */
    ghost predicate Valid()
      reads this, db
    {
      && db.Valid() && DirectRoomsUnique(db.rooms)
      && (forall c :: c in session ==> session[c] in db.users)
      && (forall c :: c in socketUser ==> c in session && socketUser[c] in db.users)
    }

    constructor (db: Store)
      requires db.Valid() && DirectRoomsUnique(db.rooms)
      ensures Valid() && this.db == db
      ensures session == map[] && socketUser == map[] && subscriptions == {} && outbox == []
    {
      this.db := db;
      session, socketUser, subscriptions, outbox := map[], map[], {}, [];
    }

    /** `rooms.forEach((r) => socket.join(r.id))`. */
    method JoinAll(conn: ConnId, rooms: set<Id>)
      modifies this
      ensures subscriptions == old(subscriptions) + Tagged(conn, rooms)
      ensures session == old(session) && socketUser == old(socketUser) && outbox == old(outbox)
    {
      var rest := rooms;
      while rest != {}
        invariant rest <= rooms
        invariant subscriptions == old(subscriptions) + Tagged(conn, rooms - rest)
        invariant session == old(session) && socketUser == old(socketUser) && outbox == old(outbox)
        decreases |rest|
      {
        var r :| r in rest;
        subscriptions := subscriptions + {(conn, r)};
        rest := rest - {r};
      }
    }

    /** `for (const [sid, uid] of session.entries()) if (uid === userId) ... s.join(roomId)`:
        every socket the session binds to the user joins the room. */
    method JoinUser(userId: Id, roomId: Id)
      modifies this
      ensures subscriptions == old(subscriptions) + Joining(ConnsOf(session, userId), roomId)
      ensures session == old(session) && socketUser == old(socketUser) && outbox == old(outbox)
    {
      var entries := session.Keys;
      while entries != {}
        invariant entries <= session.Keys
        invariant subscriptions == old(subscriptions) + Joining(ConnsOf(session, userId) - entries, roomId)
        invariant session == old(session) && socketUser == old(socketUser) && outbox == old(outbox)
        decreases |entries|
      {
        var c :| c in entries;
        if session[c] == userId {
          subscriptions := subscriptions + {(c, roomId)};
        }
        entries := entries - {c};
      }
    }

    /** `register_user({ userId, username })`. A claimed id must exist: the socket is then bound
        to that user, who is marked online and joins every room they belong to. A claimed id
        that does not exist is refused and never falls back to a new account. Without an id the
        trimmed username needs at least three characters, and a new user is created, put in
        the session (but not in `socket.data`) and marked online. The acknowledged user record
        is the one read before `setOnline` ran. */
    method RegisterUser(conn: ConnId, userId: Option<Id>, username: Option<string>) returns (ack: Ack)
      requires Valid()
      modifies this, db
      ensures Valid()
      ensures outbox == old(outbox)
      ensures db.rooms == old(db.rooms) && db.memberships == old(db.memberships)
      ensures db.messages == old(db.messages)
      ensures userId.Some? && userId.value in old(db.users) ==>
                var id := userId.value;
                && ack == Registered(old(db.users)[id])
                && session == old(session)[conn := id] && socketUser == old(socketUser)[conn := id]
                && subscriptions == old(subscriptions) + Tagged(conn, old(GetUserRooms(db, id)))
                && db.users == old(db.users)[id := old(db.users)[id].(isOnline := true)]
      ensures userId.Some? && userId.value !in old(db.users) ==>
                ack == Fail(InvalidUserId) && unchanged(this) && unchanged(db)
      ensures userId.None? ==>
                var name := Trim(username.GetOr(""));
                && (|name| < MinUsername ==> ack == Fail(UsernameRequired) && unchanged(this) && unchanged(db))
                && (MinUsername <= |name| && (!UsernameFits(name) || UsernameTaken(old(db.users), name)) ==>
                      ack == Fail(RegisterFailed) && unchanged(this) && unchanged(db))
                && (UsernameFits(name) && !UsernameTaken(old(db.users), name) ==>
                      && ack == Registered(User(old(db.nextId), name, false))
                      && session == old(session)[conn := old(db.nextId)]
                      && socketUser == old(socketUser) && subscriptions == old(subscriptions)
                      && db.users == old(db.users)[old(db.nextId) := User(old(db.nextId), name, true)])
    {
      if userId.Some? {
        if userId.value !in db.users {
          return Fail(InvalidUserId);
        }
        ack := RegisterKnown(conn, userId.value);
      } else {
        ack := RegisterNew(conn, Trim(username.GetOr("")));
      }
    }

    /** `register_user` for a claimed id the store knows. */
    method RegisterKnown(conn: ConnId, id: Id) returns (ack: Ack)
      requires Valid() && id in db.users
      modifies this, db
      ensures Valid()
      ensures outbox == old(outbox)
      ensures db.rooms == old(db.rooms) && db.memberships == old(db.memberships)
      ensures db.messages == old(db.messages)
      ensures ack == Registered(old(db.users)[id])
      ensures session == old(session)[conn := id] && socketUser == old(socketUser)[conn := id]
      ensures subscriptions == old(subscriptions) + Tagged(conn, old(GetUserRooms(db, id)))
      ensures db.users == old(db.users)[id := old(db.users)[id].(isOnline := true)]
    {
      var existing := db.users[id];
      socketUser := socketUser[conn := id];
      session := session[conn := id];
      SetOnline(db, id, true);
      var rooms := GetUserRooms(db, id);
      JoinAll(conn, rooms);
      ack := Registered(existing);
    }

    /** `register_user` without an id, given the trimmed username. */
    method RegisterNew(conn: ConnId, name: string) returns (ack: Ack)
      requires Valid()
      modifies this, db
      ensures Valid()
      ensures outbox == old(outbox)
      ensures db.rooms == old(db.rooms) && db.memberships == old(db.memberships)
      ensures db.messages == old(db.messages)
      ensures |name| < MinUsername ==> ack == Fail(UsernameRequired) && unchanged(this) && unchanged(db)
      ensures MinUsername <= |name| && (!UsernameFits(name) || UsernameTaken(old(db.users), name)) ==>
                ack == Fail(RegisterFailed) && unchanged(this) && unchanged(db)
      ensures UsernameFits(name) && !UsernameTaken(old(db.users), name) ==>
                && ack == Registered(User(old(db.nextId), name, false))
                && session == old(session)[conn := old(db.nextId)]
                && socketUser == old(socketUser) && subscriptions == old(subscriptions)
                && db.users == old(db.users)[old(db.nextId) := User(old(db.nextId), name, true)]
    {
      if |name| < MinUsername {
        return Fail(UsernameRequired);
      }
      var created := db.CreateUser(name);
      if created.Failure? {
        return Fail(RegisterFailed);
      }
      session := session[conn := created.value.id];
      SetOnline(db, created.value.id, true);
      ack := Registered(created.value);
    }

    /** `join_room({ roomId })`: a registered socket's user becomes a member (idempotently),
        the socket joins the room and receives the room's history; no one else hears of it.
        A room that does not exist makes `addUserToRoom` reject, and the handler then never
        acknowledges. */
    method JoinRoom(conn: ConnId, roomId: Id) returns (ack: Ack)
      requires Valid()
      modifies this, db
      ensures Valid()
      ensures session == old(session) && socketUser == old(socketUser)
      ensures db.users == old(db.users) && db.rooms == old(db.rooms) && db.messages == old(db.messages)
      ensures conn !in old(session) ==> ack == Fail(NotRegistered) && unchanged(this) && unchanged(db)
      ensures conn in old(session) && roomId !in old(db.rooms) ==>
                ack == NoReply && unchanged(this) && unchanged(db)
      ensures conn in old(session) && roomId in old(db.rooms) ==>
                && ack == Done
                && db.memberships == old(db.memberships) + {(old(session)[conn], roomId)}
                && subscriptions == old(subscriptions) + {(conn, roomId)}
                && outbox == old(outbox) + [Emit({conn}, ChatHistory(roomId, HistoryOf(GetRecentMessages(db, roomId, HistoryLimit))))]
    {
      if conn !in session {
        return Fail(NotRegistered);
      }
      var added := AddUserToRoom(db, session[conn], roomId);
      if added.Failure? {
        return NoReply;
      }
      SendHistory(conn, roomId);
      ack := Done;
    }

    /** The end of `join_room`: `socket.join(roomId)`, then `chat_history` to that socket. */
    method SendHistory(conn: ConnId, roomId: Id)
      requires Valid()
      modifies this
      ensures Valid()
      ensures session == old(session) && socketUser == old(socketUser)
      ensures subscriptions == old(subscriptions) + {(conn, roomId)}
      ensures outbox == old(outbox) + [Emit({conn}, ChatHistory(roomId, HistoryOf(GetRecentMessages(db, roomId, HistoryLimit))))]
    {
      subscriptions := subscriptions + {(conn, roomId)};
      var history := GetRecentMessages(db, roomId, HistoryLimit);
      outbox := outbox + [Emit({conn}, ChatHistory(roomId, HistoryOf(history)))];
    }

    /** `switch_room({ roomId })`: the socket stops listening to the room and nothing else
        changes; the membership stays, and no registration is asked for. */
    method SwitchRoom(conn: ConnId, roomId: Id) returns (ack: Ack)
      requires Valid()
      modifies this
      ensures Valid()
      ensures ack == Done
      ensures subscriptions == old(subscriptions) - {(conn, roomId)}
      ensures session == old(session) && socketUser == old(socketUser) && outbox == old(outbox)
    {
      subscriptions := subscriptions - {(conn, roomId)};
      ack := Done;
    }

    /** `leave_room({ roomId })`: records a system message "<username> left" in the room, then
        removes the membership, deleting the room if it is a group nobody is left in; the
        socket leaves the room and, unless the room was deleted, the other sockets in it hear
        `user_left_room`. A room that does not exist fails the message insert before anything
        changes. */
    method LeaveRoom(conn: ConnId, roomId: Id) returns (ack: Ack)
      requires Valid()
      modifies this, db
      ensures Valid()
      ensures session == old(session) && socketUser == old(socketUser) && db.users == old(db.users)
      ensures ActingUser(old(socketUser), old(session), conn).None? ==>
                ack == Fail(NotRegistered) && unchanged(this) && unchanged(db)
      ensures ActingUser(old(socketUser), old(session), conn).Some? && roomId !in old(db.rooms) ==>
                ack == Fail(LeaveRoomFailed) && unchanged(this) && unchanged(db)
      ensures ActingUser(old(socketUser), old(session), conn).Some? && roomId in old(db.rooms) ==>
                var u := ActingUser(old(socketUser), old(session), conn).value;
                var who := UserRef(u, db.users[u].username);
                && db.messages == old(db.messages) + [Message(old(db.nextId), roomId, None, who.username + " left",
                                                              System, Some(Meta(Leave, who)), old(db.clock))]
                && db.memberships == old(db.memberships) - {(u, roomId)}
                && ack == Left(Removal(old(db.rooms), db.memberships, roomId, true, true))
                && db.rooms == (if ack.result.roomDeleted then old(db.rooms) - {roomId} else old(db.rooms))
                && subscriptions == old(subscriptions) - {(conn, roomId)}
                && outbox == old(outbox) + (if ack.result.roomDeleted then []
                                            else [Emit(Subscribers(subscriptions, roomId) - {conn}, UserLeftRoom(roomId, who))])
    {
      var acting := ActingUser(socketUser, session, conn);
      if acting.None? {
        return Fail(NotRegistered);
      }
      var u := acting.value;
      var who := UserRef(u, db.users[u].username);
      var logged := db.CreateMessage(roomId, None, who.username + " left", System, Some(Meta(Leave, who)));
      if logged.Failure? {
        return Fail(LeaveRoomFailed);
      }
      var result := RemoveUserFromRoom(db, u, roomId, true, true);
      subscriptions := subscriptions - {(conn, roomId)};
      if !result.roomDeleted {
        outbox := outbox + [Emit(Subscribers(subscriptions, roomId) - {conn}, UserLeftRoom(roomId, who))];
      }
      ack := Left(result);
    }

    /** `send_message({ roomId, content })`: only the session counts as registration, and the
        trimmed content must not be empty. The message is stored with the trimmed content and
        broadcast to every socket in the room, the sender's own included. Membership is not
        checked; a room that does not exist makes `createMessage` reject and the handler then
        never acknowledges. */
    method SendMessage(conn: ConnId, roomId: Option<Id>, content: Option<string>) returns (ack: Ack)
      requires Valid()
      modifies this, db
      ensures Valid()
      ensures session == old(session) && socketUser == old(socketUser) && subscriptions == old(subscriptions)
      ensures db.users == old(db.users) && db.rooms == old(db.rooms) && db.memberships == old(db.memberships)
      ensures conn !in old(session) || roomId.None? || content.None? || Trim(content.value) == [] ==>
                ack == Fail(BadRequest) && unchanged(this) && unchanged(db)
      ensures conn in old(session) && roomId.Some? && content.Some? && Trim(content.value) != [] ==>
                && (roomId.value !in old(db.rooms) ==> ack == NoReply && unchanged(this) && unchanged(db))
                && (roomId.value in old(db.rooms) ==>
                      var u := old(session)[conn];
                      var text := Trim(content.value);
                      && db.messages == old(db.messages) + [Message(old(db.nextId), roomId.value, Some(u), text,
                                                                    Text, None, old(db.clock))]
                      && ack == Sent(MessageSummary(old(db.nextId), text, old(db.clock),
                                                    Some(UserRef(u, db.users[u].username))))
                      && outbox == old(outbox) + [Emit(Subscribers(subscriptions, roomId.value),
                                                       ReceiveMessage(roomId.value, ack.message))])
    {
      if conn !in session || roomId.None? || content.None? || Trim(content.value) == [] {
        return Fail(BadRequest);
      }
      ack := Post(session[conn], roomId.value, Trim(content.value));
    }

    /** The part of `send_message` after validation: user `u` posts `text` to the room. */
    method Post(u: Id, roomId: Id, text: string) returns (ack: Ack)
      requires Valid() && u in db.users
      modifies this, db
      ensures Valid()
      ensures session == old(session) && socketUser == old(socketUser) && subscriptions == old(subscriptions)
      ensures db.users == old(db.users) && db.rooms == old(db.rooms) && db.memberships == old(db.memberships)
      ensures roomId !in old(db.rooms) ==> ack == NoReply && unchanged(this) && unchanged(db)
      ensures roomId in old(db.rooms) ==>
                && db.messages == old(db.messages) + [Message(old(db.nextId), roomId, Some(u), text, Text, None, old(db.clock))]
                && ack == Sent(MessageSummary(old(db.nextId), text, old(db.clock), Some(UserRef(u, db.users[u].username))))
                && outbox == old(outbox) + [Emit(Subscribers(subscriptions, roomId), ReceiveMessage(roomId, ack.message))]
    {
      var msg := CreateMessage(db, roomId, Some(u), text);
      if msg.Failure? {
        return NoReply;
      }
      var summary := SummaryOf(msg.value);
      outbox := outbox + [Emit(Subscribers(subscriptions, roomId), ReceiveMessage(roomId, summary))];
      ack := Sent(summary);
    }

    /** `disconnect`: the session entry and the socket go, with every room the socket was in,
        and the user it was registered as is marked offline, even when another socket of
        theirs is still connected. */
    method Disconnect(conn: ConnId)
      requires Valid()
      modifies this, db
      ensures Valid()
      ensures session == old(session) - {conn} && socketUser == old(socketUser) - {conn}
      ensures subscriptions == Without(old(subscriptions), conn)
      ensures outbox == old(outbox)
      ensures conn in old(session) ==>
                var u := old(session)[conn];
                db.users == old(db.users)[u := old(db.users)[u].(isOnline := false)]
      ensures conn !in old(session) ==> db.users == old(db.users)
      ensures db.rooms == old(db.rooms) && db.memberships == old(db.memberships) && db.messages == old(db.messages)
    {
      var userId := if conn in session then Some(session[conn]) else None;
      session := session - {conn};
      socketUser := socketUser - {conn};
      subscriptions := Without(subscriptions, conn);
      if userId.Some? {
        SetOnline(db, userId.value, false);
      }
    }
  }
}
