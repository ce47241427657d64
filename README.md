# Real-time chat backend: rooms, memberships and message delivery

This project models the server core of a small real-time chat application, written as an
Express + socket.io + Sequelize backend, and proves properties of the model in Dafny. The model
has two layers:

- **The store** (`models.dfy`). It holds the four tables the Sequelize models declare: users,
  rooms, memberships (`user_rooms`) and messages. Each is a map, set or sequence inside one
  `Store` object. Every write the core makes is a method of that object, and every read is an
  expression over its fields. Writes the database would refuse fail and change nothing. These are a foreign key to a missing row,
  a username outside 3 to 50 characters or already taken, and a room name over 100 characters.
  The timestamps the model keeps (a room's `created_at` and `updated_at`, a message's
  `created_at`) come from a natural-number `clock` that ticks once per timestamp taken.
  Identifiers come from a fresh-id counter.
- **The gateway** (`chat.dfy`). It is a `ChatServer` object with the shared `session` map
  (socket to user), each socket's own `socket.data.userId`, the socket.io room subscriptions as
  (socket, room) pairs, and an outbox of every event pushed so far.

On top of these sit the room, message and user services (`room_service.dfy`,
`message_service.dfy`, `user_service.dfy`). Then come the six socket handlers (`chat.dfy`) and
the four `/rooms` endpoints (`rooms_routes.dfy`). Each handler is one method; its contract
states the whole new state and the acknowledgement or response for every branch of the source,
error paths included. `text.dfy` holds the JavaScript string operations the core relies on:
`trim`, the default string `sort` order, and an id's text. `scenarios.dfy` states properties
that take two calls in a row.

Behaviour of the source that the contracts make explicit:

- `getRecentMessages` sorts ascending and then applies the limit. A room's history is therefore
  its **earliest** 50 messages. On a room with more than 50 messages, the newest one is never
  shown (`MessageService.RecentOmitsNewest`).
- `join_room` and `send_message` have no `catch`. A store error there (an unknown room)
  produces no acknowledgement at all (`NoReply`).
- `switch_room` asks for no registration. It only drops the socket's subscription.
- `send_message` does not check membership. Any registered socket can post into any existing
  room.
- `leave_room` acts for `socket.data.userId ?? session.get(socket.id)`, and `send_message` acts
  for `session.get(socket.id)`. The new-user path of `register_user` sets only the session. So
  after a socket re-registers as a new user, the two handlers act for different users
  (`Scenarios.ActingUserCanDifferFromSession`).
- `disconnect` marks the user offline even while another socket of theirs is connected
  (`Scenarios.OtherTabStaysRegistered`).
- The `register_user` acknowledgement carries the user record as read before `setOnline`, so its
  `is_online` is the old value. Likewise, `POST /rooms` replies with the room from before its
  `updated_at` bump.
- `POST /rooms` writes without a transaction. An unknown creator therefore fails with
  `create_failed` but leaves the new room behind. `ensureDirectRoom` is similar: one membership
  insert can succeed while the other fails.
- Invitations are accepted into any room, direct rooms included. `user_joined_room` goes to the
  sockets already in the room, before the invitee's own sockets join it.

## Model

| member | source | states |
|---|---|---|
| Text.Trim | backend/src/sockets/chat.js:54 | `s.trim()` is the middle of `s` left after all-white-space ends are cut off; its ends are not white space; it is empty exactly when `s` is all white space |
| Text.LexLeTotal | backend/src/services/room.service.js:6 | any two strings are ordered one way or the other by the default `sort` order |
| Text.LexLeAntisymmetric | backend/src/services/room.service.js:6 | two strings each sorting no later than the other are equal |
| Text.IdText | backend/src/services/room.service.js:7 | an id's text is a non-empty run of digits, so it never holds the `:` separator |
| Text.IdTextInjective | backend/src/services/room.service.js:7 | two ids with the same text are the same id |
| Models.MembersOfChange | backend/src/services/room.service.js:43-46 | adding or removing one membership row changes that room's members by exactly that user and no other room's members |
| Models.Store.CreateUser | backend/src/models/User.js:13-18 | a username outside 3..50 characters fails validation, a taken one violates the unique index, both changing nothing; otherwise exactly one user is added, with a fresh id and `is_online` false |
| Models.Store.UpdateOnline | backend/src/services/user.service.js:13 | only that user's `is_online` changes, and an unknown id updates no row |
| Models.Store.FindUserByName | backend/src/routes/rooms.routes.js:144 | finds the user with that username, or none exactly when no user has it |
| Models.Store.CreateRoom | backend/src/models/Room.js:13-20 | a name over 100 characters fails and changes nothing; otherwise one room is added with a fresh id and both timestamps at the current time |
| Models.Store.FindDirectRoom | backend/src/services/room.service.js:9-11 | returns a non-group room with that name, or none exactly when there is no such room |
| Models.Store.TouchRoom | backend/src/routes/rooms.routes.js:28-31 | sets the room's `updated_at` to the current time and touches nothing else |
| Models.Store.DestroyRoom | backend/src/services/room.service.js:72 | removes the room and, by cascade, its memberships |
| Models.Store.FindOrCreateMembership | backend/src/services/room.service.js:26-28 | a pair pointing at a missing user or room fails and changes nothing; otherwise the set gains exactly that pair, and the flag says whether it was new |
| Models.Store.DestroyMembership | backend/src/services/room.service.js:37-40 | removes that one pair; if there was no such row, nothing happens and nothing fails |
| Models.Store.CreateMessage | backend/src/models/Message.js:13-25 | a missing room or sender fails and changes nothing; otherwise exactly one message is appended with the current time |
| UserService.FindOrCreateUserById | backend/src/services/user.service.js:3-10 | a known id returns that user and creates none; otherwise a user named `usernameIfNew` is created, which fails when the name is missing, outside 3..50 or taken |
| UserService.SetOnline | backend/src/services/user.service.js:12-14 | that user's `is_online` becomes the flag; no other user, field or table changes |
| RoomService.SortPair | backend/src/services/room.service.js:6 | the pair holds the same two ids, in the string order of their text |
| RoomService.DirectNameSymmetric | backend/src/services/room.service.js:6-7 | the synthetic name `dm:<low>:<high>` does not depend on the order the two users are given |
| RoomService.DirectNameInjective | backend/src/services/room.service.js:6-7 | two pairs of users with the same synthetic name are the same pair, since the digit-only ids cannot hold the `:` separator |
| RoomService.OneRoomPerPair | backend/src/services/room.service.js:9-15 | with one direct room per name, two pairs share their direct room exactly when they are the same pair |
| RoomService.AddRoomKeepsUnique | backend/src/services/room.service.js:9-15 | adding a group room, or a direct room under an unused name, keeps direct rooms unique per name |
| RoomService.FindOrCreateDirectRoom | backend/src/services/room.service.js:9-15 | an existing direct room is returned with nothing changed; otherwise one is created (or a too-long name fails); direct rooms stay unique |
| RoomService.EnsureDirectRoom | backend/src/services/room.service.js:5-23 | at most one room is created, and none when the pair's direct room exists; afterwards each existing user of the pair is a member; success exactly when both users exist, returning that non-group room; direct rooms stay unique |
| RoomService.JoinPair | backend/src/services/room.service.js:17-20 | each of the two membership inserts adds its row when its user exists; the pair succeeds exactly when both users exist |
| RoomService.AddUserToRoom | backend/src/services/room.service.js:25-29 | memberships become old ∪ {(user, room)}, so a repeat changes nothing; an unknown user or room fails and changes nothing |
| RoomService.Removal | backend/src/services/room.service.js:42-80 | `removed` is true; `remaining` counts the members left; the room is deleted exactly when deletion applies to it and nobody is left; with `groupsOnly` a direct room is never deleted |
| RoomService.RemoveUserFromRoom | backend/src/services/room.service.js:31-82 | the membership goes whether or not it existed, the result is `Removal` of what is left, the room is removed exactly when `roomDeleted`, and nothing else changes |
| RoomService.GetUserRooms | backend/src/services/room.service.js:84-89 | no rooms for an unknown user, otherwise exactly the rooms of the user's memberships, all of which exist |
| MessageService.CreateMessage | backend/src/services/message.service.js:3-21 | exactly one message is appended; it holds the given room, sender and content unchanged, with type text and no meta; earlier messages stay as they were; the reply carries the sender filled in; a missing room or sender fails and changes nothing |
| MessageService.InRoom | backend/src/services/message.service.js:25 | keeps exactly the messages of the room, in stored order |
| MessageService.InsertByTime | backend/src/services/message.service.js:26 | inserting into a list sorted by `created_at` keeps it sorted |
| MessageService.InsertByTimeKeeps | backend/src/services/message.service.js:26 | insertion adds exactly the one message |
| MessageService.SortByTime | backend/src/services/message.service.js:26 | the result is sorted by `created_at` ascending and is a permutation of the input |
| MessageService.SortSorted | backend/src/services/message.service.js:26 | messages already in time order are left in place |
| MessageService.Take | backend/src/services/message.service.js:27 | returns everything when there are at most `limit` messages, and exactly the first `limit` otherwise |
| MessageService.Recent | backend/src/services/message.service.js:23-33 | the history has min(limit, room size) messages, all stored messages of that room, in non-decreasing `created_at` |
| MessageService.RecentAreEarliest | backend/src/services/message.service.js:26-27 | every message of the room the history leaves out is no earlier than any message it returns |
| MessageService.RecentOfChronological | backend/src/services/message.service.js:26-27 | on a store in time order the history is the room's first `limit` messages as stored |
| MessageService.RecentOmitsNewest | backend/src/services/message.service.js:26-27 | a room with more than `limit` messages never shows its newest one |
| MessageService.GetRecentMessages | backend/src/services/message.service.js:23-33 | at most `limit` (default 50) messages, all of the room, oldest first; on a store in time order, the room's first messages in stored order |
| Chat.SubscribersAfterRegister | backend/src/sockets/chat.js:46 | after `socket.join` for each of the user's rooms, exactly those rooms also reach the socket, and no other room's audience changes |
| Chat.SubscribersAfterLeave | backend/src/sockets/chat.js:103 | after `socket.leave(roomId)` that room no longer reaches the socket, and every other room reaches the sockets it reached before |
| Chat.SubscribersAfterJoin | backend/src/routes/rooms.routes.js:180-185 | the joining sockets are added to that room's audience, and no other room's audience changes |
| Chat.SubscribersAfterClose | backend/src/sockets/chat.js:304-306 | a closed socket is reached by no room any more, and every other socket still is |
| Chat.ConnsOfChange | backend/src/routes/rooms.routes.js:180-181 | binding a socket to a user adds it to that user's sockets and takes it out of any other user's; deleting the session entry takes it out of all |
| Chat.ActingUserRegistered | backend/src/sockets/chat.js:113 | while `socket.data.userId` is only ever set together with a session entry, `leave_room` counts a socket as registered exactly when the session has it |
| Chat.JoinHistory | backend/src/sockets/chat.js:73-86 | the `chat_history` payload has at most 50 entries, oldest first, each one a stored message of that room |
| Chat.ChatServer.JoinAll | backend/src/sockets/chat.js:46 | the socket is subscribed to every given room and nothing else changes |
| Chat.ChatServer.JoinUser | backend/src/routes/rooms.routes.js:180-185 | every socket the session binds to the user joins the room and nothing else changes |
| Chat.ChatServer.RegisterUser | backend/src/sockets/chat.js:34-65 | a known claimed id binds socket and session, marks the user online, subscribes every room of the user and acks that user, creating none; an unknown claimed id acks `invalid_user_id` and changes nothing; without an id a trimmed name under 3 acks `username_required`, a refused create acks `register_failed`, both changing nothing, otherwise a user with the trimmed name is created, put in the session and marked online |
| Chat.ChatServer.RegisterKnown | backend/src/sockets/chat.js:39-48 | the branch for a claimed id that exists, as above |
| Chat.ChatServer.RegisterNew | backend/src/sockets/chat.js:53-61 | the branch without an id, as above |
| Chat.ChatServer.JoinRoom | backend/src/sockets/chat.js:68-99 | unregistered: `not_registered`, nothing changes; unknown room: no ack, nothing changes; otherwise memberships gain exactly the pair, the socket is subscribed, and only this socket gets `chat_history` with the room's recent messages |
| Chat.ChatServer.SendHistory | backend/src/sockets/chat.js:71-86 | the socket is subscribed to the room and only it gets the room's `chat_history`; the session is untouched |
| Chat.ChatServer.SwitchRoom | backend/src/sockets/chat.js:101-108 | only the (socket, room) subscription goes; memberships, sessions and the store are untouched |
| Chat.ChatServer.LeaveRoom | backend/src/sockets/chat.js:111-161 | unregistered: `not_registered`; unknown room: `leave_room_failed`, nothing changes; otherwise a system message "<username> left" of kind leave with null sender is appended, then the membership is removed with group-only deletion, the socket is unsubscribed, `user_left_room` goes to the other sockets of the room unless it was deleted, and the ack carries the removal result |
| Chat.ChatServer.SendMessage | backend/src/sockets/chat.js:263-302 | no session, room or non-blank content: `bad_request`, nothing persists; unknown room: no ack, nothing persists; otherwise the trimmed content is stored with the session user as sender, `receive_message` goes to every socket of the room, the sender's included, and the ack carries the same message |
| Chat.ChatServer.Post | backend/src/sockets/chat.js:272-301 | the posting branch of `send_message` after validation, as above |
| Chat.ChatServer.Disconnect | backend/src/sockets/chat.js:304-312 | the session entry and the socket's subscriptions go, and the bound user, if any, is marked offline; nothing else changes |
| RoomsRoutes.CreateGroup | backend/src/routes/rooms.routes.js:8-38 | a missing name answers 500 and a blank one 400 `name_required`, creating nothing; otherwise one group room with the trimmed name is created; the creator, when given, becomes a member; the room is bumped; an unknown creator answers `create_failed` but the room remains |
| RoomsRoutes.CreateNamedGroup | backend/src/routes/rooms.routes.js:15-33 | the writes of group creation after the name check, as above |
| RoomsRoutes.SeatCreator | backend/src/routes/rooms.routes.js:21-31 | an unknown creator fails the insert and nothing changes; otherwise the creator, when given, becomes a member and the room's `updated_at` moves to the current time |
| RoomsRoutes.DirectRoom | backend/src/routes/rooms.routes.js:41-56 | a missing id or two equal ids answers 400 `invalid_user_ids` and creates nothing; otherwise the rooms are unchanged when the pair's direct room exists and gain exactly that room when it does not, memberships gain exactly the pair's rows for the users that exist, on success and on failure alike; it succeeds exactly when `ensureDirectRoom` does, returning the pair's one non-group room, and answers 500 `direct_failed` otherwise |
| RoomsRoutes.Latest | backend/src/routes/rooms.routes.js:84-95 | the room's message with the greatest `created_at`, or null when the room has none |
| RoomsRoutes.LatestIsLastSent | backend/src/routes/rooms.routes.js:84-87 | on a store in time order that message is the last one sent to the room |
| RoomsRoutes.ByRecency | backend/src/routes/rooms.routes.js:76 | lists each given room once, by `updated_at` descending |
| RoomsRoutes.ListMine | backend/src/routes/rooms.routes.js:59-125 | no user id lists nothing; otherwise exactly the user's rooms, once each, by `updated_at` descending, each with its member count and newest message, and with both null where enrichment failed; nothing is written |
| RoomsRoutes.InviteeByName | backend/src/routes/rooms.routes.js:143-145 | without an id, the lookup by username finds the one user of that name |
| RoomsRoutes.InviteeIdWins | backend/src/routes/rooms.routes.js:141-145 | an id, when given, wins over the username: an unknown id finds nobody even when the username names a user |
| RoomsRoutes.FindInvitee | backend/src/routes/rooms.routes.js:140-149 | finds exactly the invitee and writes nothing |
| RoomsRoutes.Invite | backend/src/routes/rooms.routes.js:127-213 | no room: `room_required`; neither username nor id: `user_required`; unknown user: 404 `user_not_found`; unknown room: `invite_failed`; each changes nothing; otherwise the membership is added, one system message "<username> joined" of kind invite_join is appended, the room is bumped, `user_joined_room` goes to the room's sockets, every session socket of the invitee joins, and `{ id, username }` is returned |
| RoomsRoutes.InviteUser | backend/src/routes/rooms.routes.js:151-209 | the writes and events of a successful invitation, as above |
| RoomsRoutes.RecordJoin | backend/src/routes/rooms.routes.js:155-168 | exactly one system message "<username> joined" of kind invite_join is appended, and only that room's `updated_at` moves |
| Scenarios.DirectRoomIsShared | backend/src/services/room.service.js:5-23 | `ensureDirectRoom(a, b)` then `ensureDirectRoom(b, a)` return the same non-group room; both users are members; at most one room was created |
| Scenarios.JoinTwice | backend/src/sockets/chat.js:68-99 | joining twice leaves memberships and subscriptions as joining once does |
| Scenarios.OtherTabStaysRegistered | backend/src/sockets/chat.js:304-308 | after one socket disconnects, the user shows offline although another socket of theirs remains registered |
| Scenarios.ActingUserCanDifferFromSession | backend/src/sockets/chat.js:39-61 | a socket registered as a known user that registers again under a fresh name is bound to the new user in the session while `leave_room` still acts for the first |

## Left out

- socket.io transport and connection-state recovery: a push is an append to the outbox and a socket.io room is a set of (socket, room) pairs. A recovered connection that keeps its id and rooms is not modelled.
- Express routing and JSON serialisation: only the status code and the `error` code of a reply are kept.
- Transactions, the `LOCK.UPDATE` row lock and `Promise.all` parallelism: every handler and every store call is one atomic step, run one after another. Direct-room uniqueness therefore holds only for sequential calls, since no unique index backs it.
- Identifiers are natural numbers from a counter instead of UUIDs. The direct-room name writes them in decimal, sorted by the same string order JavaScript's `sort` uses. With UUIDs that name is 76 characters and always fits the 100-character column; with large numbers it may not, and the model keeps that error path.
- Wall-clock dates are a natural-number clock that ticks at every timestamp, so no two messages share a `created_at`.
- The `created_at` and `updated_at` columns of users and the `updated_at` column of messages, which Sequelize sets itself, are not stored; nothing in the core reads them.
- String lengths count characters, where JavaScript's `length` counts UTF-16 code units.
- Payload fields of the wrong type are not modelled. For example, a numeric `content` makes `trim` throw. Fields are optional strings or ids.
- `join_room`, `switch_room` and `leave_room` take their room id as given. A missing `roomId` there (a Sequelize error on an `undefined` key) is not modelled.
- Store errors other than the ones named above (lost connections, timeouts) are not modelled. `register_user`'s `register_failed` catch therefore covers only a refused user insert. The enrichment failures of `GET /rooms/mine` are a parameter of `RoomsRoutes.ListMine`, and its outer `list_failed` catch cannot be reached.
- Deleting a room keeps its messages as they are; Sequelize's default `ON DELETE SET NULL` on `messages.room_id` is not modelled. Ids are never reused, so no later room sees those messages.
- The `joined_at` column of memberships is not modelled.
- A missing `ack` callback (`ack?.()`): the model always returns the acknowledgement.
- The second `User.findByPk` in `join_room` (backend/src/sockets/chat.js:88-90) has no effect on state or replies and is omitted.
- The `"Someone"` fallback for the username in `leave_room` cannot occur: users are never deleted, and the source dereferences `user.username` before it would apply.
- `console.log`, database bootstrap, all commented-out code and the frontend are not part of this model.
