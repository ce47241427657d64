/** backend/src/services/room.service.js: direct-room deduplication, idempotent membership,
    membership removal with conditional room deletion, and the rooms of a user. */
module RoomService {
  import opened Base
  import opened Text
  import opened Models

  /** `[userAId, userBId].sort()`: the pair in the order JavaScript sorts their text. */
  function SortPair(a: Id, b: Id): (p: (Id, Id))
    ensures {p.0, p.1} == {a, b}
    ensures LexLe(IdText(p.0), IdText(p.1))
  {
    if LexLe(IdText(a), IdText(b)) then (a, b)
    else LexLeTotal(IdText(a), IdText(b)); (b, a)
  }

  /** The synthetic name `dm:<low>:<high>` of the direct room of two users. */
  function DirectName(a: Id, b: Id): string {
    var p := SortPair(a, b);
    "dm:" + IdText(p.0) + ":" + IdText(p.1)
  }

  /** The name does not depend on the order the two users are given in. */
  lemma DirectNameSymmetric(a: Id, b: Id)
    ensures DirectName(a, b) == DirectName(b, a)
  {
    var ta, tb := IdText(a), IdText(b);
    LexLeTotal(ta, tb);
    if LexLe(ta, tb) && LexLe(tb, ta) {
      LexLeAntisymmetric(ta, tb);
    }
  }

  /** Where the parts of `dm:<t>:<u>` sit. */
  lemma NameParts(t: string, u: string)
    ensures var s := "dm:" + t + ":" + u;
            && |s| == 4 + |t| + |u| && s[3 + |t|] == ':'
            && (forall i :: 3 <= i < 3 + |t| ==> s[i] == t[i - 3])
            && s[3..3 + |t|] == t && s[4 + |t|..] == u
  {
  }

  /** The first ':' of `s` at or after position `i`, or `|s|` when there is none. */
  function ColonFrom(s: string, i: nat): (k: nat)
    requires i <= |s|
    ensures i <= k <= |s|
    decreases |s| - i
  {
    if i == |s| || s[i] == ':' then i else ColonFrom(s, i + 1)
  }

  lemma {:induction false} ColonAfterDigits(t: string, u: string, j: nat)
    requires forall i :: 0 <= i < |t| ==> '0' <= t[i] <= '9'
    requires 3 <= j <= 3 + |t|
    ensures ColonFrom("dm:" + t + ":" + u, j) == 3 + |t|
    decreases 3 + |t| - j
  {
    NameParts(t, u);
    if j < 3 + |t| {
      ColonAfterDigits(t, u, j + 1);
    }
  }

  /** A name `dm:<t>:<u>` built from two runs of digits gives both runs back, since neither can
      hold the ':' between them. */
  lemma DigitsSplit(t: string, u: string, t': string, u': string)
    requires forall i :: 0 <= i < |t| ==> '0' <= t[i] <= '9'
    requires forall i :: 0 <= i < |t'| ==> '0' <= t'[i] <= '9'
    requires "dm:" + t + ":" + u == "dm:" + t' + ":" + u'
    ensures t == t' && u == u'
  {
    NameParts(t, u);
    NameParts(t', u');
    ColonAfterDigits(t, u, 3);
    ColonAfterDigits(t', u', 3);
  }

  /** Distinct pairs of users get distinct direct-room names, so the name stands for the pair. */
  lemma DirectNameInjective(a: Id, b: Id, c: Id, d: Id)
    requires DirectName(a, b) == DirectName(c, d)
    ensures {a, b} == {c, d}
  {
    var p, q := SortPair(a, b), SortPair(c, d);
    DigitsSplit(IdText(p.0), IdText(p.1), IdText(q.0), IdText(q.1));
    IdTextInjective(p.0, q.0);
    IdTextInjective(p.1, q.1);
  }

  predicate HasDirectRoom(rooms: map<Id, Room>, name: string) {
    exists k :: k in rooms && rooms[k].name == name && !rooms[k].isGroup
  }

  /** The direct room called `name`, which `DirectRoomsUnique` makes the only one. */
  ghost function DirectRoomId(rooms: map<Id, Room>, name: string): (k: Id)
    requires HasDirectRoom(rooms, name)
    ensures k in rooms && rooms[k].name == name && !rooms[k].isGroup
  {
    var k :| k in rooms && rooms[k].name == name && !rooms[k].isGroup; k
  }

  lemma DirectRoomIdIs(rooms: map<Id, Room>, name: string, k: Id)
    requires DirectRoomsUnique(rooms)
    requires k in rooms && rooms[k].name == name && !rooms[k].isGroup
    ensures HasDirectRoom(rooms, name) && DirectRoomId(rooms, name) == k
  {
  }

  /** In a store with one direct room per name, two pairs of users share their direct room
      exactly when they are the same pair. */
  lemma OneRoomPerPair(rooms: map<Id, Room>, a: Id, b: Id, c: Id, d: Id)
    requires DirectRoomsUnique(rooms)
    requires HasDirectRoom(rooms, DirectName(a, b)) && HasDirectRoom(rooms, DirectName(c, d))
    ensures DirectRoomId(rooms, DirectName(a, b)) == DirectRoomId(rooms, DirectName(c, d)) <==> {a, b} == {c, d}
  {
    if DirectRoomId(rooms, DirectName(a, b)) == DirectRoomId(rooms, DirectName(c, d)) {
      DirectNameInjective(a, b, c, d);
    }
    if {a, b} == {c, d} {
      if a != c {
        assert a == d && b == c;
        DirectNameSymmetric(a, b);
      }
    }
  }

  /** A new group room, or a direct room whose name is not yet taken, keeps direct rooms
      unique. */
  lemma AddRoomKeepsUnique(rooms: map<Id, Room>, k: Id, room: Room)
    requires DirectRoomsUnique(rooms) && k !in rooms
    requires room.isGroup || !HasDirectRoom(rooms, room.name)
    ensures DirectRoomsUnique(rooms[k := room])
  {
  }

  /** The membership row `findOrCreate` adds for user `x` in room `k`: none when `x` is
      unknown, since the insert then violates its foreign key. */
  function Joined(users: map<Id, User>, x: Id, k: Id): set<(Id, Id)> {
    if x in users then {(x, k)} else {}
  }

  /** Whether `ensureDirectRoom` gets past finding or creating the room: the room exists, or
      its name fits the column. */
  predicate DirectRoomReachable(rooms: map<Id, Room>, name: string) {
    HasDirectRoom(rooms, name) || |name| <= MaxRoomName
  }

  /** The first half of `ensureDirectRoom`: the direct room called `name`, created when
      there is none. */
  method FindOrCreateDirectRoom(db: Store, name: string) returns (r: Result<Room, DbError>)
    requires db.Valid() && DirectRoomsUnique(db.rooms)
    modifies db
    ensures db.Valid() && DirectRoomsUnique(db.rooms)
    ensures HasDirectRoom(old(db.rooms), name) ==> unchanged(db)
    ensures !HasDirectRoom(old(db.rooms), name) && |name| <= MaxRoomName ==>
              && db.rooms == old(db.rooms)[old(db.nextId) := Room(old(db.nextId), name, false, old(db.clock), old(db.clock))]
              && db.nextId == old(db.nextId) + 1 && db.clock == old(db.clock) + 1
    ensures !DirectRoomReachable(old(db.rooms), name) ==> r == Failure(ValueTooLong) && unchanged(db)
    ensures r.Success? <==> DirectRoomReachable(old(db.rooms), name)
    ensures r.Success? ==> HasDirectRoom(db.rooms, name) && r.value == db.rooms[DirectRoomId(db.rooms, name)]
    ensures db.users == old(db.users) && db.memberships == old(db.memberships) && db.messages == old(db.messages)
  {
    var found := db.FindDirectRoom(name);
    if found.Some? {
      DirectRoomIdIs(db.rooms, name, found.value.id);
      return Success(found.value);
    }
    r := db.CreateRoom(name, false);
    if r.Success? {
      AddRoomKeepsUnique(old(db.rooms), r.value.id, r.value);
      DirectRoomIdIs(db.rooms, name, r.value.id);
    }
  }

  /** `ensureDirectRoom(userAId, userBId)`: finds the direct room named after the sorted pair
      or creates it, then makes both users members. The two membership inserts run side by side
      in the source, so one that succeeds stays even when the other fails. */
  method EnsureDirectRoom(db: Store, a: Id, b: Id) returns (r: Result<Room, DbError>)
    requires db.Valid() && DirectRoomsUnique(db.rooms)
    modifies db
    ensures db.Valid() && DirectRoomsUnique(db.rooms)
    ensures HasDirectRoom(old(db.rooms), DirectName(a, b)) ==> db.rooms == old(db.rooms)
    ensures !HasDirectRoom(old(db.rooms), DirectName(a, b)) && |DirectName(a, b)| <= MaxRoomName ==>
              db.rooms == old(db.rooms)[old(db.nextId) :=
                                        Room(old(db.nextId), DirectName(a, b), false, old(db.clock), old(db.clock))]
    ensures !DirectRoomReachable(old(db.rooms), DirectName(a, b)) ==>
              r == Failure(ValueTooLong) && unchanged(db)
    ensures DirectRoomReachable(old(db.rooms), DirectName(a, b)) ==>
              && HasDirectRoom(db.rooms, DirectName(a, b))
              && db.memberships == old(db.memberships)
                                   + Joined(old(db.users), a, DirectRoomId(db.rooms, DirectName(a, b)))
                                   + Joined(old(db.users), b, DirectRoomId(db.rooms, DirectName(a, b)))
              && (r.Success? <==> a in old(db.users) && b in old(db.users))
              && (r.Success? ==> r.value == db.rooms[DirectRoomId(db.rooms, DirectName(a, b))])
              && (r.Failure? ==> r.error == ForeignKeyViolation)
    ensures db.users == old(db.users) && db.messages == old(db.messages)
  {
    var p := SortPair(a, b);
    var name := DirectName(a, b);
    var found := FindOrCreateDirectRoom(db, name);
    if found.Failure? {
      return found;
    }
    var room := found.value;
    var joined := JoinPair(db, p.0, p.1, room.id);
    if joined.Failure? {
      return Failure(joined.error);
    }
    r := Success(room);
  }

  /** The two `UserRoom.findOrCreate` calls of `ensureDirectRoom`, side by side: each inserts
      its row when its user exists, and the pair fails when either does. */
  method JoinPair(db: Store, x: Id, y: Id, roomId: Id) returns (r: Result<(), DbError>)
    requires db.Valid() && roomId in db.rooms
    modifies db
    ensures db.Valid()
    ensures db.memberships == old(db.memberships) + Joined(old(db.users), x, roomId) + Joined(old(db.users), y, roomId)
    ensures r.Success? <==> x in old(db.users) && y in old(db.users)
    ensures r.Failure? ==> r.error == ForeignKeyViolation
    ensures db.users == old(db.users) && db.rooms == old(db.rooms) && db.messages == old(db.messages)
    ensures db.clock == old(db.clock) && db.nextId == old(db.nextId)
  {
    var rx := db.FindOrCreateMembership(x, roomId);
    var ry := db.FindOrCreateMembership(y, roomId);
    if rx.Failure? {
      return Failure(rx.error);
    }
    if ry.Failure? {
      return Failure(ry.error);
    }
    r := Success(());
  }

  /** `addUserToRoom(userId, roomId)`: find-or-create, so the membership set only ever gains
      this one pair, and a second call finds it and changes nothing. */
  method AddUserToRoom(db: Store, userId: Id, roomId: Id) returns (r: Result<(), DbError>)
    requires db.Valid()
    modifies db
    ensures db.Valid()
    ensures r.Success? <==> userId in old(db.users) && roomId in old(db.rooms)
    ensures r.Failure? ==> r.error == ForeignKeyViolation && unchanged(db)
    ensures r.Success? ==> db.memberships == old(db.memberships) + {(userId, roomId)}
    ensures db.users == old(db.users) && db.rooms == old(db.rooms) && db.messages == old(db.messages)
    ensures db.clock == old(db.clock) && db.nextId == old(db.nextId)
  {
    var found := db.FindOrCreateMembership(userId, roomId);
    if found.Failure? {
      return Failure(found.error);
    }
    r := Success(());
  }

  /** The reply of `removeUserFromRoom`. */
  datatype RemoveResult = RemoveResult(removed: bool, remaining: nat, roomDeleted: bool)

  /** Whether `removeUserFromRoom` keeps the room without looking at who is left: deletion is
      off, or it is limited to groups and the room is missing or direct. */
  predicate KeepsRoom(rooms: map<Id, Room>, roomId: Id, destroyEmptyRooms: bool, groupsOnly: bool) {
    !destroyEmptyRooms || (groupsOnly && (roomId !in rooms || !rooms[roomId].isGroup))
  }

  /** What `removeUserFromRoom` reports, given the rooms and the memberships left after the
      row is deleted. */
  function Removal(rooms: map<Id, Room>, left: set<(Id, Id)>, roomId: Id,
                   destroyEmptyRooms: bool, groupsOnly: bool): (res: RemoveResult)
    ensures res.removed
    ensures res.remaining == |MembersOf(left, roomId)|
    ensures res.roomDeleted <==> !KeepsRoom(rooms, roomId, destroyEmptyRooms, groupsOnly)
                                 && MembersOf(left, roomId) == {}
    ensures groupsOnly && roomId in rooms && !rooms[roomId].isGroup ==> !res.roomDeleted
  {
    var remaining := |MembersOf(left, roomId)|;
    if KeepsRoom(rooms, roomId, destroyEmptyRooms, groupsOnly) then RemoveResult(true, remaining, false)
    else if remaining == 0 then RemoveResult(true, 0, true)
    else RemoveResult(true, remaining, false)
  }

  /** `removeUserFromRoom(userId, roomId, { destroyEmptyRooms, groupsOnly })`, one transaction:
      the membership row goes whether or not it was there, then the room goes exactly when
      `Removal` says so. Nothing else changes. */
  method RemoveUserFromRoom(db: Store, userId: Id, roomId: Id, destroyEmptyRooms: bool, groupsOnly: bool)
    returns (res: RemoveResult)
    requires db.Valid()
    modifies db
    ensures db.Valid()
    ensures (DirectRoomsUnique(old(db.rooms)) ==> DirectRoomsUnique(db.rooms))
    ensures db.memberships == old(db.memberships) - {(userId, roomId)}
    ensures res == Removal(old(db.rooms), db.memberships, roomId, destroyEmptyRooms, groupsOnly)
    ensures db.rooms == if res.roomDeleted then old(db.rooms) - {roomId} else old(db.rooms)
    ensures db.users == old(db.users) && db.messages == old(db.messages)
    ensures db.clock == old(db.clock) && db.nextId == old(db.nextId)
  {
    db.DestroyMembership(userId, roomId);
    if !destroyEmptyRooms {
      return RemoveResult(true, |MembersOf(db.memberships, roomId)|, false);
    }
    if groupsOnly {
      if roomId !in db.rooms || !db.rooms[roomId].isGroup {
        return RemoveResult(true, |MembersOf(db.memberships, roomId)|, false);
      }
    }
    var remainingMembers := MembersOf(db.memberships, roomId);
    if |remainingMembers| == 0 {
      ghost var left := db.memberships;
      db.DestroyRoom(roomId);
      assert db.memberships == left;
      return RemoveResult(true, 0, true);
    }
    res := RemoveResult(true, |remainingMembers|, false);
  }

  /** `getUserRooms(userId)`: nothing for an unknown user, otherwise exactly the rooms the
      user holds a membership of, all of which exist. */
  function GetUserRooms(db: Store, userId: Id): (rs: set<Id>)
    reads db
    ensures userId !in db.users ==> rs == {}
    ensures userId in db.users ==> forall r :: r in rs <==> (userId, r) in db.memberships
    ensures db.Valid() ==> rs <= db.rooms.Keys
  {
    if userId !in db.users then {} else set p | p in db.memberships && p.0 == userId :: p.1
  }
}
