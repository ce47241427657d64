/** backend/src/services/message.service.js: appending a text message, and the capped,
    ordered history of a room. */
module MessageService {
  import opened Base
  import opened Models

  /** A message as the service returns it: the columns it selects, with the sender joined in
      as `{ id, username }`, or null. */
  datatype MessageView = MessageView(id: Id, content: string, createdAt: nat, msgType: MessageType,
                                     meta: Option<Meta>, roomId: Id, sender: Option<UserRef>)

  /** The `sender` association: null when `sender_id` is null. */
  function SenderOf(users: map<Id, User>, senderId: Option<Id>): (s: Option<UserRef>)
    ensures senderId.None? ==> s.None?
    ensures senderId.Some? && senderId.value in users ==>
              s == Some(UserRef(senderId.value, users[senderId.value].username))
  {
    if senderId.Some? && senderId.value in users then
      Some(UserRef(senderId.value, users[senderId.value].username))
    else
      None
  }

  function ViewOf(users: map<Id, User>, m: Message): MessageView {
    MessageView(m.id, m.content, m.createdAt, m.msgType, m.meta, m.roomId, SenderOf(users, m.senderId))
  }

  /** The `{ id, content, created_at, sender }` object the handlers send for a message. */
  datatype MessageSummary = MessageSummary(id: Id, content: string, createdAt: nat, sender: Option<UserRef>)

  function SummaryOf(v: MessageView): MessageSummary {
    MessageSummary(v.id, v.content, v.createdAt, v.sender)
  }

  /** `createMessage({ roomId, senderId, content })`: appends exactly one message holding the
      given room, sender and content as they are, of the default type `text` and with no
      `meta`; the messages already stored stay as they were. It returns that message with its
      sender populated. A room or sender the store does not know fails and appends nothing. */
  method CreateMessage(db: Store, roomId: Id, senderId: Option<Id>, content: string)
    returns (r: Result<MessageView, DbError>)
    requires db.Valid()
    modifies db
    ensures db.Valid()
    ensures (roomId !in old(db.rooms) || (senderId.Some? && senderId.value !in old(db.users))) ==>
              r == Failure(ForeignKeyViolation) && unchanged(db)
    ensures roomId in old(db.rooms) && (senderId.Some? ==> senderId.value in old(db.users)) ==>
              && |db.messages| == |old(db.messages)| + 1
              && db.messages[..|old(db.messages)|] == old(db.messages)
              && var m := db.messages[|old(db.messages)|];
              && m == Message(old(db.nextId), roomId, senderId, content, Text, None, old(db.clock))
              && r == Success(ViewOf(db.users, m))
              && r.value.sender == (if senderId.None? then None
                                    else Some(UserRef(senderId.value, db.users[senderId.value].username)))
              && db.users == old(db.users) && db.rooms == old(db.rooms)
              && db.memberships == old(db.memberships)
              && db.nextId == old(db.nextId) + 1 && db.clock == old(db.clock) + 1
  {
    var created := db.CreateMessage(roomId, senderId, content, Text, None);
    if created.Failure? {
      return Failure(created.error);
    }
    assert db.messages[..|old(db.messages)|] == old(db.messages);
    r := Success(ViewOf(db.users, created.value));
  }

  /** `where: { room_id: roomId }`, keeping the stored order. */
  function InRoom(msgs: seq<Message>, roomId: Id): (rs: seq<Message>)
    ensures forall i :: 0 <= i < |rs| ==> rs[i].roomId == roomId
    ensures forall m :: m in rs <==> m in msgs && m.roomId == roomId
    ensures Chronological(msgs) ==> Chronological(rs)
  {
    if msgs == [] then []
    else if msgs[0].roomId == roomId then [msgs[0]] + InRoom(msgs[1..], roomId)
    else InRoom(msgs[1..], roomId)
  }

  predicate SortedByTime(s: seq<Message>) {
    forall i, j :: 0 <= i < j < |s| ==> s[i].createdAt <= s[j].createdAt
  }

  /** Places `m` ahead of the first message of `s` that is not earlier than it. */
  function InsertByTime(m: Message, s: seq<Message>): (r: seq<Message>)
    ensures |r| == |s| + 1 && (r[0] == m || (s != [] && r[0] == s[0]))
    ensures SortedByTime(s) ==> SortedByTime(r)
  {
    if s == [] || m.createdAt <= s[0].createdAt then [m] + s
    else [s[0]] + InsertByTime(m, s[1..])
  }

  lemma {:induction false} InsertByTimeKeeps(m: Message, s: seq<Message>)
    ensures multiset(InsertByTime(m, s)) == multiset(s) + multiset{m}
  {
    if s != [] && m.createdAt > s[0].createdAt {
      InsertByTimeKeeps(m, s[1..]);
      assert s == [s[0]] + s[1..];
    }
  }

  /** `order: [["created_at", "ASC"]]`: a stable insertion sort on `created_at`, which only
      reorders the messages it is given. */
  function SortByTime(s: seq<Message>): (r: seq<Message>)
    ensures SortedByTime(r)
    ensures multiset(r) == multiset(s) && |r| == |s|
  {
    if s == [] then []
    else
      assert s == [s[0]] + s[1..];
      InsertByTimeKeeps(s[0], SortByTime(s[1..]));
      InsertByTime(s[0], SortByTime(s[1..]))
  }

  /** Reordering keeps every message in the room. */
  lemma SameRoom(a: seq<Message>, b: seq<Message>, roomId: Id)
    requires multiset(a) == multiset(b)
    requires forall i :: 0 <= i < |a| ==> a[i].roomId == roomId
    ensures forall i :: 0 <= i < |b| ==> b[i].roomId == roomId && b[i] in a
  {
    forall i | 0 <= i < |b| ensures b[i].roomId == roomId && b[i] in a {
      assert b[i] in multiset(a);
    }
  }

  /** On messages already in time order the sort changes nothing. */
  lemma {:induction false} SortSorted(s: seq<Message>)
    requires Chronological(s)
    ensures SortByTime(s) == s
  {
    if s != [] {
      SortSorted(s[1..]);
    }
  }

  /** `limit`. */
  function Take(s: seq<Message>, n: nat): (r: seq<Message>)
    ensures |r| <= n && |r| <= |s| && r == s[..|r|]
    ensures |s| <= n ==> r == s
    ensures |s| > n ==> r == s[..n]
  {
    if |s| <= n then s else s[..n]
  }

  /** The rows `getRecentMessages(roomId, limit)` selects: the room's messages sorted by
      `created_at` upwards, then cut after `limit`. */
  function Recent(msgs: seq<Message>, roomId: Id, limit: nat): (r: seq<Message>)
    ensures |r| == if |InRoom(msgs, roomId)| <= limit then |InRoom(msgs, roomId)| else limit
    ensures forall i :: 0 <= i < |r| ==> r[i].roomId == roomId && r[i] in msgs
    ensures SortedByTime(r)
  {
    SameRoom(InRoom(msgs, roomId), SortByTime(InRoom(msgs, roomId)), roomId);
    Take(SortByTime(InRoom(msgs, roomId)), limit)
  }

  /** Because the sort comes before the limit, the result is the room's EARLIEST messages:
      every message of the room it leaves out is no earlier than any it returns. */
  lemma RecentAreEarliest(msgs: seq<Message>, roomId: Id, limit: nat, m: Message, i: nat)
    requires m in msgs && m.roomId == roomId && m !in Recent(msgs, roomId, limit)
    requires i < |Recent(msgs, roomId, limit)|
    ensures Recent(msgs, roomId, limit)[i].createdAt <= m.createdAt
  {
    var sorted := SortByTime(InRoom(msgs, roomId));
    var r := Recent(msgs, roomId, limit);
    assert m in multiset(sorted);
    var j :| 0 <= j < |sorted| && sorted[j] == m;
    assert forall k :: 0 <= k < |r| ==> r[k] == sorted[k];
  }

  /** On a store whose messages are in time order, the history is simply the first `limit`
      messages of the room in the order they were stored. */
  lemma RecentOfChronological(msgs: seq<Message>, roomId: Id, limit: nat)
    requires Chronological(msgs)
    ensures Recent(msgs, roomId, limit) == Take(InRoom(msgs, roomId), limit)
  {
    SortSorted(InRoom(msgs, roomId));
  }

  /** So a room with more than `limit` messages never shows its newest one. */
  lemma RecentOmitsNewest(msgs: seq<Message>, roomId: Id, limit: nat)
    requires Chronological(msgs) && |InRoom(msgs, roomId)| > limit
    ensures var rs := InRoom(msgs, roomId); rs[|rs| - 1] !in Recent(msgs, roomId, limit)
  {
    RecentOfChronological(msgs, roomId, limit);
  }

  /** The messages as the service returns them, in the same order. */
  function Views(users: map<Id, User>, ms: seq<Message>): (vs: seq<MessageView>)
    ensures |vs| == |ms|
    ensures forall i :: 0 <= i < |ms| ==> vs[i] == ViewOf(users, ms[i])
  {
    seq(|ms|, i requires 0 <= i < |ms| => ViewOf(users, ms[i]))
  }

  /** `getRecentMessages(roomId, limit = 50)`: at most `limit` messages of the room, oldest
      first and each with its sender; on a store in time order they are the room's first
      `limit` messages in the order they were sent. */
  function GetRecentMessages(db: Store, roomId: Id, limit: nat := 50): (vs: seq<MessageView>)
    reads db
    ensures |vs| == if |InRoom(db.messages, roomId)| <= limit then |InRoom(db.messages, roomId)| else limit
    ensures forall i :: 0 <= i < |vs| ==> vs[i].roomId == roomId
    ensures forall i, j :: 0 <= i < j < |vs| ==> vs[i].createdAt <= vs[j].createdAt
    ensures Chronological(db.messages) ==> forall i :: 0 <= i < |vs| ==> vs[i].id == InRoom(db.messages, roomId)[i].id
  {
    var vs := Views(db.users, Recent(db.messages, roomId, limit));
    if Chronological(db.messages) then RecentOfChronological(db.messages, roomId, limit); vs else vs
  }
}
