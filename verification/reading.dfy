/**
 * The read side of the chat service: `markMessagesAsRead` and the two
 * snapshot listeners `getMessages` and `getUserChatRooms` (with its helper
 * `getRoomData`). A listener is modelled by what it hands its callback for
 * one snapshot; the order in which the snapshot's `forEach` visits children
 * is a parameter `order` that lists every key exactly once.
 */
module Reading {
  import opened Wrappers
  import opened Sequences
  import opened ChatStore
  import opened SendPath

  // ---------------------------------------------------------------------
  // markMessagesAsRead
  // ---------------------------------------------------------------------

  /** A message from `senderId` to `me` that `me` has not read yet. */
  predicate Pending(m: Message, senderId: string, me: string) {
    m.senderId == senderId && m.recipientId == me && !m.read
  }

  /** Keys of the messages `markMessagesAsRead(roomId, senderId)` flips for `me`. */
  function PendingKeys(s: Store, roomId: string, senderId: string, me: string): set<string> {
    var msgs := MessagesOf(s, roomId);
    set k | k in msgs && Pending(msgs[k], senderId, me)
  }

  /** The room's messages with the pending ones flagged read. */
  function MarkRead(msgs: map<string, Message>, senderId: string, me: string): (r: map<string, Message>)
    ensures r.Keys == msgs.Keys
    ensures forall k | k in msgs :: !Pending(msgs[k], senderId, me) ==> r[k] == msgs[k]
    ensures forall k | k in msgs :: Pending(msgs[k], senderId, me) ==> r[k] == msgs[k].(read := true)
  {
    map k | k in msgs :: if Pending(msgs[k], senderId, me) then msgs[k].(read := true) else msgs[k]
  }

  /**
   * `markMessagesAsRead(roomId, senderId)`: nothing happens without a user
   * or when `me` names itself as the sender. Otherwise every unread message
   * from `senderId` to `me` is flagged read and, only if there was at least
   * one, `me`'s counter for the room is set to zero (creating a bare entry
   * when `me` has none).
   */
  function MarkMessagesAsRead(s: Store, me: Option<User>, roomId: string, senderId: string): (t: Store)
    ensures me.None? || senderId == me.value.uid ==> t == s
    ensures me.Some? && PendingKeys(s, roomId, senderId, me.value.uid) == {} ==> t == s
    ensures me.Some? && senderId != me.value.uid ==>
              var uid := me.value.uid;
              && PendingKeys(t, roomId, senderId, uid) == {}
              && MessagesOf(t, roomId).Keys == MessagesOf(s, roomId).Keys
              && (forall k | k in MessagesOf(s, roomId) ::
                    MessagesOf(t, roomId)[k] ==
                      if k in PendingKeys(s, roomId, senderId, uid) then MessagesOf(s, roomId)[k].(read := true)
                      else MessagesOf(s, roomId)[k])
              && SameMessagesExcept(s, t, {roomId})
              && t.chatRooms == s.chatRooms
              && SameInboxesExcept(s, t, {(uid, roomId)})
    ensures me.Some? && senderId != me.value.uid && PendingKeys(s, roomId, senderId, me.value.uid) != {} ==>
              InboxOf(t, me.value.uid, roomId) == Some(InboxOrEmpty(s, me.value.uid, roomId).(unreadCount := 0))
  {
    match me
    case None => s
    case Some(user) =>
      if senderId == user.uid || PendingKeys(s, roomId, senderId, user.uid) == {} then s
      else
        var marked := PutMessages(s, roomId, MarkRead(MessagesOf(s, roomId), senderId, user.uid));
        PutInbox(marked, user.uid, roomId, InboxOrEmpty(s, user.uid, roomId).(unreadCount := 0))
  }

  /** A second call with the same arguments changes nothing. */
  lemma MarkMessagesAsReadIdempotent(s: Store, me: Option<User>, roomId: string, senderId: string)
    ensures var t := MarkMessagesAsRead(s, me, roomId, senderId);
            MarkMessagesAsRead(t, me, roomId, senderId) == t
  {
  }

  /** A message once read stays read. */
  lemma MarkMessagesAsReadKeepsRead(s: Store, me: Option<User>, roomId: string, senderId: string, r: string, k: string)
    requires k in MessagesOf(s, r) && MessagesOf(s, r)[k].read
    ensures var t := MarkMessagesAsRead(s, me, roomId, senderId);
            k in MessagesOf(t, r) && MessagesOf(t, r)[k].read
  {
  }

  /**
   * In a room where everything unread for `me` comes from `senderId` (as in
   * a two-party room), marking as read leaves `me`'s counter exact: zero,
   * with no unread message left.
   */
  lemma MarkMessagesAsReadRestoresCounter(s: Store, me: User, roomId: string, senderId: string)
    requires senderId != me.uid
    requires UnreadKeys(s, me.uid, roomId) != {}
    requires forall k | k in UnreadKeys(s, me.uid, roomId) :: MessagesOf(s, roomId)[k].senderId == senderId
    ensures CounterAgrees(MarkMessagesAsRead(s, Some(me), roomId, senderId), me.uid, roomId)
  {
    var k :| k in UnreadKeys(s, me.uid, roomId);
    assert k in PendingKeys(s, roomId, senderId, me.uid);
    var t := MarkMessagesAsRead(s, Some(me), roomId, senderId);
    assert UnreadKeys(t, me.uid, roomId) == {} by {
      forall j | j in MessagesOf(t, roomId) && MessagesOf(t, roomId)[j].recipientId == me.uid
        ensures MessagesOf(t, roomId)[j].read
      {
        assert j in MessagesOf(s, roomId);
        if !MessagesOf(s, roomId)[j].read {
          assert j in UnreadKeys(s, me.uid, roomId);
        }
      }
    }
  }

  // ---------------------------------------------------------------------
  // getMessages
  // ---------------------------------------------------------------------

  /** `{ id: childSnapshot.key, ...message }`. */
  datatype Keyed = Keyed(id: string, message: Message)

  function Timestamp(e: Keyed): int {
    e.message.timestamp
  }

  function KeyOf(e: Keyed): string {
    e.id
  }

  /**
   * The snapshot's children in visiting order. What they cover is stated by
   * `ChildrenCoverSnapshot`.
   */
  function Children(msgs: map<string, Message>, order: seq<string>): (r: seq<Keyed>)
    requires forall i | 0 <= i < |order| :: order[i] in msgs
    ensures |r| == |order|
    ensures forall i | 0 <= i < |r| :: r[i] == Keyed(order[i], msgs[order[i]])
  {
    seq(|order|, i requires 0 <= i < |order| => Keyed(order[i], msgs[order[i]]))
  }

  /**
   * `getMessages(roomId, callback)` for one snapshot: every child of
   * `messages/{roomId}` once, paired with its key, in ascending timestamp
   * order.
   */
  function GetMessages(s: Store, roomId: string, order: seq<string>): (r: seq<Keyed>)
    requires Enumerates(order, MessagesOf(s, roomId).Keys)
    ensures SortedBy(r, Timestamp)
    ensures |r| == |MessagesOf(s, roomId)|
    ensures forall e | e in r :: e.id in MessagesOf(s, roomId) && MessagesOf(s, roomId)[e.id] == e.message
    ensures (set e | e in r :: e.id) == MessagesOf(s, roomId).Keys
    ensures DistinctBy(r, KeyOf)
  {
    var msgs := MessagesOf(s, roomId);
    var children := Children(msgs, order);
    ChildrenCoverSnapshot(msgs, order);
    var r := SortBy(children, Timestamp);
    DistinctByPermutation(children, r, KeyOf);
    PermutationSameMembers(children, r);
    r
  }

  /** Visiting every key once yields every child once, each paired with its own key. */
  lemma ChildrenCoverSnapshot(msgs: map<string, Message>, order: seq<string>)
    requires Enumerates(order, msgs.Keys)
    ensures var children := Children(msgs, order);
            && |children| == |msgs|
            && (forall e | e in children :: e.id in msgs && msgs[e.id] == e.message)
            && (set e | e in children :: e.id) == msgs.Keys
            && DistinctBy(children, KeyOf)
  {
    var children := Children(msgs, order);
    EnumeratesCardinality(order, msgs.Keys);
    forall k | k in msgs.Keys ensures k in set e | e in children :: e.id {
      var i :| 0 <= i < |order| && order[i] == k;
      assert children[i].id == k;
    }
  }

  // ---------------------------------------------------------------------
  // getUserChatRooms / getRoomData
  // ---------------------------------------------------------------------

  /** One entry of the list `getUserChatRooms` passes to its callback. */
  datatype RoomView = RoomView(
    id: string,
    participants: seq<string>,
    lastMessage: string,
    lastMessageTimestamp: int,
    lastSenderId: string,
    unreadCount: int,
    productId: Option<string>)

  /**
   * `getRoomData(roomId, userData)`: nothing when the room record is
   * missing; otherwise the participants and last sender come from the room,
   * and the summary, counter and product id from `me`'s inbox entry with the
   * source's defaults (0 for a missing timestamp, no product id for "").
   */
  function RoomData(s: Store, me: string, roomId: string): (r: Option<RoomView>)
    ensures r.Some? <==> roomId in InboxKeys(s, me) && roomId in s.chatRooms
    ensures r.Some? ==>
              var entry, room := InboxOrEmpty(s, me, roomId), s.chatRooms[roomId];
              && r.value.id == roomId
              && r.value.participants == room.participants && r.value.lastSenderId == room.lastSenderId
              && r.value.lastMessage == entry.lastMessage && r.value.unreadCount == entry.unreadCount
              && (entry.lastMessageTimestamp.Some? ==> r.value.lastMessageTimestamp == entry.lastMessageTimestamp.value)
              && (entry.lastMessageTimestamp.None? ==> r.value.lastMessageTimestamp == 0)
              && (r.value.productId.None? <==> entry.productId == "")
              && (r.value.productId.Some? ==> r.value.productId.value == entry.productId)
  {
    match InboxOf(s, me, roomId)
    case None => None
    case Some(entry) =>
      match RoomOf(s, roomId)
      case None => None
      case Some(room) =>
        Some(RoomView(roomId, room.participants, entry.lastMessage, entry.lastMessageTimestamp.GetOr(0),
                      room.lastSenderId, entry.unreadCount,
                      if entry.productId == "" then None else Some(entry.productId)))
  }

  /** The rooms among `order` whose data resolves, in visiting order. */
  function Resolved(s: Store, me: string, order: seq<string>): (r: seq<RoomView>)
    ensures forall v | v in r :: v.id in order && RoomData(s, me, v.id) == Some(v)
    ensures forall roomId | roomId in order && RoomData(s, me, roomId).Some? :: RoomData(s, me, roomId).value in r
    ensures Distinct(order) ==> DistinctBy(r, RoomIdOf)
  {
    if |order| == 0 then []
    else
      var rest := Resolved(s, me, order[1..]);
      assert Distinct(order) ==> Distinct(order[1..]) && order[0] !in order[1..];
      match RoomData(s, me, order[0])
      case None => rest
      case Some(v) => [v] + rest
  }

  function RoomIdOf(v: RoomView): string {
    v.id
  }

  /** `-lastMessageTimestamp`: sorting ascending by it is the descending sort. */
  function Recency(v: RoomView): int {
    -v.lastMessageTimestamp
  }

  /**
   * `getUserChatRooms(callback)` for one snapshot: an empty list without a
   * user; otherwise one entry per inbox entry whose room still exists, most
   * recent first.
   */
  function GetUserChatRooms(s: Store, me: Option<User>, order: seq<string>): (r: seq<RoomView>)
    requires me.Some? ==> Enumerates(order, InboxKeys(s, me.value.uid))
    ensures me.None? ==> r == []
    ensures forall i, j | 0 <= i < j < |r| :: r[i].lastMessageTimestamp >= r[j].lastMessageTimestamp
    ensures me.Some? ==> forall v | v in r :: RoomData(s, me.value.uid, v.id) == Some(v)
    ensures me.Some? ==> (set v | v in r :: v.id) == InboxKeys(s, me.value.uid) * s.chatRooms.Keys
    ensures DistinctBy(r, RoomIdOf)
  {
    match me
    case None => []
    case Some(user) =>
      var views := Resolved(s, user.uid, order);
      ResolvedCoversInbox(s, user.uid, order);
      var r := SortBy(views, Recency);
      PermutationSameMembers(views, r);
      DistinctByPermutation(views, r, RoomIdOf);
      MostRecentFirst(r);
      r
  }

  /** Resolving every inbox entry once keeps exactly the entries whose room exists, one view each. */
  lemma ResolvedCoversInbox(s: Store, me: string, order: seq<string>)
    requires Enumerates(order, InboxKeys(s, me))
    ensures var views := Resolved(s, me, order);
            && (set v | v in views :: v.id) == InboxKeys(s, me) * s.chatRooms.Keys
            && DistinctBy(views, RoomIdOf)
  {
    var views := Resolved(s, me, order);
    forall roomId | roomId in InboxKeys(s, me) * s.chatRooms.Keys ensures roomId in set v | v in views :: v.id {
      assert roomId in order;
      assert RoomData(s, me, roomId).value in views;
    }
  }

  /** Ascending by `Recency` is descending by timestamp. */
  lemma MostRecentFirst(r: seq<RoomView>)
    requires SortedBy(r, Recency)
    ensures forall i, j | 0 <= i < j < |r| :: r[i].lastMessageTimestamp >= r[j].lastMessageTimestamp
  {
    forall i, j | 0 <= i < j < |r| ensures r[i].lastMessageTimestamp >= r[j].lastMessageTimestamp {
      assert Recency(r[i]) <= Recency(r[j]);
    }
  }
}
