/**
 * The send path of the realtime chat service: lazily creating or repairing a
 * room and both participants' inbox entries, appending one message, refreshing
 * the room summary, and the increment-on-send / zero-on-send unread counters.
 * `sendMessage`, `sendPurchaseRequest` and `createChatRoom` are built from it.
 */
module SendPath {
  import opened Wrappers
  import opened Strings
  import opened Sequences
  import opened ChatStore
  import opened RoomIds

  /** The room record every creating path writes: no summary yet, both clocks at `now`. */
  function NewRoom(me: string, other: string, productId: string, now: int): (room: Room)
    ensures (set u | u in room.participants) == {me, other} && Distinct(room.participants)
    ensures room.lastMessage == "" && room.lastSenderId == "" && room.productId == productId
  {
    Room(Participants(me, other), now, "", now, "", productId)
  }

  /** The inbox entry written for a brand-new room. */
  function FreshInbox(other: string, productId: string, now: int): Inbox {
    Inbox("", Some(now), 0, productId, Some(other))
  }

  /** True when `u`'s entry in the room kept its counter, or was created with a zero counter. */
  ghost predicate CounterKeptOrZeroed(s: Store, t: Store, u: string, roomId: string) {
    InboxOf(t, u, roomId).Some?
    && InboxOf(t, u, roomId).value.unreadCount == (if InboxOf(s, u, roomId).Some? then InboxOf(s, u, roomId).value.unreadCount else 0)
  }

  /**
   * True when `u`'s entry, if it existed, is still there unchanged, except
   * that with `reconcile` it carries the new product id.
   */
  ghost predicate ExistingEntryKept(s: Store, t: Store, u: string, roomId: string, productId: string, reconcile: bool) {
    InboxOf(s, u, roomId).Some? ==>
      InboxOf(t, u, roomId)
      == Some(if reconcile then InboxOf(s, u, roomId).value.(productId := productId) else InboxOf(s, u, roomId).value)
  }

  /**
   * Repairs one participant's inbox entry of an existing room. A missing entry
   * is created from the room snapshot's summary with a zero counter; an
   * existing one keeps everything except, when `reconcile` holds, its product id.
   */
  function RepairInbox(s: Store, snapshot: Room, userId: string, otherId: string, roomId: string,
                       productId: string, now: int, reconcile: bool): (t: Store)
    ensures t.chatRooms == s.chatRooms && t.messages == s.messages
    ensures SameInboxesExcept(s, t, {(userId, roomId)})
    ensures CounterKeptOrZeroed(s, t, userId, roomId)
    ensures InboxOf(s, userId, roomId).None? ==>
              var e := InboxOf(t, userId, roomId).value;
              e.lastMessage == snapshot.lastMessage && e.productId == productId && e.otherUserId == Some(otherId)
              && e.lastMessageTimestamp == Some(if snapshot.lastMessageTimestamp == 0 then now else snapshot.lastMessageTimestamp)
    ensures InboxOf(s, userId, roomId).Some? && reconcile ==>
              InboxOf(t, userId, roomId) == Some(InboxOf(s, userId, roomId).value.(productId := productId))
    ensures InboxOf(s, userId, roomId).Some? && !reconcile ==> t == s
  {
    match InboxOf(s, userId, roomId)
    case None =>
      var stamp := if snapshot.lastMessageTimestamp == 0 then now else snapshot.lastMessageTimestamp;
      PutInbox(s, userId, roomId, Inbox(snapshot.lastMessage, Some(stamp), 0, productId, Some(otherId)))
    case Some(entry) =>
      if reconcile && entry.productId != productId then PutInbox(s, userId, roomId, entry.(productId := productId))
      else s
  }

  /** The three `set`s for an absent room: the record, then two fresh entries pointing at each other. */
  function CreateRoom(s: Store, me: string, other: string, roomId: string, productId: string, now: int): (t: Store)
    ensures t.messages == s.messages
    ensures SameRoomsExcept(s, t, {roomId})
    ensures SameInboxesExcept(s, t, {(me, roomId), (other, roomId)})
    ensures RoomOf(t, roomId) == Some(NewRoom(me, other, productId, now))
    ensures InboxOf(t, me, roomId) == Some(FreshInbox(other, productId, now))
    ensures InboxOf(t, other, roomId) == Some(FreshInbox(me, productId, now))
  {
    var s1 := PutRoom(s, roomId, NewRoom(me, other, productId, now));
    var s2 := PutInbox(s1, me, roomId, FreshInbox(other, productId, now));
    var t := PutInbox(s2, other, roomId, FreshInbox(me, productId, now));
    InboxFramesCompose(s1, s2, t, {(me, roomId)}, {(other, roomId)});
    assert {(me, roomId)} + {(other, roomId)} == {(me, roomId), (other, roomId)};
    t
  }

  /**
   * The path for an existing room: its product id is overwritten, and each
   * participant's entry is repaired from the room as it was read.
   */
  function RepairRoom(s: Store, me: string, other: string, roomId: string, productId: string,
                      now: int, reconcile: bool): (t: Store)
    requires roomId in s.chatRooms
    ensures t.messages == s.messages
    ensures SameRoomsExcept(s, t, {roomId})
    ensures SameInboxesExcept(s, t, {(me, roomId), (other, roomId)})
    ensures RoomOf(t, roomId) == Some(s.chatRooms[roomId].(productId := productId))
    ensures CounterKeptOrZeroed(s, t, me, roomId) && CounterKeptOrZeroed(s, t, other, roomId)
    ensures ExistingEntryKept(s, t, me, roomId, productId, reconcile)
    ensures ExistingEntryKept(s, t, other, roomId, productId, reconcile)
    ensures reconcile ==>
              InboxOf(t, me, roomId).value.productId == productId && InboxOf(t, other, roomId).value.productId == productId
  {
    var snapshot := s.chatRooms[roomId];
    var s1 := PutRoom(s, roomId, snapshot.(productId := productId));
    var s2 := RepairInbox(s1, snapshot, me, other, roomId, productId, now, reconcile);
    var t := RepairInbox(s2, snapshot, other, me, roomId, productId, now, reconcile);
    InboxFramesCompose(s1, s2, t, {(me, roomId)}, {(other, roomId)});
    assert {(me, roomId)} + {(other, roomId)} == {(me, roomId), (other, roomId)};
    assert me != other ==> InboxOf(t, me, roomId) == InboxOf(s2, me, roomId);
    t
  }

  /**
   * Makes sure the room and both inbox entries exist before a message is
   * written. An absent room is created with both entries zeroed; an existing
   * room only has its product id overwritten and missing entries added. With
   * `reconcile` (the purchase-request and seller paths) existing entries also
   * take the new product id. Messages are never touched.
   */
  function EnsureRoom(s: Store, me: string, other: string, roomId: string, productId: string,
                      now: int, reconcile: bool): (t: Store)
    ensures t.messages == s.messages
    ensures SameRoomsExcept(s, t, {roomId})
    ensures SameInboxesExcept(s, t, {(me, roomId), (other, roomId)})
    ensures RoomOf(t, roomId).Some? && InboxOf(t, me, roomId).Some? && InboxOf(t, other, roomId).Some?
    ensures roomId !in s.chatRooms ==>
              && t.chatRooms[roomId] == NewRoom(me, other, productId, now)
              && InboxOf(t, me, roomId).value.unreadCount == 0
              && InboxOf(t, other, roomId).value.unreadCount == 0
              && InboxOf(t, me, roomId).value.otherUserId == Some(other)
              && InboxOf(t, other, roomId).value.otherUserId == Some(me)
              && InboxOf(t, me, roomId).value.productId == productId
              && InboxOf(t, other, roomId).value.productId == productId
    ensures roomId in s.chatRooms ==>
              && t.chatRooms[roomId] == s.chatRooms[roomId].(productId := productId)
              && CounterKeptOrZeroed(s, t, me, roomId)
              && CounterKeptOrZeroed(s, t, other, roomId)
              && ExistingEntryKept(s, t, me, roomId, productId, reconcile)
              && ExistingEntryKept(s, t, other, roomId, productId, reconcile)
    ensures reconcile ==>
              InboxOf(t, me, roomId).value.productId == productId && InboxOf(t, other, roomId).value.productId == productId
  {
    if roomId !in s.chatRooms then CreateRoom(s, me, other, roomId, productId, now)
    else RepairRoom(s, me, other, roomId, productId, now, reconcile)
  }

  /**
   * Room set-up writes nothing when the room already carries the product id
   * and both entries exist (carrying it too, when reconciling).
   */
  lemma EnsureRoomSettled(s: Store, me: string, other: string, roomId: string, productId: string,
                          now: int, reconcile: bool)
    requires roomId in s.chatRooms && s.chatRooms[roomId].productId == productId
    requires InboxOf(s, me, roomId).Some? && InboxOf(s, other, roomId).Some?
    requires reconcile ==>
               InboxOf(s, me, roomId).value.productId == productId && InboxOf(s, other, roomId).value.productId == productId
    ensures EnsureRoom(s, me, other, roomId, productId, now, reconcile) == s
  {
    var s1 := PutRoom(s, roomId, s.chatRooms[roomId].(productId := productId));
    assert s1 == s;
  }

  /** A second identical call writes nothing: the room is never created twice. */
  lemma EnsureRoomIdempotent(s: Store, me: string, other: string, roomId: string, productId: string,
                             now: int, reconcile: bool)
    ensures var t := EnsureRoom(s, me, other, roomId, productId, now, reconcile);
            EnsureRoom(t, me, other, roomId, productId, now, reconcile) == t
  {
    var t := EnsureRoom(s, me, other, roomId, productId, now, reconcile);
    EnsureRoomSettled(t, me, other, roomId, productId, now, reconcile);
  }

  /** The counter value the recipient's entry holds once `EnsureRoom` has run. */
  function PriorUnread(s: Store, u: string, roomId: string): int {
    if roomId in s.chatRooms then InboxOrEmpty(s, u, roomId).unreadCount else 0
  }

  /**
   * Writes `message` under the fresh key, refreshes the room summary with
   * `summary`, bumps the recipient's counter and zeroes the sender's. When
   * sender and recipient coincide the zeroing write comes last and wins.
   */
  function Deliver(s: Store, roomId: string, sender: string, recipient: string, message: Message,
                   summary: string, productId: string, now: int, key: string): (t: Store)
    requires roomId in s.chatRooms
    ensures MessagesOf(t, roomId) == MessagesOf(s, roomId)[key := message]
    ensures SameMessagesExcept(s, t, {roomId})
    ensures SameRoomsExcept(s, t, {roomId})
    ensures SameInboxesExcept(s, t, {(sender, roomId), (recipient, roomId)})
    ensures roomId in t.chatRooms
    ensures var before, after := s.chatRooms[roomId], t.chatRooms[roomId];
            && after.participants == before.participants && after.createdAt == before.createdAt
            && after.lastMessage == summary && after.lastSenderId == sender
            && after.lastMessageTimestamp == message.timestamp && after.productId == productId
    ensures InboxOf(t, sender, roomId).Some? && InboxOf(t, recipient, roomId).Some?
    ensures InboxOf(t, sender, roomId).value.unreadCount == 0
    ensures recipient != sender ==>
              InboxOf(t, recipient, roomId).value.unreadCount == InboxOrEmpty(s, recipient, roomId).unreadCount + 1
    ensures recipient != sender && InboxOf(s, recipient, roomId).Some? ==>
              InboxOf(t, recipient, roomId).value.otherUserId == InboxOf(s, recipient, roomId).value.otherUserId
    ensures InboxOf(s, sender, roomId).Some? ==>
              InboxOf(t, sender, roomId).value.otherUserId == InboxOf(s, sender, roomId).value.otherUserId
    ensures forall u | u == sender || u == recipient ::
              && InboxOf(t, u, roomId).value.lastMessage == summary
              && InboxOf(t, u, roomId).value.lastMessageTimestamp == Some(now)
              && InboxOf(t, u, roomId).value.productId == productId
  {
    var s1 := PutMessage(s, roomId, key, message);
    var room := s1.chatRooms[roomId];
    var s2 := PutRoom(s1, roomId, room.(lastMessage := summary, lastMessageTimestamp := message.timestamp,
                                         lastSenderId := sender, productId := productId));
    NotifyInboxes(s2, roomId, sender, recipient, summary, productId, now)
  }

  /**
   * The two inbox writes of a send: the recipient's entry is bumped (or
   * created with counter 1), then the sender's entry is zeroed (or created
   * bare by the field-wise update).
   */
  function NotifyInboxes(s: Store, roomId: string, sender: string, recipient: string, summary: string,
                         productId: string, now: int): (t: Store)
    ensures t.chatRooms == s.chatRooms && t.messages == s.messages
    ensures SameInboxesExcept(s, t, {(sender, roomId), (recipient, roomId)})
    ensures InboxOf(t, sender, roomId).Some? && InboxOf(t, recipient, roomId).Some?
    ensures InboxOf(t, sender, roomId).value.unreadCount == 0
    ensures recipient != sender ==>
              InboxOf(t, recipient, roomId).value.unreadCount == InboxOrEmpty(s, recipient, roomId).unreadCount + 1
    ensures recipient != sender && InboxOf(s, recipient, roomId).Some? ==>
              InboxOf(t, recipient, roomId).value.otherUserId == InboxOf(s, recipient, roomId).value.otherUserId
    ensures InboxOf(s, sender, roomId).Some? ==>
              InboxOf(t, sender, roomId).value.otherUserId == InboxOf(s, sender, roomId).value.otherUserId
    ensures forall u | u == sender || u == recipient ::
              && InboxOf(t, u, roomId).value.lastMessage == summary
              && InboxOf(t, u, roomId).value.lastMessageTimestamp == Some(now)
              && InboxOf(t, u, roomId).value.productId == productId
  {
    var s1 := match InboxOf(s, recipient, roomId)
      case Some(e) =>
        PutInbox(s, recipient, roomId, e.(unreadCount := e.unreadCount + 1, lastMessage := summary,
                                          lastMessageTimestamp := Some(now), productId := productId))
      case None =>
        PutInbox(s, recipient, roomId, Inbox(summary, Some(now), 1, productId, Some(sender)));
    var t := PutInbox(s1, sender, roomId, InboxOrEmpty(s1, sender, roomId).(unreadCount := 0, lastMessage := summary,
                                                                           lastMessageTimestamp := Some(now), productId := productId));
    InboxFramesCompose(s, s1, t, {(recipient, roomId)}, {(sender, roomId)});
    assert {(recipient, roomId)} + {(sender, roomId)} == {(sender, roomId), (recipient, roomId)};
    t
  }

  /** True when `u`'s entry, if it existed, still exists and names the same other user. */
  ghost predicate OtherUserKept(s: Store, t: Store, u: string, roomId: string) {
    InboxOf(s, u, roomId).Some? ==>
      InboxOf(t, u, roomId).Some? && InboxOf(t, u, roomId).value.otherUserId == InboxOf(s, u, roomId).value.otherUserId
  }

  /**
   * The observable effect of one successful send into `roomId`: exactly one
   * new message under `key`, the room summary refreshed, the recipient's
   * counter one above its previous value, the sender's counter zero, the
   * entries of an existing room still naming the same other user (those of a
   * new room naming each other), and nothing outside the room and the two
   * entries changed.
   */
  ghost predicate Sent(s: Store, t: Store, roomId: string, sender: string, recipient: string,
                       summary: string, productId: string, now: int, key: string)
  {
    && key !in MessagesOf(s, roomId)
    && key in MessagesOf(t, roomId)
    && MessagesOf(t, roomId) - {key} == MessagesOf(s, roomId)
    && SameMessagesExcept(s, t, {roomId})
    && SameRoomsExcept(s, t, {roomId})
    && SameInboxesExcept(s, t, {(sender, roomId), (recipient, roomId)})
    && roomId in t.chatRooms
    && t.chatRooms[roomId].participants
       == (if roomId in s.chatRooms then s.chatRooms[roomId].participants else Participants(sender, recipient))
    && t.chatRooms[roomId].lastMessage == summary
    && t.chatRooms[roomId].lastSenderId == sender
    && t.chatRooms[roomId].lastMessageTimestamp == now
    && t.chatRooms[roomId].productId == productId
    && InboxOf(t, sender, roomId).Some? && InboxOf(t, recipient, roomId).Some?
    && InboxOf(t, sender, roomId).value.unreadCount == 0
    && (recipient != sender ==> InboxOf(t, recipient, roomId).value.unreadCount == PriorUnread(s, recipient, roomId) + 1)
    && InboxOf(t, sender, roomId).value.lastMessage == summary
    && InboxOf(t, recipient, roomId).value.lastMessage == summary
    && InboxOf(t, sender, roomId).value.productId == productId
    && InboxOf(t, recipient, roomId).value.productId == productId
    && (roomId in s.chatRooms ==> OtherUserKept(s, t, sender, roomId) && OtherUserKept(s, t, recipient, roomId))
    && (roomId !in s.chatRooms ==>
          && InboxOf(t, sender, roomId).value.otherUserId == Some(recipient)
          && InboxOf(t, recipient, roomId).value.otherUserId == Some(sender))
  }

  /** The message list of `EnsureRoom` followed by `Deliver`: one message more, under the fresh key. */
  lemma EnsureThenDeliverMessages(s: Store, s1: Store, t: Store, roomId: string, sender: string, recipient: string,
                                  message: Message, summary: string, productId: string, now: int, key: string,
                                  reconcile: bool)
    requires FreshKey(s, key)
    requires s1.messages == s.messages
    requires MessagesOf(t, roomId) == MessagesOf(s1, roomId)[key := message]
    requires SameMessagesExcept(s1, t, {roomId})
    ensures key !in MessagesOf(s, roomId) && key in MessagesOf(t, roomId)
    ensures MessagesOf(t, roomId) - {key} == MessagesOf(s, roomId)
    ensures MessagesOf(t, roomId)[key] == message
    ensures SameMessagesExcept(s, t, {roomId})
  {
    assert MessagesOf(s1, roomId) == MessagesOf(s, roomId);
    forall r | r !in {roomId} ensures MessagesOf(t, r) == MessagesOf(s, r) {
      assert MessagesOf(t, r) == MessagesOf(s1, r);
    }
  }

  /** Rooms and inbox entries outside the sent-to room are untouched by `EnsureRoom` followed by `Deliver`. */
  lemma EnsureThenDeliverFrames(s: Store, s1: Store, t: Store, roomId: string, sender: string, recipient: string,
                                message: Message, summary: string, productId: string, now: int, key: string,
                                reconcile: bool)
    requires SameRoomsExcept(s, s1, {roomId})
    requires SameInboxesExcept(s, s1, {(sender, roomId), (recipient, roomId)})
    requires SameRoomsExcept(s1, t, {roomId})
    requires SameInboxesExcept(s1, t, {(sender, roomId), (recipient, roomId)})
    ensures SameRoomsExcept(s, t, {roomId})
    ensures SameInboxesExcept(s, t, {(sender, roomId), (recipient, roomId)})
  {
    forall r | r !in {roomId} ensures RoomOf(t, r) == RoomOf(s, r) {
      assert RoomOf(t, r) == RoomOf(s1, r);
    }
    forall u, r | (u, r) !in {(sender, roomId), (recipient, roomId)}
      ensures InboxOf(t, u, r) == InboxOf(s, u, r)
    {
      assert InboxOf(t, u, r) == InboxOf(s1, u, r);
    }
  }

  /** The counters of `EnsureRoom` followed by `Deliver`. */
  lemma EnsureThenDeliverCounters(s: Store, s1: Store, t: Store, roomId: string, sender: string, recipient: string,
                                  message: Message, summary: string, productId: string, now: int, key: string,
                                  reconcile: bool)
    requires s1 == EnsureRoom(s, sender, recipient, roomId, productId, now, reconcile)
    requires t == Deliver(s1, roomId, sender, recipient, message, summary, productId, now, key)
    ensures recipient != sender ==>
              InboxOf(t, recipient, roomId).value.unreadCount == PriorUnread(s, recipient, roomId) + 1
  {
    if recipient != sender && roomId in s.chatRooms {
      assert CounterKeptOrZeroed(s, s1, recipient, roomId);
    }
  }

  /** The other-user fields of `EnsureRoom` followed by `Deliver`. */
  lemma EnsureThenDeliverPartners(s: Store, s1: Store, t: Store, roomId: string, sender: string, recipient: string,
                                  message: Message, summary: string, productId: string, now: int, key: string,
                                  reconcile: bool)
    requires s1 == EnsureRoom(s, sender, recipient, roomId, productId, now, reconcile)
    requires t == Deliver(s1, roomId, sender, recipient, message, summary, productId, now, key)
    ensures roomId in s.chatRooms ==> OtherUserKept(s, t, sender, roomId) && OtherUserKept(s, t, recipient, roomId)
    ensures roomId !in s.chatRooms ==>
              && InboxOf(t, sender, roomId).value.otherUserId == Some(recipient)
              && InboxOf(t, recipient, roomId).value.otherUserId == Some(sender)
  {
    if roomId in s.chatRooms {
      assert ExistingEntryKept(s, s1, sender, roomId, productId, reconcile);
      assert ExistingEntryKept(s, s1, recipient, roomId, productId, reconcile);
    }
  }

  /** `EnsureRoom` followed by `Deliver` is one send. */
  lemma EnsureThenDeliver(s: Store, roomId: string, sender: string, recipient: string, message: Message,
                          summary: string, productId: string, now: int, key: string, reconcile: bool)
    requires FreshKey(s, key)
    requires message.timestamp == now
    ensures var s1 := EnsureRoom(s, sender, recipient, roomId, productId, now, reconcile);
            var t := Deliver(s1, roomId, sender, recipient, message, summary, productId, now, key);
            Sent(s, t, roomId, sender, recipient, summary, productId, now, key)
            && MessagesOf(t, roomId)[key] == message
  {
    var s1 := EnsureRoom(s, sender, recipient, roomId, productId, now, reconcile);
    var t := Deliver(s1, roomId, sender, recipient, message, summary, productId, now, key);
    EnsureThenDeliverMessages(s, s1, t, roomId, sender, recipient, message, summary, productId, now, key, reconcile);
    EnsureThenDeliverFrames(s, s1, t, roomId, sender, recipient, message, summary, productId, now, key, reconcile);
    EnsureThenDeliverCounters(s, s1, t, roomId, sender, recipient, message, summary, productId, now, key, reconcile);
    EnsureThenDeliverPartners(s, s1, t, roomId, sender, recipient, message, summary, productId, now, key, reconcile);
  }

  /** `displayName || 'User'`. */
  function SenderName(me: User): (n: string)
    ensures n != ""
    ensures me.displayName != "" ==> n == me.displayName
    ensures me.displayName == "" ==> n == "User"
  {
    if me.displayName == "" then "User" else me.displayName
  }

  /** The record `sendMessage` pushes. */
  function TextMessage(me: User, text: string, recipientId: string, productId: string, now: int): Message {
    Message(text, me.uid, SenderName(me), recipientId, now, false, Some(Text), None, productId, None, None, None)
  }

  /**
   * `sendMessage(text, recipientId, productId)` as the signed-in user `me`,
   * at clock `now`, with the push key `key`.
   */
  function SendMessage(s: Store, me: Option<User>, text: string, recipientId: string, productId: string,
                       now: nat, key: string): (r: Outcome<Store>)
    requires FreshKey(s, key)
    ensures me.None? ==> r == Err(NotLoggedIn)
    ensures me.Some? ==> (r.Err? <==> me.value.uid == "" || recipientId == "")
    ensures me.Some? && r.Err? ==> r.error == MissingUserId
    ensures r.Ok? ==>
              var pid := EffectiveProductId(productId, now);
              var roomId := ChatRoomId(me.value.uid, recipientId, productId, now).value;
              && Sent(s, r.value, roomId, me.value.uid, recipientId, text, pid, now, key)
              && var m := MessagesOf(r.value, roomId)[key];
              && m.text == text && m.senderId == me.value.uid && m.recipientId == recipientId
              && m.senderName == SenderName(me.value)
              && !m.read && m.messageType == Some(Text) && m.status == None
              && m.productId == pid && m.timestamp == now
  {
    match me
    case None => Err(NotLoggedIn)
    case Some(user) =>
      var pid := EffectiveProductId(productId, now);
      match ChatRoomId(user.uid, recipientId, pid, now)
      case Err(e) => Err(e)
      case Ok(roomId) =>
        var s1 := EnsureRoom(s, user.uid, recipientId, roomId, pid, now, false);
        var message := TextMessage(user, text, recipientId, pid, now);
        EnsureThenDeliver(s, roomId, user.uid, recipientId, message, text, pid, now, key, false);
        Ok(Deliver(s1, roomId, user.uid, recipientId, message, text, pid, now, key))
  }

  /**
   * `createChatRoom(recipientId, productId)`: writes a new room record with
   * `set`, replacing any existing one (its summary is lost), and creates no
   * inbox entries. Returns the room id.
   */
  function CreateChatRoom(s: Store, me: Option<User>, recipientId: string, productId: string, now: nat)
    : (r: Outcome<(Store, string)>)
    ensures me.None? ==> r == Err(NotLoggedIn)
    ensures me.Some? ==> (r.Err? <==> me.value.uid == "" || recipientId == "")
    ensures r.Ok? ==>
              var (t, roomId) := r.value;
              && roomId == ChatRoomId(me.value.uid, recipientId, productId, now).value
              && RoomOf(t, roomId) == Some(NewRoom(me.value.uid, recipientId, EffectiveProductId(productId, now), now))
              && SameRoomsExcept(s, t, {roomId})
              && t.userChats == s.userChats && t.messages == s.messages
  {
    match me
    case None => Err(NotLoggedIn)
    case Some(user) =>
      var pid := EffectiveProductId(productId, now);
      match ChatRoomId(user.uid, recipientId, pid, now)
      case Err(e) => Err(e)
      case Ok(roomId) => Ok((PutRoom(s, roomId, NewRoom(user.uid, recipientId, pid, now)), roomId))
  }

  /**
   * A send after `createChatRoom` for the same users, product and clock lands
   * in the room it wrote: the participants it set are kept, and the entries
   * it did not create are added, the recipient's with one unread message and
   * the sender's with none.
   */
  lemma CreateThenSend(s: Store, me: User, text: string, recipientId: string, productId: string, now: nat,
                       key: string)
    requires FreshKey(s, key)
    requires me.uid != "" && recipientId != "" && me.uid != recipientId
    requires var roomId := ChatRoomId(me.uid, recipientId, productId, now).value;
             InboxOf(s, me.uid, roomId).None? && InboxOf(s, recipientId, roomId).None?
    ensures var c := CreateChatRoom(s, Some(me), recipientId, productId, now);
            && c.Ok?
            && var (t1, roomId) := c.value;
            && FreshKey(t1, key)
            && var r := SendMessage(t1, Some(me), text, recipientId, productId, now, key);
            && r.Ok?
            && r.value.chatRooms[roomId].participants == Participants(me.uid, recipientId)
            && InboxOf(r.value, recipientId, roomId).value.unreadCount == 1
            && InboxOf(r.value, me.uid, roomId).value.unreadCount == 0
  {
    var (t1, roomId) := CreateChatRoom(s, Some(me), recipientId, productId, now).value;
    assert t1.messages == s.messages;
    var t := SendMessage(t1, Some(me), text, recipientId, productId, now, key).value;
    assert PriorUnread(t1, recipientId, roomId) == 0;
  }

  // ---------------------------------------------------------------------
  // Unread counters against the messages they summarise
  // ---------------------------------------------------------------------

  /** Keys of the room's unread messages addressed to `u`. */
  function UnreadKeys(s: Store, u: string, roomId: string): set<string> {
    var msgs := MessagesOf(s, roomId);
    set k | k in msgs && msgs[k].recipientId == u && !msgs[k].read
  }

  /** The denormalised counter equals the number of unread messages it summarises. */
  ghost predicate CounterAgrees(s: Store, u: string, roomId: string) {
    InboxOf(s, u, roomId).Some? && InboxOf(s, u, roomId).value.unreadCount == |UnreadKeys(s, u, roomId)|
  }

  /** One send adds exactly one unread message for the recipient and nothing for anyone else. */
  lemma SendUnreadKeys(s: Store, t: Store, roomId: string, sender: string, recipient: string,
                       summary: string, productId: string, now: int, key: string, u: string)
    requires Sent(s, t, roomId, sender, recipient, summary, productId, now, key)
    requires MessagesOf(t, roomId)[key].recipientId == recipient && !MessagesOf(t, roomId)[key].read
    ensures u == recipient ==> UnreadKeys(t, u, roomId) == UnreadKeys(s, u, roomId) + {key}
    ensures u != recipient ==> UnreadKeys(t, u, roomId) == UnreadKeys(s, u, roomId)
    ensures key !in UnreadKeys(s, u, roomId)
  {
    var before, after := MessagesOf(s, roomId), MessagesOf(t, roomId);
    forall k | k in before ensures k in after && after[k] == before[k] {
      assert k in after - {key};
    }
    forall k | k in after && k != key ensures k in before {
      assert k in after - {key};
    }
  }

  /**
   * Increment-on-send keeps the recipient's counter exact, provided it was
   * exact before (or the room, and so the counter, is new and no stale unread
   * message lies under its id).
   */
  lemma SendKeepsRecipientCounter(s: Store, me: User, text: string, recipientId: string, productId: string,
                                  now: nat, key: string)
    requires FreshKey(s, key)
    requires me.uid != "" && recipientId != "" && me.uid != recipientId
    requires var roomId := ChatRoomId(me.uid, recipientId, productId, now).value;
             (roomId in s.chatRooms && CounterAgrees(s, recipientId, roomId))
             || (roomId !in s.chatRooms && UnreadKeys(s, recipientId, roomId) == {})
    ensures var r := SendMessage(s, Some(me), text, recipientId, productId, now, key);
            r.Ok? && CounterAgrees(r.value, recipientId, ChatRoomId(me.uid, recipientId, productId, now).value)
  {
    var roomId := ChatRoomId(me.uid, recipientId, productId, now).value;
    var t := SendMessage(s, Some(me), text, recipientId, productId, now, key).value;
    var pid := EffectiveProductId(productId, now);
    SendUnreadKeys(s, t, roomId, me.uid, recipientId, text, pid, now, key, recipientId);
    assert |UnreadKeys(t, recipientId, roomId)| == |UnreadKeys(s, recipientId, roomId)| + 1;
  }

  /**
   * Zero-on-send is not a read: a sender who still has unread messages in
   * the room ends up with a counter that no longer matches them.
   */
  lemma SendZeroesSenderCounter(s: Store, me: User, text: string, recipientId: string, productId: string,
                                now: nat, key: string)
    requires FreshKey(s, key)
    requires me.uid != "" && recipientId != "" && me.uid != recipientId
    requires UnreadKeys(s, me.uid, ChatRoomId(me.uid, recipientId, productId, now).value) != {}
    ensures var r := SendMessage(s, Some(me), text, recipientId, productId, now, key);
            r.Ok? && !CounterAgrees(r.value, me.uid, ChatRoomId(me.uid, recipientId, productId, now).value)
  {
    var roomId := ChatRoomId(me.uid, recipientId, productId, now).value;
    var r := SendMessage(s, Some(me), text, recipientId, productId, now, key);
    assert r.Ok?;
    var t := r.value;
    var pid := EffectiveProductId(productId, now);
    assert Sent(s, t, roomId, me.uid, recipientId, text, pid, now, key);
    SendUnreadKeys(s, t, roomId, me.uid, recipientId, text, pid, now, key, me.uid);
    var k :| k in UnreadKeys(s, me.uid, roomId);
    assert k in UnreadKeys(t, me.uid, roomId);
    assert InboxOf(t, me.uid, roomId).value.unreadCount == 0;
  }

}
