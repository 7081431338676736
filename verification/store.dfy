/**
 * The realtime database as the chat service sees it: three top-level nodes
 * `chatRooms/{roomId}`, `userChats/{userId}/{roomId}` and
 * `messages/{roomId}/{messageKey}`, each written by whole-record `set`,
 * field-wise `update` or removal.
 *
 * Convention: the source reads most optional fields through `x || default`
 * or `!x`, which cannot tell a missing field from an empty string or zero.
 * Such fields are plain values here whose falsy value ("" or 0) stands for
 * "missing". The two inbox fields compared strictly by the source
 * (`lastMessageTimestamp >= max`, `otherUserId === sellerId`) are `Option`s.
 */
module ChatStore {
  import opened Wrappers

  datatype MessageType = Text | PurchaseRequest

  datatype Status = Pending | Agreed | Completed

  datatype PaymentMethod = Stripe | Bitcoin

  /** One record under `messages/{roomId}`. */
  datatype Message = Message(
    text: string,
    senderId: string,
    senderName: string,
    recipientId: string,
    timestamp: int,
    read: bool,
    messageType: Option<MessageType>,
    status: Option<Status>,
    productId: string,
    paymentMethod: Option<PaymentMethod>,
    withAgent: Option<bool>,
    walletAddress: Option<string>)

  /** The record at `chatRooms/{roomId}`. */
  datatype Room = Room(
    participants: seq<string>,
    createdAt: int,
    lastMessage: string,
    lastMessageTimestamp: int,
    lastSenderId: string,
    productId: string)

  /** One user's summary of one room, at `userChats/{userId}/{roomId}`. */
  datatype Inbox = Inbox(
    lastMessage: string,
    lastMessageTimestamp: Option<int>,
    unreadCount: int,
    productId: string,
    otherUserId: Option<string>)

  datatype Store = Store(
    chatRooms: map<string, Room>,
    userChats: map<string, map<string, Inbox>>,
    messages: map<string, map<string, Message>>)

  /** The signed-in identity: `auth.currentUser.uid` and `displayName` ("" when unset). */
  datatype User = User(uid: string, displayName: string)

  /** The errors the service throws before writing anything. */
  datatype ChatError =
    | NotLoggedIn
    | MissingUserId
    | RoomNotFound
    | NotParticipant
    | MessageNotFound
    | NotRecipient
    | MissingProductId
    | UserIdRequired

  type Outcome<T> = Result<T, ChatError>

  /** What a field-wise `update` on a missing inbox path starts from. */
  const EmptyInbox: Inbox := Inbox("", None, 0, "", None)

  // ---------------------------------------------------------------------
  // Reads
  // ---------------------------------------------------------------------

  function RoomOf(s: Store, roomId: string): Option<Room> {
    if roomId in s.chatRooms then Some(s.chatRooms[roomId]) else None
  }

  function InboxOf(s: Store, userId: string, roomId: string): Option<Inbox> {
    if userId in s.userChats && roomId in s.userChats[userId] then Some(s.userChats[userId][roomId]) else None
  }

  /** The inbox entry, or the empty record an `update` would start from. */
  function InboxOrEmpty(s: Store, userId: string, roomId: string): Inbox {
    InboxOf(s, userId, roomId).GetOr(EmptyInbox)
  }

  /** The room ids under `userChats/{userId}`. */
  function InboxKeys(s: Store, userId: string): set<string> {
    if userId in s.userChats then s.userChats[userId].Keys else {}
  }

  /** The children of `messages/{roomId}` (none when the node is absent). */
  function MessagesOf(s: Store, roomId: string): map<string, Message> {
    if roomId in s.messages then s.messages[roomId] else map[]
  }

  /** A push key that names no message anywhere: the generator's uniqueness guarantee. */
  predicate FreshKey(s: Store, key: string) {
    forall roomId :: roomId in s.messages ==> key !in s.messages[roomId]
  }

  // ---------------------------------------------------------------------
  // Observational frames
  // ---------------------------------------------------------------------

  ghost predicate SameRoomsExcept(s: Store, t: Store, rooms: set<string>) {
    forall roomId :: roomId !in rooms ==> RoomOf(t, roomId) == RoomOf(s, roomId)
  }

  ghost predicate SameMessagesExcept(s: Store, t: Store, rooms: set<string>) {
    forall roomId :: roomId !in rooms ==> MessagesOf(t, roomId) == MessagesOf(s, roomId)
  }

  /** Every inbox entry outside the given rooms is unchanged, whoever owns it. */
  ghost predicate SameInboxRoomsExcept(s: Store, t: Store, rooms: set<string>) {
    forall userId, roomId :: roomId !in rooms ==> InboxOf(t, userId, roomId) == InboxOf(s, userId, roomId)
  }

  ghost predicate SameInboxesExcept(s: Store, t: Store, entries: set<(string, string)>) {
    forall userId, roomId :: (userId, roomId) !in entries ==> InboxOf(t, userId, roomId) == InboxOf(s, userId, roomId)
  }

  /** Two frames compose: what neither step may change is unchanged by both. */
  lemma RoomFramesCompose(s: Store, s1: Store, t: Store, rooms1: set<string>, rooms2: set<string>)
    requires SameRoomsExcept(s, s1, rooms1) && SameRoomsExcept(s1, t, rooms2)
    ensures SameRoomsExcept(s, t, rooms1 + rooms2)
  {
  }

  lemma MessageFramesCompose(s: Store, s1: Store, t: Store, rooms1: set<string>, rooms2: set<string>)
    requires SameMessagesExcept(s, s1, rooms1) && SameMessagesExcept(s1, t, rooms2)
    ensures SameMessagesExcept(s, t, rooms1 + rooms2)
  {
  }

  lemma InboxRoomFramesCompose(s: Store, s1: Store, t: Store, rooms1: set<string>, rooms2: set<string>)
    requires SameInboxRoomsExcept(s, s1, rooms1) && SameInboxRoomsExcept(s1, t, rooms2)
    ensures SameInboxRoomsExcept(s, t, rooms1 + rooms2)
  {
  }

  lemma InboxFramesCompose(s: Store, s1: Store, t: Store, entries1: set<(string, string)>,
                           entries2: set<(string, string)>)
    requires SameInboxesExcept(s, s1, entries1) && SameInboxesExcept(s1, t, entries2)
    ensures SameInboxesExcept(s, t, entries1 + entries2)
  {
  }

  /** A step that leaves every inbox alone keeps any inbox frame. */
  lemma InboxFrameSameChats(s: Store, s1: Store, t: Store, entries: set<(string, string)>)
    requires SameInboxesExcept(s, s1, entries) && t.userChats == s1.userChats
    ensures SameInboxesExcept(s, t, entries)
  {
    forall userId, roomId | (userId, roomId) !in entries
      ensures InboxOf(t, userId, roomId) == InboxOf(s, userId, roomId)
    {
      assert InboxOf(t, userId, roomId) == InboxOf(s1, userId, roomId);
    }
  }

  // ---------------------------------------------------------------------
  // Writes: `set` of a record and `set(ref, null)`
  // ---------------------------------------------------------------------

  function PutRoom(s: Store, roomId: string, room: Room): (t: Store)
    ensures RoomOf(t, roomId) == Some(room)
    ensures SameRoomsExcept(s, t, {roomId})
    ensures t.userChats == s.userChats && t.messages == s.messages
  {
    s.(chatRooms := s.chatRooms[roomId := room])
  }

  function RemoveRoom(s: Store, roomId: string): (t: Store)
    ensures RoomOf(t, roomId) == None
    ensures SameRoomsExcept(s, t, {roomId})
    ensures t.userChats == s.userChats && t.messages == s.messages
  {
    s.(chatRooms := s.chatRooms - {roomId})
  }

  function PutInbox(s: Store, userId: string, roomId: string, entry: Inbox): (t: Store)
    ensures InboxOf(t, userId, roomId) == Some(entry)
    ensures SameInboxesExcept(s, t, {(userId, roomId)})
    ensures InboxKeys(t, userId) == InboxKeys(s, userId) + {roomId}
    ensures forall u :: u != userId ==> InboxKeys(t, u) == InboxKeys(s, u)
    ensures t.chatRooms == s.chatRooms && t.messages == s.messages
  {
    var chats := if userId in s.userChats then s.userChats[userId] else map[];
    s.(userChats := s.userChats[userId := chats[roomId := entry]])
  }

  function RemoveInbox(s: Store, userId: string, roomId: string): (t: Store)
    ensures InboxOf(t, userId, roomId) == None
    ensures SameInboxesExcept(s, t, {(userId, roomId)})
    ensures InboxKeys(t, userId) == InboxKeys(s, userId) - {roomId}
    ensures forall u :: u != userId ==> InboxKeys(t, u) == InboxKeys(s, u)
    ensures t.chatRooms == s.chatRooms && t.messages == s.messages
  {
    if userId in s.userChats then s.(userChats := s.userChats[userId := s.userChats[userId] - {roomId}]) else s
  }

  function PutMessage(s: Store, roomId: string, key: string, message: Message): (t: Store)
    ensures MessagesOf(t, roomId) == MessagesOf(s, roomId)[key := message]
    ensures SameMessagesExcept(s, t, {roomId})
    ensures t.chatRooms == s.chatRooms && t.userChats == s.userChats
  {
    s.(messages := s.messages[roomId := MessagesOf(s, roomId)[key := message]])
  }

  /** Adding a message under a key the room does not use yet adds exactly that one message. */
  lemma AddFreshKey(msgs: map<string, Message>, key: string, message: Message)
    requires key !in msgs
    ensures key in msgs[key := message] && msgs[key := message][key] == message
    ensures msgs[key := message] - {key} == msgs
  {
  }

  /** Overwriting a message under another key leaves a fresh push key fresh. */
  lemma PutMessageKeepsFresh(s: Store, roomId: string, k: string, message: Message, key: string)
    requires FreshKey(s, key) && k != key
    ensures FreshKey(PutMessage(s, roomId, k, message), key)
  {
    var t := PutMessage(s, roomId, k, message);
    forall r | r in t.messages ensures key !in t.messages[r] {
      assert t.messages[r] == MessagesOf(t, r);
      if r != roomId {
        assert MessagesOf(t, r) == MessagesOf(s, r);
      }
    }
  }

  /** `set(messages/{roomId}, null)`. */
  function RemoveMessages(s: Store, roomId: string): (t: Store)
    ensures MessagesOf(t, roomId) == map[] && roomId !in t.messages
    ensures SameMessagesExcept(s, t, {roomId})
    ensures t.chatRooms == s.chatRooms && t.userChats == s.userChats
  {
    s.(messages := s.messages - {roomId})
  }

  /** Replaces a room's whole message list (an empty map is the `null` write). */
  function PutMessages(s: Store, roomId: string, list: map<string, Message>): (t: Store)
    ensures MessagesOf(t, roomId) == list
    ensures SameMessagesExcept(s, t, {roomId})
    ensures t.chatRooms == s.chatRooms && t.userChats == s.userChats
  {
    s.(messages := s.messages[roomId := list])
  }
}
