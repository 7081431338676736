/**
 * `sendMessageToEscrowAgent(text, productId)`: every user's message to the
 * escrow agent goes into one shared room with the fixed id `escrow_agent`,
 * whose participant list accumulates everyone who has written there.
 */
module Escrow {
  import opened Wrappers
  import opened Sequences
  import opened ChatStore
  import opened SendPath

  /** The fixed id of the shared escrow room. */
  const EscrowRoomId: string := "escrow_agent"

  /** The recipient used when no escrow agent could be looked up; nobody's inbox is kept for it. */
  const PlaceholderAgent: string := "escrow_agent"

  /** The product id used when none is given. */
  const GeneralEscrow: string := "general_escrow"

  /** `await getEscrowAgentId() || 'escrow_agent'`, with the looked-up id passed in ("" for none). */
  function EscrowAgent(agentId: string): (a: string)
    ensures a != ""
    ensures agentId != "" ==> a == agentId
    ensures agentId == "" ==> a == "escrow_agent"
  {
    if agentId == "" then PlaceholderAgent else agentId
  }

  /** `productId || 'general_escrow'`. */
  function EscrowProductId(productId: string): (p: string)
    ensures p != ""
    ensures productId != "" ==> p == productId
    ensures productId == "" ==> p == "general_escrow"
  {
    if productId == "" then GeneralEscrow else productId
  }

  /** `Array.from(new Set([...(participants || []), me, agent]))`. */
  function EscrowParticipants(s: Store, me: string, agent: string): (ps: seq<string>)
    ensures Distinct(ps)
    ensures (set u | u in ps) == (set u | u in Previous(s)) + {me, agent}
    ensures Distinct(Previous(s)) ==> |Previous(s)| <= |ps| && ps[..|Previous(s)|] == Previous(s)
  {
    var before := Previous(s);
    assert (set u | u in before + [me, agent]) == (set u | u in before) + {me, agent};
    DedupPrefix(before, [me, agent]);
    if Distinct(before) then
      DedupOfDistinct(before);
      Dedup(before + [me, agent])
    else Dedup(before + [me, agent])
  }

  /** The escrow room's participant list before the call (none when the room is absent). */
  function Previous(s: Store): seq<string> {
    if EscrowRoomId in s.chatRooms then s.chatRooms[EscrowRoomId].participants else []
  }

  /** The room record after the call: `set` with `createdAt` when new, field-wise `update` otherwise. */
  function EscrowRoom(s: Store, me: string, agent: string, text: string, productId: string, now: int): (room: Room)
    ensures room.participants == EscrowParticipants(s, me, agent)
    ensures room.lastMessage == text && room.lastMessageTimestamp == now
    ensures room.lastSenderId == me && room.productId == productId
    ensures room.createdAt == (if EscrowRoomId in s.chatRooms then s.chatRooms[EscrowRoomId].createdAt else now)
  {
    var ps := EscrowParticipants(s, me, agent);
    match RoomOf(s, EscrowRoomId)
    case None => Room(ps, now, text, now, me, productId)
    case Some(prior) =>
      prior.(lastMessage := text, lastMessageTimestamp := now, lastSenderId := me, participants := ps, productId := productId)
  }

  /**
   * The sender's entry: created with a zero counter and the agent as the
   * other user, or refreshed keeping its counter and other user.
   */
  function SenderEntry(s: Store, me: string, agent: string, text: string, productId: string, now: int): Inbox {
    match InboxOf(s, me, EscrowRoomId)
    case None => Inbox(text, Some(now), 0, productId, Some(agent))
    case Some(e) => e.(lastMessage := text, lastMessageTimestamp := Some(now), productId := productId)
  }

  /** The agent's entry: created with counter 1, or refreshed with the counter bumped. */
  function AgentEntry(s: Store, me: string, agent: string, text: string, productId: string, now: int): Inbox {
    match InboxOf(s, agent, EscrowRoomId)
    case None => Inbox(text, Some(now), 1, productId, Some(me))
    case Some(e) =>
      e.(lastMessage := text, lastMessageTimestamp := Some(now), unreadCount := e.unreadCount + 1, productId := productId)
  }

  /**
   * The two inbox writes: the sender's entry is refreshed, and the agent's
   * counter goes up unless the agent is the placeholder. The agent's write
   * comes last, so when the looked-up agent is the sender the sender's own
   * counter goes up.
   */
  function UpdateEscrowInboxes(s: Store, me: string, agent: string, text: string, productId: string, now: int)
    : (t: Store)
    ensures t.chatRooms == s.chatRooms && t.messages == s.messages
    ensures SameInboxesExcept(s, t, {(me, EscrowRoomId), (agent, EscrowRoomId)})
    ensures agent != PlaceholderAgent && agent != me ==>
              && InboxOf(t, agent, EscrowRoomId).Some?
              && InboxOf(t, agent, EscrowRoomId).value.unreadCount == InboxOrEmpty(s, agent, EscrowRoomId).unreadCount + 1
              && InboxOf(t, agent, EscrowRoomId).value.lastMessage == text
    ensures agent == PlaceholderAgent && me != agent ==> InboxOf(t, agent, EscrowRoomId) == InboxOf(s, agent, EscrowRoomId)
    ensures agent != me || agent == PlaceholderAgent ==>
              && InboxOf(t, me, EscrowRoomId).Some?
              && InboxOf(t, me, EscrowRoomId).value.unreadCount == InboxOrEmpty(s, me, EscrowRoomId).unreadCount
              && InboxOf(t, me, EscrowRoomId).value.lastMessage == text
              && InboxOf(t, me, EscrowRoomId).value.productId == productId
    ensures agent == me && agent != PlaceholderAgent ==>
              && InboxOf(t, me, EscrowRoomId).Some?
              && InboxOf(t, me, EscrowRoomId).value.unreadCount == InboxOrEmpty(s, me, EscrowRoomId).unreadCount + 1
              && InboxOf(t, me, EscrowRoomId).value.lastMessage == text
              && InboxOf(t, me, EscrowRoomId).value.productId == productId
  {
    var s1 := PutInbox(s, me, EscrowRoomId, SenderEntry(s, me, agent, text, productId, now));
    if agent != PlaceholderAgent then
      var t := PutInbox(s1, agent, EscrowRoomId, AgentEntry(s1, me, agent, text, productId, now));
      assert agent != me ==> InboxOf(t, me, EscrowRoomId) == InboxOf(s1, me, EscrowRoomId);
      t
    else s1
  }

  /**
   * The writes of a signed-in call: the two inbox entries, the room record
   * and the message under the fresh key. They touch disjoint trees, so their
   * order does not matter.
   */
  function EscrowWrites(s: Store, user: User, text: string, agent: string, pid: string, now: int, key: string)
    : (t: Store)
    ensures MessagesOf(t, EscrowRoomId) == MessagesOf(s, EscrowRoomId)[key := TextMessage(user, text, agent, pid, now)]
    ensures SameMessagesExcept(s, t, {EscrowRoomId})
    ensures SameRoomsExcept(s, t, {EscrowRoomId})
    ensures RoomOf(t, EscrowRoomId) == Some(EscrowRoom(s, user.uid, agent, text, pid, now))
    ensures t.userChats == UpdateEscrowInboxes(s, user.uid, agent, text, pid, now).userChats
  {
    var s1 := UpdateEscrowInboxes(s, user.uid, agent, text, pid, now);
    var s2 := PutRoom(s1, EscrowRoomId, EscrowRoom(s, user.uid, agent, text, pid, now));
    PutMessage(s2, EscrowRoomId, key, TextMessage(user, text, agent, pid, now))
  }

  /**
   * `sendMessageToEscrowAgent(text, productId)` as `me`, with the looked-up
   * agent id `agentId`, clock `now` and push key `key`. The room summary and
   * participants are refreshed, the sender's entry is refreshed without
   * touching its counter, the agent's counter goes up by one unless the
   * agent is the placeholder, and one message addressed to the agent is
   * added.
   */
  function SendMessageToEscrowAgent(s: Store, me: Option<User>, text: string, productId: string, agentId: string,
                                    now: nat, key: string): (r: Outcome<Store>)
    requires FreshKey(s, key)
    ensures me.None? <==> r.Err?
    ensures r.Err? ==> r.error == NotLoggedIn
    ensures r.Ok? ==>
              var (t, uid, agent, pid) := (r.value, me.value.uid, EscrowAgent(agentId), EscrowProductId(productId));
              && key !in MessagesOf(s, EscrowRoomId) && key in MessagesOf(t, EscrowRoomId)
              && MessagesOf(t, EscrowRoomId) - {key} == MessagesOf(s, EscrowRoomId)
              && MessagesOf(t, EscrowRoomId)[key] == TextMessage(me.value, text, agent, pid, now)
              && SameMessagesExcept(s, t, {EscrowRoomId})
              && SameRoomsExcept(s, t, {EscrowRoomId})
              && RoomOf(t, EscrowRoomId) == Some(EscrowRoom(s, uid, agent, text, pid, now))
              && t.userChats == UpdateEscrowInboxes(s, uid, agent, text, pid, now).userChats
  {
    match me
    case None => Err(NotLoggedIn)
    case Some(user) =>
      var agent := EscrowAgent(agentId);
      var pid := EscrowProductId(productId);
      var message := TextMessage(user, text, agent, pid, now);
      assert key !in MessagesOf(s, EscrowRoomId);
      AddFreshKey(MessagesOf(s, EscrowRoomId), key, message);
      Ok(EscrowWrites(s, user, text, agent, pid, now, key))
  }

  /**
   * The escrow room's participant list only grows: two users who write to
   * the agent one after the other both end up listed, with the agent, and
   * everyone listed before stays listed.
   */
  lemma EscrowParticipantsAccumulate(s: Store, a: User, b: User, textA: string, textB: string, productId: string,
                                     agentId: string, now: nat, keyA: string, keyB: string)
    requires FreshKey(s, keyA)
    requires FreshKey(SendMessageToEscrowAgent(s, Some(a), textA, productId, agentId, now, keyA).value, keyB)
    ensures var t1 := SendMessageToEscrowAgent(s, Some(a), textA, productId, agentId, now, keyA).value;
            var t2 := SendMessageToEscrowAgent(t1, Some(b), textB, productId, agentId, now, keyB).value;
            var listed := set u | u in t2.chatRooms[EscrowRoomId].participants;
            && {a.uid, b.uid, EscrowAgent(agentId)} <= listed
            && (set u | u in Previous(s)) <= listed
  {
    var t1 := SendMessageToEscrowAgent(s, Some(a), textA, productId, agentId, now, keyA).value;
    assert Previous(t1) == EscrowParticipants(s, a.uid, EscrowAgent(agentId));
  }
}
