/**
 * `getChatRoomWithSeller(sellerId, productId)`: finds or creates the room a
 * buyer uses to talk to a seller. The placeholder product id `messages`
 * first looks for the most recent product-specific room with that seller in
 * the buyer's inbox; the room found or derived is then created, or repaired
 * to carry the chosen product id and the expected participants.
 */
module SellerChat {
  import opened Wrappers
  import opened Strings
  import opened Sequences
  import opened ChatStore
  import opened RoomIds
  import opened SendPath

  /** The generic product id of the inbox page. */
  const MessagesPlaceholder: string := "messages"

  /** A product id that names a real product: not empty, not the placeholder, not a synthetic `general_` id. */
  predicate IsSpecific(productId: string) {
    productId != "" && productId != MessagesPlaceholder && !StartsWith(productId, GeneralPrefix)
  }

  /**
   * An inbox entry of `me` the search may pick: with `seller`, for a specific
   * product, carrying a timestamp no smaller than the search's starting
   * maximum 0 (`undefined >= 0` is false).
   */
  predicate Candidate(s: Store, me: string, seller: string, roomId: string) {
    && roomId in InboxKeys(s, me)
    && var e := s.userChats[me][roomId];
    && e.otherUserId == Some(seller)
    && IsSpecific(e.productId)
    && e.lastMessageTimestamp.Some? && e.lastMessageTimestamp.value >= 0
  }

  function Stamp(s: Store, me: string, roomId: string): int
    requires roomId in InboxKeys(s, me)
  {
    s.userChats[me][roomId].lastMessageTimestamp.GetOr(0)
  }

  /** The loop's state: the largest timestamp seen and the position it was seen at (-1 for none). */
  datatype Pick = Pick(max: int, index: int)

  /**
   * The `forEach` over `me`'s inbox in visiting order `order`, replacing the
   * pick whenever a candidate's timestamp is at least the current maximum:
   * among the candidates with the largest timestamp, the last one visited wins.
   */
  function Scan(s: Store, me: string, seller: string, order: seq<string>): (p: Pick)
    ensures -1 <= p.index < |order|
    ensures p.index == -1 ==> p.max == 0 && forall j | 0 <= j < |order| :: !Candidate(s, me, seller, order[j])
    ensures p.index >= 0 ==> Candidate(s, me, seller, order[p.index]) && p.max == Stamp(s, me, order[p.index])
    ensures forall j | 0 <= j < |order| && Candidate(s, me, seller, order[j]) :: Stamp(s, me, order[j]) <= p.max
    ensures p.index >= 0 ==>
              forall j | p.index < j < |order| && Candidate(s, me, seller, order[j]) :: Stamp(s, me, order[j]) < p.max
  {
    if |order| == 0 then Pick(0, -1)
    else
      var init := order[..|order| - 1];
      var last := order[|order| - 1];
      var p := Scan(s, me, seller, init);
      assert forall j | 0 <= j < |init| :: init[j] == order[j];
      if Candidate(s, me, seller, last) && Stamp(s, me, last) >= p.max then Pick(Stamp(s, me, last), |order| - 1)
      else p
  }

  /**
   * Independent description of the search's answer: position `i` holds a
   * candidate whose timestamp no candidate exceeds and no later candidate
   * reaches.
   */
  ghost predicate LatestSpecific(s: Store, me: string, seller: string, order: seq<string>, i: int) {
    && 0 <= i < |order|
    && Candidate(s, me, seller, order[i])
    && (forall j | 0 <= j < |order| && Candidate(s, me, seller, order[j]) :: Stamp(s, me, order[j]) <= Stamp(s, me, order[i]))
    && (forall j | i < j < |order| && Candidate(s, me, seller, order[j]) :: Stamp(s, me, order[j]) < Stamp(s, me, order[i]))
  }

  /**
   * The search finds something exactly when some candidate exists, and then
   * the position it finds is the one `LatestSpecific` describes.
   */
  lemma ScanIsLatestSpecific(s: Store, me: string, seller: string, order: seq<string>, i: int)
    ensures Scan(s, me, seller, order).index >= 0 <==> exists j | 0 <= j < |order| :: Candidate(s, me, seller, order[j])
    ensures LatestSpecific(s, me, seller, order, i) <==> 0 <= i == Scan(s, me, seller, order).index
  {
    var p := Scan(s, me, seller, order);
    if LatestSpecific(s, me, seller, order, i) {
      assert p.index >= 0;
      assert Stamp(s, me, order[i]) <= p.max;
      assert Stamp(s, me, order[p.index]) <= Stamp(s, me, order[i]);
      assert i == p.index;
    }
    if i == p.index && i >= 0 {
      assert LatestSpecific(s, me, seller, order, i);
    }
  }

  /** What the seller path settles on before touching the store. */
  datatype Target = Target(roomId: Outcome<string>, productId: string)

  /**
   * The room and product id the call uses: the found room and its product
   * id, or the room derived from the two users and the requested product id.
   * A found room whose key is empty counts as not found (`mostRecentSpecificRoomId && …`).
   */
  function ResolveTarget(s: Store, me: string, seller: string, productId: string, order: seq<string>, now: nat)
    : (r: Target)
    requires productId != ""
    ensures r.productId != ""
    ensures productId != MessagesPlaceholder ==>
              r == Target(ChatRoomId(me, seller, productId, now), productId)
    ensures productId == MessagesPlaceholder ==>
              var i := Scan(s, me, seller, order).index;
              if i >= 0 && order[i] != "" then
                && LatestSpecific(s, me, seller, order, i)
                && r.roomId == Ok(order[i]) && r.productId == s.userChats[me][order[i]].productId
                && IsSpecific(r.productId)
              else
                r == Target(ChatRoomId(me, seller, MessagesPlaceholder, now), MessagesPlaceholder)
  {
    if productId != MessagesPlaceholder then Target(ChatRoomId(me, seller, productId, now), productId)
    else
      var i := Scan(s, me, seller, order).index;
      ScanIsLatestSpecific(s, me, seller, order, i);
      if i >= 0 && order[i] != "" then Target(Ok(order[i]), s.userChats[me][order[i]].productId)
      else Target(ChatRoomId(me, seller, MessagesPlaceholder, now), MessagesPlaceholder)
  }

  /**
   * The store half of the seller path once the room id and product id are
   * chosen: the room and both entries exist and carry `productId`, and the
   * room lists exactly the two users. `SettleSellerRoomKeeps` states what it
   * keeps.
   */
  function SettleSellerRoom(s: Store, me: string, sellerId: string, roomId: string, productId: string, now: nat)
    : (t: Store)
    ensures t.messages == s.messages
    ensures SameRoomsExcept(s, t, {roomId})
    ensures SameInboxesExcept(s, t, {(me, roomId), (sellerId, roomId)})
    ensures roomId in t.chatRooms
    ensures t.chatRooms[roomId].productId == productId
    ensures multiset(t.chatRooms[roomId].participants) == multiset(Participants(me, sellerId))
    ensures InboxOf(t, me, roomId).Some? && InboxOf(t, me, roomId).value.productId == productId
    ensures InboxOf(t, sellerId, roomId).Some? && InboxOf(t, sellerId, roomId).value.productId == productId
    ensures roomId in s.chatRooms ==>
              ExistingEntryKept(s, t, me, roomId, productId, true) && ExistingEntryKept(s, t, sellerId, roomId, productId, true)
  {
    var t1 := EnsureRoom(s, me, sellerId, roomId, productId, now, true);
    var t := FixParticipants(s, t1, roomId, Participants(me, sellerId));
    assert t.userChats == t1.userChats;
    InboxFrameSameChats(s, t1, t, {(me, roomId), (sellerId, roomId)});
    RoomFramesCompose(s, t1, t, {roomId}, {roomId});
    assert {roomId} + {roomId} == {roomId};
    t
  }

  /**
   * What settling keeps: an existing room keeps its summary, creation time
   * and both counters, and its participant list unless that list differed
   * from the expected one after sorting; a new room starts with both
   * counters at zero.
   */
  lemma SettleSellerRoomKeeps(s: Store, me: string, sellerId: string, roomId: string, productId: string, now: nat)
    ensures var t := SettleSellerRoom(s, me, sellerId, roomId, productId, now);
            roomId in s.chatRooms ==> CounterKeptOrZeroed(s, t, me, roomId) && CounterKeptOrZeroed(s, t, sellerId, roomId)
    ensures var t := SettleSellerRoom(s, me, sellerId, roomId, productId, now);
            roomId !in s.chatRooms ==>
              && t.chatRooms[roomId] == NewRoom(me, sellerId, productId, now)
              && InboxOf(t, me, roomId).value.unreadCount == 0 && InboxOf(t, sellerId, roomId).value.unreadCount == 0
    ensures var t := SettleSellerRoom(s, me, sellerId, roomId, productId, now);
            roomId in s.chatRooms ==>
              var before, after := s.chatRooms[roomId], t.chatRooms[roomId];
              && after.lastMessage == before.lastMessage && after.lastSenderId == before.lastSenderId
              && after.lastMessageTimestamp == before.lastMessageTimestamp && after.createdAt == before.createdAt
    ensures var t := SettleSellerRoom(s, me, sellerId, roomId, productId, now);
            roomId in s.chatRooms && SortStrings(s.chatRooms[roomId].participants) == Participants(me, sellerId) ==>
              t.chatRooms[roomId].participants == s.chatRooms[roomId].participants
    ensures var t := SettleSellerRoom(s, me, sellerId, roomId, productId, now);
            roomId in s.chatRooms && SortStrings(s.chatRooms[roomId].participants) != Participants(me, sellerId) ==>
              t.chatRooms[roomId].participants == Participants(me, sellerId)
  {
    var t1 := EnsureRoom(s, me, sellerId, roomId, productId, now, true);
    var t := FixParticipants(s, t1, roomId, Participants(me, sellerId));
    assert t == SettleSellerRoom(s, me, sellerId, roomId, productId, now);
    if roomId in s.chatRooms {
      assert InboxOf(t, me, roomId) == InboxOf(t1, me, roomId);
      assert InboxOf(t, sellerId, roomId) == InboxOf(t1, sellerId, roomId);
    }
  }

  /**
   * The participant repair of an existing room: the list read before the
   * repair is compared with `expected` after sorting, and replaced by
   * `expected` when they differ.
   */
  function FixParticipants(s: Store, t1: Store, roomId: string, expected: seq<string>): (t: Store)
    requires roomId in t1.chatRooms
    requires roomId in s.chatRooms ==> multiset(t1.chatRooms[roomId].participants) == multiset(s.chatRooms[roomId].participants)
    ensures t.messages == t1.messages && t.userChats == t1.userChats
    ensures SameRoomsExcept(t1, t, {roomId}) && roomId in t.chatRooms
    ensures var before, after := t1.chatRooms[roomId], t.chatRooms[roomId];
            && after.productId == before.productId && after.createdAt == before.createdAt
            && after.lastMessage == before.lastMessage && after.lastSenderId == before.lastSenderId
            && after.lastMessageTimestamp == before.lastMessageTimestamp
    ensures roomId !in s.chatRooms ==> t == t1
    ensures roomId in s.chatRooms ==> multiset(t.chatRooms[roomId].participants) == multiset(expected)
  {
    if roomId in s.chatRooms && SortStrings(s.chatRooms[roomId].participants) != expected then
      PutRoom(t1, roomId, t1.chatRooms[roomId].(participants := expected))
    else t1
  }

  /**
   * `getChatRoomWithSeller(sellerId, productId)` as `me` at clock `now`:
   * without a user the answer is no room; an empty product id is refused.
   * Otherwise the room `ResolveTarget` chooses is settled and returned. No
   * message is written.
   */
  function GetChatRoomWithSeller(s: Store, me: Option<User>, sellerId: string, productId: string,
                                 order: seq<string>, now: nat): (r: Outcome<(Store, Option<string>)>)
    requires me.Some? && productId == MessagesPlaceholder ==> Enumerates(order, InboxKeys(s, me.value.uid))
    ensures me.None? ==> r == Ok((s, None))
    ensures me.Some? && productId == "" ==> r == Err(MissingProductId)
    ensures me.Some? && productId != "" ==>
              var target := ResolveTarget(s, me.value.uid, sellerId, productId, order, now);
              && (r.Err? <==> target.roomId.Err?)
              && (r.Err? ==> r.error == MissingUserId)
              && (r.Ok? ==>
                    r.value == (SettleSellerRoom(s, me.value.uid, sellerId, target.roomId.value, target.productId, now),
                                Some(target.roomId.value)))
  {
    match me
    case None => Ok((s, None))
    case Some(user) =>
      if productId == "" then Err(MissingProductId)
      else
        var target := ResolveTarget(s, user.uid, sellerId, productId, order, now);
        match target.roomId
        case Err(e) => Err(e)
        case Ok(roomId) => Ok((SettleSellerRoom(s, user.uid, sellerId, roomId, target.productId, now), Some(roomId)))
  }

  /** The expected participant list is already in the order `sort()` produces. */
  lemma ParticipantsSorted(a: string, b: string)
    ensures SortStrings(Participants(a, b)) == Participants(a, b)
  {
    var ps := Participants(a, b);
    if a != b {
      assert SortStrings(ps[1..]) == [ps[1]];
      assert StrLe(ps[0], ps[1]);
    }
  }

  /**
   * For a product-specific request, asking again right away returns the same
   * room and writes nothing: the repaired room and entries already match.
   */
  lemma GetChatRoomWithSellerIdempotent(s: Store, me: User, sellerId: string, productId: string,
                                        order: seq<string>, now: nat)
    requires productId != "" && productId != MessagesPlaceholder
    requires GetChatRoomWithSeller(s, Some(me), sellerId, productId, order, now).Ok?
    ensures var (t, roomId) := GetChatRoomWithSeller(s, Some(me), sellerId, productId, order, now).value;
            GetChatRoomWithSeller(t, Some(me), sellerId, productId, order, now) == Ok((t, roomId))
  {
    var target := ResolveTarget(s, me.uid, sellerId, productId, order, now);
    var id := target.roomId.value;
    var expected := Participants(me.uid, sellerId);
    var t := SettleSellerRoom(s, me.uid, sellerId, id, productId, now);
    assert GetChatRoomWithSeller(s, Some(me), sellerId, productId, order, now).value == (t, Some(id));
    assert ResolveTarget(t, me.uid, sellerId, productId, order, now) == target;
    SettleSellerRoomKeeps(s, me.uid, sellerId, id, productId, now);
    ParticipantsSorted(me.uid, sellerId);
    assert SortStrings(t.chatRooms[id].participants) == expected by {
      if id !in s.chatRooms {
        assert t.chatRooms[id].participants == expected;
      } else if SortStrings(s.chatRooms[id].participants) == expected {
        assert t.chatRooms[id].participants == s.chatRooms[id].participants;
      } else {
        assert t.chatRooms[id].participants == expected;
      }
    }
    EnsureRoomSettled(t, me.uid, sellerId, id, productId, now, true);
    assert FixParticipants(t, t, id, expected) == t;
  }

}
