/**
 * Deletion: `deleteChatRoom` removes one room with its messages and the two
 * inbox entries it knows about; `deleteAllUserChats` runs it over every room
 * in a user's inbox, carrying on past failures.
 */
module Deletion {
  import opened Wrappers
  import opened Sequences
  import opened ChatStore

  /**
   * `participants.find(id => id !== me)`: the first participant other than
   * `me`, if there is one.
   */
  function OtherParticipant(participants: seq<string>, me: string): (r: Option<string>)
    ensures r.None? <==> forall p | p in participants :: p == me
    ensures r.Some? ==> r.value in participants && r.value != me
    ensures r.Some? ==> exists i | 0 <= i < |participants| :: participants[i] == r.value && forall j | 0 <= j < i :: participants[j] == me
  {
    if |participants| == 0 then None
    else if participants[0] != me then
      assert participants[0] in participants;
      Some(participants[0])
    else
      var rest := OtherParticipant(participants[1..], me);
      assert participants == [participants[0]] + participants[1..];
      if rest.Some? then
        var i :| 0 <= i < |participants[1..]| && participants[1..][i] == rest.value
                 && forall j | 0 <= j < i :: participants[1..][j] == me;
        assert participants[i + 1] == rest.value && participants[i + 1] in participants;
        assert forall j | 0 <= j < i + 1 :: participants[j] == me by {
          forall j | 0 <= j < i + 1 ensures participants[j] == me {
            if j > 0 { assert participants[j] == participants[1..][j - 1]; }
          }
        }
        rest
      else rest
  }

  /**
   * The user whose inbox entry `deleteChatRoom` clears besides `me`'s: the
   * other participant, or the path segment `undefined` a template literal
   * produces when there is none.
   */
  function OtherInboxOwner(participants: seq<string>, me: string): (o: string)
    ensures (forall p | p in participants :: p == me) ==> o == "undefined"
    ensures (exists p | p in participants :: p != me) ==> o in participants && o != me
  {
    OtherParticipant(participants, me).GetOr("undefined")
  }

  /**
   * `deleteChatRoom(roomId)`: refused without a user, for a missing room and
   * for a room `me` does not belong to; otherwise the room's messages, `me`'s
   * and the other participant's inbox entries, and the room record are gone,
   * and nothing else changes.
   */
  function DeleteChatRoom(s: Store, me: Option<User>, roomId: string): (r: Outcome<Store>)
    ensures me.None? ==> r == Err(NotLoggedIn)
    ensures me.Some? && roomId !in s.chatRooms ==> r == Err(RoomNotFound)
    ensures me.Some? && roomId in s.chatRooms && me.value.uid !in s.chatRooms[roomId].participants ==> r == Err(NotParticipant)
    ensures r.Ok? <==> me.Some? && roomId in s.chatRooms && me.value.uid in s.chatRooms[roomId].participants
    ensures r.Ok? ==>
              var uid, t := me.value.uid, r.value;
              var other := OtherInboxOwner(s.chatRooms[roomId].participants, uid);
              && RoomOf(t, roomId).None? && MessagesOf(t, roomId) == map[]
              && InboxOf(t, uid, roomId).None? && InboxOf(t, other, roomId).None?
              && SameRoomsExcept(s, t, {roomId}) && SameMessagesExcept(s, t, {roomId})
              && SameInboxesExcept(s, t, {(uid, roomId), (other, roomId)})
              && (forall u :: InboxKeys(t, u) <= InboxKeys(s, u))
              && InboxKeys(t, uid) == InboxKeys(s, uid) - {roomId}
  {
    match me
    case None => Err(NotLoggedIn)
    case Some(user) =>
      if roomId !in s.chatRooms then Err(RoomNotFound)
      else
        var participants := s.chatRooms[roomId].participants;
        if user.uid !in participants then Err(NotParticipant)
        else
          var other := OtherInboxOwner(participants, user.uid);
          var s1 := RemoveMessages(s, roomId);
          var s2 := RemoveInbox(s1, user.uid, roomId);
          var s3 := RemoveInbox(s2, other, roomId);
          var t := RemoveRoom(s3, roomId);
          assert other != user.uid ==> InboxKeys(t, user.uid) == InboxKeys(s2, user.uid);
          Ok(t)
  }

  /** A deleted room cannot be deleted again. */
  lemma DeleteChatRoomTwice(s: Store, me: User, roomId: string)
    requires DeleteChatRoom(s, Some(me), roomId).Ok?
    ensures DeleteChatRoom(DeleteChatRoom(s, Some(me), roomId).value, Some(me), roomId) == Err(RoomNotFound)
  {
  }

  /** In a two-party room, both participants lose the room from their inbox. */
  lemma DeleteTwoPartyRoom(s: Store, me: User, roomId: string)
    requires roomId in s.chatRooms
    requires var ps := s.chatRooms[roomId].participants;
             |ps| == 2 && ps[0] != ps[1] && me.uid in ps
    ensures var r := DeleteChatRoom(s, Some(me), roomId);
            r.Ok? && forall p | p in s.chatRooms[roomId].participants :: InboxOf(r.value, p, roomId).None?
  {
    var ps := s.chatRooms[roomId].participants;
    assert ps[0] != me.uid || ps[1] != me.uid;
    assert ps[0] in ps && ps[1] in ps;
    var other := OtherInboxOwner(ps, me.uid);
    assert other in ps && other != me.uid;
  }

  /**
   * A room with a third participant (escrow rooms accumulate them) keeps
   * that participant's inbox entry after deletion, pointing at a room that
   * no longer exists: any participant listed after some other participant
   * besides the deleter is one.
   */
  lemma DeleteLeavesThirdInbox(s: Store, me: User, roomId: string, third: string)
    requires roomId in s.chatRooms
    requires var ps := s.chatRooms[roomId].participants;
             && me.uid in ps && third != me.uid
             && exists i | 0 <= i < |ps| :: ps[i] != me.uid && ps[i] != third && forall j | 0 <= j <= i :: ps[j] != third
    requires InboxOf(s, third, roomId).Some?
    ensures var r := DeleteChatRoom(s, Some(me), roomId);
            && r.Ok? && RoomOf(r.value, roomId).None?
            && InboxOf(r.value, third, roomId).Some?
  {
    var ps := s.chatRooms[roomId].participants;
    var i :| 0 <= i < |ps| && ps[i] != me.uid && ps[i] != third && forall j | 0 <= j <= i :: ps[j] != third;
    assert ps[i] in ps;
    var other := OtherParticipant(ps, me.uid);
    var k :| 0 <= k < |ps| && ps[k] == other.value && forall j | 0 <= j < k :: ps[j] == me.uid;
    assert k <= i;
    assert other.value != third;
  }

  // ---------------------------------------------------------------------
  // deleteAllUserChats
  // ---------------------------------------------------------------------

  /** The rooms `DeleteChatRoom` succeeds on for `me`. */
  predicate Deletable(s: Store, me: Option<User>, roomId: string) {
    me.Some? && roomId in s.chatRooms && me.value.uid in s.chatRooms[roomId].participants
  }

  /** The rooms among `rooms` that `DeleteChatRoom` succeeds on against `s`. */
  function DeletableAmong(s: Store, me: Option<User>, rooms: seq<string>): set<string> {
    set r | r in rooms && Deletable(s, me, r)
  }

  /**
   * The `for … of` loop of `deleteAllUserChats`: `deleteChatRoom` on each
   * room in turn, a failure leaving the store as it was and the loop going on.
   * Exactly the rooms that could be deleted at the start are deleted.
   */
  function DeleteEach(s: Store, me: Option<User>, rooms: seq<string>): (t: Store)
    requires Distinct(rooms)
    ensures me.None? ==> t == s
    ensures forall r | r in DeletableAmong(s, me, rooms) ::
              RoomOf(t, r).None? && MessagesOf(t, r) == map[] && InboxOf(t, me.value.uid, r).None?
    ensures SameRoomsExcept(s, t, DeletableAmong(s, me, rooms))
    ensures SameMessagesExcept(s, t, DeletableAmong(s, me, rooms))
    ensures SameInboxRoomsExcept(s, t, DeletableAmong(s, me, rooms))
    ensures forall u :: InboxKeys(t, u) <= InboxKeys(s, u)
    decreases |rooms|
  {
    if |rooms| == 0 then s
    else
      var s1 := match DeleteChatRoom(s, me, rooms[0]) case Ok(next) => next case Err(_) => s;
      var rest := rooms[1..];
      assert rooms == [rooms[0]] + rest;
      assert rooms[0] !in rest;
      var t := DeleteEach(s1, me, rest);
      DeleteEachStep(s, s1, t, me, rooms[0], rest);
      t
  }

  /** One attempt of the loop, seen from outside the attempted room. */
  lemma DeleteAttempt(s: Store, s1: Store, me: Option<User>, first: string)
    requires s1 == match DeleteChatRoom(s, me, first) case Ok(next) => next case Err(_) => s
    ensures SameRoomsExcept(s, s1, {first}) && SameMessagesExcept(s, s1, {first})
    ensures SameInboxRoomsExcept(s, s1, {first})
    ensures forall u :: InboxKeys(s1, u) <= InboxKeys(s, u)
    ensures Deletable(s, me, first) ==>
              RoomOf(s1, first).None? && MessagesOf(s1, first) == map[] && InboxOf(s1, me.value.uid, first).None?
    ensures !Deletable(s, me, first) ==> s1 == s
  {
  }

  /** Deleting one room does not change which of the other rooms can be deleted. */
  lemma DeletableAmongRest(s: Store, s1: Store, me: Option<User>, first: string, rest: seq<string>)
    requires first !in rest
    requires SameRoomsExcept(s, s1, {first})
    ensures DeletableAmong(s1, me, rest) == DeletableAmong(s, me, rest)
  {
    forall r | r in rest ensures Deletable(s1, me, r) == Deletable(s, me, r) {
      assert RoomOf(s1, r) == RoomOf(s, r);
    }
  }

  /** How one step of `DeleteEach` and the remaining steps combine. */
  lemma DeleteEachStep(s: Store, s1: Store, t: Store, me: Option<User>, first: string, rest: seq<string>)
    requires first !in rest
    requires s1 == match DeleteChatRoom(s, me, first) case Ok(next) => next case Err(_) => s
    requires forall r | r in DeletableAmong(s1, me, rest) ::
               RoomOf(t, r).None? && MessagesOf(t, r) == map[] && InboxOf(t, me.value.uid, r).None?
    requires SameRoomsExcept(s1, t, DeletableAmong(s1, me, rest))
    requires SameMessagesExcept(s1, t, DeletableAmong(s1, me, rest))
    requires SameInboxRoomsExcept(s1, t, DeletableAmong(s1, me, rest))
    requires forall u :: InboxKeys(t, u) <= InboxKeys(s1, u)
    ensures var gone := DeletableAmong(s, me, [first] + rest);
            && (forall r | r in gone :: RoomOf(t, r).None? && MessagesOf(t, r) == map[] && InboxOf(t, me.value.uid, r).None?)
            && SameRoomsExcept(s, t, gone)
            && SameMessagesExcept(s, t, gone)
            && SameInboxRoomsExcept(s, t, gone)
            && (forall u :: InboxKeys(t, u) <= InboxKeys(s, u))
  {
    var later := DeletableAmong(s1, me, rest);
    DeleteAttempt(s, s1, me, first);
    DeletableAmongRest(s, s1, me, first, rest);
    assert first !in later;
    if Deletable(s, me, first) {
      assert DeletableAmong(s, me, [first] + rest) == {first} + later;
      RoomFramesCompose(s, s1, t, {first}, later);
      MessageFramesCompose(s, s1, t, {first}, later);
      InboxRoomFramesCompose(s, s1, t, {first}, later);
      assert InboxOf(t, me.value.uid, first) == InboxOf(s1, me.value.uid, first);
    } else {
      assert DeletableAmong(s, me, [first] + rest) == later;
    }
  }

  /**
   * `deleteAllUserChats(userId)`: refused for an empty id; nothing to do when
   * `userId` has no inbox entries; otherwise every room in `userId`'s inbox
   * goes through `deleteChatRoom`, which acts as the signed-in user `me`
   * rather than as `userId`. Failures are swallowed, so the call succeeds,
   * having deleted exactly the rooms `me` was allowed to delete.
   */
  function DeleteAllUserChats(s: Store, me: Option<User>, userId: string, order: seq<string>): (r: Outcome<Store>)
    requires userId != "" ==> Enumerates(order, InboxKeys(s, userId))
    ensures r.Err? <==> userId == ""
    ensures r.Err? ==> r.error == UserIdRequired
    ensures r.Ok? && (InboxKeys(s, userId) == {} || me.None?) ==> r.value == s
    ensures r.Ok? ==>
              var t, gone := r.value, set roomId | roomId in InboxKeys(s, userId) && Deletable(s, me, roomId);
              && (forall roomId | roomId in gone ::
                    RoomOf(t, roomId).None? && MessagesOf(t, roomId) == map[] && InboxOf(t, me.value.uid, roomId).None?)
              && SameRoomsExcept(s, t, gone)
              && SameMessagesExcept(s, t, gone)
              && SameInboxRoomsExcept(s, t, gone)
              && (forall u :: InboxKeys(t, u) <= InboxKeys(s, u))
  {
    if userId == "" then Err(UserIdRequired)
    else if InboxKeys(s, userId) == {} then Ok(s)
    else
      assert DeletableAmong(s, me, order) == set roomId | roomId in InboxKeys(s, userId) && Deletable(s, me, roomId);
      Ok(DeleteEach(s, me, order))
  }

  /**
   * Called by the user on their own id, when every room in their inbox still
   * exists and lists them, the inbox ends up empty.
   */
  lemma DeleteAllOwnChatsEmptiesInbox(s: Store, me: User, order: seq<string>)
    requires me.uid != ""
    requires Enumerates(order, InboxKeys(s, me.uid))
    requires forall roomId | roomId in InboxKeys(s, me.uid) :: roomId in s.chatRooms && me.uid in s.chatRooms[roomId].participants
    ensures var r := DeleteAllUserChats(s, Some(me), me.uid, order);
            r.Ok? && InboxKeys(r.value, me.uid) == {}
  {
    var t := DeleteAllUserChats(s, Some(me), me.uid, order).value;
    forall roomId | roomId in InboxKeys(s, me.uid) ensures roomId !in InboxKeys(t, me.uid) {
      assert Deletable(s, Some(me), roomId);
      assert InboxOf(t, me.uid, roomId).None?;
    }
  }

  /**
   * A room that is already gone is skipped with an error, so its entry stays
   * in the inbox: deleting everything can leave entries behind.
   */
  lemma DeleteAllKeepsDanglingEntry(s: Store, me: User, order: seq<string>, roomId: string)
    requires me.uid != ""
    requires Enumerates(order, InboxKeys(s, me.uid))
    requires roomId in InboxKeys(s, me.uid) && roomId !in s.chatRooms
    ensures var r := DeleteAllUserChats(s, Some(me), me.uid, order);
            r.Ok? && roomId in InboxKeys(r.value, me.uid)
  {
    var t := DeleteAllUserChats(s, Some(me), me.uid, order).value;
    assert InboxOf(t, me.uid, roomId) == InboxOf(s, me.uid, roomId);
  }
}
