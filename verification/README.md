# Realtime chat bookkeeping, modelled in Dafny

This project models the chat service of a marketplace for selling social-media
channels (`src/services/realtimeChatService.ts`). The service keeps three
denormalised trees in a realtime database:

- `chatRooms/{roomId}` holds one room record: its participants, a summary of the
  last message and a product id;
- `userChats/{uid}/{roomId}` holds one inbox entry per user and room: a summary,
  an unread counter, the product id and the other user;
- `messages/{roomId}/{pushKey}` holds the messages themselves, including
  purchase-request messages with a mutable status.

The model turns each operation into a pure transition over an abstract `Store`
holding those three maps (`ChatStore`). The things the code reads from its
environment become explicit parameters:

- the signed-in user is an `Option<User>`;
- the clock is `now`, standing for both `Date.now()` and `serverTimestamp()`;
- `push()` becomes a fresh key `key`;
- the random transaction id is `transactionId`;
- the looked-up escrow agent id is `agentId`;
- the order in which a snapshot's children are visited is `order`.

A thrown error is an `Err` of `ChatError`, and the store is then unchanged.

Modules, following the source's structure:

- `RoomIds`: the deterministic room id and the sorted participant list.
- `SendPath`: the shared send path. It creates or repairs the room and both
  inbox entries, appends the message, refreshes the summary, raises the
  recipient's counter and zeroes the sender's. `sendMessage` and
  `createChatRoom` are modelled here.
- `Reading`: `markMessagesAsRead`, `getMessages`, `getRoomData` and
  `getUserChatRooms` (one snapshot each).
- `Purchase`: `sendPurchaseRequest` with its text template, and
  `updatePurchaseRequestStatus`.
- `Deletion`: `deleteChatRoom` and `deleteAllUserChats`.
- `SellerChat`: `getChatRoomWithSeller`, including the search for the most
  recent product-specific room.
- `Escrow`: `sendMessageToEscrowAgent` and its shared, accumulating room.
- `Strings`, `Sequences`, `Wrappers`: string order, decimal rendering,
  stable sorting, deduplication, and `Option`/`Result`.

Behaviour of the code that the model makes explicit, and proves:

- Zeroing the sender's counter on every send is not a read. A sender who still
  has unread messages is left with a counter that no longer matches them
  (`SendPath.SendZeroesSenderCounter`).
- The status of a purchase request is not monotonic. A completed request can be
  moved back to agreed by its recipient (`Purchase.StatusNotMonotonic`).
- `deleteAllUserChats` acts as the signed-in user, not as `userId`. It swallows
  per-room failures, so an inbox entry whose room is already gone stays behind
  (`Deletion.DeleteAllKeepsDanglingEntry`).
- In a room with a third participant, deleting leaves that participant's entry
  pointing at a missing room (`Deletion.DeleteLeavesThirdInbox`).
- In a one-person room, the second inbox path written is `userChats/undefined/{roomId}`,
  because `find` returns nothing and the template literal renders it as `undefined`.
  See `Deletion.OtherInboxOwner`.
- Purchase-request messages carry no `price` field: the price appears only in
  the text (`Purchase.RequestMessage`).

## Model

All source paths are in `OneDrive/Desktop/accs-market-build-main/src/services/`.

| member | source | states |
|---|---|---|
| RoomIds.ChatRoomId | OneDrive/Desktop/accs-market-build-main/src/services/realtimeChatService.ts:61-90 | fails with a missing-id error exactly when either user id is empty; otherwise the id is the two ids in sorted order joined by `_`, then `_` and the effective product id |
| RoomIds.ChatRoomIdSymmetric | OneDrive/Desktop/accs-market-build-main/src/services/realtimeChatService.ts:77 | swapping the two users gives the same room id (or the same error) |
| RoomIds.ChatRoomIdClockFree | OneDrive/Desktop/accs-market-build-main/src/services/realtimeChatService.ts:70-80 | with a non-empty product id the room id does not depend on the clock |
| RoomIds.EffectiveProductId | OneDrive/Desktop/accs-market-build-main/src/services/realtimeChatService.ts:70-74 | a non-empty product id is kept; an empty one becomes `general_` followed by the clock, which is never empty |
| RoomIds.GeneralFallbackDependsOnClock | OneDrive/Desktop/accs-market-build-main/src/services/realtimeChatService.ts:73 | without a product id, two different clocks give two different room ids: a fallback room is never found again |
| RoomIds.Participants | OneDrive/Desktop/accs-market-build-main/src/services/realtimeChatService.ts:155 | the participant list is sorted, duplicate-free and holds exactly the two users |
| RoomIds.ParticipantsSymmetric | OneDrive/Desktop/accs-market-build-main/src/services/realtimeChatService.ts:155 | the participant list does not depend on which user is the sender |
| SendPath.RepairInbox | OneDrive/Desktop/accs-market-build-main/src/services/realtimeChatService.ts:200-236 | a missing entry is created from the room's summary with a zero counter; an existing one is left alone, or only its product id is reconciled; nothing else changes |
| SendPath.CreateRoom | OneDrive/Desktop/accs-market-build-main/src/services/realtimeChatService.ts:152-180 | an absent room is written with the sorted participants and empty summary, and both users get a zeroed entry pointing at the other |
| SendPath.RepairRoom | OneDrive/Desktop/accs-market-build-main/src/services/realtimeChatService.ts:183-237 | an existing room only takes the new product id; a missing entry is created with a zero counter, and an existing entry is left exactly as it was, except that it takes the product id when reconciling |
| SendPath.EnsureRoom | OneDrive/Desktop/accs-market-build-main/src/services/realtimeChatService.ts:152-237 | afterwards the room and both entries exist; a new room has zeroed entries pointing at each other; an existing room keeps its summary and takes the new product id, only missing entries are added, and existing entries keep every field except, when reconciling, the product id; messages are not touched |
| SendPath.EnsureRoomIdempotent | OneDrive/Desktop/accs-market-build-main/src/services/realtimeChatService.ts:152-237 | running the room set-up twice writes nothing the second time |
| SendPath.Deliver | OneDrive/Desktop/accs-market-build-main/src/services/realtimeChatService.ts:240-298 | exactly one message is added under the fresh key; the room summary is refreshed; the recipient's counter goes up by one and the sender's becomes zero (the sender's write wins when they coincide) |
| SendPath.NotifyInboxes | OneDrive/Desktop/accs-market-build-main/src/services/realtimeChatService.ts:270-298 | the recipient's counter goes up by one and the sender's becomes zero, both entries take the summary, clock and product id, existing entries keep their other user, and no other entry changes |
| SendPath.EnsureThenDeliver | OneDrive/Desktop/accs-market-build-main/src/services/realtimeChatService.ts:147-298 | room set-up followed by delivery is one send: one new message, the summary, recipient counter +1, sender counter 0, existing entries still naming the same other user (a new room's entries naming each other), and nothing outside the room and the two entries changes |
| SendPath.SendMessage | OneDrive/Desktop/accs-market-build-main/src/services/realtimeChatService.ts:130-305 | refused without a user, and refused exactly when an id is empty; otherwise a send into the derived room, whose new message (`SendPath.TextMessage`) is an unread text message from the sender, under the sender's name (`SendPath.SenderName`), with the effective product id and the clock as timestamp |
| SendPath.SenderName | OneDrive/Desktop/accs-market-build-main/src/services/realtimeChatService.ts:246 | the stored sender name is never empty: the display name when there is one, `User` otherwise |
| SendPath.CreateChatRoom | OneDrive/Desktop/accs-market-build-main/src/services/realtimeChatService.ts:93-127 | refused exactly when an id is empty; otherwise the room record is replaced by a fresh one, no inbox entry or message changes, and the derived room id is returned |
| SendPath.CreateThenSend | OneDrive/Desktop/accs-market-build-main/src/services/realtimeChatService.ts:93-127 | a send after `createChatRoom` for the same users, product and clock lands in the room it created: the participants are kept, and the missing entries are added with one unread message for the recipient and none for the sender |
| SendPath.SendUnreadKeys | OneDrive/Desktop/accs-market-build-main/src/services/realtimeChatService.ts:243-254 | a send adds exactly one unread message for the recipient and none for anyone else |
| SendPath.SendKeepsRecipientCounter | OneDrive/Desktop/accs-market-build-main/src/services/realtimeChatService.ts:270-289 | a recipient counter that matched the recipient's unread messages still matches after a send |
| SendPath.SendZeroesSenderCounter | OneDrive/Desktop/accs-market-build-main/src/services/realtimeChatService.ts:292-298 | a sender with unread messages in the room is left with a counter that no longer matches them |
| Reading.MarkRead | OneDrive/Desktop/accs-market-build-main/src/services/realtimeChatService.ts:354-360 | exactly the unread messages from the sender to the user are flagged read; all other messages and all keys are kept |
| Reading.MarkMessagesAsRead | OneDrive/Desktop/accs-market-build-main/src/services/realtimeChatService.ts:332-375 | no effect without a user, when the user names themselves as the sender, or when nothing is pending; otherwise nothing stays pending, only read flags change, and the user's counter for the room becomes zero |
| Reading.MarkMessagesAsReadIdempotent | OneDrive/Desktop/accs-market-build-main/src/services/realtimeChatService.ts:356-372 | a second identical call changes nothing |
| Reading.MarkMessagesAsReadKeepsRead | OneDrive/Desktop/accs-market-build-main/src/services/realtimeChatService.ts:356-357 | a message once read stays read |
| Reading.MarkMessagesAsReadRestoresCounter | OneDrive/Desktop/accs-market-build-main/src/services/realtimeChatService.ts:356-372 | when everything unread for the user comes from that sender, the counter afterwards matches the unread messages again (both zero) |
| Reading.ChildrenCoverSnapshot | OneDrive/Desktop/accs-market-build-main/src/services/realtimeChatService.ts:316-322 | visiting every key of the snapshot once yields every message once: as many children as messages, keys distinct, the key set equal to the room's keys, and each record the one stored at its key |
| Reading.GetMessages | OneDrive/Desktop/accs-market-build-main/src/services/realtimeChatService.ts:308-329 | every message of the room appears exactly once, with its key, in ascending timestamp order |
| Reading.RoomData | OneDrive/Desktop/accs-market-build-main/src/services/realtimeChatService.ts:417-455 | a view exists exactly when the user has an entry for the room and the room exists; participants and last sender come from the room, and the summary, counter and product id from the entry, with the defaults |
| Reading.Resolved | OneDrive/Desktop/accs-market-build-main/src/services/realtimeChatService.ts:395-407 | the kept views are exactly the resolvable rooms among those visited, one each |
| Reading.GetUserChatRooms | OneDrive/Desktop/accs-market-build-main/src/services/realtimeChatService.ts:378-414 | empty without a user; otherwise one view per inbox entry whose room exists, each as `getRoomData` builds it, most recent first |
| Purchase.RequestHeader | OneDrive/Desktop/accs-market-build-main/src/services/realtimeChatService.ts:795-799 | the header opens with the line `🔐 Request to Purchase <channel>`, continues with the transaction-id line and the amount line (the decimal renderings of `Strings.DecimalRoundTrip` and `Strings.IntToDecimal`), and closes with the payment-method line, `Stripe` or `Bitcoin` |
| Purchase.PurchaseRequestText | OneDrive/Desktop/accs-market-build-main/src/services/realtimeChatService.ts:795-820 | the text starts with the header; the wallet line follows it exactly when a bitcoin wallet is given; the text ends with the escrow steps exactly when an agent is involved, and with the direct-transaction note otherwise |
| Purchase.TemplateShape | OneDrive/Desktop/accs-market-build-main/src/services/realtimeChatService.ts:801-820 | header, optional line and one of two closing blocks can be told apart in the assembled text, in both directions |
| Purchase.SendPurchaseRequest | OneDrive/Desktop/accs-market-build-main/src/services/realtimeChatService.ts:770-1010 | refused exactly as a send is; otherwise a send with the fixed summary `Purchase Request: <channel>` whose message is a pending, unread purchase request from the sender, under the sender's name and stamped with the clock, with the templated text, the given product id, payment method and agent flag, and the wallet stored exactly when shown; the record (`Purchase.RequestMessage`) has no price field |
| Purchase.UpdatePurchaseRequestStatus | OneDrive/Desktop/accs-market-build-main/src/services/realtimeChatService.ts:1059-1122 | refused without a user, for a missing message and for a caller who is not its recipient; `completed` changes only that message's status; `agreed` also sends the acknowledgement to the original sender |
| Purchase.AgreeNotifiesProposer | OneDrive/Desktop/accs-market-build-main/src/services/realtimeChatService.ts:1101-1115 | agreeing succeeds, posts the acknowledgement to the proposer in the room derived from the proposal's product id, zeroes the agreeing user's counter there, and leaves the proposal marked agreed |
| Purchase.StatusNotMonotonic | OneDrive/Desktop/accs-market-build-main/src/services/realtimeChatService.ts:1092-1101 | a completed proposal can be moved back to agreed by its recipient: the call succeeds and the proposal's status afterwards is agreed |
| Deletion.OtherParticipant | OneDrive/Desktop/accs-market-build-main/src/services/realtimeChatService.ts:1033-1035 | the first participant other than the user, and none exactly when every participant is the user |
| Deletion.OtherInboxOwner | OneDrive/Desktop/accs-market-build-main/src/services/realtimeChatService.ts:1033-1046 | the owner of the second inbox entry cleared: another participant when there is one, and the path segment `undefined` when every participant is the user |
| Deletion.DeleteChatRoom | OneDrive/Desktop/accs-market-build-main/src/services/realtimeChatService.ts:1013-1056 | succeeds exactly for a signed-in participant of an existing room; then the room, its messages and the two inbox entries are gone and nothing else changes |
| Deletion.DeleteChatRoomTwice | OneDrive/Desktop/accs-market-build-main/src/services/realtimeChatService.ts:1021-1023 | deleting a deleted room is refused as not found |
| Deletion.DeleteTwoPartyRoom | OneDrive/Desktop/accs-market-build-main/src/services/realtimeChatService.ts:1033-1046 | in a two-party room both participants lose their inbox entry |
| Deletion.DeleteLeavesThirdInbox | OneDrive/Desktop/accs-market-build-main/src/services/realtimeChatService.ts:1033-1046 | any participant other than the deleter who is listed after some other participant keeps their entry, which now points at a missing room |
| Deletion.DeleteEach | OneDrive/Desktop/accs-market-build-main/src/services/realtimeChatService.ts:1310-1318 | exactly the rooms that could be deleted at the start are deleted; other rooms, messages and entries are kept; no inbox gains an entry |
| Deletion.DeleteAllUserChats | OneDrive/Desktop/accs-market-build-main/src/services/realtimeChatService.ts:1283-1330 | refused exactly for an empty user id; no effect for an empty inbox or without a signed-in user; otherwise every room in the inbox that the signed-in user may delete is deleted |
| Deletion.DeleteAllOwnChatsEmptiesInbox | OneDrive/Desktop/accs-market-build-main/src/services/realtimeChatService.ts:1283-1318 | a user deleting their own chats, all of whose rooms exist and list them, ends with an empty inbox |
| Deletion.DeleteAllKeepsDanglingEntry | OneDrive/Desktop/accs-market-build-main/src/services/realtimeChatService.ts:1310-1317 | an entry whose room is already gone survives the call |
| SellerChat.Scan | OneDrive/Desktop/accs-market-build-main/src/services/realtimeChatService.ts:597-616 | the search picks a candidate (an entry with the seller whose product id is specific, `SellerChat.IsSpecific`: not empty, not `messages`, not starting `general_`) with the largest timestamp, the last such visited, and picks none exactly when there is no candidate |
| SellerChat.ScanIsLatestSpecific | OneDrive/Desktop/accs-market-build-main/src/services/realtimeChatService.ts:597-616 | the search's pick is exactly the position an independent description of "latest specific room" names |
| SellerChat.ResolveTarget | OneDrive/Desktop/accs-market-build-main/src/services/realtimeChatService.ts:589-633 | a concrete product id derives the room; the placeholder `messages` uses the found room and its product id when the search found one, and derives the room from `messages` otherwise |
| SellerChat.SettleSellerRoom | OneDrive/Desktop/accs-market-build-main/src/services/realtimeChatService.ts:635-761 | the room and both entries exist and carry the chosen product id, the room lists exactly the two users, an entry that existed in an existing room keeps every field except the product id, and nothing outside the room and the two entries changes |
| SellerChat.SettleSellerRoomKeeps | OneDrive/Desktop/accs-market-build-main/src/services/realtimeChatService.ts:643-716 | an existing room keeps its summary, creation time and both counters, and its participant list unless it differed from the expected one after sorting; a new room starts with both counters at zero |
| SellerChat.FixParticipants | OneDrive/Desktop/accs-market-build-main/src/services/realtimeChatService.ts:655-665 | only the participant list of the room may change, and it ends up a rearrangement of the expected list |
| SellerChat.GetChatRoomWithSeller | OneDrive/Desktop/accs-market-build-main/src/services/realtimeChatService.ts:562-767 | no room without a user; refused for an empty product id or an empty user id; otherwise the chosen room is settled and returned |
| SellerChat.ParticipantsSorted | OneDrive/Desktop/accs-market-build-main/src/services/realtimeChatService.ts:655-658 | the expected participant list is already sorted, so a repaired room is not repaired again |
| SellerChat.GetChatRoomWithSellerIdempotent | OneDrive/Desktop/accs-market-build-main/src/services/realtimeChatService.ts:635-718 | asking again for a concrete product returns the same room and writes nothing |
| Escrow.EscrowAgent | OneDrive/Desktop/accs-market-build-main/src/services/realtimeChatService.ts:1163 | the looked-up agent, or the placeholder `escrow_agent` when none |
| Escrow.EscrowProductId | OneDrive/Desktop/accs-market-build-main/src/services/realtimeChatService.ts:1167 | the given product id, or `general_escrow` when none |
| Escrow.EscrowParticipants | OneDrive/Desktop/accs-market-build-main/src/services/realtimeChatService.ts:1184 | the new list is duplicate-free, holds the previous participants plus the sender and the agent, and keeps a duplicate-free previous list as its prefix |
| Escrow.EscrowRoom | OneDrive/Desktop/accs-market-build-main/src/services/realtimeChatService.ts:1180-1199 | the room carries the new summary, sender, product id and participants, and keeps its creation time when it existed |
| Escrow.UpdateEscrowInboxes | OneDrive/Desktop/accs-market-build-main/src/services/realtimeChatService.ts:1202-1251 | the sender's entry is refreshed with its counter kept, except that when the looked-up agent is the sender the agent's write comes last and the sender's counter goes up by one; otherwise the agent's counter goes up by one unless the agent is the placeholder, whose entry is untouched; nothing else changes |
| Escrow.SendMessageToEscrowAgent | OneDrive/Desktop/accs-market-build-main/src/services/realtimeChatService.ts:1152-1280 | refused exactly without a user; otherwise one message to the agent is added to the shared room, the room is refreshed and the two entries updated, and nothing else changes |
| Escrow.EscrowParticipantsAccumulate | OneDrive/Desktop/accs-market-build-main/src/services/realtimeChatService.ts:1184 | after two users write to the agent, both, the agent and everyone listed before are participants |
| Strings.DecimalRoundTrip | OneDrive/Desktop/accs-market-build-main/src/services/realtimeChatService.ts:796 | the rendered transaction id reads back as the same number |
| Strings.IntToDecimal | OneDrive/Desktop/accs-market-build-main/src/services/realtimeChatService.ts:797 | a price renders with a leading minus sign exactly when negative, and its digits read back as its magnitude |
| Sequences.SortBy | OneDrive/Desktop/accs-market-build-main/src/services/realtimeChatService.ts:325 | the result is sorted by the key and is a permutation of the input |
| Sequences.SortStrings | OneDrive/Desktop/accs-market-build-main/src/services/realtimeChatService.ts:656 | `.sort()` of a participant list: the result is in lexicographic order and is a permutation of the input |
| Sequences.Dedup | OneDrive/Desktop/accs-market-build-main/src/services/realtimeChatService.ts:1184 | the result is duplicate-free and holds exactly the elements of the input |
| Sequences.DedupPrefix | OneDrive/Desktop/accs-market-build-main/src/services/realtimeChatService.ts:1184 | appending elements never disturbs the deduplicated list of what came before |

## Left out

- `initUserChats`: it only checks whether the node exists and writes nothing the model keeps.
- `getEscrowAgentId`: it queries a second database (Firestore); the agent id it yields is the parameter `agentId`, with "" for no agent.
- `cleanupChatFirestoreData`: it only deletes Firestore documents and yields nothing, and its one call, in `getChatRoomWithSeller`, is commented out in the source (line 587).
- Listener mechanics of `onValue`: subscription, re-delivery on every change and unsubscribing. `getMessages` and `getUserChatRooms` are modelled for one snapshot.
- Concurrency and partial failure. Each operation is one atomic transition, and an error leaves the store unchanged. In the code the writes are separate awaits. For example, a failing acknowledgement in `updatePurchaseRequestStatus` still leaves the status written.
- Console logging and the stack traces it collects.
- Clock: `Date.now()` and `serverTimestamp()` are the same value `now`. Server timestamps are placeholders resolved by the server in the code.
- `push()` keys and `Math.random()`: the key and the transaction id are parameters. The 7-digit range of the transaction id is a precondition.
- String order: JavaScript's `sort()` compares UTF-16 code units, and the model compares Unicode code points. The two orders differ only when a character in U+E000..U+FFFF is compared with one above U+FFFF.
- Purchase.PurchaseRequestText: the price is a JavaScript number, which the model keeps as an integer. Fractional prices and the float-to-string rendering are not modelled.
- Reading.RoomData: a room record without `participants` makes the code throw and the room be skipped. In the model, rooms always carry a participant list.
- Reading.GetMessages: ties in the timestamp sort keep visiting order, because the insertion sort is stable. Stability is not stated as a contract.
- Reading.GetUserChatRooms: rooms with equal timestamps keep snapshot order, as the stable `sort` keeps them. The same insertion sort models it, but the tie order is not stated as a contract.
- The value under a message or room key is assumed to have the shape the code writes. Foreign or malformed records are not modelled.
- Escrow.UpdateEscrowInboxes: `(agentData.unreadCount || 0)` treats a missing counter as zero. The model's counters are always present, with 0 for missing.
