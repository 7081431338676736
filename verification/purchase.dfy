/**
 * The purchase-request workflow: `sendPurchaseRequest` posts a templated
 * proposal with a mutable status, and `updatePurchaseRequestStatus` lets the
 * proposal's recipient change that status, posting an acknowledgement on
 * `agreed`.
 */
module Purchase {
  import opened Wrappers
  import opened Strings
  import opened ChatStore
  import opened RoomIds
  import opened SendPath

  /** The closing lines of a proposal that involves the escrow agent. */
  const EscrowSteps: string := "\n" + EscrowStepLines

  const EscrowStepLines: string :=
    "Transaction steps when using the escrow service:\n\n"
    + "The buyer pays the cost of the channel + 8% (±$3 minimum) service fee.\n\n"
    + "The seller confirms and agrees to use the escrow service.\n\n"
    + "The escrow agent verifies everything and assigns manager rights to the buyer.\n\n"
    + "After 7 days (or sooner if agreed), the escrow agent removes other managers and transfers full ownership to the buyer.\n\n"
    + "The funds are then released to the seller. Payments are sent instantly via all major payment methods."

  /** The closing lines of a direct proposal. */
  const DirectNote: string := "\n" + DirectNoteLines

  const DirectNoteLines: string :=
    "Direct transaction without escrow agent.\n"
    + "Please communicate with the seller directly to complete the transaction."

  const WalletLabel: string := "Bitcoin Wallet: "

  /** The acknowledgement posted to the proposer when the recipient agrees. */
  const AgreedNotice: string := "✅ მიმღები დაეთანხმა შესყიდვის მოთხოვნას. ესქროუ აგენტი მალე დაგიკავშირდებათ."

  function PaymentMethodName(payment: PaymentMethod): string {
    match payment
    case Stripe => "Stripe"
    case Bitcoin => "Bitcoin"
  }

  /** The four fixed lines that open every proposal. */
  function RequestHeader(channelName: string, transactionId: nat, price: int, payment: PaymentMethod): (h: string)
    ensures StartsWith(h, "\U{1F510} Request to Purchase " + channelName + "\n")
    ensures var rest := h[|"\U{1F510} Request to Purchase " + channelName + "\n"|..];
            StartsWith(rest, "Transaction ID: " + NatToDecimal(transactionId) + "\nTransaction Amount: $" + IntToDecimal(price))
    ensures EndsWith(h, "\nPayment Method: " + PaymentMethodName(payment) + "\n")
  {
    var title := "\U{1F510} Request to Purchase " + channelName + "\n";
    var amounts := "Transaction ID: " + NatToDecimal(transactionId) + "\nTransaction Amount: $" + IntToDecimal(price);
    var paymentLine := "\nPayment Method: " + PaymentMethodName(payment) + "\n";
    ThreePartLayout(title, amounts, paymentLine);
    title + amounts + paymentLine
  }

  /** Where the three parts of a concatenation sit in it. */
  lemma ThreePartLayout(x: string, y: string, z: string)
    ensures StartsWith(x + y + z, x)
    ensures StartsWith((x + y + z)[|x|..], y)
    ensures EndsWith(x + y + z, z)
  {
    AppendKeepsPrefix(x, y + z);
    AppendKeepsPrefix(y, z);
    AppendKeepsSuffix(x + y, z);
    assert x + (y + z) == x + y + z;
    assert (x + (y + z))[|x|..] == y + z;
  }

  /** `paymentMethod === 'bitcoin' && walletAddress`: when the wallet is shown and stored. */
  predicate ShowsWallet(payment: PaymentMethod, walletAddress: string) {
    payment == Bitcoin && walletAddress != ""
  }

  /**
   * The proposal body. After the header it carries the wallet line exactly
   * when a bitcoin wallet is given, and it ends with the escrow steps exactly
   * when an escrow agent is involved, with the direct-transaction note otherwise.
   */
  function PurchaseRequestText(channelName: string, transactionId: nat, price: int, payment: PaymentMethod,
                               withAgent: bool, walletAddress: string): (t: string)
    ensures var header := RequestHeader(channelName, transactionId, price, payment);
            StartsWith(t, header)
            && (StartsWith(t[|header|..], WalletLabel + walletAddress + "\n") <==> ShowsWallet(payment, walletAddress))
    ensures EndsWith(t, EscrowSteps) <==> withAgent
    ensures EndsWith(t, DirectNote) <==> !withAgent
  {
    var header := RequestHeader(channelName, transactionId, price, payment);
    var line := WalletLabel + walletAddress + "\n";
    var wallet := if ShowsWallet(payment, walletAddress) then line else "";
    var tail := if withAgent then EscrowSteps else DirectNote;
    TemplateMarkers(walletAddress);
    TemplateShape(header, line, ShowsWallet(payment, walletAddress), withAgent, EscrowSteps, DirectNote);
    header + wallet + tail
  }

  /**
   * The template's three parts can be told apart: the wallet line does not
   * start like either closing block, and the two closing blocks differ in
   * their second-to-last character.
   */
  lemma TemplateShape(header: string, line: string, showWallet: bool, withAgent: bool, escrow: string, direct: string)
    requires |line| > 0 && |escrow| >= 2 && |direct| >= 2
    requires escrow[0] != line[0] && direct[0] != line[0]
    requires escrow[|escrow| - 2] != direct[|direct| - 2]
    ensures var wallet := if showWallet then line else "";
            var tail := if withAgent then escrow else direct;
            var t := header + wallet + tail;
            StartsWith(t, header)
            && (StartsWith(t[|header|..], line) <==> showWallet)
            && (EndsWith(t, escrow) <==> withAgent)
            && (EndsWith(t, direct) <==> !withAgent)
  {
    var wallet := if showWallet then line else "";
    var tail := if withAgent then escrow else direct;
    AppendKeepsPrefix(header, wallet + tail);
    assert header + wallet + tail == header + (wallet + tail);
    assert (header + (wallet + tail))[|header|..] == wallet + tail;
    if showWallet {
      AppendKeepsPrefix(line, tail);
    } else {
      HeadsDiffer(tail, line);
    }
    AppendKeepsSuffix(header + wallet, tail);
    if withAgent {
      SecondLastDiffers(header + wallet, escrow, direct);
    } else {
      SecondLastDiffers(header + wallet, direct, escrow);
    }
  }

  /** The characters `TemplateShape` tells the parts apart by. */
  lemma TemplateMarkers(walletAddress: string)
    ensures var line := WalletLabel + walletAddress + "\n";
            && |line| > 0 && |EscrowSteps| >= 2 && |DirectNote| >= 2
            && EscrowSteps[0] != line[0] && DirectNote[0] != line[0]
            && EscrowSteps[|EscrowSteps| - 2] != DirectNote[|DirectNote| - 2]
  {
    var line := WalletLabel + walletAddress + "\n";
    assert line[0] == 'B';
    assert EscrowSteps[0] == '\n';
    assert DirectNote[0] == '\n';
    assert EscrowSteps[|EscrowSteps| - 2] == 's';
    assert DirectNote[|DirectNote| - 2] == 'n';
  }

  lemma AppendKeepsPrefix(x: string, y: string)
    ensures StartsWith(x + y, x)
  {
    assert (x + y)[..|x|] == x;
  }

  lemma AppendKeepsSuffix(x: string, y: string)
    ensures EndsWith(x + y, y)
  {
    assert (x + y)[|x + y| - |y|..] == y;
  }

  /** A string cannot start with a prefix whose first character differs from its own. */
  lemma HeadsDiffer(y: string, prefix: string)
    requires |y| > 0 && |prefix| > 0 && y[0] != prefix[0]
    ensures !StartsWith(y, prefix)
  {
    if |prefix| <= |y| {
      assert y[..|prefix|][0] == y[0];
    }
  }

  /** `x + a` cannot end with a string whose second-to-last character differs from that of `a`. */
  lemma SecondLastDiffers(x: string, a: string, b: string)
    requires |a| >= 2 && |b| >= 2 && a[|a| - 2] != b[|b| - 2]
    ensures !EndsWith(x + a, b)
  {
    var t := x + a;
    if |b| <= |t| {
      assert t[|t| - |b|..][|b| - 2] == t[|t| - 2];
      assert t[|t| - 2] == a[|a| - 2];
    }
  }

  /** The record `sendPurchaseRequest` pushes (the price appears only inside the text). */
  function RequestMessage(me: User, text: string, recipientId: string, productId: string, payment: PaymentMethod,
                          withAgent: bool, walletAddress: string, now: int): Message
  {
    Message(text, me.uid, SenderName(me), recipientId, now, false, Some(PurchaseRequest), Some(Pending), productId,
            Some(payment), Some(withAgent),
            if ShowsWallet(payment, walletAddress) then Some(walletAddress) else None)
  }

  /** The fixed summary shown in the room and both inboxes instead of the body. */
  function RequestSummary(channelName: string): string {
    "Purchase Request: " + channelName
  }

  /**
   * `sendPurchaseRequest(recipientId, channelName, price, productId,
   * paymentMethod, withAgent, walletAddress)` with the random 7-digit
   * `transactionId`. The room id falls back to a clock-derived product id when
   * `productId` is empty, but the records store `productId` as given.
   */
  function SendPurchaseRequest(s: Store, me: Option<User>, recipientId: string, channelName: string, price: int,
                               productId: string, payment: PaymentMethod, withAgent: bool, walletAddress: string,
                               transactionId: nat, now: nat, key: string): (r: Outcome<Store>)
    requires 1000000 <= transactionId <= 9999999
    requires FreshKey(s, key)
    ensures me.None? ==> r == Err(NotLoggedIn)
    ensures me.Some? ==> (r.Err? <==> me.value.uid == "" || recipientId == "")
    ensures me.Some? && r.Err? ==> r.error == MissingUserId
    ensures r.Ok? ==>
              var roomId := ChatRoomId(me.value.uid, recipientId, productId, now).value;
              && Sent(s, r.value, roomId, me.value.uid, recipientId, RequestSummary(channelName), productId, now, key)
              && var m := MessagesOf(r.value, roomId)[key];
              && m.text == PurchaseRequestText(channelName, transactionId, price, payment, withAgent, walletAddress)
              && m.messageType == Some(PurchaseRequest) && m.status == Some(Pending) && !m.read
              && m.senderId == me.value.uid && m.recipientId == recipientId && m.productId == productId
              && m.senderName == SenderName(me.value) && m.timestamp == now
              && m.paymentMethod == Some(payment) && m.withAgent == Some(withAgent)
              && (m.walletAddress.Some? <==> ShowsWallet(payment, walletAddress))
              && (m.walletAddress.Some? ==> m.walletAddress.value == walletAddress)
  {
    match me
    case None => Err(NotLoggedIn)
    case Some(user) =>
      var text := PurchaseRequestText(channelName, transactionId, price, payment, withAgent, walletAddress);
      match ChatRoomId(user.uid, recipientId, productId, now)
      case Err(e) => Err(e)
      case Ok(roomId) =>
        var message := RequestMessage(user, text, recipientId, productId, payment, withAgent, walletAddress, now);
        Ok(PostRequest(s, user.uid, recipientId, roomId, message, RequestSummary(channelName), productId, now, key))
  }

  /**
   * The store half of a purchase request: room set-up with product-id
   * reconciliation, then the send of `message` under the fixed summary.
   */
  function PostRequest(s: Store, sender: string, recipient: string, roomId: string, message: Message,
                       summary: string, productId: string, now: nat, key: string): (t: Store)
    requires FreshKey(s, key) && message.timestamp == now
    ensures Sent(s, t, roomId, sender, recipient, summary, productId, now, key)
    ensures MessagesOf(t, roomId)[key] == message
  {
    var s1 := EnsureRoom(s, sender, recipient, roomId, productId, now, true);
    EnsureThenDeliver(s, roomId, sender, recipient, message, summary, productId, now, key, true);
    Deliver(s1, roomId, sender, recipient, message, summary, productId, now, key)
  }

  /** The statuses a caller may request: `'agreed' | 'completed'`. */
  predicate IsRequestedStatus(status: Status) {
    status == Agreed || status == Completed
  }

  /**
   * `updatePurchaseRequestStatus(messageId, roomId, status)`: only the
   * message's recipient may change it; the previous status and the message
   * type are not consulted. On `agreed` the acknowledgement is sent to the
   * original sender under the original product id, using push key `key`.
   */
  function UpdatePurchaseRequestStatus(s: Store, me: Option<User>, messageId: string, roomId: string, status: Status,
                                       now: nat, key: string): (r: Outcome<Store>)
    requires IsRequestedStatus(status)
    requires FreshKey(s, key)
    ensures me.None? ==> r == Err(NotLoggedIn)
    ensures me.Some? && messageId !in MessagesOf(s, roomId) ==> r == Err(MessageNotFound)
    ensures me.Some? && messageId in MessagesOf(s, roomId) && MessagesOf(s, roomId)[messageId].recipientId != me.value.uid
            ==> r == Err(NotRecipient)
    ensures me.Some? && messageId in MessagesOf(s, roomId) && MessagesOf(s, roomId)[messageId].recipientId == me.value.uid
            && status == Completed ==>
              && r.Ok?
              && MessagesOf(r.value, roomId) == MessagesOf(s, roomId)[messageId := MessagesOf(s, roomId)[messageId].(status := Some(Completed))]
              && SameMessagesExcept(s, r.value, {roomId})
              && r.value.chatRooms == s.chatRooms && r.value.userChats == s.userChats
    ensures me.Some? && messageId in MessagesOf(s, roomId) && MessagesOf(s, roomId)[messageId].recipientId == me.value.uid
            && status == Agreed ==>
              var original := MessagesOf(s, roomId)[messageId];
              var marked := PutMessage(s, roomId, messageId, original.(status := Some(Agreed)));
              r == SendMessage(marked, me, AgreedNotice, original.senderId, original.productId, now, key)
  {
    match me
    case None => Err(NotLoggedIn)
    case Some(user) =>
      if messageId !in MessagesOf(s, roomId) then Err(MessageNotFound)
      else
        var original := MessagesOf(s, roomId)[messageId];
        if original.recipientId != user.uid then Err(NotRecipient)
        else
          var marked := PutMessage(s, roomId, messageId, original.(status := Some(status)));
          if status == Agreed then SendMessage(marked, me, AgreedNotice, original.senderId, original.productId, now, key)
          else Ok(marked)
  }

  /**
   * Agreeing changes the proposal's status and posts the acknowledgement into
   * the room derived from the proposer and the proposal's product id: the
   * proposer's counter goes up and the agreeing user's goes to zero.
   */
  lemma AgreeNotifiesProposer(s: Store, me: User, messageId: string, roomId: string, now: nat, key: string)
    requires FreshKey(s, key)
    requires messageId in MessagesOf(s, roomId)
    requires MessagesOf(s, roomId)[messageId].recipientId == me.uid
    requires me.uid != "" && MessagesOf(s, roomId)[messageId].senderId != ""
    ensures var original := MessagesOf(s, roomId)[messageId];
            var r := UpdatePurchaseRequestStatus(s, Some(me), messageId, roomId, Agreed, now, key);
            var ackRoom := ChatRoomId(me.uid, original.senderId, original.productId, now).value;
            && r.Ok?
            && var t := r.value;
            && key in MessagesOf(t, ackRoom)
            && MessagesOf(t, ackRoom)[key].text == AgreedNotice
            && MessagesOf(t, ackRoom)[key].recipientId == original.senderId
            && InboxOf(t, me.uid, ackRoom).Some? && InboxOf(t, me.uid, ackRoom).value.unreadCount == 0
            && messageId in MessagesOf(t, roomId) && MessagesOf(t, roomId)[messageId].status == Some(Agreed)
  {
    var original := MessagesOf(s, roomId)[messageId];
    var marked := PutMessage(s, roomId, messageId, original.(status := Some(Agreed)));
    assert key !in MessagesOf(s, roomId);
    PutMessageKeepsFresh(s, roomId, messageId, original.(status := Some(Agreed)), key);
    var ackRoom := ChatRoomId(me.uid, original.senderId, original.productId, now).value;
    var t := SendMessage(marked, Some(me), AgreedNotice, original.senderId, original.productId, now, key).value;
    if ackRoom != roomId {
      assert MessagesOf(t, roomId) == MessagesOf(marked, roomId);
    } else {
      assert messageId != key;
      assert messageId in MessagesOf(t, roomId) - {key};
    }
  }

  /**
   * No transition is refused on account of the previous status: a completed
   * proposal can be moved back to agreed by its recipient.
   */
  lemma StatusNotMonotonic(s: Store, me: User, messageId: string, roomId: string, now: nat, key: string)
    requires FreshKey(s, key)
    requires messageId in MessagesOf(s, roomId)
    requires MessagesOf(s, roomId)[messageId].recipientId == me.uid
    requires MessagesOf(s, roomId)[messageId].status == Some(Completed)
    requires me.uid != "" && MessagesOf(s, roomId)[messageId].senderId != ""
    ensures var r := UpdatePurchaseRequestStatus(s, Some(me), messageId, roomId, Agreed, now, key);
            && r.Ok?
            && messageId in MessagesOf(r.value, roomId)
            && MessagesOf(r.value, roomId)[messageId].status == Some(Agreed)
  {
    AgreeNotifiesProposer(s, me, messageId, roomId, now, key);
  }
}
