/**
 * Room-id derivation (`getChatRoomId`) and the participant list every room
 * is created with (`Array.from(new Set([a, b])).sort()`).
 */
module RoomIds {
  import opened Wrappers
  import opened Strings
  import opened Sequences
  import opened ChatStore

  const GeneralPrefix: string := "general_"

  /**
   * `productId || 'general_' + Date.now()`: a missing product id is replaced
   * by a synthetic one that encodes the clock, so the result depends on `now`.
   */
  function EffectiveProductId(productId: string, now: nat): (p: string)
    ensures p != ""
    ensures productId != "" ==> p == productId
    ensures productId == "" ==>
              StartsWith(p, GeneralPrefix) && AllDigits(p[|GeneralPrefix|..]) && DecimalValue(p[|GeneralPrefix|..]) == now
  {
    if productId != "" then productId
    else
      var digits := NatToDecimal(now);
      DecimalRoundTrip(now);
      assert (GeneralPrefix + digits)[|GeneralPrefix|..] == digits;
      GeneralPrefix + digits
  }

  /**
   * Two calls without a product id at different clock values derive
   * different room ids for the same pair of users, so a fallback room is
   * never found again.
   */
  lemma GeneralFallbackDependsOnClock(userId1: string, userId2: string, now1: nat, now2: nat)
    requires userId1 != "" && userId2 != ""
    requires now1 != now2
    ensures ChatRoomId(userId1, userId2, "", now1).value != ChatRoomId(userId1, userId2, "", now2).value
  {
    var prefix := Lo(userId1, userId2) + "_" + Hi(userId1, userId2) + "_";
    var p1, p2 := EffectiveProductId("", now1), EffectiveProductId("", now2);
    assert (prefix + p1)[|prefix|..] == p1;
    assert (prefix + p2)[|prefix|..] == p2;
  }

  /**
   * `getChatRoomId(userId1, userId2, productId)`: throws when either id is
   * empty; otherwise the two ids in lexicographic order joined by `_`,
   * then `_` and the (possibly synthesised) product id.
   */
  function ChatRoomId(userId1: string, userId2: string, productId: string, now: nat): (r: Outcome<string>)
    ensures r.Err? <==> userId1 == "" || userId2 == ""
    ensures r.Err? ==> r.error == MissingUserId
    ensures r.Ok? ==> StrLe(Lo(userId1, userId2), Hi(userId1, userId2))
    ensures r.Ok? ==> multiset{Lo(userId1, userId2), Hi(userId1, userId2)} == multiset{userId1, userId2}
    ensures r.Ok? ==>
              r.value == Lo(userId1, userId2) + "_" + Hi(userId1, userId2) + "_" + EffectiveProductId(productId, now)
  {
    if userId1 == "" || userId2 == "" then Err(MissingUserId)
    else Ok(Lo(userId1, userId2) + "_" + Hi(userId1, userId2) + "_" + EffectiveProductId(productId, now))
  }

  /** The derived id does not depend on which user is given first. */
  lemma ChatRoomIdSymmetric(userId1: string, userId2: string, productId: string, now: nat)
    ensures ChatRoomId(userId1, userId2, productId, now) == ChatRoomId(userId2, userId1, productId, now)
  {
    LoHiSymmetric(userId1, userId2);
  }

  /** With an explicit product id the derived id does not depend on the clock either. */
  lemma ChatRoomIdClockFree(userId1: string, userId2: string, productId: string, now1: nat, now2: nat)
    requires productId != ""
    ensures ChatRoomId(userId1, userId2, productId, now1) == ChatRoomId(userId1, userId2, productId, now2)
  {
  }

  /**
   * `Array.from(new Set([a, b])).sort()`: the two users without repetition,
   * in strictly increasing lexicographic order.
   */
  function Participants(a: string, b: string): (r: seq<string>)
    ensures |r| == (if a == b then 1 else 2)
    ensures (set u | u in r) == {a, b}
    ensures forall i :: 0 < i < |r| ==> StrLt(r[i - 1], r[i])
    ensures Distinct(r)
  {
    if a == b then [a]
    else
      LoBelowHi(a, b);
      [Lo(a, b), Hi(a, b)]
  }

  /** The participant list does not depend on which user is given first. */
  lemma ParticipantsSymmetric(a: string, b: string)
    ensures Participants(a, b) == Participants(b, a)
  {
    LoHiSymmetric(a, b);
  }
}
