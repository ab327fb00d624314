/** The values that the two ends of a message lane keep in storage and exchange
    (bridges/primitives/messages/src/lib.rs). */
module LaneTypes {
  import opened Wrappers

  const MAX_NONCE: nat := 0xFFFF_FFFF_FFFF_FFFF

  /** A message nonce, a 64-bit word. */
  type Nonce = n: nat | n <= MAX_NONCE

  /** A 32-bit word. */
  type U32 = n: nat | n <= 0xFFFF_FFFF

  type AccountId(==, !new)
  type Payload(==, !new)
  type LaneId(==, !new)

  datatype LaneState = Opened | Closed

  datatype MessageKey = MessageKey(laneId: LaneId, nonce: Nonce)

  datatype Message = Message(nonce: Nonce, payload: Payload)

  /** The two limits that the bridged chain configures for an inbound lane. */
  datatype Limits = Limits(maxUnrewardedRelayers: Nonce, maxUnconfirmedMessages: Nonce)

  function SaturatingInc(n: Nonce): (r: Nonce)
    ensures n < r || n == r == MAX_NONCE
    ensures r <= n + 1
  {
    if n < MAX_NONCE then n + 1 else n
  }

  function CheckedInc(n: Nonce): Option<Nonce> {
    if n < MAX_NONCE then Some(n + 1) else None
  }

  /** `n + 1` as a build computes it: with overflow checks the call is aborted at the largest word,
      without them the word wraps around. */
  function Increment(overflowChecks: bool, n: Nonce): Option<Nonce> {
    if CheckedInc(n).None? && !overflowChecks then Some(0) else CheckedInc(n)
  }

  function SaturatingSub(a: nat, b: nat): (r: nat)
    ensures r <= a
    ensures b <= a ==> r + b == a
  {
    if b <= a then a - b else 0
  }

  /** The number of nonces in `first..=last`, saturating at the largest word. */
  function SaturatingLen(first: Nonce, last: Nonce): (r: Nonce)
    ensures r == 0 <==> last < first
    ensures first <= last ==> first + r == last + 1 || r == last - first == MAX_NONCE
  {
    if last < first then 0 else if last - first == MAX_NONCE then MAX_NONCE else last - first + 1
  }

  datatype DeliveredMessages = DeliveredMessages(begin: Nonce, end: Nonce) {

    function TotalMessages(): Nonce {
      SaturatingLen(begin, end)
    }

    predicate Contains(nonce: nat) {
      begin <= nonce <= end
    }
  }

  datatype UnrewardedRelayer = UnrewardedRelayer(relayer: AccountId, messages: DeliveredMessages)

  datatype InboundLaneData = InboundLaneData(
    state: LaneState, relayers: seq<UnrewardedRelayer>, lastConfirmed: Nonce)
  {
    function LastDelivered(): Nonce {
      if relayers == [] then lastConfirmed else relayers[|relayers| - 1].messages.end
    }

    function TotalUnrewardedMessages(): Nonce {
      if relayers == [] then 0
      else SaturatingLen(relayers[0].messages.begin, relayers[|relayers| - 1].messages.end)
    }
  }

  datatype OutboundLaneData = OutboundLaneData(
    state: LaneState, oldestUnpruned: Nonce, latestReceived: Nonce, latestGenerated: Nonce)

  function OpenedInboundLane(): InboundLaneData {
    InboundLaneData(Opened, [], 0)
  }

  function OpenedOutboundLane(): OutboundLaneData {
    OutboundLaneData(Opened, 1, 0, 0)
  }

  /** What a confirming relayer declares about the inbound lane that it proves. */
  datatype UnrewardedRelayersState = UnrewardedRelayersState(
    unrewardedRelayerEntries: nat, messagesInOldestEntry: Nonce,
    totalMessages: Nonce, lastDelivered: Nonce)

  function Summary(lane: InboundLaneData): UnrewardedRelayersState {
    UnrewardedRelayersState(
      |lane.relayers|,
      if lane.relayers == [] then 0 else lane.relayers[0].messages.TotalMessages(),
      lane.TotalUnrewardedMessages(),
      lane.LastDelivered())
  }
}
