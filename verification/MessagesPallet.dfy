/** The calls of the messages pallet (bridges/modules/messages/src/lib.rs). A call that fails
    leaves the storage as it found it. */
module MessagesPallet {
  import opened Wrappers
  import opened LaneTypes
  import opened LaneStorage
  import opened InboundLanes
  import opened OutboundLanes
  import opened MessageProofs
  import opened Rewards

  datatype OperatingMode = Normal | Halted | RejectingOutboundMessages

  datatype Error =
    | PalletHalted
    | NotOperatingNormally
    | LanesManager(error: LanesManagerError)
    | MessageTooLarge
    | TooManyMessagesInTheProof
    | InvalidMessagesProof(reason: VerificationError)
    | InvalidUnrewardedRelayersState
    | InsufficientDispatchWeight
    | ReceptionConfirmation(confirmationError: ReceptionConfirmationError)
    | ArithmeticOverflow

  // ---------- Weights

  datatype Weight = Weight(refTime: nat, proofSize: nat) {

    predicate AnyGt(other: Weight) {
      refTime > other.refTime || proofSize > other.proofSize
    }

    function Min(other: Weight): Weight {
      Weight(if refTime < other.refTime then refTime else other.refTime,
             if proofSize < other.proofSize then proofSize else other.proofSize)
    }

    function Plus(other: Weight): Weight {
      Weight(refTime + other.refTime, proofSize + other.proofSize)
    }

    function Minus(other: Weight): Weight
      requires !other.AnyGt(this)
    {
      Weight(refTime - other.refTime, proofSize - other.proofSize)
    }

    function SaturatingMinus(other: Weight): (r: Weight)
      ensures !r.AnyGt(this)
    {
      Weight(SaturatingSub(refTime, other.refTime), SaturatingSub(proofSize, other.proofSize))
    }
  }

  /** What dispatching the messages costs, as the dispatcher tells it. */
  datatype DispatchCosts = DispatchCosts(weightOf: Message -> Weight, unspentOf: Message -> Weight)

  /** The part of its dispatch weight that a received message gives back: all of it unless it is
      dispatched. */
  function Unspent(costs: DispatchCosts, message: Message, dispatched: bool): (r: Weight)
    ensures !r.AnyGt(costs.weightOf(message))
  {
    var weight := costs.weightOf(message);
    (if dispatched then costs.unspentOf(message) else weight).Min(weight)
  }

  /** What the messages of a batch give back. */
  function Refund(
    limits: Limits, lane: InboundLaneData, relayer: AccountId, batch: seq<Message>, costs: DispatchCosts): Weight
  {
    if batch == [] then Weight(0, 0)
    else
      var prefix, message := batch[..|batch| - 1], batch[|batch| - 1];
      var before := AfterBatch(limits, lane, relayer, prefix).0;
      Refund(limits, lane, relayer, prefix, costs).Plus(
        Unspent(costs, message, Reception(limits, before, message.nonce).Dispatched?))
  }

  /** What is left of the declared dispatch weight after the batch, or nothing when some message
      needs more than is left. */
  function WeightLeft(
    limits: Limits, lane: InboundLaneData, relayer: AccountId, batch: seq<Message>,
    costs: DispatchCosts, declared: Weight)
    : Option<Weight>
  {
    if batch == [] then Some(declared)
    else
      var prefix, message := batch[..|batch| - 1], batch[|batch| - 1];
      var before := AfterBatch(limits, lane, relayer, prefix).0;
      match WeightLeft(limits, lane, relayer, prefix, costs, declared)
      case None => None
      case Some(left) =>
        if costs.weightOf(message).AnyGt(left) then None
        else
          var weight := costs.weightOf(message);
          Some(left.Minus(weight.Minus(Unspent(costs, message, Reception(limits, before, message.nonce).Dispatched?))))
  }

  /** The declared weight pays for every message of the proof. */
  ghost predicate Affordable(
    limits: Limits, lane: InboundLaneData, proof: MessagesProof, relayer: AccountId,
    costs: DispatchCosts, declared: Weight)
    requires Complete(proof)
  {
    WeightLeft(limits, AfterLaneState(lane, proof.laneState), relayer, Bundled(proof), costs, declared).Some?
  }

  function TotalWeight(batch: seq<Message>, costs: DispatchCosts): Weight {
    if batch == [] then Weight(0, 0)
    else TotalWeight(batch[..|batch| - 1], costs).Plus(costs.weightOf(batch[|batch| - 1]))
  }

  /** Weight is conserved: what is declared and given back pays for the batch and for what is left. */
  lemma {:induction false} WeightIsConserved(
    limits: Limits, lane: InboundLaneData, relayer: AccountId, batch: seq<Message>,
    costs: DispatchCosts, declared: Weight)
    requires WeightLeft(limits, lane, relayer, batch, costs, declared).Some?
    ensures WeightLeft(limits, lane, relayer, batch, costs, declared).value.Plus(TotalWeight(batch, costs)) ==
            declared.Plus(Refund(limits, lane, relayer, batch, costs))
  {
    if batch != [] {
      WeightIsConserved(limits, lane, relayer, batch[..|batch| - 1], costs, declared);
    }
  }

  /** Declaring the weight of the whole batch is always enough. */
  lemma {:induction false} TotalWeightSuffices(
    limits: Limits, lane: InboundLaneData, relayer: AccountId, batch: seq<Message>,
    costs: DispatchCosts, declared: Weight)
    requires !TotalWeight(batch, costs).AnyGt(declared)
    ensures
      var left := WeightLeft(limits, lane, relayer, batch, costs, declared);
      left.Some? && !declared.Minus(TotalWeight(batch, costs)).AnyGt(left.value)
  {
    if batch != [] {
      TotalWeightSuffices(limits, lane, relayer, batch[..|batch| - 1], costs, declared);
    }
  }

  /** What dispatching the messages has cost: their weight without what they have not used. */
  function SpentOn(messages: seq<Message>, costs: DispatchCosts): Weight {
    if messages == [] then Weight(0, 0)
    else
      var last := messages[|messages| - 1];
      SpentOn(messages[..|messages| - 1], costs).Plus(costs.weightOf(last).SaturatingMinus(costs.unspentOf(last)))
  }

  lemma SpentOnNext(messages: seq<Message>, message: Message, costs: DispatchCosts)
    ensures SpentOn(messages + [message], costs) ==
            SpentOn(messages, costs).Plus(costs.weightOf(message).SaturatingMinus(costs.unspentOf(message)))
  {
    assert (messages + [message])[..|messages|] == messages;
  }

  /** A dispatched message spends its weight but for what it has not used, any other one nothing. */
  lemma SpentOrGivenBack(costs: DispatchCosts, message: Message, dispatched: bool)
    ensures
      var weight := costs.weightOf(message);
      var spent := if dispatched then weight.SaturatingMinus(costs.unspentOf(message)) else Weight(0, 0);
      Unspent(costs, message, dispatched).Plus(spent) == weight
  {
  }

  lemma BatchSpends(
    limits: Limits, lane: InboundLaneData, relayer: AccountId, batch: seq<Message>, costs: DispatchCosts)
    requires batch != []
    ensures
      var prefix, message := batch[..|batch| - 1], batch[|batch| - 1];
      var (before, accepted) := AfterBatch(limits, lane, relayer, prefix);
      SpentOn(AfterBatch(limits, lane, relayer, batch).1, costs) ==
      SpentOn(accepted, costs).Plus(
        if Reception(limits, before, message.nonce).Dispatched?
        then costs.weightOf(message).SaturatingMinus(costs.unspentOf(message)) else Weight(0, 0))
  {
    var (_, accepted) := AfterBatch(limits, lane, relayer, batch[..|batch| - 1]);
    SpentOnNext(accepted, batch[|batch| - 1], costs);
  }

  lemma {:induction false} GivesBackTheRest(
    limits: Limits, lane: InboundLaneData, relayer: AccountId, batch: seq<Message>, costs: DispatchCosts)
    ensures Refund(limits, lane, relayer, batch, costs).Plus(
              SpentOn(AfterBatch(limits, lane, relayer, batch).1, costs)) == TotalWeight(batch, costs)
  {
    if batch != [] {
      var prefix, message := batch[..|batch| - 1], batch[|batch| - 1];
      GivesBackTheRest(limits, lane, relayer, prefix, costs);
      BatchSpends(limits, lane, relayer, batch, costs);
      var before := AfterBatch(limits, lane, relayer, prefix).0;
      SpentOrGivenBack(costs, message, Reception(limits, before, message.nonce).Dispatched?);
    }
  }

  lemma LeftIsUnspent(left: Weight, total: Weight, declared: Weight, refund: Weight, spent: Weight)
    requires left.Plus(total) == declared.Plus(refund) && refund.Plus(spent) == total
    ensures left.Plus(spent) == declared
  {
  }

  /** Weight is spent on the dispatched messages only: a batch gives back all of its weight but what those
      have used, and leaves all of the declared weight but that. */
  lemma SpentOnDispatchedOnly(
    limits: Limits, lane: InboundLaneData, relayer: AccountId, batch: seq<Message>,
    costs: DispatchCosts, declared: Weight)
    ensures
      var spent := SpentOn(AfterBatch(limits, lane, relayer, batch).1, costs);
      var left := WeightLeft(limits, lane, relayer, batch, costs, declared);
      && Refund(limits, lane, relayer, batch, costs).Plus(spent) == TotalWeight(batch, costs)
      && (left.Some? ==> left.value.Plus(spent) == declared)
  {
    GivesBackTheRest(limits, lane, relayer, batch, costs);
    var left := WeightLeft(limits, lane, relayer, batch, costs, declared);
    if left.Some? {
      WeightIsConserved(limits, lane, relayer, batch, costs, declared);
      LeftIsUnspent(left.value, TotalWeight(batch, costs), declared, Refund(limits, lane, relayer, batch, costs),
                    SpentOn(AfterBatch(limits, lane, relayer, batch).1, costs));
    }
  }

  /** What one more message makes of the two weights that the delivery loop keeps. */
  lemma NextMessageWeights(
    limits: Limits, lane: InboundLaneData, relayer: AccountId, batch: seq<Message>,
    costs: DispatchCosts, declared: Weight,
    left: Weight, charged: Weight)
    requires batch != [] && WeightLeft(limits, lane, relayer, batch[..|batch| - 1], costs, declared) == Some(left)
    ensures
      var prefix, message := batch[..|batch| - 1], batch[|batch| - 1];
      var weight := costs.weightOf(message);
      var unspent := Unspent(costs, message,
                             Reception(limits, AfterBatch(limits, lane, relayer, prefix).0, message.nonce).Dispatched?);
      && WeightLeft(limits, lane, relayer, batch, costs, declared) ==
         (if weight.AnyGt(left) then None else Some(left.Minus(weight.Minus(unspent))))
      && charged.SaturatingMinus(Refund(limits, lane, relayer, batch, costs)) ==
         charged.SaturatingMinus(Refund(limits, lane, relayer, prefix, costs)).SaturatingMinus(unspent)
  {
  }

  // ---------- The pallet

  datatype DeliveryReport = DeliveryReport(totalMessages: nat, validMessages: nat, actualWeight: Weight)

  datatype SendReport = SendReport(nonce: Nonce, enqueuedMessages: Nonce)

  datatype ConfirmationReport = ConfirmationReport(
    confirmed: Option<DeliveredMessages>, enqueuedMessages: Nonce, charged: UnrewardedRelayersState)

  /** The encoded length of an inbound lane with so many relayer entries, each of the given length. */
  function EncodedSizeHint(entries: nat, entryLength: nat): nat {
    entries * entryLength + NONCE_LENGTH
  }

  /** The part of the proof size that is charged for a lane with all relayer entries taken and that
      the lane does not need. */
  function ExtraProofSize(limits: Limits, entryLength: nat, lane: InboundLaneData): nat {
    SaturatingSub(EncodedSizeHint(limits.maxUnrewardedRelayers, entryLength),
                  EncodedSizeHint(|lane.relayers|, entryLength))
  }

  /** That is the length of the free relayer entries. */
  lemma ExtraIsFreeEntries(limits: Limits, entryLength: nat, lane: InboundLaneData)
    ensures ExtraProofSize(limits, entryLength, lane) ==
            SaturatingSub(limits.maxUnrewardedRelayers, |lane.relayers|) * entryLength
  {
    var most, taken := limits.maxUnrewardedRelayers, |lane.relayers|;
    if taken <= most {
      assert (most - taken) * entryLength + taken * entryLength == most * entryLength;
    } else {
      assert most * entryLength <= taken * entryLength;
    }
  }

  const NONCE_LENGTH: nat := 8

  /** The relayers state that a confirmation is charged for: what was actually rewarded and received. */
  function ChargedState(
    declared: UnrewardedRelayersState, confirmed: Option<DeliveredMessages>, rewardedRelayers: nat)
    : UnrewardedRelayersState
  {
    if confirmed.None? then declared
    else
      var received := confirmed.value.TotalMessages();
      declared.(
        unrewardedRelayerEntries :=
          if declared.unrewardedRelayerEntries < rewardedRelayers then declared.unrewardedRelayerEntries
          else rewardedRelayers,
        totalMessages := if declared.totalMessages < received then declared.totalMessages else received)
  }

  /** A confirmation is charged for the messages that it newly confirms, however many the proof lists, and for
      the relayers that were rewarded, unless more than the proof lists are claimed to have been. */
  lemma ChargedForNewMessages(lane: OutboundLaneData, proved: InboundLaneData, rewardedRelayers: nat)
    requires ConfirmationOf(lane, proved).Ok? && ConfirmationOf(lane, proved).value.Some?
    ensures
      var confirmed := ConfirmationOf(lane, proved).value;
      var charged := ChargedState(Summary(proved), confirmed, rewardedRelayers);
      && charged.totalMessages == confirmed.value.TotalMessages()
      && charged.unrewardedRelayerEntries <= |proved.relayers|
      && (rewardedRelayers <= |proved.relayers| ==> charged.unrewardedRelayerEntries == rewardedRelayers)
      && (|proved.relayers| < rewardedRelayers ==> charged.unrewardedRelayerEntries == |proved.relayers|)
  {
  }

  /** How many messages wait for delivery, unless computing that aborts the call. */
  function Enqueued(overflowChecks: bool, lane: OutboundLaneData): Option<Nonce> {
    match Increment(overflowChecks, lane.latestReceived)
    case None => None
    case Some(first) => Some(SaturatingLen(first, lane.latestGenerated))
  }

  /** Below the largest nonce that is what is generated and not yet received. */
  lemma EnqueuedIsTheQueue(overflowChecks: bool, lane: OutboundLaneData)
    ensures lane.latestReceived < MAX_NONCE ==>
              Enqueued(overflowChecks, lane) == Some(SaturatingSub(lane.latestGenerated, lane.latestReceived))
    ensures Enqueued(overflowChecks, lane).None? <==> overflowChecks && lane.latestReceived == MAX_NONCE
  {
  }

  ghost function Logged(laneId: LaneId, accepted: seq<Message>): seq<DispatchedMessage> {
    seq(|accepted|, i requires 0 <= i < |accepted| => DispatchedMessage(laneId, accepted[i]))
  }

  lemma LoggedStep(log: seq<DispatchedMessage>, laneId: LaneId, accepted: seq<Message>, message: Message)
    ensures log + Logged(laneId, accepted + [message]) ==
            log + Logged(laneId, accepted) + [DispatchedMessage(laneId, message)]
  {
  }

  class Pallet {
    const storage: PalletStorage
    const limits: Limits
    const entryLength: nat
    const overflowChecks: bool
    var operatingMode: OperatingMode

    constructor (storage: PalletStorage, limits: Limits, entryLength: nat, overflowChecks: bool)
      ensures this.storage == storage && this.limits == limits && this.entryLength == entryLength
      ensures this.overflowChecks == overflowChecks && operatingMode == Normal
    {
      this.storage, this.limits, this.overflowChecks := storage, limits, overflowChecks;
      this.entryLength := entryLength;
      operatingMode := Normal;
    }

    /** The checks that come before the delivery loop. */
    ghost predicate MayDeliver(laneId: LaneId, proof: MessagesProof, messagesCount: U32, dispatcherActive: bool)
      reads this, storage
    {
      && !operatingMode.Halted?
      && messagesCount <= limits.maxUnconfirmedMessages
      && Acceptable(proof, messagesCount)
      && laneId in storage.inboundLanes && storage.inboundLanes[laneId].state.Opened?
      && dispatcherActive
    }

    /** The lane is there, open, and its dispatcher takes messages. */
    method CheckActiveInboundLane(laneId: LaneId, dispatcherActive: bool) returns (r: Result<(), LanesManagerError>)
      ensures r.Ok? <==>
              laneId in storage.inboundLanes && storage.inboundLanes[laneId].state.Opened? && dispatcherActive
      ensures r == Err(UnknownInboundLane) <==> laneId !in storage.inboundLanes
      ensures r == Err(ClosedInboundLane) <==>
              laneId in storage.inboundLanes && storage.inboundLanes[laneId].state.Closed?
      ensures r == Err(LaneDispatcherInactive) <==>
              laneId in storage.inboundLanes && storage.inboundLanes[laneId].state.Opened? && !dispatcherActive
    {
      if laneId !in storage.inboundLanes {
        return Err(UnknownInboundLane);
      }
      if storage.inboundLanes[laneId].state.Closed? {
        return Err(ClosedInboundLane);
      }
      if !dispatcherActive {
        return Err(LaneDispatcherInactive);
      }
      return Ok(());
    }

    /** Every check of a delivery call that does not depend on the dispatch weight. */
    method CheckDelivery(laneId: LaneId, proof: MessagesProof, messagesCount: U32, dispatcherActive: bool)
      returns (r: Result<ProvedMessages, Error>)
      ensures r.Ok? <==> MayDeliver(laneId, proof, messagesCount, dispatcherActive)
      ensures r.Ok? ==> r.value == ProvedMessages(proof.laneState, Bundled(proof))
      ensures r == Err(PalletHalted) <==> operatingMode.Halted?
      ensures r == Err(TooManyMessagesInTheProof) <==>
              !operatingMode.Halted? && limits.maxUnconfirmedMessages < messagesCount
      ensures r.Err? && r.error.InvalidMessagesProof? <==>
              && !operatingMode.Halted? && messagesCount <= limits.maxUnconfirmedMessages
              && !Acceptable(proof, messagesCount)
      ensures r.Err? ==> r.error.PalletHalted? || r.error.TooManyMessagesInTheProof? || r.error.InvalidMessagesProof? ||
                         r.error.LanesManager?
    {
      if operatingMode.Halted? {
        return Err(PalletHalted);
      }
      if messagesCount > limits.maxUnconfirmedMessages {
        return Err(TooManyMessagesInTheProof);
      }
      var verified := VerifyMessagesProof(proof, messagesCount);
      if verified.Err? {
        return Err(InvalidMessagesProof(verified.error));
      }
      var checked := CheckActiveInboundLane(laneId, dispatcherActive);
      if checked.Err? {
        return Err(LanesManager(checked.error));
      }
      return Ok(verified.value);
    }

    /** Delivers the messages of a proof, after taking the lane state that it carries. */
    method ReceiveMessagesProof(
      laneId: LaneId, relayer: AccountId, proof: MessagesProof, messagesCount: U32,
      dispatchWeight: Weight, costs: DispatchCosts, declaredWeight: Weight, dispatcherActive: bool)
      returns (r: Result<DeliveryReport, Error>)
      modifies storage`inboundLanes, storage`dispatched
      ensures r.Ok? <==>
              && old(MayDeliver(laneId, proof, messagesCount, dispatcherActive))
              && Affordable(limits, old(storage.inboundLanes)[laneId], proof, relayer, costs, dispatchWeight)
      ensures r.Ok? ==>
                var (after, accepted) := AfterProof(limits, old(storage.inboundLanes)[laneId], proof, relayer);
                && storage.inboundLanes == old(storage.inboundLanes)[laneId := after]
                && storage.dispatched == old(storage.dispatched) + Logged(laneId, accepted)
                && r.value.totalMessages == messagesCount
                && r.value.validMessages == |accepted|
                && var lane := old(storage.inboundLanes)[laneId];
                   r.value.actualWeight ==
                   declaredWeight.SaturatingMinus(Weight(0, ExtraProofSize(limits, entryLength, lane))).SaturatingMinus(
                     Refund(limits, AfterLaneState(lane, proof.laneState), relayer, Bundled(proof), costs))
      ensures r.Err? ==> unchanged(storage)
      ensures r == Err(PalletHalted) <==> operatingMode.Halted?
      ensures r == Err(TooManyMessagesInTheProof) <==>
              !operatingMode.Halted? && limits.maxUnconfirmedMessages < messagesCount
      ensures r.Err? && r.error.InvalidMessagesProof? <==>
              && !operatingMode.Halted? && messagesCount <= limits.maxUnconfirmedMessages
              && !Acceptable(proof, messagesCount)
      ensures r == Err(InsufficientDispatchWeight) <==>
              && old(MayDeliver(laneId, proof, messagesCount, dispatcherActive))
              && !Affordable(limits, old(storage.inboundLanes)[laneId], proof, relayer, costs, dispatchWeight)
    {
      var checked := CheckDelivery(laneId, proof, messagesCount, dispatcherActive);
      if checked.Err? {
        return Err(checked.error);
      }
      var savedLanes := storage.inboundLanes;
      ghost var savedLog := storage.dispatched;
      var extra := ExtraProofSize(limits, entryLength, storage.inboundLanes[laneId]);
      var delivered := DeliverOnLane(laneId, relayer, checked.value, dispatchWeight, costs,
                                     declaredWeight.SaturatingMinus(Weight(0, extra)));
      if delivered.None? {
        storage.inboundLanes := savedLanes;
        storage.dispatched := savedLog;
        return Err(InsufficientDispatchWeight);
      }
      return Ok(delivered.value);
    }

    /** Takes the proved lane state, then delivers the proved messages. */
    method DeliverOnLane(
      laneId: LaneId, relayer: AccountId, proved: ProvedMessages, dispatchWeight: Weight, costs: DispatchCosts,
      declaredWeight: Weight)
      returns (r: Option<DeliveryReport>)
      requires laneId in storage.inboundLanes
      modifies storage`inboundLanes, storage`dispatched
      ensures
        var updated := AfterLaneState(old(storage.inboundLanes)[laneId], proved.laneState);
        && (r.Some? <==> WeightLeft(limits, updated, relayer, proved.messages, costs, dispatchWeight).Some?)
        && (r.Some? ==>
              var (after, accepted) := AfterBatch(limits, updated, relayer, proved.messages);
              && storage.inboundLanes == old(storage.inboundLanes)[laneId := after]
              && storage.dispatched == old(storage.dispatched) + Logged(laneId, accepted)
              && r.value.totalMessages == |proved.messages|
              && r.value.validMessages == |accepted|
              && r.value.actualWeight == declaredWeight.SaturatingMinus(
                   Refund(limits, updated, relayer, proved.messages, costs)))
    {
      var lane := new InboundLane(storage, laneId, limits);
      if proved.laneState.Some? {
        var _ := lane.ReceiveStateUpdate(proved.laneState.value);
      }
      r := DeliverAll(lane, relayer, proved.messages, dispatchWeight, costs, declaredWeight);
    }

    /** Hands the message after `earlier` to a lane that has taken those since `start`. */
    method DeliverNext(
      lane: InboundLane, relayer: AccountId, message: Message,
      ghost start: InboundLaneData, ghost earlier: seq<Message>,
      ghost lanes: map<LaneId, InboundLaneData>, ghost log: seq<DispatchedMessage>)
      returns (received: ReceptionResult)
      requires lane.Valid() && lane.storage == storage && lane.limits == limits
      requires lane.cachedData == AfterBatch(limits, start, relayer, earlier).0
      requires storage.inboundLanes == lanes[lane.laneId := lane.cachedData]
      requires storage.dispatched == log + Logged(lane.laneId, AfterBatch(limits, start, relayer, earlier).1)
      modifies lane`cachedData, storage`inboundLanes, storage`dispatched
      ensures lane.Valid()
      ensures received == Reception(limits, old(lane.cachedData), message.nonce)
      ensures storage.inboundLanes == lanes[lane.laneId := lane.cachedData]
      ensures
        var (after, accepted) := AfterBatch(limits, start, relayer, earlier + [message]);
        && lane.cachedData == after
        && storage.dispatched == log + Logged(lane.laneId, accepted)
        && |accepted| == |AfterBatch(limits, start, relayer, earlier).1| + if received.Dispatched? then 1 else 0
    {
      assert (earlier + [message])[..|earlier|] == earlier;
      LoggedStep(log, lane.laneId, AfterBatch(limits, start, relayer, earlier).1, message);
      received := lane.ReceiveMessage(relayer, message);
    }

    /** The delivery loop: it fails at the first message that needs more weight than is left. */
    method DeliverAll(
      lane: InboundLane, relayer: AccountId, messages: seq<Message>, dispatchWeight: Weight, costs: DispatchCosts,
      declaredWeight: Weight)
      returns (r: Option<DeliveryReport>)
      requires lane.Valid() && lane.storage == storage && lane.limits == limits
      modifies lane`cachedData, storage`inboundLanes, storage`dispatched
      ensures r.Some? <==> WeightLeft(limits, old(lane.cachedData), relayer, messages, costs, dispatchWeight).Some?
      ensures r.Some? ==>
                var (after, accepted) := AfterBatch(limits, old(lane.cachedData), relayer, messages);
                && storage.inboundLanes == old(storage.inboundLanes)[lane.laneId := after]
                && storage.dispatched == old(storage.dispatched) + Logged(lane.laneId, accepted)
                && r.value.totalMessages == |messages|
                && r.value.validMessages == |accepted|
                && r.value.actualWeight == declaredWeight.SaturatingMinus(
                     Refund(limits, old(lane.cachedData), relayer, messages, costs))
    {
      var total, valid, weightLeft, actualWeight := 0, 0, dispatchWeight, declaredWeight;
      ghost var start := lane.cachedData;
      assert storage.inboundLanes == storage.inboundLanes[lane.laneId := start];
      for i := 0 to |messages|
        invariant lane.Valid() && total == i
        invariant WeightLeft(limits, start, relayer, messages[..i], costs, dispatchWeight) == Some(weightLeft)
        invariant actualWeight == declaredWeight.SaturatingMinus(Refund(limits, start, relayer, messages[..i], costs))
        invariant
          var (after, accepted) := AfterBatch(limits, start, relayer, messages[..i]);
          && lane.cachedData == after
          && storage.inboundLanes == old(storage.inboundLanes)[lane.laneId := after]
          && storage.dispatched == old(storage.dispatched) + Logged(lane.laneId, accepted)
          && valid == |accepted|
      {
        var message := messages[i];
        ghost var prefix := messages[..i + 1];
        PrefixStep(messages, i);
        NextMessageWeights(limits, start, relayer, prefix, costs, dispatchWeight, weightLeft, declaredWeight);
        total := total + 1;
        var weight := costs.weightOf(message);
        if weight.AnyGt(weightLeft) {
          WeightStaysSpent(limits, start, relayer, messages, costs, dispatchWeight, i + 1);
          return None;
        }
        var received := DeliverNext(
          lane, relayer, message, start, messages[..i], old(storage.inboundLanes), old(storage.dispatched));
        if received.Dispatched? {
          valid := valid + 1;
        }
        var unspent := Unspent(costs, message, received.Dispatched?);
        weightLeft := weightLeft.Minus(weight.Minus(unspent));
        actualWeight := actualWeight.SaturatingMinus(unspent);
      }
      assert messages[..|messages|] == messages;
      return Some(DeliveryReport(total, valid, actualWeight));
    }

    /** The lane and its queue. */
    ghost function LaneView(laneId: LaneId): Outbound
      requires laneId in storage.outboundLanes
      reads storage
    {
      Outbound(storage.outboundLanes[laneId], QueueOf(storage.outboundMessages, laneId))
    }

    /** The storage holds the lane as given, and every other lane as it was. */
    twostate predicate Replaced(laneId: LaneId, lane: Outbound)
      reads storage
    {
      && storage.outboundLanes == old(storage.outboundLanes)[laneId := lane.data]
      && QueueOf(storage.outboundMessages, laneId) == lane.messages
      && OtherLanes(storage.outboundMessages, laneId) == old(OtherLanes(storage.outboundMessages, laneId))
    }

    /** Confirms deliveries that the bridged chain proves and computes the rewards for them. The payment
        of the rewards tells how many relayers it has rewarded. */
    method ReceiveMessagesDeliveryProof(
      laneId: LaneId, proved: InboundLaneData, relayersState: UnrewardedRelayersState, rewardedRelayers: nat)
      returns (r: Result<ConfirmationReport, Error>, rewards: map<AccountId, nat>)
      modifies storage`outboundLanes, storage`outboundMessages
      ensures r.Ok? <==>
              && !operatingMode.Halted? && relayersState == Summary(proved) && laneId in old(storage.outboundLanes)
              && var before := old(LaneView(laneId));
                 var found := ConfirmationOf(before.data, proved);
                 found.Ok? && Enqueued(overflowChecks, AfterConfirmation(before, found).data).Some?
      ensures r.Ok? ==>
                var before := old(LaneView(laneId));
                var found := ConfirmationOf(before.data, proved);
                && found == Ok(r.value.confirmed)
                && Replaced(laneId, AfterConfirmation(before, found))
                && Enqueued(overflowChecks, AfterConfirmation(before, found).data) == Some(r.value.enqueuedMessages)
                && r.value.charged == ChargedState(relayersState, r.value.confirmed, rewardedRelayers)
                && forall who :: Get(rewards, who) ==
                     if r.value.confirmed.Some? then RewardOf(proved.relayers, r.value.confirmed.value, who) else 0
      ensures r.Err? ==> unchanged(storage) && rewards == map[]
      ensures r == Err(PalletHalted) <==> operatingMode.Halted?
      ensures r == Err(InvalidUnrewardedRelayersState) <==> !operatingMode.Halted? && relayersState != Summary(proved)
      ensures r == Err(LanesManager(UnknownOutboundLane)) <==>
              && !operatingMode.Halted? && relayersState == Summary(proved) && laneId !in old(storage.outboundLanes)
      ensures r.Err? && r.error.ReceptionConfirmation? <==>
              && !operatingMode.Halted? && relayersState == Summary(proved) && laneId in old(storage.outboundLanes)
              && ConfirmationOf(old(storage.outboundLanes)[laneId], proved).Err?
      ensures r.Err? && r.error.ReceptionConfirmation? ==>
                ConfirmationOf(old(storage.outboundLanes)[laneId], proved) == Err(r.error.confirmationError)
    {
      rewards := map[];
      if operatingMode.Halted? {
        return Err(PalletHalted), rewards;
      }
      if relayersState != Summary(proved) {
        return Err(InvalidUnrewardedRelayersState), rewards;
      }
      if laneId !in storage.outboundLanes {
        return Err(LanesManager(UnknownOutboundLane)), rewards;
      }
      var savedLanes, savedMessages := storage.outboundLanes, storage.outboundMessages;
      var lane := new OutboundLane(storage, laneId, overflowChecks);
      var found := lane.ConfirmDelivery(relayersState.totalMessages, proved.LastDelivered(), proved.relayers);
      if found.Err? {
        storage.outboundLanes, storage.outboundMessages := savedLanes, savedMessages;
        return Err(ReceptionConfirmation(found.error)), rewards;
      }
      var enqueued := Enqueued(overflowChecks, lane.cachedData);
      if enqueued.None? {
        storage.outboundLanes, storage.outboundMessages := savedLanes, savedMessages;
        return Err(ArithmeticOverflow), rewards;
      }
      if found.value.Some? {
        rewards := CalcRelayersRewards(proved.relayers, found.value.value);
      }
      var charged := ChargedState(relayersState, found.value, rewardedRelayers);
      return Ok(ConfirmationReport(found.value, enqueued.value, charged)), rewards;
    }

    /** The pallet, the lane and the message are in order for sending. */
    method ValidateMessage(laneId: LaneId, fits: bool) returns (r: Result<(), Error>)
      ensures r.Ok? <==>
              && operatingMode.Normal? && fits
              && laneId in storage.outboundLanes && storage.outboundLanes[laneId].state.Opened?
      ensures r == Err(NotOperatingNormally) <==> !operatingMode.Normal?
      ensures r == Err(LanesManager(UnknownOutboundLane)) <==>
              operatingMode.Normal? && laneId !in storage.outboundLanes
      ensures r == Err(LanesManager(ClosedOutboundLane)) <==>
              && operatingMode.Normal? && laneId in storage.outboundLanes && storage.outboundLanes[laneId].state.Closed?
      ensures r == Err(MessageTooLarge) <==>
              && operatingMode.Normal? && laneId in storage.outboundLanes && storage.outboundLanes[laneId].state.Opened?
              && !fits
      ensures r != Err(ArithmeticOverflow)
    {
      if !operatingMode.Normal? {
        return Err(NotOperatingNormally);
      }
      if laneId !in storage.outboundLanes {
        return Err(LanesManager(UnknownOutboundLane));
      }
      if storage.outboundLanes[laneId].state.Closed? {
        return Err(LanesManager(ClosedOutboundLane));
      }
      if !fits {
        return Err(MessageTooLarge);
      }
      return Ok(());
    }

    /** Validates a message and stores it. */
    method SendMessage(laneId: LaneId, payload: Payload, fits: bool) returns (r: Result<SendReport, Error>)
      modifies storage`outboundLanes, storage`outboundMessages
      ensures r.Ok? <==>
              && operatingMode.Normal? && fits
              && laneId in old(storage.outboundLanes) && old(storage.outboundLanes)[laneId].state.Opened?
              && Increment(overflowChecks, old(storage.outboundLanes)[laneId].latestGenerated).Some?
              && Increment(overflowChecks, old(storage.outboundLanes)[laneId].latestReceived).Some?
      ensures r.Ok? ==>
                var before := old(LaneView(laneId));
                var after := AfterSendAs(before, r.value.nonce, payload);
                && Some(r.value.nonce) == Increment(overflowChecks, before.data.latestGenerated)
                && Some(r.value.enqueuedMessages) == Enqueued(overflowChecks, after.data)
                && Replaced(laneId, after)
      ensures r.Err? ==> unchanged(storage)
      ensures r == Err(NotOperatingNormally) <==> !operatingMode.Normal?
      ensures r == Err(LanesManager(UnknownOutboundLane)) <==>
              operatingMode.Normal? && laneId !in old(storage.outboundLanes)
      ensures r == Err(LanesManager(ClosedOutboundLane)) <==>
              && operatingMode.Normal? && laneId in old(storage.outboundLanes)
              && old(storage.outboundLanes)[laneId].state.Closed?
      ensures r == Err(MessageTooLarge) <==>
              && operatingMode.Normal? && laneId in old(storage.outboundLanes)
              && old(storage.outboundLanes)[laneId].state.Opened? && !fits
    {
      var validated := ValidateMessage(laneId, fits);
      if validated.Err? {
        return Err(validated.error);
      }
      var savedLanes, savedMessages := storage.outboundLanes, storage.outboundMessages;
      var lane := new OutboundLane(storage, laneId, overflowChecks);
      var nonce := lane.SendMessage(payload);
      var enqueued := Enqueued(overflowChecks, lane.cachedData);
      if nonce.None? || enqueued.None? {
        storage.outboundLanes, storage.outboundMessages := savedLanes, savedMessages;
        return Err(ArithmeticOverflow);
      }
      return Ok(SendReport(nonce.value, enqueued.value));
    }

    /** Samples, for every lane, the stored messages right below its oldest unpruned nonce. */
    method TryState() returns (ok: bool)
      ensures ok <==> forall laneId :: laneId in storage.outboundLanes ==>
                        SampleIsPruned(storage.outboundMessages, laneId, storage.outboundLanes[laneId].oldestUnpruned)
    {
      ok := true;
      var lanes := storage.outboundLanes.Keys;
      while lanes != {}
        invariant lanes <= storage.outboundLanes.Keys
        invariant ok <==>
                  forall laneId :: laneId in storage.outboundLanes && laneId !in lanes ==>
                    SampleIsPruned(storage.outboundMessages, laneId, storage.outboundLanes[laneId].oldestUnpruned)
        decreases |lanes|
      {
        var laneId :| laneId in lanes;
        lanes := lanes - {laneId};
        var pruned := SamplePruned(laneId, storage.outboundLanes[laneId].oldestUnpruned);
        ok := ok && pruned;
      }
    }

    method SamplePruned(laneId: LaneId, oldest: Nonce) returns (pruned: bool)
      ensures pruned == SampleIsPruned(storage.outboundMessages, laneId, oldest)
    {
      pruned := true;
      if oldest > 0 {
        var first := SaturatingSub(oldest - 1, MAX_MESSAGES_ITERATION);
        for nonce: nat := first to oldest
          invariant pruned <==>
                    forall n: Nonce :: first <= n < nonce ==> MessageKey(laneId, n) !in storage.outboundMessages
        {
          if MessageKey(laneId, nonce) in storage.outboundMessages {
            pruned := false;
          }
        }
      }
    }
  }

  const MAX_MESSAGES_ITERATION: nat := 16

  ghost predicate SampleIsPruned(messages: map<MessageKey, Payload>, laneId: LaneId, oldest: Nonce) {
    forall n: Nonce ::
      SaturatingSub(oldest, MAX_MESSAGES_ITERATION + 1) <= n < oldest ==> MessageKey(laneId, n) !in messages
  }

  lemma PrefixStep<T>(list: seq<T>, i: nat)
    requires i < |list|
    ensures list[..i + 1] == list[..i] + [list[i]]
    ensures list[..i + 1][..i] == list[..i]
  {
  }

  /** Once a message does not fit, the batch as a whole does not. */
  lemma {:induction false} WeightStaysSpent(
    limits: Limits, lane: InboundLaneData, relayer: AccountId, batch: seq<Message>,
    costs: DispatchCosts, declared: Weight,
    i: nat)
    requires i <= |batch|
    requires WeightLeft(limits, lane, relayer, batch[..i], costs, declared).None?
    ensures WeightLeft(limits, lane, relayer, batch, costs, declared).None?
  {
    if i < |batch| {
      assert batch[..|batch| - 1][..i] == batch[..i];
      WeightStaysSpent(limits, lane, relayer, batch[..|batch| - 1], costs, declared, i);
    } else {
      assert batch[..i] == batch;
    }
  }
}
