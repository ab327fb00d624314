/** The checks that the transaction extensions make before and after a messages call
    (bridges/modules/messages/src/call_ext.rs, bridges/primitives/messages/src/call_info.rs). */
module MessagesCallExt {
  import opened Wrappers
  import opened LaneTypes
  import opened InboundLanes
  import opened MessageProofs
  import opened Bridge

  datatype Occupation = Occupation(freeRelayerSlots: nat, freeMessageSlots: nat)

  /** What is recorded about a delivery call before it is dispatched. */
  datatype DeliveryInfo = DeliveryInfo(first: Nonce, last: Nonce, bestStored: Nonce, unrewardedRelayers: Occupation)

  /** What is recorded about a confirmation call before it is dispatched. */
  datatype ConfirmationInfo = ConfirmationInfo(first: Nonce, last: Nonce, bestStored: Nonce)

  function OccupationOf(limits: Limits, lane: InboundLaneData): Occupation {
    Occupation(SaturatingSub(limits.maxUnrewardedRelayers, |lane.relayers|),
               SaturatingSub(limits.maxUnconfirmedMessages, SaturatingSub(lane.LastDelivered(), lane.lastConfirmed)))
  }

  function DeliveryInfoOf(limits: Limits, lane: InboundLaneData, proof: MessagesProof): DeliveryInfo {
    DeliveryInfo(proof.noncesStart, proof.noncesEnd, lane.LastDelivered(), OccupationOf(limits, lane))
  }

  /** There is no info when computing it is aborted. */
  function ConfirmationInfoOf(overflowChecks: bool, lane: OutboundLaneData, relayersState: UnrewardedRelayersState)
    : Option<ConfirmationInfo>
  {
    match Increment(overflowChecks, lane.latestReceived)
    case None => None
    case Some(first) => Some(ConfirmationInfo(first, relayersState.lastDelivered, lane.latestReceived))
  }

  predicate ObsoleteDelivery(info: DeliveryInfo, dispatcherActive: bool) {
    if !dispatcherActive then true
    else if info.last < info.first
    then !(info.unrewardedRelayers.freeRelayerSlots == 0 || info.unrewardedRelayers.freeMessageSlots == 0)
    else Some(info.first) != CheckedInc(info.bestStored)
  }

  predicate ObsoleteConfirmation(info: ConfirmationInfo) {
    info.last < info.first || Some(info.first) != CheckedInc(info.bestStored)
  }

  predicate DeliveryWasSuccessful(limits: Limits, info: DeliveryInfo, lane: InboundLaneData) {
    if info.last < info.first
    then OccupationOf(limits, lane).freeMessageSlots > info.unrewardedRelayers.freeMessageSlots
    else lane.LastDelivered() == info.last
  }

  predicate ConfirmationWasSuccessful(info: ConfirmationInfo, lane: OutboundLaneData) {
    lane.latestReceived == info.last
  }

  /** A state update frees message slots exactly when it is applied, and never frees a relayer
      slot without freeing a message slot. */
  lemma StateUpdateFreesSlots(limits: Limits, lane: InboundLaneData, received: Nonce)
    requires WellFormed(limits, lane)
    ensures
      var before, after := OccupationOf(limits, lane), OccupationOf(limits, AfterStateUpdate(lane, received));
      && (Applies(lane, received) <==> before.freeMessageSlots < after.freeMessageSlots)
      && (before.freeRelayerSlots < after.freeRelayerSlots ==> before.freeMessageSlots < after.freeMessageSlots)
  {
    StateUpdateKeepsPartition(limits, lane, received);
    OwnedRange(lane.relayers, lane.lastConfirmed);
    var after := AfterStateUpdate(lane, received);
    OwnedRange(after.relayers, after.lastConfirmed);
  }

  /** A call with messages passes the obsolescence check exactly when they continue what the lane has delivered,
      and a call without messages exactly when the lane is blocked, so that it would refuse the next message
      of any relayer. */
  lemma ObsoleteExactly(limits: Limits, lane: InboundLaneData, proof: MessagesProof, dispatcherActive: bool)
    requires WellFormed(limits, lane)
    ensures
      var obsolete := ObsoleteDelivery(DeliveryInfoOf(limits, lane, proof), dispatcherActive);
      var delivered := lane.LastDelivered();
      if proof.noncesStart <= proof.noncesEnd
      then !obsolete <==> dispatcherActive && proof.noncesStart == delivered + 1
      else
        && (!obsolete <==>
              && dispatcherActive
              && (|| |lane.relayers| == limits.maxUnrewardedRelayers
                  || delivered == lane.lastConfirmed + limits.maxUnconfirmedMessages))
        && (delivered < MAX_NONCE ==>
              (!obsolete <==> dispatcherActive && !Reception(limits, lane, delivered + 1).Dispatched?))
  {
    OwnedRange(lane.relayers, lane.lastConfirmed);
    if lane.LastDelivered() < MAX_NONCE {
      ReceptionExactly(limits, lane, lane.LastDelivered() + 1);
    }
  }

  /** A call without messages counts as successful exactly when its lane state was applied. */
  lemma EmptyDeliverySuccess(limits: Limits, lane: InboundLaneData, proof: MessagesProof, relayer: AccountId)
    requires WellFormed(limits, lane)
    requires proof.noncesEnd < proof.noncesStart && proof.laneState.Some?
    ensures Complete(proof)
    ensures
      var after := AfterProof(limits, lane, proof, relayer).0;
      DeliveryWasSuccessful(limits, DeliveryInfoOf(limits, lane, proof), after) <==>
      Applies(lane, proof.laneState.value.latestReceived)
  {
    StateUpdateFreesSlots(limits, lane, proof.laneState.value.latestReceived);
    assert Bundled(proof) == [];
  }

  /** A call with messages that passes the obsolescence check counts as successful exactly when
      every one of its messages was dispatched. */
  lemma DeliverySuccess(limits: Limits, lane: InboundLaneData, proof: MessagesProof, relayer: AccountId)
    requires WellFormed(limits, lane)
    requires Complete(proof) && proof.noncesStart <= proof.noncesEnd
    requires !ObsoleteDelivery(DeliveryInfoOf(limits, lane, proof), true)
    ensures
      var (after, accepted) := AfterProof(limits, lane, proof, relayer);
      DeliveryWasSuccessful(limits, DeliveryInfoOf(limits, lane, proof), after) <==> accepted == Bundled(proof)
  {
    var updated := AfterLaneState(lane, proof.laneState);
    if proof.laneState.Some? {
      StateUpdateKeepsPartition(limits, lane, proof.laneState.value.latestReceived);
    }
    var batch := Bundled(proof);
    BatchKeepsPartition(limits, updated, relayer, batch);
    BatchClosedForm(limits, updated, relayer, batch, proof.noncesStart, proof.noncesEnd);
    var (after, accepted) := AfterProof(limits, lane, proof, relayer);
    if after.LastDelivered() == proof.noncesEnd {
      assert accepted == batch[0..|batch|];
    }
  }

  /** Unless computing its info is aborted, the call passes the obsolescence check exactly when it
      confirms something new; then it counts as successful, and would not if it had changed nothing. */
  ghost predicate ConfirmationAgrees(overflowChecks: bool, w: World, proved: InboundLaneData) {
    var found := ConfirmationInfoOf(overflowChecks, w.source.data, Summary(proved));
    var after := AfterConfirm(w, proved).source.data;
    && (found.None? <==> overflowChecks && w.source.data.latestReceived == MAX_NONCE)
    && (found.Some? ==>
          var info := found.value;
          && (!ObsoleteConfirmation(info) <==> w.source.data.latestReceived < after.latestReceived)
          && (!ObsoleteConfirmation(info) ==>
                ConfirmationWasSuccessful(info, after) && !ConfirmationWasSuccessful(info, w.source.data)))
  }

  lemma GenuineConfirmationAgrees(overflowChecks: bool, limits: Limits, w: World, snapshot: nat)
    requires Inv(limits, w) && snapshot < |w.targetPast|
    ensures ConfirmationAgrees(overflowChecks, w, w.targetPast[snapshot])
  {
    GenuineConfirmation(limits, w, snapshot);
  }

  /** In every run, the two checks agree with what a genuine confirmation does. */
  lemma ConfirmationSuccess(overflowChecks: bool, limits: Limits, steps: seq<Step>, snapshot: nat)
    requires snapshot < |Run(limits, steps).targetPast|
    ensures ConfirmationAgrees(overflowChecks, Run(limits, steps), Run(limits, steps).targetPast[snapshot])
  {
    InvHolds(limits, steps);
    GenuineConfirmationAgrees(overflowChecks, limits, Run(limits, steps), snapshot);
  }
}
