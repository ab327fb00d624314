/** The two ends of one lane as a step system. Relayers carry proofs of any past state of the
    other chain, in any order and as often as they like; nothing else connects the chains. */
module Bridge {
  import opened Wrappers
  import opened LaneTypes
  import opened InboundLanes
  import opened OutboundLanes
  import opened MessageProofs
  import opened Rewards

  /** A confirmed range and the proved lane whose relayers are handed to the payment of its rewards. */
  datatype Payment = Payment(range: DeliveredMessages, proved: InboundLaneData)

  /** Both ends of the lane, every past state of each (the current one last), and the logs that
      the theorems speak about: payloads in sending order, messages in dispatch order, who
      delivered each nonce, and the payments. */
  datatype World = World(
    source: Outbound, target: InboundLaneData,
    sourcePast: seq<Outbound>, targetPast: seq<InboundLaneData>,
    sent: seq<Payload>, dispatched: seq<Message>, deliveredBy: seq<AccountId>, payments: seq<Payment>)

  /** `admitted` is false when a call fails for a reason outside the lane: a halted pallet, a bad
      origin, an inactive dispatcher, too little dispatch weight, or an aborted increment. A lane
      that has used up its nonces sends no more. */
  datatype Step =
    | Send(payload: Payload, admitted: bool)
    | Deliver(sourceSnapshot: nat, proof: MessagesProof, messagesCount: U32, relayer: AccountId, admitted: bool)
    | Confirm(targetSnapshot: nat, relayersState: UnrewardedRelayersState, admitted: bool)
    | SetSourceState(sourceState: LaneState)
    | SetTargetState(targetState: LaneState)
    | PruneOldest(admitted: bool)

  function Genesis(): World {
    var source := Outbound(OpenedOutboundLane(), map[]);
    World(source, OpenedInboundLane(), [source], [OpenedInboundLane()], [], [], [], [])
  }

  // ---------- The steps

  function MoveSource(w: World, source: Outbound): World {
    w.(source := source, sourcePast := w.sourcePast + [source])
  }

  function MoveTarget(w: World, target: InboundLaneData): World {
    w.(target := target, targetPast := w.targetPast + [target])
  }

  predicate CanSend(w: World, admitted: bool) {
    admitted && w.source.data.state.Opened? && w.source.data.latestGenerated < MAX_NONCE
  }

  function AfterSending(w: World, payload: Payload): World
    requires w.source.data.latestGenerated < MAX_NONCE
  {
    MoveSource(w, AfterSend(w.source, payload)).(sent := w.sent + [payload])
  }

  ghost predicate CanDeliver(
    limits: Limits, w: World, snapshot: nat, proof: MessagesProof, count: U32, admitted: bool)
  {
    && admitted
    && w.target.state.Opened?
    && count <= limits.maxUnconfirmedMessages
    && snapshot < |w.sourcePast|
    && Genuine(proof, w.sourcePast[snapshot])
    && Acceptable(proof, count)
  }

  ghost function AfterDelivery(limits: Limits, w: World, proof: MessagesProof, relayer: AccountId): World
    requires Complete(proof)
  {
    var (target, accepted) := AfterProof(limits, w.target, proof, relayer);
    MoveTarget(w, target).(dispatched := w.dispatched + accepted,
                           deliveredBy := w.deliveredBy + seq(|accepted|, _ => relayer))
  }

  predicate CanConfirm(w: World, snapshot: nat, relayersState: UnrewardedRelayersState, admitted: bool) {
    admitted && snapshot < |w.targetPast| && relayersState == Summary(w.targetPast[snapshot])
  }

  function AfterConfirm(w: World, proved: InboundLaneData): World {
    var found := ConfirmationOf(w.source.data, proved);
    MoveSource(w, AfterConfirmation(w.source, found)).(
      payments := w.payments +
        if found.Ok? && found.value.Some? then [Payment(found.value.value, proved)] else [])
  }

  ghost function Apply(limits: Limits, w: World, step: Step): World {
    match step
    case Send(payload, admitted) =>
      if CanSend(w, admitted) then AfterSending(w, payload) else w
    case Deliver(snapshot, proof, count, relayer, admitted) =>
      if CanDeliver(limits, w, snapshot, proof, count, admitted)
      then AfterDelivery(limits, w, proof, relayer)
      else w
    case Confirm(snapshot, relayersState, admitted) =>
      if CanConfirm(w, snapshot, relayersState, admitted)
      then AfterConfirm(w, w.targetPast[snapshot])
      else w
    case SetSourceState(state) => MoveSource(w, w.source.(data := w.source.data.(state := state)))
    case SetTargetState(state) => MoveTarget(w, w.target.(state := state))
    case PruneOldest(admitted) => if admitted then MoveSource(w, AfterPruneOldest(w.source)) else w
  }

  ghost function Run(limits: Limits, steps: seq<Step>): World {
    if steps == [] then Genesis() else Apply(limits, Run(limits, steps[..|steps| - 1]), steps[|steps| - 1])
  }

  lemma RunStep(limits: Limits, steps: seq<Step>, step: Step)
    ensures Run(limits, steps + [step]) == Apply(limits, Run(limits, steps), step)
  {
  }

  // ---------- The invariant

  /** What is stored was sent under its nonce. */
  ghost predicate FromLog(messages: map<Nonce, Payload>, sent: seq<Payload>) {
    forall n :: n in messages ==> 0 < n <= |sent| && messages[n] == sent[n - 1]
  }

  /** A past or present source state: everything it stores was sent, and what it knew to be
      received is known now. */
  ghost predicate SourceKnown(w: World, past: Outbound) {
    FromLog(past.messages, w.sent) && past.data.latestReceived <= w.source.data.latestReceived
  }

  /** A past or present target state: a partition that names the true deliverers and does not
      go beyond the present. */
  ghost predicate TargetKnown(limits: Limits, w: World, past: InboundLaneData) {
    && WellFormed(limits, past)
    && past.lastConfirmed <= w.target.lastConfirmed
    && past.LastDelivered() <= w.target.LastDelivered()
    && Attributed(past.relayers, past.lastConfirmed, w.deliveredBy)
  }

  /** The confirmed nonces of the two ends, and what is delivered and generated. */
  ghost predicate Ordered(w: World) {
    w.target.lastConfirmed <= w.source.data.latestReceived <= w.target.LastDelivered() <= w.source.data.latestGenerated
  }

  ghost predicate LogsAgree(w: World) {
    && |w.sent| == w.source.data.latestGenerated
    && |w.dispatched| == |w.deliveredBy| == w.target.LastDelivered() <= |w.sent|
    && forall i :: 0 <= i < |w.dispatched| ==> w.dispatched[i] == Message(i + 1, w.sent[i])
  }

  ghost predicate Inv(limits: Limits, w: World) {
    && w.sourcePast != [] && w.sourcePast[|w.sourcePast| - 1] == w.source
    && w.targetPast != [] && w.targetPast[|w.targetPast| - 1] == w.target
    && (forall i :: 0 <= i < |w.sourcePast| ==> SourceKnown(w, w.sourcePast[i]))
    && (forall i :: 0 <= i < |w.targetPast| ==> TargetKnown(limits, w, w.targetPast[i]))
    && Ordered(w)
    && LogsAgree(w)
  }

  // ---------- Every step keeps it

  lemma SendKeepsInv(limits: Limits, w: World, payload: Payload)
    requires Inv(limits, w) && CanSend(w, true)
    ensures Inv(limits, AfterSending(w, payload))
  {
    var w' := AfterSending(w, payload);
    assert SourceKnown(w, w.source);
    forall i | 0 <= i < |w'.sourcePast|
      ensures SourceKnown(w', w'.sourcePast[i])
    {
      assert i < |w.sourcePast| ==> SourceKnown(w, w.sourcePast[i]);
    }
    forall i | 0 <= i < |w'.targetPast|
      ensures TargetKnown(limits, w', w'.targetPast[i])
    {
      assert TargetKnown(limits, w, w.targetPast[i]);
    }
  }

  /** A longer delivery log names the same deliverers. */
  lemma LongerLog(relayers: seq<UnrewardedRelayer>, confirmed: nat, log: seq<AccountId>, more: seq<AccountId>)
    requires Attributed(relayers, confirmed, log)
    ensures Attributed(relayers, confirmed, log + more)
  {
    forall n: nat | confirmed < n <= Last(relayers, confirmed)
      ensures OwnerOf(relayers, n) == Some((log + more)[n - 1])
    {
      assert OwnerOf(relayers, n) == Some(log[n - 1]);
    }
  }

  /** The target lane has taken up these messages, whose payloads were sent under their nonces. */
  ghost predicate MovesOn(
    limits: Limits, w: World, target: InboundLaneData, accepted: seq<Message>, more: seq<AccountId>)
  {
    && |more| == |accepted|
    && WellFormed(limits, target) && Attributed(target.relayers, target.lastConfirmed, w.deliveredBy + more)
    && w.target.lastConfirmed <= target.lastConfirmed <= w.source.data.latestReceived
    && target.LastDelivered() == w.target.LastDelivered() + |accepted| <= w.source.data.latestGenerated
    && forall i :: 0 <= i < |accepted| ==>
         && accepted[i].nonce == w.target.LastDelivered() + 1 + i
         && 0 <= accepted[i].nonce - 1 < |w.sent|
         && accepted[i].payload == w.sent[accepted[i].nonce - 1]
  }

  lemma TargetMoveKeepsInv(limits: Limits, w: World, w': World, accepted: seq<Message>, more: seq<AccountId>)
    requires Inv(limits, w)
    requires w' == MoveTarget(w, w'.target).(dispatched := w.dispatched + accepted, deliveredBy := w.deliveredBy + more)
    requires MovesOn(limits, w, w'.target, accepted, more)
    ensures Inv(limits, w')
  {
    forall i | 0 <= i < |w'.sourcePast|
      ensures SourceKnown(w', w'.sourcePast[i])
    {
      assert SourceKnown(w, w.sourcePast[i]);
    }
    forall i | 0 <= i < |w'.targetPast|
      ensures TargetKnown(limits, w', w'.targetPast[i])
    {
      if i < |w.targetPast| {
        assert TargetKnown(limits, w, w.targetPast[i]);
        LongerLog(w.targetPast[i].relayers, w.targetPast[i].lastConfirmed, w.deliveredBy, more);
      }
    }
    forall i | 0 <= i < |w'.dispatched|
      ensures w'.dispatched[i] == Message(i + 1, w.sent[i])
    {
      if |w.dispatched| <= i {
        assert w'.dispatched[i] == accepted[i - |w.dispatched|];
      }
    }
  }

  /** After the lane state, the target is still a partition with the same deliveries, and its
      confirmed nonce is still known to the source. */
  lemma LaneStateStep(limits: Limits, w: World, snapshot: nat, laneState: Option<OutboundLaneData>)
    requires Inv(limits, w)
    requires snapshot < |w.sourcePast|
    requires laneState.Some? ==> laneState.value == w.sourcePast[snapshot].data
    ensures
      var updated := AfterLaneState(w.target, laneState);
      && WellFormed(limits, updated)
      && updated.LastDelivered() == w.target.LastDelivered()
      && w.target.lastConfirmed <= updated.lastConfirmed <= w.source.data.latestReceived
      && Attributed(updated.relayers, updated.lastConfirmed, w.deliveredBy)
  {
    assert TargetKnown(limits, w, w.target);
    assert SourceKnown(w, w.sourcePast[snapshot]);
    if laneState.Some? {
      StateUpdateKeepsPartition(limits, w.target, laneState.value.latestReceived);
    }
  }

  lemma ProvedMessagesWereSent(proof: MessagesProof, lane: Outbound, sent: seq<Payload>, accepted: seq<Message>)
    requires Complete(proof) && Genuine(proof, lane) && FromLog(lane.messages, sent)
    requires forall i :: 0 <= i < |accepted| ==> accepted[i] in Bundled(proof)
    ensures forall i :: 0 <= i < |accepted| ==>
              0 < accepted[i].nonce <= |sent| && accepted[i].payload == sent[accepted[i].nonce - 1]
  {
    forall i | 0 <= i < |accepted|
      ensures accepted[i].nonce in proof.messages && accepted[i].payload == proof.messages[accepted[i].nonce]
    {
      var k :| 0 <= k < |Bundled(proof)| && Bundled(proof)[k] == accepted[i];
    }
  }

  lemma TakenUpMovesOn(
    limits: Limits, w: World, snapshot: nat, proof: MessagesProof, relayer: AccountId,
    updated: InboundLaneData, target: InboundLaneData, accepted: seq<Message>)
    requires Inv(limits, w) && snapshot < |w.sourcePast|
    requires Genuine(proof, w.sourcePast[snapshot]) && Complete(proof)
    requires w.target.lastConfirmed <= updated.lastConfirmed <= w.source.data.latestReceived
    requires updated.LastDelivered() == w.target.LastDelivered()
    requires Attributed(updated.relayers, updated.lastConfirmed, w.deliveredBy)
    requires WellFormed(limits, target) && TakesUp(updated, relayer, Bundled(proof), target, accepted)
    ensures MovesOn(limits, w, target, accepted, seq(|accepted|, _ => relayer))
  {
    assert SourceKnown(w, w.sourcePast[snapshot]);
    ProvedMessagesWereSent(proof, w.sourcePast[snapshot], w.sent, accepted);
    if accepted != [] {
      assert accepted[|accepted| - 1].nonce == target.LastDelivered();
    }
    AttributedAfterBatch(updated, target, w.deliveredBy, seq(|accepted|, _ => relayer), relayer);
  }

  lemma DeliveryMovesOn(limits: Limits, w: World, snapshot: nat, proof: MessagesProof, count: U32, relayer: AccountId)
    requires Inv(limits, w) && CanDeliver(limits, w, snapshot, proof, count, true)
    ensures
      var (target, accepted) := AfterProof(limits, w.target, proof, relayer);
      MovesOn(limits, w, target, accepted, seq(|accepted|, _ => relayer))
  {
    LaneStateStep(limits, w, snapshot, proof.laneState);
    var updated := AfterLaneState(w.target, proof.laneState);
    BatchKeepsPartition(limits, updated, relayer, Bundled(proof));
    var (target, accepted) := AfterProof(limits, w.target, proof, relayer);
    TakenUpMovesOn(limits, w, snapshot, proof, relayer, updated, target, accepted);
  }

  lemma DeliverKeepsInv(limits: Limits, w: World, snapshot: nat, proof: MessagesProof, count: U32, relayer: AccountId)
    requires Inv(limits, w) && CanDeliver(limits, w, snapshot, proof, count, true)
    ensures Inv(limits, AfterDelivery(limits, w, proof, relayer))
  {
    DeliveryMovesOn(limits, w, snapshot, proof, count, relayer);
    var accepted := AfterProof(limits, w.target, proof, relayer).1;
    TargetMoveKeepsInv(limits, w, AfterDelivery(limits, w, proof, relayer), accepted, seq(|accepted|, _ => relayer));
  }

  lemma AttributedAfterBatch(
    before: InboundLaneData, after: InboundLaneData, log: seq<AccountId>, more: seq<AccountId>, relayer: AccountId)
    requires before.LastDelivered() == |log|
    requires after.lastConfirmed == before.lastConfirmed
    requires after.LastDelivered() == |log| + |more|
    requires Attributed(before.relayers, before.lastConfirmed, log)
    requires forall i :: 0 <= i < |more| ==> more[i] == relayer
    requires forall n: nat :: OwnerOf(after.relayers, n) ==
               if |log| < n <= after.LastDelivered() then Some(relayer) else OwnerOf(before.relayers, n)
    ensures Attributed(after.relayers, after.lastConfirmed, log + more)
  {
    forall n: nat | after.lastConfirmed < n <= after.LastDelivered()
      ensures OwnerOf(after.relayers, n) == Some((log + more)[n - 1])
    {
      if n <= |log| {
        assert OwnerOf(before.relayers, n) == Some(log[n - 1]);
      }
    }
  }

  /** What confirming a genuine target state yields. */
  function Expected(received: Nonce, proved: InboundLaneData)
    : Result<Option<DeliveredMessages>, ReceptionConfirmationError>
  {
    var next := SaturatingInc(received);
    if proved.LastDelivered() < next then Ok(None)
    else if received == MAX_NONCE && proved.relayers == [] then Err(TryingToConfirmMoreMessagesThanExpected)
    else Ok(Some(DeliveredMessages(next, proved.LastDelivered())))
  }

  /** A genuine proof confirms: there is nothing new, or exactly the messages after the received
      nonce and up to the proved one. Only the largest nonce, once received, is confirmed again or
      refused. */
  lemma GenuineConfirmation(limits: Limits, w: World, snapshot: nat)
    requires Inv(limits, w) && snapshot < |w.targetPast|
    ensures ConfirmationOf(w.source.data, w.targetPast[snapshot]) ==
            Expected(w.source.data.latestReceived, w.targetPast[snapshot])
  {
    var proved := w.targetPast[snapshot];
    assert TargetKnown(limits, w, proved);
    OwnedRange(proved.relayers, proved.lastConfirmed);
    RelayersErrorFree(proved.relayers, proved.lastConfirmed, proved.LastDelivered());
    assert proved.relayers != [] ==> FrontBegin(proved.relayers) == Some(proved.lastConfirmed + 1);
  }

  /** Past states stay known when the source moves forward and the target stays. */
  lemma SourceMoveKeepsKnown(limits: Limits, w: World, source: Outbound, payments: seq<Payment>)
    requires Inv(limits, w)
    requires w.source.data.latestReceived <= source.data.latestReceived
    requires forall n :: n in source.messages ==> n in w.source.messages && source.messages[n] == w.source.messages[n]
    ensures
      var w' := MoveSource(w, source).(payments := payments);
      && (forall i :: 0 <= i < |w'.sourcePast| ==> SourceKnown(w', w'.sourcePast[i]))
      && (forall i :: 0 <= i < |w'.targetPast| ==> TargetKnown(limits, w', w'.targetPast[i]))
  {
  }

  /** The newly confirmed range, when there is one, starts right after the old received nonce
      and ends at what the proved target state had delivered. */
  lemma ConfirmedRange(limits: Limits, w: World, snapshot: nat)
    requires Inv(limits, w) && snapshot < |w.targetPast|
    ensures
      var found := ConfirmationOf(w.source.data, w.targetPast[snapshot]);
      found.Ok? && found.value.Some? ==>
        && found.value.value.begin == SaturatingInc(w.source.data.latestReceived)
        && found.value.value.end == w.targetPast[snapshot].LastDelivered() <= w.target.LastDelivered()
        && w.source.data.latestReceived <= found.value.value.end <= w.source.data.latestGenerated
  {
  }

  lemma ConfirmKeepsInv(limits: Limits, w: World, snapshot: nat)
    requires Inv(limits, w) && snapshot < |w.targetPast|
    ensures Inv(limits, AfterConfirm(w, w.targetPast[snapshot]))
  {
    var proved := w.targetPast[snapshot];
    var w' := AfterConfirm(w, proved);
    ConfirmedRange(limits, w, snapshot);
    SourceMoveKeepsKnown(limits, w, w'.source, w'.payments);
  }

  lemma TargetStateKeepsInv(limits: Limits, w: World, state: LaneState)
    requires Inv(limits, w)
    ensures Inv(limits, MoveTarget(w, w.target.(state := state)))
  {
  }

  lemma SourceStateKeepsInv(limits: Limits, w: World, source: Outbound)
    requires Inv(limits, w)
    requires source.data.latestReceived == w.source.data.latestReceived
    requires source.data.latestGenerated == w.source.data.latestGenerated
    requires forall n :: n in source.messages ==> n in w.source.messages && source.messages[n] == w.source.messages[n]
    ensures Inv(limits, MoveSource(w, source))
  {
  }

  lemma StepKeepsInv(limits: Limits, w: World, step: Step)
    requires Inv(limits, w)
    ensures Inv(limits, Apply(limits, w, step))
  {
    match step
    case Send(payload, admitted) =>
      if CanSend(w, admitted) {
        SendKeepsInv(limits, w, payload);
      }
    case Deliver(snapshot, proof, count, relayer, admitted) =>
      if CanDeliver(limits, w, snapshot, proof, count, admitted) {
        DeliverKeepsInv(limits, w, snapshot, proof, count, relayer);
      }
    case Confirm(snapshot, relayersState, admitted) =>
      if CanConfirm(w, snapshot, relayersState, admitted) {
        ConfirmKeepsInv(limits, w, snapshot);
      }
    case SetSourceState(state) =>
      SourceStateKeepsInv(limits, w, w.source.(data := w.source.data.(state := state)));
    case SetTargetState(state) =>
      TargetStateKeepsInv(limits, w, state);
    case PruneOldest(admitted) =>
      SourceStateKeepsInv(limits, w, AfterPruneOldest(w.source));
  }

  lemma {:induction false} InvHolds(limits: Limits, steps: seq<Step>)
    ensures Inv(limits, Run(limits, steps))
  {
    if steps != [] {
      InvHolds(limits, steps[..|steps| - 1]);
      StepKeepsInv(limits, Run(limits, steps[..|steps| - 1]), steps[|steps| - 1]);
    }
  }
}
