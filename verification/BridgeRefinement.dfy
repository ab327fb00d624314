/** The pallets of the two chains, driven by calls, follow the step system of `Bridge`: after any
    sequence of calls the storage on both sides is that of a run, so what holds after every run
    holds of the pallets. Calls on other lanes do not matter. */
module BridgeRefinement {
  import opened Wrappers
  import opened LaneTypes
  import opened LaneStorage
  import opened InboundLanes
  import opened OutboundLanes
  import opened MessageProofs
  import opened Bridge
  import opened Rewards
  import MessagesPallet

  /** The messages that have been dispatched on one lane. */
  ghost function OnLane(log: seq<DispatchedMessage>, lane: LaneId): seq<Message> {
    if log == [] then []
    else
      var last := log[|log| - 1];
      OnLane(log[..|log| - 1], lane) + if last.laneId == lane then [last.message] else []
  }

  lemma {:induction false} OnLaneLogged(
    log: seq<DispatchedMessage>, lane: LaneId, other: LaneId, accepted: seq<Message>)
    ensures OnLane(log + MessagesPallet.Logged(other, accepted), lane) ==
            OnLane(log, lane) + if other == lane then accepted else []
  {
    if accepted == [] {
      assert log + MessagesPallet.Logged(other, accepted) == log;
    } else {
      var front, last := accepted[..|accepted| - 1], accepted[|accepted| - 1];
      var after := log + MessagesPallet.Logged(other, accepted);
      assert after[..|after| - 1] == log + MessagesPallet.Logged(other, front);
      assert after[|after| - 1] == DispatchedMessage(other, last);
      OnLaneLogged(log, lane, other, front);
      assert OnLane(log, lane) + front + [last] == OnLane(log, lane) + (front + [last]);
      assert accepted == front + [last];
    }
  }

  lemma SendIsStep(limits: Limits, steps: seq<Step>, payload: Payload, admitted: bool)
    ensures
      var w, w' := Run(limits, steps), Run(limits, steps + [Send(payload, admitted)]);
      && w'.target == w.target && w'.dispatched == w.dispatched
      && if CanSend(w, admitted)
         then && w'.source == AfterSend(w.source, payload) && w'.sent == w.sent + [payload]
              && |w.sent| == w.source.data.latestGenerated
         else w'.source == w.source
  {
    InvHolds(limits, steps);
    RunStep(limits, steps, Send(payload, admitted));
  }

  /** One lane between two chains, and the run that the calls so far amount to. */
  class Chains {
    const source: MessagesPallet.Pallet
    const target: MessagesPallet.Pallet
    const lane: LaneId
    ghost var steps: seq<Step>

    ghost function World(): World
      reads this
    {
      Run(target.limits, steps)
    }

    ghost predicate SourceAgrees(w: World)
      reads source.storage
    {
      && lane in source.storage.outboundLanes
      && source.storage.outboundLanes[lane] == w.source.data
      && QueueOf(source.storage.outboundMessages, lane) == w.source.messages
    }

    ghost predicate TargetAgrees(w: World)
      reads target.storage
    {
      && lane in target.storage.inboundLanes
      && target.storage.inboundLanes[lane] == w.target
      && OnLane(target.storage.dispatched, lane) == w.dispatched
    }

    ghost predicate Valid()
      reads this, source.storage, target.storage
    {
      source.storage != target.storage && SourceAgrees(World()) && TargetAgrees(World())
    }

    /** Opens the lane on both sides, under an id that is new to both. */
    constructor (source: MessagesPallet.Pallet, target: MessagesPallet.Pallet, lane: LaneId, dispatcherActive: bool)
      requires source.storage != target.storage
      requires lane !in source.storage.outboundLanes && lane !in target.storage.inboundLanes
      requires QueueOf(source.storage.outboundMessages, lane) == map[] && OnLane(target.storage.dispatched, lane) == []
      modifies source.storage, target.storage
      ensures Valid() && steps == []
      ensures this.source == source && this.target == target && this.lane == lane
    {
      this.source, this.target, this.lane, steps := source, target, lane, [];
      new;
      var _ := source.storage.CreateOutboundLane(lane);
      var _ := target.storage.CreateInboundLane(lane, dispatcherActive);
    }

    ghost predicate AdmitsSending(fits: bool)
      requires lane in source.storage.outboundLanes
      reads source, source.storage
    {
      && source.operatingMode.Normal? && fits
      && Increment(source.overflowChecks, source.storage.outboundLanes[lane].latestReceived).Some?
    }

    /** The next message would go on at nonce zero. */
    predicate WrapsAround()
      requires lane in source.storage.outboundLanes
      reads source.storage
    {
      !source.overflowChecks && source.storage.outboundLanes[lane].latestGenerated == MAX_NONCE
    }

    /** Sends a message on a source pallet that agrees with the world. */
    method SendFrom(payload: Payload, fits: bool, ghost w: World)
      returns (r: Result<MessagesPallet.SendReport, MessagesPallet.Error>)
      requires SourceAgrees(w)
      modifies source.storage`outboundLanes, source.storage`outboundMessages
      ensures old(!WrapsAround()) ==>
                && (r.Ok? <==> CanSend(w, old(AdmitsSending(fits))))
                && (r.Ok? ==> r.value.nonce == w.source.data.latestGenerated + 1)
                && SourceAgrees(if r.Ok? then w.(source := AfterSend(w.source, payload)) else w)
      ensures old(WrapsAround()) && r.Ok? ==>
                var lanes := old(source.storage.outboundLanes);
                && r.value.nonce == 0
                && source.storage.outboundLanes == lanes[lane := lanes[lane].(latestGenerated := 0)]
    {
      assert source.LaneView(lane) == w.source;
      ghost var wraps := WrapsAround();
      r := source.SendMessage(lane, payload, fits);
      if r.Ok? && !wraps {
        assert source.LaneView(lane) == AfterSend(w.source, payload);
      }
    }

    /** Sends a message. This is a step, unless the lane wraps around. */
    method Send(payload: Payload, fits: bool) returns (r: Result<MessagesPallet.SendReport, MessagesPallet.Error>)
      requires Valid()
      modifies this, source.storage`outboundLanes, source.storage`outboundMessages
      ensures old(!WrapsAround()) ==>
                && Valid() && steps == old(steps) + [Bridge.Send(payload, old(AdmitsSending(fits)))]
                && (r.Ok? ==> r.value.nonce == |World().sent| && World().sent == old(World()).sent + [payload])
      ensures old(WrapsAround()) && r.Ok? ==>
                var lanes := old(source.storage.outboundLanes);
                && r.value.nonce == 0
                && source.storage.outboundLanes == lanes[lane := lanes[lane].(latestGenerated := 0)]
    {
      ghost var wraps, step := WrapsAround(), Bridge.Send(payload, AdmitsSending(fits));
      SendIsStep(target.limits, steps, payload, AdmitsSending(fits));
      r := SendFrom(payload, fits, World());
      if !wraps {
        steps := steps + [step];
      }
    }

    /** Nothing outside the lane stands in the way of a delivery: the pallet runs, the dispatcher takes
        messages, and the declared weight pays for them. */
    ghost predicate Admits(
      proof: MessagesProof, relayer: AccountId, costs: MessagesPallet.DispatchCosts,
      dispatchWeight: MessagesPallet.Weight, dispatcherActive: bool)
      requires lane in target.storage.inboundLanes
      reads target, target.storage
    {
      && !target.operatingMode.Halted? && dispatcherActive
      && (Complete(proof) ==>
            MessagesPallet.Affordable(
              target.limits, target.storage.inboundLanes[lane], proof, relayer, costs, dispatchWeight))
    }

    /** Delivers a proof of any past state of the source chain. */
    method Deliver(
      ghost snapshot: nat, relayer: AccountId, proof: MessagesProof, messagesCount: U32,
      dispatchWeight: MessagesPallet.Weight, costs: MessagesPallet.DispatchCosts, declaredWeight: MessagesPallet.Weight,
      dispatcherActive: bool)
      returns (r: Result<MessagesPallet.DeliveryReport, MessagesPallet.Error>)
      requires Valid()
      requires snapshot < |World().sourcePast| && Genuine(proof, World().sourcePast[snapshot])
      modifies this, target.storage`inboundLanes, target.storage`dispatched
      ensures Valid()
      ensures
        var admitted := old(Admits(proof, relayer, costs, dispatchWeight, dispatcherActive));
        && steps == old(steps) + [Bridge.Deliver(snapshot, proof, messagesCount, relayer, admitted)]
        && (r.Ok? <==> CanDeliver(target.limits, old(World()), snapshot, proof, messagesCount, admitted))
    {
      ghost var admitted := Admits(proof, relayer, costs, dispatchWeight, dispatcherActive);
      ghost var log := target.storage.dispatched;
      r := target.ReceiveMessagesProof(
        lane, relayer, proof, messagesCount, dispatchWeight, costs, declaredWeight, dispatcherActive);
      ghost var step := Bridge.Deliver(snapshot, proof, messagesCount, relayer, admitted);
      RunStep(target.limits, steps, step);
      if r.Ok? {
        OnLaneLogged(log, lane, lane, AfterProof(target.limits, World().target, proof, relayer).1);
      }
      steps := steps + [step];
    }

    /** A delivery on another lane, with any proof. */
    method DeliverElsewhere(
      other: LaneId, relayer: AccountId, proof: MessagesProof, messagesCount: U32,
      dispatchWeight: MessagesPallet.Weight, costs: MessagesPallet.DispatchCosts, declaredWeight: MessagesPallet.Weight,
      dispatcherActive: bool)
      returns (r: Result<MessagesPallet.DeliveryReport, MessagesPallet.Error>)
      requires Valid() && other != lane
      modifies target.storage`inboundLanes, target.storage`dispatched
      ensures Valid()
    {
      ghost var log, before := target.storage.dispatched, target.storage.inboundLanes;
      r := target.ReceiveMessagesProof(
        other, relayer, proof, messagesCount, dispatchWeight, costs, declaredWeight, dispatcherActive);
      if r.Ok? {
        OnLaneLogged(log, lane, other, AfterProof(target.limits, before[other], proof, relayer).1);
      }
    }

    /** A confirmation passes the mode of the pallet, and does not end in an aborted increment. */
    ghost predicate AdmitsConfirmation(proved: InboundLaneData)
      reads this, source
    {
      && !source.operatingMode.Halted?
      && (source.overflowChecks ==> AfterConfirm(World(), proved).source.data.latestReceived < MAX_NONCE)
    }

    /** Confirms deliveries with a proof of any past state of the target chain. */
    method Confirm(
      ghost snapshot: nat, proved: InboundLaneData, relayersState: UnrewardedRelayersState, rewardedRelayers: nat)
      returns (r: Result<MessagesPallet.ConfirmationReport, MessagesPallet.Error>, rewards: map<AccountId, nat>)
      requires Valid()
      requires snapshot < |World().targetPast| && proved == World().targetPast[snapshot]
      modifies this, source.storage`outboundLanes, source.storage`outboundMessages
      ensures Valid()
      ensures steps == old(steps) + [Bridge.Confirm(snapshot, relayersState, old(AdmitsConfirmation(proved)))]
      ensures r.Ok? && r.value.confirmed.Some? ==>
                && World().payments == old(World()).payments + [Payment(r.value.confirmed.value, proved)]
                && forall who :: Get(rewards, who) == RewardOf(proved.relayers, r.value.confirmed.value, who)
    {
      ghost var step := Bridge.Confirm(snapshot, relayersState, AdmitsConfirmation(proved));
      r, rewards := source.ReceiveMessagesDeliveryProof(lane, proved, relayersState, rewardedRelayers);
      RunStep(target.limits, steps, step);
      steps := steps + [step];
    }

    /** Prunes the oldest message; an aborted call is undone. */
    method PruneOldest()
      requires Valid()
      modifies this, source.storage`outboundLanes, source.storage`outboundMessages
      ensures Valid()
      ensures
        var oldest := old(source.storage.outboundLanes)[lane].oldestUnpruned;
        steps == old(steps) + [Bridge.PruneOldest(Increment(source.overflowChecks, oldest).Some?)]
    {
      var savedLanes, savedMessages := source.storage.outboundLanes, source.storage.outboundMessages;
      var outbound := new OutboundLane(source.storage, lane, source.overflowChecks);
      var done := outbound.RemoveOldestUnprunedMessage();
      if !done {
        source.storage.outboundLanes, source.storage.outboundMessages := savedLanes, savedMessages;
      }
      RunStep(target.limits, steps, Bridge.PruneOldest(done));
      steps := steps + [Bridge.PruneOldest(done)];
    }

    method SetSourceState(state: LaneState)
      requires Valid()
      modifies this, source.storage`outboundLanes
      ensures Valid() && steps == old(steps) + [Bridge.SetSourceState(state)]
    {
      var outbound := new OutboundLane(source.storage, lane, source.overflowChecks);
      outbound.SetState(state);
      RunStep(target.limits, steps, Bridge.SetSourceState(state));
      steps := steps + [Bridge.SetSourceState(state)];
    }

    method SetTargetState(state: LaneState)
      requires Valid()
      modifies this, target.storage`inboundLanes
      ensures Valid() && steps == old(steps) + [Bridge.SetTargetState(state)]
    {
      var inbound := new InboundLane(target.storage, lane, target.limits);
      inbound.SetState(state);
      RunStep(target.limits, steps, Bridge.SetTargetState(state));
      steps := steps + [Bridge.SetTargetState(state)];
    }

    /** Whatever calls have been made: what the target pallet has dispatched on the lane are the first
        payloads that the source pallet has accepted on it, in order, and the stored counters of the
        two are in order. */
    lemma DispatchedIsWhatWasSent()
      requires Valid()
      ensures
        var dispatched := OnLane(target.storage.dispatched, lane);
        var outbound, inbound := source.storage.outboundLanes[lane], target.storage.inboundLanes[lane];
        && |dispatched| == inbound.LastDelivered() <= outbound.latestGenerated == |World().sent|
        && (forall i :: 0 <= i < |dispatched| ==> dispatched[i] == Message(i + 1, World().sent[i]))
        && inbound.lastConfirmed <= outbound.latestReceived <= inbound.LastDelivered()
    {
      InvHolds(target.limits, steps);
    }
  }
}
