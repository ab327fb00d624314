/** The storage of the source end over every run: it holds exactly the queue, and nothing below the
    oldest unpruned nonce, exactly as long as it is pruned with care. */
module BridgeStorage {
  import opened Wrappers
  import opened LaneTypes
  import opened OutboundLanes
  import opened Bridge
  import opened BridgeTheorems
  import opened BridgeProgress
  import MessagesPallet

  /** The source end alone: what a step makes of it. */
  ghost function SourceAfter(w: World, step: Step): Outbound {
    match step
    case Send(payload, admitted) => if CanSend(w, admitted) then AfterSend(w.source, payload) else w.source
    case Confirm(snapshot, relayersState, admitted) =>
      if CanConfirm(w, snapshot, relayersState, admitted)
      then AfterConfirmation(w.source, ConfirmationOf(w.source.data, w.targetPast[snapshot]))
      else w.source
    case SetSourceState(state) => w.source.(data := w.source.data.(state := state))
    case PruneOldest(admitted) => if admitted then AfterPruneOldest(w.source) else w.source
    case _ => w.source
  }

  lemma SourceStep(limits: Limits, w: World, step: Step)
    ensures Apply(limits, w, step).source == SourceAfter(w, step)
  {
  }

  ghost predicate FollowsReceived(
    lane: OutboundLaneData, found: Result<Option<DeliveredMessages>, ReceptionConfirmationError>)
  {
    found.Ok? && found.value.Some? ==>
      && found.value.value.begin == SaturatingInc(lane.latestReceived)
      && lane.latestReceived <= found.value.value.end <= lane.latestGenerated
  }

  lemma ConfirmStepFollows(limits: Limits, w: World, snapshot: nat)
    requires Inv(limits, w) && snapshot < |w.targetPast|
    ensures FollowsReceived(w.source.data, ConfirmationOf(w.source.data, w.targetPast[snapshot]))
  {
  }

  // ---------- Exactly the queue

  /** The stored nonces are exactly the generated ones that are not yet received. */
  ghost predicate StoresQueue(source: Outbound) {
    forall n: Nonce :: n in source.messages <==> source.data.latestReceived < n <= source.data.latestGenerated
  }

  /** The step prunes a message that is not yet received. */
  predicate PrunesQueued(w: World, step: Step) {
    && step.PruneOldest? && step.admitted
    && w.source.data.latestReceived < w.source.data.oldestUnpruned <= w.source.data.latestGenerated
  }

  lemma ConfirmationKeepsQueue(source: Outbound, found: Result<Option<DeliveredMessages>, ReceptionConfirmationError>)
    requires FollowsReceived(source.data, found)
    ensures StoresQueue(source) ==> StoresQueue(AfterConfirmation(source, found))
  {
  }

  lemma StepKeepsQueue(limits: Limits, w: World, step: Step)
    requires Inv(limits, w) && StoresQueue(w.source)
    ensures StoresQueue(Apply(limits, w, step).source) <==> !PrunesQueued(w, step)
  {
    SourceStep(limits, w, step);
    if step.Confirm? && step.targetSnapshot < |w.targetPast| {
      ConfirmStepFollows(limits, w, step.targetSnapshot);
      ConfirmationKeepsQueue(w.source, ConfirmationOf(w.source.data, w.targetPast[step.targetSnapshot]));
    }
    if PrunesQueued(w, step) {
      assert w.source.data.oldestUnpruned !in Apply(limits, w, step).source.messages;
    }
  }

  ghost predicate AlwaysStoresQueue(limits: Limits, steps: seq<Step>) {
    && StoresQueue(Run(limits, steps).source)
    && (steps != [] ==> AlwaysStoresQueue(limits, steps[..|steps| - 1]))
  }

  ghost predicate NeverPrunesQueued(limits: Limits, steps: seq<Step>) {
    steps == [] ||
    var before := steps[..|steps| - 1];
    NeverPrunesQueued(limits, before) && !PrunesQueued(Run(limits, before), steps[|steps| - 1])
  }

  /** Over every run the stored nonces are always exactly the generated ones that are not yet received, so
      that nothing is pruned before it is dispatched, if and only if no explicit pruning takes one of
      them. */
  lemma {:induction false} StoresExactlyTheQueue(limits: Limits, steps: seq<Step>)
    ensures AlwaysStoresQueue(limits, steps) <==> NeverPrunesQueued(limits, steps)
  {
    if steps != [] {
      var before := steps[..|steps| - 1];
      StoresExactlyTheQueue(limits, before);
      InvHolds(limits, before);
      assert AlwaysStoresQueue(limits, before) ==> StoresQueue(Run(limits, before).source);
      if StoresQueue(Run(limits, before).source) {
        StepKeepsQueue(limits, Run(limits, before), steps[|steps| - 1]);
      }
    }
  }

  // ---------- Nothing below the oldest unpruned nonce

  /** Nothing is stored below the oldest unpruned nonce. */
  ghost predicate NothingBelow(source: Outbound) {
    forall n :: n in source.messages ==> source.data.oldestUnpruned <= n
  }

  /** Nothing that is received is still stored. */
  ghost predicate NothingReceived(source: Outbound) {
    forall n :: n in source.messages ==> source.data.latestReceived < n
  }

  /** The step sends a message under a nonce that counts as pruned already. */
  predicate SendsBelow(w: World, step: Step) {
    && step.Send? && CanSend(w, step.admitted)
    && w.source.data.latestGenerated + 1 < w.source.data.oldestUnpruned
  }

  lemma ConfirmationKeepsBelow(source: Outbound, found: Result<Option<DeliveredMessages>, ReceptionConfirmationError>)
    requires FollowsReceived(source.data, found) && NothingReceived(source)
    ensures NothingReceived(AfterConfirmation(source, found))
    ensures NothingBelow(source) ==> NothingBelow(AfterConfirmation(source, found))
  {
  }

  lemma StepKeepsBelow(limits: Limits, w: World, step: Step)
    requires Inv(limits, w) && NothingReceived(w.source)
    ensures NothingReceived(Apply(limits, w, step).source)
    ensures NothingBelow(w.source) ==> (NothingBelow(Apply(limits, w, step).source) <==> !SendsBelow(w, step))
  {
    SourceStep(limits, w, step);
    if step.Confirm? && step.targetSnapshot < |w.targetPast| {
      ConfirmStepFollows(limits, w, step.targetSnapshot);
      ConfirmationKeepsBelow(w.source, ConfirmationOf(w.source.data, w.targetPast[step.targetSnapshot]));
    }
    if SendsBelow(w, step) {
      assert w.source.data.latestGenerated + 1 in Apply(limits, w, step).source.messages;
    }
  }

  lemma {:induction false} NothingReceivedIsStored(limits: Limits, steps: seq<Step>)
    ensures NothingReceived(Run(limits, steps).source)
  {
    if steps != [] {
      var before := steps[..|steps| - 1];
      NothingReceivedIsStored(limits, before);
      InvHolds(limits, before);
      StepKeepsBelow(limits, Run(limits, before), steps[|steps| - 1]);
    }
  }

  ghost predicate AlwaysNothingBelow(limits: Limits, steps: seq<Step>) {
    && NothingBelow(Run(limits, steps).source)
    && (steps != [] ==> AlwaysNothingBelow(limits, steps[..|steps| - 1]))
  }

  ghost predicate NeverSendsBelow(limits: Limits, steps: seq<Step>) {
    steps == [] ||
    var before := steps[..|steps| - 1];
    NeverSendsBelow(limits, before) && !SendsBelow(Run(limits, before), steps[|steps| - 1])
  }

  /** Over every run nothing is ever stored below the oldest unpruned nonce, if and only if no message is
      sent while that nonce is beyond the next one. */
  lemma {:induction false} NothingBelowExactly(limits: Limits, steps: seq<Step>)
    ensures AlwaysNothingBelow(limits, steps) <==> NeverSendsBelow(limits, steps)
  {
    if steps != [] {
      var before := steps[..|steps| - 1];
      NothingBelowExactly(limits, before);
      InvHolds(limits, before);
      NothingReceivedIsStored(limits, before);
      assert AlwaysNothingBelow(limits, before) ==> NothingBelow(Run(limits, before).source);
      StepKeepsBelow(limits, Run(limits, before), steps[|steps| - 1]);
    }
  }

  /** Every pruning of the run finds a message in the queue `oldestUnpruned..=latestGenerated`. */
  ghost predicate PrunesOnlyQueued(limits: Limits, steps: seq<Step>) {
    steps == [] ||
    var before := steps[..|steps| - 1];
    && PrunesOnlyQueued(limits, before)
    && (steps[|steps| - 1].PruneOldest? && steps[|steps| - 1].admitted ==>
          Run(limits, before).source.data.oldestUnpruned <= Run(limits, before).source.data.latestGenerated)
  }

  lemma StepKeepsOldestInReach(limits: Limits, w: World, step: Step)
    requires Inv(limits, w) && w.source.data.oldestUnpruned <= w.source.data.latestGenerated + 1
    requires step.PruneOldest? && step.admitted ==> w.source.data.oldestUnpruned <= w.source.data.latestGenerated
    ensures
      var data := Apply(limits, w, step).source.data;
      data.oldestUnpruned <= data.latestGenerated + 1
  {
    SourceStep(limits, w, step);
    if step.Confirm? && step.targetSnapshot < |w.targetPast| {
      ConfirmStepFollows(limits, w, step.targetSnapshot);
    }
  }

  /** Pruning queued messages only is enough: then the oldest unpruned nonce never leaves the queue behind. */
  lemma {:induction false} PruningQueuedIsSafe(limits: Limits, steps: seq<Step>)
    requires PrunesOnlyQueued(limits, steps)
    ensures NeverSendsBelow(limits, steps)
    ensures
      var data := Run(limits, steps).source.data;
      data.oldestUnpruned <= data.latestGenerated + 1
  {
    if steps != [] {
      var before := steps[..|steps| - 1];
      PruningQueuedIsSafe(limits, before);
      InvHolds(limits, before);
      StepKeepsOldestInReach(limits, Run(limits, before), steps[|steps| - 1]);
    }
  }

  /** Then nothing is ever stored below it. */
  lemma NothingStoredBelowOldest(limits: Limits, steps: seq<Step>)
    requires PrunesOnlyQueued(limits, steps)
    ensures NothingBelow(Run(limits, steps).source)
  {
    PruningQueuedIsSafe(limits, steps);
    NothingBelowExactly(limits, steps);
    assert AlwaysNothingBelow(limits, steps);
  }

  // ---------- Everything from the oldest unpruned nonce on

  /** The stored nonces are exactly those from the oldest unpruned to the latest generated one, and none of
      them is received. */
  ghost predicate StoresFromOldest(source: Outbound) {
    && source.data.latestReceived < source.data.oldestUnpruned
    && forall n: Nonce :: n in source.messages <==> source.data.oldestUnpruned <= n <= source.data.latestGenerated
  }

  /** The step sends a message below the oldest unpruned nonce, prunes the largest nonce, or confirms the
      largest nonce or less than what is pruned already. */
  ghost predicate MisplacesOldest(w: World, step: Step) {
    var data := w.source.data;
    match step
    case Send(_, _) => SendsBelow(w, step)
    case PruneOldest(admitted) => admitted && data.oldestUnpruned == MAX_NONCE
    case Confirm(snapshot, relayersState, admitted) =>
      && CanConfirm(w, snapshot, relayersState, admitted)
      && var end := w.targetPast[snapshot].LastDelivered();
         && data.latestReceived < end
         && (end == MAX_NONCE || (end + 1 < data.oldestUnpruned && end < data.latestGenerated))
    case _ => false
  }

  lemma ConfirmationKeepsOldest(source: Outbound, end: Nonce)
    requires StoresFromOldest(source) && source.data.latestReceived < end <= source.data.latestGenerated
    ensures
      var range := DeliveredMessages(source.data.latestReceived + 1, end);
      StoresFromOldest(AfterConfirmation(source, Ok(Some(range)))) <==>
      !(end == MAX_NONCE || (end + 1 < source.data.oldestUnpruned && end < source.data.latestGenerated))
  {
    var range := DeliveredMessages(source.data.latestReceived + 1, end);
    var after := AfterConfirmation(source, Ok(Some(range)));
    if end < MAX_NONCE && end < source.data.latestGenerated {
      assert end + 1 in after.messages <==> source.data.oldestUnpruned <= end + 1;
    }
  }

  lemma SendKeepsOldest(source: Outbound, payload: Payload)
    requires StoresFromOldest(source) && source.data.latestGenerated < MAX_NONCE
    ensures StoresFromOldest(AfterSend(source, payload)) <==>
            source.data.oldestUnpruned <= source.data.latestGenerated + 1
  {
    assert source.data.latestGenerated + 1 in AfterSend(source, payload).messages;
  }

  lemma PruningKeepsOldest(source: Outbound)
    requires StoresFromOldest(source)
    ensures StoresFromOldest(AfterPruneOldest(source)) <==> source.data.oldestUnpruned < MAX_NONCE
  {
  }

  lemma ConfirmStepKeepsOldest(limits: Limits, w: World, snapshot: nat)
    requires Inv(limits, w) && StoresFromOldest(w.source) && snapshot < |w.targetPast|
    ensures
      var data, end := w.source.data, w.targetPast[snapshot].LastDelivered();
      StoresFromOldest(AfterConfirmation(w.source, ConfirmationOf(data, w.targetPast[snapshot]))) <==>
      !(data.latestReceived < end &&
        (end == MAX_NONCE || (end + 1 < data.oldestUnpruned && end < data.latestGenerated)))
  {
    GenuineConfirmation(limits, w, snapshot);
    ConfirmStepFollows(limits, w, snapshot);
    var end := w.targetPast[snapshot].LastDelivered();
    if w.source.data.latestReceived < end {
      ConfirmationKeepsOldest(w.source, end);
    }
  }

  lemma StepKeepsOldest(limits: Limits, w: World, step: Step)
    requires Inv(limits, w) && StoresFromOldest(w.source)
    ensures StoresFromOldest(Apply(limits, w, step).source) <==> !MisplacesOldest(w, step)
  {
    SourceStep(limits, w, step);
    match step
    case Send(payload, admitted) =>
      if CanSend(w, admitted) {
        SendKeepsOldest(w.source, payload);
      }
    case Confirm(snapshot, relayersState, admitted) =>
      if CanConfirm(w, snapshot, relayersState, admitted) {
        ConfirmStepKeepsOldest(limits, w, snapshot);
      }
    case PruneOldest(admitted) =>
      PruningKeepsOldest(w.source);
    case _ =>
  }

  ghost predicate AlwaysStoresFromOldest(limits: Limits, steps: seq<Step>) {
    && StoresFromOldest(Run(limits, steps).source)
    && (steps != [] ==> AlwaysStoresFromOldest(limits, steps[..|steps| - 1]))
  }

  ghost predicate NeverMisplacesOldest(limits: Limits, steps: seq<Step>) {
    steps == [] ||
    var before := steps[..|steps| - 1];
    NeverMisplacesOldest(limits, before) && !MisplacesOldest(Run(limits, before), steps[|steps| - 1])
  }

  /** Over every run the stored nonces are always exactly those from the oldest unpruned to the latest generated
      one, if and only if no step misplaces the oldest unpruned nonce. */
  lemma {:induction false} OldestIsExact(limits: Limits, steps: seq<Step>)
    ensures AlwaysStoresFromOldest(limits, steps) <==> NeverMisplacesOldest(limits, steps)
  {
    if steps != [] {
      var before := steps[..|steps| - 1];
      OldestIsExact(limits, before);
      InvHolds(limits, before);
      assert AlwaysStoresFromOldest(limits, before) ==> StoresFromOldest(Run(limits, before).source);
      if StoresFromOldest(Run(limits, before).source) {
        StepKeepsOldest(limits, Run(limits, before), steps[|steps| - 1]);
      }
    }
  }

  /** The source has sent two messages and pruned both; the target has delivered the first one. */
  ghost predicate PrunedAhead(w: World) {
    && w.source.data.latestReceived == 0 && w.source.data.latestGenerated == 2 && w.source.data.oldestUnpruned == 3
    && w.source.messages == map[] && w.target.LastDelivered() == 1
  }

  lemma PruneBoth(limits: Limits, steps: seq<Step>)
    requires
      var w := Run(limits, steps);
      && w.source.data.latestReceived == 0 && w.source.data.latestGenerated == 2 && w.source.data.oldestUnpruned == 1
      && w.source.messages.Keys <= {1, 2} && w.target.LastDelivered() == 1
    ensures PrunedAhead(Run(limits, steps + [PruneOldest(true)] + [PruneOldest(true)]))
  {
    RunStep(limits, steps, PruneOldest(true));
    RunStep(limits, steps + [PruneOldest(true)], PruneOldest(true));
  }

  lemma ConfirmsLess(limits: Limits, w: World)
    requires Inv(limits, w) && PrunedAhead(w)
    ensures
      var source := Apply(limits, w, ConfirmNow(w)).source;
      source.data.oldestUnpruned == 2 == source.data.latestGenerated && source.messages == map[]
  {
    ConfirmNowStep(limits, w);
    GenuineConfirmation(limits, w, |w.targetPast| - 1);
  }

  /** Sends two messages and delivers the first one. */
  lemma SendTwoDeliverOne(limits: Limits, first: Payload, second: Payload, relayer: AccountId)
    returns (steps: seq<Step>)
    requires 0 < limits.maxUnrewardedRelayers && 0 < limits.maxUnconfirmedMessages
    ensures
      var w := Run(limits, steps);
      && w.source.data.latestReceived == 0 && w.source.data.latestGenerated == 2 && w.source.data.oldestUnpruned == 1
      && w.source.messages.Keys <= {1, 2} && w.target.LastDelivered() == 1
  {
    var one, two := Send(first, true), Send(second, true);
    RunStep(limits, [], one);
    RunStep(limits, [] + [one], two);
    var sent := [] + [one] + [two];
    InvHolds(limits, sent);
    var w := Run(limits, sent);
    var last := |w.sourcePast| - 1;
    assert w.source.messages == map[1 := first, 2 := second];
    DeliverOneArrives(limits, w, last, 0, first, relayer);
    RunStep(limits, sent, DeliverOne(last, 1, first, relayer));
    steps := sent + [DeliverOne(last, 1, first, relayer)];
  }

  /** A run in which a confirmation moves the oldest unpruned nonce back to a message that is gone. */
  lemma OldestMovesBack(limits: Limits, first: Payload, second: Payload, relayer: AccountId)
    returns (steps: seq<Step>)
    requires 0 < limits.maxUnrewardedRelayers && 0 < limits.maxUnconfirmedMessages
    ensures
      var source := Run(limits, steps).source;
      && source.data.oldestUnpruned == 2 == source.data.latestGenerated && source.messages == map[]
      && !AlwaysStoresFromOldest(limits, steps)
  {
    var before := SendTwoDeliverOne(limits, first, second, relayer);
    PruneBoth(limits, before);
    var pruned := before + [PruneOldest(true)] + [PruneOldest(true)];
    InvHolds(limits, pruned);
    ConfirmsLess(limits, Run(limits, pruned));
    RunStep(limits, pruned, ConfirmNow(Run(limits, pruned)));
    steps := pruned + [ConfirmNow(Run(limits, pruned))];
    assert !StoresFromOldest(Run(limits, steps).source);
  }

  // ---------- The storage check

  /** The sampling of the storage check finds nothing on a pallet that holds such a lane. */
  lemma SamplingFindsNothing(limits: Limits, steps: seq<Step>, messages: map<MessageKey, Payload>, laneId: LaneId)
    requires AlwaysNothingBelow(limits, steps)
    requires QueueOf(messages, laneId) == Run(limits, steps).source.messages
    ensures MessagesPallet.SampleIsPruned(messages, laneId, Run(limits, steps).source.data.oldestUnpruned)
  {
    var source := Run(limits, steps).source;
    forall n: Nonce | n < source.data.oldestUnpruned
      ensures MessageKey(laneId, n) !in messages
    {
      assert n !in QueueOf(messages, laneId);
    }
  }

  /** After one more pruning, the next sent message is stored at or above the oldest unpruned nonce if and
      only if the queue was not empty, or that nonce wraps around to zero. */
  lemma PruningNeedsAQueue(source: Outbound, payload: Payload)
    requires NothingBelow(source)
    requires source.data.oldestUnpruned <= source.data.latestGenerated + 1 <= MAX_NONCE
    ensures NothingBelow(AfterSend(AfterPruneOldest(source), payload)) <==>
            source.data.oldestUnpruned <= source.data.latestGenerated || source.data.oldestUnpruned == MAX_NONCE
  {
    assert source.data.latestGenerated + 1 in AfterSend(AfterPruneOldest(source), payload).messages;
  }

  /** Pruning a lane that has never sent anything leaves its first message stored below the oldest
      unpruned nonce. */
  lemma PruningAnEmptyQueue(limits: Limits, payload: Payload)
    ensures
      var steps := [PruneOldest(true)] + [Send(payload, true)];
      var source := Run(limits, steps).source;
      1 in source.messages && 1 < source.data.oldestUnpruned && !AlwaysNothingBelow(limits, steps)
  {
    RunStep(limits, [], PruneOldest(true));
    RunStep(limits, [PruneOldest(true)], Send(payload, true));
    assert [] + [PruneOldest(true)] == [PruneOldest(true)];
    assert !NothingBelow(Run(limits, [PruneOldest(true)] + [Send(payload, true)]).source);
  }
}
