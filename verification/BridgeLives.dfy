/** A lane whose nonces start again: because it is closed and opened again under its old id, while proofs
    of its earlier lives remain genuine, or because its nonces are used up and wrap around. Exactly-once
    delivery holds if and only if every delivery takes messages that were sent under these nonces in
    the same life. */
module BridgeLives {
  import opened LaneTypes
  import opened InboundLanes
  import opened OutboundLanes
  import opened MessageProofs
  import opened Bridge

  /** One world per life of the lane, and the lives that the two ends are in. */
  datatype Lane = Lane(lives: seq<World>, source: nat, target: nat)

  /** A step of one end within its life, a delivery or a confirmation with a proof from any life of
      the other end, and closing and reopening an end. */
  datatype LifeStep =
    | OnSource(step: Step)
    | OnTarget(state: LaneState)
    | DeliverFrom(life: nat, delivery: Step)
    | ConfirmFrom(life: nat, confirmation: Step)
    | ReopenSource
    | ReopenTarget

  ghost predicate Ready(lane: Lane) {
    lane.source < |lane.lives| && lane.target < |lane.lives|
  }

  function FirstLife(): Lane {
    Lane([Genesis()], 0, 0)
  }

  /** The limits of the lane, and whether the build of the source chain checks for overflow. */
  datatype Setup = Setup(limits: Limits, overflowChecks: bool)

  /** The source end may send, change its state, and prune what is queued. */
  predicate OwnStep(w: World, step: Step) {
    || step.Send? || step.SetSourceState?
    || (step.PruneOldest? && (step.admitted ==> w.source.data.oldestUnpruned <= w.source.data.latestGenerated))
  }

  /** The step sends a message when all nonces are used up, in a build without overflow checks. */
  predicate Wraps(setup: Setup, w: World, step: Step) {
    && step.Send? && step.admitted && !setup.overflowChecks
    && w.source.data.state.Opened? && w.source.data.latestGenerated == MAX_NONCE
  }

  /** A step of the source end; a message that wraps around is stored under nonce zero. */
  ghost function AfterOwnStep(setup: Setup, w: World, step: Step): World {
    if Wraps(setup, w, step)
    then MoveSource(w, AfterSendAs(w.source, 0, step.payload)).(sent := w.sent + [step.payload])
    else Bridge.Apply(setup.limits, w, step)
  }

  function WithLife(lane: Lane, life: nat, w: World): Lane
    requires life < |lane.lives|
  {
    lane.(lives := lane.lives[life := w])
  }

  /** The world of the target end, with the source states that a proof may come from. */
  function Seen(lane: Lane, life: nat): World
    requires Ready(lane) && life < |lane.lives|
  {
    lane.lives[lane.target].(sourcePast := lane.lives[life].sourcePast)
  }

  /** The lane with a world for the life, where it has none yet. */
  function Grown(lane: Lane, life: nat): (r: Lane)
    requires life <= |lane.lives|
    ensures life < |r.lives| && r.source == lane.source && r.target == lane.target
  {
    if life == |lane.lives| then lane.(lives := lane.lives + [Genesis()]) else lane
  }

  /** The counters of the outbound lane start again; messages that are still stored remain. */
  function AfterReopenSource(lane: Lane): Lane
    requires Ready(lane)
  {
    var next := lane.source + 1;
    var grown, reopened := Grown(lane, next), Outbound(OpenedOutboundLane(), lane.lives[lane.source].source.messages);
    WithLife(grown, next, grown.lives[next].(source := reopened, sourcePast := [reopened])).(source := next)
  }

  function AfterReopenTarget(lane: Lane): Lane
    requires Ready(lane)
  {
    var next, reopened := lane.target + 1, OpenedInboundLane();
    var grown := Grown(lane, next);
    WithLife(grown, next, grown.lives[next].(target := reopened, targetPast := [reopened])).(target := next)
  }

  ghost predicate CanDeliverFrom(setup: Setup, lane: Lane, life: nat, own: Step)
    requires Ready(lane)
  {
    && life < |lane.lives| && own.Deliver?
    && CanDeliver(setup.limits, Seen(lane, life), own.sourceSnapshot, own.proof, own.messagesCount, own.admitted)
  }

  predicate CanConfirmFrom(lane: Lane, life: nat, own: Step) {
    && life < |lane.lives| && own.Confirm? && own.admitted
    && own.targetSnapshot < |lane.lives[life].targetPast|
    && own.relayersState == Summary(lane.lives[life].targetPast[own.targetSnapshot])
  }

  ghost function Apply(setup: Setup, lane: Lane, step: LifeStep): (r: Lane)
    requires Ready(lane)
    ensures Ready(r)
  {
    match step
    case OnSource(own) =>
      if OwnStep(lane.lives[lane.source], own)
      then WithLife(lane, lane.source, AfterOwnStep(setup, lane.lives[lane.source], own))
      else lane
    case OnTarget(state) =>
      WithLife(lane, lane.target, Bridge.Apply(setup.limits, lane.lives[lane.target], SetTargetState(state)))
    case DeliverFrom(life, own) =>
      if CanDeliverFrom(setup, lane, life, own)
      then WithLife(lane, lane.target, AfterDelivery(setup.limits, lane.lives[lane.target], own.proof, own.relayer))
      else lane
    case ConfirmFrom(life, own) =>
      if CanConfirmFrom(lane, life, own)
      then
        var proved := lane.lives[life].targetPast[own.targetSnapshot];
        WithLife(lane, lane.source, AfterConfirm(lane.lives[lane.source], proved))
      else lane
    case ReopenSource =>
      var data := lane.lives[lane.source].source.data;
      if data.oldestUnpruned <= data.latestGenerated then lane else AfterReopenSource(lane)
    case ReopenTarget => AfterReopenTarget(lane)
  }

  ghost function RunLives(setup: Setup, steps: seq<LifeStep>): (lane: Lane)
    ensures Ready(lane)
  {
    if steps == [] then FirstLife() else Apply(setup, RunLives(setup, steps[..|steps| - 1]), steps[|steps| - 1])
  }

  // ---------- When delivery is exactly once and in order

  /** The dispatched messages are the first sent ones, each once, in order and under its own nonce. */
  ghost predicate InOrderOnce(w: World) {
    && |w.dispatched| <= |w.sent|
    && forall i :: 0 <= i < |w.dispatched| ==> w.dispatched[i].nonce == i + 1 && w.dispatched[i].payload == w.sent[i]
  }

  /** How far a delivery of the proof moves the lane. */
  ghost function Reached(limits: Limits, lane: InboundLaneData, proof: MessagesProof, relayer: AccountId): int {
    BatchTarget(limits, AfterLaneState(lane, proof.laneState), relayer, proof.noncesStart, proof.noncesEnd)
  }

  /** The message that the proof has under the nonce was sent under it in this life. */
  ghost predicate Sent(w: World, proof: MessagesProof, nonce: nat) {
    nonce in proof.messages && 0 < nonce <= |w.sent| && w.sent[nonce - 1] == proof.messages[nonce]
  }

  /** Every message that the lane takes of the proof was sent under its nonce in this life. */
  ghost predicate Fits(limits: Limits, w: World, proof: MessagesProof, relayer: AccountId) {
    forall n: nat :: w.target.LastDelivered() < n <= Reached(limits, w.target, proof, relayer) ==> Sent(w, proof, n)
  }

  /** The lane takes the messages of the proof up to where the closed form says, one by one. */
  lemma TakesUpToReached(limits: Limits, w: World, proof: MessagesProof, relayer: AccountId)
    requires WellFormed(limits, w.target) && Complete(proof)
    ensures
      var (target, accepted) := AfterProof(limits, w.target, proof, relayer);
      var delivered := w.target.LastDelivered();
      && WellFormed(limits, target)
      && target.LastDelivered() == Reached(limits, w.target, proof, relayer) == delivered + |accepted|
      && forall i :: 0 <= i < |accepted| ==>
           && accepted[i].nonce == delivered + 1 + i && accepted[i].nonce in proof.messages
           && accepted[i].payload == proof.messages[accepted[i].nonce]
  {
    var updated := AfterLaneState(w.target, proof.laneState);
    if proof.laneState.Some? {
      StateUpdateKeepsPartition(limits, w.target, proof.laneState.value.latestReceived);
    }
    BatchKeepsPartition(limits, updated, relayer, Bundled(proof));
    BatchClosedForm(limits, updated, relayer, Bundled(proof), proof.noncesStart, proof.noncesEnd);
    ReadFromProof(proof, AfterProof(limits, w.target, proof, relayer).1);
  }

  lemma ReadFromProof(proof: MessagesProof, accepted: seq<Message>)
    requires Complete(proof) && forall i :: 0 <= i < |accepted| ==> accepted[i] in Bundled(proof)
    ensures forall i :: 0 <= i < |accepted| ==>
              accepted[i].nonce in proof.messages && accepted[i].payload == proof.messages[accepted[i].nonce]
  {
    forall i | 0 <= i < |accepted|
      ensures accepted[i].nonce in proof.messages && accepted[i].payload == proof.messages[accepted[i].nonce]
    {
      var k :| 0 <= k < |Bundled(proof)| && Bundled(proof)[k] == accepted[i];
    }
  }

  lemma AppendedInOrder(w: World, accepted: seq<Message>, proof: MessagesProof)
    requires InOrderOnce(w) && |w.dispatched| == w.target.LastDelivered()
    requires forall i :: 0 <= i < |accepted| ==>
               && accepted[i].nonce == |w.dispatched| + 1 + i && accepted[i].nonce in proof.messages
               && accepted[i].payload == proof.messages[accepted[i].nonce]
    ensures InOrderOnce(w.(dispatched := w.dispatched + accepted)) <==>
            forall n: nat :: |w.dispatched| < n <= |w.dispatched| + |accepted| ==> Sent(w, proof, n)
  {
    var after, n0 := w.dispatched + accepted, |w.dispatched|;
    if forall n: nat :: n0 < n <= n0 + |accepted| ==> Sent(w, proof, n) {
      assert accepted != [] ==> Sent(w, proof, n0 + |accepted|);
      forall i | 0 <= i < |after|
        ensures i < |w.sent| && after[i].nonce == i + 1 && after[i].payload == w.sent[i]
      {
        if n0 <= i {
          assert after[i] == accepted[i - n0] && Sent(w, proof, i + 1);
        }
      }
    }
    if InOrderOnce(w.(dispatched := after)) {
      forall n: nat | n0 < n <= n0 + |accepted|
        ensures Sent(w, proof, n)
      {
        assert after[n - 1] == accepted[n - 1 - n0];
      }
    }
  }

  /** A delivery, of whatever proof, keeps exactly-once delivery if and only if the proof fits. */
  lemma DeliveryKeepsOrder(limits: Limits, w: World, proof: MessagesProof, relayer: AccountId)
    requires WellFormed(limits, w.target) && |w.dispatched| == w.target.LastDelivered() && InOrderOnce(w)
    requires Complete(proof)
    ensures InOrderOnce(AfterDelivery(limits, w, proof, relayer)) <==> Fits(limits, w, proof, relayer)
  {
    TakesUpToReached(limits, w, proof, relayer);
    AppendedInOrder(w, AfterProof(limits, w.target, proof, relayer).1, proof);
  }

  /** What holds of the target end in every life, whatever it takes. */
  ghost predicate Counts(limits: Limits, w: World) {
    WellFormed(limits, w.target) && |w.dispatched| == w.target.LastDelivered()
  }

  ghost predicate AllCount(setup: Setup, lane: Lane) {
    && Ready(lane)
    && (forall e :: 0 <= e < |lane.lives| ==> Counts(setup.limits, lane.lives[e]))
    && (forall e :: lane.target < e < |lane.lives| ==> lane.lives[e].dispatched == [])
  }

  ghost predicate AllInOrder(lane: Lane) {
    forall e :: 0 <= e < |lane.lives| ==> InOrderOnce(lane.lives[e])
  }

  /** If the step is a delivery that is made, its proof fits the life of the target end. */
  ghost predicate FittingStep(setup: Setup, lane: Lane, step: LifeStep)
    requires Ready(lane)
  {
    step.DeliverFrom? && CanDeliverFrom(setup, lane, step.life, step.delivery) ==>
      Fits(setup.limits, lane.lives[lane.target], step.delivery.proof, step.delivery.relayer)
  }

  /** Steps of the source end leave the target end alone, and only add to what was sent. */
  lemma SourceMovesKeepOrder(setup: Setup, w: World, w': World)
    requires Counts(setup.limits, w) && w'.target == w.target && w'.dispatched == w.dispatched && w.sent <= w'.sent
    ensures Counts(setup.limits, w')
    ensures InOrderOnce(w) ==> InOrderOnce(w')
  {
  }

  lemma OwnStepAdds(setup: Setup, w: World, own: Step)
    requires OwnStep(w, own)
    ensures
      var w' := AfterOwnStep(setup, w, own);
      w'.target == w.target && w'.dispatched == w.dispatched && w.sent <= w'.sent
  {
  }

  /** What becomes of one life decides whether all of them are still in order. */
  lemma LifeReplaced(setup: Setup, lane: Lane, life: nat, w: World)
    requires AllCount(setup, lane) && life < |lane.lives| && Counts(setup.limits, w)
    requires lane.target < life ==> w.dispatched == []
    ensures AllCount(setup, WithLife(lane, life, w))
    ensures AllInOrder(lane) ==> (AllInOrder(WithLife(lane, life, w)) <==> InOrderOnce(w))
  {
    var after := WithLife(lane, life, w);
    assert after.lives[life] == w;
    assert forall e :: 0 <= e < |lane.lives| && e != life ==> after.lives[e] == lane.lives[e];
  }

  lemma DeliveryStep(setup: Setup, lane: Lane, life: nat, own: Step)
    requires AllCount(setup, lane) && CanDeliverFrom(setup, lane, life, own)
    ensures AllCount(setup, Apply(setup, lane, DeliverFrom(life, own)))
    ensures AllInOrder(lane) ==>
              (AllInOrder(Apply(setup, lane, DeliverFrom(life, own))) <==>
               Fits(setup.limits, lane.lives[lane.target], own.proof, own.relayer))
  {
    var w := lane.lives[lane.target];
    TakesUpToReached(setup.limits, w, own.proof, own.relayer);
    LifeReplaced(setup, lane, lane.target, AfterDelivery(setup.limits, w, own.proof, own.relayer));
    if InOrderOnce(w) {
      DeliveryKeepsOrder(setup.limits, w, own.proof, own.relayer);
    }
  }

  lemma SourceStep(setup: Setup, lane: Lane, w: World)
    requires AllCount(setup, lane)
    requires
      var source := lane.lives[lane.source];
      w.target == source.target && w.dispatched == source.dispatched && source.sent <= w.sent
    ensures AllCount(setup, WithLife(lane, lane.source, w))
    ensures AllInOrder(lane) ==> AllInOrder(WithLife(lane, lane.source, w))
  {
    SourceMovesKeepOrder(setup, lane.lives[lane.source], w);
    LifeReplaced(setup, lane, lane.source, w);
  }

  lemma GrownKeepsOrder(setup: Setup, lane: Lane, life: nat)
    requires AllCount(setup, lane) && life <= |lane.lives|
    ensures AllCount(setup, Grown(lane, life))
    ensures AllInOrder(lane) ==> AllInOrder(Grown(lane, life))
  {
  }

  lemma ReopenedSourceKeepsOrder(setup: Setup, lane: Lane)
    requires AllCount(setup, lane)
    ensures AllCount(setup, AfterReopenSource(lane))
    ensures AllInOrder(lane) ==> AllInOrder(AfterReopenSource(lane))
  {
    var next := lane.source + 1;
    var grown := Grown(lane, next);
    GrownKeepsOrder(setup, lane, next);
    LifeReplaced(setup, grown, next, AfterReopenSource(lane).lives[next]);
  }

  lemma ReopenedTargetKeepsOrder(setup: Setup, lane: Lane)
    requires AllCount(setup, lane)
    ensures AllCount(setup, AfterReopenTarget(lane))
    ensures AllInOrder(lane) ==> AllInOrder(AfterReopenTarget(lane))
  {
    var next := lane.target + 1;
    var grown := Grown(lane, next);
    GrownKeepsOrder(setup, lane, next);
    LifeReplaced(setup, grown, next, AfterReopenTarget(lane).lives[next]);
  }

  /** One step keeps the counts, and keeps every life in order if and only if it fits. */
  lemma LifeStepKeepsOrder(setup: Setup, lane: Lane, step: LifeStep)
    requires AllCount(setup, lane)
    ensures AllCount(setup, Apply(setup, lane, step))
    ensures AllInOrder(lane) ==> (AllInOrder(Apply(setup, lane, step)) <==> FittingStep(setup, lane, step))
  {
    var source := lane.lives[lane.source];
    match step
    case OnSource(own) =>
      if OwnStep(source, own) {
        OwnStepAdds(setup, source, own);
        SourceStep(setup, lane, AfterOwnStep(setup, source, own));
      }
    case OnTarget(state) =>
      var w := lane.lives[lane.target];
      LifeReplaced(setup, lane, lane.target, Bridge.Apply(setup.limits, w, SetTargetState(state)));
    case DeliverFrom(life, own) =>
      if CanDeliverFrom(setup, lane, life, own) {
        DeliveryStep(setup, lane, life, own);
      }
    case ConfirmFrom(life, own) =>
      if CanConfirmFrom(lane, life, own) {
        SourceStep(setup, lane, AfterConfirm(source, lane.lives[life].targetPast[own.targetSnapshot]));
      }
    case ReopenSource =>
      ReopenedSourceKeepsOrder(setup, lane);
    case ReopenTarget =>
      ReopenedTargetKeepsOrder(setup, lane);
  }

  lemma {:induction false} CountsHold(setup: Setup, steps: seq<LifeStep>)
    ensures AllCount(setup, RunLives(setup, steps))
  {
    if steps != [] {
      var before := steps[..|steps| - 1];
      CountsHold(setup, before);
      LifeStepKeepsOrder(setup, RunLives(setup, before), steps[|steps| - 1]);
    }
  }

  /** Every life is in order, now and after every beginning of the run. */
  ghost predicate AlwaysInOrder(setup: Setup, steps: seq<LifeStep>) {
    && AllInOrder(RunLives(setup, steps))
    && (steps != [] ==> AlwaysInOrder(setup, steps[..|steps| - 1]))
  }

  ghost predicate OnlyFittingProofs(setup: Setup, steps: seq<LifeStep>) {
    steps == [] ||
    var before := steps[..|steps| - 1];
    OnlyFittingProofs(setup, before) && FittingStep(setup, RunLives(setup, before), steps[|steps| - 1])
  }

  /** However the ends are closed and reopened, whether or not nonces wrap around, and with proofs and
      confirmations from any life: delivery is always exactly once and in order in every life, if and
      only if every delivery that is made takes messages that were sent under their nonces in that
      life. */
  lemma {:induction false} ExactlyOnceIffProofsFit(setup: Setup, steps: seq<LifeStep>)
    ensures AlwaysInOrder(setup, steps) <==> OnlyFittingProofs(setup, steps)
  {
    if steps != [] {
      var before := steps[..|steps| - 1];
      ExactlyOnceIffProofsFit(setup, before);
      CountsHold(setup, before);
      LifeStepKeepsOrder(setup, RunLives(setup, before), steps[|steps| - 1]);
      assert AlwaysInOrder(setup, before) ==> AllInOrder(RunLives(setup, before));
    }
  }

  // ---------- What is received was generated

  ghost predicate ReceivedWasGenerated(w: World) {
    w.source.data.latestReceived <= w.source.data.latestGenerated
  }

  ghost predicate AllReceivedWereGenerated(lane: Lane) {
    forall e :: 0 <= e < |lane.lives| ==> ReceivedWasGenerated(lane.lives[e])
  }

  /** The step wraps the generated nonce around after messages have been received. */
  ghost predicate ForgetsReceived(setup: Setup, lane: Lane, step: LifeStep)
    requires Ready(lane)
  {
    var w := lane.lives[lane.source];
    step.OnSource? && Wraps(setup, w, step.step) && 0 < w.source.data.latestReceived
  }

  lemma OwnStepReceives(setup: Setup, w: World, own: Step)
    requires OwnStep(w, own) && ReceivedWasGenerated(w)
    ensures ReceivedWasGenerated(AfterOwnStep(setup, w, own)) <==>
            !(Wraps(setup, w, own) && 0 < w.source.data.latestReceived)
  {
  }

  /** Whatever is proved, a confirmation never goes beyond what is generated. */
  lemma ConfirmationReceives(w: World, proved: InboundLaneData)
    requires ReceivedWasGenerated(w)
    ensures ReceivedWasGenerated(AfterConfirm(w, proved))
  {
    var data := w.source.data;
    var found := ConfirmationOf(data, proved);
    var any := FailedToConfirmFutureMessages;
    if data.latestReceived < MAX_NONCE {
      ConfirmationExactly(data, proved.TotalUnrewardedMessages(), proved.LastDelivered(), proved.relayers, any);
    } else {
      ConfirmationAtTheEnd(data, proved.TotalUnrewardedMessages(), proved.LastDelivered(), proved.relayers, any);
    }
  }

  lemma LifeStepReceives(setup: Setup, lane: Lane, step: LifeStep)
    requires Ready(lane) && AllReceivedWereGenerated(lane)
    ensures AllReceivedWereGenerated(Apply(setup, lane, step)) <==> !ForgetsReceived(setup, lane, step)
  {
    var source, after := lane.lives[lane.source], Apply(setup, lane, step);
    assert ReceivedWasGenerated(source);
    match step
    case OnSource(own) =>
      if OwnStep(source, own) {
        OwnStepReceives(setup, source, own);
        assert after.lives[lane.source] == AfterOwnStep(setup, source, own);
      }
    case ConfirmFrom(life, own) =>
      if CanConfirmFrom(lane, life, own) {
        ConfirmationReceives(source, lane.lives[life].targetPast[own.targetSnapshot]);
      }
    case _ =>
  }

  ghost predicate AlwaysReceivedGenerated(setup: Setup, steps: seq<LifeStep>) {
    && AllReceivedWereGenerated(RunLives(setup, steps))
    && (steps != [] ==> AlwaysReceivedGenerated(setup, steps[..|steps| - 1]))
  }

  ghost predicate NeverForgetsReceived(setup: Setup, steps: seq<LifeStep>) {
    steps == [] ||
    var before := steps[..|steps| - 1];
    NeverForgetsReceived(setup, before) && !ForgetsReceived(setup, RunLives(setup, before), steps[|steps| - 1])
  }

  /** With proofs and confirmations from any life: in every life the received nonce is always at most the
      generated one, if and only if the nonces never wrap around after messages have been received. So
      it is in a build with overflow checks. */
  lemma {:induction false} ReceivedGeneratedExactly(setup: Setup, steps: seq<LifeStep>)
    ensures AlwaysReceivedGenerated(setup, steps) <==> NeverForgetsReceived(setup, steps)
    ensures setup.overflowChecks ==> AlwaysReceivedGenerated(setup, steps)
  {
    if steps != [] {
      var before := steps[..|steps| - 1];
      ReceivedGeneratedExactly(setup, before);
      assert AlwaysReceivedGenerated(setup, before) ==> AllReceivedWereGenerated(RunLives(setup, before));
      if AllReceivedWereGenerated(RunLives(setup, before)) {
        LifeStepReceives(setup, RunLives(setup, before), steps[|steps| - 1]);
      }
    }
  }
}
