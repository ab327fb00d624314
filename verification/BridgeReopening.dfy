/** Lanes that are reopened: with proofs of their own life only they behave as if they had never been
    reopened. Runs in which a proof of an earlier life is delivered, and in which nonces wrap around,
    show that delivery can fail otherwise. */
module BridgeReopening {
  import opened Wrappers
  import opened LaneTypes
  import opened InboundLanes
  import opened OutboundLanes
  import opened MessageProofs
  import opened Bridge
  import opened BridgeTheorems
  import opened BridgeStorage
  import opened BridgeProgress
  import opened BridgeLives

  // ---------- Lives with their own proofs

  /** The proof comes from the life that the end which takes it is in, and no nonce wraps around. */
  predicate OwnProof(setup: Setup, lane: Lane, step: LifeStep) {
    && (step.DeliverFrom? ==> step.life == lane.target)
    && (step.ConfirmFrom? ==> step.life == lane.source)
    && (step.OnSource? && lane.source < |lane.lives| ==> !Wraps(setup, lane.lives[lane.source], step.step))
  }

  ghost predicate OwnProofsOnly(setup: Setup, steps: seq<LifeStep>) {
    steps == [] ||
    var before := steps[..|steps| - 1];
    OwnProofsOnly(setup, before) && OwnProof(setup, RunLives(setup, before), steps[|steps| - 1])
  }

  /** The world is that of a lane which was never reopened. */
  ghost predicate IsRun(limits: Limits, w: World) {
    exists steps :: w == Run(limits, steps) && PrunesOnlyQueued(limits, steps)
  }

  lemma IsRunStep(limits: Limits, w: World, step: Step)
    requires IsRun(limits, w)
    requires step.PruneOldest? && step.admitted ==> w.source.data.oldestUnpruned <= w.source.data.latestGenerated
    ensures IsRun(limits, Bridge.Apply(limits, w, step))
  {
    var steps :| w == Run(limits, steps) && PrunesOnlyQueued(limits, steps);
    RunStep(limits, steps, step);
    assert (steps + [step])[..|steps|] == steps;
    assert PrunesOnlyQueued(limits, steps + [step]);
  }

  /** A lane whose queue is empty leaves no message behind. */
  lemma NothingLeftBehind(limits: Limits, w: World)
    requires IsRun(limits, w) && w.source.data.latestGenerated < w.source.data.oldestUnpruned
    ensures w.source.messages == map[]
  {
    var steps :| w == Run(limits, steps) && PrunesOnlyQueued(limits, steps);
    InvHolds(limits, steps);
    NothingStoredBelowOldest(limits, steps);
    assert SourceKnown(w, w.source);
  }

  ghost predicate FreshSource(w: World) {
    w.source == Genesis().source && w.sourcePast == Genesis().sourcePast
  }

  ghost predicate FreshTarget(w: World) {
    w.target == Genesis().target && w.targetPast == Genesis().targetPast
  }

  /** Every life is a run, and an end has not moved in the lives that it has yet to reach. */
  ghost predicate SoundLives(setup: Setup, lane: Lane) {
    && Ready(lane)
    && (forall e :: 0 <= e < |lane.lives| ==> IsRun(setup.limits, lane.lives[e]))
    && (forall e :: lane.source < e < |lane.lives| ==> FreshSource(lane.lives[e]))
    && (forall e :: lane.target < e < |lane.lives| ==> FreshTarget(lane.lives[e]))
  }

  lemma GenesisIsRun(limits: Limits)
    ensures IsRun(limits, Genesis())
  {
    assert Run(limits, []) == Genesis() && PrunesOnlyQueued(limits, []);
  }

  lemma LifeMovesOn(setup: Setup, lane: Lane, life: nat, w: World)
    requires SoundLives(setup, lane) && life < |lane.lives| && IsRun(setup.limits, w)
    requires lane.source < life ==> FreshSource(w)
    requires lane.target < life ==> FreshTarget(w)
    ensures SoundLives(setup, WithLife(lane, life, w))
  {
  }

  lemma SourceStepIsSound(setup: Setup, lane: Lane, own: Step)
    requires SoundLives(setup, lane) && (OwnStep(lane.lives[lane.source], own) || own.Confirm?)
    ensures SoundLives(setup, WithLife(lane, lane.source, Bridge.Apply(setup.limits, lane.lives[lane.source], own)))
  {
    var w := lane.lives[lane.source];
    var w' := Bridge.Apply(setup.limits, w, own);
    IsRunStep(setup.limits, w, own);
    assert w'.target == w.target && w'.targetPast == w.targetPast;
    LifeMovesOn(setup, lane, lane.source, w');
  }

  lemma TargetStepIsSound(setup: Setup, lane: Lane, own: Step)
    requires SoundLives(setup, lane) && (own.SetTargetState? || own.Deliver?)
    ensures SoundLives(setup, WithLife(lane, lane.target, Bridge.Apply(setup.limits, lane.lives[lane.target], own)))
  {
    var w := lane.lives[lane.target];
    var w' := Bridge.Apply(setup.limits, w, own);
    IsRunStep(setup.limits, w, own);
    assert w'.source == w.source && w'.sourcePast == w.sourcePast;
    LifeMovesOn(setup, lane, lane.target, w');
  }

  lemma GrownIsSound(setup: Setup, lane: Lane, life: nat)
    requires SoundLives(setup, lane) && life <= |lane.lives|
    ensures SoundLives(setup, Grown(lane, life))
  {
    GenesisIsRun(setup.limits);
  }

  lemma ReopenedSourceIsSound(setup: Setup, lane: Lane)
    requires SoundLives(setup, lane)
    requires
      var data := lane.lives[lane.source].source.data;
      data.latestGenerated < data.oldestUnpruned
    ensures SoundLives(setup, AfterReopenSource(lane))
  {
    var next := lane.source + 1;
    var grown := Grown(lane, next);
    GrownIsSound(setup, lane, next);
    NothingLeftBehind(setup.limits, lane.lives[lane.source]);
    assert FreshSource(grown.lives[next]);
    assert AfterReopenSource(lane).lives == grown.lives;
  }

  lemma ReopenedTargetIsSound(setup: Setup, lane: Lane)
    requires SoundLives(setup, lane)
    ensures SoundLives(setup, AfterReopenTarget(lane))
  {
    var next := lane.target + 1;
    var grown := Grown(lane, next);
    GrownIsSound(setup, lane, next);
    assert FreshTarget(grown.lives[next]);
    assert AfterReopenTarget(lane).lives == grown.lives;
  }

  lemma LifeStepIsSound(setup: Setup, lane: Lane, step: LifeStep)
    requires SoundLives(setup, lane) && OwnProof(setup, lane, step)
    ensures SoundLives(setup, BridgeLives.Apply(setup, lane, step))
  {
    match step
    case OnSource(own) =>
      if OwnStep(lane.lives[lane.source], own) {
        SourceStepIsSound(setup, lane, own);
      }
    case OnTarget(state) =>
      TargetStepIsSound(setup, lane, SetTargetState(state));
    case DeliverFrom(life, own) =>
      assert Seen(lane, life) == lane.lives[lane.target];
      if own.Deliver? {
        TargetStepIsSound(setup, lane, own);
      }
    case ConfirmFrom(_, own) =>
      if own.Confirm? {
        SourceStepIsSound(setup, lane, own);
      }
    case ReopenSource =>
      var data := lane.lives[lane.source].source.data;
      if data.latestGenerated < data.oldestUnpruned {
        ReopenedSourceIsSound(setup, lane);
      }
    case ReopenTarget =>
      ReopenedTargetIsSound(setup, lane);
  }

  lemma {:induction false} LivesAreSound(setup: Setup, steps: seq<LifeStep>)
    requires OwnProofsOnly(setup, steps)
    ensures SoundLives(setup, RunLives(setup, steps))
  {
    if steps == [] {
      GenesisIsRun(setup.limits);
    } else {
      var before := steps[..|steps| - 1];
      LivesAreSound(setup, before);
      LifeStepIsSound(setup, RunLives(setup, before), steps[|steps| - 1]);
    }
  }

  /** However often the ends are reopened, and in whatever order: if each takes proofs of its own
      life only, every life is a run of a lane that was never reopened, so that it delivers exactly
      once and in order. */
  lemma ExactlyOnceInEveryLife(setup: Setup, steps: seq<LifeStep>, life: nat)
    requires OwnProofsOnly(setup, steps) && life < |RunLives(setup, steps).lives|
    ensures IsRun(setup.limits, RunLives(setup, steps).lives[life])
    ensures InOrderOnce(RunLives(setup, steps).lives[life])
  {
    LivesAreSound(setup, steps);
    var w := RunLives(setup, steps).lives[life];
    var own :| w == Run(setup.limits, own) && PrunesOnlyQueued(setup.limits, own);
    ExactlyOnceInOrder(setup.limits, own);
  }

  /** Proofs of the own life fit. */
  lemma {:induction false} OwnProofsFit(setup: Setup, steps: seq<LifeStep>)
    requires OwnProofsOnly(setup, steps)
    ensures AlwaysInOrder(setup, steps) && OnlyFittingProofs(setup, steps)
  {
    if steps != [] {
      OwnProofsFit(setup, steps[..|steps| - 1]);
    }
    forall e | 0 <= e < |RunLives(setup, steps).lives|
      ensures InOrderOnce(RunLives(setup, steps).lives[e])
    {
      ExactlyOnceInEveryLife(setup, steps, e);
    }
    ExactlyOnceIffProofsFit(setup, steps);
  }

  // ---------- A proof of an earlier life

  lemma LivesStep(setup: Setup, steps: seq<LifeStep>, step: LifeStep)
    ensures RunLives(setup, steps + [step]) == BridgeLives.Apply(setup, RunLives(setup, steps), step)
    ensures OwnProofsOnly(setup, steps + [step]) <==>
            OwnProofsOnly(setup, steps) && OwnProof(setup, RunLives(setup, steps), step)
  {
    assert (steps + [step])[..|steps|] == steps;
  }

  /** A run in which both ends have moved on to a second life after one message of the first. */
  lemma ReopenAfterOneMessage(setup: Setup, payload: Payload) returns (steps: seq<LifeStep>)
    ensures OwnProofsOnly(setup, steps)
    ensures
      var lane := RunLives(setup, steps);
      && lane.source == lane.target == 1 && |lane.lives| == 2 && lane.lives[1] == Genesis()
      && |lane.lives[0].sourcePast| == 3 && lane.lives[0].sourcePast[1].messages == map[1 := payload]
  {
    var send, prune := OnSource(Send(payload, true)), OnSource(PruneOldest(true));
    LivesStep(setup, [], send);
    LivesStep(setup, [] + [send], prune);
    LivesStep(setup, [] + [send] + [prune], ReopenSource);
    LivesStep(setup, [] + [send] + [prune] + [ReopenSource], ReopenTarget);
    steps := [] + [send] + [prune] + [ReopenSource] + [ReopenTarget];
    var sent := RunLives(setup, [] + [send]);
    assert sent.lives[0].source == Outbound(OpenedOutboundLane().(latestGenerated := 1), map[1 := payload]);
    var pruned := RunLives(setup, [] + [send] + [prune]);
    assert pruned.lives[0].source.messages == map[];
    assert pruned.lives[0].source.data.oldestUnpruned == 2;
    var reopened := RunLives(setup, [] + [send] + [prune] + [ReopenSource]);
    assert reopened.lives[1] == Genesis();
  }

  lemma OldProofArrives(setup: Setup, lane: Lane, payload: Payload, relayer: AccountId)
    requires 0 < setup.limits.maxUnrewardedRelayers && 0 < setup.limits.maxUnconfirmedMessages
    requires lane.source == lane.target == 1 && |lane.lives| == 2 && lane.lives[1] == Genesis()
    requires |lane.lives[0].sourcePast| == 3 && lane.lives[0].sourcePast[1].messages == map[1 := payload]
    ensures
      var proof := MessagesProof(map[1 := payload], None, 1, 1);
      BridgeLives.Apply(setup, lane, DeliverFrom(0, Deliver(1, proof, 1, relayer, true))) ==
      WithLife(lane, 1, AfterDelivery(setup.limits, Genesis(), proof, relayer))
    ensures AfterDelivery(setup.limits, Genesis(), MessagesProof(map[1 := payload], None, 1, 1), relayer).dispatched ==
            [Message(1, payload)]
  {
    var proof := MessagesProof(map[1 := payload], None, 1, 1);
    assert CanDeliver(setup.limits, Seen(lane, 0), 1, proof, 1, true);
    assert Bundled(proof) == [Message(1, payload)];
    OneMessageArrives(setup.limits, OpenedInboundLane(), 0, payload, relayer);
    assert [] + [Message(1, payload)] == [Message(1, payload)];
  }

  /** After that, a genuine proof of the first life delivers its message in the second one, in which
      nothing has been sent. */
  lemma OldProofIsDelivered(setup: Setup, payload: Payload, relayer: AccountId) returns (steps: seq<LifeStep>)
    requires 0 < setup.limits.maxUnrewardedRelayers && 0 < setup.limits.maxUnconfirmedMessages
    ensures
      var lane := RunLives(setup, steps);
      && lane.target == 1 && 1 < |lane.lives|
      && lane.lives[1].sent == [] && lane.lives[1].dispatched == [Message(1, payload)]
      && !InOrderOnce(lane.lives[1])
  {
    var before := ReopenAfterOneMessage(setup, payload);
    var own := DeliverFrom(0, Deliver(1, MessagesProof(map[1 := payload], None, 1, 1), 1, relayer, true));
    OldProofArrives(setup, RunLives(setup, before), payload, relayer);
    LivesStep(setup, before, own);
    steps := before + [own];
  }

  // ---------- Nonces that wrap around

  /** The lane is in its first life, in which nothing but sending has happened. */
  ghost predicate OnlySent(lane: Lane, first: Payload, generated: Nonce) {
    && lane.source == lane.target == 0 && |lane.lives| == 1
    && var w := lane.lives[0];
       && w.source.data == OpenedOutboundLane().(latestGenerated := generated)
       && w.sourcePast != [] && w.sourcePast[|w.sourcePast| - 1] == w.source
       && w.target == OpenedInboundLane() && w.dispatched == []
       && (w.sent != [] ==> w.sent[0] == first)
  }

  lemma SendMore(setup: Setup, lane: Lane, first: Payload, generated: Nonce, payload: Payload)
    requires Ready(lane) && OnlySent(lane, first, generated) && !setup.overflowChecks
    requires lane.lives[0].sent == [] ==> payload == first
    ensures
      var after := BridgeLives.Apply(setup, lane, OnSource(Send(payload, true)));
      var nonce := if generated < MAX_NONCE then generated + 1 else 0;
      && OnlySent(after, first, nonce) && after.lives[0].sent != []
      && nonce in after.lives[0].source.messages && after.lives[0].source.messages[nonce] == payload
  {
  }

  lemma {:induction false} SendMany(setup: Setup, payload: Payload, n: Nonce) returns (steps: seq<LifeStep>)
    requires !setup.overflowChecks
    ensures OnlySent(RunLives(setup, steps), payload, n)
    ensures 0 < n ==> RunLives(setup, steps).lives[0].sent != []
  {
    if n == 0 {
      steps := [];
    } else {
      var before := SendMany(setup, payload, n - 1);
      SendMore(setup, RunLives(setup, before), payload, n - 1, payload);
      LivesStep(setup, before, OnSource(Send(payload, true)));
      steps := before + [OnSource(Send(payload, true))];
    }
  }

  lemma ReusedNonceArrives(setup: Setup, lane: Lane, first: Payload, second: Payload, relayer: AccountId)
    requires 0 < setup.limits.maxUnrewardedRelayers && 0 < setup.limits.maxUnconfirmedMessages
    requires Ready(lane) && OnlySent(lane, first, 1)
    requires 1 in lane.lives[0].source.messages && lane.lives[0].source.messages[1] == second
    ensures
      var w, proof := lane.lives[0], MessagesProof(map[1 := second], None, 1, 1);
      var w' := AfterDelivery(setup.limits, w, proof, relayer);
      && BridgeLives.Apply(setup, lane, DeliverFrom(0, Deliver(|w.sourcePast| - 1, proof, 1, relayer, true))) ==
         WithLife(lane, 0, w')
      && w'.sent == w.sent && w'.dispatched == [Message(1, second)]
      && w'.source == w.source && w'.target.lastConfirmed == 0
      && w'.targetPast != [] && w'.targetPast[|w'.targetPast| - 1] == w'.target
  {
    var w, proof := lane.lives[0], MessagesProof(map[1 := second], None, 1, 1);
    assert Seen(lane, 0) == w;
    assert CanDeliver(setup.limits, w, |w.sourcePast| - 1, proof, 1, true);
    assert Bundled(proof) == [Message(1, second)];
    OneMessageArrives(setup.limits, OpenedInboundLane(), 0, second, relayer);
    assert [] + [Message(1, second)] == [Message(1, second)];
  }

  /** In a build without overflow checks, a run that uses up the nonces and sends on: the second message
      under the first nonce is delivered in place of the first one. */
  lemma ReusedNonceIsDelivered(setup: Setup, first: Payload, second: Payload, relayer: AccountId)
    returns (steps: seq<LifeStep>)
    requires 0 < setup.limits.maxUnrewardedRelayers && 0 < setup.limits.maxUnconfirmedMessages
    requires !setup.overflowChecks && first != second
    ensures
      var lane := RunLives(setup, steps);
      && lane.source == lane.target == 0 && |lane.lives| == 1
      && lane.lives[0].sent != [] && lane.lives[0].sent[0] == first
      && lane.lives[0].dispatched == [Message(1, second)] && !InOrderOnce(lane.lives[0])
  {
    var send := OnSource(Send(second, true));
    var all := SendMany(setup, first, MAX_NONCE);
    SendMore(setup, RunLives(setup, all), first, MAX_NONCE, second);
    LivesStep(setup, all, send);
    var wrapped := all + [send];
    SendMore(setup, RunLives(setup, wrapped), first, 0, second);
    LivesStep(setup, wrapped, send);
    var again := wrapped + [send];
    var lane := RunLives(setup, again);
    var proof := MessagesProof(map[1 := second], None, 1, 1);
    var own := DeliverFrom(0, Deliver(|lane.lives[0].sourcePast| - 1, proof, 1, relayer, true));
    ReusedNonceArrives(setup, lane, first, second, relayer);
    LivesStep(setup, again, own);
    steps := again + [own];
  }

  /** The lane is in its first life and open for sending, with these counters. */
  ghost predicate SourceAt(lane: Lane, received: Nonce, generated: Nonce) {
    && lane.source == 0 && |lane.lives| == 1
    && var data := lane.lives[0].source.data;
       data.state.Opened? && data.latestReceived == received && data.latestGenerated == generated
  }

  lemma SendOn(setup: Setup, steps: seq<LifeStep>, received: Nonce, generated: Nonce, payload: Payload)
    requires SourceAt(RunLives(setup, steps), received, generated) && !setup.overflowChecks
    ensures SourceAt(RunLives(setup, steps + [OnSource(Send(payload, true))]), received,
                     if generated < MAX_NONCE then generated + 1 else 0)
  {
    LivesStep(setup, steps, OnSource(Send(payload, true)));
  }

  lemma {:induction false} SendToTheEnd(
    setup: Setup, steps: seq<LifeStep>, received: Nonce, generated: Nonce, payload: Payload)
    returns (all: seq<LifeStep>)
    requires SourceAt(RunLives(setup, steps), received, generated) && !setup.overflowChecks
    ensures SourceAt(RunLives(setup, all), received, MAX_NONCE)
    decreases MAX_NONCE - generated
  {
    if generated == MAX_NONCE {
      all := steps;
    } else {
      SendOn(setup, steps, received, generated, payload);
      all := SendToTheEnd(setup, steps + [OnSource(Send(payload, true))], received, generated + 1, payload);
    }
  }

  /** One message is delivered and not yet confirmed. */
  ghost predicate OneDelivered(w: World) {
    && |w.dispatched| == 1 && w.target.lastConfirmed == 0
    && w.targetPast != [] && w.targetPast[|w.targetPast| - 1] == w.target
  }

  lemma DeliverFirst(setup: Setup, steps: seq<LifeStep>, payload: Payload, relayer: AccountId)
    returns (deliver: LifeStep)
    requires 0 < setup.limits.maxUnrewardedRelayers && 0 < setup.limits.maxUnconfirmedMessages
    requires
      var lane := RunLives(setup, steps);
      && OnlySent(lane, payload, 1)
      && 1 in lane.lives[0].source.messages && lane.lives[0].source.messages[1] == payload
    ensures
      var lane := RunLives(setup, steps + [deliver]);
      SourceAt(lane, 0, 1) && OneDelivered(lane.lives[0])
  {
    var lane, proof := RunLives(setup, steps), MessagesProof(map[1 := payload], None, 1, 1);
    deliver := DeliverFrom(0, Deliver(|lane.lives[0].sourcePast| - 1, proof, 1, relayer, true));
    ReusedNonceArrives(setup, lane, payload, payload, relayer);
    LivesStep(setup, steps, deliver);
  }

  lemma ConfirmFirst(setup: Setup, steps: seq<LifeStep>) returns (confirm: LifeStep)
    requires SourceAt(RunLives(setup, steps), 0, 1) && OneDelivered(RunLives(setup, steps).lives[0])
    ensures SourceAt(RunLives(setup, steps + [confirm]), 1, 1)
  {
    var w := RunLives(setup, steps).lives[0];
    confirm := ConfirmFrom(0, Confirm(|w.targetPast| - 1, Summary(w.target), true));
    LivesStep(setup, steps, confirm);
    CountsHold(setup, steps);
    OneIsConfirmed(setup.limits, w);
  }

  /** A run after which one message is sent, delivered and confirmed. */
  lemma ConfirmOne(setup: Setup, payload: Payload, relayer: AccountId) returns (steps: seq<LifeStep>)
    requires 0 < setup.limits.maxUnrewardedRelayers && 0 < setup.limits.maxUnconfirmedMessages
    requires !setup.overflowChecks
    ensures SourceAt(RunLives(setup, steps), 1, 1)
  {
    var send := OnSource(Send(payload, true));
    LivesStep(setup, [], send);
    SendMore(setup, RunLives(setup, []), payload, 0, payload);
    var deliver := DeliverFirst(setup, [] + [send], payload, relayer);
    var confirm := ConfirmFirst(setup, [] + [send] + [deliver]);
    steps := [] + [send] + [deliver] + [confirm];
  }

  lemma OneIsConfirmed(limits: Limits, w: World)
    requires WellFormed(limits, w.target) && w.target.LastDelivered() == 1 && w.target.lastConfirmed == 0
    requires w.source.data.latestReceived == 0 && w.source.data.latestGenerated == 1
    ensures AfterConfirm(w, w.target).source.data == w.source.data.(latestReceived := 1, oldestUnpruned := 2)
  {
    RelayersErrorFree(w.target.relayers, 0, 1);
  }

  /** In a build without overflow checks, a run after which more messages are received than generated. */
  lemma ReceivedIsForgotten(setup: Setup, payload: Payload, relayer: AccountId) returns (steps: seq<LifeStep>)
    requires 0 < setup.limits.maxUnrewardedRelayers && 0 < setup.limits.maxUnconfirmedMessages
    requires !setup.overflowChecks
    ensures
      var lane := RunLives(setup, steps);
      |lane.lives| == 1 && !ReceivedWasGenerated(lane.lives[0])
  {
    var one := ConfirmOne(setup, payload, relayer);
    var all := SendToTheEnd(setup, one, 1, 1, payload);
    SendOn(setup, all, 1, MAX_NONCE, payload);
    steps := all + [OnSource(Send(payload, true))];
  }
}
