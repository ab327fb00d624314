/** A lane that uses up its nonces: runs that reach the largest nonce, where the received counter
    saturates. They show that the exceptions in the theorems on confirmations and rewards occur. */
module BridgeExhaustion {
  import opened Wrappers
  import opened LaneTypes
  import opened OutboundLanes
  import opened Bridge
  import opened BridgeTheorems
  import opened BridgeRewards
  import opened BridgeProgress

  /** Both ends are open and agree that `n` messages are sent, delivered and confirmed. */
  ghost predicate CaughtUp(limits: Limits, w: World, n: Nonce) {
    && Inv(limits, w)
    && w.source.data.state.Opened? && w.target.state.Opened?
    && w.source.data.latestGenerated == w.source.data.latestReceived == n
    && w.target.relayers == [] && w.target.lastConfirmed == n
  }

  lemma SendOne(limits: Limits, w: World, n: Nonce, payload: Payload)
    requires CaughtUp(limits, w, n) && n < MAX_NONCE
    ensures
      var w' := Apply(limits, w, Send(payload, true));
      && Inv(limits, w')
      && w'.source.data == w.source.data.(latestGenerated := n + 1) && w'.target == w.target
      && n + 1 in w'.source.messages && w'.source.messages[n + 1] == payload
  {
    StepKeepsInv(limits, w, Send(payload, true));
  }

  lemma OneMoreStep(limits: Limits, steps: seq<Step>, step: Step)
    ensures Run(limits, steps + [step]) == Apply(limits, Run(limits, steps), step)
    ensures NeverRepeats(limits, steps + [step]) <==>
            NeverRepeats(limits, steps) && !RepeatsAt(Run(limits, steps), step)
  {
    assert (steps + [step])[..|steps|] == steps;
  }

  /** The target has delivered one message more than the source knows of. */
  ghost predicate OneAhead(limits: Limits, w: World, n: Nonce, relayer: AccountId) {
    && Inv(limits, w) && n < MAX_NONCE
    && w.source.data.state.Opened? && w.target.state.Opened?
    && w.source.data.latestGenerated == n + 1 && w.source.data.latestReceived == n
    && w.target.relayers == [UnrewardedRelayer(relayer, DeliveredMessages(n + 1, n + 1))] && w.target.lastConfirmed == n
  }

  /** The source knows of it, but the target still lists its relayer. */
  ghost predicate Unacknowledged(limits: Limits, w: World, n: Nonce, relayer: AccountId) {
    && Inv(limits, w) && n < MAX_NONCE
    && w.source.data.state.Opened? && w.target.state.Opened?
    && w.source.data.latestGenerated == w.source.data.latestReceived == n + 1
    && w.target.relayers == [UnrewardedRelayer(relayer, DeliveredMessages(n + 1, n + 1))] && w.target.lastConfirmed == n
  }

  lemma ReachOneAhead(limits: Limits, payload: Payload, relayer: AccountId, n: Nonce) returns (steps: seq<Step>)
    requires 0 < limits.maxUnrewardedRelayers && 0 < limits.maxUnconfirmedMessages && n < MAX_NONCE
    ensures OneAhead(limits, Run(limits, steps), n, relayer) && NeverRepeats(limits, steps)
    decreases n, 1
  {
    var before := ReachCaughtUp(limits, payload, relayer, n);
    var w := Run(limits, before);
    SendOne(limits, w, n, payload);
    OneMoreStep(limits, before, Send(payload, true));
    var sent := before + [Send(payload, true)];
    var w' := Run(limits, sent);
    var delivery := DeliverOne(|w'.sourcePast| - 1, n + 1, payload, relayer);
    DeliverOneArrives(limits, w', |w'.sourcePast| - 1, n, payload, relayer);
    OneMoreStep(limits, sent, delivery);
    steps := sent + [delivery];
  }

  lemma ConfirmOne(limits: Limits, w: World, n: Nonce, relayer: AccountId)
    requires OneAhead(limits, w, n, relayer)
    ensures Unacknowledged(limits, Apply(limits, w, ConfirmNow(w)), n, relayer) && !RepeatsAt(w, ConfirmNow(w))
  {
    ConfirmNowReceivesAll(limits, w);
    ConfirmNowStep(limits, w);
    RepeatsExactly(limits, w, |w.targetPast| - 1);
  }

  lemma ReachUnacknowledged(limits: Limits, payload: Payload, relayer: AccountId, n: Nonce) returns (steps: seq<Step>)
    requires 0 < limits.maxUnrewardedRelayers && 0 < limits.maxUnconfirmedMessages && n < MAX_NONCE
    ensures Unacknowledged(limits, Run(limits, steps), n, relayer) && NeverRepeats(limits, steps)
    decreases n, 2
  {
    var before := ReachOneAhead(limits, payload, relayer, n);
    var w := Run(limits, before);
    ConfirmOne(limits, w, n, relayer);
    OneMoreStep(limits, before, ConfirmNow(w));
    steps := before + [ConfirmNow(w)];
  }

  lemma AcknowledgeOne(limits: Limits, w: World, n: Nonce, relayer: AccountId)
    requires Unacknowledged(limits, w, n, relayer)
    ensures CaughtUp(limits, Apply(limits, w, EmptyDelivery(w, relayer)), n + 1)
  {
    StepKeepsInv(limits, w, EmptyDelivery(w, relayer));
    EmptyDeliveryFreesAll(limits, w, relayer);
  }

  /** Every nonce can be reached, without a repeated confirmation on the way. */
  lemma {:induction false} ReachCaughtUp(limits: Limits, payload: Payload, relayer: AccountId, n: Nonce)
    returns (steps: seq<Step>)
    requires 0 < limits.maxUnrewardedRelayers && 0 < limits.maxUnconfirmedMessages
    ensures CaughtUp(limits, Run(limits, steps), n) && NeverRepeats(limits, steps)
    decreases n, 0
  {
    if n == 0 {
      steps := [];
      InvHolds(limits, steps);
    } else {
      var before := ReachUnacknowledged(limits, payload, relayer, n - 1);
      var w := Run(limits, before);
      AcknowledgeOne(limits, w, n - 1, relayer);
      OneMoreStep(limits, before, EmptyDelivery(w, relayer));
      steps := before + [EmptyDelivery(w, relayer)];
    }
  }

  /** With room for one message there is a run after which the largest nonce is confirmed, and paid
      for, a second time: the target has not yet learnt of the first confirmation. */
  lemma LargestNonceIsPaidTwice(limits: Limits, payload: Payload, relayer: AccountId)
    returns (steps: seq<Step>, again: Step)
    requires 0 < limits.maxUnrewardedRelayers && 0 < limits.maxUnconfirmedMessages
    ensures NeverRepeats(limits, steps) && RepeatsAt(Run(limits, steps), again)
    ensures !NothingPaidTwice(Run(limits, steps + [again]).payments) && !RewardsMatch(Run(limits, steps + [again]))
  {
    steps := ReachUnacknowledged(limits, payload, relayer, MAX_NONCE - 1);
    var w := Run(limits, steps);
    again := ConfirmNow(w);
    RepeatsExactly(limits, w, |w.targetPast| - 1);
    OneMoreStep(limits, steps, again);
    PaidOnceExactly(limits, steps + [again]);
    RewardsMatchDeliveries(limits, steps + [again]);
  }

  /** And once the target has learnt of it, a genuine proof of its current state is refused. */
  lemma LargestNonceIsRefused(limits: Limits, payload: Payload, relayer: AccountId)
    returns (steps: seq<Step>)
    requires 0 < limits.maxUnrewardedRelayers && 0 < limits.maxUnconfirmedMessages
    ensures
      var w := Run(limits, steps);
      && NeverRepeats(limits, steps)
      && ConfirmationOf(w.source.data, w.target) == Err(TryingToConfirmMoreMessagesThanExpected)
  {
    steps := ReachCaughtUp(limits, payload, relayer, MAX_NONCE);
    GenuineConfirmation(limits, Run(limits, steps), |Run(limits, steps).targetPast| - 1);
  }
}
