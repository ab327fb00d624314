/** What holds of a lane after every run of its two ends. */
module BridgeTheorems {
  import opened Wrappers
  import opened LaneTypes
  import opened InboundLanes
  import opened OutboundLanes
  import opened MessageProofs
  import opened Bridge

  /** Exactly-once, in-order delivery: the messages that the target has dispatched are the first
      messages that the source has sent, each once, in order and under its own nonce. */
  lemma ExactlyOnceInOrder(limits: Limits, steps: seq<Step>)
    ensures
      var w := Run(limits, steps);
      && |w.dispatched| == w.target.LastDelivered() <= |w.sent| == w.source.data.latestGenerated
      && forall i :: 0 <= i < |w.dispatched| ==> w.dispatched[i] == Message(i + 1, w.sent[i])
  {
    InvHolds(limits, steps);
  }

  ghost predicate Extends(before: World, after: World) {
    && before.sent <= after.sent && before.dispatched <= after.dispatched
    && before.deliveredBy <= after.deliveredBy && before.payments <= after.payments
    && before.sourcePast <= after.sourcePast && before.targetPast <= after.targetPast
  }

  lemma StepExtends(limits: Limits, w: World, step: Step)
    ensures Extends(w, Apply(limits, w, step))
  {
  }

  /** No step ever rewrites what was sent, dispatched, delivered or paid. */
  lemma {:induction false} LogsOnlyGrow(limits: Limits, steps: seq<Step>, more: seq<Step>)
    ensures Extends(Run(limits, steps), Run(limits, steps + more))
  {
    if more == [] {
      assert steps + more == steps;
    } else {
      var all := steps + more;
      assert all[..|all| - 1] == steps + more[..|more| - 1];
      LogsOnlyGrow(limits, steps, more[..|more| - 1]);
      StepExtends(limits, Run(limits, all[..|all| - 1]), all[|all| - 1]);
    }
  }

  /** The four nonces are ordered in every reachable state, and no lane state, however stale,
      claims more received messages than the target has delivered. */
  lemma NoncesAreOrdered(limits: Limits, steps: seq<Step>, snapshot: nat)
    requires snapshot < |Run(limits, steps).sourcePast|
    ensures
      var w := Run(limits, steps);
      && w.target.lastConfirmed <= w.source.data.latestReceived
      && w.source.data.latestReceived <= w.target.LastDelivered()
      && w.target.LastDelivered() <= w.source.data.latestGenerated
      && w.sourcePast[snapshot].data.latestReceived <= w.target.LastDelivered()
  {
    InvHolds(limits, steps);
    var w := Run(limits, steps);
    assert SourceKnown(w, w.sourcePast[snapshot]);
  }

  /** The relayers of the target partition its unconfirmed messages within both limits. */
  lemma RelayersPartition(limits: Limits, steps: seq<Step>, nonce: nat)
    ensures
      var lane := Run(limits, steps).target;
      && WellFormed(limits, lane)
      && (lane.lastConfirmed < nonce <= lane.LastDelivered() ==>
            && (exists i :: Lists(lane.relayers, i, nonce))
            && forall i, j :: Lists(lane.relayers, i, nonce) && Lists(lane.relayers, j, nonce) ==> i == j)
  {
    InvHolds(limits, steps);
    var w := Run(limits, steps);
    assert TargetKnown(limits, w, w.target);
    if w.target.lastConfirmed < nonce <= w.target.LastDelivered() {
      ExactlyOneEntry(w.target.relayers, w.target.lastConfirmed, nonce);
    }
  }

  /** A genuine delivery proof, fresh or stale, is refused exactly when the largest nonce is
      received already and the proof shows it again without any unrewarded relayer; otherwise it
      confirms what the source does not know yet. */
  lemma GenuineProofsConfirm(limits: Limits, steps: seq<Step>, snapshot: nat)
    requires snapshot < |Run(limits, steps).targetPast|
    ensures
      var w := Run(limits, steps);
      var proved, received := w.targetPast[snapshot], w.source.data.latestReceived;
      var found := ConfirmationOf(w.source.data, proved);
      && found == Expected(received, proved)
      && (found.Err? <==> received == MAX_NONCE == proved.LastDelivered() && proved.relayers == [])
      && (found == Ok(None) <==> proved.LastDelivered() <= received && proved.LastDelivered() < MAX_NONCE)
  {
    InvHolds(limits, steps);
    GenuineConfirmation(limits, Run(limits, steps), snapshot);
  }

  // ---------- Progress

  /** A delivery that carries the latest source state and no message. */
  ghost function EmptyDelivery(w: World, relayer: AccountId): Step
    requires w.sourcePast != []
  {
    Deliver(|w.sourcePast| - 1, MessagesProof(map[], Some(w.source.data), 1, 0), 0, relayer, true)
  }

  /** A confirmation of the current target state. */
  ghost function ConfirmNow(w: World): Step
    requires w.targetPast != []
  {
    Confirm(|w.targetPast| - 1, Summary(w.target), true)
  }

  lemma ConfirmNowReceivesAll(limits: Limits, w: World)
    requires Inv(limits, w)
    ensures
      var confirmed := Apply(limits, w, ConfirmNow(w));
      && Inv(limits, confirmed)
      && confirmed.target == w.target && confirmed.dispatched == w.dispatched
      && confirmed.source.data.latestReceived == w.target.LastDelivered()
  {
    ReceivedAfterConfirm(limits, w);
    ConfirmKeepsInv(limits, w, |w.targetPast| - 1);
    ConfirmNowStep(limits, w);
  }

  lemma ConfirmNowStep(limits: Limits, w: World)
    requires w.targetPast != [] && w.targetPast[|w.targetPast| - 1] == w.target
    ensures
      var confirmed := Apply(limits, w, ConfirmNow(w));
      && confirmed == AfterConfirm(w, w.targetPast[|w.targetPast| - 1])
      && confirmed.target == w.target && confirmed.dispatched == w.dispatched
  {
  }

  lemma ReceivedAfterConfirm(limits: Limits, w: World)
    requires Inv(limits, w)
    ensures AfterConfirm(w, w.target).source.data.latestReceived == w.target.LastDelivered()
  {
    var snapshot := |w.targetPast| - 1;
    ConfirmedRange(limits, w, snapshot);
    if w.source.data.latestReceived < MAX_NONCE {
      GenuineConfirmation(limits, w, snapshot);
    }
  }

  lemma EmptyDeliveryFreesAll(limits: Limits, w: World, relayer: AccountId)
    requires Inv(limits, w)
    requires w.target.state.Opened?
    requires w.source.data.latestReceived == w.target.LastDelivered()
    ensures
      var freed := Apply(limits, w, EmptyDelivery(w, relayer));
      && freed.target.relayers == []
      && freed.target.lastConfirmed == w.target.LastDelivered()
      && freed.dispatched == w.dispatched
  {
    var proof := MessagesProof(map[], Some(w.source.data), 1, 0);
    assert CanDeliver(limits, w, |w.sourcePast| - 1, proof, 0, true);
    var updated := AfterLaneState(w.target, proof.laneState);
    LaneStateStep(limits, w, |w.sourcePast| - 1, proof.laneState);
    OwnedRange(updated.relayers, updated.lastConfirmed);
    assert TargetKnown(limits, w, w.target);
    OwnedRange(w.target.relayers, w.target.lastConfirmed);
    assert updated.lastConfirmed == w.target.LastDelivered();
    assert Bundled(proof) == [];
  }

  /** No deadlock: from any reachable state with an open target, one confirmation of the current
      target state and one empty delivery of the new source state free every slot. */
  lemma AlwaysUnblockable(limits: Limits, steps: seq<Step>, relayer: AccountId)
    requires Run(limits, steps).target.state.Opened?
    ensures Run(limits, steps).targetPast != []
    ensures
      var w := Run(limits, steps);
      var confirmed := Apply(limits, w, ConfirmNow(w));
      && confirmed.sourcePast != []
      && var freed := Apply(limits, confirmed, EmptyDelivery(confirmed, relayer));
         && freed.target.relayers == []
         && freed.target.lastConfirmed == freed.target.LastDelivered() == w.target.LastDelivered()
         && freed.dispatched == w.dispatched
  {
    InvHolds(limits, steps);
    var w := Run(limits, steps);
    ConfirmNowReceivesAll(limits, w);
    EmptyDeliveryFreesAll(limits, Apply(limits, w, ConfirmNow(w)), relayer);
  }
}
