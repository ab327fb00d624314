/** Progress: from every reachable state in which the target end is open, relayers can bring over
    everything that was sent, whatever has been pruned since. */
module BridgeProgress {
  import opened Wrappers
  import opened LaneTypes
  import opened InboundLanes
  import opened MessageProofs
  import opened Bridge
  import opened BridgeTheorems

  // ---------- Every message can be proved

  /** A past source state stores a message under the nonce. */
  ghost predicate HeldAt(w: World, i: int, nonce: nat) {
    0 <= i < |w.sourcePast| && nonce in w.sourcePast[i].messages
  }

  ghost predicate Held(w: World, nonce: nat) {
    exists i :: HeldAt(w, i, nonce)
  }

  ghost predicate Provable(w: World) {
    forall nonce: nat :: 0 < nonce <= |w.sent| ==> Held(w, nonce)
  }

  lemma StepKeepsProvable(limits: Limits, w: World, step: Step)
    requires Inv(limits, w) && Provable(w)
    ensures Provable(Apply(limits, w, step))
  {
    var w' := Apply(limits, w, step);
    StepExtends(limits, w, step);
    forall nonce: nat | 0 < nonce <= |w'.sent|
      ensures Held(w', nonce)
    {
      if nonce <= |w.sent| {
        assert Held(w, nonce);
        var i :| HeldAt(w, i, nonce);
        assert HeldAt(w', i, nonce);
      } else {
        assert HeldAt(w', |w.sourcePast|, nonce);
      }
    }
  }

  /** However the source end has been pruned, each message that was sent is in one of its past states,
      from which it can be proved. */
  lemma {:induction false} AllProvable(limits: Limits, steps: seq<Step>)
    ensures Provable(Run(limits, steps))
  {
    if steps != [] {
      var before := steps[..|steps| - 1];
      AllProvable(limits, before);
      InvHolds(limits, before);
      StepKeepsProvable(limits, Run(limits, before), steps[|steps| - 1]);
    }
  }

  // ---------- One message

  /** A delivery of one message out of a past source state. */
  function DeliverOne(snapshot: nat, nonce: Nonce, payload: Payload, relayer: AccountId): Step {
    Deliver(snapshot, MessagesProof(map[nonce := payload], None, nonce, nonce), 1, relayer, true)
  }

  lemma OneMessageArrives(limits: Limits, lane: InboundLaneData, n: Nonce, payload: Payload, relayer: AccountId)
    requires 0 < limits.maxUnrewardedRelayers && 0 < limits.maxUnconfirmedMessages
    requires lane.relayers == [] && lane.lastConfirmed == n < MAX_NONCE
    ensures
      var entry := UnrewardedRelayer(relayer, DeliveredMessages(n + 1, n + 1));
      AfterBatch(limits, lane, relayer, [Message(n + 1, payload)]) ==
      (lane.(relayers := [entry]), [Message(n + 1, payload)])
  {
    var batch := [Message(n + 1, payload)];
    assert AfterBatch(limits, lane, relayer, batch[..0]) == (lane, []);
    assert [] + batch == batch;
    assert NoteDelivery([], relayer, n + 1) == [UnrewardedRelayer(relayer, DeliveredMessages(n + 1, n + 1))];
  }

  lemma DeliverOneArrives(limits: Limits, w: World, snapshot: nat, n: Nonce, payload: Payload, relayer: AccountId)
    requires 0 < limits.maxUnrewardedRelayers && 0 < limits.maxUnconfirmedMessages
    requires Inv(limits, w) && n < MAX_NONCE && HeldAt(w, snapshot, n + 1)
    requires w.sourcePast[snapshot].messages[n + 1] == payload
    requires w.target.state.Opened? && w.target.relayers == [] && w.target.lastConfirmed == n
    ensures
      var w' := Apply(limits, w, DeliverOne(snapshot, n + 1, payload, relayer));
      && Inv(limits, w') && w'.source == w.source && w'.sent == w.sent
      && w'.dispatched == w.dispatched + [Message(n + 1, payload)]
      && w'.target == w.target.(relayers := [UnrewardedRelayer(relayer, DeliveredMessages(n + 1, n + 1))])
  {
    var step := DeliverOne(snapshot, n + 1, payload, relayer);
    StepKeepsInv(limits, w, step);
    assert CanDeliver(limits, w, snapshot, step.proof, 1, true);
    assert Bundled(step.proof) == [Message(n + 1, payload)];
    OneMessageArrives(limits, w.target, n, payload, relayer);
  }

  // ---------- Everything

  /** Confirming what is delivered and acknowledging it to the target frees every slot and loses nothing. */
  lemma Acknowledge(limits: Limits, w: World, relayer: AccountId)
    requires Inv(limits, w) && Provable(w) && w.target.state.Opened?
    ensures
      var confirmed := Apply(limits, w, ConfirmNow(w));
      && confirmed.sourcePast != []
      && var freed := Apply(limits, confirmed, EmptyDelivery(confirmed, relayer));
         && Inv(limits, freed) && Provable(freed)
         && freed.sent == w.sent && freed.dispatched == w.dispatched
         && freed.target.state.Opened? && freed.target.relayers == []
         && freed.target.lastConfirmed == w.target.LastDelivered()
  {
    var confirmed := Apply(limits, w, ConfirmNow(w));
    ConfirmNowReceivesAll(limits, w);
    ConfirmNowStep(limits, w);
    StepKeepsProvable(limits, w, ConfirmNow(w));
    EmptyDeliveryFreesAll(limits, confirmed, relayer);
    StepKeepsInv(limits, confirmed, EmptyDelivery(confirmed, relayer));
    StepKeepsProvable(limits, confirmed, EmptyDelivery(confirmed, relayer));
    KeepsSentAndState(limits, confirmed, relayer);
  }

  lemma KeepsSentAndState(limits: Limits, w: World, relayer: AccountId)
    requires w.sourcePast != []
    ensures Apply(limits, w, EmptyDelivery(w, relayer)).sent == w.sent
    ensures Apply(limits, w, EmptyDelivery(w, relayer)).target.state == w.target.state
  {
    var proof := MessagesProof(map[], Some(w.source.data), 1, 0);
    assert Bundled(proof) == [];
  }

  /** With free slots, the next message can be brought over. */
  lemma NextArrives(limits: Limits, w: World, relayer: AccountId) returns (step: Step)
    requires 0 < limits.maxUnrewardedRelayers && 0 < limits.maxUnconfirmedMessages
    requires Inv(limits, w) && Provable(w) && |w.dispatched| < |w.sent|
    requires w.target.state.Opened? && w.target.relayers == []
    ensures
      var w' := Apply(limits, w, step);
      w'.target.state.Opened? && w'.sent == w.sent && |w'.dispatched| == |w.dispatched| + 1
  {
    var n := w.target.lastConfirmed;
    assert Held(w, n + 1);
    var i :| HeldAt(w, i, n + 1);
    DeliverOneArrives(limits, w, i, n, w.sourcePast[i].messages[n + 1], relayer);
    step := DeliverOne(i, n + 1, w.sourcePast[i].messages[n + 1], relayer);
  }

  /** Three steps bring over the next message. */
  lemma OneMoreDelivered(limits: Limits, steps: seq<Step>, relayer: AccountId) returns (more: seq<Step>)
    requires 0 < limits.maxUnrewardedRelayers && 0 < limits.maxUnconfirmedMessages
    requires
      var w := Run(limits, steps);
      w.target.state.Opened? && |w.dispatched| < |w.sent|
    ensures
      var w, w' := Run(limits, steps), Run(limits, steps + more);
      w'.target.state.Opened? && w'.sent == w.sent && |w'.dispatched| == |w.dispatched| + 1
  {
    InvHolds(limits, steps);
    AllProvable(limits, steps);
    var confirm := ConfirmNow(Run(limits, steps));
    Acknowledge(limits, Run(limits, steps), relayer);
    RunStep(limits, steps, confirm);
    var empty := EmptyDelivery(Run(limits, steps + [confirm]), relayer);
    RunStep(limits, steps + [confirm], empty);
    var deliver := NextArrives(limits, Run(limits, steps + [confirm] + [empty]), relayer);
    RunStep(limits, steps + [confirm] + [empty], deliver);
    more := [confirm, empty, deliver];
    assert steps + [confirm] + [empty] + [deliver] == steps + more;
  }

  /** From every reachable state with an open target end, and with room for one message, there is a
      continuation without a new message after which everything that was sent is dispatched. */
  lemma {:induction false} EverythingCanBeDelivered(limits: Limits, steps: seq<Step>, relayer: AccountId)
    returns (more: seq<Step>)
    requires 0 < limits.maxUnrewardedRelayers && 0 < limits.maxUnconfirmedMessages
    requires Run(limits, steps).target.state.Opened?
    ensures
      var w, w' := Run(limits, steps), Run(limits, steps + more);
      w'.sent == w.sent && |w'.dispatched| == |w.sent|
      && forall i :: 0 <= i < |w.sent| ==> w'.dispatched[i].payload == w.sent[i]
    decreases |Run(limits, steps).sent| - |Run(limits, steps).dispatched|
  {
    ExactlyOnceInOrder(limits, steps);
    if |Run(limits, steps).dispatched| == |Run(limits, steps).sent| {
      more := [];
      assert steps + more == steps;
    } else {
      var first := OneMoreDelivered(limits, steps, relayer);
      var rest := EverythingCanBeDelivered(limits, steps + first, relayer);
      more := first + rest;
      assert steps + first + rest == steps + more;
    }
  }
}
