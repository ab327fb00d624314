/** Closing both lanes of a bridge (bridges/modules/xcm-bridge-hub/src/lib.rs): the queued messages
    are pruned, possibly over several calls, and then both lanes are forgotten. */
module LaneClosing {
  import opened Wrappers
  import opened LaneTypes
  import opened LaneStorage
  import opened InboundLanes
  import opened OutboundLanes

  /** What a call to close a bridge has come to: some messages remain, or the lanes are gone. */
  datatype Closing = Pending(pruned: nat) | Purged(pruned: nat)

  datatype CloseError = UnknownLane(error: LanesManagerError) | ArithmeticOverflow

  /** The number of messages between the oldest unpruned and the latest one. */
  function QueueLength(lane: OutboundLaneData): nat {
    if lane.oldestUnpruned <= lane.latestGenerated then lane.latestGenerated - lane.oldestUnpruned + 1 else 0
  }

  function AfterPrunes(lane: Outbound, count: nat): Outbound {
    if count == 0 then lane else AfterPruneOldest(AfterPrunes(lane, count - 1))
  }

  /** Prunings take the queued messages one by one, from the oldest on. */
  lemma {:induction false} PrunesFromTheOldest(lane: Outbound, count: nat)
    requires count <= QueueLength(lane.data)
    ensures
      var after := AfterPrunes(lane, count);
      && after.data == lane.data.(oldestUnpruned := if lane.data.oldestUnpruned + count <= MAX_NONCE
                                                    then lane.data.oldestUnpruned + count else 0)
      && after.messages == Pruned(lane.messages, lane.data.oldestUnpruned, lane.data.oldestUnpruned + count)
  {
    if 0 < count {
      PrunesFromTheOldest(lane, count - 1);
    }
  }

  /** The lanes can go exactly when the call may prune the whole queue, unless the queue ends at the
      largest nonce: then the oldest unpruned nonce wraps around and the queue seems full. */
  lemma PurgedExactly(lane: Outbound, mayPrune: Nonce)
    ensures
      var queued := QueueLength(lane.data);
      QueueLength(AfterPrunes(lane, AtMost(mayPrune, queued)).data) == 0 <==>
        queued == 0 || (queued <= mayPrune && lane.data.latestGenerated < MAX_NONCE)
  {
    PrunesFromTheOldest(lane, AtMost(mayPrune, QueueLength(lane.data)));
  }

  function AtMost(a: nat, b: nat): nat {
    if a < b then a else b
  }

  /** The prunings reach the largest nonce, in a build with overflow checks. */
  predicate Aborts(overflowChecks: bool, lane: OutboundLaneData, mayPrune: Nonce) {
    overflowChecks && lane.latestGenerated == MAX_NONCE && 0 < QueueLength(lane) <= mayPrune
  }

  /** Prunes up to `mayPrune` queued messages; fails when the call is aborted. */
  method PruneQueue(lane: OutboundLane, mayPrune: Nonce) returns (pruned: nat, done: bool)
    requires lane.Valid()
    modifies lane`cachedData, lane.storage`outboundLanes, lane.storage`outboundMessages
    ensures lane.Valid()
    ensures done ==>
              && pruned == AtMost(mayPrune, QueueLength(old(lane.cachedData)))
              && lane.View() == AfterPrunes(old(lane.View()), pruned)
    ensures !done <==> Aborts(lane.overflowChecks, old(lane.cachedData), mayPrune)
    ensures lane.storage.outboundLanes == old(lane.storage.outboundLanes)[lane.laneId := lane.cachedData]
    ensures OtherLanes(lane.storage.outboundMessages, lane.laneId) ==
            old(OtherLanes(lane.storage.outboundMessages, lane.laneId))
  {
    var queued := QueueLength(lane.cachedData);
    pruned := 0;
    for i := 0 to queued
      invariant lane.Valid() && pruned == i <= mayPrune
      invariant lane.View() == AfterPrunes(old(lane.View()), i)
      invariant lane.overflowChecks ==> old(lane.cachedData).oldestUnpruned + i <= MAX_NONCE
      invariant lane.storage.outboundLanes == old(lane.storage.outboundLanes)[lane.laneId := lane.cachedData]
      invariant OtherLanes(lane.storage.outboundMessages, lane.laneId) ==
                old(OtherLanes(lane.storage.outboundMessages, lane.laneId))
    {
      if pruned == mayPrune {
        return pruned, true;
      }
      PrunesFromTheOldest(old(lane.View()), i);
      var removed := lane.RemoveOldestUnprunedMessage();
      if !removed {
        return pruned, false;
      }
      pruned := pruned + 1;
    }
    return pruned, true;
  }

  /** Closes both lanes. While messages remain they are only marked as closed. */
  method CloseLanes(storage: PalletStorage, laneId: LaneId, mayPrune: Nonce, limits: Limits, overflowChecks: bool)
    returns (r: Result<Closing, CloseError>)
    modifies storage`inboundLanes, storage`outboundLanes, storage`outboundMessages
    ensures r == Err(UnknownLane(UnknownInboundLane)) <==> laneId !in old(storage.inboundLanes)
    ensures r == Err(UnknownLane(UnknownOutboundLane)) <==>
            laneId in old(storage.inboundLanes) && laneId !in old(storage.outboundLanes)
    ensures r.Ok? <==>
            && laneId in old(storage.inboundLanes) && laneId in old(storage.outboundLanes)
            && !Aborts(overflowChecks, old(storage.outboundLanes)[laneId], mayPrune)
    ensures r == Err(ArithmeticOverflow) <==>
            && laneId in old(storage.inboundLanes) && laneId in old(storage.outboundLanes)
            && Aborts(overflowChecks, old(storage.outboundLanes)[laneId], mayPrune)
    ensures r.Ok? ==>
              var lanes := old(storage.outboundLanes);
              var before := Outbound(lanes[laneId], old(QueueOf(storage.outboundMessages, laneId)));
              var after := AfterPrunes(before, r.value.pruned);
              && r.value.pruned == AtMost(mayPrune, QueueLength(before.data))
              && (r.value.Purged? <==> QueueLength(after.data) == 0)
              && QueueOf(storage.outboundMessages, laneId) == after.messages
              && OtherLanes(storage.outboundMessages, laneId) == old(OtherLanes(storage.outboundMessages, laneId))
              && storage.outboundLanes ==
                 if r.value.Purged? then lanes - {laneId} else lanes[laneId := after.data.(state := Closed)]
    ensures r.Ok? ==>
              var lanes := old(storage.inboundLanes);
              storage.inboundLanes ==
                if r.value.Purged? then lanes - {laneId} else lanes[laneId := lanes[laneId].(state := Closed)]
    ensures r.Err? ==> unchanged(storage)
  {
    if laneId !in storage.inboundLanes {
      return Err(UnknownLane(UnknownInboundLane));
    }
    if laneId !in storage.outboundLanes {
      return Err(UnknownLane(UnknownOutboundLane));
    }
    var savedLanes, savedMessages := storage.outboundLanes, storage.outboundMessages;
    var inbound := new InboundLane(storage, laneId, limits);
    var outbound := new OutboundLane(storage, laneId, overflowChecks);
    var pruned, done := PruneQueue(outbound, mayPrune);
    if !done {
      storage.outboundLanes, storage.outboundMessages := savedLanes, savedMessages;
      return Err(ArithmeticOverflow);
    }
    if QueueLength(outbound.cachedData) != 0 {
      inbound.SetState(Closed);
      outbound.SetState(Closed);
      return Ok(Pending(pruned));
    }
    inbound.Purge();
    outbound.Purge();
    return Ok(Purged(pruned));
  }
}
