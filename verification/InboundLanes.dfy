/** The target end of a lane: it dispatches messages in nonce order and remembers which
    relayer delivered which range (bridges/modules/messages/src/inbound_lane.rs). */
module InboundLanes {
  import opened Wrappers
  import opened LaneTypes
  import opened LaneStorage

  datatype ReceptionResult =
    | Dispatched
    | InvalidNonce
    | TooManyUnrewardedRelayers
    | TooManyUnconfirmedMessages

  // ---------- What the two operations compute

  /** Removes the leading entries that lie entirely at or below `confirmed`. */
  function DropConfirmed(relayers: seq<UnrewardedRelayer>, confirmed: Nonce): (r: seq<UnrewardedRelayer>)
    ensures r != [] ==> confirmed < r[0].messages.end
    ensures |r| <= |relayers|
  {
    if relayers != [] && relayers[0].messages.end <= confirmed
    then DropConfirmed(relayers[1..], confirmed)
    else relayers
  }

  /** Cuts the confirmed part off the first entry. */
  function TrimFront(relayers: seq<UnrewardedRelayer>, confirmed: Nonce): (r: seq<UnrewardedRelayer>)
    requires relayers != [] ==> confirmed < relayers[0].messages.end
    ensures |r| == |relayers|
  {
    if relayers != [] && relayers[0].messages.begin <= confirmed
    then relayers[0 := relayers[0].(messages := relayers[0].messages.(begin := confirmed + 1))]
    else relayers
  }

  /** A state update is taken only when it moves the confirmed nonce forward without passing
      the last delivered one. */
  predicate Applies(lane: InboundLaneData, received: Nonce) {
    lane.lastConfirmed < received <= lane.LastDelivered()
  }

  function AfterStateUpdate(lane: InboundLaneData, received: Nonce): InboundLaneData {
    if Applies(lane, received)
    then lane.(lastConfirmed := received,
               relayers := TrimFront(DropConfirmed(lane.relayers, received), received))
    else lane
  }

  function Reception(limits: Limits, lane: InboundLaneData, nonce: Nonce): ReceptionResult {
    if Some(nonce) != CheckedInc(lane.LastDelivered()) then InvalidNonce
    else if |lane.relayers| >= limits.maxUnrewardedRelayers then TooManyUnrewardedRelayers
    else if SaturatingSub(nonce, lane.lastConfirmed) > limits.maxUnconfirmedMessages
    then TooManyUnconfirmedMessages
    else Dispatched
  }

  /** The relayers after `relayer` has delivered the next nonce. */
  function NoteDelivery(relayers: seq<UnrewardedRelayer>, relayer: AccountId, nonce: Nonce)
    : seq<UnrewardedRelayer>
  {
    var last := |relayers| - 1;
    if relayers != [] && relayers[last].relayer == relayer
    then relayers[last := relayers[last].(messages := relayers[last].messages.(end := nonce))]
    else relayers + [UnrewardedRelayer(relayer, DeliveredMessages(nonce, nonce))]
  }

  function AfterMessage(limits: Limits, lane: InboundLaneData, relayer: AccountId, nonce: Nonce)
    : InboundLaneData
  {
    if Reception(limits, lane, nonce).Dispatched?
    then lane.(relayers := NoteDelivery(lane.relayers, relayer, nonce))
    else lane
  }

  /** The lane after a batch, and the messages of the batch that it has dispatched. */
  function AfterBatch(limits: Limits, lane: InboundLaneData, relayer: AccountId, batch: seq<Message>)
    : (r: (InboundLaneData, seq<Message>))
  {
    if batch == [] then (lane, [])
    else
      var (before, accepted) := AfterBatch(limits, lane, relayer, batch[..|batch| - 1]);
      var message := batch[|batch| - 1];
      (AfterMessage(limits, before, relayer, message.nonce),
       if Reception(limits, before, message.nonce).Dispatched? then accepted + [message] else accepted)
  }

  // ---------- The invariant of the relayers deque

  /** The entries are non-empty, follow each other without gaps, and start after `confirmed`. */
  ghost predicate Consecutive(relayers: seq<UnrewardedRelayer>, confirmed: nat) {
    relayers == [] ||
    (&& relayers[0].messages.begin == confirmed + 1
     && relayers[0].messages.begin <= relayers[0].messages.end
     && Consecutive(relayers[1..], relayers[0].messages.end))
  }

  /** The end of the last entry. */
  ghost function Last(relayers: seq<UnrewardedRelayer>, confirmed: nat): nat {
    if relayers == [] then confirmed else relayers[|relayers| - 1].messages.end
  }

  /** The entries partition `(lastConfirmed, LastDelivered()]` within both limits. */
  ghost predicate WellFormed(limits: Limits, lane: InboundLaneData) {
    && Consecutive(lane.relayers, lane.lastConfirmed)
    && |lane.relayers| <= limits.maxUnrewardedRelayers
    && lane.LastDelivered() <= lane.lastConfirmed + limits.maxUnconfirmedMessages
  }

  /** The relayer of the first entry that lists `nonce`. */
  ghost function OwnerOf(relayers: seq<UnrewardedRelayer>, nonce: nat): Option<AccountId> {
    if relayers == [] then None
    else if relayers[0].messages.Contains(nonce) then Some(relayers[0].relayer)
    else OwnerOf(relayers[1..], nonce)
  }

  ghost predicate Lists(relayers: seq<UnrewardedRelayer>, i: int, nonce: nat) {
    0 <= i < |relayers| && relayers[i].messages.Contains(nonce)
  }

  /** An entry per message at least, and owners exactly on `(confirmed, last]`. */
  lemma {:induction false} OwnedRange(relayers: seq<UnrewardedRelayer>, confirmed: nat)
    requires Consecutive(relayers, confirmed)
    ensures confirmed + |relayers| <= Last(relayers, confirmed)
    ensures forall n: nat :: OwnerOf(relayers, n).Some? <==> confirmed < n <= Last(relayers, confirmed)
  {
    if relayers != [] {
      OwnedRange(relayers[1..], relayers[0].messages.end);
    }
  }

  /** Each nonce between the confirmed and the last delivered one lies in exactly one entry,
      the one that `OwnerOf` reads. */
  lemma {:induction false} ExactlyOneEntry(relayers: seq<UnrewardedRelayer>, confirmed: nat, nonce: nat)
    requires Consecutive(relayers, confirmed)
    requires confirmed < nonce <= Last(relayers, confirmed)
    ensures exists i :: Lists(relayers, i, nonce) && Some(relayers[i].relayer) == OwnerOf(relayers, nonce)
    ensures forall i, j :: Lists(relayers, i, nonce) && Lists(relayers, j, nonce) ==> i == j
  {
    var rest := relayers[1..];
    OwnedRange(rest, relayers[0].messages.end);
    if relayers[0].messages.Contains(nonce) {
      assert Lists(relayers, 0, nonce);
      forall i | Lists(relayers, i, nonce)
        ensures i == 0
      {
        if 0 < i {
          NotListedBefore(rest, relayers[0].messages.end, i - 1, nonce);
        }
      }
    } else {
      ExactlyOneEntry(rest, relayers[0].messages.end, nonce);
      var k :| Lists(rest, k, nonce) && Some(rest[k].relayer) == OwnerOf(rest, nonce);
      assert Lists(relayers, k + 1, nonce);
      forall i | Lists(relayers, i, nonce)
        ensures i == k + 1
      {
        assert Lists(rest, i - 1, nonce);
      }
    }
  }

  lemma {:induction false} NotListedBefore(relayers: seq<UnrewardedRelayer>, confirmed: nat, i: nat, nonce: nat)
    requires Consecutive(relayers, confirmed)
    requires i < |relayers| && nonce <= confirmed
    ensures nonce < relayers[i].messages.begin
  {
    if 0 < i {
      NotListedBefore(relayers[1..], relayers[0].messages.end, i - 1, nonce);
    }
  }

  lemma {:induction false} DropKeeps(relayers: seq<UnrewardedRelayer>, confirmed: nat, received: Nonce)
    requires Consecutive(relayers, confirmed)
    requires confirmed < received <= Last(relayers, confirmed)
    ensures
      var kept := DropConfirmed(relayers, received);
      && (kept == [] ==> received == Last(relayers, confirmed))
      && (kept != [] ==> Last(kept, received) == Last(relayers, confirmed))
      && (kept != [] ==> kept[0].messages.begin <= received + 1 && Consecutive(kept[1..], kept[0].messages.end))
      && forall n: nat :: received < n ==> OwnerOf(kept, n) == OwnerOf(relayers, n)
  {
    if relayers[0].messages.end < received {
      DropKeeps(relayers[1..], relayers[0].messages.end, received);
    } else if relayers[0].messages.end == received {
      OwnedRange(relayers[1..], received);
      if |relayers| > 1 {
        assert DropConfirmed(relayers[1..], received) == relayers[1..];
      }
    }
  }

  lemma TrimKeeps(kept: seq<UnrewardedRelayer>, received: Nonce)
    requires kept != [] ==>
               && kept[0].messages.begin <= received + 1 <= kept[0].messages.end
               && Consecutive(kept[1..], kept[0].messages.end)
    ensures
      var trimmed := TrimFront(kept, received);
      && Consecutive(trimmed, received)
      && Last(trimmed, received) == Last(kept, received)
      && forall n: nat :: received < n ==> OwnerOf(trimmed, n) == OwnerOf(kept, n)
  {
  }

  /** A state update keeps the partition, the last delivered nonce and the relayer of every
      message that stays unconfirmed, and forgets exactly the confirmed ones. */
  lemma StateUpdateKeepsPartition(limits: Limits, lane: InboundLaneData, received: Nonce)
    requires WellFormed(limits, lane)
    ensures
      var after := AfterStateUpdate(lane, received);
      && WellFormed(limits, after)
      && after.state == lane.state
      && after.LastDelivered() == lane.LastDelivered()
      && lane.lastConfirmed <= after.lastConfirmed
      && (Applies(lane, received) ==> after.lastConfirmed == received)
      && forall n: nat :: OwnerOf(after.relayers, n) ==
           if n <= after.lastConfirmed then None else OwnerOf(lane.relayers, n)
  {
    var after := AfterStateUpdate(lane, received);
    OwnedRange(lane.relayers, lane.lastConfirmed);
    if Applies(lane, received) {
      DropKeeps(lane.relayers, lane.lastConfirmed, received);
      TrimKeeps(DropConfirmed(lane.relayers, received), received);
      OwnedRange(after.relayers, received);
    }
  }

  lemma {:induction false} NoteDeliveryKeeps(
    relayers: seq<UnrewardedRelayer>, confirmed: nat, relayer: AccountId, nonce: Nonce)
    requires Consecutive(relayers, confirmed)
    requires nonce == Last(relayers, confirmed) + 1
    ensures
      var after := NoteDelivery(relayers, relayer, nonce);
      && Consecutive(after, confirmed)
      && Last(after, confirmed) == nonce
      && forall n: nat :: OwnerOf(after, n) == if n == nonce then Some(relayer) else OwnerOf(relayers, n)
  {
    OwnedRange(relayers, confirmed);
    var after := NoteDelivery(relayers, relayer, nonce);
    if |relayers| > 1 {
      NoteDeliveryKeeps(relayers[1..], relayers[0].messages.end, relayer, nonce);
      var last := |relayers| - 1;
      assert relayers[1..][last - 1] == relayers[last];
      if relayers[last].relayer != relayer {
        assert after[1..] == relayers[1..] + [after[|relayers|]];
      }
      assert after[1..] == NoteDelivery(relayers[1..], relayer, nonce);
      forall n: nat
        ensures OwnerOf(after, n) == if n == nonce then Some(relayer) else OwnerOf(relayers, n)
      {
        assert OwnerOf(after[1..], n) == if n == nonce then Some(relayer) else OwnerOf(relayers[1..], n);
        assert OwnerOf(relayers, nonce) == None;
      }
    } else if |relayers| == 1 {
      assert after[1..] == [] || after[1..] == [UnrewardedRelayer(relayer, DeliveredMessages(nonce, nonce))];
    }
  }

  /** A dispatched message extends the partition by exactly its nonce, for its relayer; any
      other leaves the lane as it was. */
  lemma MessageKeepsPartition(limits: Limits, lane: InboundLaneData, relayer: AccountId, nonce: Nonce)
    requires WellFormed(limits, lane)
    ensures
      var after := AfterMessage(limits, lane, relayer, nonce);
      && WellFormed(limits, after)
      && after.state == lane.state && after.lastConfirmed == lane.lastConfirmed
      && if Reception(limits, lane, nonce).Dispatched?
         then nonce == after.LastDelivered() == lane.LastDelivered() + 1
              && forall n: nat :: OwnerOf(after.relayers, n) ==
                   if n == nonce then Some(relayer) else OwnerOf(lane.relayers, n)
         else after == lane
  {
    if Reception(limits, lane, nonce).Dispatched? {
      OwnedRange(lane.relayers, lane.lastConfirmed);
      NoteDeliveryKeeps(lane.relayers, lane.lastConfirmed, relayer, nonce);
    }
  }

  /** The next message, and no other, is dispatched if a relayer entry and a message slot are free;
      otherwise the answer names what is not. */
  lemma ReceptionExactly(limits: Limits, lane: InboundLaneData, nonce: Nonce)
    requires WellFormed(limits, lane)
    ensures
      var answer, isNext := Reception(limits, lane, nonce), nonce == lane.LastDelivered() + 1;
      var entriesTaken := |lane.relayers| == limits.maxUnrewardedRelayers;
      var slotsTaken := lane.LastDelivered() == lane.lastConfirmed + limits.maxUnconfirmedMessages;
      && (answer == Dispatched <==> isNext && !entriesTaken && !slotsTaken)
      && (answer == InvalidNonce <==> !isNext)
      && (answer == TooManyUnrewardedRelayers <==> isNext && entriesTaken)
      && (answer == TooManyUnconfirmedMessages <==> isNext && !entriesTaken && slotsTaken)
  {
    OwnedRange(lane.relayers, lane.lastConfirmed);
  }

  /** What the summary of a lane says: how many messages are unconfirmed, and how many of them have to be
      confirmed, at the least, to free a relayer entry. */
  lemma SummaryMeans(limits: Limits, lane: InboundLaneData, received: Nonce)
    requires WellFormed(limits, lane)
    ensures
      var summary, after := Summary(lane), AfterStateUpdate(lane, received);
      && summary.lastDelivered == lane.LastDelivered()
      && summary.totalMessages == lane.LastDelivered() - lane.lastConfirmed
      && summary.unrewardedRelayerEntries <= summary.totalMessages
      && (Applies(lane, received) ==>
            (|after.relayers| < summary.unrewardedRelayerEntries <==>
               lane.lastConfirmed + summary.messagesInOldestEntry <= received))
  {
    OwnedRange(lane.relayers, lane.lastConfirmed);
    if lane.relayers != [] && lane.relayers[0].messages.end <= received {
      assert |DropConfirmed(lane.relayers[1..], received)| <= |lane.relayers| - 1;
    }
  }

  /** The lane has gone on by exactly the accepted messages of the batch, which follow it one by
      one, and has noted the relayer for them and nobody else for anything. */
  ghost predicate TakesUp(
    lane: InboundLaneData, relayer: AccountId, batch: seq<Message>, after: InboundLaneData, accepted: seq<Message>)
  {
    && after.state == lane.state && after.lastConfirmed == lane.lastConfirmed
    && after.LastDelivered() == lane.LastDelivered() + |accepted|
    && (forall i :: 0 <= i < |accepted| ==>
          accepted[i] in batch && accepted[i].nonce == lane.LastDelivered() + 1 + i)
    && forall n: nat :: OwnerOf(after.relayers, n) ==
         if lane.LastDelivered() < n <= after.LastDelivered() then Some(relayer)
         else OwnerOf(lane.relayers, n)
  }

  /** A batch appends a run of consecutive messages, all for its relayer. */
  lemma {:induction false} BatchKeepsPartition(
    limits: Limits, lane: InboundLaneData, relayer: AccountId, batch: seq<Message>)
    requires WellFormed(limits, lane)
    ensures
      var (after, accepted) := AfterBatch(limits, lane, relayer, batch);
      WellFormed(limits, after) && TakesUp(lane, relayer, batch, after, accepted)
  {
    if batch != [] {
      var prefix := batch[..|batch| - 1];
      BatchKeepsPartition(limits, lane, relayer, prefix);
      var (before, accepted) := AfterBatch(limits, lane, relayer, prefix);
      MessageKeepsPartition(limits, before, relayer, batch[|batch| - 1].nonce);
    }
  }

  // ---------- A batch in closed form

  ghost predicate IsRange(batch: seq<Message>, first: nat, last: int) {
    && |batch| == (if first <= last then last - first + 1 else 0)
    && forall i :: 0 <= i < |batch| ==> batch[i].nonce == first + i
  }

  predicate OwnsLastEntry(lane: InboundLaneData, relayer: AccountId) {
    lane.relayers != [] && lane.relayers[|lane.relayers| - 1].relayer == relayer
  }

  /** Where delivering `first..=last` moves the last delivered nonce: nowhere unless the range
      covers the next nonce and a relayer entry and a message slot are free; by one message when
      that message takes the last relayer entry; up to the end of the range or of the message
      slots otherwise. */
  function BatchTarget(limits: Limits, lane: InboundLaneData, relayer: AccountId, first: nat, last: int): int {
    var delivered := lane.LastDelivered();
    var slotsEnd := lane.lastConfirmed + limits.maxUnconfirmedMessages;
    if !(first <= delivered + 1 <= last) || |lane.relayers| >= limits.maxUnrewardedRelayers || delivered >= slotsEnd
    then delivered
    else if !OwnsLastEntry(lane, relayer) && |lane.relayers| + 1 == limits.maxUnrewardedRelayers
    then delivered + 1
    else if last <= slotsEnd then last else slotsEnd
  }

  /** What the closed form says about the lane and the messages that it takes. */
  ghost predicate ReachesTarget(
    lane: InboundLaneData, relayer: AccountId, batch: seq<Message>, first: nat, last: int,
    target: int, after: InboundLaneData, accepted: seq<Message>)
  {
    && after.LastDelivered() == target
    && if target == lane.LastDelivered()
       then after == lane && accepted == []
       else
         && first <= lane.LastDelivered() + 1 <= target <= last
         && IsRange(batch, first, last)
         && after.lastConfirmed == lane.lastConfirmed
         && OwnsLastEntry(after, relayer)
         && |after.relayers| == |lane.relayers| + (if OwnsLastEntry(lane, relayer) then 0 else 1)
         && accepted == batch[lane.LastDelivered() + 1 - first..target + 1 - first]
  }

  /** The loop over a range equals the closed form, and what it dispatches is the matching
      slice of the range. */
  lemma {:induction false} BatchClosedForm(
    limits: Limits, lane: InboundLaneData, relayer: AccountId, batch: seq<Message>, first: nat, last: int)
    requires WellFormed(limits, lane)
    requires IsRange(batch, first, last)
    ensures
      var (after, accepted) := AfterBatch(limits, lane, relayer, batch);
      ReachesTarget(lane, relayer, batch, first, last,
                    BatchTarget(limits, lane, relayer, first, last), after, accepted)
  {
    if batch != [] {
      var prefix := batch[..|batch| - 1];
      BatchClosedForm(limits, lane, relayer, prefix, first, last - 1);
      OwnedRange(lane.relayers, lane.lastConfirmed);
      var (before, accepted) := AfterBatch(limits, lane, relayer, prefix);
      ClosedFormStep(limits, lane, relayer, batch, first, last, before, accepted);
    }
  }

  lemma ClosedFormStep(
    limits: Limits, lane: InboundLaneData, relayer: AccountId, batch: seq<Message>, first: nat, last: int,
    before: InboundLaneData, accepted: seq<Message>)
    requires lane.lastConfirmed <= lane.LastDelivered()
    requires IsRange(batch, first, last) && first <= last
    requires ReachesTarget(lane, relayer, batch[..|batch| - 1], first, last - 1,
                           BatchTarget(limits, lane, relayer, first, last - 1), before, accepted)
    ensures
      var message := batch[|batch| - 1];
      ReachesTarget(lane, relayer, batch, first, last, BatchTarget(limits, lane, relayer, first, last),
        AfterMessage(limits, before, relayer, message.nonce),
        if Reception(limits, before, message.nonce).Dispatched? then accepted + [message] else accepted)
  {
    var message := batch[|batch| - 1];
    var delivered := lane.LastDelivered();
    var before' := BatchTarget(limits, lane, relayer, first, last - 1);
    var target := BatchTarget(limits, lane, relayer, first, last);
    assert message.nonce == last;
    if Reception(limits, before, message.nonce).Dispatched? {
      assert target == last == before' + 1;
      assert accepted + [message] == batch[delivered + 1 - first..target + 1 - first];
    } else {
      assert target == before';
    }
  }

  // ---------- The lane object

  /** An inbound lane of a pallet, with its data cached. */
  class InboundLane {
    const storage: PalletStorage
    const laneId: LaneId
    const limits: Limits
    var cachedData: InboundLaneData

    ghost predicate Valid()
      reads this, storage
    {
      laneId in storage.inboundLanes && storage.inboundLanes[laneId] == cachedData
    }

    constructor (storage: PalletStorage, laneId: LaneId, limits: Limits)
      requires laneId in storage.inboundLanes
      ensures Valid()
      ensures this.storage == storage && this.laneId == laneId && this.limits == limits
    {
      this.storage, this.laneId, this.limits := storage, laneId, limits;
      cachedData := storage.inboundLanes[laneId];
    }

    method SetData(data: InboundLaneData)
      modifies this`cachedData, storage`inboundLanes
      ensures cachedData == data
      ensures storage.inboundLanes == old(storage.inboundLanes)[laneId := data]
    {
      cachedData := data;
      storage.inboundLanes := storage.inboundLanes[laneId := data];
    }

    method SetState(state: LaneState)
      requires Valid()
      modifies this`cachedData, storage`inboundLanes
      ensures Valid()
      ensures cachedData == old(cachedData).(state := state)
      ensures storage.inboundLanes == old(storage.inboundLanes)[laneId := cachedData]
    {
      SetData(cachedData.(state := state));
    }

    /** Forgets the lane. */
    method Purge()
      modifies storage`inboundLanes
      ensures storage.inboundLanes == old(storage.inboundLanes) - {laneId}
    {
      storage.inboundLanes := storage.inboundLanes - {laneId};
    }

    /** Takes the confirmed nonce from the state of the outbound lane. */
    method ReceiveStateUpdate(outboundLaneData: OutboundLaneData) returns (r: Option<Nonce>)
      requires Valid()
      modifies this`cachedData, storage`inboundLanes
      ensures Valid()
      ensures r == if Applies(old(cachedData), outboundLaneData.latestReceived)
                   then Some(outboundLaneData.latestReceived) else None
      ensures cachedData == AfterStateUpdate(old(cachedData), outboundLaneData.latestReceived)
      ensures storage.inboundLanes == old(storage.inboundLanes)[laneId := cachedData]
    {
      var data := cachedData;
      if outboundLaneData.latestReceived > data.LastDelivered() {
        return None;
      }
      if outboundLaneData.latestReceived <= data.lastConfirmed {
        return None;
      }
      var newConfirmed := outboundLaneData.latestReceived;
      data := data.(lastConfirmed := newConfirmed);
      while data.relayers != [] && data.relayers[0].messages.end <= newConfirmed
        invariant DropConfirmed(data.relayers, newConfirmed) == DropConfirmed(cachedData.relayers, newConfirmed)
        invariant data == cachedData.(lastConfirmed := newConfirmed, relayers := data.relayers)
        decreases |data.relayers|
      {
        data := data.(relayers := data.relayers[1..]);
      }
      if data.relayers != [] && data.relayers[0].messages.begin <= newConfirmed {
        var front := data.relayers[0];
        data := data.(relayers := data.relayers[0 := front.(messages := front.messages.(begin := newConfirmed + 1))]);
      }
      SetData(data);
      return Some(newConfirmed);
    }

    /** Dispatches `message` if it is the next one and there is room for it. */
    method ReceiveMessage(relayer: AccountId, message: Message) returns (r: ReceptionResult)
      requires Valid()
      modifies this`cachedData, storage`inboundLanes, storage`dispatched
      ensures Valid()
      ensures r == Reception(limits, old(cachedData), message.nonce)
      ensures cachedData == AfterMessage(limits, old(cachedData), relayer, message.nonce)
      ensures storage.inboundLanes == old(storage.inboundLanes)[laneId := cachedData]
      ensures storage.dispatched == old(storage.dispatched) +
                if r.Dispatched? then [DispatchedMessage(laneId, message)] else []
    {
      var data := cachedData;
      if Some(message.nonce) != CheckedInc(data.LastDelivered()) {
        return InvalidNonce;
      }
      if |data.relayers| >= limits.maxUnrewardedRelayers {
        return TooManyUnrewardedRelayers;
      }
      if SaturatingSub(message.nonce, data.lastConfirmed) > limits.maxUnconfirmedMessages {
        return TooManyUnconfirmedMessages;
      }
      storage.dispatched := storage.dispatched + [DispatchedMessage(laneId, message)];
      var last := |data.relayers| - 1;
      if data.relayers != [] && data.relayers[last].relayer == relayer {
        var back := data.relayers[last];
        var longer := back.(messages := back.messages.(end := back.messages.end + 1));
        data := data.(relayers := data.relayers[last := longer]);
      } else {
        var entry := UnrewardedRelayer(relayer, DeliveredMessages(message.nonce, message.nonce));
        data := data.(relayers := data.relayers + [entry]);
      }
      SetData(data);
      return Dispatched;
    }
  }
}
