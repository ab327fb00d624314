/** The source end of a lane: it numbers the messages, keeps them until their delivery is
    confirmed and prunes them then (bridges/modules/messages/src/outbound_lane.rs). */
module OutboundLanes {
  import opened Wrappers
  import opened LaneTypes
  import opened LaneStorage
  import InboundLanes

  datatype ReceptionConfirmationError =
    | FailedToConfirmFutureMessages
    | EmptyUnrewardedRelayerEntry
    | NonConsecutiveUnrewardedRelayerEntries
    | TryingToConfirmMoreMessagesThanExpected

  /** One outbound lane: its counters and the payloads that are still stored for it. */
  datatype Outbound = Outbound(data: OutboundLaneData, messages: map<Nonce, Payload>)

  // ---------- What the operations compute

  /** A message is stored under a nonce, which becomes the latest one. */
  function AfterSendAs(lane: Outbound, nonce: Nonce, payload: Payload): Outbound {
    Outbound(lane.data.(latestGenerated := nonce), lane.messages[nonce := payload])
  }

  function AfterSend(lane: Outbound, payload: Payload): Outbound
    requires lane.data.latestGenerated < MAX_NONCE
  {
    AfterSendAs(lane, lane.data.latestGenerated + 1, payload)
  }

  function AfterPruneOldest(lane: Outbound): Outbound {
    var oldest := lane.data.oldestUnpruned;
    Outbound(lane.data.(oldestUnpruned := if oldest < MAX_NONCE then oldest + 1 else 0), lane.messages - {oldest})
  }

  /** The first defect of a relayers vector whose next entry has to begin at `expected`. */
  function RelayersError(relayers: seq<UnrewardedRelayer>, expected: Option<Nonce>, latest: Nonce)
    : Option<ReceptionConfirmationError>
  {
    if relayers == [] then None
    else
      var range := relayers[0].messages;
      if range.end < range.begin then Some(EmptyUnrewardedRelayerEntry)
      else if expected != Some(range.begin) then Some(NonConsecutiveUnrewardedRelayerEntries)
      else if range.end > latest then Some(FailedToConfirmFutureMessages)
      else RelayersError(relayers[1..], CheckedInc(range.end), latest)
  }

  function FrontBegin(relayers: seq<UnrewardedRelayer>): Option<Nonce> {
    if relayers == [] then None else Some(relayers[0].messages.begin)
  }

  /** The payloads without those of the nonces `begin <= n < bound`. */
  function Pruned(messages: map<Nonce, Payload>, begin: nat, bound: nat): map<Nonce, Payload> {
    map n | n in messages && !(begin <= n < bound) :: messages[n]
  }

  /** What a confirmation finds: nothing new, a range of newly confirmed messages, or an error. */
  function Confirmation(
    lane: OutboundLaneData, maxAllowed: Nonce, latestDelivered: Nonce, relayers: seq<UnrewardedRelayer>)
    : Result<Option<DeliveredMessages>, ReceptionConfirmationError>
  {
    var confirmed := DeliveredMessages(SaturatingInc(lane.latestReceived), latestDelivered);
    if confirmed.TotalMessages() == 0 then Ok(None)
    else if confirmed.end > lane.latestGenerated then Err(FailedToConfirmFutureMessages)
    else if confirmed.TotalMessages() > maxAllowed then Err(TryingToConfirmMoreMessagesThanExpected)
    else
      match RelayersError(relayers, FrontBegin(relayers), confirmed.end)
      case Some(error) => Err(error)
      case None => Ok(Some(confirmed))
  }

  /** What confirming a proved lane finds, with the number of messages that the lane lists. */
  function ConfirmationOf(lane: OutboundLaneData, proved: InboundLaneData)
    : Result<Option<DeliveredMessages>, ReceptionConfirmationError>
  {
    Confirmation(lane, proved.TotalUnrewardedMessages(), proved.LastDelivered(), proved.relayers)
  }

  function AfterConfirmation(lane: Outbound, found: Result<Option<DeliveredMessages>, ReceptionConfirmationError>)
    : Outbound
  {
    if found.Ok? && found.value.Some?
    then
      var range := found.value.value;
      Outbound(lane.data.(latestReceived := range.end, oldestUnpruned := SaturatingInc(range.end)),
               Pruned(lane.messages, range.begin, range.end + 1))
    else lane
  }

  /** A relayers vector passes the check exactly when it is a gapless run of non-empty entries
      that ends at or below `latest`. */
  lemma {:induction false} RelayersErrorFree(relayers: seq<UnrewardedRelayer>, confirmed: nat, latest: Nonce)
    requires relayers != [] ==> confirmed + 1 <= MAX_NONCE
    ensures
      var expected := if relayers == [] then None else Some(confirmed + 1);
      RelayersError(relayers, expected, latest) == None <==>
      && InboundLanes.Consecutive(relayers, confirmed)
      && (relayers == [] || InboundLanes.Last(relayers, confirmed) <= latest)
  {
    if relayers != [] {
      var end := relayers[0].messages.end;
      if end < MAX_NONCE {
        RelayersErrorFree(relayers[1..], end, latest);
      }
      if InboundLanes.Consecutive(relayers, confirmed) {
        InboundLanes.OwnedRange(relayers[1..], end);
      }
      if |relayers| > 1 && end == MAX_NONCE {
        assert relayers[1..][0].messages.begin <= MAX_NONCE;
      }
    }
  }

  // ---------- When a confirmation is in order

  /** What is wrong with entry `i` of a relayers vector, if anything is. */
  ghost function DefectAt(relayers: seq<UnrewardedRelayer>, i: int, latest: Nonce): Option<ReceptionConfirmationError>
    requires 0 <= i < |relayers|
  {
    var range := relayers[i].messages;
    if range.end < range.begin then Some(EmptyUnrewardedRelayerEntry)
    else if 0 < i && range.begin != relayers[i - 1].messages.end + 1 then Some(NonConsecutiveUnrewardedRelayerEntries)
    else if latest < range.end then Some(FailedToConfirmFutureMessages)
    else None
  }

  ghost predicate SoundBefore(relayers: seq<UnrewardedRelayer>, bound: int, latest: Nonce) {
    forall j :: 0 <= j < bound && j < |relayers| ==> DefectAt(relayers, j, latest).None?
  }

  /** The first entry with a defect has this one. */
  ghost predicate FirstDefectIs(relayers: seq<UnrewardedRelayer>, latest: Nonce, error: ReceptionConfirmationError) {
    exists i :: 0 <= i < |relayers| && SoundBefore(relayers, i, latest) && DefectAt(relayers, i, latest) == Some(error)
  }

  lemma {:induction false} FirstDefectFrom(relayers: seq<UnrewardedRelayer>, i: nat, latest: Nonce)
    requires i <= |relayers| && SoundBefore(relayers, i, latest)
    ensures
      var expected := if i == 0 then FrontBegin(relayers) else CheckedInc(relayers[i - 1].messages.end);
      match RelayersError(relayers[i..], expected, latest)
      case None => SoundBefore(relayers, |relayers|, latest)
      case Some(error) => FirstDefectIs(relayers, latest, error)
    decreases |relayers| - i
  {
    if i < |relayers| {
      assert relayers[i..][0] == relayers[i] && relayers[i..][1..] == relayers[i + 1..];
      var defect := DefectAt(relayers, i, latest);
      if defect.None? {
        FirstDefectFrom(relayers, i + 1, latest);
      } else {
        assert FirstDefectIs(relayers, latest, defect.value);
      }
    }
  }

  lemma OneFirstDefect(
    relayers: seq<UnrewardedRelayer>, latest: Nonce, a: ReceptionConfirmationError, b: ReceptionConfirmationError)
    requires FirstDefectIs(relayers, latest, a) && FirstDefectIs(relayers, latest, b)
    ensures a == b && !SoundBefore(relayers, |relayers|, latest)
  {
    var i :| 0 <= i < |relayers| && SoundBefore(relayers, i, latest) && DefectAt(relayers, i, latest) == Some(a);
    var j :| 0 <= j < |relayers| && SoundBefore(relayers, j, latest) && DefectAt(relayers, j, latest) == Some(b);
    assert !(i < j) && !(j < i);
  }

  /** A relayers vector is answered with the defect of the first entry that has one. */
  lemma AnswersFirstDefect(relayers: seq<UnrewardedRelayer>, latest: Nonce, error: ReceptionConfirmationError)
    ensures
      var found := RelayersError(relayers, FrontBegin(relayers), latest);
      && (found == None <==> SoundBefore(relayers, |relayers|, latest))
      && (found == Some(error) <==> FirstDefectIs(relayers, latest, error))
  {
    assert relayers[0..] == relayers;
    FirstDefectFrom(relayers, 0, latest);
    var found := RelayersError(relayers, FrontBegin(relayers), latest);
    if found.Some? {
      OneFirstDefect(relayers, latest, found.value, found.value);
    }
    if FirstDefectIs(relayers, latest, error) {
      OneFirstDefect(relayers, latest, error, error);
      OneFirstDefect(relayers, latest, error, found.value);
    }
  }

  /** The nonces between the received and the delivered one are generated, and no more than allowed. */
  predicate InOrder(lane: OutboundLaneData, maxAllowed: Nonce, latestDelivered: Nonce) {
    && lane.latestReceived < latestDelivered <= lane.latestGenerated
    && latestDelivered <= lane.latestReceived + maxAllowed
  }

  /** Whatever the lane and the proof: below the largest nonce, messages are newly confirmed if and only if
      they were generated and not received yet, are no more than allowed, and the relayers are a gapless
      run of non-empty entries up to the delivered nonce. Otherwise the error names the first reason. */
  lemma ConfirmationExactly(
    lane: OutboundLaneData, maxAllowed: Nonce, latestDelivered: Nonce, relayers: seq<UnrewardedRelayer>,
    error: ReceptionConfirmationError)
    requires lane.latestReceived < MAX_NONCE
    ensures
      var found := Confirmation(lane, maxAllowed, latestDelivered, relayers);
      && (found == Ok(None) <==> latestDelivered <= lane.latestReceived)
      && (found.Ok? && found.value.Some? <==>
            InOrder(lane, maxAllowed, latestDelivered) && SoundBefore(relayers, |relayers|, latestDelivered))
      && (found.Ok? && found.value.Some? ==>
            found.value.value == DeliveredMessages(lane.latestReceived + 1, latestDelivered))
      && (found == Err(error) <==>
            || (InOrder(lane, maxAllowed, latestDelivered) && FirstDefectIs(relayers, latestDelivered, error))
            || (&& error == FailedToConfirmFutureMessages
                && lane.latestReceived < latestDelivered && lane.latestGenerated < latestDelivered)
            || (&& error == TryingToConfirmMoreMessagesThanExpected
                && lane.latestReceived + maxAllowed < latestDelivered <= lane.latestGenerated))
  {
    AnswersFirstDefect(relayers, latestDelivered, error);
  }

  /** Once the largest nonce is received, it can be confirmed again, as a single message. */
  lemma ConfirmationAtTheEnd(
    lane: OutboundLaneData, maxAllowed: Nonce, latestDelivered: Nonce, relayers: seq<UnrewardedRelayer>,
    error: ReceptionConfirmationError)
    requires lane.latestReceived == MAX_NONCE
    ensures
      var found := Confirmation(lane, maxAllowed, latestDelivered, relayers);
      var again := latestDelivered == MAX_NONCE == lane.latestGenerated && 0 < maxAllowed;
      && (found == Ok(None) <==> latestDelivered < MAX_NONCE)
      && (found.Ok? && found.value.Some? <==> again && SoundBefore(relayers, |relayers|, latestDelivered))
      && (found.Ok? && found.value.Some? ==> found.value.value == DeliveredMessages(MAX_NONCE, MAX_NONCE))
      && (found == Err(error) <==>
            || (again && FirstDefectIs(relayers, latestDelivered, error))
            || (error == FailedToConfirmFutureMessages && lane.latestGenerated < latestDelivered == MAX_NONCE)
            || (&& error == TryingToConfirmMoreMessagesThanExpected
                && latestDelivered == MAX_NONCE == lane.latestGenerated && maxAllowed == 0))
  {
    AnswersFirstDefect(relayers, latestDelivered, error);
  }

  // ---------- The lane object

  /** The payloads that `messages` holds for one lane, by nonce. */
  ghost function QueueOf(messages: map<MessageKey, Payload>, laneId: LaneId): map<Nonce, Payload> {
    map n: Nonce | n <= MAX_NONCE && MessageKey(laneId, n) in messages :: messages[MessageKey(laneId, n)]
  }

  ghost function OtherLanes(messages: map<MessageKey, Payload>, laneId: LaneId): map<MessageKey, Payload> {
    map key | key in messages && key.laneId != laneId :: messages[key]
  }

  lemma StoreOne(messages: map<MessageKey, Payload>, laneId: LaneId, nonce: Nonce, payload: Payload)
    ensures QueueOf(messages[MessageKey(laneId, nonce) := payload], laneId) ==
            QueueOf(messages, laneId)[nonce := payload]
    ensures OtherLanes(messages[MessageKey(laneId, nonce) := payload], laneId) == OtherLanes(messages, laneId)
  {
  }

  lemma RemoveOne(messages: map<MessageKey, Payload>, laneId: LaneId, nonce: Nonce)
    ensures QueueOf(messages - {MessageKey(laneId, nonce)}, laneId) == QueueOf(messages, laneId) - {nonce}
    ensures OtherLanes(messages - {MessageKey(laneId, nonce)}, laneId) == OtherLanes(messages, laneId)
  {
  }

  /** Checks the unrewarded relayers of a proved inbound lane, reporting the first defect. */
  method EnsureUnrewardedRelayersAreCorrect(latestReceived: Nonce, relayers: seq<UnrewardedRelayer>)
    returns (r: Result<(), ReceptionConfirmationError>)
    ensures r == match RelayersError(relayers, FrontBegin(relayers), latestReceived)
                 case None => Ok(())
                 case Some(error) => Err(error)
  {
    var expected := FrontBegin(relayers);
    for i := 0 to |relayers|
      invariant RelayersError(relayers, FrontBegin(relayers), latestReceived) ==
                RelayersError(relayers[i..], expected, latestReceived)
    {
      var range := relayers[i].messages;
      assert relayers[i..][0] == relayers[i] && relayers[i..][1..] == relayers[i + 1..];
      if range.end < range.begin {
        return Err(EmptyUnrewardedRelayerEntry);
      }
      if expected != Some(range.begin) {
        return Err(NonConsecutiveUnrewardedRelayerEntries);
      }
      expected := CheckedInc(range.end);
      if range.end > latestReceived {
        return Err(FailedToConfirmFutureMessages);
      }
    }
    return Ok(());
  }

  /** An outbound lane of a pallet, with its data cached. */
  class OutboundLane {
    const storage: PalletStorage
    const laneId: LaneId
    const overflowChecks: bool
    var cachedData: OutboundLaneData

    ghost predicate Valid()
      reads this, storage
    {
      laneId in storage.outboundLanes && storage.outboundLanes[laneId] == cachedData
    }

    ghost function View(): Outbound
      reads this, storage
    {
      Outbound(cachedData, QueueOf(storage.outboundMessages, laneId))
    }

    constructor (storage: PalletStorage, laneId: LaneId, overflowChecks: bool)
      requires laneId in storage.outboundLanes
      ensures Valid()
      ensures this.storage == storage && this.laneId == laneId && this.overflowChecks == overflowChecks
    {
      this.storage, this.laneId, this.overflowChecks := storage, laneId, overflowChecks;
      cachedData := storage.outboundLanes[laneId];
    }

    method SetData(data: OutboundLaneData)
      modifies this`cachedData, storage`outboundLanes
      ensures cachedData == data
      ensures storage.outboundLanes == old(storage.outboundLanes)[laneId := data]
    {
      cachedData := data;
      storage.outboundLanes := storage.outboundLanes[laneId := data];
    }

    method SetState(state: LaneState)
      requires Valid()
      modifies this`cachedData, storage`outboundLanes
      ensures Valid()
      ensures cachedData == old(cachedData).(state := state)
      ensures storage.outboundLanes == old(storage.outboundLanes)[laneId := cachedData]
    {
      SetData(cachedData.(state := state));
    }

    /** Forgets the lane, but not the messages that are stored for it. */
    method Purge()
      modifies storage`outboundLanes
      ensures storage.outboundLanes == old(storage.outboundLanes) - {laneId}
    {
      storage.outboundLanes := storage.outboundLanes - {laneId};
    }

    /** Stores a message under the next nonce; there is none when the call is aborted. */
    method SendMessage(payload: Payload) returns (nonce: Option<Nonce>)
      requires Valid()
      modifies this`cachedData, storage`outboundLanes, storage`outboundMessages
      ensures Valid()
      ensures nonce == Increment(overflowChecks, old(cachedData).latestGenerated)
      ensures View() == if nonce.Some? then AfterSendAs(old(View()), nonce.value, payload) else old(View())
      ensures storage.outboundLanes == old(storage.outboundLanes)[laneId := cachedData]
      ensures OtherLanes(storage.outboundMessages, laneId) == old(OtherLanes(storage.outboundMessages, laneId))
    {
      nonce := Increment(overflowChecks, cachedData.latestGenerated);
      if nonce.Some? {
        StoreOne(storage.outboundMessages, laneId, nonce.value, payload);
        storage.outboundMessages := storage.outboundMessages[MessageKey(laneId, nonce.value) := payload];
        SetData(cachedData.(latestGenerated := nonce.value));
      }
    }

    /** Removes the messages of a range from the storage. */
    method RemoveMessages(range: DeliveredMessages)
      requires range.begin <= range.end
      modifies storage`outboundMessages
      ensures QueueOf(storage.outboundMessages, laneId) ==
              Pruned(old(QueueOf(storage.outboundMessages, laneId)), range.begin, range.end + 1)
      ensures OtherLanes(storage.outboundMessages, laneId) == old(OtherLanes(storage.outboundMessages, laneId))
    {
      ghost var queue := QueueOf(storage.outboundMessages, laneId);
      for nonce: nat := range.begin to range.end + 1
        invariant OtherLanes(storage.outboundMessages, laneId) == old(OtherLanes(storage.outboundMessages, laneId))
        invariant QueueOf(storage.outboundMessages, laneId) == Pruned(queue, range.begin, nonce)
      {
        RemoveOne(storage.outboundMessages, laneId, nonce);
        storage.outboundMessages := storage.outboundMessages - {MessageKey(laneId, nonce)};
        assert Pruned(queue, range.begin, nonce) - {nonce} == Pruned(queue, range.begin, nonce + 1);
      }
    }

    /** Confirms the messages up to `latestDelivered` and prunes the newly confirmed ones. */
    method ConfirmDelivery(maxAllowed: Nonce, latestDelivered: Nonce, relayers: seq<UnrewardedRelayer>)
      returns (r: Result<Option<DeliveredMessages>, ReceptionConfirmationError>)
      requires Valid()
      modifies this`cachedData, storage`outboundLanes, storage`outboundMessages
      ensures Valid()
      ensures r == Confirmation(old(cachedData), maxAllowed, latestDelivered, relayers)
      ensures View() == AfterConfirmation(old(View()), r)
      ensures storage.outboundLanes == old(storage.outboundLanes)[laneId := cachedData]
      ensures OtherLanes(storage.outboundMessages, laneId) == old(OtherLanes(storage.outboundMessages, laneId))
    {
      var confirmed := DeliveredMessages(SaturatingInc(cachedData.latestReceived), latestDelivered);
      if confirmed.TotalMessages() == 0 {
        return Ok(None);
      }
      if confirmed.end > cachedData.latestGenerated {
        return Err(FailedToConfirmFutureMessages);
      }
      if confirmed.TotalMessages() > maxAllowed {
        return Err(TryingToConfirmMoreMessagesThanExpected);
      }
      var checked := EnsureUnrewardedRelayersAreCorrect(confirmed.end, relayers);
      if checked.Err? {
        return Err(checked.error);
      }
      RemoveMessages(confirmed);
      SetData(cachedData.(latestReceived := confirmed.end, oldestUnpruned := SaturatingInc(confirmed.end)));
      return Ok(Some(confirmed));
    }

    /** Removes the oldest message that has not been pruned, without any check. Fails when the call
        is aborted, which happens after the removal. */
    method RemoveOldestUnprunedMessage() returns (done: bool)
      requires Valid()
      modifies this`cachedData, storage`outboundLanes, storage`outboundMessages
      ensures Valid()
      ensures done <==> Increment(overflowChecks, old(cachedData).oldestUnpruned).Some?
      ensures done ==> View() == AfterPruneOldest(old(View()))
      ensures storage.outboundLanes == old(storage.outboundLanes)[laneId := cachedData]
      ensures OtherLanes(storage.outboundMessages, laneId) == old(OtherLanes(storage.outboundMessages, laneId))
    {
      RemoveOne(storage.outboundMessages, laneId, cachedData.oldestUnpruned);
      storage.outboundMessages := storage.outboundMessages - {MessageKey(laneId, cachedData.oldestUnpruned)};
      var next := Increment(overflowChecks, cachedData.oldestUnpruned);
      if next.None? {
        return false;
      }
      SetData(cachedData.(oldestUnpruned := next.value));
      return true;
    }
  }
}
