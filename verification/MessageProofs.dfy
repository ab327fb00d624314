/** What the target chain reads out of a storage proof of the source chain
    (bridges/modules/messages/src/proofs.rs). A proof is the part of one past state of an
    outbound lane that it lets the verifier read. */
module MessageProofs {
  import opened Wrappers
  import opened LaneTypes
  import opened OutboundLanes
  import InboundLanes

  datatype MessagesProof = MessagesProof(
    messages: map<Nonce, Payload>, laneState: Option<OutboundLaneData>,
    noncesStart: Nonce, noncesEnd: Nonce)

  datatype ProvedMessages = ProvedMessages(laneState: Option<OutboundLaneData>, messages: seq<Message>)

  datatype VerificationError =
    | MessagesCountMismatch
    | MessageStorage
    | EmptyMessageProof
    | UnusedKey

  /** The proof has been built from this state of the outbound lane. */
  ghost predicate Genuine(proof: MessagesProof, lane: Outbound) {
    && (forall n :: n in proof.messages ==> n in lane.messages && lane.messages[n] == proof.messages[n])
    && (proof.laneState.Some? ==> proof.laneState.value == lane.data)
  }

  /** Every nonce of the declared range can be read. */
  ghost predicate Complete(proof: MessagesProof) {
    forall n: nat :: proof.noncesStart <= n <= proof.noncesEnd ==> n in proof.messages
  }

  /** Nothing outside the declared range can be read. */
  ghost predicate Tight(proof: MessagesProof) {
    forall n :: n in proof.messages ==> proof.noncesStart <= n <= proof.noncesEnd
  }

  ghost function Bundled(proof: MessagesProof): (r: seq<Message>)
    requires Complete(proof)
    ensures InboundLanes.IsRange(r, proof.noncesStart, proof.noncesEnd)
    ensures forall i :: 0 <= i < |r| ==> r[i].payload == proof.messages[r[i].nonce]
  {
    seq(if proof.noncesStart <= proof.noncesEnd then proof.noncesEnd - proof.noncesStart + 1 else 0,
        i requires 0 <= i <= proof.noncesEnd - proof.noncesStart =>
          Message(proof.noncesStart + i, proof.messages[proof.noncesStart + i]))
  }

  ghost predicate Acceptable(proof: MessagesProof, messagesCount: U32) {
    && SaturatingLen(proof.noncesStart, proof.noncesEnd) == messagesCount
    && Complete(proof)
    && (proof.laneState.Some? || proof.noncesStart <= proof.noncesEnd)
    && Tight(proof)
  }

  ghost function AfterLaneState(lane: InboundLaneData, laneState: Option<OutboundLaneData>): InboundLaneData {
    if laneState.Some? then InboundLanes.AfterStateUpdate(lane, laneState.value.latestReceived) else lane
  }

  /** What a verified proof makes of an inbound lane, and the messages that it dispatches. */
  ghost function AfterProof(limits: Limits, lane: InboundLaneData, proof: MessagesProof, relayer: AccountId)
    : (InboundLaneData, seq<Message>)
    requires Complete(proof)
  {
    InboundLanes.AfterBatch(limits, AfterLaneState(lane, proof.laneState), relayer, Bundled(proof))
  }

  /** Reads the declared messages and the lane state, and demands that nothing is left unread. */
  method VerifyMessagesProof(proof: MessagesProof, messagesCount: U32)
    returns (r: Result<ProvedMessages, VerificationError>)
    ensures r.Ok? <==> Acceptable(proof, messagesCount)
    ensures r.Ok? ==> r.value == ProvedMessages(proof.laneState, Bundled(proof))
    ensures r == Err(MessagesCountMismatch) <==> SaturatingLen(proof.noncesStart, proof.noncesEnd) != messagesCount
    ensures r == Err(MessageStorage) <==>
            SaturatingLen(proof.noncesStart, proof.noncesEnd) == messagesCount && !Complete(proof)
    ensures r == Err(EmptyMessageProof) <==>
            && SaturatingLen(proof.noncesStart, proof.noncesEnd) == messagesCount == 0
            && Complete(proof) && proof.laneState.None?
    ensures r == Err(UnusedKey) <==>
            && SaturatingLen(proof.noncesStart, proof.noncesEnd) == messagesCount
            && Complete(proof) && (proof.laneState.Some? || 0 < messagesCount) && !Tight(proof)
  {
    if SaturatingLen(proof.noncesStart, proof.noncesEnd) != messagesCount {
      return Err(MessagesCountMismatch);
    }
    var messages: seq<Message> := [];
    var unread := proof.messages.Keys;
    var nonce: nat := proof.noncesStart;
    while nonce <= proof.noncesEnd
      invariant proof.noncesStart <= nonce
      invariant nonce == proof.noncesStart || nonce <= proof.noncesEnd + 1
      invariant forall n: nat :: proof.noncesStart <= n < nonce ==> n in proof.messages
      invariant |messages| == nonce - proof.noncesStart
      invariant forall i :: 0 <= i < |messages| ==>
                  messages[i] == Message(proof.noncesStart + i, proof.messages[proof.noncesStart + i])
      invariant forall n :: n in unread <==> n in proof.messages && !(proof.noncesStart <= n < nonce)
    {
      if nonce !in proof.messages {
        return Err(MessageStorage);
      }
      messages := messages + [Message(nonce, proof.messages[nonce])];
      unread := unread - {nonce};
      nonce := nonce + 1;
    }
    assert Complete(proof);
    assert forall i :: 0 <= i < |messages| ==> messages[i] == Bundled(proof)[i];
    if proof.laneState.None? && messages == [] {
      return Err(EmptyMessageProof);
    }
    if unread != {} {
      var n :| n in unread;
      assert n in proof.messages;
      return Err(UnusedKey);
    }
    return Ok(ProvedMessages(proof.laneState, messages));
  }
}
