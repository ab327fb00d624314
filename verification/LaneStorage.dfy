/** The storage of the messages pallet, and the lookup of lanes in it
    (bridges/modules/messages/src/lanes_manager.rs). */
module LaneStorage {
  import opened Wrappers
  import opened LaneTypes

  datatype LanesManagerError =
    | InboundLaneAlreadyExists
    | OutboundLaneAlreadyExists
    | UnknownInboundLane
    | UnknownOutboundLane
    | ClosedInboundLane
    | ClosedOutboundLane
    | LaneDispatcherInactive

  datatype DispatchedMessage = DispatchedMessage(laneId: LaneId, message: Message)

  class PalletStorage {
    var inboundLanes: map<LaneId, InboundLaneData>
    var outboundLanes: map<LaneId, OutboundLaneData>
    var outboundMessages: map<MessageKey, Payload>

    /** Every message that has been handed to the dispatcher, oldest first. */
    ghost var dispatched: seq<DispatchedMessage>

    constructor ()
      ensures inboundLanes == map[] && outboundLanes == map[] && outboundMessages == map[]
      ensures dispatched == []
    {
      inboundLanes, outboundLanes, outboundMessages := map[], map[], map[];
      dispatched := [];
    }

    /** Opens an inbound lane; an existing lane is left alone. With an inactive dispatcher the new
        lane is there, but it is not handed out. */
    method CreateInboundLane(laneId: LaneId, dispatcherActive: bool) returns (r: Result<(), LanesManagerError>)
      modifies this`inboundLanes
      ensures r == if laneId in old(inboundLanes) then Err(InboundLaneAlreadyExists)
                   else if !dispatcherActive then Err(LaneDispatcherInactive) else Ok(())
      ensures inboundLanes ==
              if laneId in old(inboundLanes) then old(inboundLanes)
              else old(inboundLanes)[laneId := OpenedInboundLane()]
    {
      if laneId in inboundLanes {
        return Err(InboundLaneAlreadyExists);
      }
      inboundLanes := inboundLanes[laneId := OpenedInboundLane()];
      if !dispatcherActive {
        return Err(LaneDispatcherInactive);
      }
      return Ok(());
    }

    /** Opens an outbound lane; an existing lane is left alone. */
    method CreateOutboundLane(laneId: LaneId) returns (r: Result<(), LanesManagerError>)
      modifies this`outboundLanes
      ensures r.Ok? <==> laneId !in old(outboundLanes)
      ensures r.Err? ==> r.error == OutboundLaneAlreadyExists
      ensures outboundLanes ==
              if r.Ok? then old(outboundLanes)[laneId := OpenedOutboundLane()] else old(outboundLanes)
    {
      if laneId in outboundLanes {
        return Err(OutboundLaneAlreadyExists);
      }
      outboundLanes := outboundLanes[laneId := OpenedOutboundLane()];
      return Ok(());
    }
  }
}
