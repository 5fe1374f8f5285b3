/** The QoS 1 / QoS 2 handshake machine per packet identifier (src/state/qos_flow.rs). */
module QosFlow {
  import opened Prelude

  datatype FlowState =
    | AwaitingPuback          // outgoing QoS 1
    | AwaitingPubrec          // outgoing QoS 2, PUBLISH sent
    | AwaitingPubcomp         // outgoing QoS 2, PUBREL sent
    | AwaitingPubrel          // incoming QoS 2
    | IncomingAwaitingPuback  // incoming QoS 1

  datatype Action =
    | SendPuback(packetId: u16)
    | SendPubrec(packetId: u16, isDuplicate: bool)
    | SendPubrel(packetId: u16)
    | SendPubcomp(packetId: u16)
    | ResendPubcomp(packetId: u16)
    | ResendPublish(packetId: u16)
    | ResendPubrel(packetId: u16)
    | Complete(packetId: u16)
    | Aborted(packetId: u16)

  datatype FlowError = Unknown | StateMismatch

  type Reply = Result<Option<Action>, FlowError>

  /** `seqNo` orders retransmissions; `charged` says the flow holds a unit of this connection's send quota. */
  datatype OutgoingFlow = OutgoingFlow(seqNo: nat, state: FlowState, charged: bool)

  /** The whole state of a flow manager. The two directions are independent spaces of identifiers. */
  datatype Flows = Flows(outgoing: map<u16, OutgoingFlow>, incoming: map<u16, FlowState>, nextSeq: nat)
  {
    predicate IsActive(id: u16) {
      id in outgoing || id in incoming
    }

    predicate IsCharged(id: u16) {
      id in outgoing && outgoing[id].charged
    }

    /** Stamps `id` with the next sequence number. */
    function Stamped(id: u16, state: FlowState, charged: bool): Flows {
      Flows(outgoing[id := OutgoingFlow(nextSeq, state, charged)], incoming, nextSeq + 1)
    }

    function WithoutOutgoing(id: u16): Flows {
      this.(outgoing := outgoing - {id})
    }

    function PublishSent(id: u16, qos: QoS): Flows
      requires qos != AtMostOnce
    {
      if id == 0 || id in outgoing then this
      else Stamped(id, if qos == AtLeastOnce then AwaitingPuback else AwaitingPubrec, true)
    }

    /** A reply to a packet for which there is no outgoing flow. */
    function NoOutgoing(id: u16): Reply {
      if id in incoming then Err(StateMismatch) else Ok(None)
    }

    /** An acknowledgement that ends the flow `id` when it waits in `awaited`. */
    function Finished(id: u16, awaited: FlowState): (Flows, Reply) {
      if id !in outgoing then (this, NoOutgoing(id))
      else if outgoing[id].state == awaited then (WithoutOutgoing(id), Ok(Some(Complete(id))))
      else (this, Err(StateMismatch))
    }

    function PubackReceived(id: u16): (Flows, Reply) {
      Finished(id, AwaitingPuback)
    }

    function PubcompReceived(id: u16): (Flows, Reply) {
      Finished(id, AwaitingPubcomp)
    }

    function PubrecReceived(id: u16, reason: u8): (Flows, Reply) {
      if id !in outgoing then (this, NoOutgoing(id))
      else if outgoing[id].state == AwaitingPubrec then
        if reason >= 0x80 then (WithoutOutgoing(id), Ok(Some(Aborted(id))))
        else (Stamped(id, AwaitingPubcomp, outgoing[id].charged), Ok(Some(SendPubrel(id))))
      else if outgoing[id].state == AwaitingPubcomp && reason < 0x80 then (this, Ok(Some(SendPubrel(id))))
      else (this, Err(StateMismatch))
    }

    function PubrelReceived(id: u16): (Flows, Reply) {
      if id in incoming then
        if incoming[id] == AwaitingPubrel then (this.(incoming := incoming - {id}), Ok(Some(SendPubcomp(id))))
        else (this, Err(StateMismatch))
      else if id in outgoing then (this, Err(StateMismatch))
      else (this, Ok(Some(ResendPubcomp(id))))
    }

    function PublishReceivedQos1(id: u16): (Flows, Action) {
      (this.(incoming := incoming[id := IncomingAwaitingPuback]), SendPuback(id))
    }

    function PublishReceivedQos2(id: u16): (Flows, Action) {
      (this.(incoming := incoming[id := AwaitingPubrel]), SendPubrec(id, id in incoming))
    }

    function PubackSent(id: u16): Flows {
      if id in incoming && incoming[id] == IncomingAwaitingPuback then this.(incoming := incoming - {id}) else this
    }

    function MarkCharged(id: u16): Flows {
      if id in outgoing then this.(outgoing := outgoing[id := outgoing[id].(charged := true)]) else this
    }

    function ClearCharges(): Flows {
      this.(outgoing := map id | id in outgoing :: outgoing[id].(charged := false))
    }

    function Release(id: u16): Flows {
      this.(outgoing := outgoing - {id}, incoming := incoming - {id})
    }

    function NeedsRetransmission(id: u16): Option<Action> {
      if id !in outgoing then None else
      match outgoing[id].state
      case AwaitingPuback | AwaitingPubrec => Some(ResendPublish(id))
      case AwaitingPubcomp => Some(ResendPubrel(id))
      case AwaitingPubrel | IncomingAwaitingPuback => None
    }

    static function Empty(): Flows {
      Flows(map[], map[], 0)
    }

    /** Outgoing flows have a real identifier, an outgoing state and a number below the counter. */
    ghost predicate Numbered() {
      forall id | id in outgoing :: id != 0 && outgoing[id].seqNo < nextSeq && IsOutgoingState(outgoing[id].state)
    }

    ghost predicate Valid() {
      && Numbered()
      && (forall a, b | a in outgoing && b in outgoing && a != b :: outgoing[a].seqNo != outgoing[b].seqNo)
      && (forall id | id in incoming :: !IsOutgoingState(incoming[id]))
    }
  }

  predicate IsOutgoingState(state: FlowState) {
    state.AwaitingPuback? || state.AwaitingPubrec? || state.AwaitingPubcomp?
  }

  class QosFlowManager {
    var outgoing: map<u16, OutgoingFlow>
    var incoming: map<u16, FlowState>
    var nextSeq: nat

    ghost function State(): Flows
      reads this
    {
      Flows(outgoing, incoming, nextSeq)
    }

    constructor ()
      ensures State() == Flows.Empty()
    {
      outgoing, incoming, nextSeq := map[], map[], 0;
    }

    method AllocateSeq() returns (seqNo: nat)
      modifies this`nextSeq
      ensures seqNo == old(nextSeq) && nextSeq == seqNo + 1
    {
      seqNo := nextSeq;
      nextSeq := nextSeq + 1;
    }

    method PublishSentQos1(id: u16)
      modifies this
      ensures State() == old(State()).PublishSent(id, AtLeastOnce)
    {
      if id == 0 || id in outgoing {
        return;
      }
      var seqNo := AllocateSeq();
      outgoing := outgoing[id := OutgoingFlow(seqNo, AwaitingPuback, true)];
    }

    method PublishSentQos2(id: u16)
      modifies this
      ensures State() == old(State()).PublishSent(id, ExactlyOnce)
    {
      if id == 0 || id in outgoing {
        return;
      }
      var seqNo := AllocateSeq();
      outgoing := outgoing[id := OutgoingFlow(seqNo, AwaitingPubrec, true)];
    }

    // The acknowledgement handlers take the flow out of the map and put it back when it does not match.

    method PubackReceived(id: u16) returns (r: Reply)
      modifies this
      ensures (State(), r) == old(State()).PubackReceived(id)
    {
      if id in outgoing {
        var flow := outgoing[id];
        outgoing := outgoing - {id};
        if flow.state.AwaitingPuback? {
          return Ok(Some(Complete(id)));
        }
        outgoing := outgoing[id := flow];
        assert outgoing == old(outgoing);
        return Err(StateMismatch);
      }
      return if id in incoming then Err(StateMismatch) else Ok(None);
    }

    method PubrecReceived(id: u16, reason: u8) returns (r: Reply)
      modifies this
      ensures (State(), r) == old(State()).PubrecReceived(id, reason)
    {
      if reason >= 0x80 {
        if id in outgoing {
          if outgoing[id].state.AwaitingPubrec? {
            outgoing := outgoing - {id};
            return Ok(Some(Aborted(id)));
          }
          return Err(StateMismatch);
        }
        return if id in incoming then Err(StateMismatch) else Ok(None);
      }
      if id in outgoing {
        var flow := outgoing[id];
        outgoing := outgoing - {id};
        match flow.state {
          case AwaitingPubrec =>
            var seqNo := AllocateSeq();
            outgoing := outgoing[id := OutgoingFlow(seqNo, AwaitingPubcomp, flow.charged)];
            assert outgoing == old(outgoing)[id := OutgoingFlow(seqNo, AwaitingPubcomp, flow.charged)];
            return Ok(Some(SendPubrel(id)));
          case AwaitingPubcomp =>
            outgoing := outgoing[id := flow];
            assert outgoing == old(outgoing);
            return Ok(Some(SendPubrel(id)));
          case _ =>
            outgoing := outgoing[id := flow];
            assert outgoing == old(outgoing);
            return Err(StateMismatch);
        }
      }
      return if id in incoming then Err(StateMismatch) else Ok(None);
    }

    method PubrelReceived(id: u16) returns (r: Reply)
      modifies this
      ensures (State(), r) == old(State()).PubrelReceived(id)
    {
      if id in incoming {
        var state := incoming[id];
        incoming := incoming - {id};
        if state.AwaitingPubrel? {
          return Ok(Some(SendPubcomp(id)));
        }
        incoming := incoming[id := state];
        assert incoming == old(incoming);
        return Err(StateMismatch);
      }
      return if id in outgoing then Err(StateMismatch) else Ok(Some(ResendPubcomp(id)));
    }

    method PubcompReceived(id: u16) returns (r: Reply)
      modifies this
      ensures (State(), r) == old(State()).PubcompReceived(id)
    {
      if id in outgoing {
        var flow := outgoing[id];
        outgoing := outgoing - {id};
        if flow.state.AwaitingPubcomp? {
          return Ok(Some(Complete(id)));
        }
        outgoing := outgoing[id := flow];
        assert outgoing == old(outgoing);
        return Err(StateMismatch);
      }
      return if id in incoming then Err(StateMismatch) else Ok(None);
    }

    method PublishReceivedQos1(id: u16) returns (action: Action)
      modifies this
      ensures (State(), action) == old(State()).PublishReceivedQos1(id)
    {
      incoming := incoming[id := IncomingAwaitingPuback];
      return SendPuback(id);
    }

    method PubackSent(id: u16)
      modifies this
      ensures State() == old(State()).PubackSent(id)
    {
      if id in incoming {
        var state := incoming[id];
        incoming := incoming - {id};
        if !state.IncomingAwaitingPuback? {
          incoming := incoming[id := state];
          assert incoming == old(incoming);
        }
      }
    }

    method PublishReceivedQos2(id: u16) returns (action: Action)
      modifies this
      ensures (State(), action) == old(State()).PublishReceivedQos2(id)
    {
      var isDuplicate := id in incoming;
      incoming := incoming[id := AwaitingPubrel];
      return SendPubrec(id, isDuplicate);
    }

    method MarkQuotaCharged(id: u16)
      modifies this
      ensures State() == old(State()).MarkCharged(id)
    {
      if id in outgoing {
        outgoing := outgoing[id := outgoing[id].(charged := true)];
      }
    }

    method ClearQuotaCharges()
      modifies this
      ensures State() == old(State()).ClearCharges()
    {
      var todo := outgoing.Keys;
      while todo != {}
        invariant todo <= outgoing.Keys == old(outgoing).Keys
        invariant nextSeq == old(nextSeq) && incoming == old(incoming)
        invariant forall id | id in outgoing ::
          outgoing[id] == if id in todo then old(outgoing)[id] else old(outgoing)[id].(charged := false)
        decreases |todo|
      {
        var id :| id in todo;
        todo := todo - {id};
        outgoing := outgoing[id := outgoing[id].(charged := false)];
      }
      assert outgoing == old(State()).ClearCharges().outgoing;
    }

    method Release(id: u16)
      modifies this
      ensures State() == old(State()).Release(id)
    {
      outgoing := outgoing - {id};
      incoming := incoming - {id};
    }

    method Reset()
      modifies this
      ensures State() == Flows.Empty()
    {
      outgoing, incoming, nextSeq := map[], map[], 0;
    }
  }
}
