/**
 * The session object: it owns one of each state machine and keeps them in step. Every method is
 * proved against the operation of the same name in SessionSpec.
 */
module Sessions {
  import opened Prelude
  import opened PacketIds
  import opened FlowControls
  import opened QosFlow
  import opened FlowRuns
  import opened Subscriptions
  import opened TopicAliases
  import opened Authentication
  import opened SessionSpec

  datatype SessionError = InvalidClientId

  class Session {
    const version: Version
    const cleanStart: bool
    const packetIds: PacketIdManager
    const qosFlow: QosFlowManager
    const flowControl: FlowControl
    const subscriptions: SubscriptionManager
    const topicAliases: TopicAliasManager
    const authState: AuthStateMachine
    var connection: ConnectionState
    var clientId: string
    var sessionExpiryInterval: u32
    var keepAlive: KeepAlive
    var capabilities: Capabilities
    var maxPacketSize: nat

    ghost predicate Valid()
      reads this, packetIds, qosFlow, authState
    {
      packetIds.Valid() && qosFlow.State().Valid() && authState.State().Valid()
    }

    ghost function State(): SessionState
      reads this, packetIds, qosFlow, flowControl, subscriptions, topicAliases, authState
    {
      SessionState(version, connection, clientId, cleanStart, sessionExpiryInterval, packetIds.inUse,
                   qosFlow.State(), flowControl.State(), subscriptions.State(), topicAliases.State(),
                   keepAlive, authState.State(), capabilities, maxPacketSize)
    }

    ghost function Parts(): set<object>
      reads this
    {
      {packetIds, qosFlow, flowControl, subscriptions, topicAliases, authState}
    }

    constructor Create(version: Version, clientId: string, cleanStart: bool)
      ensures Valid() && State() == SessionState.New(version, clientId, cleanStart)
      ensures fresh(Parts())
    {
      this.version, this.clientId, this.cleanStart := version, clientId, cleanStart;
      connection, sessionExpiryInterval, keepAlive := Disconnected, 0, KeepAlive(0, 0, None);
      capabilities, maxPacketSize := DEFAULT_CAPABILITIES, DEFAULT_MAX_PACKET_SIZE;
      packetIds := new PacketIdManager();
      qosFlow := new QosFlowManager();
      flowControl := new FlowControl();
      subscriptions := new SubscriptionManager();
      topicAliases := new TopicAliasManager();
      authState := new AuthStateMachine();
    }

    /** An empty client identifier needs a clean session in MQTT v3.1.1. */
    static method New(version: Version, clientId: string, cleanStart: bool)
      returns (r: Result<Session, SessionError>)
      ensures r.Err? <==> version == V311 && clientId == "" && !cleanStart
      ensures r.Ok? ==> fresh(r.value) && fresh(r.value.Parts())
      ensures r.Ok? ==> r.value.Valid() && r.value.State() == SessionState.New(version, clientId, cleanStart)
    {
      if version == V311 && clientId == "" && !cleanStart {
        return Err(InvalidClientId);
      }
      var s := new Session.Create(version, clientId, cleanStart);
      return Ok(s);
    }

    method ConfigureForConnect(seconds: u16, expiry: u32, aliasMaximum: u16, receiveMaximum: u16, packetSize: u32)
      returns (r: Result<(), FlowControlError>)
      requires Valid()
      modifies this, topicAliases, flowControl
      ensures Valid()
      ensures (State(), r) == old(State()).Configure(seconds, expiry, aliasMaximum, receiveMaximum, packetSize)
    {
      keepAlive := keepAlive.(seconds := seconds);
      sessionExpiryInterval := expiry;
      topicAliases.SetOwnMaximum(aliasMaximum);
      r := flowControl.SetOwnReceiveMaximum(receiveMaximum);
      if r.Err? {
        return r;
      }
      if packetSize > 0 {
        maxPacketSize := packetSize;
      }
      return Ok(());
    }

    method ResetSessionState()
      modifies packetIds, qosFlow, subscriptions
      ensures packetIds.Valid() && qosFlow.State().Valid()
      ensures State() == old(State()).ResetSession()
    {
      packetIds.Reset();
      qosFlow.Reset();
      subscriptions.Reset();
    }

    method ResetConnectionState()
      requires qosFlow.State().Valid()
      modifies this, flowControl, qosFlow, topicAliases, authState
      ensures authState.State().Valid() && qosFlow.State().Valid()
      ensures State() == old(State()).ResetConnection()
    {
      flowControl.Reset(true);
      qosFlow.ClearQuotaCharges();
      StepKeepsValid(old(qosFlow.State()), ChargesCleared);
      topicAliases.ResetMappings();
      topicAliases.SetPeerMaximum(0);
      authState.Reset();
      capabilities := DEFAULT_CAPABILITIES;
      keepAlive := keepAlive.(pingreqSentAt := None);
    }

    method ConnectSent()
      requires Valid()
      modifies this, flowControl, qosFlow, topicAliases, authState
      ensures Valid()
      ensures State() == old(State()).ConnectSent()
    {
      connection := Connecting;
      ResetConnectionState();
    }

    method ConnectSentWithAuth(m: string) returns (r: Result<(), AuthError>)
      requires Valid()
      modifies this, flowControl, qosFlow, topicAliases, authState
      ensures Valid()
      ensures State() == old(State()).ConnectSentWithAuth(m)
      ensures r == if version == V5 then Ok(()) else Err(V5OnlyOperation)
    {
      if version != V5 {
        return Err(V5OnlyOperation);
      }
      ConnectSent();
      authState.ConnectWithAuth(m);
      return Ok(());
    }

    method BecomeConnected(sessionPresent: bool)
      requires Valid()
      modifies this, packetIds, qosFlow, subscriptions
      ensures Valid()
      ensures State() == old(State()).BecomeConnected(sessionPresent)
    {
      connection := Connected;
      if cleanStart || !sessionPresent {
        ResetSessionState();
      }
    }

    /** The checks of a CONNACK that only read. */
    method CheckConnack(p: ConnackParams) returns (refusal: Option<ConnackError>)
      ensures refusal == State().ContentRefusal(p)
    {
      if connection != Connecting {
        return Some(InvalidConnectionState);
      }
      if p.reason.V5Reason? != (version == V5) {
        return Some(VersionMismatch);
      }
      if version == V311 && p.HasV5OnlyFields() {
        return Some(V5OnlyParameters);
      }
      if p.reason.code != 0 {
        return Some(ConnectionRefused);
      }
      if p.sessionPresent && cleanStart {
        return Some(SessionPresentProtocolError);
      }
      if version == V5 && clientId == ""
         && (p.assignedClientIdentifier.None? || p.assignedClientIdentifier.value == "") {
        return Some(AssignedClientIdentifierMissing);
      }
      if p.receiveMaximum == Some(0) {
        return Some(ConnackError.InvalidReceiveMaximum);
      }
      if p.maximumPacketSize == Some(0) {
        return Some(InvalidMaximumPacketSize);
      }
      if p.maximumQos == Some(ExactlyOnce) {
        return Some(InvalidMaximumQoS);
      }
      return None;
    }

    /** Validation first, without a change; then everything is applied and nothing can fail. */
    method ApplyConnack(p: ConnackParams) returns (r: Result<(), ConnackError>)
      requires Valid()
      modifies this, packetIds, qosFlow, flowControl, subscriptions, topicAliases, authState
      ensures Valid()
      ensures (State(), r) == old(State()).ApplyConnack(p)
    {
      var refusal := CheckConnack(p);
      if refusal.Some? {
        return Err(refusal.value);
      }
      if version == V5 {
        var checked := authState.ConnackReceived(p.authenticationMethod);
        if checked.Err? {
          return Err(OfAuth(checked.error));
        }
      }
      BecomeConnected(p.sessionPresent);
      ApplyParameters(p);
      return Ok(());
    }

    /** The two limits of the server that other managers keep. */
    method ApplyPeerLimits(p: ConnackParams)
      requires p.receiveMaximum != Some(0)
      modifies flowControl, topicAliases
      ensures flowControl.State() == old(State()).WithParameters(p).window
      ensures topicAliases.State() == old(State()).WithParameters(p).aliases
    {
      if p.receiveMaximum.Some? {
        var applied := flowControl.SetReceiveMaximum(p.receiveMaximum.value);
        assert applied.Ok?;  // the value was found to be non-zero
      }
      if p.topicAliasMaximum.Some? {
        topicAliases.SetPeerMaximum(p.topicAliasMaximum.value);
      }
    }

    method ApplyParameters(p: ConnackParams)
      requires Valid() && p.receiveMaximum != Some(0)
      modifies this, flowControl, topicAliases
      ensures Valid()
      ensures State() == old(State()).WithParameters(p)
    {
      ApplyPeerLimits(p);
      if p.sessionExpiryInterval.Some? {
        sessionExpiryInterval := p.sessionExpiryInterval.value;
      }
      if p.serverKeepAlive.Some? {
        keepAlive := keepAlive.(seconds := p.serverKeepAlive.value);
      }
      capabilities := capabilities.Merged(p);
      if p.assignedClientIdentifier.Some? && clientId == "" {
        clientId := p.assignedClientIdentifier.value;
      }
    }

    method DisconnectSent()
      modifies this`connection
      ensures connection == Disconnecting
    {
      connection := Disconnecting;
    }

    /** `disconnected` and `disconnect_received`. */
    method ConnectionLost()
      modifies this`connection
      ensures connection == Disconnected
    {
      connection := Disconnected;
    }

    method HandlePuback(id: u16) returns (r: Reply)
      requires Valid()
      modifies qosFlow, flowControl, packetIds
      ensures Valid()
      ensures (State(), r) == old(State()).HandlePuback(id)
    {
      r := qosFlow.PubackReceived(id);
      StepKeepsValid(old(qosFlow.State()), PubackIn(id));
      if r.Ok? && r.value.Some? {
        flowControl.PublishAcked();
        packetIds.Release(id);
      }
    }

    method HandlePubrec(id: u16, reason: u8) returns (r: Reply)
      requires Valid()
      modifies qosFlow, flowControl, packetIds
      ensures Valid()
      ensures (State(), r) == old(State()).HandlePubrec(id, reason)
    {
      r := qosFlow.PubrecReceived(id, reason);
      StepKeepsValid(old(qosFlow.State()), PubrecIn(id, reason));
      if r.Ok? && r.value.Some? && r.value.value.Aborted? {
        flowControl.PublishAcked();
        packetIds.Release(id);
      }
    }

    method HandlePubrel(id: u16) returns (r: Reply)
      requires Valid()
      modifies qosFlow
      ensures Valid()
      ensures (State(), r) == old(State()).HandlePubrel(id)
    {
      r := qosFlow.PubrelReceived(id);
      StepKeepsValid(old(qosFlow.State()), PubrelIn(id));
    }

    method HandlePubcomp(id: u16) returns (r: Reply)
      requires Valid()
      modifies qosFlow, flowControl, packetIds
      ensures Valid()
      ensures (State(), r) == old(State()).HandlePubcomp(id)
    {
      r := qosFlow.PubcompReceived(id);
      StepKeepsValid(old(qosFlow.State()), PubcompIn(id));
      if r.Ok? && r.value.Some? {
        flowControl.PublishAcked();
        packetIds.Release(id);
      }
    }

    method HandlePublishQos1(id: u16) returns (r: Result<Action, FlowControlError>)
      requires Valid()
      modifies qosFlow, flowControl
      ensures Valid()
      ensures (State(), r) == old(State()).HandlePublish(id, AtLeastOnce)
    {
      if id !in qosFlow.incoming {
        var counted := flowControl.PublishReceived();
        if counted.Err? {
          return Err(counted.error);
        }
      }
      var action := qosFlow.PublishReceivedQos1(id);
      StepKeepsValid(old(qosFlow.State()), Publish1In(id));
      return Ok(action);
    }

    method HandlePublishQos2(id: u16) returns (r: Result<Action, FlowControlError>)
      requires Valid()
      modifies qosFlow, flowControl
      ensures Valid()
      ensures (State(), r) == old(State()).HandlePublish(id, ExactlyOnce)
    {
      if id !in qosFlow.incoming {
        var counted := flowControl.PublishReceived();
        if counted.Err? {
          return Err(counted.error);
        }
      }
      var action := qosFlow.PublishReceivedQos2(id);
      StepKeepsValid(old(qosFlow.State()), Publish2In(id));
      return Ok(action);
    }

    method PubackSent(id: u16)
      requires Valid()
      modifies qosFlow, flowControl
      ensures Valid() && State() == old(State()).PubackSent(id)
    {
      qosFlow.PubackSent(id);
      StepKeepsValid(old(qosFlow.State()), PubackOut(id));
      flowControl.PublishAckSent();
    }

    method PubrecSent(reason: u8)
      requires Valid()
      modifies flowControl
      ensures Valid() && State() == old(State()).PubrecSent(reason)
    {
      if reason >= 0x80 {
        flowControl.PublishAckSent();
      }
    }

    method PubcompSent()
      requires Valid()
      modifies flowControl
      ensures Valid() && State() == old(State()).PubcompSent()
    {
      flowControl.PublishAckSent();
    }

    method PendingRetransmissions() returns (entries: seq<(u16, Action)>)
      requires Valid()
      ensures exists ids :: Listing(State().flows.outgoing, ids) && entries == Retransmissions(State().flows, ids)
    {
      var flows := Flows(qosFlow.outgoing, qosFlow.incoming, qosFlow.nextSeq);
      var ids := PendingPacketIds(flows);
      assert flows == State().flows && Listing(State().flows.outgoing, ids);
      entries := Retransmissions(flows, ids);
    }

    method ResendPublish(id: u16) returns (r: Result<Option<Action>, FlowControlError>)
      requires Valid()
      modifies qosFlow, flowControl
      ensures Valid()
      ensures (State(), r) == old(State()).ResendPublish(id)
    {
      var flows := Flows(qosFlow.outgoing, qosFlow.incoming, qosFlow.nextSeq);
      var action := flows.NeedsRetransmission(id);
      if action.Some? && action.value.ResendPublish? {
        if flows.IsCharged(id) {
          return Ok(if version == V5 then None else action);
        }
        var charged := flowControl.PublishSent();
        if charged.Err? {
          return Err(charged.error);
        }
        qosFlow.MarkQuotaCharged(id);
        StepKeepsValid(old(qosFlow.State()), Charged(id));
        return Ok(action);
      }
      return Ok(None);
    }

    method ResendPubrel(id: u16) returns (r: Option<Action>)
      ensures r == State().ResendPubrel(id)
    {
      var action := Flows(qosFlow.outgoing, qosFlow.incoming, qosFlow.nextSeq).NeedsRetransmission(id);
      return if action.Some? && action.value.ResendPubrel? then action else None;
    }

    method AllocatePacketId() returns (r: Option<u16>)
      requires Valid()
      modifies packetIds
      ensures Valid()
      ensures (State(), r) == old(State()).AllocatePacketId()
    {
      r := packetIds.Allocate();
    }

    method ReleasePacketId(id: u16)
      requires Valid()
      modifies packetIds
      ensures Valid() && State() == old(State()).ReleasePacketId(id)
    {
      packetIds.Release(id);
    }

    method PublishSent(qos: QoS, id: u16) returns (r: Result<(), FlowControlError>)
      requires Valid()
      modifies qosFlow, flowControl
      ensures Valid()
      ensures (State(), r) == old(State()).PublishSent(qos, id)
    {
      if qos == AtMostOnce {
        return Err(FlowControlError.InvalidQoS);
      }
      if id == 0 {
        return Err(InvalidPacketId);
      }
      r := flowControl.PublishSent();
      if r.Err? {
        return r;
      }
      match qos {
        case AtLeastOnce => qosFlow.PublishSentQos1(id);
        case ExactlyOnce => qosFlow.PublishSentQos2(id);
      }
      StepKeepsValid(old(qosFlow.State()), Sent(id, qos));
      return Ok(());
    }

    method AbortPublish(id: u16)
      requires Valid()
      modifies qosFlow, flowControl, packetIds
      ensures Valid() && State() == old(State()).AbortPublish(id)
    {
      if id in qosFlow.outgoing || id in qosFlow.incoming {
        flowControl.PublishAcked();
      }
      qosFlow.Release(id);
      StepKeepsValid(old(qosFlow.State()), Released(id));
      packetIds.Release(id);
    }

    method SubscribeSent(id: u16, entries: seq<SubscriptionEntry>)
      requires Valid()
      modifies subscriptions
      ensures Valid() && State() == old(State()).SubscribeSent(id, entries)
    {
      subscriptions.SubscribeSent(id, entries);
    }

    method UnsubscribeSent(id: u16, filters: seq<string>)
      requires Valid()
      modifies subscriptions
      ensures Valid() && State() == old(State()).UnsubscribeSent(id, filters)
    {
      subscriptions.UnsubscribeSent(id, filters);
    }

    method AbortSubscribe(id: u16)
      requires Valid()
      modifies subscriptions, packetIds
      ensures Valid() && State() == old(State()).AbortSubscribe(id)
    {
      var dropped := subscriptions.DropPendingSubscribe(id);
      packetIds.Release(id);
    }

    method AbortUnsubscribe(id: u16)
      requires Valid()
      modifies subscriptions, packetIds
      ensures Valid() && State() == old(State()).AbortUnsubscribe(id)
    {
      var dropped := subscriptions.DropPendingUnsubscribe(id);
      packetIds.Release(id);
    }

    method HandleSuback(id: u16, codes: seq<u8>) returns (r: Option<seq<SubscriptionEntry>>)
      requires Valid()
      modifies subscriptions, packetIds
      ensures Valid()
      ensures (State(), r) == old(State()).HandleSuback(id, codes)
    {
      r := subscriptions.SubackReceived(id, codes);
      packetIds.Release(id);
    }

    method HandleUnsuback(id: u16, codes: seq<u8>) returns (r: Option<seq<string>>)
      requires Valid()
      modifies subscriptions, packetIds
      ensures Valid()
      ensures (State(), r) == old(State()).HandleUnsuback(id, codes)
    {
      r := subscriptions.UnsubackReceived(id, codes);
      packetIds.Release(id);
    }

    method AuthReceived(reason: u8, m: Option<string>) returns (action: AuthAction)
      requires Valid()
      modifies authState
      ensures Valid()
      ensures (State().auth, action) == old(State()).auth.AuthReceived(reason, m)
    {
      action := authState.AuthReceived(reason, m);
    }

    method ReauthenticateSent() returns (r: Result<(), AuthError>)
      requires Valid()
      modifies authState
      ensures Valid()
      ensures State().auth == old(State()).auth.ReauthenticateSent()
      ensures r.Ok? <==> old(State()).auth.state.Authenticated?
    {
      r := authState.ReauthenticateSent();
    }

    method Reset()
      modifies this, packetIds, qosFlow, flowControl, subscriptions, topicAliases, authState
      ensures Valid()
      ensures State() == old(State()).ResetAll()
    {
      connection, sessionExpiryInterval := Disconnected, 0;
      packetIds.Reset();
      qosFlow.Reset();
      flowControl.Reset(false);
      subscriptions.Reset();
      topicAliases.Reset();
      keepAlive := KeepAlive(0, 0, None);
      authState.Reset();
      capabilities := DEFAULT_CAPABILITIES;
    }
  }
}
