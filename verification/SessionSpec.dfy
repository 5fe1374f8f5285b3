/** What every operation of a session does to its whole state (src/state/session/mod.rs). */
module SessionSpec {
  import opened Prelude
  import opened PacketIds
  import opened FlowControls
  import opened QosFlow
  import opened Subscriptions
  import opened TopicAliases
  import opened Authentication

  datatype ConnectionState = Disconnected | Connecting | Connected | Disconnecting

  const DEFAULT_CAPABILITIES := Capabilities(None, ExactlyOnce, true, true, true, true)
  const DEFAULT_MAX_PACKET_SIZE: nat := 256 * 1024 * 1024

  datatype KeepAlive = KeepAlive(seconds: u16, lastActivity: nat, pingreqSentAt: Option<nat>)

  datatype ConnackReason = V5Reason(code: u8) | V311Return(code: u8)

  datatype ConnackParams = ConnackParams(
    sessionPresent: bool,
    reason: ConnackReason,
    sessionExpiryInterval: Option<u32>,
    receiveMaximum: Option<u16>,
    topicAliasMaximum: Option<u16>,
    serverKeepAlive: Option<u16>,
    maximumPacketSize: Option<u32>,
    maximumQos: Option<QoS>,
    retainAvailable: Option<bool>,
    wildcardSubscriptionAvailable: Option<bool>,
    subscriptionIdentifiersAvailable: Option<bool>,
    sharedSubscriptionAvailable: Option<bool>,
    assignedClientIdentifier: Option<string>,
    authenticationMethod: Option<string>)
  {
    predicate HasV5OnlyFields() {
      || sessionExpiryInterval.Some? || receiveMaximum.Some? || topicAliasMaximum.Some?
      || serverKeepAlive.Some? || maximumPacketSize.Some? || maximumQos.Some? || retainAvailable.Some?
      || wildcardSubscriptionAvailable.Some? || subscriptionIdentifiersAvailable.Some?
      || sharedSubscriptionAvailable.Some? || assignedClientIdentifier.Some? || authenticationMethod.Some?
    }
  }

  /** What the server allows; a CONNACK overrides the defaults it names. */
  datatype Capabilities = Capabilities(
    maximumPacketSize: Option<u32>,
    maximumQos: QoS,
    retainAvailable: bool,
    wildcardSubscriptionAvailable: bool,
    subscriptionIdentifiersAvailable: bool,
    sharedSubscriptionAvailable: bool)
  {
    function Merged(p: ConnackParams): Capabilities {
      Capabilities(
        if p.maximumPacketSize.Some? then p.maximumPacketSize else maximumPacketSize,
        OrElse(p.maximumQos, maximumQos),
        OrElse(p.retainAvailable, retainAvailable),
        OrElse(p.wildcardSubscriptionAvailable, wildcardSubscriptionAvailable),
        OrElse(p.subscriptionIdentifiersAvailable, subscriptionIdentifiersAvailable),
        OrElse(p.sharedSubscriptionAvailable, sharedSubscriptionAvailable))
    }
  }

  datatype ConnackError =
    | ConnectionRefused
    | SessionPresentProtocolError
    | InvalidReceiveMaximum
    | InvalidMaximumPacketSize
    | InvalidMaximumQoS
    | AssignedClientIdentifierMissing
    | AuthenticationMethodMissing
    | AuthenticationMethodMismatch
    | UnexpectedAuthenticationMethod
    | InvalidConnectionState
    | VersionMismatch
    | V5OnlyParameters

  function OfAuth(e: AuthMethodError): ConnackError {
    match e
    case Missing => AuthenticationMethodMissing
    case Mismatch => AuthenticationMethodMismatch
    case Unexpected => UnexpectedAuthenticationMethod
  }

  function OrElse<T>(o: Option<T>, default: T): T {
    if o.Some? then o.value else default
  }

  datatype SessionState = SessionState(
    version: Version,
    connection: ConnectionState,
    clientId: string,
    cleanStart: bool,
    sessionExpiryInterval: u32,
    ids: set<u16>,
    flows: Flows,
    window: Window,
    subs: Subs,
    aliases: Aliases,
    keepAlive: KeepAlive,
    auth: Auth,
    capabilities: Capabilities,
    maxPacketSize: nat)
  {
    static function New(version: Version, clientId: string, cleanStart: bool): SessionState {
      SessionState(version, Disconnected, clientId, cleanStart, 0, {}, Flows.Empty(), Window.Fresh(),
                   Subs.Empty(), Aliases.Fresh(), KeepAlive(0, 0, None), Auth.Initial(),
                   DEFAULT_CAPABILITIES, DEFAULT_MAX_PACKET_SIZE)
    }

    // -- connection life cycle ---------------------------------------------------------------

    function ResetSession(): SessionState {
      this.(ids := {}, flows := Flows.Empty(), subs := Subs.Empty())
    }

    function ResetConnection(): SessionState {
      this.(window := window.Reset(true),
            flows := flows.ClearCharges(),
            aliases := aliases.ResetMappings().SetPeerMaximum(0),
            auth := Auth.Initial(),
            capabilities := DEFAULT_CAPABILITIES,
            keepAlive := keepAlive.(pingreqSentAt := None))
    }

    function ConnectSent(): SessionState {
      this.(connection := Connecting).ResetConnection()
    }

    function ConnectSentWithAuth(m: string): SessionState {
      if version == V5 then ConnectSent().(auth := Auth.ConnectWithAuth(m)) else this
    }

    function BecomeConnected(sessionPresent: bool): SessionState {
      var s := this.(connection := Connected);
      if cleanStart || !sessionPresent then s.ResetSession() else s
    }

    /** The first reason to refuse a CONNACK that has nothing to do with authentication. */
    function ContentRefusal(p: ConnackParams): Option<ConnackError> {
      if connection != Connecting then Some(InvalidConnectionState)
      else if p.reason.V5Reason? != (version == V5) then Some(VersionMismatch)
      else if version == V311 && p.HasV5OnlyFields() then Some(V5OnlyParameters)
      else if p.reason.code != 0 then Some(ConnectionRefused)
      else if p.sessionPresent && cleanStart then Some(SessionPresentProtocolError)
      else if version == V5 && clientId == "" && OrElse(p.assignedClientIdentifier, "") == ""
      then Some(AssignedClientIdentifierMissing)
      else if p.receiveMaximum == Some(0) then Some(ConnackError.InvalidReceiveMaximum)
      else if p.maximumPacketSize == Some(0) then Some(InvalidMaximumPacketSize)
      else if p.maximumQos == Some(ExactlyOnce) then Some(InvalidMaximumQoS)
      else None
    }

    function AuthRefusal(p: ConnackParams): Option<ConnackError> {
      if version == V311 then None
      else match auth.ConnackError(p.authenticationMethod)
        case None => None
        case Some(e) => Some(OfAuth(e))
    }

    function ConnackRefusal(p: ConnackParams): Option<ConnackError> {
      if ContentRefusal(p).Some? then ContentRefusal(p) else AuthRefusal(p)
    }

    function WithParameters(p: ConnackParams): SessionState {
      this.(window := if p.receiveMaximum.Some?
                      then window.(receiveMaximum := p.receiveMaximum.value, initialized := true) else window,
            sessionExpiryInterval := OrElse(p.sessionExpiryInterval, sessionExpiryInterval),
            aliases := if p.topicAliasMaximum.Some? then aliases.SetPeerMaximum(p.topicAliasMaximum.value)
                       else aliases,
            keepAlive := keepAlive.(seconds := OrElse(p.serverKeepAlive, keepAlive.seconds)),
            capabilities := capabilities.Merged(p),
            clientId := if clientId == "" then OrElse(p.assignedClientIdentifier, "") else clientId)
    }

    function ConnackAccepted(p: ConnackParams): SessionState {
      this.(auth := if version == V5 then auth.ConnackAccepted() else auth)
          .BecomeConnected(p.sessionPresent)
          .WithParameters(p)
    }

    function ApplyConnack(p: ConnackParams): (SessionState, Result<(), ConnackError>) {
      match ConnackRefusal(p)
      case Some(e) => (this, Err(e))
      case None => (ConnackAccepted(p), Ok(()))
    }

    function ResetAll(): SessionState {
      this.(connection := Disconnected, sessionExpiryInterval := 0, ids := {}, flows := Flows.Empty(),
            window := window.Reset(false), subs := Subs.Empty(), aliases := Aliases.Fresh(),
            keepAlive := KeepAlive(0, 0, None), auth := Auth.Initial(), capabilities := DEFAULT_CAPABILITIES)
    }

    /** Not all-or-nothing: a Receive Maximum of 0 is refused after the first three values are stored. */
    function Configure(seconds: u16, expiry: u32, aliasMaximum: u16, receiveMaximum: u16, packetSize: u32)
      : (SessionState, Result<(), FlowControlError>)
    {
      var s := this.(keepAlive := keepAlive.(seconds := seconds),
                     sessionExpiryInterval := expiry,
                     aliases := aliases.SetOwnMaximum(aliasMaximum));
      if receiveMaximum == 0 then (s, Err(FlowControlError.InvalidReceiveMaximum))
      else (s.(window := s.window.(ownReceiveMaximum := receiveMaximum),
               maxPacketSize := if packetSize > 0 then packetSize else s.maxPacketSize),
            Ok(()))
    }

    // -- packets received --------------------------------------------------------------------

    /** The flow `id` is over: its quota and its identifier come back. */
    function Finish(id: u16, flows': Flows): SessionState {
      this.(flows := flows', window := window.PublishAcked(), ids := ids - {id})
    }

    function HandlePuback(id: u16): (SessionState, Reply) {
      var (flows', r) := flows.PubackReceived(id);
      (if r.Ok? && r.value.Some? then Finish(id, flows') else this.(flows := flows'), r)
    }

    function HandlePubrec(id: u16, reason: u8): (SessionState, Reply) {
      var (flows', r) := flows.PubrecReceived(id, reason);
      (if r == Ok(Some(Aborted(id))) then Finish(id, flows') else this.(flows := flows'), r)
    }

    function HandlePubcomp(id: u16): (SessionState, Reply) {
      var (flows', r) := flows.PubcompReceived(id);
      (if r.Ok? && r.value.Some? then Finish(id, flows') else this.(flows := flows'), r)
    }

    function HandlePubrel(id: u16): (SessionState, Reply) {
      var (flows', r) := flows.PubrelReceived(id);
      (this.(flows := flows'), r)
    }

    function HandlePublish(id: u16, qos: QoS): (SessionState, Result<Action, FlowControlError>)
      requires qos != AtMostOnce
    {
      if id !in flows.incoming && !window.CanReceive() then (this, Err(ReceiveMaximumExceeded))
      else
        var (flows', action) :=
          if qos == AtLeastOnce then flows.PublishReceivedQos1(id) else flows.PublishReceivedQos2(id);
        (this.(flows := flows', window := if id in flows.incoming then window else window.PublishReceived()),
         Ok(action))
    }

    function PubackSent(id: u16): SessionState {
      this.(flows := flows.PubackSent(id), window := window.AckSent())
    }

    function PubrecSent(reason: u8): SessionState {
      if reason >= 0x80 then this.(window := window.AckSent()) else this
    }

    function PubcompSent(): SessionState {
      this.(window := window.AckSent())
    }

    // -- packets sent ------------------------------------------------------------------------

    ghost function AllocatePacketId(): (SessionState, Option<u16>) {
      match LeastUnused(ids)
      case Some(id) => (this.(ids := ids + {id}), Some(id))
      case None => (this, None)
    }

    function ReleasePacketId(id: u16): SessionState {
      this.(ids := ids - {id})
    }

    function PublishSent(qos: QoS, id: u16): (SessionState, Result<(), FlowControlError>) {
      if qos == AtMostOnce then (this, Err(FlowControlError.InvalidQoS))
      else if id == 0 then (this, Err(InvalidPacketId))
      else if !window.CanSend() then (this, Err(ReceiveMaximumExceeded))
      else (this.(window := window.PublishSent(), flows := flows.PublishSent(id, qos)), Ok(()))
    }

    function AbortPublish(id: u16): SessionState {
      this.(window := if flows.IsActive(id) then window.PublishAcked() else window,
            flows := flows.Release(id),
            ids := ids - {id})
    }

    function ResendPublish(id: u16): (SessionState, Result<Option<Action>, FlowControlError>) {
      var action := flows.NeedsRetransmission(id);
      if action != Some(Action.ResendPublish(id)) then (this, Ok(None))
      else if flows.IsCharged(id) then (this, Ok(if version == V5 then None else action))
      else if !window.CanSend() then (this, Err(ReceiveMaximumExceeded))
      else (this.(window := window.PublishSent(), flows := flows.MarkCharged(id)), Ok(action))
    }

    function ResendPubrel(id: u16): Option<Action> {
      var action := flows.NeedsRetransmission(id);
      if action == Some(Action.ResendPubrel(id)) then action else None
    }

    function SubscribeSent(id: u16, entries: seq<SubscriptionEntry>): SessionState {
      this.(subs := subs.SubscribeSent(id, entries))
    }

    function UnsubscribeSent(id: u16, filters: seq<string>): SessionState {
      this.(subs := subs.UnsubscribeSent(id, filters))
    }

    function AbortSubscribe(id: u16): SessionState {
      this.(subs := subs.DropPendingSubscribe(id), ids := ids - {id})
    }

    function AbortUnsubscribe(id: u16): SessionState {
      this.(subs := subs.DropPendingUnsubscribe(id), ids := ids - {id})
    }

    /** The identifier is released whether or not a SUBSCRIBE was pending under it. */
    function HandleSuback(id: u16, codes: seq<u8>): (SessionState, Option<seq<SubscriptionEntry>>) {
      var (subs', r) := subs.SubackReceived(id, codes);
      (this.(subs := subs', ids := ids - {id}), r)
    }

    function HandleUnsuback(id: u16, codes: seq<u8>): (SessionState, Option<seq<string>>) {
      var (subs', r) := subs.UnsubackReceived(id, codes);
      (this.(subs := subs', ids := ids - {id}), r)
    }
  }

  // ------------------------------------------------------------------------------------------
  // Events: every call that changes a session.
  // ------------------------------------------------------------------------------------------

  datatype Event =
    | Configured(seconds: u16, expiry: u32, aliasMaximum: u16, receiveMaximum: u16, packetSize: u32)
    | ExpirySet(expiry: u32)
    | ConnectSent
    | ConnectSentWithAuth(authMethod: string)
    | ConnackReceived(params: ConnackParams)
    | MarkedConnected(sessionPresent: bool)
    | DisconnectSent
    | ConnectionLost
    | AuthReceived(reason: u8, received: Option<string>)
    | ReauthenticateSent
    | PubackReceived(id: u16)
    | PubrecReceived(id: u16, reason: u8)
    | PubrelReceived(id: u16)
    | PubcompReceived(id: u16)
    | Publish1Received(id: u16)
    | Publish2Received(id: u16)
    | PubackSent(id: u16)
    | PubrecSent(reason: u8)
    | PubcompSent
    | IdAllocated
    | IdReleased(id: u16)
    | PublishSent(qos: QoS, id: u16)
    | PublishAborted(id: u16)
    | PublishResent(id: u16)
    | SubscribeSent(id: u16, entries: seq<SubscriptionEntry>)
    | UnsubscribeSent(id: u16, filters: seq<string>)
    | SubscribeAborted(id: u16)
    | UnsubscribeAborted(id: u16)
    | SubackReceived(id: u16, codes: seq<u8>)
    | UnsubackReceived(id: u16, codes: seq<u8>)
    | ResetAll

  ghost function Step(s: SessionState, e: Event): SessionState {
    match e
    case Configured(ka, expiry, alias, rm, size) => s.Configure(ka, expiry, alias, rm, size).0
    case ExpirySet(expiry) => s.(sessionExpiryInterval := expiry)
    case ConnectSent => s.ConnectSent()
    case ConnectSentWithAuth(m) => s.ConnectSentWithAuth(m)
    case ConnackReceived(p) => s.ApplyConnack(p).0
    case MarkedConnected(present) => s.BecomeConnected(present)
    case DisconnectSent => s.(connection := Disconnecting)
    case ConnectionLost => s.(connection := Disconnected)
    case AuthReceived(reason, m) => s.(auth := s.auth.AuthReceived(reason, m).0)
    case ReauthenticateSent => s.(auth := s.auth.ReauthenticateSent())
    case PubackReceived(id) => s.HandlePuback(id).0
    case PubrecReceived(id, reason) => s.HandlePubrec(id, reason).0
    case PubrelReceived(id) => s.HandlePubrel(id).0
    case PubcompReceived(id) => s.HandlePubcomp(id).0
    case Publish1Received(id) => s.HandlePublish(id, AtLeastOnce).0
    case Publish2Received(id) => s.HandlePublish(id, ExactlyOnce).0
    case PubackSent(id) => s.PubackSent(id)
    case PubrecSent(reason) => s.PubrecSent(reason)
    case PubcompSent => s.PubcompSent()
    case IdAllocated => s.AllocatePacketId().0
    case IdReleased(id) => s.ReleasePacketId(id)
    case PublishSent(qos, id) => s.PublishSent(qos, id).0
    case PublishAborted(id) => s.AbortPublish(id)
    case PublishResent(id) => s.ResendPublish(id).0
    case SubscribeSent(id, entries) => s.SubscribeSent(id, entries)
    case UnsubscribeSent(id, filters) => s.UnsubscribeSent(id, filters)
    case SubscribeAborted(id) => s.AbortSubscribe(id)
    case UnsubscribeAborted(id) => s.AbortUnsubscribe(id)
    case SubackReceived(id, codes) => s.HandleSuback(id, codes).0
    case UnsubackReceived(id, codes) => s.HandleUnsuback(id, codes).0
    case ResetAll => s.ResetAll()
  }

  ghost function Run(s: SessionState, events: seq<Event>): SessionState
    decreases |events|
  {
    if events == [] then s else Run(Step(s, events[0]), events[1..])
  }

  lemma RunCons(s: SessionState, e: Event, rest: seq<Event>)
    ensures Run(s, [e] + rest) == Run(Step(s, e), rest)
  {
    assert ([e] + rest)[1..] == rest;
  }

  lemma RunOfThree(s: SessionState, e0: Event, e1: Event, e2: Event)
    ensures Run(s, [e0, e1, e2]) == Step(Step(Step(s, e0), e1), e2)
  {
    assert [e0, e1, e2][1..] == [e1, e2] && [e1, e2][1..] == [e2] && [e2][1..] == [];
    assert Run(Step(Step(s, e0), e1), [e2]) == Step(Step(Step(s, e0), e1), e2);
  }
}
