/**
 * What a session answers, stated over the fields of the session and of the call alone: which CONNACK is
 * accepted and with which error another is refused, what every handshake packet is answered with, and
 * what a new connection starts from.
 */
module Answers {
  import opened Prelude
  import opened FlowControls
  import opened QosFlow
  import opened Subscriptions
  import opened TopicAliases
  import opened Authentication
  import opened SessionSpec

  // -- CONNACK ------------------------------------------------------------------------------------

  /** A CONNACK without a parameter that MQTT v3.1.1 does not have. */
  predicate IsPlain(p: ConnackParams) {
    && p.sessionExpiryInterval == None && p.receiveMaximum == None && p.topicAliasMaximum == None
    && p.serverKeepAlive == None && p.maximumPacketSize == None && p.maximumQos == None
    && p.retainAvailable == None && p.wildcardSubscriptionAvailable == None
    && p.subscriptionIdentifiersAvailable == None && p.sharedSubscriptionAvailable == None
    && p.assignedClientIdentifier == None && p.authenticationMethod == None
  }

  /** The reason is one of the session's version and says success. */
  predicate IsSuccess(s: SessionState, p: ConnackParams) {
    p.reason == if s.version == V5 then V5Reason(0) else V311Return(0)
  }

  predicate IsOfVersion(s: SessionState, p: ConnackParams) {
    s.version == V5 <==> p.reason.V5Reason?
  }

  /** The client has an identifier, or is given one. */
  predicate HasClientId(s: SessionState, p: ConnackParams) {
    s.version == V5 && s.clientId == "" ==> p.assignedClientIdentifier.Some? && p.assignedClientIdentifier.value != ""
  }

  /** The method is the one that was offered, and absent where none was. */
  predicate HasMethod(s: SessionState, p: ConnackParams) {
    s.version == V5 ==>
      if s.auth.state == InitialAuthenticating
      then p.authenticationMethod.Some? && p.authenticationMethod == s.auth.authMethod
      else p.authenticationMethod == None
  }

  /** Exactly when `apply_connack` accepts. */
  lemma ConnackAcceptedIff(s: SessionState, p: ConnackParams)
    ensures s.ApplyConnack(p).1.Ok? <==>
            && s.connection == Connecting && IsSuccess(s, p)
            && (s.version == V311 ==> IsPlain(p))
            && !(p.sessionPresent && s.cleanStart)
            && HasClientId(s, p)
            && p.receiveMaximum != Some(0) && p.maximumPacketSize != Some(0) && p.maximumQos != Some(ExactlyOnce)
            && HasMethod(s, p)
  {
  }

  /** The checks in their order: each error is the one for the first of them that fails. */
  lemma ConnackErrors(s: SessionState, p: ConnackParams)
    ensures var r := s.ApplyConnack(p).1;
            && (r == Err(InvalidConnectionState) <==> s.connection != Connecting)
            && (r == Err(VersionMismatch) <==> s.connection == Connecting && !IsOfVersion(s, p))
            && (s.connection == Connecting && IsOfVersion(s, p) ==>
                  && (r == Err(V5OnlyParameters) <==> s.version == V311 && !IsPlain(p))
                  && (s.version == V5 || IsPlain(p) ==>
                        && (r == Err(ConnectionRefused) <==> !IsSuccess(s, p))
                        && (IsSuccess(s, p) ==> ContentErrors(s, p, r))))
  {
  }

  /** The errors of a CONNACK that says success. */
  ghost predicate ContentErrors(s: SessionState, p: ConnackParams, r: Result<(), ConnackError>) {
    && (r == Err(SessionPresentProtocolError) <==> p.sessionPresent && s.cleanStart)
    && (!(p.sessionPresent && s.cleanStart) ==>
          && (r == Err(AssignedClientIdentifierMissing) <==> !HasClientId(s, p))
          && (HasClientId(s, p) ==>
                && (r == Err(ConnackError.InvalidReceiveMaximum) <==> p.receiveMaximum == Some(0))
                && (p.receiveMaximum != Some(0) ==>
                      && (r == Err(InvalidMaximumPacketSize) <==> p.maximumPacketSize == Some(0))
                      && (p.maximumPacketSize != Some(0) ==>
                            && (r == Err(InvalidMaximumQoS) <==> p.maximumQos == Some(ExactlyOnce))
                            && (p.maximumQos != Some(ExactlyOnce) ==> MethodErrors(s, p, r))))))
  }

  ghost predicate MethodErrors(s: SessionState, p: ConnackParams, r: Result<(), ConnackError>) {
    var offered := s.version == V5 && s.auth.state == InitialAuthenticating;
    && (r == Err(AuthenticationMethodMissing) <==> offered && p.authenticationMethod == None)
    && (r == Err(AuthenticationMethodMismatch) <==>
          offered && p.authenticationMethod != None && p.authenticationMethod != s.auth.authMethod)
    && (r == Err(UnexpectedAuthenticationMethod) <==>
          s.version == V5 && s.auth.state != InitialAuthenticating && p.authenticationMethod != None)
    && (r == Ok(()) <==> HasMethod(s, p))
  }

  // -- AUTH ---------------------------------------------------------------------------------------

  /** Each answer goes with one state afterwards; failures are told apart by what the state allowed. */
  lemma AuthAnswers(a: Auth, reason: u8, m: Option<string>)
    requires a.Valid()
    ensures var (b, answer) := a.AuthReceived(reason, m);
            var underWay := a.state == InitialAuthenticating || a.state == Reauthenticating;
            var challenge := underWay && reason == 0x18;
            var closing := a.state == Reauthenticating && reason == 0x00;
            && (answer == NowAuthenticated <==> b.state == Authenticated)
            && (answer == NowAuthenticated <==> closing && (m == None || m == a.authMethod))
            && (answer == Continue <==> b.state == a.state && underWay)
            && (answer == Continue <==> challenge && m == a.authMethod)
            && (answer == MethodMismatch || answer == Failed <==> b.state == Idle)
            && (answer == Failed <==> !challenge && !closing)
            && (b.state == Idle ==> b.authMethod == None)
            && (b.state != Idle ==> b.authMethod == a.authMethod)
  {
  }

  /** A legal AUTH is never refused: a challenge or a closing AUTH with the method, or a closing one without. */
  lemma LegalAuthIsAccepted(a: Auth, reason: u8)
    requires a.Valid()
    ensures a.state == Reauthenticating ==>
              && a.AuthReceived(0x00, a.authMethod).1 == NowAuthenticated
              && a.AuthReceived(0x00, None).1 == NowAuthenticated
              && a.AuthReceived(0x18, a.authMethod) == (a, Continue)
    ensures a.state == InitialAuthenticating ==> a.AuthReceived(0x18, a.authMethod) == (a, Continue)
    ensures a.state == Authenticated || a.state == Idle ==> a.AuthReceived(reason, a.authMethod).1 == Failed
  {
  }

  /** An accepted CONNACK ends the first exchange, and an authenticated session may begin another. */
  lemma AuthSteps(a: Auth)
    ensures a.ConnackAccepted()
            == if a.state == InitialAuthenticating then Auth(Authenticated, a.authMethod) else a
    ensures a.ReauthenticateSent() == if a.state == Authenticated then Auth(Reauthenticating, a.authMethod) else a
  {
  }

  // -- the handshake ------------------------------------------------------------------------------

  predicate Waits(s: SessionState, id: u16, state: FlowState) {
    id in s.flows.outgoing && s.flows.outgoing[id].state == state
  }

  /** The flow is over, its identifier free and its unit back. */
  predicate IsOver(s: SessionState, t: SessionState, id: u16) {
    && t.flows == s.flows.(outgoing := s.flows.outgoing - {id}) && t.ids == s.ids - {id}
    && t.window == s.window.(outstanding := if s.window.outstanding == 0 then 0 else s.window.outstanding - 1)
    && t == s.(flows := t.flows, ids := t.ids, window := t.window)
  }

  /** An acknowledgement that fits no flow changes nothing: a mismatch if any flow has its identifier. */
  predicate IsIgnored(s: SessionState, t: SessionState, id: u16, r: Reply) {
    t == s && r == if id in s.flows.outgoing || id in s.flows.incoming then Err(StateMismatch) else Ok(None)
  }

  lemma PubackAnswer(s: SessionState, id: u16)
    ensures var (t, r) := s.HandlePuback(id);
            if Waits(s, id, AwaitingPuback) then r == Ok(Some(Complete(id))) && IsOver(s, t, id)
            else IsIgnored(s, t, id, r)
  {
  }

  lemma PubcompAnswer(s: SessionState, id: u16)
    ensures var (t, r) := s.HandlePubcomp(id);
            if Waits(s, id, AwaitingPubcomp) then r == Ok(Some(Complete(id))) && IsOver(s, t, id)
            else IsIgnored(s, t, id, r)
  {
  }

  /** The exchange goes on: it waits for the PUBCOMP, under the next number and with its unit. */
  predicate IsReleased(s: SessionState, t: SessionState, id: u16)
    requires id in s.flows.outgoing
  {
    var flow := OutgoingFlow(s.flows.nextSeq, AwaitingPubcomp, s.flows.outgoing[id].charged);
    t == s.(flows := s.flows.(outgoing := s.flows.outgoing[id := flow], nextSeq := s.flows.nextSeq + 1))
  }

  lemma PubrecAnswer(s: SessionState, id: u16, reason: u8)
    ensures var (t, r) := s.HandlePubrec(id, reason);
            if Waits(s, id, AwaitingPubrec) then
              if reason < 0x80 then r == Ok(Some(SendPubrel(id))) && IsReleased(s, t, id)
              else r == Ok(Some(Aborted(id))) && IsOver(s, t, id)
            else if Waits(s, id, AwaitingPubcomp) && reason < 0x80 then r == Ok(Some(SendPubrel(id))) && t == s
            else IsIgnored(s, t, id, r)
  {
  }

  lemma PubrelAnswer(s: SessionState, id: u16)
    ensures var (t, r) := s.HandlePubrel(id);
            var theirs := s.flows.incoming;
            if id in theirs && theirs[id] == AwaitingPubrel then
              r == Ok(Some(SendPubcomp(id))) && t == s.(flows := s.flows.(incoming := theirs - {id}))
            else
              && t == s
              && r == if id in theirs || id in s.flows.outgoing then Err(StateMismatch) else Ok(Some(ResendPubcomp(id)))
  {
  }

  /** The flow state that a PUBLISH received with this QoS leads to. */
  predicate IsTaken(s: SessionState, t: SessionState, id: u16, state: FlowState) {
    && t.flows == s.flows.(incoming := s.flows.incoming[id := state])
    && t.window.incoming == s.window.incoming + (if id in s.flows.incoming then 0 else 1)
    && t == s.(flows := t.flows, window := s.window.(incoming := t.window.incoming))
  }

  /** Only a new identifier needs a slot; a QoS 1 PUBLISH is answered by a PUBACK, a QoS 2 one by a PUBREC. */
  lemma PublishAnswer(s: SessionState, id: u16)
    ensures var refused := id !in s.flows.incoming && s.window.incoming >= s.window.ownReceiveMaximum;
            var ((t1, r1), (t2, r2)) := (s.HandlePublish(id, AtLeastOnce), s.HandlePublish(id, ExactlyOnce));
            if refused then
              t1 == t2 == s && r1 == r2 == Err(ReceiveMaximumExceeded)
            else
              && r1 == Ok(SendPuback(id)) && IsTaken(s, t1, id, IncomingAwaitingPuback)
              && r2 == Ok(SendPubrec(id, id in s.flows.incoming)) && IsTaken(s, t2, id, AwaitingPubrel)
  {
  }

  /** The slots that acknowledgements give back. */
  lemma AcknowledgementsSent(s: SessionState, id: u16, reason: u8)
    ensures var oneLess := s.window.(incoming := if s.window.incoming == 0 then 0 else s.window.incoming - 1);
            && s.PubcompSent() == s.(window := oneLess)
            && s.PubrecSent(reason) == (if reason < 0x80 then s else s.(window := oneLess))
            && var theirs := s.flows.incoming;
               var waits := id in theirs && theirs[id] == IncomingAwaitingPuback;
               s.PubackSent(id)
               == s.(window := oneLess, flows := s.flows.(incoming := if waits then theirs - {id} else theirs))
  {
  }

  /** A PUBLISH to be sent: the QoS is checked first, then the identifier, then the quota. */
  lemma PublishSentAnswer(s: SessionState, qos: QoS, id: u16)
    ensures var (t, r) := s.PublishSent(qos, id);
            && (r == Err(FlowControlError.InvalidQoS) <==> qos == AtMostOnce)
            && (r == Err(InvalidPacketId) <==> qos != AtMostOnce && id == 0)
            && (r == Err(ReceiveMaximumExceeded) <==>
                  qos != AtMostOnce && id != 0 && s.window.outstanding >= s.window.receiveMaximum)
            && (r == Ok(()) <==> qos != AtMostOnce && id != 0 && s.window.outstanding < s.window.receiveMaximum)
            && (r.Err? ==> t == s)
            && (r.Ok? ==> t.window == s.window.(outstanding := s.window.outstanding + 1))
            && (r.Ok? && id !in s.flows.outgoing ==>
                  t.flows == s.flows.(
                    outgoing := s.flows.outgoing[id := OutgoingFlow(
                      s.flows.nextSeq, if qos == AtLeastOnce then AwaitingPuback else AwaitingPubrec, true)],
                    nextSeq := s.flows.nextSeq + 1))
            && (r.Ok? && id in s.flows.outgoing ==> t.flows == s.flows)
            && t == s.(flows := t.flows, window := t.window)
  {
  }

  /** What is to be sent again is decided by the state of the flow. */
  lemma RetransmissionAnswer(f: Flows, id: u16)
    requires id in f.outgoing
    ensures var state := f.outgoing[id].state;
            && (state == AwaitingPuback || state == AwaitingPubrec
                ==> f.NeedsRetransmission(id) == Some(ResendPublish(id)))
            && (state == AwaitingPubcomp ==> f.NeedsRetransmission(id) == Some(ResendPubrel(id)))
  {
  }

  /** Resending a PUBLISH: once on a connection in MQTT v5.0, for nothing after the first time in MQTT v3.1.1. */
  lemma ResendAnswer(s: SessionState, id: u16)
    ensures var (t, r) := s.ResendPublish(id);
            var waits := Waits(s, id, AwaitingPuback) || Waits(s, id, AwaitingPubrec);
            && (!waits ==> t == s && r == Ok(None))
            && (waits && s.flows.outgoing[id].charged ==>
                  t == s && r == if s.version == V5 then Ok(None) else Ok(Some(Action.ResendPublish(id))))
            && (waits && !s.flows.outgoing[id].charged ==>
                  if s.window.outstanding >= s.window.receiveMaximum then t == s && r == Err(ReceiveMaximumExceeded)
                  else
                    && r == Ok(Some(Action.ResendPublish(id)))
                    && t == s.(window := s.window.(outstanding := s.window.outstanding + 1),
                               flows := s.flows.(outgoing :=
                                 s.flows.outgoing[id := s.flows.outgoing[id].(charged := true)])))
            && s.ResendPubrel(id) == if Waits(s, id, AwaitingPubcomp) then Some(Action.ResendPubrel(id)) else None
  {
  }

  /** Giving up clears the identifier in both directions. */
  lemma AbortAnswer(s: SessionState, id: u16)
    ensures var t := s.AbortPublish(id);
            var active := id in s.flows.outgoing || id in s.flows.incoming;
            && t.flows == s.flows.(outgoing := s.flows.outgoing - {id}, incoming := s.flows.incoming - {id})
            && t.ids == s.ids - {id}
            && t.window == (if active && s.window.outstanding > 0
                            then s.window.(outstanding := s.window.outstanding - 1) else s.window)
            && t == s.(flows := t.flows, ids := t.ids, window := t.window)
  {
  }

  /** Requests: what waits, and that its identifier comes back with the answer or when it is given up. */
  lemma RequestAnswers(s: SessionState, id: u16, entries: seq<SubscriptionEntry>, filters: seq<string>, codes: seq<u8>)
    ensures s.SubscribeSent(id, entries) == s.(subs := s.subs.SubscribeSent(id, entries))
    ensures s.UnsubscribeSent(id, filters) == s.(subs := s.subs.UnsubscribeSent(id, filters))
    ensures s.AbortSubscribe(id) == s.(ids := s.ids - {id}, subs := s.subs.DropPendingSubscribe(id))
    ensures s.AbortUnsubscribe(id) == s.(ids := s.ids - {id}, subs := s.subs.DropPendingUnsubscribe(id))
    ensures var (subs, r) := s.subs.SubackReceived(id, codes);
            s.HandleSuback(id, codes) == (s.(ids := s.ids - {id}, subs := subs), r)
    ensures var (subs, r) := s.subs.UnsubackReceived(id, codes);
            s.HandleUnsuback(id, codes) == (s.(ids := s.ids - {id}, subs := subs), r)
    ensures s.ReleasePacketId(id) == s.(ids := s.ids - {id})
  {
  }

  // -- where a session and a connection start -----------------------------------------------------

  /** What the server allows as long as it says nothing else. */
  predicate AllowsEverything(c: Capabilities) {
    && c.maximumPacketSize == None && c.maximumQos == ExactlyOnce && c.retainAvailable
    && c.wildcardSubscriptionAvailable && c.subscriptionIdentifiersAvailable && c.sharedSubscriptionAvailable
  }

  /** Nothing is owed by either side. */
  predicate IsIdle(s: SessionState) {
    && s.ids == {} && s.flows.outgoing == map[] && s.flows.incoming == map[] && s.flows.nextSeq == 0
    && s.subs.active == map[] && s.subs.pendingSubscribes == map[] && s.subs.pendingUnsubscribes == map[]
    && s.subs.ids == map[]
  }

  /** Both windows are those of section 4.9: 65535 until something else is said. */
  lemma NewSession(version: Version, clientId: string, cleanStart: bool)
    ensures var s := SessionState.New(version, clientId, cleanStart);
            && s.version == version && s.clientId == clientId && s.cleanStart == cleanStart
            && s.connection == Disconnected && s.sessionExpiryInterval == 0 && IsIdle(s)
            && s.window.receiveMaximum == 65535 && s.window.outstanding == 0
            && s.window.ownReceiveMaximum == 65535 && s.window.incoming == 0 && !s.window.initialized
            && s.aliases.ownMaximum == 0 && s.aliases.peerMaximum == 0
            && s.keepAlive == KeepAlive(0, 0, None) && s.auth.state == Idle && s.auth.authMethod == None
            && AllowsEverything(s.capabilities) && s.maxPacketSize == 268_435_456
  {
  }

  /** A new connection forgets what belongs to one, and keeps the session. */
  lemma NewConnection(s: SessionState)
    ensures var t := s.ConnectSent();
            && t.connection == Connecting
            && t.window.receiveMaximum == 65535 && t.window.outstanding == 0 && t.window.incoming == 0
            && t.window.ownReceiveMaximum == s.window.ownReceiveMaximum && !t.window.initialized
            && t.aliases.peerMaximum == 0 && t.aliases.ownMaximum == s.aliases.ownMaximum
            && (forall i | 0 <= i < |t.aliases.send| :: t.aliases.send[i] == None)
            && (forall i | 0 <= i < |t.aliases.receive| :: t.aliases.receive[i] == None)
            && t.auth.state == Idle && t.auth.authMethod == None
            && AllowsEverything(t.capabilities) && t.keepAlive == s.keepAlive.(pingreqSentAt := None)
            && t.flows.outgoing.Keys == s.flows.outgoing.Keys
            && (forall id | id in s.flows.outgoing ::
                  t.flows.outgoing[id] == s.flows.outgoing[id].(charged := false))
            && t.flows.incoming == s.flows.incoming && t.flows.nextSeq == s.flows.nextSeq
            && t.ids == s.ids && t.subs == s.subs && t.version == s.version && t.clientId == s.clientId
            && t.cleanStart == s.cleanStart && t.sessionExpiryInterval == s.sessionExpiryInterval
            && t.maxPacketSize == s.maxPacketSize
  {
  }

  /** With enhanced authentication the offered method is remembered; MQTT v3.1.1 has none. */
  lemma NewAuthenticatedConnection(s: SessionState, m: string)
    ensures s.version == V5 ==>
              s.ConnectSentWithAuth(m) == s.ConnectSent().(auth := Auth(InitialAuthenticating, Some(m)))
    ensures s.version == V311 ==> s.ConnectSentWithAuth(m) == s
  {
  }

  /** After a full reset only four values tell a session from a new one. */
  lemma ResetIsNew(s: SessionState)
    ensures s.ResetAll() == SessionState.New(s.version, s.clientId, s.cleanStart).(maxPacketSize := s.maxPacketSize)
  {
  }

  /** The session survives exactly when it was not to be discarded and the server has it. */
  lemma MarkedConnected(s: SessionState, present: bool)
    ensures var t := s.BecomeConnected(present);
            && t.connection == Connected
            && (present && !s.cleanStart ==> t == s.(connection := Connected))
            && (!present || s.cleanStart ==> IsIdle(t) && t == s.(connection := Connected, ids := {}, flows := t.flows,
                                                                 subs := t.subs))
  {
  }

  /** A configuration that is accepted stores all its values; a packet size of 0 means no other limit. */
  lemma Configured(s: SessionState, seconds: u16, expiry: u32, aliases: u16, maximum: u16, packetSize: u32)
    ensures var (t, r) := s.Configure(seconds, expiry, aliases, maximum, packetSize);
            && (r == Err(FlowControlError.InvalidReceiveMaximum) <==> maximum == 0) && (r == Ok(()) <==> maximum != 0)
            && t.keepAlive == s.keepAlive.(seconds := seconds) && t.sessionExpiryInterval == expiry
            && t.aliases.ownMaximum == aliases && t.aliases.peerMaximum == s.aliases.peerMaximum
            && t.aliases.send == s.aliases.send
            && t.window == (if maximum == 0 then s.window else s.window.(ownReceiveMaximum := maximum))
            && t.maxPacketSize == (if maximum == 0 || packetSize == 0 then s.maxPacketSize else packetSize)
            && t == s.(keepAlive := t.keepAlive, sessionExpiryInterval := expiry, aliases := t.aliases,
                       window := t.window, maxPacketSize := t.maxPacketSize)
  {
  }

  // -- topic aliases ------------------------------------------------------------------------------

  /** An alias beyond the own maximum is an error, a topic is stored, an empty one looked up. */
  lemma ResolveAnswer(a: Aliases, topic: string, alias: u16)
    ensures var (b, r) := a.Resolve(topic, alias);
            && (alias == 0 ==> b == a && r == if topic == "" then None else Some(topic))
            && (alias > a.ownMaximum && alias != 0 ==> b == a && r == None)
            && (1 <= alias <= a.ownMaximum && topic == "" ==>
                  b == a && r == if alias < |a.receive| then a.receive[alias] else None)
            && (1 <= alias <= a.ownMaximum && topic != "" ==>
                  && r == Some(topic) && alias < |b.receive| && b.receive[alias] == Some(topic)
                  && (forall i | 0 <= i < |a.receive| && i != alias :: i < |b.receive| && b.receive[i] == a.receive[i])
                  && (forall i | |a.receive| <= i < |b.receive| && i != alias :: b.receive[i] == None)
                  && b == a.(receive := b.receive))
  {
  }

  predicate Holds(a: Aliases, alias: nat, topic: string) {
    1 <= alias <= a.peerMaximum && alias < |a.send| && a.send[alias] == Some(topic)
  }

  predicate IsOpen(a: Aliases, alias: nat) {
    1 <= alias <= a.peerMaximum && (alias < |a.send| ==> a.send[alias] == None)
  }

  /** The alias of a known topic, else the least one that is open, else none. */
  lemma RegisterAnswer(a: Aliases, topic: string)
    ensures var (b, r) := a.Register(topic);
            && (r != None ==> Holds(b, r.value, topic))
            && ((exists k: u16 :: Holds(a, k, topic)) ==> b == a && r != None && Holds(a, r.value, topic))
            && ((forall k: u16 :: !Holds(a, k, topic)) ==>
                  && (r != None ==> IsOpen(a, r.value) && forall k: u16 | k < r.value :: !IsOpen(a, k))
                  && (r == None ==> forall k: u16 :: !IsOpen(a, k)))
            && (forall k: u16, other | Holds(a, k, other) :: Holds(b, k, other))
            && b.receive == a.receive && b.ownMaximum == a.ownMaximum && b.peerMaximum == a.peerMaximum
  {
    FoundIs(a, topic);
    FreeIs(a);
    assert forall k: u16 :: Holds(a, k, topic) <==> a.Maps(k, topic);
    assert forall k: u16 :: IsOpen(a, k) <==> a.IsFree(k);
  }

  lemma FoundIs(a: Aliases, topic: string)
    ensures match a.Found(topic)
            case Some(k) => a.Maps(k, topic)
            case None => forall k: u16 :: !a.Maps(k, topic)
  {
    var all := set k: u16 | a.Maps(k, topic);
    if k: u16 :| a.Maps(k, topic) {
      assert k in all;
    }
  }

  lemma FreeIs(a: Aliases)
    ensures match a.FreeAlias()
            case Some(k) => a.IsFree(k) && forall j: u16 | j < k :: !a.IsFree(j)
            case None => forall k: u16 :: !a.IsFree(k)
  {
    var all := set k: u16 | a.IsFree(k);
    forall k: u16 | a.IsFree(k)
      ensures k in all
    {
    }
  }
}
