/** CONNACK is all or nothing, and what an authenticated session has seen (section 4.12 of MQTT v5.0). */
module Connack {
  import opened Prelude
  import opened FlowControls
  import opened QosFlow
  import opened Subscriptions
  import opened Authentication
  import opened SessionSpec
  import opened SessionInvariants
  import opened Replay

  /** A refused CONNACK changes nothing; an accepted one connects and keeps the session iff it is present. */
  lemma ConnackAllOrNothing(s: SessionState, p: ConnackParams)
    ensures var (t, r) := s.ApplyConnack(p);
            && (r.Err? ==> t == s)
            && (r.Ok? ==> s.connection == Connecting && t.connection == Connected)
            && (r.Ok? && p.sessionPresent ==> t.ids == s.ids && t.flows == s.flows && t.subs == s.subs)
            && (r.Ok? && !p.sessionPresent ==> t.ids == {} && t.flows == Flows.Empty() && t.subs == Subs.Empty())
            && (r.Ok? && s.version == V311 ==> t.auth == s.auth && t.capabilities == s.capabilities)
            && (r.Ok? && t.version == V5 ==> t.clientId != "")
            && (r.Ok? && s.window.receiveMaximum > 0 ==> t.window.receiveMaximum > 0)
  {
  }

  /** Given parameters take effect, absent ones leave the value that was there. */
  lemma ConnackParameters(s: SessionState, p: ConnackParams)
    requires s.ConnackRefusal(p).None?
    ensures var t := s.ApplyConnack(p).0;
            && t.window == (if p.receiveMaximum.None? then s.window
                            else s.window.(receiveMaximum := p.receiveMaximum.value, initialized := true))
            && t.aliases.peerMaximum == OrElse(p.topicAliasMaximum, s.aliases.peerMaximum)
            && t.keepAlive.seconds == OrElse(p.serverKeepAlive, s.keepAlive.seconds)
            && t.sessionExpiryInterval == OrElse(p.sessionExpiryInterval, s.sessionExpiryInterval)
            && t.capabilities.maximumPacketSize == (if p.maximumPacketSize.Some? then p.maximumPacketSize
                                                    else s.capabilities.maximumPacketSize)
            && t.capabilities.wildcardSubscriptionAvailable
               == OrElse(p.wildcardSubscriptionAvailable, s.capabilities.wildcardSubscriptionAvailable)
            && t.capabilities.subscriptionIdentifiersAvailable
               == OrElse(p.subscriptionIdentifiersAvailable, s.capabilities.subscriptionIdentifiersAvailable)
            && t.capabilities.sharedSubscriptionAvailable
               == OrElse(p.sharedSubscriptionAvailable, s.capabilities.sharedSubscriptionAvailable)
            && t.capabilities.maximumQos == OrElse(p.maximumQos, s.capabilities.maximumQos)
            && t.capabilities.retainAvailable == OrElse(p.retainAvailable, s.capabilities.retainAvailable)
            && t.clientId == (if s.clientId == "" then OrElse(p.assignedClientIdentifier, "") else s.clientId)
            && t.auth.authMethod == s.auth.authMethod && t.maxPacketSize == s.maxPacketSize
  {
  }

  /** The values that `configure_for_connect` stores first are those the session has already. */
  predicate ConfiguresNothingNew(s: SessionState, seconds: u16, expiry: u32, aliasMaximum: u16) {
    && s.keepAlive.seconds == seconds && s.sessionExpiryInterval == expiry
    && s.aliases == s.aliases.SetOwnMaximum(aliasMaximum)
  }

  /**
   * `configure_for_connect` is all or nothing if and only if the Receive Maximum is not 0 or the
   * three values stored before it is looked at are not new.
   */
  lemma ConfigureAllOrNothingIff(s: SessionState, seconds: u16, expiry: u32, aliasMaximum: u16,
                                 receiveMaximum: u16, packetSize: u32)
    ensures var (t, r) := s.Configure(seconds, expiry, aliasMaximum, receiveMaximum, packetSize);
            && (r.Err? <==> receiveMaximum == 0)
            && ((r.Err? ==> t == s) <==> receiveMaximum != 0 || ConfiguresNothingNew(s, seconds, expiry, aliasMaximum))
  {
  }

  /** A new session refuses a Receive Maximum of 0 and has changed. */
  lemma RefusedConfigurationChanges(version: Version, clientId: string, cleanStart: bool, packetSize: u32)
    ensures var s := SessionState.New(version, clientId, cleanStart);
            var (t, r) := s.Configure(60, 3600, 10, 0, packetSize);
            && r == Err(FlowControlError.InvalidReceiveMaximum) && t != s
            && t.keepAlive.seconds == 60 && t.sessionExpiryInterval == 3600 && t.aliases.ownMaximum == 10
  {
  }

  /** Two sessions that differ at most in what belongs to a connection. */
  predicate SameSession(s: SessionState, t: SessionState) {
    && s.version == t.version && s.clientId == t.clientId && s.cleanStart == t.cleanStart
    && s.sessionExpiryInterval == t.sessionExpiryInterval && s.maxPacketSize == t.maxPacketSize
    && s.ids == t.ids && s.subs == t.subs
    && s.window.ownReceiveMaximum == t.window.ownReceiveMaximum && s.aliases.ownMaximum == t.aliases.ownMaximum
    && s.keepAlive.seconds == t.keepAlive.seconds && s.keepAlive.lastActivity == t.keepAlive.lastActivity
    && s.flows.incoming == t.flows.incoming && s.flows.nextSeq == t.flows.nextSeq
    && s.flows.ClearCharges().outgoing == t.flows.ClearCharges().outgoing
  }

  /** A new connection starts alike whatever the last one left behind. */
  lemma ConnectionsAreIndependent(s: SessionState, t: SessionState, m: string)
    requires SameSession(s, t)
    ensures s.ConnectSent() == t.ConnectSent()
    ensures s.version == V5 ==> s.ConnectSentWithAuth(m) == t.ConnectSentWithAuth(m)
  {
  }

  /** The event puts an end to an exchange under method `m`, or shows another method. */
  predicate Breaks(version: Version, e: Event, m: string) {
    || e.ConnectSent? || e.ResetAll? || (e.ConnectSentWithAuth? && version == V5)
    || (e.AuthReceived? && e.received != Some(m) && !(e.reason == SUCCESS && e.received.None?))
    || (e.AuthReceived? && e.reason != SUCCESS && e.reason != CONTINUE_AUTHENTICATION)
  }

  /** The CONNACK is accepted by `s` and carries the method `m`. */
  predicate Proves(s: SessionState, e: Event, m: string) {
    e.ConnackReceived? && s.ConnackRefusal(e.params).None? && e.params.authenticationMethod == Some(m)
  }

  predicate IsProven(a: Auth) {
    a.state.Authenticated? || a.state.Reauthenticating?
  }

  /** How one event can lead to an exchange under way, and to an authenticated session. */
  lemma AuthStep(s: SessionState, e: Event)
    requires s.auth.Valid()
    ensures var a := Step(s, e).auth;
            && a.Valid()
            && (a.state.InitialAuthenticating? ==>
                  var m := a.authMethod.value;
                  || (e == ConnectSentWithAuth(m) && s.version == V5)
                  || (s.auth == a && !Breaks(s.version, e, m)))
            && (IsProven(a) ==>
                  var m := a.authMethod.value;
                  && s.auth.authMethod == Some(m)
                  && if s.auth.state.InitialAuthenticating? then Proves(s, e, m)
                     else IsProven(s.auth) && !Breaks(s.version, e, m))
  {
    if !IsLifeCycle(e) {
      AuthUntouched(s, e);
    }
  }

  lemma StepKeepsVersion(s: SessionState, e: Event)
    ensures Step(s, e).version == s.version
  {
  }

  lemma {:induction false} RunKeepsVersion(s: SessionState, events: seq<Event>)
    ensures Run(s, events).version == s.version
    decreases |events|
  {
    if events != [] {
      StepKeepsVersion(s, events[0]);
      RunKeepsVersion(Step(s, events[0]), events[1..]);
    }
  }

  ghost predicate UnbrokenSince(version: Version, events: seq<Event>, j: nat, m: string) {
    forall k | j < k < |events| :: !Breaks(version, events[k], m)
  }

  /** Event `j` is the CONNECT that offered `m`, and the exchange lives on. */
  ghost predicate OfferedAt(s: SessionState, events: seq<Event>, j: nat, m: string) {
    j < |events| && events[j] == ConnectSentWithAuth(m) && UnbrokenSince(s.version, events, j, m)
  }

  /** Event `i` is the CONNACK that confirmed it. */
  ghost predicate ProvenAt(s: SessionState, events: seq<Event>, j: nat, i: nat, m: string) {
    OfferedAt(s, events, j, m) && j < i < |events| && Proves(Run(s, events[..i]), events[i], m)
  }

  ghost predicate Explained(s: SessionState, events: seq<Event>) {
    var a := Run(s, events).auth;
    && a.Valid()
    && (a.state.InitialAuthenticating? ==> exists j :: OfferedAt(s, events, j, a.authMethod.value))
    && (IsProven(a) ==> exists j, i :: ProvenAt(s, events, j, i, a.authMethod.value))
  }

  lemma OfferedLater(s: SessionState, events: seq<Event>, e: Event, j: nat, m: string)
    requires OfferedAt(s, events, j, m) && !Breaks(s.version, e, m)
    ensures OfferedAt(s, events + [e], j, m)
  {
  }

  lemma ProvenLater(s: SessionState, events: seq<Event>, e: Event, j: nat, i: nat, m: string)
    requires ProvenAt(s, events, j, i, m) && !Breaks(s.version, e, m)
    ensures ProvenAt(s, events + [e], j, i, m)
  {
    OfferedLater(s, events, e, j, m);
    assert (events + [e])[..i] == events[..i];
  }

  lemma ExplainedStep(s: SessionState, events: seq<Event>, e: Event)
    requires Explained(s, events)
    ensures Explained(s, events + [e])
  {
    var t := Run(s, events);
    RunAppend(s, events, [e]);
    assert Run(t, [e]) == Run(Step(t, e), []) by { assert [e][1..] == []; }
    RunKeepsVersion(s, events);
    AuthStep(t, e);
    var a := Step(t, e).auth;
    if a.state.InitialAuthenticating? {
      var m := a.authMethod.value;
      if Breaks(s.version, e, m) {
        assert OfferedAt(s, events + [e], |events|, m);
      } else {
        var j :| OfferedAt(s, events, j, m);
        OfferedLater(s, events, e, j, m);
      }
    } else if IsProven(a) {
      var m := a.authMethod.value;
      if t.auth.state.InitialAuthenticating? {
        var j :| OfferedAt(s, events, j, m);
        OfferedLater(s, events, e, j, m);
        assert (events + [e])[..|events|] == events;
        assert ProvenAt(s, events + [e], j, |events|, m);
      } else {
        var j, i :| ProvenAt(s, events, j, i, m);
        ProvenLater(s, events, e, j, i, m);
      }
    }
  }

  lemma {:induction false} ExplainedRun(s: SessionState, events: seq<Event>)
    requires s.auth == Auth.Initial()
    ensures Explained(s, events)
    decreases |events|
  {
    if events != [] {
      var last := |events| - 1;
      ExplainedRun(s, events[..last]);
      ExplainedStep(s, events[..last], events[last]);
      assert events[..last] + [events[last]] == events;
    }
  }

  /**
   * Authentication is sound: a session that reports itself authenticated sent CONNECT with a method
   * on this connection, accepted a CONNACK carrying the same method after it, and every AUTH packet
   * received since then named that method (or closed a re-authentication without naming one).
   */
  lemma AuthenticationSound(version: Version, clientId: string, cleanStart: bool, events: seq<Event>)
    ensures var s := SessionState.New(version, clientId, cleanStart);
            var a := Run(s, events).auth;
            IsProven(a) ==>
              a.authMethod.Some? && exists j, i :: ProvenAt(s, events, j, i, a.authMethod.value)
  {
    ExplainedRun(SessionState.New(version, clientId, cleanStart), events);
  }
}
