/** What every call keeps, and how a session's flows are a run of the flow manager. */
module SessionInvariants {
  import opened Prelude
  import opened QosFlow
  import opened FlowRuns
  import opened Subscriptions
  import opened SessionSpec

  ghost predicate Wellformed(s: SessionState) {
    && s.flows.Valid()
    && s.subs.IndexExact()
    && s.auth.Valid()
    && 0 !in s.ids
    && s.window.ownReceiveMaximum > 0
  }

  /** The session state is discarded by this event. */
  predicate DiscardsSession(s: SessionState, e: Event) {
    match e
    case ConnackReceived(p) => s.ConnackRefusal(p).None? && !p.sessionPresent
    case MarkedConnected(sessionPresent) => s.cleanStart || !sessionPresent
    case ResetAll => true
    case _ => false
  }

  /** A new connection begins with this event. */
  predicate BeginsConnection(s: SessionState, e: Event) {
    e.ConnectSent? || (e.ConnectSentWithAuth? && s.version == V5)
  }

  /** What the flow manager sees of a session event. */
  function FlowEventOf(s: SessionState, e: Event): Option<FlowEvent> {
    if DiscardsSession(s, e) then Some(FlowEvent.Reset)
    else if BeginsConnection(s, e) then Some(ChargesCleared)
    else match e
      case PubackReceived(id) => Some(PubackIn(id))
      case PubrecReceived(id, reason) => Some(PubrecIn(id, reason))
      case PubrelReceived(id) => Some(PubrelIn(id))
      case PubcompReceived(id) => Some(PubcompIn(id))
      case Publish1Received(id) => if s.HandlePublish(id, AtLeastOnce).1.Ok? then Some(Publish1In(id)) else None
      case Publish2Received(id) => if s.HandlePublish(id, ExactlyOnce).1.Ok? then Some(Publish2In(id)) else None
      case PubackSent(id) => Some(PubackOut(id))
      case PublishSent(qos, id) => if s.PublishSent(qos, id).1.Ok? then Some(Sent(id, qos)) else None
      case PublishAborted(id) => Some(Released(id))
      case PublishResent(id) => if Recharges(s, id) then Some(Charged(id)) else None
      case _ => None
  }

  /** `resend_publish(id)` takes a unit of send quota. */
  predicate Recharges(s: SessionState, id: u16) {
    id in s.flows.outgoing && IsPublish(s.flows.outgoing[id].state) && !s.flows.IsCharged(id) && s.window.CanSend()
  }

  ghost predicate FlowFollows(s: SessionState, e: Event) {
    Step(s, e).flows == match FlowEventOf(s, e)
                        case Some(f) => FlowStep(s.flows, f).0
                        case None => s.flows
  }

  /** Events of the connection's life: they reach the flows through a reset or cleared charges only. */
  predicate IsLifeCycle(e: Event) {
    || e.Configured? || e.ExpirySet? || e.ConnectSent? || e.ConnectSentWithAuth? || e.ConnackReceived?
    || e.MarkedConnected? || e.DisconnectSent? || e.ConnectionLost? || e.AuthReceived? || e.ReauthenticateSent?
    || e.ResetAll?
  }

  predicate IsReceived(e: Event) {
    || e.PubackReceived? || e.PubrecReceived? || e.PubrelReceived? || e.PubcompReceived?
    || e.Publish1Received? || e.Publish2Received?
  }

  lemma LifeCycleFlows(s: SessionState, e: Event)
    requires IsLifeCycle(e)
    ensures FlowFollows(s, e)
  {
  }

  lemma ReceivedFlows(s: SessionState, e: Event)
    requires IsReceived(e)
    ensures FlowFollows(s, e)
  {
  }

  /** A session changes its flows only through the flow manager's own steps, one at most per call. */
  lemma FlowsFollow(s: SessionState, e: Event)
    ensures FlowFollows(s, e)
  {
    if IsLifeCycle(e) {
      LifeCycleFlows(s, e);
    } else if IsReceived(e) {
      ReceivedFlows(s, e);
    }
  }

  ghost predicate KeepsActive(s: Subs, t: Subs) {
    t == Subs.Empty() || (t.active == s.active && t.ids == s.ids)
  }

  lemma LifeCycleKeepsActive(s: SessionState, e: Event)
    requires IsLifeCycle(e)
    ensures KeepsActive(s.subs, Step(s, e).subs)
  {
  }

  lemma ReceivedKeepsSubs(s: SessionState, e: Event)
    requires IsReceived(e)
    ensures Step(s, e).subs == s.subs
  {
  }

  /** All but SUBACK and UNSUBACK leave the active subscriptions alone or discard them. */
  lemma OthersKeepActive(s: SessionState, e: Event)
    requires !e.SubackReceived? && !e.UnsubackReceived?
    ensures KeepsActive(s.subs, Step(s, e).subs)
  {
    if IsLifeCycle(e) {
      LifeCycleKeepsActive(s, e);
    } else if IsReceived(e) {
      ReceivedKeepsSubs(s, e);
    }
  }

  lemma SubsFollow(s: SessionState, e: Event)
    requires s.subs.IndexExact()
    ensures Step(s, e).subs.IndexExact()
  {
    match e {
      case SubackReceived(id, codes) => SubackKeepsIndex(s.subs, id, codes);
      case UnsubackReceived(id, codes) => UnsubackKeepsIndex(s.subs, id, codes);
      case _ =>
        OthersKeepActive(s, e);
        PendingOnly(s.subs, Step(s, e).subs);
    }
  }

  /** Changes to pending requests do not concern the index. */
  lemma PendingOnly(s: Subs, t: Subs)
    requires s.IndexExact()
    requires KeepsActive(s, t)
    ensures t.IndexExact()
  {
    if t != Subs.Empty() {
      assert forall f, id :: t.Listed(f, id) <==> s.Listed(f, id);
      assert forall f, id :: t.HasIdentifier(f, id) <==> s.HasIdentifier(f, id);
    }
  }

  lemma StepKeepsWellformed(s: SessionState, e: Event)
    requires Wellformed(s)
    ensures Wellformed(Step(s, e))
  {
    FlowsFollow(s, e);
    if FlowEventOf(s, e).Some? {
      StepKeepsValid(s.flows, FlowEventOf(s, e).value);
    }
    SubsFollow(s, e);
    AuthFollows(s, e);
    IdsStayPositive(s, e);
    OwnMaximumStaysPositive(s, e);
  }

  lemma IdsStayPositive(s: SessionState, e: Event)
    requires 0 !in s.ids
    ensures 0 !in Step(s, e).ids
  {
  }

  lemma OwnMaximumStaysPositive(s: SessionState, e: Event)
    requires s.window.ownReceiveMaximum > 0
    ensures Step(s, e).window.ownReceiveMaximum > 0
  {
  }

  lemma AuthUntouched(s: SessionState, e: Event)
    requires !IsLifeCycle(e)
    ensures Step(s, e).auth == s.auth
  {
  }

  lemma AuthFollows(s: SessionState, e: Event)
    requires s.auth.Valid()
    ensures Step(s, e).auth.Valid()
  {
    if !IsLifeCycle(e) {
      AuthUntouched(s, e);
    }
  }

  /** Every reachable session is well formed. */
  lemma {:induction false} RunWellformed(s: SessionState, events: seq<Event>)
    requires Wellformed(s)
    ensures Wellformed(Run(s, events))
    decreases |events|
  {
    if events != [] {
      StepKeepsWellformed(s, events[0]);
      RunWellformed(Step(s, events[0]), events[1..]);
    }
  }

  /** The flow events of a run, in order. */
  ghost function FlowTrace(s: SessionState, events: seq<Event>): seq<FlowEvent>
    decreases |events|
  {
    if events == [] then []
    else
      (match FlowEventOf(s, events[0])
       case Some(f) => [f]
       case None => []) + FlowTrace(Step(s, events[0]), events[1..])
  }

  lemma {:induction false} FlowsAreARun(s: SessionState, events: seq<Event>)
    ensures Run(s, events).flows == FlowRun(s.flows, FlowTrace(s, events))
    decreases |events|
  {
    if events != [] {
      FlowsFollow(s, events[0]);
      var rest := FlowTrace(Step(s, events[0]), events[1..]);
      FlowsAreARun(Step(s, events[0]), events[1..]);
      match FlowEventOf(s, events[0]) {
        case Some(f) => assert ([f] + rest)[1..] == rest;
        case None => assert [] + rest == rest;
      }
    }
  }

  /**
   * Section 4.6 of MQTT v5.0 for whole sessions: whatever happened since the session was created,
   * its pending list names every outgoing flow once, PUBLISH entries in the order of the original
   * sends and PUBREL entries in the order of the first successful PUBRECs.
   */
  lemma SessionRetransmissionOrder(s: SessionState, events: seq<Event>, ids: seq<u16>)
    requires s.flows == Flows.Empty()
    requires Listing(Run(s, events).flows.outgoing, ids)
    ensures var f := Run(s, events).flows;
            var ledger := LedgerRun(Flows.Empty(), Ledger([], []), FlowTrace(s, events));
            var entries := Retransmissions(f, ids);
            && |entries| == |f.outgoing| && Distinct(ids)
            && PublishIds(entries) == ledger.publishes
            && PubrelIds(entries) == ledger.pubrels
  {
    FlowsAreARun(s, events);
    RetransmissionOrder(FlowTrace(s, events), ids);
  }
}
