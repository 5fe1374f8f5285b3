/** Who owns each packet identifier in use. */
module Ownership {
  import opened Prelude
  import opened PacketIds
  import opened QosFlow
  import opened Subscriptions
  import opened SessionSpec
  import opened SessionInvariants

  ghost function Publishing(s: SessionState): set<u16> {
    s.flows.outgoing.Keys
  }

  ghost function Subscribing(s: SessionState): set<u16> {
    s.subs.pendingSubscribes.Keys
  }

  ghost function Unsubscribing(s: SessionState): set<u16> {
    s.subs.pendingUnsubscribes.Keys
  }

  /**
   * Every identifier in use has exactly one owner: an outgoing flow, a pending SUBSCRIBE, a pending
   * UNSUBSCRIBE, or the caller, who was handed it and has not used it yet (`held`).
   */
  ghost predicate Owned(s: SessionState, held: set<u16>) {
    && Publishing(s) !! Subscribing(s) !! Unsubscribing(s) !! held
    && s.ids == Publishing(s) + Subscribing(s) + Unsubscribing(s) + held
  }

  /** What the caller holds after an event. */
  ghost function HeldAfter(s: SessionState, held: set<u16>, e: Event): set<u16> {
    if DiscardsSession(s, e) then {}
    else match e
      case IdAllocated => held + (match LeastUnused(s.ids) case Some(id) => {id} case None => {})
      case IdReleased(id) => held - {id}
      case PublishSent(qos, id) => if s.PublishSent(qos, id).1.Ok? then held - {id} else held
      case SubscribeSent(id, entries) => if id != 0 && entries != [] then held - {id} else held
      case UnsubscribeSent(id, filters) => if id != 0 && filters != [] then held - {id} else held
      case _ => held
  }

  /**
   * The call uses an identifier for what it was handed out for. Packets from the server are free
   * to name any identifier, except that a SUBACK or UNSUBACK must not name one in use elsewhere.
   */
  ghost predicate Permitted(s: SessionState, held: set<u16>, e: Event) {
    match e
    case IdReleased(id) => id !in Publishing(s) + Subscribing(s) + Unsubscribing(s)
    case PublishSent(qos, id) => s.PublishSent(qos, id).1.Ok? ==> id in held + Publishing(s)
    case PublishAborted(id) => id !in Subscribing(s) + Unsubscribing(s) + held
    case SubscribeSent(id, entries) => id != 0 && entries != [] ==> id in held + Subscribing(s)
    case UnsubscribeSent(id, filters) => id != 0 && filters != [] ==> id in held + Unsubscribing(s)
    case SubscribeAborted(id) => id !in Publishing(s) + Unsubscribing(s) + held
    case UnsubscribeAborted(id) => id !in Publishing(s) + Subscribing(s) + held
    case SubackReceived(id, _) => id !in Publishing(s) + Unsubscribing(s) + held
    case UnsubackReceived(id, _) => id !in Publishing(s) + Subscribing(s) + held
    case _ => true
  }

  ghost predicate KeptIffPermitted(s: SessionState, held: set<u16>, e: Event) {
    Owned(Step(s, e), HeldAfter(s, held, e)) <==> Permitted(s, held, e)
  }

  /** The flow `id` ends together with its identifier. */
  ghost predicate Finishes(s: SessionState, t: SessionState, id: u16) {
    id in Publishing(s) && Publishing(t) == Publishing(s) - {id} && t.ids == s.ids - {id}
  }

  /** A packet from the server changes no owner or finishes a flow. */
  lemma ReceivedOwners(s: SessionState, e: Event)
    requires IsReceived(e)
    ensures var t := Step(s, e);
            && t.subs == s.subs
            && ((t.ids == s.ids && Publishing(t) == Publishing(s)) || exists id :: Finishes(s, t, id))
  {
    var t := Step(s, e);
    match e {
      case PubackReceived(id) => assert Finishes(s, t, id) || t == s;
      case PubcompReceived(id) => assert Finishes(s, t, id) || t == s;
      case PubrecReceived(id, _) => assert Finishes(s, t, id) || Publishing(t) == Publishing(s);
      case _ =>
    }
  }

  lemma AckOwnership(s: SessionState, held: set<u16>, e: Event)
    requires Owned(s, held) && IsReceived(e)
    ensures KeptIffPermitted(s, held, e)
  {
    ReceivedOwners(s, e);
  }

  lemma SubackOwnership(s: SessionState, held: set<u16>, e: Event)
    requires s.subs.IndexExact() && Owned(s, held) && (e.SubackReceived? || e.UnsubackReceived?)
    ensures KeptIffPermitted(s, held, e)
  {
    match e {
      case SubackReceived(id, codes) => SubackKeepsIndex(s.subs, id, codes);
      case UnsubackReceived(id, codes) => UnsubackKeepsIndex(s.subs, id, codes);
    }
  }

  lemma LifeCycleOwnership(s: SessionState, held: set<u16>, e: Event)
    requires Owned(s, held) && IsLifeCycle(e)
    ensures KeptIffPermitted(s, held, e)
  {
    var t := Step(s, e);
    if DiscardsSession(s, e) {
      assert t.ids == {} && t.flows == Flows.Empty() && t.subs == Subs.Empty();
    } else {
      assert t.ids == s.ids && Publishing(t) == Publishing(s) && t.subs == s.subs;
    }
  }

  lemma AllocateOwnership(s: SessionState, held: set<u16>)
    requires Owned(s, held)
    ensures KeptIffPermitted(s, held, IdAllocated)
  {
  }

  lemma PublishOwnership(s: SessionState, held: set<u16>, qos: QoS, id: u16)
    requires Owned(s, held)
    ensures KeptIffPermitted(s, held, Event.PublishSent(qos, id))
  {
    if s.PublishSent(qos, id).1.Ok? {
      assert Publishing(Step(s, Event.PublishSent(qos, id))) == Publishing(s) + {id};
    }
  }

  lemma ReleaseOwnership(s: SessionState, held: set<u16>, e: Event)
    requires Owned(s, held) && (e.IdReleased? || e.PublishAborted?)
    ensures KeptIffPermitted(s, held, e)
  {
    if e.PublishAborted? {
      assert Publishing(Step(s, e)) == Publishing(s) - {e.id};
    }
  }

  lemma SubscribeOwnership(s: SessionState, held: set<u16>, e: Event)
    requires Owned(s, held) && (e.SubscribeSent? || e.SubscribeAborted?)
    ensures KeptIffPermitted(s, held, e)
  {
    var t := Step(s, e);
    if e.SubscribeAborted? {
      assert Subscribing(t) == Subscribing(s) - {e.id};
    } else if e.id != 0 && e.entries != [] {
      assert Subscribing(t) == Subscribing(s) + {e.id};
    }
  }

  lemma UnsubscribeOwnership(s: SessionState, held: set<u16>, e: Event)
    requires Owned(s, held) && (e.UnsubscribeSent? || e.UnsubscribeAborted?)
    ensures KeptIffPermitted(s, held, e)
  {
    var t := Step(s, e);
    if e.UnsubscribeAborted? {
      assert Unsubscribing(t) == Unsubscribing(s) - {e.id};
    } else if e.id != 0 && e.filters != [] {
      assert Unsubscribing(t) == Unsubscribing(s) + {e.id};
    }
  }

  lemma OtherOwnership(s: SessionState, held: set<u16>, e: Event)
    requires Owned(s, held)
    requires e.PubackSent? || e.PubrecSent? || e.PubcompSent? || e.PublishResent?
    ensures KeptIffPermitted(s, held, e)
  {
    var t := Step(s, e);
    assert Publishing(t) == Publishing(s) && t.subs == s.subs && t.ids == s.ids;
  }

  /**
   * Ownership is kept by a call if and only if the call is permitted, for every event including
   * every PUBACK, PUBREC and PUBCOMP a server may send (section 2.2.1 of MQTT v5.0).
   */
  lemma OwnershipExact(s: SessionState, held: set<u16>, e: Event)
    requires Wellformed(s) && Owned(s, held)
    ensures Owned(Step(s, e), HeldAfter(s, held, e)) <==> Permitted(s, held, e)
  {
    if IsLifeCycle(e) {
      LifeCycleOwnership(s, held, e);
    } else if IsReceived(e) {
      AckOwnership(s, held, e);
    } else if e.IdAllocated? {
      AllocateOwnership(s, held);
    } else if e.PublishSent? {
      PublishOwnership(s, held, e.qos, e.id);
    } else if e.IdReleased? || e.PublishAborted? {
      ReleaseOwnership(s, held, e);
    } else if e.SubscribeSent? || e.SubscribeAborted? {
      SubscribeOwnership(s, held, e);
    } else if e.UnsubscribeSent? || e.UnsubscribeAborted? {
      UnsubscribeOwnership(s, held, e);
    } else if e.SubackReceived? || e.UnsubackReceived? {
      SubackOwnership(s, held, e);
    } else {
      OtherOwnership(s, held, e);
    }
  }

  ghost predicate RunPermitted(s: SessionState, held: set<u16>, events: seq<Event>)
    decreases |events|
  {
    events != [] ==>
      Permitted(s, held, events[0])
      && RunPermitted(Step(s, events[0]), HeldAfter(s, held, events[0]), events[1..])
  }

  ghost function HeldAfterRun(s: SessionState, held: set<u16>, events: seq<Event>): set<u16>
    decreases |events|
  {
    if events == [] then held
    else HeldAfterRun(Step(s, events[0]), HeldAfter(s, held, events[0]), events[1..])
  }

  /** Ownership holds at the end of every permitted run of a new session. */
  lemma {:induction false} OwnershipOverRuns(s: SessionState, held: set<u16>, events: seq<Event>)
    requires Wellformed(s) && Owned(s, held) && RunPermitted(s, held, events)
    ensures Owned(Run(s, events), HeldAfterRun(s, held, events))
    decreases |events|
  {
    if events != [] {
      OwnershipExact(s, held, events[0]);
      StepKeepsWellformed(s, events[0]);
      OwnershipOverRuns(Step(s, events[0]), HeldAfter(s, held, events[0]), events[1..]);
    }
  }

  /**
   * A freshly allocated identifier takes part in no live exchange, and identifiers in use are
   * counted exactly by their owners, so allocation fails only when 65535 are owned.
   */
  lemma FreshIdIsUnowned(s: SessionState, held: set<u16>)
    requires Wellformed(s) && Owned(s, held)
    ensures |s.ids| == |Publishing(s)| + |Subscribing(s)| + |Unsubscribing(s)| + |held|
    ensures match s.AllocatePacketId().1
            case Some(id) => id != 0 && id !in Publishing(s) + Subscribing(s) + Unsubscribing(s) + held
            case None => |Publishing(s)| + |Subscribing(s)| + |Unsubscribing(s)| + |held| == MAX_ID
  {
    var a, b, c := Publishing(s), Subscribing(s), Unsubscribing(s);
    assert |a + b| == |a| + |b|;
    assert |a + b + c| == |a + b| + |c|;
    assert |a + b + c + held| == |a + b + c| + |held|;
    ExhaustedIffAllInUse(s.ids);
  }

  /** The same at the end of every permitted run of a new session: no identifier ever leaks. */
  lemma FreshIdOverRuns(version: Version, clientId: string, cleanStart: bool, events: seq<Event>)
    requires RunPermitted(SessionState.New(version, clientId, cleanStart), {}, events)
    ensures var s := SessionState.New(version, clientId, cleanStart);
            var t, held := Run(s, events), HeldAfterRun(s, {}, events);
            && |t.ids| == |Publishing(t)| + |Subscribing(t)| + |Unsubscribing(t)| + |held|
            && match t.AllocatePacketId().1
               case Some(id) => id != 0 && id !in Publishing(t) + Subscribing(t) + Unsubscribing(t) + held
               case None => |Publishing(t)| + |Subscribing(t)| + |Unsubscribing(t)| + |held| == MAX_ID
  {
    var s := SessionState.New(version, clientId, cleanStart);
    RunWellformed(s, events);
    OwnershipOverRuns(s, {}, events);
    FreshIdIsUnowned(Run(s, events), HeldAfterRun(s, {}, events));
  }

  lemma SubackReleases(s: SessionState, id: u16, codes: seq<u8>)
    ensures var t := Step(s, Event.SubackReceived(id, codes)); t.ids == s.ids - {id} && t.flows == s.flows
  {
  }

  lemma FirstIdPublished(s: SessionState, qos: QoS)
    requires s.ids == {} && s.flows == Flows.Empty() && s.window.CanSend() && qos != AtMostOnce
    ensures var t := Step(Step(s, IdAllocated), Event.PublishSent(qos, 1)); t.ids == {1} && 1 in Publishing(t)
  {
    LeastUnusedIs({}, 1);
    var t := Step(s, IdAllocated);
    assert t.ids == {1} && t.flows == s.flows && t.window == s.window;
  }

  lemma EmptyPoolStartsAtOne(s: SessionState)
    requires s.ids == {}
    ensures s.AllocatePacketId().1 == Some(1)
  {
    LeastUnusedIs({}, 1);
  }

  /**
   * Why a SUBACK must match: naming the identifier of an outgoing flow frees it, and an otherwise
   * idle session hands it out again while the flow is still live.
   */
  lemma UnmatchedSubackReusesLiveId(s: SessionState, qos: QoS, codes: seq<u8>)
    requires s.ids == {} && s.flows == Flows.Empty() && s.window.CanSend() && qos != AtMostOnce
    ensures var t := Run(s, [IdAllocated, Event.PublishSent(qos, 1), Event.SubackReceived(1, codes)]);
            1 in Publishing(t) && t.AllocatePacketId().1 == Some(1)
  {
    var e0, e1, e2 := IdAllocated, Event.PublishSent(qos, 1), Event.SubackReceived(1, codes);
    RunOfThree(s, e0, e1, e2);
    FirstIdPublished(s, qos);
    var t := Step(Step(s, e0), e1);
    SubackReleases(t, 1, codes);
    EmptyPoolStartsAtOne(Step(t, e2));
  }
}
