/** Conservation of the receive window over whole runs (section 3.3.4 of MQTT v5.0). */
module ReceiveWindow {
  import opened Prelude
  import opened QosFlow
  import opened SessionSpec
  import opened SessionInvariants

  /**
   * The incoming exchanges, the counter, and the PUBCOMP packets the caller was asked to send and
   * has not confirmed yet.
   */
  datatype Slots = Slots(flows: set<u16>, count: nat, owed: nat)
  {
    function After(c: Change): Slots {
      match c
      case Unchanged => this
      case Take(id) => this.(flows := flows + {id}, count := count + 1)
      case Acknowledge(id) => this.(flows := flows - {id}, count := Decremented(count))
      case Owe(id) => this.(flows := flows - {id}, owed := owed + 1)
      case Confirm => this.(count := Decremented(count), owed := Decremented(owed))
      case Free => this.(count := Decremented(count))
      case Forget(id) => this.(flows := flows - {id})
      case BeginConnection => Slots(flows, 0, 0)
      case DropFlows => this.(flows := {})
      case ClearAll => Slots({}, 0, 0)
    }

    /** Every slot taken belongs to an exchange under way or to a PUBCOMP still owed. */
    ghost predicate Balanced() {
      count == |flows| + owed
    }
  }

  /** What a call does to the slots. */
  datatype Change =
    | Unchanged
    | Take(id: u16)         // a new message
    | Acknowledge(id: u16)  // the PUBACK of a QoS 1 message
    | Owe(id: u16)          // a PUBREL ends the exchange, its PUBCOMP is owed
    | Confirm               // a PUBCOMP was sent
    | Free                  // a slot is given back for no exchange
    | Forget(id: u16)       // an exchange is aborted, its slot is not given back
    | BeginConnection
    | DropFlows
    | ClearAll

  ghost function SlotsOf(s: SessionState, owed: nat): Slots {
    Slots(s.flows.incoming.Keys, s.window.incoming, owed)
  }

  function ChangeOf(s: SessionState, e: Event): Change {
    if e.ResetAll? then ClearAll
    else if DiscardsSession(s, e) then DropFlows
    else if BeginsConnection(s, e) then BeginConnection
    else match e
      case Publish1Received(id) => Receives(s, id)
      case Publish2Received(id) => Receives(s, id)
      case PubrelReceived(id) =>
        if id in s.flows.incoming && s.flows.incoming[id].AwaitingPubrel? then Owe(id) else Unchanged
      case PubackSent(id) =>
        if id in s.flows.incoming && s.flows.incoming[id].IncomingAwaitingPuback? then Acknowledge(id) else Free
      case PubrecSent(reason) => if reason >= 0x80 then Free else Unchanged
      case PubcompSent => Confirm
      case PublishAborted(id) => if id in s.flows.incoming then Forget(id) else Unchanged
      case _ => Unchanged
  }

  /** A duplicate takes no slot, and is let in even when the window is full. */
  function Receives(s: SessionState, id: u16): Change {
    if id !in s.flows.incoming && s.window.CanReceive() then Take(id) else Unchanged
  }

  /** The PUBCOMP packets owed after a call, counted from the actions a session returns. */
  function OwedAfter(s: SessionState, owed: nat, e: Event): nat {
    if BeginsConnection(s, e) || e.ResetAll? then 0
    else if e.PubcompSent? then Decremented(owed)
    else if e.PubrelReceived? && s.HandlePubrel(e.id).1 == Ok(Some(SendPubcomp(e.id))) then owed + 1
    else owed
  }

  ghost predicate Simulates(s: SessionState, owed: nat, e: Event) {
    SlotsOf(Step(s, e), OwedAfter(s, owed, e)) == SlotsOf(s, owed).After(ChangeOf(s, e))
  }

  lemma LifeCycleSlots(s: SessionState, owed: nat, e: Event)
    requires IsLifeCycle(e)
    ensures Simulates(s, owed, e)
  {
  }

  lemma PublishSlots(s: SessionState, owed: nat, e: Event)
    requires e.Publish1Received? || e.Publish2Received?
    ensures Simulates(s, owed, e)
  {
    var t := Step(s, e);
    if ChangeOf(s, e).Take? {
      assert t.flows.incoming.Keys == s.flows.incoming.Keys + {e.id};
    } else {
      assert t.flows.incoming.Keys == s.flows.incoming.Keys;
    }
  }

  lemma ReceivedSlots(s: SessionState, owed: nat, e: Event)
    requires IsReceived(e) && !e.Publish1Received? && !e.Publish2Received?
    ensures Simulates(s, owed, e)
  {
    var t := Step(s, e);
    if ChangeOf(s, e).Owe? {
      assert t.flows.incoming.Keys == s.flows.incoming.Keys - {e.id};
    } else {
      assert t.flows.incoming == s.flows.incoming;
    }
  }

  predicate IsReply(e: Event) {
    e.PubackSent? || e.PubrecSent? || e.PubcompSent?
  }

  lemma ReplySlots(s: SessionState, owed: nat, e: Event)
    requires IsReply(e)
    ensures Simulates(s, owed, e)
  {
    var t := Step(s, e);
    if ChangeOf(s, e).Acknowledge? {
      assert t.flows.incoming.Keys == s.flows.incoming.Keys - {e.id};
    } else {
      assert t.flows.incoming == s.flows.incoming;
    }
  }

  lemma OtherSlots(s: SessionState, owed: nat, e: Event)
    requires !IsLifeCycle(e) && !IsReceived(e) && !IsReply(e)
    ensures Simulates(s, owed, e)
  {
    var t := Step(s, e);
    if e.PublishAborted? {
      assert t.flows.incoming.Keys == s.flows.incoming.Keys - {e.id};
    } else {
      assert t.flows.incoming == s.flows.incoming;
    }
  }

  /** Every call of a session is one change of the slots. */
  lemma SlotsSimulate(s: SessionState, owed: nat, e: Event)
    ensures SlotsOf(Step(s, e), OwedAfter(s, owed, e)) == SlotsOf(s, owed).After(ChangeOf(s, e))
  {
    if IsLifeCycle(e) {
      LifeCycleSlots(s, owed, e);
    } else if e.Publish1Received? || e.Publish2Received? {
      PublishSlots(s, owed, e);
    } else if IsReceived(e) {
      ReceivedSlots(s, owed, e);
    } else if IsReply(e) {
      ReplySlots(s, owed, e);
    } else {
      OtherSlots(s, owed, e);
    }
  }

  /** The condition under which a change keeps the balance. */
  ghost predicate KeepsBalance(a: Slots, c: Change) {
    match c
    case Confirm => a.owed > 0 || a.count == 0
    case Free => a.count == 0
    case Forget(_) => false
    case BeginConnection => a.flows == {}
    case DropFlows => a.flows == {}
    case _ => true
  }

  /** The change names an exchange that exists, or for a new message one that does not. */
  ghost predicate Applies(a: Slots, c: Change) {
    && (c.Take? ==> c.id !in a.flows)
    && (c.Acknowledge? || c.Owe? || c.Forget? ==> c.id in a.flows)
  }

  lemma BalanceExact(a: Slots, c: Change)
    requires a.Balanced() && Applies(a, c)
    ensures a.After(c).Balanced() <==> KeepsBalance(a, c)
  {
    if c.Acknowledge? || c.Owe? || c.Forget? {
      assert |a.flows - {c.id}| == |a.flows| - 1;
    }
  }

  lemma ChangeApplies(s: SessionState, owed: nat, e: Event)
    ensures Applies(SlotsOf(s, owed), ChangeOf(s, e))
  {
  }

  /**
   * For every call: the counter stays equal to the incoming exchanges plus the owed PUBCOMP packets
   * if and only if `KeepsBalance`. In particular a refusing PUBREC unbalances it, because the slot
   * comes back while the exchange stays.
   */
  lemma WindowBalancedIff(s: SessionState, owed: nat, e: Event)
    requires SlotsOf(s, owed).Balanced()
    ensures SlotsOf(Step(s, e), OwedAfter(s, owed, e)).Balanced() <==> KeepsBalance(SlotsOf(s, owed), ChangeOf(s, e))
  {
    SlotsSimulate(s, owed, e);
    ChangeApplies(s, owed, e);
    BalanceExact(SlotsOf(s, owed), ChangeOf(s, e));
  }

  // ------------------------------------------------------------------------------------------
  // Runs
  // ------------------------------------------------------------------------------------------

  /**
   * The caller sends what it is asked to send and nothing else, refuses no message by PUBREC,
   * aborts no incoming exchange, and carries none into a new connection.
   */
  predicate Follows(s: SessionState, owed: nat, e: Event) {
    match e
    case Configured(_, _, _, _, _) => s.window.incoming == 0
    case ConnectSent => s.flows.incoming == map[]
    case ConnectSentWithAuth(_) => s.flows.incoming == map[]
    case MarkedConnected(_) => s.connection == Connecting
    case Publish1Received(_) => s.connection == Connected
    case Publish2Received(_) => s.connection == Connected
    case PubackSent(id) => id in s.flows.incoming && s.flows.incoming[id].IncomingAwaitingPuback?
    case PubrecSent(reason) => reason < 0x80
    case PubcompSent => owed > 0
    case PublishAborted(id) => id !in s.flows.incoming
    case _ => true
  }

  ghost predicate Windowed(s: SessionState, owed: nat) {
    && SlotsOf(s, owed).Balanced()
    && s.window.incoming <= s.window.ownReceiveMaximum
    && s.window.ownReceiveMaximum > 0
    && (s.connection == Connecting ==> s.flows.incoming == map[])
  }

  /** The counter stays within the client's own Receive Maximum. */
  predicate Bounded(s: SessionState, t: SessionState) {
    && t.window.incoming <= t.window.ownReceiveMaximum
    && t.window.ownReceiveMaximum > 0
    && (t.connection == Connecting ==> t.flows.incoming == map[])
  }

  lemma LifeCycleBounded(s: SessionState, owed: nat, e: Event)
    requires IsLifeCycle(e) && Bounded(s, s) && Follows(s, owed, e)
    ensures Bounded(s, Step(s, e))
  {
  }

  lemma ReceivedBounded(s: SessionState, owed: nat, e: Event)
    requires IsReceived(e) && Bounded(s, s) && Follows(s, owed, e)
    ensures Bounded(s, Step(s, e))
  {
  }

  lemma OtherBounded(s: SessionState, owed: nat, e: Event)
    requires !IsLifeCycle(e) && !IsReceived(e) && Bounded(s, s)
    ensures Bounded(s, Step(s, e))
  {
    var t := Step(s, e);
    assert forall id | id in t.flows.incoming :: id in s.flows.incoming;
  }

  lemma FollowingKeepsBalance(s: SessionState, owed: nat, e: Event)
    requires Windowed(s, owed) && Follows(s, owed, e)
    ensures KeepsBalance(SlotsOf(s, owed), ChangeOf(s, e))
  {
  }

  lemma StepKeepsWindow(s: SessionState, owed: nat, e: Event)
    requires Windowed(s, owed) && Follows(s, owed, e)
    ensures Windowed(Step(s, e), OwedAfter(s, owed, e))
  {
    FollowingKeepsBalance(s, owed, e);
    WindowBalancedIff(s, owed, e);
    if IsLifeCycle(e) {
      LifeCycleBounded(s, owed, e);
    } else if IsReceived(e) {
      ReceivedBounded(s, owed, e);
    } else {
      OtherBounded(s, owed, e);
    }
  }

  ghost predicate RunFollows(s: SessionState, owed: nat, events: seq<Event>)
    decreases |events|
  {
    events != [] ==>
      Follows(s, owed, events[0]) && RunFollows(Step(s, events[0]), OwedAfter(s, owed, events[0]), events[1..])
  }

  ghost function OwedAfterRun(s: SessionState, owed: nat, events: seq<Event>): nat
    decreases |events|
  {
    if events == [] then owed else OwedAfterRun(Step(s, events[0]), OwedAfter(s, owed, events[0]), events[1..])
  }

  lemma {:induction false} RunKeepsWindow(s: SessionState, owed: nat, events: seq<Event>)
    requires Windowed(s, owed) && RunFollows(s, owed, events)
    ensures Windowed(Run(s, events), OwedAfterRun(s, owed, events))
    decreases |events|
  {
    if events != [] {
      StepKeepsWindow(s, owed, events[0]);
      RunKeepsWindow(Step(s, events[0]), OwedAfter(s, owed, events[0]), events[1..]);
    }
  }

  /**
   * Conservation on any connection that begins without incoming exchanges, whatever happened before
   * it: from then on the counter is the number of incoming exchanges plus the PUBCOMP packets owed,
   * it stays within the own Receive Maximum, and when both are gone the whole window is free again.
   */
  lemma ReceiveWindowConserved(version: Version, clientId: string, cleanStart: bool,
                               before: seq<Event>, start: Event, after: seq<Event>)
    requires var s := Run(SessionState.New(version, clientId, cleanStart), before);
             s.flows.incoming == map[] && BeginsConnection(s, start) && RunFollows(Step(s, start), 0, after)
    ensures var s := Step(Run(SessionState.New(version, clientId, cleanStart), before), start);
            var t, owed := Run(s, after), OwedAfterRun(s, 0, after);
            && t.window.incoming == |t.flows.incoming| + owed
            && t.window.incoming <= t.window.ownReceiveMaximum
            && (t.flows.incoming == map[] && owed == 0 ==> t.window.incoming == 0 && t.window.CanReceive())
  {
    RunWellformed(SessionState.New(version, clientId, cleanStart), before);
    var r := Run(SessionState.New(version, clientId, cleanStart), before);
    var s := Step(r, start);
    StepKeepsWellformed(r, start);
    LifeCycleSlots(r, 0, start);
    assert s.flows.incoming == map[] && s.window.incoming == 0;
    RunKeepsWindow(s, 0, after);
    var t := Run(s, after);
    assert |t.flows.incoming.Keys| == |t.flows.incoming|;
  }

  // ------------------------------------------------------------------------------------------
  // A refused message and the identifier it leaves behind
  // ------------------------------------------------------------------------------------------

  /** The call ends the incoming exchange `id`. */
  predicate EndsIncoming(s: SessionState, e: Event, id: u16) {
    || DiscardsSession(s, e)
    || (e == PubrelReceived(id) && id in s.flows.incoming && s.flows.incoming[id].AwaitingPubrel?)
    || (e == Event.PubackSent(id) && id in s.flows.incoming && s.flows.incoming[id].IncomingAwaitingPuback?)
    || e == PublishAborted(id)
  }

  /** For every call: an incoming exchange survives if and only if the call does not end it. */
  lemma IncomingSurvivesIff(s: SessionState, e: Event, id: u16)
    requires id in s.flows.incoming
    ensures id in Step(s, e).flows.incoming <==> !EndsIncoming(s, e, id)
  {
    SlotsSimulate(s, 0, e);
    assert id in SlotsOf(s, 0).After(ChangeOf(s, e)).flows <==> id in Step(s, e).flows.incoming;
    ChangeEndsIff(s, e, id);
  }

  lemma ChangeEndsIff(s: SessionState, e: Event, id: u16)
    requires id in s.flows.incoming
    ensures id in SlotsOf(s, 0).After(ChangeOf(s, e)).flows <==> !EndsIncoming(s, e, id)
  {
  }

  ghost predicate NeverEnds(s: SessionState, events: seq<Event>, id: u16)
    decreases |events|
  {
    events != [] ==> !EndsIncoming(s, events[0], id) && NeverEnds(Step(s, events[0]), events[1..], id)
  }

  lemma {:induction false} IncomingSurvives(s: SessionState, events: seq<Event>, id: u16)
    requires id in s.flows.incoming && NeverEnds(s, events, id)
    ensures id in Run(s, events).flows.incoming
    decreases |events|
  {
    if events != [] {
      IncomingSurvivesIff(s, events[0], id);
      IncomingSurvives(Step(s, events[0]), events[1..], id);
    }
  }

  /**
   * A refusing PUBREC keeps the exchange (and gives its slot back, which unbalances the window).
   * Until something ends the exchange, a NEW message that the peer sends under the identifier is
   * answered as a duplicate and never reaches the application.
   */
  lemma RefusedIdSwallowsNext(s: SessionState, id: u16, reason: u8, later: seq<Event>)
    requires reason >= 0x80 && s.HandlePublish(id, ExactlyOnce).1.Ok?
    requires NeverEnds(s.HandlePublish(id, ExactlyOnce).0.PubrecSent(reason), later, id)
    ensures var refused := Run(s, [Publish2Received(id), Event.PubrecSent(reason)]);
            && refused == s.HandlePublish(id, ExactlyOnce).0.PubrecSent(reason)
            && Run(refused, later).HandlePublish(id, ExactlyOnce).1 == Ok(SendPubrec(id, true))
  {
    RunCons(s, Publish2Received(id), [Event.PubrecSent(reason)]);
    RunCons(Step(s, Publish2Received(id)), Event.PubrecSent(reason), []);
    assert [Event.PubrecSent(reason)] + [] == [Event.PubrecSent(reason)];
    assert [Publish2Received(id)] + [Event.PubrecSent(reason)] == [Publish2Received(id), Event.PubrecSent(reason)];
    IncomingSurvives(s.HandlePublish(id, ExactlyOnce).0.PubrecSent(reason), later, id);
  }

  /** In general a message is swallowed if and only if the identifier has an incoming exchange. */
  lemma SwallowedIff(s: SessionState, id: u16)
    requires s.HandlePublish(id, ExactlyOnce).1.Ok?
    ensures s.HandlePublish(id, ExactlyOnce).1 == Ok(SendPubrec(id, true)) <==> id in s.flows.incoming
  {
  }

  /** One slot too few is counted after the refusal of a single message. */
  lemma RefusalUnbalances(s: SessionState, id: u16, reason: u8)
    requires reason >= 0x80 && s.flows.incoming == map[] && s.window.incoming == 0 && s.window.CanReceive()
    ensures var t := s.HandlePublish(id, ExactlyOnce).0.PubrecSent(reason);
            t.flows.incoming == map[id := AwaitingPubrel] && t.window.incoming == 0
  {
  }
}
