/** Accounting of the send quota over whole runs (sections 3.3.4 and 4.9 of MQTT v5.0). */
module SendQuota {
  import opened Prelude
  import opened QosFlow
  import opened SessionSpec
  import opened SessionInvariants

  /** The flows the peer still owes an answer for, those that hold a unit of quota, and the counter. */
  datatype Account = Account(live: set<u16>, charged: set<u16>, outstanding: nat)
  {
    function After(c: Change): Account {
      match c
      case Unchanged => this
      case Charge(id) => Account(live + {id}, charged + {id}, outstanding + 1)
      case Overcharge => this.(outstanding := outstanding + 1)
      case End(id) => Account(live - {id}, charged - {id}, Decremented(outstanding))
      case Spend => this.(outstanding := Decremented(outstanding))
      case ClearCharges => Account(live, {}, 0)
      case DropFlows => Account({}, {}, outstanding)
      case ClearAll => Account({}, {}, 0)
    }

    /** The counter never runs ahead of the flows it was charged for. */
    ghost predicate Covered() {
      outstanding <= |charged|
    }

    /** The counter is the number of messages in flight. */
    ghost predicate Exact() {
      charged == live && outstanding == |live|
    }
  }

  /** What a call does to the account. */
  datatype Change =
    | Unchanged
    | Charge(id: u16)   // a flow without a unit takes one
    | Overcharge        // a unit is taken for a flow that exists already
    | End(id: u16)      // a flow ends and one unit comes back
    | Spend             // a unit comes back without the end of a flow
    | ClearCharges      // a connection begins
    | DropFlows         // the session is discarded, the counter kept
    | ClearAll

  ghost function AccountOf(s: SessionState): Account {
    Account(s.flows.outgoing.Keys, (set id | id in s.flows.outgoing && s.flows.outgoing[id].charged),
            s.window.outstanding)
  }

  predicate Ends(s: SessionState, e: Event) {
    match e
    case PubackReceived(id) => id in s.flows.outgoing && s.flows.outgoing[id].state.AwaitingPuback?
    case PubcompReceived(id) => id in s.flows.outgoing && s.flows.outgoing[id].state.AwaitingPubcomp?
    case PubrecReceived(id, reason) =>
      reason >= 0x80 && id in s.flows.outgoing && s.flows.outgoing[id].state.AwaitingPubrec?
    case PublishAborted(id) => id in s.flows.outgoing
    case _ => false
  }

  predicate Sends(s: SessionState, e: Event) {
    e.PublishSent? && s.PublishSent(e.qos, e.id).1.Ok?
  }

  function ChangeOf(s: SessionState, e: Event): Change {
    if e.ResetAll? then ClearAll
    else if DiscardsSession(s, e) then DropFlows
    else if BeginsConnection(s, e) then ClearCharges
    else if Ends(s, e) then End(e.id)
    else if Sends(s, e) then if e.id in s.flows.outgoing then Overcharge else Charge(e.id)
    else if e.PublishResent? && Recharges(s, e.id) then Charge(e.id)
    else if e.PublishAborted? && e.id in s.flows.incoming then Spend
    else Unchanged
  }

  ghost predicate Simulates(s: SessionState, e: Event) {
    AccountOf(Step(s, e)) == AccountOf(s).After(ChangeOf(s, e))
  }

  lemma LifeCycleAccount(s: SessionState, e: Event)
    requires IsLifeCycle(e)
    ensures Simulates(s, e)
  {
    var t := Step(s, e);
    if !DiscardsSession(s, e) && !BeginsConnection(s, e) {
      assert t.flows == s.flows && t.window.outstanding == s.window.outstanding;
    }
  }

  lemma EndAccount(s: SessionState, e: Event)
    requires Ends(s, e)
    ensures Simulates(s, e)
  {
    var t := Step(s, e);
    assert t.flows.outgoing == s.flows.outgoing - {e.id};
    assert AccountOf(t).charged == AccountOf(s).charged - {e.id};
  }

  lemma PubrecAccount(s: SessionState, id: u16, reason: u8)
    requires !Ends(s, PubrecReceived(id, reason))
    ensures Simulates(s, PubrecReceived(id, reason))
  {
    var t := Step(s, PubrecReceived(id, reason));
    assert t.flows.outgoing.Keys == s.flows.outgoing.Keys;
    assert forall k | k in s.flows.outgoing :: t.flows.outgoing[k].charged == s.flows.outgoing[k].charged;
  }

  lemma ReceivedAccount(s: SessionState, e: Event)
    requires IsReceived(e) && !e.PubrecReceived? && !Ends(s, e)
    ensures Simulates(s, e)
  {
    var t := Step(s, e);
    assert t.flows.outgoing == s.flows.outgoing && t.window.outstanding == s.window.outstanding;
  }

  lemma ChargeAccount(s: SessionState, e: Event)
    requires e.PublishSent? || e.PublishResent?
    ensures Simulates(s, e)
  {
    var t := Step(s, e);
    if ChangeOf(s, e).Charge? {
      assert AccountOf(t).live == AccountOf(s).live + {e.id};
      assert AccountOf(t).charged == AccountOf(s).charged + {e.id};
    }
  }

  lemma RemainingAccount(s: SessionState, e: Event)
    requires !IsLifeCycle(e) && !IsReceived(e) && !e.PublishSent? && !e.PublishResent? && !e.PublishAborted?
    ensures Simulates(s, e)
  {
    var t := Step(s, e);
    assert t.flows.outgoing == s.flows.outgoing && t.window.outstanding == s.window.outstanding;
  }

  lemma AbortAccount(s: SessionState, id: u16)
    requires id !in s.flows.outgoing
    ensures Simulates(s, PublishAborted(id))
  {
    assert Step(s, PublishAborted(id)).flows.outgoing == s.flows.outgoing;
  }

  /** Every call of a session is one change of the account. */
  lemma AccountSimulates(s: SessionState, e: Event)
    ensures AccountOf(Step(s, e)) == AccountOf(s).After(ChangeOf(s, e))
  {
    if Ends(s, e) {
      EndAccount(s, e);
    } else if IsLifeCycle(e) {
      LifeCycleAccount(s, e);
    } else if e.PubrecReceived? {
      PubrecAccount(s, e.id, e.reason);
    } else if IsReceived(e) {
      ReceivedAccount(s, e);
    } else if e.PublishSent? || e.PublishResent? {
      ChargeAccount(s, e);
    } else if e.PublishAborted? {
      AbortAccount(s, e.id);
    } else {
      RemainingAccount(s, e);
    }
  }

  /** The condition under which a change keeps the counter within the charged flows. */
  ghost predicate KeepsCovered(a: Account, c: Change) {
    match c
    case Overcharge => a.outstanding < |a.charged|
    case DropFlows => a.outstanding == 0
    case _ => true
  }

  lemma CoveredExact(a: Account, c: Change)
    requires a.Covered() && (c.Charge? ==> c.id !in a.charged)
    ensures a.After(c).Covered() <==> KeepsCovered(a, c)
  {
    if c.End? {
      if c.id in a.charged {
        assert |a.charged - {c.id}| == |a.charged| - 1;
      } else {
        assert a.charged - {c.id} == a.charged;
      }
    }
  }

  /** The condition under which a change keeps the counter equal to the messages in flight. */
  ghost predicate KeepsExact(a: Account, c: Change) {
    match c
    case Overcharge => false
    case Spend => a.outstanding == 0
    case ClearCharges => a.live == {}
    case DropFlows => a.outstanding == 0
    case _ => true
  }

  lemma ExactExact(a: Account, c: Change)
    requires a.Exact() && ((c.Charge? ==> c.id !in a.charged) && (c.End? ==> c.id in a.live))
    ensures a.After(c).Exact() <==> KeepsExact(a, c)
  {
    if c.End? {
      assert |a.live - {c.id}| == |a.live| - 1;
    }
  }

  lemma ChangeOfIsFresh(s: SessionState, e: Event)
    ensures var c := ChangeOf(s, e);
            && (c.Charge? ==> c.id !in AccountOf(s).charged)
            && (c.End? ==> c.id in AccountOf(s).live)
  {
  }

  /**
   * For every call: the counter stays within the flows it was charged for if and only if the call
   * neither publishes again under a live identifier when every unit is taken, nor discards the
   * session while units are taken.
   */
  lemma QuotaCoveredIff(s: SessionState, e: Event)
    requires AccountOf(s).Covered()
    ensures AccountOf(Step(s, e)).Covered() <==> KeepsCovered(AccountOf(s), ChangeOf(s, e))
  {
    AccountSimulates(s, e);
    ChangeOfIsFresh(s, e);
    CoveredExact(AccountOf(s), ChangeOf(s, e));
  }

  /** For every call: the counter stays equal to the number in flight if and only if `KeepsExact`. */
  lemma QuotaExactIff(s: SessionState, e: Event)
    requires AccountOf(s).Exact()
    ensures AccountOf(Step(s, e)).Exact() <==> KeepsExact(AccountOf(s), ChangeOf(s, e))
  {
    AccountSimulates(s, e);
    ChangeOfIsFresh(s, e);
    ExactExact(AccountOf(s), ChangeOf(s, e));
  }

  // ------------------------------------------------------------------------------------------
  // Runs
  // ------------------------------------------------------------------------------------------

  /** Publishing and resending on a connection only, each send under an identifier without a flow. */
  predicate Disciplined(s: SessionState, e: Event) {
    match e
    case PublishSent(_, id) => s.connection == Connected && id !in s.flows.outgoing
    case PublishResent(_) => s.connection == Connected
    case MarkedConnected(_) => s.connection == Connecting
    case _ => true
  }

  /** In addition: no flow carried into a new connection, no abort of an incoming flow. */
  predicate WithoutCarryOver(s: SessionState, e: Event) {
    && (BeginsConnection(s, e) ==> s.flows.outgoing == map[])
    && (e.PublishAborted? && e.id in s.flows.incoming ==> e.id in s.flows.outgoing)
  }

  ghost predicate Quota(s: SessionState) {
    && AccountOf(s).Covered()
    && s.window.outstanding <= s.window.receiveMaximum
    && (s.connection == Connecting ==> s.window.outstanding == 0)
  }

  /** The counter stays below Receive Maximum, which changes only while nothing is counted. */
  predicate WindowKept(s: SessionState, t: SessionState) {
    || t.window.outstanding == 0
    || (t.window.receiveMaximum == s.window.receiveMaximum
        && (t.window.outstanding <= s.window.outstanding
            || (s.window.CanSend() && t.window.outstanding == s.window.outstanding + 1)))
  }

  predicate NoLateConnecting(s: SessionState, t: SessionState) {
    t.connection == Connecting ==>
      t.window.outstanding == 0 || (s.connection == Connecting && t.window.outstanding <= s.window.outstanding)
  }

  lemma LifeCycleWindow(s: SessionState, e: Event)
    requires IsLifeCycle(e) && (s.connection == Connecting ==> s.window.outstanding == 0)
    ensures WindowKept(s, Step(s, e)) && NoLateConnecting(s, Step(s, e))
  {
  }

  lemma ReceivedWindow(s: SessionState, e: Event)
    requires IsReceived(e)
    ensures WindowKept(s, Step(s, e)) && NoLateConnecting(s, Step(s, e))
  {
  }

  lemma OtherWindow(s: SessionState, e: Event)
    requires !IsLifeCycle(e) && !IsReceived(e) && Disciplined(s, e)
    ensures WindowKept(s, Step(s, e)) && NoLateConnecting(s, Step(s, e))
  {
  }

  lemma DisciplineCovers(s: SessionState, e: Event)
    requires Quota(s) && Disciplined(s, e)
    ensures KeepsCovered(AccountOf(s), ChangeOf(s, e))
    ensures AccountOf(s).Exact() && WithoutCarryOver(s, e) ==> KeepsExact(AccountOf(s), ChangeOf(s, e))
  {
  }

  lemma StepKeepsQuota(s: SessionState, e: Event)
    requires Quota(s) && Disciplined(s, e)
    ensures Quota(Step(s, e))
    ensures AccountOf(s).Exact() && WithoutCarryOver(s, e) ==> AccountOf(Step(s, e)).Exact()
  {
    DisciplineCovers(s, e);
    QuotaCoveredIff(s, e);
    if AccountOf(s).Exact() {
      QuotaExactIff(s, e);
    }
    if IsLifeCycle(e) {
      LifeCycleWindow(s, e);
    } else if IsReceived(e) {
      ReceivedWindow(s, e);
    } else {
      OtherWindow(s, e);
    }
  }

  predicate Discipline(s: SessionState, e: Event, carryOver: bool) {
    Disciplined(s, e) && (carryOver || WithoutCarryOver(s, e))
  }

  ghost predicate RunDisciplined(s: SessionState, events: seq<Event>, carryOver: bool)
    decreases |events|
  {
    events != [] ==>
      Discipline(s, events[0], carryOver) && RunDisciplined(Step(s, events[0]), events[1..], carryOver)
  }

  lemma {:induction false} RunKeepsQuota(s: SessionState, events: seq<Event>, carryOver: bool)
    requires Quota(s) && RunDisciplined(s, events, carryOver) && (carryOver || AccountOf(s).Exact())
    ensures Quota(Run(s, events)) && (carryOver || AccountOf(Run(s, events)).Exact())
    decreases |events|
  {
    if events != [] {
      var e := events[0];
      StepKeepsQuota(s, e);
      RunKeepsQuota(Step(s, e), events[1..], carryOver);
    }
  }

  /**
   * From a new session, on every run that publishes on a connection only: the counter is at most
   * the number of charged flows and at most Receive Maximum.
   */
  lemma SendQuotaBound(version: Version, clientId: string, cleanStart: bool, events: seq<Event>)
    requires RunDisciplined(SessionState.New(version, clientId, cleanStart), events, true)
    ensures var t := Run(SessionState.New(version, clientId, cleanStart), events);
            t.window.outstanding <= t.window.receiveMaximum
            && t.window.outstanding <= |AccountOf(t).charged|
  {
    RunKeepsQuota(SessionState.New(version, clientId, cleanStart), events, true);
  }

  /**
   * Any connection that begins without flows in flight, whatever was carried over before it: from
   * then on the counter is the number in flight, so that number obeys Receive Maximum.
   */
  lemma InFlightWithinReceiveMaximum(version: Version, clientId: string, cleanStart: bool,
                                     before: seq<Event>, start: Event, after: seq<Event>)
    requires RunDisciplined(SessionState.New(version, clientId, cleanStart), before, true)
    requires var s := Run(SessionState.New(version, clientId, cleanStart), before);
             s.flows.outgoing == map[] && BeginsConnection(s, start) && RunDisciplined(Step(s, start), after, false)
    ensures var s := Run(SessionState.New(version, clientId, cleanStart), before);
            var t := Run(Step(s, start), after);
            |t.flows.outgoing| == t.window.outstanding <= t.window.receiveMaximum
  {
    RunKeepsQuota(SessionState.New(version, clientId, cleanStart), before, true);
    var s := Run(SessionState.New(version, clientId, cleanStart), before);
    StepKeepsQuota(s, start);
    AccountSimulates(s, start);
    RunKeepsQuota(Step(s, start), after, false);
    var t := Run(Step(s, start), after);
    assert |t.flows.outgoing.Keys| == |t.flows.outgoing|;
  }

  // ------------------------------------------------------------------------------------------
  // A unit stranded by an early publish
  // ------------------------------------------------------------------------------------------

  /** The counter is one more than the flows in flight. */
  ghost predicate Stranded(s: SessionState) {
    && s.connection != Connecting
    && AccountOf(s).charged == AccountOf(s).live
    && s.window.outstanding == |AccountOf(s).live| + 1
  }

  /** No new connection, no reset, and no abort of an exchange that is incoming only. */
  predicate StaysConnected(s: SessionState, e: Event) {
    && !BeginsConnection(s, e) && !e.ResetAll?
    && (e.PublishAborted? && e.id in s.flows.incoming ==> e.id in s.flows.outgoing)
  }

  lemma NoNewConnecting(s: SessionState, e: Event)
    requires s.connection != Connecting && StaysConnected(s, e)
    ensures Step(s, e).connection != Connecting
  {
  }

  lemma StrandedStep(s: SessionState, e: Event)
    requires Stranded(s) && Disciplined(s, e) && StaysConnected(s, e)
    ensures Stranded(Step(s, e))
  {
    NoNewConnecting(s, e);
    AccountSimulates(s, e);
    ChangeOfIsFresh(s, e);
    var a, c := AccountOf(s), ChangeOf(s, e);
    assert c.Unchanged? || c.Charge? || c.End?;
    if c.End? {
      assert |a.live - {c.id}| == |a.live| - 1;
    }
  }

  ghost predicate RunStaysConnected(s: SessionState, events: seq<Event>)
    decreases |events|
  {
    events != [] ==>
      Disciplined(s, events[0]) && StaysConnected(s, events[0]) && RunStaysConnected(Step(s, events[0]), events[1..])
  }

  lemma {:induction false} StrandedRun(s: SessionState, events: seq<Event>)
    requires Stranded(s) && RunStaysConnected(s, events)
    ensures Stranded(Run(s, events))
    decreases |events|
  {
    if events != [] {
      StrandedStep(s, events[0]);
      StrandedRun(Step(s, events[0]), events[1..]);
    }
  }

  function EarlyPublished(s: SessionState, qos: QoS, id: u16, p: ConnackParams): SessionState {
    s.ConnectSent().PublishSent(qos, id).0.ApplyConnack(p).0
  }

  /**
   * Why publishing must wait for the connection: a CONNACK without a session strands the unit for
   * the rest of the connection, whatever is published and acknowledged on it; the next CONNECT
   * frees it.
   */
  lemma EarlyPublishStrandsQuota(s: SessionState, qos: QoS, id: u16, p: ConnackParams, later: seq<Event>)
    requires qos != AtMostOnce && id != 0
    requires s.ConnectSent().PublishSent(qos, id).0.ConnackRefusal(p).None? && !p.sessionPresent
    requires RunStaysConnected(EarlyPublished(s, qos, id, p), later)
    ensures Run(s, [ConnectSent, Event.PublishSent(qos, id), ConnackReceived(p)]) == EarlyPublished(s, qos, id, p)
    ensures var t := Run(EarlyPublished(s, qos, id, p), later);
            t.window.outstanding == |t.flows.outgoing| + 1 && Step(t, ConnectSent).window.outstanding == 0
  {
    RunOfThree(s, ConnectSent, Event.PublishSent(qos, id), ConnackReceived(p));
    var s3 := EarlyPublished(s, qos, id, p);
    assert s3.flows == Flows.Empty() && s3.window.outstanding == 1 && s3.connection == Connected;
    StrandedRun(s3, later);
    var t := Run(s3, later);
    assert |t.flows.outgoing.Keys| == |t.flows.outgoing|;
  }

  // ------------------------------------------------------------------------------------------
  // A unit given back that was never taken
  // ------------------------------------------------------------------------------------------

  /** How far the counter has fallen behind the flows that were charged on this connection. */
  ghost function Gap(s: SessionState): int {
    |AccountOf(s).charged| - s.window.outstanding
  }

  /**
   * For every call: the counter falls further behind if and only if the call ends a flow that was
   * carried over and holds no unit, or aborts an exchange that is incoming only, while units are taken.
   */
  lemma GapGrowsIff(s: SessionState, e: Event)
    requires AccountOf(s).Covered()
    ensures Gap(Step(s, e)) > Gap(s) <==>
            s.window.outstanding > 0
            && ((Ends(s, e) && !s.flows.IsCharged(e.id)) || (ChangeOf(s, e).Spend? && e.PublishAborted?))
  {
    AccountSimulates(s, e);
    ChangeOfIsFresh(s, e);
    GapOfAccount(AccountOf(s), ChangeOf(s, e));
    SpendIsAbort(s, e);
  }

  lemma SpendIsAbort(s: SessionState, e: Event)
    ensures ChangeOf(s, e).Spend? ==> e.PublishAborted?
    ensures ChangeOf(s, e).End? <==> Ends(s, e)
    ensures Ends(s, e) ==> ChangeOf(s, e).id == e.id
  {
  }

  lemma GapOfAccount(a: Account, c: Change)
    requires a.Covered() && (c.Charge? ==> c.id !in a.charged)
    ensures |a.After(c).charged| - a.After(c).outstanding > |a.charged| - a.outstanding <==>
            a.outstanding > 0 && ((c.End? && c.id !in a.charged) || c.Spend?)
  {
    if c.End? {
      if c.id in a.charged {
        assert |a.charged - {c.id}| == |a.charged| - 1;
      } else {
        assert a.charged - {c.id} == a.charged;
      }
    }
  }

  /** A CONNACK that is accepted by an MQTT v5.0 session with an identifier of its own. */
  function Accepting(sessionPresent: bool, receiveMaximum: Option<u16>): ConnackParams {
    ConnackParams(sessionPresent, V5Reason(0), None, receiveMaximum, None, None, None, None, None, None, None, None,
                  None, None)
  }

  const WAITS_FOR_PUBACK := OutgoingFlow(0, AwaitingPuback, true)
  const WAITS_FOR_PUBCOMP := OutgoingFlow(2, AwaitingPubcomp, true)
  const LOST_PUBACK := OutgoingFlow(0, AwaitingPuback, false)
  const LOST_PUBCOMP := OutgoingFlow(2, AwaitingPubcomp, false)

  const FIRST_CONNECT: seq<Event> :=
    [ConnectSent, ConnackReceived(Accepting(false, None)), Event.PublishSent(AtLeastOnce, 1)]
  const FIRST_PUBLISHES: seq<Event> := [Event.PublishSent(ExactlyOnce, 2), Event.PubrecReceived(2, 0), ConnectionLost]
  const SECOND_CONNECT: seq<Event> := [ConnectSent, ConnackReceived(Accepting(true, Some(1))), PublishResent(1)]

  lemma AfterFirstConnect(clientId: string)
    requires clientId != ""
    ensures var t := Run(SessionState.New(V5, clientId, false), FIRST_CONNECT);
            && t.flows == Flows(map[1 := WAITS_FOR_PUBACK], map[], 1) && t.window.CanSend()
            && t.version == V5 && t.clientId == clientId && !t.cleanStart
  {
    var s := SessionState.New(V5, clientId, false);
    RunOfThree(s, ConnectSent, ConnackReceived(Accepting(false, None)), Event.PublishSent(AtLeastOnce, 1));
    var t := s.ConnectSent().ApplyConnack(Accepting(false, None)).0;
    assert t.flows == Flows.Empty() && t.window.outstanding == 0;
  }

  lemma PublishedUnder2(s: SessionState, first: OutgoingFlow)
    requires s.flows == Flows(map[1 := first], map[], 1) && s.window.CanSend()
    ensures s.PublishSent(ExactlyOnce, 2).0.flows
            == Flows(map[1 := first, 2 := OutgoingFlow(1, AwaitingPubrec, true)], map[], 2)
  {
  }

  lemma AcknowledgedUnder2(s: SessionState, first: OutgoingFlow)
    requires s.flows == Flows(map[1 := first, 2 := OutgoingFlow(1, AwaitingPubrec, true)], map[], 2)
    ensures s.HandlePubrec(2, 0).0.flows
            == Flows(map[1 := first, 2 := OutgoingFlow(2, AwaitingPubcomp, true)], map[], 3)
  {
    assert s.flows.PubrecReceived(2, 0).0 == s.flows.Stamped(2, AwaitingPubcomp, true);
  }

  lemma AfterFirstPublishes(s: SessionState)
    requires s.flows == Flows(map[1 := WAITS_FOR_PUBACK], map[], 1) && s.window.CanSend()
    ensures var t := Run(s, FIRST_PUBLISHES);
            && t.flows == Flows(map[1 := WAITS_FOR_PUBACK, 2 := WAITS_FOR_PUBCOMP], map[], 3)
            && t.version == s.version && t.clientId == s.clientId && t.cleanStart == s.cleanStart
  {
    RunOfThree(s, Event.PublishSent(ExactlyOnce, 2), Event.PubrecReceived(2, 0), ConnectionLost);
    PublishedUnder2(s, WAITS_FOR_PUBACK);
    AcknowledgedUnder2(s.PublishSent(ExactlyOnce, 2).0, WAITS_FOR_PUBACK);
  }

  lemma AfterResume(s: SessionState)
    requires s.version == V5 && s.clientId != "" && !s.cleanStart
    requires s.flows.outgoing == map[1 := WAITS_FOR_PUBACK, 2 := WAITS_FOR_PUBCOMP]
    ensures var t := s.ConnectSent().ApplyConnack(Accepting(true, Some(1))).0;
            && t.flows.outgoing == map[1 := LOST_PUBACK, 2 := LOST_PUBCOMP]
            && t.window.outstanding == 0 && t.window.receiveMaximum == 1 && t.connection == Connected
  {
    var t := s.ConnectSent();
    assert t.flows.outgoing == map[1 := LOST_PUBACK, 2 := LOST_PUBCOMP];
    assert t.ConnackRefusal(Accepting(true, Some(1))).None?;
  }

  lemma AfterResend(s: SessionState)
    requires s.flows.outgoing == map[1 := LOST_PUBACK, 2 := LOST_PUBCOMP]
    requires s.window.outstanding == 0 && s.window.receiveMaximum == 1
    ensures var t := s.ResendPublish(1).0;
            && t.flows.outgoing == map[1 := WAITS_FOR_PUBACK, 2 := LOST_PUBCOMP]
            && t.window.outstanding == t.window.receiveMaximum == 1 && t.connection == s.connection
  {
  }

  lemma ResumeRun(s: SessionState, p: ConnackParams, id: u16)
    ensures Run(s, [ConnectSent, ConnackReceived(p), PublishResent(id)])
            == s.ConnectSent().ApplyConnack(p).0.ResendPublish(id).0
  {
    RunOfThree(s, ConnectSent, ConnackReceived(p), PublishResent(id));
  }

  /** The second connection resumes the session and resends the PUBLISH that was not acknowledged. */
  lemma AfterSecondConnect(s: SessionState)
    requires s.version == V5 && s.clientId != "" && !s.cleanStart
    requires s.flows.outgoing == map[1 := WAITS_FOR_PUBACK, 2 := WAITS_FOR_PUBCOMP]
    ensures var t := Run(s, SECOND_CONNECT);
            && t.flows.outgoing == map[1 := WAITS_FOR_PUBACK, 2 := LOST_PUBCOMP]
            && t.window.outstanding == t.window.receiveMaximum == 1 && t.connection == Connected
  {
    ResumeRun(s, Accepting(true, Some(1)), 1);
    AfterResume(s);
    AfterResend(s.ConnectSent().ApplyConnack(Accepting(true, Some(1))).0);
  }

  lemma AfterAnswer(s: SessionState)
    requires s.flows.outgoing == map[1 := WAITS_FOR_PUBACK, 2 := LOST_PUBCOMP]
    requires s.window.outstanding == s.window.receiveMaximum == 1
    ensures var t := Step(s, PubcompReceived(2));
            AccountOf(t) == Account({1}, {1}, 0) && t.window.receiveMaximum == 1
  {
    assert s.HandlePubcomp(2).0.flows.outgoing == map[1 := WAITS_FOR_PUBACK];
  }

  lemma AfterOneMore(s: SessionState)
    requires AccountOf(s) == Account({1}, {1}, 0) && s.window.receiveMaximum == 1
    ensures var t := Step(s, Event.PublishSent(AtLeastOnce, 3));
            AccountOf(t).charged == {1, 3} && t.window.receiveMaximum == 1
  {
    AccountSimulates(s, Event.PublishSent(AtLeastOnce, 3));
    assert 3 !in s.flows.outgoing;
  }

  /**
   * Why equality needs an empty start, on a run of a session: the PUBCOMP of a flow carried over
   * gives back a unit this connection never took, the counter falls below the charged flows, and one
   * more message is let through: two unacknowledged PUBLISH packets were sent on a connection whose
   * Receive Maximum is 1.
   */
  lemma CarriedOverAnswerUndercounts(clientId: string)
    requires clientId != ""
    ensures var r := Run(Run(SessionState.New(V5, clientId, false), FIRST_CONNECT), FIRST_PUBLISHES);
            var s := Run(r, SECOND_CONNECT);
            var t := Step(s, PubcompReceived(2));
            var u := Step(t, Event.PublishSent(AtLeastOnce, 3));
            && s.connection == Connected && s.window.outstanding == 1 && AccountOf(s).charged == {1}
            && t.window.outstanding == 0 && AccountOf(t).charged == {1}
            && AccountOf(u).charged == {1, 3} && u.window.receiveMaximum == 1
  {
    AfterFirstConnect(clientId);
    var s1 := Run(SessionState.New(V5, clientId, false), FIRST_CONNECT);
    AfterFirstPublishes(s1);
    var s2 := Run(s1, FIRST_PUBLISHES);
    AfterSecondConnect(s2);
    var s := Run(s2, SECOND_CONNECT);
    assert AccountOf(s).charged == {1};
    AfterAnswer(s);
    AfterOneMore(Step(s, PubcompReceived(2)));
  }
}
