/**
 * At-least-once delivery between two flow managers (section 4.3.2 of MQTT v5.0), on two FIFO channels
 * that lose everything in flight at a reconnect. A PUBACK names an identifier and not a message, so it
 * must never outlive the exchange it answers: that holds if and only if nothing is sent twice on one
 * connection, which MQTT v5.0 forbids and MQTT v3.1.1 allows.
 */
module AtLeastOnce {
  import opened Prelude
  import opened QosFlow

  /** `n` stands for the application message a PUBLISH carries. */
  datatype Publish = Publish(id: u16, n: nat)

  /** `content`, `next`, `delivered` and `completed` are as in ExactlyOnce; `up` carries PUBACK packets. */
  datatype Link = Link(
    version: Version,
    sender: Flows,
    receiver: Flows,
    content: map<u16, nat>,
    next: nat,
    down: seq<Publish>,
    up: seq<u16>,
    delivered: seq<nat>,
    completed: seq<nat>)

  function Initial(version: Version): Link {
    Link(version, Flows.Empty(), Flows.Empty(), map[], 0, [], [], [], [])
  }

  datatype LinkEvent =
    | Send(id: u16)
    | Resend(id: u16)
    | DeliverDown
    | DeliverUp
    | Reconnect

  function SendNew(l: Link, id: u16): Link {
    if id == 0 || id in l.sender.outgoing then l
    else l.(sender := l.sender.PublishSent(id, AtLeastOnce),
            content := l.content[id := l.next],
            next := l.next + 1,
            down := l.down + [Publish(id, l.next)])
  }

  /** `resend_publish`: on one connection a flow is sent again with MQTT v3.1.1 only. */
  function Retransmit(l: Link, id: u16): Link {
    match l.sender.NeedsRetransmission(id)
    case Some(ResendPublish(k)) =>
      if k !in l.content || (l.sender.IsCharged(id) && l.version.V5?) then l
      else l.(sender := l.sender.MarkCharged(id), down := l.down + [Publish(k, l.content[k])])
    case _ => l
  }

  /** The receiver hands a PUBLISH that it answers with a PUBACK to its application. */
  function Receive(l: Link, p: Publish): Link {
    match l.receiver.PublishReceivedQos1(p.id)
    case (r, SendPuback(id)) =>
      l.(receiver := r.PubackSent(id), up := l.up + [id], delivered := l.delivered + [p.n])
    case (r, _) => l.(receiver := r)
  }

  function Acknowledge(l: Link, id: u16): Link {
    var (s, reply) := l.sender.PubackReceived(id);
    l.(sender := s,
       completed := if reply == Ok(Some(Complete(id))) && id in l.content
                    then l.completed + [l.content[id]] else l.completed)
  }

  function LinkStep(l: Link, e: LinkEvent): Link {
    match e
    case Send(id) => SendNew(l, id)
    case Resend(id) => Retransmit(l, id)
    case DeliverDown => if l.down == [] then l else Receive(l.(down := l.down[1..]), l.down[0])
    case DeliverUp => if l.up == [] then l else Acknowledge(l.(up := l.up[1..]), l.up[0])
    case Reconnect => l.(down := [], up := [], sender := l.sender.ClearCharges())
  }

  function LinkRun(l: Link, events: seq<LinkEvent>): Link
    decreases |events|
  {
    if events == [] then l else LinkRun(LinkStep(l, events[0]), events[1..])
  }

  // -- channels, one identifier at a time -------------------------------------------------------

  function Of(c: seq<Publish>, id: u16): seq<nat> {
    if c == [] then [] else (if c[0].id == id then [c[0].n] else []) + Of(c[1..], id)
  }

  function Acks(c: seq<u16>, id: u16): nat {
    if c == [] then 0 else (if c[0] == id then 1 else 0) + Acks(c[1..], id)
  }

  lemma {:induction false} OfAppend(c: seq<Publish>, p: Publish, id: u16)
    ensures Of(c + [p], id) == Of(c, id) + if p.id == id then [p.n] else []
    decreases |c|
  {
    if c == [] {
      assert (c + [p])[1..] == [];
    } else {
      var first := if c[0].id == id then [c[0].n] else [];
      var last := if p.id == id then [p.n] else [];
      assert (c + [p])[1..] == c[1..] + [p];
      OfAppend(c[1..], p, id);
      assert first + (Of(c[1..], id) + last) == (first + Of(c[1..], id)) + last;
    }
  }

  lemma {:induction false} AcksAppend(c: seq<u16>, p: u16, id: u16)
    ensures Acks(c + [p], id) == Acks(c, id) + if p == id then 1 else 0
    decreases |c|
  {
    if c == [] {
      assert (c + [p])[1..] == [];
    } else {
      assert (c + [p])[1..] == c[1..] + [p];
      AcksAppend(c[1..], p, id);
    }
  }

  // -- the invariant ------------------------------------------------------------------------------

  /** A flow sent on this connection has one packet in flight, the PUBLISH or its PUBACK; others none. */
  ghost predicate Matched(l: Link, id: u16) {
    if l.sender.IsCharged(id) && id in l.content
    then || (Of(l.down, id) == [l.content[id]] && Acks(l.up, id) == 0)
         || (Of(l.down, id) == [] && Acks(l.up, id) == 1 && l.content[id] in l.delivered)
    else Of(l.down, id) == [] && Acks(l.up, id) == 0
  }

  ghost predicate AllMatched(l: Link) {
    forall id :: Matched(l, id)
  }

  ghost predicate Pending(l: Link, n: nat) {
    exists id :: id in l.sender.outgoing && id in l.content && l.content[id] == n
  }

  ghost predicate Accounted(l: Link) {
    && (forall id | id in l.sender.outgoing ::
          id != 0 && id in l.content && l.content[id] < l.next && l.sender.outgoing[id].state == AwaitingPuback)
    && (forall a, b | a in l.sender.outgoing && b in l.sender.outgoing && a != b && a in l.content && b in l.content
          :: l.content[a] != l.content[b])
    && (forall n | 0 <= n < l.next :: n in l.completed || Pending(l, n))
    && (forall n | n in l.completed :: n < l.next)
    && (forall id | id in l.sender.outgoing && id in l.content :: l.content[id] !in l.completed)
    && Distinct(l.completed)
  }

  /** Every completed message was delivered. */
  ghost predicate CompletedDelivered(l: Link) {
    forall n | n in l.completed :: n in l.delivered
  }

  /** The event does not send a flow twice on one connection. */
  predicate SendsOnce(l: Link, e: LinkEvent) {
    e.Resend? ==> l.version.V5? || !l.sender.IsCharged(e.id)
  }

  // -- one event ----------------------------------------------------------------------------------

  lemma {:induction false} AccountedStep(l: Link, e: LinkEvent)
    requires Accounted(l)
    ensures Accounted(LinkStep(l, e))
  {
    var m := LinkStep(l, e);
    match e {
      case Send(id) => SendAccounted(l, id);
      case Resend(id) => SameLiveAccounted(l, m);
      case DeliverDown => SameLiveAccounted(l, m);
      case DeliverUp =>
        if l.up != [] {
          AcknowledgeAccounted(l);
        }
      case Reconnect => SameLiveAccounted(l, m);
    }
  }

  lemma SameLiveAccounted(l: Link, m: Link)
    requires Accounted(l) && m.content == l.content && m.next == l.next && m.completed == l.completed
    requires m.sender.outgoing.Keys == l.sender.outgoing.Keys
    requires forall id | id in l.sender.outgoing :: m.sender.outgoing[id].state == l.sender.outgoing[id].state
    ensures Accounted(m)
  {
    forall n | 0 <= n < m.next && n !in m.completed
      ensures Pending(m, n)
    {
      assert Pending(l, n);
      var id :| id in l.sender.outgoing && id in l.content && l.content[id] == n;
      assert id in m.sender.outgoing;
    }
    assert forall id | id in m.sender.outgoing :: id in l.sender.outgoing;
  }

  lemma SendAccounted(l: Link, id: u16)
    requires Accounted(l)
    ensures Accounted(SendNew(l, id))
  {
    var m := SendNew(l, id);
    if m != l {
      forall n | 0 <= n < m.next && n !in m.completed
        ensures Pending(m, n)
      {
        if n == l.next {
          assert id in m.sender.outgoing && m.content[id] == n;
        } else {
          assert Pending(l, n);
          var k :| k in l.sender.outgoing && k in l.content && l.content[k] == n;
          assert k in m.sender.outgoing && m.content[k] == n;
        }
      }
    }
  }

  lemma AcknowledgeAccounted(l: Link)
    requires Accounted(l) && l.up != []
    ensures Accounted(LinkStep(l, DeliverUp))
  {
    var m, id := LinkStep(l, DeliverUp), l.up[0];
    if id in l.sender.outgoing {
      assert m.completed == l.completed + [l.content[id]];
      assert m.sender.outgoing == l.sender.outgoing - {id};
      StaysPending(l, m, id);
    }
  }

  lemma StaysPending(l: Link, m: Link, id: u16)
    requires Accounted(l) && id in l.sender.outgoing && m.sender.outgoing == l.sender.outgoing - {id}
    requires m.content == l.content && m.next == l.next && m.completed == l.completed + [l.content[id]]
    ensures forall n | 0 <= n < m.next :: n in m.completed || Pending(m, n)
  {
    forall n | 0 <= n < m.next && n !in m.completed
      ensures Pending(m, n)
    {
      assert n !in l.completed && l.content[id] in m.completed;
      assert Pending(l, n);
      var k :| k in l.sender.outgoing && k in l.content && l.content[k] == n;
      assert k in m.sender.outgoing;
    }
  }

  lemma SendMatched(l: Link, id: u16, k: u16)
    requires Accounted(l) && AllMatched(l)
    ensures Matched(SendNew(l, id), k)
  {
    assert Matched(l, k);
    OfAppend(l.down, Publish(id, l.next), k);
  }

  lemma ResendMatched(l: Link, id: u16, k: u16)
    requires Accounted(l) && AllMatched(l) && SendsOnce(l, Resend(id))
    ensures Matched(Retransmit(l, id), k)
  {
    assert Matched(l, k);
    if id in l.content {
      OfAppend(l.down, Publish(id, l.content[id]), k);
    }
  }

  lemma DownMatched(l: Link, k: u16)
    requires Accounted(l) && AllMatched(l) && l.down != []
    ensures Matched(LinkStep(l, DeliverDown), k)
  {
    var p := l.down[0];
    assert Matched(l, k) && Matched(l, p.id);
    assert Of(l.down, p.id)[0] == p.n;
    AcksAppend(l.up, p.id, k);
  }

  /** A PUBACK answers the flow in progress, and its message is delivered. */
  lemma PubackIsExpected(l: Link)
    requires Accounted(l) && AllMatched(l) && l.up != []
    ensures l.sender.IsCharged(l.up[0]) && l.up[0] in l.content && l.content[l.up[0]] in l.delivered
  {
    assert Matched(l, l.up[0]);
  }

  lemma UpMatched(l: Link, k: u16)
    requires Accounted(l) && AllMatched(l) && l.up != []
    ensures Matched(LinkStep(l, DeliverUp), k)
  {
    PubackIsExpected(l);
    assert Matched(l, k);
  }

  /** A flow sent twice on one connection leaves a packet too many. */
  lemma ResentIsUnmatched(l: Link, id: u16)
    requires Accounted(l) && AllMatched(l) && !SendsOnce(l, Resend(id))
    ensures !Matched(Retransmit(l, id), id)
  {
    var m := Retransmit(l, id);
    assert Matched(l, id);
    assert l.sender.NeedsRetransmission(id) == Some(ResendPublish(id));
    OfAppend(l.down, Publish(id, l.content[id]), id);
    assert |Of(m.down, id)| + Acks(m.up, id) == 2;
  }

  /** For every event: packets and flows stay matched if and only if it sends nothing twice. */
  lemma MatchedIffSendsOnce(l: Link, e: LinkEvent)
    requires Accounted(l) && AllMatched(l)
    ensures AllMatched(LinkStep(l, e)) <==> SendsOnce(l, e)
  {
    if !SendsOnce(l, e) {
      ResentIsUnmatched(l, e.id);
    } else {
      forall k
        ensures Matched(LinkStep(l, e), k)
      {
        assert Matched(l, k);
        match e {
          case Send(id) => SendMatched(l, id, k);
          case Resend(id) => ResendMatched(l, id, k);
          case DeliverDown =>
            if l.down != [] {
              DownMatched(l, k);
            }
          case DeliverUp =>
            if l.up != [] {
              UpMatched(l, k);
            }
          case Reconnect => assert !LinkStep(l, e).sender.IsCharged(k);
        }
      }
    }
  }

  lemma CompletedDeliveredStep(l: Link, e: LinkEvent)
    requires Accounted(l) && AllMatched(l) && CompletedDelivered(l)
    ensures CompletedDelivered(LinkStep(l, e))
  {
    if e.DeliverUp? && l.up != [] {
      PubackIsExpected(l);
    }
  }

  // -- runs -----------------------------------------------------------------------------------------

  ghost predicate SendsOnceRun(l: Link, events: seq<LinkEvent>)
    decreases |events|
  {
    events != [] ==> SendsOnce(l, events[0]) && SendsOnceRun(LinkStep(l, events[0]), events[1..])
  }

  /** With MQTT v5.0 every run does. */
  lemma {:induction false} Version5SendsOnce(l: Link, events: seq<LinkEvent>)
    requires l.version.V5?
    ensures SendsOnceRun(l, events)
    decreases |events|
  {
    if events != [] {
      Version5SendsOnce(LinkStep(l, events[0]), events[1..]);
    }
  }

  lemma {:induction false} RunIsMatched(l: Link, events: seq<LinkEvent>)
    requires Accounted(l) && AllMatched(l) && CompletedDelivered(l) && SendsOnceRun(l, events)
    ensures var m := LinkRun(l, events); Accounted(m) && AllMatched(m) && CompletedDelivered(m)
    decreases |events|
  {
    if events != [] {
      AccountedStep(l, events[0]);
      MatchedIffSendsOnce(l, events[0]);
      CompletedDeliveredStep(l, events[0]);
      RunIsMatched(LinkStep(l, events[0]), events[1..]);
    }
  }

  /**
   * At least once: whatever is lost at reconnects and however identifiers are reused, a completed
   * message was delivered, none completes twice, and every other message is still held by the sender.
   */
  lemma AtLeastOnceDelivery(version: Version, events: seq<LinkEvent>)
    requires version.V5? || SendsOnceRun(Initial(version), events)
    ensures var m := LinkRun(Initial(version), events);
            && (forall n | n in m.completed :: n in m.delivered)
            && Distinct(m.completed)
            && (forall n | 0 <= n < m.next :: n in m.completed || Pending(m, n))
            && AllMatched(m)
  {
    if version.V5? {
      Version5SendsOnce(Initial(version), events);
    }
    RunIsMatched(Initial(version), events);
  }

  /** A reconnect and one round trip complete any exchange. */
  lemma RoundTripCompletes(l: Link, id: u16)
    requires Accounted(l) && id in l.sender.outgoing
    ensures var m := LinkStep(LinkStep(LinkStep(LinkStep(l, Reconnect), Resend(id)), DeliverDown), DeliverUp);
            && id !in m.sender.outgoing && l.content[id] in m.completed && l.content[id] in m.delivered
            && m.down == [] && m.up == []
  {
    var n := l.content[id];
    var a := LinkStep(LinkStep(l, Reconnect), Resend(id));
    assert a.down == [Publish(id, n)] && a.up == [];
    var b := LinkStep(a, DeliverDown);
    assert b.up == [id] && b.delivered == l.delivered + [n];
    assert LinkStep(b, DeliverUp).completed == l.completed + [n];
  }

  // -- a flow sent twice --------------------------------------------------------------------------

  /** Messages in flight or delivered have been sent. */
  ghost predicate Numbers(l: Link) {
    (forall n | n in l.delivered :: n < l.next) && forall i | 0 <= i < |l.down| :: l.down[i].n < l.next
  }

  lemma NumbersStep(l: Link, e: LinkEvent)
    requires Accounted(l) && Numbers(l)
    ensures Numbers(LinkStep(l, e))
  {
  }

  /** A PUBACK of an earlier message is under way to a flow whose message is not delivered. */
  ghost predicate Stale(l: Link, id: u16) {
    Accounted(l) && id in l.sender.outgoing && l.content[id] !in l.delivered && Acks(l.up, id) > 0
  }

  lemma {:induction false} StaleCompletes(l: Link, id: u16) returns (more: seq<LinkEvent>)
    requires Stale(l, id)
    ensures !CompletedDelivered(LinkRun(l, more))
    decreases |l.up|
  {
    var m := LinkStep(l, DeliverUp);
    if l.up[0] == id {
      more := [DeliverUp];
      assert l.content[id] in m.completed;
      assert LinkRun(l, more) == LinkRun(m, []);
    } else {
      AccountedStep(l, DeliverUp);
      var rest := StaleCompletes(m, id);
      more := [DeliverUp] + rest;
      assert more[1..] == rest;
    }
  }

  /** Two packets of one exchange are in flight. */
  ghost predicate Doubled(l: Link, id: u16) {
    Accounted(l) && Numbers(l) && id in l.sender.outgoing && |Of(l.down, id)| + Acks(l.up, id) >= 2
  }

  lemma DoubledDown(l: Link, id: u16)
    requires Doubled(l, id) && l.down != []
    ensures Doubled(LinkStep(l, DeliverDown), id)
  {
    AccountedStep(l, DeliverDown);
    NumbersStep(l, DeliverDown);
    AcksAppend(l.up, l.down[0].id, id);
  }

  lemma DoubledUp(l: Link, id: u16)
    requires Doubled(l, id) && l.down == [] && l.up[0] != id
    ensures Doubled(LinkStep(l, DeliverUp), id)
  {
    AccountedStep(l, DeliverUp);
    NumbersStep(l, DeliverUp);
  }

  lemma ReusedIsStale(l: Link, id: u16)
    requires Doubled(l, id) && l.down == [] && l.up[0] == id
    ensures Stale(LinkStep(LinkStep(l, DeliverUp), Send(id)), id)
  {
    var m := LinkStep(l, DeliverUp);
    AccountedStep(l, DeliverUp);
    AccountedStep(m, Send(id));
    assert id !in m.sender.outgoing && m.delivered == l.delivered && m.next == l.next;
    assert Acks(l.up, id) == 1 + Acks(m.up, id);
  }

  lemma {:induction false} DoubledLoses(l: Link, id: u16) returns (more: seq<LinkEvent>)
    requires Doubled(l, id)
    ensures !CompletedDelivered(LinkRun(l, more))
    decreases |l.down|, |l.up|
  {
    if l.down != [] {
      DoubledDown(l, id);
      var rest := DoubledLoses(LinkStep(l, DeliverDown), id);
      more := [DeliverDown] + rest;
      assert more[1..] == rest;
    } else if l.up[0] != id {
      DoubledUp(l, id);
      var rest := DoubledLoses(LinkStep(l, DeliverUp), id);
      more := [DeliverUp] + rest;
      assert more[1..] == rest;
    } else {
      ReusedIsStale(l, id);
      var k := LinkStep(l, DeliverUp);
      var rest := StaleCompletes(LinkStep(k, Send(id)), id);
      more := [DeliverUp] + ([Send(id)] + rest);
      assert more[1..] == [Send(id)] + rest && more[1..][1..] == rest;
      assert LinkRun(k, more[1..]) == LinkRun(LinkStep(k, Send(id)), rest);
    }
  }

  /**
   * Sending a flow twice on one connection, which MQTT v3.1.1 allows, always leaves a run in which a
   * message completes without being delivered: the second PUBACK completes the next message under the
   * identifier.
   */
  lemma SentTwiceCanLose(l: Link, id: u16) returns (more: seq<LinkEvent>)
    requires Accounted(l) && Numbers(l) && AllMatched(l) && !SendsOnce(l, Resend(id))
    ensures !CompletedDelivered(LinkRun(LinkStep(l, Resend(id)), more))
  {
    var m := LinkStep(l, Resend(id));
    AccountedStep(l, Resend(id));
    NumbersStep(l, Resend(id));
    assert Matched(l, id);
    OfAppend(l.down, Publish(id, l.content[id]), id);
    more := DoubledLoses(m, id);
  }

  /**
   * With MQTT v3.1.1 a flow may be sent again on the connection. Its second PUBACK then completes the
   * next message under the identifier, which a lost connection takes away for good.
   */
  lemma StalePubackLosesMessage(l: Link)
    requires l == LinkStep(LinkStep(Initial(V311), Send(1)), Resend(1))
    ensures var m := LinkStep(LinkStep(LinkStep(l, DeliverDown), DeliverDown), DeliverUp);
            var k := LinkStep(LinkStep(LinkStep(m, Send(1)), DeliverUp), Reconnect);
            && k.sender.outgoing == map[] && k.down == [] && 1 in k.completed && 1 !in k.delivered
  {
    assert l.down == [Publish(1, 0), Publish(1, 0)] && l.content == map[1 := 0];
    var a := LinkStep(LinkStep(l, DeliverDown), DeliverDown);
    assert a.up == [1, 1] && a.down == [] && a.delivered == [0, 0];
    var m := LinkStep(a, DeliverUp);
    assert m.up == [1] && m.sender.outgoing == map[] && m.next == 1;
    var b := LinkStep(m, Send(1));
    assert b.down == [Publish(1, 1)] && b.content[1] == 1;
  }
}
