/**
 * Delivery in order (section 4.6 of MQTT v5.0) on the link of ExactlyOnce: for every event, exactly
 * when it keeps the messages in the order they were sent. A reconnect loses what is in flight; the
 * order survives if and only if the lost messages are then retransmitted in the order of sending,
 * before anything new.
 */
module OrderedDelivery {
  import opened Prelude
  import opened ExactlyOnce

  // -- sequences of messages ------------------------------------------------------------------

  ghost predicate Increasing(s: seq<nat>) {
    forall i, j | 0 <= i < j < |s| :: s[i] < s[j]
  }

  lemma IncreasingSnoc(s: seq<nat>, x: nat)
    ensures Increasing(s + [x]) <==> Increasing(s) && forall n | n in s :: n < x
  {
    var all := s + [x];
    if Increasing(all) {
      assert forall i | 0 <= i < |s| :: all[i] == s[i];
      forall n | n in s
        ensures n < x
      {
        var i :| 0 <= i < |s| && s[i] == n;
        assert all[i] < all[|s|];
      }
    }
    if Increasing(s) && forall n | n in s :: n < x {
      forall i, j | 0 <= i < j < |all|
        ensures all[i] < all[j]
      {
        assert all[i] == s[i] && s[i] in s;
      }
    }
  }

  lemma IncreasingParts(a: seq<nat>, b: seq<nat>)
    requires Increasing(a + b)
    ensures Increasing(a) && forall m, n | m in a && n in b :: m < n
  {
    var all := a + b;
    assert forall i | 0 <= i < |a| :: all[i] == a[i];
    forall m, n | m in a && n in b
      ensures m < n
    {
      var i :| 0 <= i < |a| && a[i] == m;
      var j :| 0 <= j < |b| && b[j] == n;
      assert all[i] < all[|a| + j];
    }
  }

  /** The messages in the PUBLISH packets of a channel. */
  function Messages(c: Channel): seq<nat> {
    if c == [] then [] else (if c[0].Publish? then [c[0].n] else []) + Messages(c[1..])
  }

  lemma {:induction false} MessagesAppend(c: Channel, p: Packet)
    ensures Messages(c + [p]) == Messages(c) + if p.Publish? then [p.n] else []
    decreases |c|
  {
    if c == [] {
      assert (c + [p])[1..] == [];
    } else {
      var first := if c[0].Publish? then [c[0].n] else [];
      var last := if p.Publish? then [p.n] else [];
      assert (c + [p])[1..] == c[1..] + [p];
      MessagesAppend(c[1..], p);
      assert first + (Messages(c[1..]) + last) == (first + Messages(c[1..])) + last;
    }
  }

  /** The log once these messages have arrived as well: a message in the log already is a duplicate. */
  function LogAfter(log: seq<nat>, arriving: seq<nat>): seq<nat>
    decreases |arriving|
  {
    if arriving == [] then log
    else LogAfter(if arriving[0] in log then log else log + [arriving[0]], arriving[1..])
  }

  lemma {:induction false} LogAfterElements(log: seq<nat>, arriving: seq<nat>)
    ensures forall n :: n in LogAfter(log, arriving) <==> n in log || n in arriving
    decreases |arriving|
  {
    if arriving != [] {
      LogAfterElements(if arriving[0] in log then log else log + [arriving[0]], arriving[1..]);
      assert arriving == [arriving[0]] + arriving[1..];
    }
  }

  lemma {:induction false} LogAfterSnoc(log: seq<nat>, arriving: seq<nat>, n: nat)
    ensures LogAfter(log, arriving + [n])
            == if n in log || n in arriving then LogAfter(log, arriving) else LogAfter(log, arriving) + [n]
    decreases |arriving|
  {
    var all := arriving + [n];
    if arriving == [] {
      assert all[1..] == [];
    } else {
      assert all[0] == arriving[0] && all[1..] == arriving[1..] + [n];
      LogAfterSnoc(if arriving[0] in log then log else log + [arriving[0]], arriving[1..], n);
      assert arriving == [arriving[0]] + arriving[1..];
    }
  }

  /** The log only grows. */
  lemma {:induction false} LogAfterExtends(log: seq<nat>, arriving: seq<nat>) returns (more: seq<nat>)
    ensures LogAfter(log, arriving) == log + more
    decreases |arriving|
  {
    if arriving == [] {
      more := [];
    } else if arriving[0] in log {
      more := LogAfterExtends(log, arriving[1..]);
    } else {
      var rest := LogAfterExtends(log + [arriving[0]], arriving[1..]);
      more := [arriving[0]] + rest;
      assert log + [arriving[0]] + rest == log + more;
    }
  }

  // -- what order means -------------------------------------------------------------------------

  /** The delivery log once everything in flight has arrived. */
  function Outlook(l: Link): seq<nat> {
    LogAfter(l.delivered, Messages(l.down))
  }

  predicate IsPublishing(l: Link, id: u16) {
    id in l.sender.outgoing && id in l.content && l.sender.outgoing[id].state.AwaitingPubrec?
  }

  /** The message of `id` was lost: it is neither delivered nor in flight, and waits to be sent again. */
  predicate IsLost(l: Link, id: u16) {
    IsPublishing(l, id) && l.content[id] !in l.delivered && l.content[id] !in Messages(l.down)
  }

  /** Nothing has overtaken an earlier message, in the log, in flight, or while it was lost. */
  ghost predicate Ordered(l: Link) {
    && Increasing(Outlook(l))
    && forall id, n | IsLost(l, id) && n in Outlook(l) :: n < l.content[id]
  }

  /**
   * The event lets no message overtake another: a new message only when none is lost, and of the
   * lost messages the earliest first. Deliveries, duplicates and reconnects are always in order.
   */
  ghost predicate Safe(l: Link, e: LinkEvent) {
    match e
    case Send(id) => id == 0 || id in l.sender.outgoing || forall k :: !IsLost(l, k)
    case Resend(id) => IsLost(l, id) ==> forall k | IsLost(l, k) :: l.content[id] <= l.content[k]
    case _ => true
  }

  lemma OutlookElements(l: Link)
    ensures forall n :: n in Outlook(l) <==> n in l.delivered || n in Messages(l.down)
  {
    LogAfterElements(l.delivered, Messages(l.down));
  }

  /** Messages in flight or delivered have been sent. */
  ghost predicate Numbers(l: Link) {
    forall n | n in Messages(l.down) :: n < l.next
  }

  /** A PUBLISH put in flight is foreseen last, unless it was foreseen before. */
  lemma InFlightIsForeseen(l: Link, m: Link, p: Packet)
    requires p.Publish? && m.down == l.down + [p] && m.delivered == l.delivered
    ensures Outlook(m) == if p.n in Outlook(l) then Outlook(l) else Outlook(l) + [p.n]
    ensures Increasing(Outlook(l) + [p.n]) <==> Increasing(Outlook(l)) && forall n | n in Outlook(l) :: n < p.n
  {
    MessagesAppend(l.down, p);
    OutlookElements(l);
    LogAfterSnoc(l.delivered, Messages(l.down), p.n);
    IncreasingSnoc(Outlook(l), p.n);
  }

  lemma SentIsForeseen(l: Link, id: u16)
    requires Invariant(l) && Numbers(l) && id != 0 && id !in l.sender.outgoing
    ensures var m := LinkStep(l, Send(id));
            && Outlook(m) == Outlook(l) + [l.next]
            && (forall n | n in Outlook(l) :: n < l.next)
            && (Increasing(Outlook(m)) <==> Increasing(Outlook(l)))
  {
    InFlightIsForeseen(l, LinkStep(l, Send(id)), Packet.Publish(id, l.next));
    OutlookElements(l);
  }

  lemma LostAfterSending(l: Link, id: u16)
    requires Invariant(l) && Numbers(l) && id != 0 && id !in l.sender.outgoing
    ensures var m := LinkStep(l, Send(id));
            forall k :: (IsLost(m, k) <==> IsLost(l, k)) && (IsLost(l, k) ==> m.content[k] == l.content[k] < l.next)
  {
    var m := LinkStep(l, Send(id));
    OutlookElements(l);
    OutlookElements(m);
    SentIsForeseen(l, id);
    forall k
      ensures (IsLost(m, k) <==> IsLost(l, k)) && (IsLost(l, k) ==> m.content[k] == l.content[k] < l.next)
    {
      if k != id && IsPublishing(l, k) {
        assert l.content[k] in Outlook(m) <==> l.content[k] in Outlook(l);
      } else if k == id {
        assert l.next in Outlook(m);
      }
    }
  }

  lemma SendOrderedIff(l: Link, id: u16)
    requires Invariant(l) && Numbers(l) && Ordered(l)
    ensures Ordered(LinkStep(l, Send(id))) <==> Safe(l, Send(id))
  {
    var m := LinkStep(l, Send(id));
    if id != 0 && id !in l.sender.outgoing {
      SentIsForeseen(l, id);
      LostAfterSending(l, id);
      assert Outlook(m)[|Outlook(l)|] == l.next;
      if k :| IsLost(l, k) {
        assert IsLost(m, k) && l.next in Outlook(m) && !Ordered(m) && !Safe(l, Send(id));
      } else {
        assert Increasing(Outlook(m)) && forall k :: !IsLost(m, k);
      }
    }
  }

  lemma ResendOrderedIff(l: Link, id: u16)
    requires Invariant(l) && Ordered(l)
    ensures Ordered(LinkStep(l, Resend(id))) <==> Safe(l, Resend(id))
  {
    var m := LinkStep(l, Resend(id));
    if IsLost(l, id) {
      LostAfterResending(l, id);
      var n := l.content[id];
      assert Outlook(m)[|Outlook(l)|] == n;
      if k :| IsLost(l, k) && l.content[k] < n {
        assert IsLost(m, k) && n in Outlook(m) && !Ordered(m) && !Safe(l, Resend(id));
      } else {
        assert forall k, i | IsLost(m, k) && i in Outlook(m) :: i < m.content[k];
      }
    } else if IsPublishing(l, id) {
      OutlookElements(l);
      InFlightIsForeseen(l, m, Packet.Publish(id, l.content[id]));
      LostIff(l, m);
    } else {
      ResendOtherMessages(l, id);
    }
  }

  lemma LostAfterResending(l: Link, id: u16)
    requires Invariant(l) && Ordered(l) && IsLost(l, id)
    ensures var m := LinkStep(l, Resend(id));
            && m.content == l.content
            && Outlook(m) == Outlook(l) + [l.content[id]]
            && Increasing(Outlook(m))
            && (forall k :: IsLost(m, k) <==> IsLost(l, k) && k != id)
            && (forall k | IsLost(l, k) && k != id :: l.content[k] != l.content[id])
  {
    var m := LinkStep(l, Resend(id));
    var n := l.content[id];
    OutlookElements(l);
    OutlookElements(m);
    InFlightIsForeseen(l, m, Packet.Publish(id, n));
    LostAreDistinct(l, id);
    assert n in Outlook(m);
    forall k
      ensures IsLost(m, k) <==> IsLost(l, k) && k != id
    {
      if k != id && IsPublishing(l, k) {
        assert l.content[k] in Outlook(m) <==> l.content[k] in Outlook(l) || l.content[k] == n;
      }
    }
  }

  lemma ResendOtherMessages(l: Link, id: u16)
    requires Invariant(l) && !IsPublishing(l, id)
    ensures var m := LinkStep(l, Resend(id));
            Messages(m.down) == Messages(l.down) && m.delivered == l.delivered && m.content == l.content
            && (forall k :: IsPublishing(m, k) <==> IsPublishing(l, k)) && (Ordered(m) <==> Ordered(l))
  {
    assert Consistent(l, id);
    MessagesAppend(l.down, Pubrel(id));
  }

  lemma LostAreDistinct(l: Link, id: u16)
    requires Accounted(l) && IsLost(l, id)
    ensures forall k | IsLost(l, k) && k != id :: l.content[k] != l.content[id]
  {
    forall k | IsLost(l, k) && k != id
      ensures l.content[k] != l.content[id]
    {
      assert k in l.sender.outgoing && k in l.content;
    }
  }

  /** A reconnect loses messages, and none that was lost or in flight is ahead of the log. */
  lemma ReconnectOrdered(l: Link)
    requires Ordered(l)
    ensures Ordered(LinkStep(l, Reconnect))
  {
    var m := LinkStep(l, Reconnect);
    OutlookElements(l);
    var more := LogAfterExtends(l.delivered, Messages(l.down));
    IncreasingParts(l.delivered, more);
    assert Outlook(m) == l.delivered;
    forall id, n | IsLost(m, id) && n in l.delivered
      ensures n < m.content[id]
    {
      if !IsLost(l, id) {
        assert l.content[id] in Outlook(l) && l.content[id] in more;
      }
    }
  }

  /** What arrives is what was foreseen. */
  lemma ArrivalIsForeseen(l: Link)
    requires Invariant(l)
    ensures Outlook(LinkStep(l, DeliverDown)) == Outlook(l)
  {
    var m := LinkStep(l, DeliverDown);
    if l.down != [] {
      if l.down[0].Publish? {
        HeadIsExpected(l);
        var n := l.down[0].n;
        assert Messages(l.down) == [n] + Messages(m.down);
        assert Messages(l.down)[1..] == Messages(m.down);
        assert m.delivered == if n in l.delivered then l.delivered else l.delivered + [n];
      } else {
        assert Messages(l.down) == Messages(m.down);
      }
    }
  }

  lemma DownOrdered(l: Link)
    requires Invariant(l)
    ensures Ordered(LinkStep(l, DeliverDown)) <==> Ordered(l)
  {
    var m := LinkStep(l, DeliverDown);
    ArrivalIsForeseen(l);
    OutlookElements(l);
    OutlookElements(m);
    assert forall k :: IsPublishing(m, k) <==> IsPublishing(l, k);
    LostIff(l, m);
  }

  /** Lost is what waits and is not foreseen. */
  lemma LostIff(l: Link, m: Link)
    requires Outlook(m) == Outlook(l) && m.content == l.content
    requires forall k :: IsPublishing(m, k) <==> IsPublishing(l, k)
    ensures forall k :: IsLost(m, k) <==> IsLost(l, k)
  {
    OutlookElements(l);
    OutlookElements(m);
    forall k
      ensures IsLost(m, k) <==> IsLost(l, k)
    {
      assert IsPublishing(m, k) <==> IsPublishing(l, k);
      if IsPublishing(l, k) {
        var n := l.content[k];
        assert n in Outlook(m) <==> n in Outlook(l);
      }
    }
  }

  lemma ElsewhereOrdered(l: Link, e: LinkEvent)
    requires e.Elsewhere?
    ensures Ordered(LinkStep(l, e)) <==> Ordered(l)
  {
    var m := LinkStep(l, e);
    assert m.down == l.down && m.delivered == l.delivered;
    assert forall k :: IsPublishing(m, k) <==> IsPublishing(l, k);
    LostIff(l, m);
  }

  /** An acknowledgement starts no PUBLISH, sends none, and answers what was delivered. */
  lemma AcknowledgementEffect(l: Link)
    requires Invariant(l) && l.up != []
    ensures var m := LinkStep(l, DeliverUp);
            && m.content == l.content && m.delivered == l.delivered
            && (m.down == l.down || m.down == l.down + [Pubrel(l.up[0].id)])
            && (forall id :: IsPublishing(m, id) ==> IsPublishing(l, id))
            && (forall id :: IsPublishing(l, id) && !IsPublishing(m, id) ==> l.content[id] in l.delivered)
  {
    var p := l.up[0];
    assert Consistent(l, p.id);
    assert Of(l.up, p.id)[0] == p;
  }

  lemma UpOrdered(l: Link)
    requires Invariant(l)
    ensures Ordered(LinkStep(l, DeliverUp)) <==> Ordered(l)
  {
    var m := LinkStep(l, DeliverUp);
    if l.up != [] {
      AcknowledgementEffect(l);
      MessagesAppend(l.down, Pubrel(l.up[0].id));
      assert Messages(m.down) == Messages(l.down);
      assert forall k :: IsLost(m, k) <==> IsLost(l, k);
    }
  }

  /** For every event: the order is kept if and only if the event is safe. */
  lemma OrderedIffSafe(l: Link, e: LinkEvent)
    requires Invariant(l) && Numbers(l) && Ordered(l)
    ensures Ordered(LinkStep(l, e)) <==> Safe(l, e)
  {
    match e {
      case Send(id) => SendOrderedIff(l, id);
      case Resend(id) => ResendOrderedIff(l, id);
      case DeliverDown => DownOrdered(l);
      case DeliverUp => UpOrdered(l);
      case Reconnect => ReconnectOrdered(l);
      case Elsewhere(_, _, _) => ElsewhereOrdered(l, e);
    }
  }

  lemma NumbersAppend(l: Link, m: Link, p: Packet)
    requires Numbers(l) && l.next <= m.next && (m.down == l.down || m.down == l.down + [p])
    requires p.Publish? ==> p.n < m.next
    ensures Numbers(m)
  {
    MessagesAppend(l.down, p);
  }

  lemma NumbersStep(l: Link, e: LinkEvent)
    requires Invariant(l) && Numbers(l)
    ensures Numbers(LinkStep(l, e))
  {
    var m := LinkStep(l, e);
    match e {
      case Send(id) =>
        if m != l {
          NumbersAppend(l, m, Packet.Publish(id, l.next));
        }
      case Resend(id) =>
        if IsPublishing(l, id) {
          NumbersAppend(l, m, Packet.Publish(id, l.content[id]));
        } else {
          ResendOtherMessages(l, id);
        }
      case DeliverDown =>
        ArrivalIsForeseen(l);
        OutlookElements(l);
        OutlookElements(m);
      case DeliverUp =>
        if l.up != [] {
          AcknowledgementEffect(l);
          NumbersAppend(l, m, Pubrel(l.up[0].id));
        }
      case Reconnect => assert m.down == [];
      case Elsewhere(_, _, _) => assert m.down == l.down;
    }
  }

  // -- what disorder means ----------------------------------------------------------------------

  function Drained(l: Link, n: nat): Link
    decreases n
  {
    if n == 0 then l else Drained(LinkStep(l, DeliverDown), n - 1)
  }

  /** When everything in flight has arrived, the log is what was foreseen. */
  lemma {:induction false} DrainedLog(l: Link)
    requires Invariant(l)
    ensures var m := Drained(l, |l.down|); m.down == [] && m.delivered == Outlook(l)
    decreases |l.down|
  {
    if l.down != [] {
      var k := LinkStep(l, DeliverDown);
      ArrivalIsForeseen(l);
      StepKeepsInvariant(l, DeliverDown);
      assert |k.down| == |l.down| - 1;
      DrainedLog(k);
    }
  }

  /** The log after one retransmission, or none, and the arrival of everything in flight. */
  function LogWith(l: Link, id: u16): seq<nat> {
    var m := LinkStep(l, Resend(id));
    Drained(m, |m.down|).delivered
  }

  /**
   * Order is what an observer sees: it holds if and only if, whichever single flow is retransmitted,
   * the log is increasing once everything in flight has arrived. So an event that is not safe leaves
   * a message that cannot be delivered any more without disorder.
   */
  lemma OrderedIffLogsIncrease(l: Link)
    requires Invariant(l)
    ensures Ordered(l) <==> forall id :: Increasing(LogWith(l, id))
  {
    forall id
      ensures Increasing(LogWith(l, id)) <==>
              Increasing(Outlook(l)) && (IsLost(l, id) ==> forall n | n in Outlook(l) :: n < l.content[id])
    {
      LogWithIs(l, id);
    }
    assert (forall id :: Increasing(LogWith(l, id))) ==> Increasing(LogWith(l, 0)) && Increasing(Outlook(l));
  }

  lemma LogWithIs(l: Link, id: u16)
    requires Invariant(l)
    ensures LogWith(l, id) == Outlook(LinkStep(l, Resend(id)))
    ensures Increasing(LogWith(l, id)) <==>
            Increasing(Outlook(l)) && (IsLost(l, id) ==> forall n | n in Outlook(l) :: n < l.content[id])
  {
    var m := LinkStep(l, Resend(id));
    StepKeepsInvariant(l, Resend(id));
    DrainedLog(m);
    if IsPublishing(l, id) {
      InFlightIsForeseen(l, m, Packet.Publish(id, l.content[id]));
      OutlookElements(l);
    } else {
      ResendOtherMessages(l, id);
    }
  }

  /** So many deliveries in a row. */
  function Arrivals(n: nat): seq<LinkEvent> {
    if n == 0 then [] else [DeliverDown] + Arrivals(n - 1)
  }

  lemma {:induction false} DrainedIsRun(l: Link, n: nat)
    ensures Drained(l, n) == LinkRun(l, Arrivals(n))
    decreases n
  {
    if n > 0 {
      DrainedIsRun(LinkStep(l, DeliverDown), n - 1);
      assert Arrivals(n)[1..] == Arrivals(n - 1);
    }
  }

  /** After an event that is not safe there is a continuation that delivers out of order. */
  lemma UnsafeEventReorders(l: Link, e: LinkEvent) returns (more: seq<LinkEvent>)
    requires Invariant(l) && Numbers(l) && Ordered(l) && !Safe(l, e)
    ensures !Increasing(LinkRun(LinkStep(l, e), more).delivered)
  {
    var m := LinkStep(l, e);
    OrderedIffSafe(l, e);
    StepKeepsInvariant(l, e);
    OrderedIffLogsIncrease(m);
    var id :| !Increasing(LogWith(m, id));
    var k := LinkStep(m, Resend(id));
    DrainedIsRun(k, |k.down|);
    more := [Resend(id)] + Arrivals(|k.down|);
    assert more[1..] == Arrivals(|k.down|);
  }

  // -- runs -------------------------------------------------------------------------------------

  ghost predicate SafeRun(l: Link, events: seq<LinkEvent>)
    decreases |events|
  {
    events != [] ==> Safe(l, events[0]) && SafeRun(LinkStep(l, events[0]), events[1..])
  }

  ghost predicate OrderedThroughout(l: Link, events: seq<LinkEvent>)
    decreases |events|
  {
    Ordered(l) && (events != [] ==> OrderedThroughout(LinkStep(l, events[0]), events[1..]))
  }

  /** A run is in order throughout if and only if each of its events is safe. */
  lemma {:induction false} OrderedThroughoutIffSafe(l: Link, events: seq<LinkEvent>)
    requires Invariant(l) && Numbers(l) && Ordered(l)
    ensures OrderedThroughout(l, events) <==> SafeRun(l, events)
    decreases |events|
  {
    if events != [] {
      OrderedIffSafe(l, events[0]);
      StepKeepsInvariant(l, events[0]);
      NumbersStep(l, events[0]);
      if Safe(l, events[0]) {
        OrderedThroughoutIffSafe(LinkStep(l, events[0]), events[1..]);
      }
    }
  }

  lemma {:induction false} OrderedAtTheEnd(l: Link, events: seq<LinkEvent>)
    requires OrderedThroughout(l, events)
    ensures Ordered(LinkRun(l, events))
    decreases |events|
  {
    if events != [] {
      OrderedAtTheEnd(LinkStep(l, events[0]), events[1..]);
    }
  }

  lemma InitiallyOrdered()
    ensures Invariant(INITIAL) && Numbers(INITIAL) && Ordered(INITIAL)
  {
    InitialInvariant();
  }

  /** On a run of safe events messages are delivered in the order they were sent. */
  lemma DeliveredInOrder(l: Link, events: seq<LinkEvent>)
    requires l == INITIAL && SafeRun(l, events)
    ensures Increasing(LinkRun(l, events).delivered)
  {
    InitiallyOrdered();
    OrderedThroughoutIffSafe(l, events);
    OrderedAtTheEnd(l, events);
    var m := LinkRun(l, events);
    var more := LogAfterExtends(m.delivered, Messages(m.down));
    IncreasingParts(m.delivered, more);
  }
}
