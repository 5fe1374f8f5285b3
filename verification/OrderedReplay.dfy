/**
 * Delivery in order, from what the sender itself can see. A flow that waits for its PUBREC and is not
 * charged has not been sent on this connection; replaying the pending list of `pending_retransmissions`
 * before sending anything new never reorders messages.
 */
module OrderedReplay {
  import opened Prelude
  import opened QosFlow
  import opened FlowRuns
  import opened ExactlyOnce
  import opened OrderedDelivery

  /** A QoS 2 PUBLISH that is to be sent again on this connection. */
  predicate Waits(f: Flows, id: u16) {
    id in f.outgoing && f.outgoing[id].state.AwaitingPubrec? && !f.outgoing[id].charged
  }

  /** What the sender can check before the call: nothing new while a PUBLISH waits, the earliest one first. */
  ghost predicate Prudent(f: Flows, e: LinkEvent) {
    match e
    case Send(id) => id == 0 || id in f.outgoing || forall k :: !Waits(f, k)
    case Resend(id) => Waits(f, id) ==> forall k | Waits(f, k) :: f.outgoing[id].seqNo <= f.outgoing[k].seqNo
    case _ => true
  }

  /** Sequence numbers order the waiting flows as their messages were sent. */
  ghost predicate InOrderOfSending(l: Link) {
    && l.sender.Numbered()
    && forall a, b | IsPublishing(l, a) && IsPublishing(l, b)
                     && l.sender.outgoing[a].seqNo <= l.sender.outgoing[b].seqNo
         :: l.content[a] <= l.content[b]
  }

  /** A lost message is one that waits. */
  ghost predicate LostWait(l: Link) {
    forall id | IsLost(l, id) :: Waits(l.sender, id)
  }

  ghost predicate Tracks(l: Link) {
    Invariant(l) && Numbers(l) && InOrderOfSending(l) && LostWait(l)
  }

  lemma PrudentIsSafe(l: Link, e: LinkEvent)
    requires Tracks(l) && Prudent(l.sender, e)
    ensures Safe(l, e)
  {
  }

  // -- every event keeps the connection between the sender's view and the link ------------------

  /** The flows that still wait for a PUBREC keep their numbers and their messages. */
  ghost predicate SameFlows(l: Link, m: Link) {
    && m.content == l.content
    && forall k | IsPublishing(m, k) ::
         IsPublishing(l, k) && m.sender.outgoing[k].seqNo == l.sender.outgoing[k].seqNo
  }

  lemma SameFlowsInOrder(l: Link, m: Link)
    requires InOrderOfSending(l) && m.sender.Numbered() && SameFlows(l, m)
    ensures InOrderOfSending(m)
  {
  }

  lemma SendTracks(l: Link, id: u16)
    requires Tracks(l)
    ensures LostWait(LinkStep(l, Send(id)))
  {
    if id != 0 && id !in l.sender.outgoing {
      LostAfterSending(l, id);
    }
  }

  lemma SendInOrder(l: Link, id: u16)
    requires Accounted(l) && InOrderOfSending(l)
    ensures InOrderOfSending(LinkStep(l, Send(id)))
  {
    if id != 0 && id !in l.sender.outgoing {
      SentIsLast(l, id);
    }
  }

  lemma SentIsLast(l: Link, id: u16)
    requires Accounted(l) && InOrderOfSending(l) && id != 0 && id !in l.sender.outgoing
    ensures InOrderOfSending(LinkStep(l, Send(id)))
  {
    var m := LinkStep(l, Send(id));
    forall k | IsPublishing(m, k) && k != id
      ensures IsPublishing(l, k) && m.content[k] == l.content[k] < l.next
      ensures m.sender.outgoing[k] == l.sender.outgoing[k]
    {
    }
    assert m.content[id] == l.next && m.sender.outgoing[id].seqNo == l.sender.nextSeq;
  }

  lemma ResendInOrder(l: Link, id: u16)
    requires InOrderOfSending(l)
    ensures InOrderOfSending(LinkStep(l, Resend(id)))
  {
    SameFlowsInOrder(l, LinkStep(l, Resend(id)));
  }

  lemma ResendTracks(l: Link, id: u16)
    requires Tracks(l)
    ensures LostWait(LinkStep(l, Resend(id)))
  {
    var m := LinkStep(l, Resend(id));
    ResendEffect(l, id);
    if IsPublishing(l, id) {
      InFlightIsForeseen(l, m, Packet.Publish(id, l.content[id]));
      ForeseenStaysForeseen(l, m);
      assert !IsLost(m, id);
      assert forall k | k != id && Waits(l.sender, k) :: Waits(m.sender, k);
    } else {
      ResendOtherMessages(l, id);
      assert Consistent(l, id);
      assert m.sender == l.sender;
    }
  }

  /** What is foreseen is not lost. */
  lemma ForeseenStaysForeseen(l: Link, m: Link)
    requires m.content == l.content && forall n | n in Outlook(l) :: n in Outlook(m)
    requires forall k :: IsPublishing(m, k) ==> IsPublishing(l, k)
    ensures forall k :: IsLost(m, k) ==> IsLost(l, k)
    ensures forall k | IsPublishing(m, k) && m.content[k] in Outlook(m) :: !IsLost(m, k)
  {
    OutlookElements(l);
    OutlookElements(m);
    forall k | IsLost(m, k)
      ensures IsLost(l, k)
    {
      assert IsPublishing(l, k) && l.content[k] !in Outlook(m);
    }
  }

  lemma DownTracks(l: Link)
    requires Tracks(l)
    ensures InOrderOfSending(LinkStep(l, DeliverDown)) && LostWait(LinkStep(l, DeliverDown))
  {
    var m := LinkStep(l, DeliverDown);
    assert m.sender == l.sender && m.content == l.content;
    ArrivalIsForeseen(l);
    ForeseenStaysForeseen(l, m);
  }

  lemma AcknowledgeKeepsFlows(l: Link)
    requires l.up != [] && l.sender.Numbered()
    ensures var m := LinkStep(l, DeliverUp);
            && m.sender.Numbered() && SameFlows(l, m)
            && forall k | IsPublishing(m, k) :: m.sender.outgoing[k] == l.sender.outgoing[k]
  {
  }

  lemma UpTracks(l: Link)
    requires Tracks(l) && l.up != []
    ensures LostWait(LinkStep(l, DeliverUp))
  {
    var m := LinkStep(l, DeliverUp);
    AcknowledgementEffect(l);
    AcknowledgeKeepsFlows(l);
    MessagesAppend(l.down, Pubrel(l.up[0].id));
    assert Messages(m.down) == Messages(l.down);
    ForeseenStaysForeseen(l, m);
  }

  lemma StepTracks(l: Link, e: LinkEvent)
    requires Tracks(l)
    ensures Tracks(LinkStep(l, e))
  {
    StepKeepsInvariant(l, e);
    NumbersStep(l, e);
    var m := LinkStep(l, e);
    match e {
      case Send(id) =>
        SendInOrder(l, id);
        SendTracks(l, id);
      case Resend(id) =>
        ResendInOrder(l, id);
        ResendTracks(l, id);
      case DeliverDown => DownTracks(l);
      case DeliverUp =>
        if l.up != [] {
          AcknowledgeKeepsFlows(l);
          SameFlowsInOrder(l, m);
          UpTracks(l);
        }
      case Reconnect => assert forall k | IsPublishing(m, k) :: IsPublishing(l, k) && Waits(m.sender, k);
      case Elsewhere(_, _, _) =>
        assert m.sender.outgoing == l.sender.outgoing && m.down == l.down;
        ForeseenStaysForeseen(l, m);
    }
  }

  // -- runs -------------------------------------------------------------------------------------

  ghost predicate PrudentRun(l: Link, events: seq<LinkEvent>)
    decreases |events|
  {
    events != [] ==> Prudent(l.sender, events[0]) && PrudentRun(LinkStep(l, events[0]), events[1..])
  }

  lemma {:induction false} PrudentRunIsSafe(l: Link, events: seq<LinkEvent>)
    requires Tracks(l) && PrudentRun(l, events)
    ensures SafeRun(l, events)
    decreases |events|
  {
    if events != [] {
      PrudentIsSafe(l, events[0]);
      StepTracks(l, events[0]);
      PrudentRunIsSafe(LinkStep(l, events[0]), events[1..]);
    }
  }

  /** A sender that looks at its own flows only has its messages delivered in the order it sent them. */
  lemma PrudentSenderKeepsOrder(l: Link, events: seq<LinkEvent>)
    requires l == INITIAL && PrudentRun(l, events)
    ensures Increasing(LinkRun(l, events).delivered)
  {
    InitiallyOrdered();
    PrudentRunIsSafe(l, events);
    DeliveredInOrder(l, events);
  }

  // -- the replay of the pending list -----------------------------------------------------------

  function Resends(ids: seq<u16>): seq<LinkEvent> {
    if ids == [] then [] else [Resend(ids[0])] + Resends(ids[1..])
  }

  ghost predicate SameNumbers(f: Flows, part: Outgoing) {
    forall id | id in part :: id in f.outgoing && f.outgoing[id].seqNo == part[id].seqNo
  }

  lemma ResendEffect(l: Link, id: u16)
    ensures var m := LinkStep(l, Resend(id));
            && (forall k | k in l.sender.outgoing :: k in m.sender.outgoing
                  && m.sender.outgoing[k].seqNo == l.sender.outgoing[k].seqNo)
            && (forall k :: Waits(m.sender, k) ==> Waits(l.sender, k))
            && (id in l.content ==> !Waits(m.sender, id))
            && m.content == l.content
  {
  }

  /** Replaying the rest of a listing is prudent, and afterwards nothing waits. */
  lemma {:induction false} ListReplayIsPrudent(l: Link, part: Outgoing, ids: seq<u16>)
    requires Listing(part, ids) && SameNumbers(l.sender, part)
    requires forall k | Waits(l.sender, k) :: k in part && k in l.content
    ensures PrudentRun(l, Resends(ids))
    ensures forall k :: !Waits(LinkRun(l, Resends(ids)).sender, k)
    decreases |ids|
  {
    if ids != [] {
      var id, rest := ids[0], ids[1..];
      var m := LinkStep(l, Resend(id));
      ResendEffect(l, id);
      assert Prudent(l.sender, Resend(id));
      ListReplayIsPrudent(m, part - {id}, rest);
      assert Resends(ids)[1..] == Resends(rest);
    }
  }

  /**
   * After any number of lost connections: replaying the pending list keeps the order, and once it is
   * replayed anything may be sent.
   */
  lemma ReplayIsPrudent(l: Link, ids: seq<u16>)
    requires Tracks(l) && Listing(l.sender.outgoing, ids)
    ensures PrudentRun(l, Resends(ids)) && SafeRun(l, Resends(ids))
    ensures forall e :: Prudent(LinkRun(l, Resends(ids)).sender, e)
  {
    forall k | Waits(l.sender, k)
      ensures k in l.content
    {
      assert Consistent(l, k);
    }
    ListReplayIsPrudent(l, l.sender.outgoing, ids);
    PrudentRunIsSafe(l, Resends(ids));
  }

  /** A message sent before the replay overtakes the lost one. */
  lemma LateReplayReorders(l: Link)
    requires l == LinkStep(LinkStep(LinkStep(INITIAL, Send(1)), Reconnect), Send(2))
    ensures LinkRun(l, [DeliverDown, Resend(1), DeliverDown]).delivered == [1, 0]
  {
    LateReplayStart(l);
    LateReplayEnd(l);
    RunOfThree(l, DeliverDown, Resend(1), DeliverDown);
  }

  lemma LateReplayStart(l: Link)
    requires l == LinkStep(LinkStep(LinkStep(INITIAL, Send(1)), Reconnect), Send(2))
    ensures l.down == [Packet.Publish(2, 1)] && l.receiver.incoming == map[] && l.delivered == []
    ensures IsPublishing(l, 1) && l.content[1] == 0
  {
  }

  lemma LateReplayEnd(l: Link)
    requires l.down == [Packet.Publish(2, 1)] && l.receiver.incoming == map[] && l.delivered == []
    requires IsPublishing(l, 1) && l.content[1] == 0
    ensures LinkStep(LinkStep(LinkStep(l, DeliverDown), Resend(1)), DeliverDown).delivered == [1, 0]
  {
    var a := LinkStep(l, DeliverDown);
    assert a.delivered == [1] && a.down == [] && a.receiver.incoming == map[2 := AwaitingPubrel];
    assert LinkStep(a, Resend(1)).down == [Packet.Publish(1, 0)];
  }

  lemma RunOfThree(l: Link, d: LinkEvent, e: LinkEvent, f: LinkEvent)
    ensures LinkRun(l, [d, e, f]) == LinkStep(LinkStep(LinkStep(l, d), e), f)
  {
    var events := [d, e, f];
    var k := LinkStep(l, d);
    assert events[1..] == [e, f] && [e, f][1..] == [f] && [f][1..] == [];
    assert LinkRun(l, events) == LinkRun(k, [e, f]) == LinkRun(LinkStep(k, e), [f]);
  }
}
