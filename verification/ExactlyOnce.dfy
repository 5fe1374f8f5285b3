/**
 * Exactly-once delivery between two flow managers (section 4.3.3 of MQTT v5.0).
 *
 * The sender's outgoing half and the receiver's incoming half are joined by two FIFO channels. A
 * reconnect loses everything in flight; both parties keep their session state. Identifiers are
 * reused freely, and a pending flow may be retransmitted at any time and any number of times. What
 * the two managers do for traffic the other way, under whatever identifiers, may happen at any time
 * (`Elsewhere`); Duplex joins two such links.
 */
module ExactlyOnce {
  import opened Prelude
  import opened QosFlow

  /** `n` stands for the application message a PUBLISH carries. */
  datatype Packet =
    | Publish(id: u16, n: nat)
    | Pubrel(id: u16)
    | Pubrec(id: u16)
    | Pubcomp(id: u16)

  type Channel = seq<Packet>

  /**
   * `content` is the sender's store of unacknowledged messages, `next` numbers new messages,
   * `delivered` logs what the receiver hands to its application (each `SendPubrec` that is not a
   * duplicate), and `completed` logs the messages for which the sender saw `Complete`.
   */
  datatype Link = Link(
    sender: Flows,
    receiver: Flows,
    content: map<u16, nat>,
    next: nat,
    down: Channel,
    up: Channel,
    delivered: seq<nat>,
    completed: seq<nat>)

  const INITIAL := Link(Flows.Empty(), Flows.Empty(), map[], 0, [], [], [], [])

  datatype LinkEvent =
    | Send(id: u16)
    | Resend(id: u16)
    | DeliverDown
    | DeliverUp
    | Reconnect
    | Elsewhere(incoming: map<u16, FlowState>, outgoing: map<u16, OutgoingFlow>, nextSeq: nat)

  /** A new message under an identifier without an exchange; other calls send nothing. */
  function SendNew(l: Link, id: u16): Link {
    if id == 0 || id in l.sender.outgoing then l
    else l.(sender := l.sender.PublishSent(id, ExactlyOnce),
            content := l.content[id := l.next],
            next := l.next + 1,
            down := l.down + [Publish(id, l.next)])
  }

  /** The channel once the packet that an action asks for has been written; other actions write nothing. */
  function Queued(c: Channel, action: Action): Channel {
    match action
    case SendPubrec(id, _) => c + [Pubrec(id)]
    case SendPubrel(id) => c + [Pubrel(id)]
    case SendPubcomp(id) => c + [Pubcomp(id)]
    case ResendPubcomp(id) => c + [Pubcomp(id)]
    case _ => c
  }

  function Replied(c: Channel, reply: Reply): Channel {
    match reply
    case Ok(Some(action)) => Queued(c, action)
    case _ => c
  }

  /** The application is handed what is answered by a PUBREC and is not a duplicate. */
  predicate IsDelivery(action: Action) {
    action.SendPubrec? && !action.isDuplicate
  }

  /** A retransmitted PUBLISH takes a unit of quota, as `resend_publish` does. */
  function Retransmit(l: Link, id: u16): Link {
    match l.sender.NeedsRetransmission(id)
    case Some(ResendPublish(k)) =>
      if k in l.content
      then l.(sender := l.sender.MarkCharged(id), down := l.down + [Publish(k, l.content[k])]) else l
    case Some(ResendPubrel(k)) => l.(down := l.down + [Pubrel(k)])
    case _ => l
  }

  /** The receiver handles one packet and answers as its flow manager says. */
  function Receive(l: Link, p: Packet): Link {
    match p
    case Publish(id, n) =>
      var (r, action) := l.receiver.PublishReceivedQos2(id);
      l.(receiver := r,
         up := Queued(l.up, action),
         delivered := if IsDelivery(action) then l.delivered + [n] else l.delivered)
    case Pubrel(id) =>
      var (r, reply) := l.receiver.PubrelReceived(id);
      l.(receiver := r, up := Replied(l.up, reply))
    case _ => l
  }

  /** The sender handles one acknowledgement. */
  function Acknowledge(l: Link, p: Packet): Link {
    match p
    case Pubrec(id) =>
      var (s, reply) := l.sender.PubrecReceived(id, 0);
      l.(sender := s, down := Replied(l.down, reply))
    case Pubcomp(id) =>
      var (s, reply) := l.sender.PubcompReceived(id);
      l.(sender := s,
         completed := if reply == Ok(Some(Complete(id))) && id in l.content
                      then l.completed + [l.content[id]] else l.completed)
    case _ => l
  }

  function LinkStep(l: Link, e: LinkEvent): Link {
    match e
    case Send(id) => SendNew(l, id)
    case Resend(id) => Retransmit(l, id)
    case DeliverDown => if l.down == [] then l else Receive(l.(down := l.down[1..]), l.down[0])
    case DeliverUp => if l.up == [] then l else Acknowledge(l.(up := l.up[1..]), l.up[0])
    case Reconnect => l.(down := [], up := [], sender := l.sender.ClearCharges(), receiver := l.receiver.ClearCharges())
    case Elsewhere(incoming, outgoing, nextSeq) =>
      l.(sender := l.sender.(incoming := incoming),
         receiver := l.receiver.(outgoing := outgoing, nextSeq := nextSeq))
  }

  function LinkRun(l: Link, events: seq<LinkEvent>): Link
    decreases |events|
  {
    if events == [] then l else LinkRun(LinkStep(l, events[0]), events[1..])
  }

  // ------------------------------------------------------------------------------------------
  // Channels, one identifier at a time
  // ------------------------------------------------------------------------------------------

  function Of(c: Channel, id: u16): Channel {
    if c == [] then [] else (if c[0].id == id then [c[0]] else []) + Of(c[1..], id)
  }

  lemma {:induction false} OfAppend(c: Channel, p: Packet, id: u16)
    ensures Of(c + [p], id) == Of(c, id) + (if p.id == id then [p] else [])
    decreases |c|
  {
    if c == [] {
      assert (c + [p])[1..] == [];
    } else {
      var first := if c[0].id == id then [c[0]] else [];
      var last := if p.id == id then [p] else [];
      assert (c + [p])[1..] == c[1..] + [p];
      OfAppend(c[1..], p, id);
      assert first + (Of(c[1..], id) + last) == (first + Of(c[1..], id)) + last;
    }
  }

  ghost predicate Only(c: Channel, a: Packet) {
    forall i | 0 <= i < |c| :: c[i] == a
  }

  /** Packets `a` first, packets `b` after them. */
  ghost predicate InOrder(c: Channel, a: Packet, b: Packet) {
    && (forall i | 0 <= i < |c| :: c[i] == a || c[i] == b)
    && (forall i, j | 0 <= i < j < |c| && c[i] == b :: c[j] == b)
  }

  // ------------------------------------------------------------------------------------------
  // The invariant: how the two parties and both channels stand for one identifier
  // ------------------------------------------------------------------------------------------

  /** All the receiver could still do under `id` is answer an old PUBREL. */
  ghost predicate Idle(id: u16, waiting: bool, d: Channel, u: Channel) {
    !waiting && Only(d, Pubrel(id)) && Only(u, Pubcomp(id))
  }

  /** The PUBLISH of `n` is under way; packets of an earlier exchange may still be ahead of it. */
  ghost predicate Publishing(id: u16, n: nat, waiting: bool, seen: bool, d: Channel, u: Channel) {
    && waiting == seen
    && if waiting then Only(d, Publish(id, n)) && InOrder(u, Pubcomp(id), Pubrec(id))
       else InOrder(d, Pubrel(id), Publish(id, n)) && Only(u, Pubcomp(id))
  }

  /** The message is delivered and the PUBREL under way. */
  ghost predicate Releasing(id: u16, n: nat, waiting: bool, seen: bool, d: Channel, u: Channel) {
    && seen
    && if waiting then InOrder(d, Publish(id, n), Pubrel(id)) && Only(u, Pubrec(id))
       else Only(d, Pubrel(id)) && InOrder(u, Pubrec(id), Pubcomp(id))
  }

  ghost predicate Consistent(l: Link, id: u16) {
    var waiting, d, u := id in l.receiver.incoming, Of(l.down, id), Of(l.up, id);
    && (waiting ==> l.receiver.incoming[id] == AwaitingPubrel)
    && if id !in l.sender.outgoing then Idle(id, waiting, d, u)
       else
         && id in l.content
         && var n := l.content[id];
            match l.sender.outgoing[id].state
            case AwaitingPubrec => Publishing(id, n, waiting, n in l.delivered, d, u)
            case AwaitingPubcomp => Releasing(id, n, waiting, n in l.delivered, d, u)
            case _ => false
  }

  /** What relates different messages. */
  ghost predicate Accounted(l: Link) {
    && (forall id | id in l.sender.outgoing :: id != 0 && id in l.content && l.content[id] < l.next)
    && (forall a, b | a in l.sender.outgoing && b in l.sender.outgoing && a != b && a in l.content && b in l.content
          :: l.content[a] != l.content[b])
    && (forall n | n in l.delivered :: n < l.next)
    && (forall n | n in l.completed :: n in l.delivered)
    && (forall n | 0 <= n < l.next :: n in l.completed || Pending(l, n))
    && (forall id | id in l.sender.outgoing && id in l.content :: l.content[id] !in l.completed)
    && Distinct(l.delivered)
    && Distinct(l.completed)
  }

  ghost predicate Pending(l: Link, n: nat) {
    exists id :: id in l.sender.outgoing && id in l.content && l.content[id] == n
  }

  ghost predicate Invariant(l: Link) {
    Accounted(l) && forall id :: Consistent(l, id)
  }

  /** Nothing about `id` has changed. */
  ghost predicate SameFor(l: Link, m: Link, id: u16) {
    && (id in l.receiver.incoming <==> id in m.receiver.incoming)
    && (id in l.receiver.incoming ==> l.receiver.incoming[id] == m.receiver.incoming[id])
    && (id in l.sender.outgoing <==> id in m.sender.outgoing)
    && (id in l.sender.outgoing ==>
          && l.sender.outgoing[id].state == m.sender.outgoing[id].state
          && (id in l.content <==> id in m.content)
          && (id in l.content ==>
                && l.content[id] == m.content[id]
                && (l.content[id] in l.delivered <==> l.content[id] in m.delivered)))
    && Of(l.down, id) == Of(m.down, id)
    && Of(l.up, id) == Of(m.up, id)
  }

  lemma SameStaysConsistent(l: Link, m: Link, id: u16)
    requires Consistent(l, id) && SameFor(l, m, id)
    ensures Consistent(m, id)
  {
  }

  // -- the ten moves of one exchange ----------------------------------------------------------

  lemma FirstOf(p: Packet, c: Channel, a: Packet, b: Packet)
    ensures Only([p] + c, a) ==> p == a && Only(c, a)
    ensures InOrder([p] + c, a, b) ==> InOrder(c, a, b) && (p == a || (p == b && Only(c, b)))
  {
    var all := [p] + c;
    assert all[0] == p && forall i | 0 <= i < |c| :: c[i] == all[i + 1];
  }

  lemma PublishWhilePublishing(id: u16, n: nat, waiting: bool, d: Channel, u: Channel)
    requires Publishing(id, n, waiting, waiting, [Publish(id, n)] + d, u)
    ensures Publishing(id, n, true, true, d, u + [Pubrec(id)])
  {
    FirstOf(Publish(id, n), d, if waiting then Publish(id, n) else Pubrel(id), Publish(id, n));
  }

  lemma PublishWhileReleasing(id: u16, n: nat, waiting: bool, d: Channel, u: Channel)
    requires Releasing(id, n, waiting, true, [Publish(id, n)] + d, u)
    ensures waiting && Releasing(id, n, true, true, d, u + [Pubrec(id)])
  {
    FirstOf(Publish(id, n), d, Publish(id, n), Pubrel(id));
    FirstOf(Publish(id, n), d, Pubrel(id), Pubrel(id));
  }

  /** A PUBREL is answered, unless the receiver has a send flow under the identifier. */
  function Answering(id: u16, u: Channel, answered: bool): Channel {
    if answered then u + [Pubcomp(id)] else u
  }

  lemma PubrelWhileIdle(id: u16, d: Channel, u: Channel, answered: bool)
    requires Idle(id, false, [Pubrel(id)] + d, u)
    ensures Idle(id, false, d, Answering(id, u, answered))
  {
    FirstOf(Pubrel(id), d, Pubrel(id), Pubrel(id));
  }

  lemma PubrelWhilePublishing(id: u16, n: nat, waiting: bool, d: Channel, u: Channel, answered: bool)
    requires Publishing(id, n, waiting, waiting, [Pubrel(id)] + d, u)
    ensures !waiting && Publishing(id, n, false, false, d, Answering(id, u, answered))
  {
    FirstOf(Pubrel(id), d, if waiting then Publish(id, n) else Pubrel(id), Publish(id, n));
  }

  lemma PubrelWhileReleasing(id: u16, n: nat, waiting: bool, d: Channel, u: Channel, answered: bool)
    requires Releasing(id, n, waiting, true, [Pubrel(id)] + d, u) && (waiting ==> answered)
    ensures Releasing(id, n, false, true, d, Answering(id, u, answered))
  {
    FirstOf(Pubrel(id), d, Publish(id, n), Pubrel(id));
    FirstOf(Pubrel(id), d, Pubrel(id), Pubrel(id));
  }

  lemma PubrecWhilePublishing(id: u16, n: nat, waiting: bool, d: Channel, u: Channel)
    requires Publishing(id, n, waiting, waiting, d, [Pubrec(id)] + u)
    ensures waiting && Releasing(id, n, true, true, d + [Pubrel(id)], u)
  {
    FirstOf(Pubrec(id), u, Pubcomp(id), Pubrec(id));
  }

  lemma PubrecWhileReleasing(id: u16, n: nat, waiting: bool, d: Channel, u: Channel)
    requires Releasing(id, n, waiting, true, d, [Pubrec(id)] + u)
    ensures Releasing(id, n, waiting, true, d + [Pubrel(id)], u)
  {
    FirstOf(Pubrec(id), u, Pubrec(id), Pubcomp(id));
  }

  lemma PubcompWhileIdle(id: u16, d: Channel, u: Channel)
    requires Idle(id, false, d, [Pubcomp(id)] + u)
    ensures Idle(id, false, d, u)
  {
    FirstOf(Pubcomp(id), u, Pubcomp(id), Pubcomp(id));
  }

  lemma PubcompWhilePublishing(id: u16, n: nat, waiting: bool, d: Channel, u: Channel)
    requires Publishing(id, n, waiting, waiting, d, [Pubcomp(id)] + u)
    ensures Publishing(id, n, waiting, waiting, d, u)
  {
    FirstOf(Pubcomp(id), u, Pubcomp(id), Pubrec(id));
  }

  lemma PubcompWhileReleasing(id: u16, n: nat, waiting: bool, d: Channel, u: Channel)
    requires Releasing(id, n, waiting, true, d, [Pubcomp(id)] + u)
    ensures !waiting && Idle(id, false, d, u)
  {
    FirstOf(Pubcomp(id), u, Pubrec(id), Pubcomp(id));
  }

  // -- new messages and retransmissions ------------------------------------------------------

  lemma SendConsistent(l: Link, id: u16, k: u16)
    requires Invariant(l) && id != 0 && id !in l.sender.outgoing
    ensures Consistent(SendNew(l, id), k)
  {
    var m := SendNew(l, id);
    assert Consistent(l, k);
    OfAppend(l.down, Publish(id, l.next), k);
    if k != id {
      SameStaysConsistent(l, m, k);
    }
  }

  lemma SendAccounted(l: Link, id: u16)
    requires Invariant(l) && id != 0 && id !in l.sender.outgoing
    ensures Accounted(SendNew(l, id))
  {
    var m := SendNew(l, id);
    forall n | 0 <= n < m.next && n !in m.completed
      ensures Pending(m, n)
    {
      if n == l.next {
        assert m.content[id] == n;
      } else {
        assert Pending(l, n);
        var k :| k in l.sender.outgoing && k in l.content && l.content[k] == n;
        assert k in m.sender.outgoing && m.content[k] == n;
      }
    }
  }

  lemma ResendConsistent(l: Link, id: u16, k: u16)
    requires Invariant(l)
    ensures Consistent(Retransmit(l, id), k)
  {
    var m := Retransmit(l, id);
    assert Consistent(l, id) && Consistent(l, k);
    if |m.down| > |l.down| {
      OfAppend(l.down, m.down[|l.down|], k);
      assert m.down == l.down + [m.down[|l.down|]];
      if k != id {
        SameStaysConsistent(l, m, k);
      }
    }
  }

  // -- the receiver ---------------------------------------------------------------------------

  lemma ReceivePublish(l: Link, k: u16)
    requires Invariant(l) && l.down != [] && l.down[0].Publish?
    ensures Consistent(LinkStep(l, DeliverDown), k)
  {
    var p, m := l.down[0], LinkStep(l, DeliverDown);
    HeadIsExpected(l);
    OfAppend(l.up, Pubrec(p.id), k);
    assert Consistent(l, k);
    if k != p.id {
      assert k in l.sender.outgoing ==> l.content[k] != p.n;
      SameStaysConsistent(l, m, k);
    } else {
      var waiting, d, u := k in l.receiver.incoming, Of(l.down[1..], k), Of(l.up, k);
      assert Of(l.down, k) == [p] + d;
      if l.sender.outgoing[k].state.AwaitingPubrec? {
        PublishWhilePublishing(k, p.n, waiting, d, u);
      } else {
        PublishWhileReleasing(k, p.n, waiting, d, u);
      }
    }
  }

  /** A PUBLISH in flight belongs to the live exchange of its identifier. */
  lemma HeadIsExpected(l: Link)
    requires Invariant(l) && l.down != [] && l.down[0].Publish?
    ensures var p := l.down[0];
            && p.id in l.sender.outgoing && p.id in l.content && l.content[p.id] == p.n
            && (p.id in l.receiver.incoming <==> p.n in l.delivered)
  {
    var p := l.down[0];
    assert Consistent(l, p.id);
    assert Of(l.down, p.id)[0] == p;
  }

  lemma ReceivePubrel(l: Link, k: u16)
    requires Invariant(l) && l.down != [] && l.down[0].Pubrel?
    ensures Consistent(LinkStep(l, DeliverDown), k)
  {
    var p, m := l.down[0], LinkStep(l, DeliverDown);
    var answered := p.id in l.receiver.incoming || p.id !in l.receiver.outgoing;
    assert Consistent(l, p.id) && Consistent(l, k);
    assert m.up == Answering(p.id, l.up, answered);
    OfAppend(l.up, Pubcomp(p.id), k);
    if k != p.id {
      SameStaysConsistent(l, m, k);
    } else {
      var waiting, d, u := k in l.receiver.incoming, Of(l.down[1..], k), Of(l.up, k);
      assert Of(l.down, k) == [p] + d;
      if k !in l.sender.outgoing {
        PubrelWhileIdle(k, d, u, answered);
      } else if l.sender.outgoing[k].state.AwaitingPubrec? {
        PubrelWhilePublishing(k, l.content[k], waiting, d, u, answered);
      } else {
        PubrelWhileReleasing(k, l.content[k], waiting, d, u, answered);
      }
    }
  }

  lemma ReceiveAccounted(l: Link)
    requires Invariant(l) && l.down != []
    ensures Accounted(LinkStep(l, DeliverDown))
  {
    var m := LinkStep(l, DeliverDown);
    if l.down[0].Publish? {
      HeadIsExpected(l);
      var n := l.down[0].n;
      assert m.delivered == if n in l.delivered then l.delivered else l.delivered + [n];
    } else {
      assert m.delivered == l.delivered;
    }
    StillPending(l, m);
  }

  lemma StillPending(l: Link, m: Link)
    requires m.sender == l.sender && m.content == l.content && m.next == l.next && m.completed == l.completed
    requires forall n | 0 <= n < l.next :: n in l.completed || Pending(l, n)
    ensures forall n | 0 <= n < m.next :: n in m.completed || Pending(m, n)
  {
    forall n | 0 <= n < m.next && n !in m.completed
      ensures Pending(m, n)
    {
      assert Pending(l, n);
    }
  }

  // -- the sender -----------------------------------------------------------------------------

  /** The channel to the sender carries acknowledgements only, and no PUBREC without an exchange. */
  lemma UpIsUp(l: Link)
    requires Invariant(l) && l.up != []
    ensures l.up[0].Pubcomp? || (l.up[0].Pubrec? && l.up[0].id in l.sender.outgoing)
  {
    var p := l.up[0];
    assert Consistent(l, p.id);
    assert Of(l.up, p.id)[0] == p;
  }

  lemma AcknowledgePubrec(l: Link, k: u16)
    requires Invariant(l) && l.up != [] && l.up[0] == Pubrec(k)
    ensures Consistent(LinkStep(l, DeliverUp), k)
  {
    UpIsUp(l);
    OfAppend(l.down, Pubrel(k), k);
    assert Consistent(l, k);
    var waiting, d, u := k in l.receiver.incoming, Of(l.down, k), Of(l.up[1..], k);
    assert Of(l.up, k) == [Pubrec(k)] + u;
    if l.sender.outgoing[k].state.AwaitingPubrec? {
      PubrecWhilePublishing(k, l.content[k], waiting, d, u);
    } else {
      PubrecWhileReleasing(k, l.content[k], waiting, d, u);
    }
  }

  lemma AcknowledgePubcomp(l: Link, k: u16)
    requires Invariant(l) && l.up != [] && l.up[0] == Pubcomp(k)
    ensures Consistent(LinkStep(l, DeliverUp), k)
  {
    assert Consistent(l, k);
    var waiting, d, u := k in l.receiver.incoming, Of(l.down, k), Of(l.up[1..], k);
    assert Of(l.up, k) == [Pubcomp(k)] + u;
    if k !in l.sender.outgoing {
      PubcompWhileIdle(k, d, u);
    } else if l.sender.outgoing[k].state.AwaitingPubrec? {
      PubcompWhilePublishing(k, l.content[k], waiting, d, u);
    } else {
      PubcompWhileReleasing(k, l.content[k], waiting, d, u);
    }
  }

  lemma AcknowledgeOther(l: Link, k: u16)
    requires Invariant(l) && l.up != [] && l.up[0].id != k
    ensures Consistent(LinkStep(l, DeliverUp), k)
  {
    UpIsUp(l);
    OfAppend(l.down, Pubrel(l.up[0].id), k);
    assert Consistent(l, k);
    SameStaysConsistent(l, LinkStep(l, DeliverUp), k);
  }

  lemma AcknowledgeConsistent(l: Link, k: u16)
    requires Invariant(l) && l.up != []
    ensures Consistent(LinkStep(l, DeliverUp), k)
  {
    UpIsUp(l);
    if l.up[0].id != k {
      AcknowledgeOther(l, k);
    } else if l.up[0].Pubrec? {
      AcknowledgePubrec(l, k);
    } else {
      AcknowledgePubcomp(l, k);
    }
  }

  /** Besides its state, the exchange that a packet completes. */
  predicate Completes(l: Link, id: u16) {
    l.up != [] && l.up[0] == Pubcomp(id) && id in l.sender.outgoing && l.sender.outgoing[id].state.AwaitingPubcomp?
  }

  lemma CompletingAccounted(l: Link, id: u16)
    requires Invariant(l) && Completes(l, id)
    ensures Accounted(LinkStep(l, DeliverUp))
  {
    var m := LinkStep(l, DeliverUp);
    assert Consistent(l, id);
    assert m.completed == l.completed + [l.content[id]];
    forall n | 0 <= n < m.next && n !in m.completed
      ensures Pending(m, n)
    {
      assert n !in l.completed && n != l.content[id];
      assert Pending(l, n);
      var k :| k in l.sender.outgoing && k in l.content && l.content[k] == n;
      assert k in m.sender.outgoing && m.content[k] == n;
    }
  }

  lemma AcknowledgeAccounted(l: Link)
    requires Invariant(l) && l.up != []
    ensures Accounted(LinkStep(l, DeliverUp))
  {
    var p, m := l.up[0], LinkStep(l, DeliverUp);
    UpIsUp(l);
    if Completes(l, p.id) {
      CompletingAccounted(l, p.id);
    } else {
      SameLiveStaysAccounted(l, m);
    }
  }

  /** Accounting looks at identifiers, messages and logs only. */
  lemma SameLiveStaysAccounted(l: Link, m: Link)
    requires Accounted(l)
    requires m.sender.outgoing.Keys == l.sender.outgoing.Keys && m.content == l.content && m.next == l.next
    requires m.delivered == l.delivered && m.completed == l.completed
    ensures Accounted(m)
  {
    forall n | 0 <= n < m.next && n !in m.completed
      ensures Pending(m, n)
    {
      assert Pending(l, n);
      var k :| k in l.sender.outgoing && k in l.content && l.content[k] == n;
      assert k in m.sender.outgoing && m.content[k] == n;
    }
  }

  // -- the run --------------------------------------------------------------------------------

  lemma ReconnectKeepsInvariant(l: Link)
    requires Invariant(l)
    ensures Invariant(LinkStep(l, Reconnect))
  {
    var m := LinkStep(l, Reconnect);
    forall id
      ensures Consistent(m, id)
    {
      assert Consistent(l, id);
    }
    SameLiveStaysAccounted(l, m);
  }

  /** Traffic the other way leaves this direction alone. */
  lemma ElsewhereConsistent(l: Link, e: LinkEvent, k: u16)
    requires Invariant(l) && e.Elsewhere?
    ensures Consistent(LinkStep(l, e), k)
  {
    assert Consistent(l, k);
    SameStaysConsistent(l, LinkStep(l, e), k);
  }

  lemma StepKeepsInvariant(l: Link, e: LinkEvent)
    requires Invariant(l)
    ensures Invariant(LinkStep(l, e))
  {
    if LinkStep(l, e) == l {
    } else if e.Elsewhere? {
      SameLiveStaysAccounted(l, LinkStep(l, e));
      forall k { ElsewhereConsistent(l, e, k); }
    } else if e.Reconnect? {
      ReconnectKeepsInvariant(l);
    } else if e.Send? {
      SendAccounted(l, e.id);
      forall k { SendConsistent(l, e.id, k); }
    } else if e.Resend? {
      SameLiveStaysAccounted(l, LinkStep(l, e));
      forall k { ResendConsistent(l, e.id, k); }
    } else if e.DeliverDown? {
      DownIsDown(l);
      ReceiveAccounted(l);
      if l.down[0].Publish? {
        forall k { ReceivePublish(l, k); }
      } else {
        forall k { ReceivePubrel(l, k); }
      }
    } else {
      AcknowledgeAccounted(l);
      forall k { AcknowledgeConsistent(l, k); }
    }
  }

  /** The channel to the receiver carries no acknowledgements. */
  lemma DownIsDown(l: Link)
    requires Invariant(l) && l.down != []
    ensures l.down[0].Publish? || l.down[0].Pubrel?
  {
    var p := l.down[0];
    assert Consistent(l, p.id);
    assert Of(l.down, p.id)[0] == p;
  }

  lemma {:induction false} RunKeepsInvariant(l: Link, events: seq<LinkEvent>)
    requires Invariant(l)
    ensures Invariant(LinkRun(l, events))
    decreases |events|
  {
    if events != [] {
      StepKeepsInvariant(l, events[0]);
      RunKeepsInvariant(LinkStep(l, events[0]), events[1..]);
    }
  }

  lemma InitialInvariant()
    ensures Invariant(INITIAL)
  {
  }

  /**
   * Exactly once: on every run no message is delivered twice, a message whose exchange the sender
   * saw completed was delivered, and a message not completed is still held by the sender.
   */
  lemma ExactlyOnceDelivery(events: seq<LinkEvent>)
    ensures var l := LinkRun(INITIAL, events);
            && Distinct(l.delivered)
            && (forall n | n in l.delivered :: n < l.next)
            && (forall n | n in l.completed :: n in l.delivered)
            && (forall n | 0 <= n < l.next :: n in l.completed <==> !Pending(l, n))
  {
    InitialInvariant();
    RunKeepsInvariant(INITIAL, events);
  }

  /** A reconnect that loses everything in flight, and the retransmission of one flow. */
  function Retry(l: Link, id: u16): Link {
    LinkStep(LinkStep(l, Reconnect), Resend(id))
  }

  /** One packet down and its answer up. */
  function RoundTrip(l: Link): Link {
    LinkStep(LinkStep(l, DeliverDown), DeliverUp)
  }

  /** What recovery needs to know of one exchange. */
  predicate Recoverable(l: Link, id: u16) {
    && id in l.sender.outgoing && id in l.content
    && (l.sender.outgoing[id].state.AwaitingPubrec? || l.sender.outgoing[id].state.AwaitingPubcomp?)
    && (id in l.receiver.incoming ==> l.receiver.incoming[id].AwaitingPubrel?)
  }

  /** The peer answers a PUBREL: it waits for one, or has no send flow under the identifier. */
  predicate Answers(l: Link, id: u16) {
    id in l.receiver.incoming || id !in l.receiver.outgoing
  }

  lemma RetryIs(l: Link, id: u16)
    requires Recoverable(l, id)
    ensures var m := Retry(l, id);
            && Recoverable(m, id) && m.content == l.content && m.up == []
            && m.completed == l.completed && Answers(m, id) == Answers(l, id)
            && m.sender.outgoing[id].state == l.sender.outgoing[id].state
            && m.down == if l.sender.outgoing[id].state.AwaitingPubrec? then [Publish(id, l.content[id])]
                         else [Pubrel(id)]
  {
  }

  lemma PublishRoundTrip(l: Link, id: u16)
    requires Recoverable(l, id) && l.sender.outgoing[id].state.AwaitingPubrec?
    requires l.up == [] && l.down == [Publish(id, l.content[id])]
    ensures var m := RoundTrip(l);
            && Recoverable(m, id) && m.sender.outgoing[id].state.AwaitingPubcomp? && id in m.receiver.incoming
            && m.content == l.content && m.down == [Pubrel(id)] && m.up == []
  {
  }

  lemma PubrelRoundTrip(l: Link, id: u16)
    requires Recoverable(l, id) && l.sender.outgoing[id].state.AwaitingPubcomp?
    requires l.up == [] && l.down == [Pubrel(id)]
    ensures var m := RoundTrip(l);
            if Answers(l, id) then id !in m.sender.outgoing && m.completed == l.completed + [l.content[id]]
            else m == l.(down := [])
  {
  }

  lemma RetryKeepsInvariant(l: Link, id: u16)
    requires Invariant(l)
    ensures Invariant(Retry(l, id))
  {
    StepKeepsInvariant(l, Reconnect);
    StepKeepsInvariant(LinkStep(l, Reconnect), Resend(id));
  }

  lemma RoundTripKeepsInvariant(l: Link)
    requires Invariant(l)
    ensures Invariant(RoundTrip(l))
  {
    StepKeepsInvariant(l, DeliverDown);
    StepKeepsInvariant(LinkStep(l, DeliverDown), DeliverUp);
  }

  /** A reconnect and at most two round trips. */
  function Recovered(l: Link, id: u16): Link
    requires id in l.sender.outgoing
  {
    var retried := Retry(l, id);
    if l.sender.outgoing[id].state.AwaitingPubrec? then RoundTrip(RoundTrip(retried)) else RoundTrip(retried)
  }

  lemma RecoveredKeepsInvariant(l: Link, id: u16)
    requires Invariant(l) && id in l.sender.outgoing
    ensures Invariant(Recovered(l, id))
  {
    RetryKeepsInvariant(l, id);
    RoundTripKeepsInvariant(Retry(l, id));
    RoundTripKeepsInvariant(RoundTrip(Retry(l, id)));
  }

  lemma ExchangeIsRecoverable(l: Link, id: u16)
    requires Invariant(l) && id in l.sender.outgoing
    ensures Recoverable(l, id)
  {
    assert Consistent(l, id);
  }

  lemma RecoveredIff(l: Link, id: u16)
    requires Recoverable(l, id)
    ensures var m := Recovered(l, id);
            if l.sender.outgoing[id].state.AwaitingPubrec? || Answers(l, id)
            then id !in m.sender.outgoing && l.content[id] in m.completed
            else id in m.sender.outgoing
  {
    RetryIs(l, id);
    var m := Retry(l, id);
    if l.sender.outgoing[id].state.AwaitingPubrec? {
      PublishRoundTrip(m, id);
      m := RoundTrip(m);
    }
    PubrelRoundTrip(m, id);
  }

  /**
   * Recovery, exactly: from every reachable situation a reconnect and at most two round trips
   * complete an exchange, and its message has then been delivered exactly once, if and only if the
   * exchange still waits for its PUBREC, or the peer holds a receive flow under the identifier, or
   * the peer has no send flow under it.
   */
  lemma RecoveryCompletesIff(events: seq<LinkEvent>, id: u16)
    requires id in LinkRun(INITIAL, events).sender.outgoing
    ensures var l := LinkRun(INITIAL, events);
            var m := Recovered(l, id);
            && id in l.content
            && (id !in m.sender.outgoing <==> l.sender.outgoing[id].state.AwaitingPubrec? || Answers(l, id))
            && (id !in m.sender.outgoing ==>
                  l.content[id] in m.completed && multiset(m.delivered)[l.content[id]] == 1)
  {
    InitialInvariant();
    RunKeepsInvariant(INITIAL, events);
    var l := LinkRun(INITIAL, events);
    ExchangeIsRecoverable(l, id);
    RecoveredIff(l, id);
    RecoveredKeepsInvariant(l, id);
    if id !in Recovered(l, id).sender.outgoing {
      DistinctCounts(Recovered(l, id).delivered, l.content[id]);
    }
  }

  lemma {:induction false} DistinctCounts(s: seq<nat>, n: nat)
    requires Distinct(s) && n in s
    ensures multiset(s)[n] == 1
    decreases |s|
  {
    var last := |s| - 1;
    assert s == s[..last] + [s[last]];
    if s[last] != n {
      DistinctCounts(s[..last], n);
    } else {
      assert n !in s[..last];
    }
  }
}
