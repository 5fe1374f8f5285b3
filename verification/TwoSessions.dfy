/**
 * Exactly-once delivery between two whole sessions: identifiers come from `allocate_packet_id`, every
 * PUBLISH is gated by the send quota, the receiver refuses one beyond its own Receive Maximum, and both
 * sessions may do anything else meanwhile, QoS 1 messages under the same identifiers and the same quota
 * included. Every step is a step of ExactlyOnce as far as that can see.
 */
module TwoSessions {
  import opened Prelude
  import opened QosFlow
  import opened SessionSpec
  import opened SessionInvariants
  import Ownership
  import Replay
  import opened ExactlyOnce

  /** `held` are the identifiers the sender's application was handed and has not used. */
  datatype Pair = Pair(
    sender: SessionState,
    receiver: SessionState,
    held: set<u16>,
    content: map<u16, nat>,
    next: nat,
    down: Channel,
    up: Channel,
    delivered: seq<nat>,
    completed: seq<nat>)
  {
    /** What ExactlyOnce sees. */
    function View(): Link {
      Link(Seen(sender), receiver.flows, content, next, down, up, delivered, completed)
    }
  }

  /** The QoS 2 flows of the sender. */
  function Exchanges(s: SessionState): map<u16, OutgoingFlow> {
    map id | id in s.flows.outgoing && !s.flows.outgoing[id].state.AwaitingPuback? :: s.flows.outgoing[id]
  }

  function Seen(s: SessionState): Flows {
    s.flows.(outgoing := Exchanges(s))
  }

  /**
   * `SenderDoes` and `ReceiverDoes` are any other call, `Resume` reconnects both sessions, and
   * `QosOneArrives` is a QoS 1 PUBLISH, which the receiver acknowledges at once.
   */
  datatype PairEvent =
    | SendMessage
    | ResendMessage(id: u16)
    | PacketArrives
    | AnswerArrives
    | Resume(toSender: ConnackParams, toReceiver: ConnackParams)
    | SenderDoes(call: Event)
    | ReceiverDoes(call: Event)
    | QosOneArrives(id: u16)

  /** A new message under a fresh identifier, which goes back when the quota refuses the message. */
  ghost function SendMessageStep(w: Pair): Pair {
    match w.sender.AllocatePacketId()
    case (_, None) => w
    case (s, Some(id)) =>
      match s.PublishSent(ExactlyOnce, id)
      case (t, Err(_)) => w.(sender := t.ReleasePacketId(id))
      case (t, Ok(_)) =>
        w.(sender := t, content := w.content[id := w.next], next := w.next + 1,
           down := w.down + [Publish(id, w.next)])
  }

  function ResendStep(w: Pair, id: u16): Pair {
    if id !in Exchanges(w.sender) then w else
    match w.sender.ResendPublish(id)
    case (s, Ok(Some(ResendPublish(k)))) =>
      if k in w.content then w.(sender := s, down := w.down + [Publish(k, w.content[k])]) else w
    case (_, Ok(None)) =>
      (match w.sender.ResendPubrel(id)
       case Some(ResendPubrel(k)) => w.(down := w.down + [Pubrel(k)])
       case _ => w)
    case _ => w
  }

  /** A PUBLISH that the receiver refuses makes it close the connection. */
  function ReceiveStep(w: Pair, p: Packet): Pair {
    match p
    case Publish(id, n) =>
      (match w.receiver.HandlePublish(id, ExactlyOnce)
       case (_, Err(_)) => w.(down := [], up := [])
       case (r, Ok(action)) =>
         w.(receiver := r,
            up := Queued(w.up, action),
            delivered := if IsDelivery(action) then w.delivered + [n] else w.delivered))
    case Pubrel(id) =>
      (match w.receiver.HandlePubrel(id)
       case (r, Err(_)) => w.(receiver := r)
       case (r, reply) => w.(receiver := r.PubcompSent(), up := Replied(w.up, reply)))
    case _ => w
  }

  function AcknowledgeStep(w: Pair, p: Packet): Pair {
    match p
    case Pubrec(id) =>
      var (s, reply) := w.sender.HandlePubrec(id, 0);
      w.(sender := s, down := Replied(w.down, reply))
    case Pubcomp(id) =>
      var (s, reply) := w.sender.HandlePubcomp(id);
      w.(sender := s,
         completed := if reply == Ok(Some(Complete(id))) && id in w.content
                      then w.completed + [w.content[id]] else w.completed)
    case _ => w
  }

  /** The sender has a QoS 1 PUBLISH under `id` that is not acknowledged. */
  function QosOneStep(w: Pair, id: u16): Pair {
    if id !in w.sender.flows.outgoing || !w.sender.flows.outgoing[id].state.AwaitingPuback? then w else
    match w.receiver.HandlePublish(id, AtLeastOnce)
    case (_, Err(_)) => w.(down := [], up := [])
    case (r, Ok(action)) => if action == SendPuback(id) then w.(receiver := r.PubackSent(id)) else w.(receiver := r)
  }

  ghost function PairStep(w: Pair, e: PairEvent): Pair {
    match e
    case SendMessage => SendMessageStep(w)
    case ResendMessage(id) => ResendStep(w, id)
    case PacketArrives => if w.down == [] then w else ReceiveStep(w.(down := w.down[1..]), w.down[0])
    case AnswerArrives => if w.up == [] then w else AcknowledgeStep(w.(up := w.up[1..]), w.up[0])
    case Resume(p, q) =>
      if Replay.Resumes(w.sender, p) && Replay.Resumes(w.receiver, q)
      then w.(sender := Replay.Resumed(w.sender, p), receiver := Replay.Resumed(w.receiver, q), down := [], up := [])
      else w
    case SenderDoes(call) =>
      if SenderMay(w, call)
      then w.(sender := Step(w.sender, call), held := Ownership.HeldAfter(w.sender, w.held, call)) else w
    case ReceiverDoes(call) =>
      if Step(w.receiver, call).flows.incoming == w.receiver.flows.incoming
      then w.(receiver := Step(w.receiver, call)) else w
    case QosOneArrives(id) => QosOneStep(w, id)
  }

  /** A call that uses identifiers as permitted and leaves the QoS 2 exchanges alone. */
  ghost predicate SenderMay(w: Pair, call: Event) {
    Ownership.Permitted(w.sender, w.held, call) && Exchanges(Step(w.sender, call)) == Exchanges(w.sender)
  }

  ghost function PairRun(w: Pair, events: seq<PairEvent>): Pair
    decreases |events|
  {
    if events == [] then w else PairRun(PairStep(w, events[0]), events[1..])
  }

  // -- what ExactlyOnce does not look at ----------------------------------------------------------

  /** Equal but for charges, sequence numbers and the traffic the other way. */
  ghost predicate Alike(l: Link, m: Link) {
    && m.sender.outgoing.Keys == l.sender.outgoing.Keys
    && (forall id | id in l.sender.outgoing :: m.sender.outgoing[id].state == l.sender.outgoing[id].state)
    && m.receiver.incoming == l.receiver.incoming
    && m.content == l.content && m.next == l.next && m.down == l.down && m.up == l.up
    && m.delivered == l.delivered && m.completed == l.completed
  }

  lemma AlikeKeepsInvariant(l: Link, m: Link)
    requires Invariant(l) && Alike(l, m)
    ensures Invariant(m)
  {
    SameLiveStaysAccounted(l, m);
    forall id
      ensures Consistent(m, id)
    {
      assert Consistent(l, id);
      SameStaysConsistent(l, m, id);
    }
  }

  /** The step is one of ExactlyOnce. */
  ghost predicate Follows(l: Link, m: Link) {
    exists e :: Alike(LinkStep(l, e), m)
  }

  lemma FollowsBy(l: Link, m: Link, e: LinkEvent)
    requires Alike(LinkStep(l, e), m)
    ensures Follows(l, m)
  {
  }

  lemma StandsStill(l: Link, m: Link)
    requires Alike(l, m)
    ensures Follows(l, m)
  {
    var e := Elsewhere(l.sender.incoming, l.receiver.outgoing, l.receiver.nextSeq);
    assert LinkStep(l, e) == l;
  }

  ghost predicate PairInvariant(w: Pair) {
    Wellformed(w.sender) && Ownership.Owned(w.sender, w.held) && Invariant(w.View())
  }

  // -- every step ---------------------------------------------------------------------------------

  lemma FreshId(w: Pair)
    requires PairInvariant(w)
    ensures match w.sender.AllocatePacketId()
            case (_, None) => true
            case (s, Some(id)) =>
              && id != 0 && id !in w.sender.flows.outgoing && id !in w.sender.ids && id !in w.held
              && s == w.sender.(ids := w.sender.ids + {id})
  {
    Ownership.FreshIdIsUnowned(w.sender, w.held);
  }

  lemma SendSeen(s: SessionState, id: u16)
    requires id != 0 && id !in s.flows.outgoing && s.window.CanSend()
    ensures Seen(s.PublishSent(ExactlyOnce, id).0) == Seen(s).PublishSent(id, ExactlyOnce)
  {
    var t := s.PublishSent(ExactlyOnce, id).0;
    assert Exchanges(t) == Exchanges(s)[id := t.flows.outgoing[id]];
  }

  lemma SendFollows(w: Pair)
    requires PairInvariant(w)
    ensures Follows(w.View(), SendMessageStep(w).View())
  {
    FreshId(w);
    var m := SendMessageStep(w);
    match w.sender.AllocatePacketId() {
      case (_, None) => StandsStill(w.View(), m.View());
      case (s, Some(id)) =>
        match s.PublishSent(ExactlyOnce, id) {
          case (_, Err(_)) => StandsStill(w.View(), m.View());
          case (_, Ok(_)) =>
            SendSeen(s, id);
            FollowsBy(w.View(), m.View(), LinkEvent.Send(id));
        }
    }
  }

  /** Resending does what ExactlyOnce does, or, for a flow already sent or a full window, nothing. */
  lemma ResendIsAlike(w: Pair, id: u16)
    requires id in Exchanges(w.sender) ==> id in w.content
    ensures var m := ResendStep(w, id).View();
            Alike(w.View(), m) || Alike(LinkStep(w.View(), LinkEvent.Resend(id)), m)
  {
    if id in Exchanges(w.sender) {
      ResendSeen(w.sender, id);
      var m := ResendStep(w, id).View();
      assert m.down == w.down || m.down == LinkStep(w.View(), LinkEvent.Resend(id)).down;
    }
  }

  /** Resending changes charges only. */
  lemma ResendSeen(s: SessionState, id: u16)
    ensures var t := s.ResendPublish(id).0;
            && t.flows.incoming == s.flows.incoming && t.flows.nextSeq == s.flows.nextSeq
            && Exchanges(t).Keys == Exchanges(s).Keys
            && forall k | k in Exchanges(s) :: Exchanges(t)[k].state == Exchanges(s)[k].state
  {
  }

  lemma ResendFollows(w: Pair, id: u16)
    requires PairInvariant(w)
    ensures Follows(w.View(), ResendStep(w, id).View())
  {
    var l, m := w.View(), ResendStep(w, id).View();
    assert Consistent(l, id);
    ResendIsAlike(w, id);
    if Alike(l, m) {
      StandsStill(l, m);
    } else {
      FollowsBy(l, m, LinkEvent.Resend(id));
    }
  }

  lemma ReceivePublishFollows(w: Pair)
    requires PairInvariant(w) && w.down != [] && w.down[0].Publish?
    ensures Follows(w.View(), PairStep(w, PacketArrives).View())
  {
    var l, m := w.View(), PairStep(w, PacketArrives).View();
    var id := w.down[0].id;
    if w.receiver.HandlePublish(id, ExactlyOnce).1.Err? {
      FollowsBy(l, m, LinkEvent.Reconnect);
    } else {
      FollowsBy(l, m, LinkEvent.DeliverDown);
    }
  }

  lemma PubrelFollows(w: Pair)
    requires w.down != [] && w.down[0].Pubrel?
    ensures PairStep(w, PacketArrives).View() == LinkStep(w.View(), DeliverDown)
  {
    var id := w.down[0].id;
    var (r, reply) := w.receiver.HandlePubrel(id);
    assert (r.flows, reply) == w.receiver.flows.PubrelReceived(id);
  }

  lemma DownFollows(w: Pair)
    requires PairInvariant(w)
    ensures Follows(w.View(), PairStep(w, PacketArrives).View())
  {
    if w.down == [] {
      StandsStill(w.View(), PairStep(w, PacketArrives).View());
      return;
    }
    match w.down[0] {
      case Publish(_, _) => ReceivePublishFollows(w);
      case Pubrel(_) =>
        PubrelFollows(w);
        FollowsBy(w.View(), PairStep(w, PacketArrives).View(), LinkEvent.DeliverDown);
      case Pubrec(_) => FollowsBy(w.View(), PairStep(w, PacketArrives).View(), LinkEvent.DeliverDown);
      case Pubcomp(_) => FollowsBy(w.View(), PairStep(w, PacketArrives).View(), LinkEvent.DeliverDown);
    }
  }

  lemma PubrecSeen(s: SessionState, id: u16)
    ensures var (t, reply) := s.HandlePubrec(id, 0);
            var (f, seen) := Seen(s).PubrecReceived(id, 0);
            Seen(t) == f && forall c :: Replied(c, reply) == Replied(c, seen)
  {
    var (t, reply) := s.HandlePubrec(id, 0);
    assert (t.flows, reply) == s.flows.PubrecReceived(id, 0);
    if id in Exchanges(s) && s.flows.outgoing[id].state.AwaitingPubrec? {
      assert Exchanges(t) == Exchanges(s)[id := t.flows.outgoing[id]];
    } else {
      assert t.flows == s.flows;
    }
  }

  lemma PubcompSeen(s: SessionState, id: u16)
    ensures var (t, reply) := s.HandlePubcomp(id);
            var (f, seen) := Seen(s).PubcompReceived(id);
            Seen(t) == f && (reply == Ok(Some(Complete(id))) <==> seen == Ok(Some(Complete(id))))
  {
    var (t, reply) := s.HandlePubcomp(id);
    assert (t.flows, reply) == s.flows.PubcompReceived(id);
    if id in Exchanges(s) && s.flows.outgoing[id].state.AwaitingPubcomp? {
      assert Exchanges(t) == Exchanges(s) - {id};
    } else {
      assert t.flows == s.flows;
    }
  }

  lemma PubrecFollows(w: Pair)
    requires w.up != [] && w.up[0].Pubrec?
    ensures PairStep(w, AnswerArrives).View() == LinkStep(w.View(), DeliverUp)
  {
    PubrecSeen(w.sender, w.up[0].id);
  }

  lemma PubcompFollows(w: Pair)
    requires w.up != [] && w.up[0].Pubcomp?
    ensures PairStep(w, AnswerArrives).View() == LinkStep(w.View(), DeliverUp)
  {
    PubcompSeen(w.sender, w.up[0].id);
  }

  lemma UpFollows(w: Pair)
    ensures Follows(w.View(), PairStep(w, AnswerArrives).View())
  {
    if w.up == [] {
      StandsStill(w.View(), PairStep(w, AnswerArrives).View());
      return;
    }
    match w.up[0] {
      case Pubrec(_) => PubrecFollows(w);
      case Pubcomp(_) => PubcompFollows(w);
      case Publish(_, _) => assert PairStep(w, AnswerArrives).View() == LinkStep(w.View(), DeliverUp);
      case Pubrel(_) => assert PairStep(w, AnswerArrives).View() == LinkStep(w.View(), DeliverUp);
    }
    FollowsBy(w.View(), PairStep(w, AnswerArrives).View(), LinkEvent.DeliverUp);
  }

  lemma ReconnectFollows(w: Pair, p: ConnackParams, q: ConnackParams)
    ensures Follows(w.View(), PairStep(w, Resume(p, q)).View())
  {
    var m := PairStep(w, Resume(p, q));
    if Replay.Resumes(w.sender, p) && Replay.Resumes(w.receiver, q) {
      Replay.ResumedState(w.sender, p);
      Replay.ResumedState(w.receiver, q);
      FollowsBy(w.View(), m.View(), LinkEvent.Reconnect);
    } else {
      StandsStill(w.View(), m.View());
    }
  }

  lemma QosOneIsTransient(r: SessionState, id: u16)
    requires id !in r.flows.incoming
    ensures match r.HandlePublish(id, AtLeastOnce)
            case (t, Err(_)) => t == r
            case (t, Ok(_)) => t.PubackSent(id) == r
  {
    if r.window.CanReceive() {
      assert r.flows.incoming[id := IncomingAwaitingPuback] - {id} == r.flows.incoming;
    }
  }

  /** An identifier of a QoS 1 message has no incoming QoS 2 exchange. */
  lemma QosOneFollows(w: Pair, id: u16)
    requires PairInvariant(w)
    ensures Follows(w.View(), QosOneStep(w, id).View())
  {
    var l, m := w.View(), QosOneStep(w, id).View();
    assert Consistent(l, id);
    if id !in w.receiver.flows.incoming {
      QosOneIsTransient(w.receiver, id);
    }
    if m.down == l.down && m.up == l.up {
      StandsStill(l, m);
    } else {
      FollowsBy(l, m, LinkEvent.Reconnect);
    }
  }

  /** Other calls change nothing that ExactlyOnce looks at. */
  lemma CallFollows(w: Pair, e: PairEvent)
    requires e.SenderDoes? || e.ReceiverDoes?
    ensures Follows(w.View(), PairStep(w, e).View())
  {
    StandsStill(w.View(), PairStep(w, e).View());
  }

  /** Every step of the two sessions is a step of ExactlyOnce. */
  lemma PairRefinesLink(w: Pair, e: PairEvent)
    requires PairInvariant(w)
    ensures Follows(w.View(), PairStep(w, e).View())
  {
    match e {
      case SendMessage => SendFollows(w);
      case ResendMessage(id) => ResendFollows(w, id);
      case PacketArrives => DownFollows(w);
      case AnswerArrives => UpFollows(w);
      case Resume(p, q) => ReconnectFollows(w, p, q);
      case SenderDoes(_) => CallFollows(w, e);
      case ReceiverDoes(_) => CallFollows(w, e);
      case QosOneArrives(id) => QosOneFollows(w, id);
    }
  }

  // -- identifiers --------------------------------------------------------------------------------

  ghost predicate SenderInvariant(w: Pair) {
    Wellformed(w.sender) && Ownership.Owned(w.sender, w.held)
  }

  lemma CallKeepsOwnership(s: SessionState, held: set<u16>, e: Event)
    requires Wellformed(s) && Ownership.Owned(s, held) && Ownership.Permitted(s, held, e)
    ensures Wellformed(Step(s, e)) && Ownership.Owned(Step(s, e), Ownership.HeldAfter(s, held, e))
  {
    StepKeepsWellformed(s, e);
    Ownership.OwnershipExact(s, held, e);
  }

  /** A fresh identifier goes to the exchange, or back. */
  lemma SendKeepsOwnership(w: Pair)
    requires PairInvariant(w)
    ensures SenderInvariant(SendMessageStep(w))
  {
    FreshId(w);
    match w.sender.AllocatePacketId() {
      case (_, None) =>
      case (s, Some(id)) =>
        if s.PublishSent(ExactlyOnce, id).1.Ok? {
          CallKeepsOwnership(w.sender, w.held, IdAllocated);
          PublishKeepsOwnership(s, w.held, id);
        } else {
          assert s.ReleasePacketId(id) == w.sender;
        }
    }
  }

  lemma PublishKeepsOwnership(s: SessionState, held: set<u16>, id: u16)
    requires Wellformed(s) && Ownership.Owned(s, held + {id}) && id !in held
    requires s.PublishSent(ExactlyOnce, id).1.Ok?
    ensures var t := s.PublishSent(ExactlyOnce, id).0; Wellformed(t) && Ownership.Owned(t, held)
  {
    CallKeepsOwnership(s, held + {id}, Event.PublishSent(ExactlyOnce, id));
    assert held + {id} - {id} == held;
  }

  lemma AnswerKeepsOwnership(w: Pair)
    requires SenderInvariant(w) && w.up != []
    ensures SenderInvariant(PairStep(w, AnswerArrives))
  {
    match w.up[0] {
      case Pubrec(id) => CallKeepsOwnership(w.sender, w.held, PubrecReceived(id, 0));
      case Pubcomp(id) => CallKeepsOwnership(w.sender, w.held, PubcompReceived(id));
      case Publish(_, _) =>
      case Pubrel(_) =>
    }
  }

  lemma ResumeKeepsOwnership(w: Pair, p: ConnackParams)
    requires SenderInvariant(w) && Replay.Resumes(w.sender, p)
    ensures Wellformed(Replay.Resumed(w.sender, p)) && Ownership.Owned(Replay.Resumed(w.sender, p), w.held)
  {
    CallKeepsOwnership(w.sender, w.held, Event.ConnectSent);
    CallKeepsOwnership(w.sender.ConnectSent(), w.held, ConnackReceived(p));
  }

  lemma ArrivalKeepsSender(w: Pair)
    ensures var m := PairStep(w, PacketArrives); m.sender == w.sender && m.held == w.held
  {
  }

  lemma StepKeepsOwnership(w: Pair, e: PairEvent)
    requires PairInvariant(w)
    ensures SenderInvariant(PairStep(w, e))
  {
    match e {
      case SendMessage => SendKeepsOwnership(w);
      case ResendMessage(id) => CallKeepsOwnership(w.sender, w.held, PublishResent(id));
      case PacketArrives => ArrivalKeepsSender(w);
      case AnswerArrives =>
        if w.up != [] {
          AnswerKeepsOwnership(w);
        }
      case Resume(p, q) =>
        if Replay.Resumes(w.sender, p) {
          ResumeKeepsOwnership(w, p);
        }
      case SenderDoes(call) =>
        if SenderMay(w, call) {
          CallKeepsOwnership(w.sender, w.held, call);
        }
      case ReceiverDoes(_) =>
      case QosOneArrives(_) => assert PairStep(w, e).sender == w.sender && PairStep(w, e).held == w.held;
    }
  }

  lemma PairStepKeepsInvariant(w: Pair, e: PairEvent)
    requires PairInvariant(w)
    ensures PairInvariant(PairStep(w, e))
  {
    var l, m := w.View(), PairStep(w, e).View();
    StepKeepsOwnership(w, e);
    PairRefinesLink(w, e);
    var d :| Alike(LinkStep(l, d), m);
    StepKeepsInvariant(l, d);
    AlikeKeepsInvariant(LinkStep(l, d), m);
  }

  lemma {:induction false} PairRunKeepsInvariant(w: Pair, events: seq<PairEvent>)
    requires PairInvariant(w)
    ensures PairInvariant(PairRun(w, events))
    decreases |events|
  {
    if events != [] {
      PairStepKeepsInvariant(w, events[0]);
      PairRunKeepsInvariant(PairStep(w, events[0]), events[1..]);
    }
  }

  /** Two new sessions. */
  predicate Starts(w: Pair) {
    && w.sender == SessionState.New(w.sender.version, w.sender.clientId, w.sender.cleanStart)
    && w.receiver == SessionState.New(w.receiver.version, w.receiver.clientId, w.receiver.cleanStart)
    && w.View() == INITIAL && w.held == {}
  }

  /**
   * Exactly once for whole sessions: after any run no message is delivered twice, a completed one was
   * delivered, any other is still held under an identifier of its own, and no identifier is lost.
   */
  lemma SessionsDeliverExactlyOnce(w: Pair, events: seq<PairEvent>)
    requires Starts(w)
    ensures var m := PairRun(w, events);
            && Distinct(m.delivered) && Distinct(m.completed)
            && (forall n | n in m.completed :: n in m.delivered)
            && (forall n | 0 <= n < m.next :: n in m.completed || Pending(m.View(), n))
            && Ownership.Owned(m.sender, m.held)
  {
    InitialInvariant();
    PairRunKeepsInvariant(w, events);
  }
}
