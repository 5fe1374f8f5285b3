/**
 * The send quota of one session against the receive window of its peer (section 4.9 of MQTT v5.0): a
 * PUBLISH is refused only when the sender has more unacknowledged exchanges than the receiver's
 * Receive Maximum. A sender whose quota is exact is never refused; one that carried an exchange over
 * from an earlier connection can be.
 */
module PeerQuota {
  import opened Prelude
  import opened PacketIds
  import opened QosFlow
  import opened SessionSpec
  import opened SessionInvariants
  import opened ExactlyOnce
  import opened TwoSessions
  import Replay
  import opened SendQuota

  /** The next packet is a PUBLISH that the receiver refuses. */
  predicate IsRefused(w: Pair) {
    w.down != [] && w.down[0].Publish? && w.receiver.HandlePublish(w.down[0].id, QoS.ExactlyOnce).1.Err?
  }

  /** The receiver counts no more than the exchanges it holds. */
  ghost predicate CountsExchanges(r: SessionState) {
    r.window.incoming <= |r.flows.incoming|
  }

  lemma ReceivedCallCounts(r: SessionState, call: Event)
    requires Step(r, call).flows.incoming == r.flows.incoming && IsReceived(call)
    ensures Step(r, call).window.incoming <= r.window.incoming
  {
  }

  lemma LifeCycleCallCounts(r: SessionState, call: Event)
    requires IsLifeCycle(call)
    ensures Step(r, call).window.incoming <= r.window.incoming
  {
  }

  lemma CallCounts(r: SessionState, call: Event)
    requires Step(r, call).flows.incoming == r.flows.incoming
    ensures Step(r, call).window.incoming <= r.window.incoming
  {
    if IsReceived(call) {
      ReceivedCallCounts(r, call);
    } else if IsLifeCycle(call) {
      LifeCycleCallCounts(r, call);
    }
  }

  lemma PublishCounts(r: SessionState, id: u16)
    requires CountsExchanges(r)
    ensures CountsExchanges(r.HandlePublish(id, QoS.ExactlyOnce).0)
  {
    var t := r.HandlePublish(id, QoS.ExactlyOnce).0;
    assert t.flows.incoming.Keys == r.flows.incoming.Keys || t.flows.incoming.Keys == r.flows.incoming.Keys + {id};
    assert |t.flows.incoming| == |t.flows.incoming.Keys| && |r.flows.incoming| == |r.flows.incoming.Keys|;
  }

  lemma PubrelCounts(r: SessionState, id: u16)
    requires CountsExchanges(r)
    ensures CountsExchanges(r.HandlePubrel(id).0.PubcompSent()) || r.HandlePubrel(id).1.Err?
    ensures r.HandlePubrel(id).1.Err? ==> r.HandlePubrel(id).0 == r
  {
    var t := r.HandlePubrel(id).0;
    assert t.flows.incoming == r.flows.incoming || t.flows.incoming.Keys == r.flows.incoming.Keys - {id};
    assert |t.flows.incoming| == |t.flows.incoming.Keys| && |r.flows.incoming| == |r.flows.incoming.Keys|;
  }

  lemma PairStepCounts(w: Pair, e: PairEvent)
    requires CountsExchanges(w.receiver)
    ensures CountsExchanges(PairStep(w, e).receiver)
  {
    match e {
      case PacketArrives =>
        if w.down != [] {
          match w.down[0] {
            case Publish(id, _) => PublishCounts(w.receiver, id);
            case Pubrel(id) => PubrelCounts(w.receiver, id);
            case Pubrec(_) =>
            case Pubcomp(_) =>
          }
        }
      case ReceiverDoes(call) =>
        if Step(w.receiver, call).flows.incoming == w.receiver.flows.incoming {
          CallCounts(w.receiver, call);
        }
      case Resume(_, _) =>
      case SendMessage => assert PairStep(w, e).receiver == w.receiver;
      case ResendMessage(_) => assert PairStep(w, e).receiver == w.receiver;
      case AnswerArrives => assert PairStep(w, e).receiver == w.receiver;
      case SenderDoes(_) =>
      case QosOneArrives(id) => assert PairStep(w, e).receiver.window.incoming <= w.receiver.window.incoming;
    }
  }

  lemma {:induction false} PairRunCounts(w: Pair, events: seq<PairEvent>)
    requires PairInvariant(w) && CountsExchanges(w.receiver)
    ensures PairInvariant(PairRun(w, events)) && CountsExchanges(PairRun(w, events).receiver)
    decreases |events|
  {
    if events != [] {
      PairStepKeepsInvariant(w, events[0]);
      PairStepCounts(w, events[0]);
      PairRunCounts(PairStep(w, events[0]), events[1..]);
    }
  }

  lemma RefusedState(w: Pair)
    requires PairInvariant(w) && CountsExchanges(w.receiver) && IsRefused(w)
    ensures |w.sender.flows.outgoing| > w.receiver.window.ownReceiveMaximum
  {
    var id := w.down[0].id;
    var theirs, ours := w.receiver.flows.incoming.Keys, w.sender.flows.outgoing.Keys;
    HeadIsExpected(w.View());
    forall k | k in theirs
      ensures k in ours
    {
      assert Consistent(w.View(), k);
    }
    SubsetSize(theirs + {id}, ours);
    assert |theirs| == |w.receiver.flows.incoming| && |ours| == |w.sender.flows.outgoing|;
  }

  lemma SubsetSize(a: set<u16>, b: set<u16>)
    requires a <= b
    ensures |a| <= |b|
  {
    assert b == a + (b - a);
  }

  /** All exchanges are charged to a connection whose Receive Maximum is the receiver's, or less. */
  predicate QuotaIsExact(w: Pair) {
    && w.sender.window.outstanding == |w.sender.flows.outgoing|
    && w.sender.window.outstanding <= w.sender.window.receiveMaximum <= w.receiver.window.ownReceiveMaximum
  }

  /**
   * In every run of two sessions: a PUBLISH is refused only while more exchanges are unacknowledged
   * than the receiver's Receive Maximum. So a sender whose quota is exact is never refused.
   */
  lemma RefusalNeedsOverload(start: Pair, events: seq<PairEvent>)
    requires Starts(start)
    ensures var w := PairRun(start, events);
            && (IsRefused(w) ==> |w.sender.flows.outgoing| > w.receiver.window.ownReceiveMaximum)
            && (QuotaIsExact(w) ==> !IsRefused(w))
  {
    InitialInvariant();
    PairRunCounts(start, events);
    var w := PairRun(start, events);
    if IsRefused(w) {
      RefusedState(w);
    }
  }

  // -- a refusal ----------------------------------------------------------------------------------

  predicate CanResume(s: SessionState) {
    s.version == V5 && s.clientId != "" && !s.cleanStart
  }

  /** The parts of the two sessions that a refusal depends on. */
  ghost predicate At(w: Pair, flows: map<u16, FlowState>, outstanding: nat, theirs: map<u16, FlowState>, counted: nat)
  {
    && CanResume(w.sender) && CanResume(w.receiver)
    && w.sender.ids == flows.Keys == w.sender.flows.outgoing.Keys
    && (forall id | id in flows :: w.sender.flows.outgoing[id].state == flows[id] && id in w.content)
    && w.sender.window.outstanding == outstanding && w.sender.window.receiveMaximum > 0
    && w.receiver.flows.incoming == theirs && w.receiver.flows.outgoing == map[]
    && w.receiver.window.incoming == counted && w.receiver.window.ownReceiveMaximum == 1
  }

  lemma SendAt(w: Pair, flows: map<u16, FlowState>, theirs: map<u16, FlowState>, counted: nat, id: u16)
    requires At(w, flows, 0, theirs, counted) && LeastUnused(flows.Keys) == Some(id)
    ensures var m := PairStep(w, SendMessage);
            && At(m, flows[id := AwaitingPubrec], 1, theirs, counted)
            && m.down == w.down + [Publish(id, w.next)] && m.up == w.up
            && m.sender.window.receiveMaximum == w.sender.window.receiveMaximum
  {
    assert w.sender.AllocatePacketId().1 == Some(id);
  }

  lemma PublishAt(w: Pair, flows: map<u16, FlowState>, outstanding: nat, theirs: map<u16, FlowState>, id: u16, n: nat)
    requires At(w, flows, outstanding, theirs, 0) && id !in theirs && w.down != [] && w.down[0] == Publish(id, n)
    ensures var m := PairStep(w, PacketArrives);
            && At(m, flows, outstanding, theirs[id := AwaitingPubrel], 1)
            && m.down == w.down[1..] && m.up == w.up + [Pubrec(id)] && m.sender == w.sender
  {
  }

  lemma PubrecAt(w: Pair, outstanding: nat, theirs: map<u16, FlowState>, counted: nat, id: u16)
    requires At(w, map[id := AwaitingPubrec], outstanding, theirs, counted) && w.up == [Pubrec(id)]
    ensures var m := PairStep(w, AnswerArrives);
            At(m, map[id := AwaitingPubcomp], outstanding, theirs, counted) && m.up == []
  {
    var m := PairStep(w, AnswerArrives);
    assert m.sender.flows == w.sender.flows.PubrecReceived(id, 0).0;
  }

  lemma ResumeAt(w: Pair, flows: map<u16, FlowState>, theirs: map<u16, FlowState>, p: ConnackParams)
    requires At(w, flows, w.sender.window.outstanding, theirs, w.receiver.window.incoming)
    requires p == Accepting(true, Some(1))
    ensures var m := PairStep(w, Resume(p, p));
            && At(m, flows, 0, theirs, 0) && m.sender.window.receiveMaximum == 1
            && m.down == [] && m.up == []
  {
    Replay.ResumedState(w.sender, p);
    Replay.ResumedState(w.receiver, p);
  }

  lemma StartAt(w: Pair)
    requires Starts(w) && CanResume(w.sender) && CanResume(w.receiver)
    ensures var m := PairStep(w, ReceiverDoes(Configured(0, 0, 0, 1, 0)));
            At(m, map[], 0, map[], 0) && m.down == [] && m.up == []
  {
  }

  function Waiting(id: u16): map<u16, FlowState> {
    map[id := AwaitingPubrec]
  }

  /** One exchange waits for its PUBCOMP, at a receiver whose Receive Maximum is one. */
  lemma ToCarryOver(w: Pair) returns (m: Pair, events: seq<PairEvent>)
    requires Starts(w) && CanResume(w.sender) && CanResume(w.receiver)
    ensures m == PairRun(w, events)
    ensures At(m, map[1 := AwaitingPubcomp], 1, map[1 := AwaitingPubrel], 1)
  {
    var configured := ReceiverDoes(Configured(0, 0, 0, 1, 0));
    StartAt(w);
    var a := PairStep(w, configured);
    LeastUnusedIs({}, 1);
    SendAt(a, map[], map[], 0, 1);
    var b := PairStep(a, SendMessage);
    PublishAt(b, Waiting(1), 1, map[], 1, a.next);
    var c := PairStep(b, PacketArrives);
    PubrecAt(c, 1, map[1 := AwaitingPubrel], 1, 1);
    m := PairStep(c, AnswerArrives);
    events := [configured, SendMessage, PacketArrives, AnswerArrives];
    FourSteps(w, configured, SendMessage, PacketArrives, AnswerArrives);
  }

  lemma PairRunCons(w: Pair, e: PairEvent, rest: seq<PairEvent>)
    ensures PairRun(w, [e] + rest) == PairRun(PairStep(w, e), rest)
  {
    assert ([e] + rest)[1..] == rest;
  }

  lemma {:induction false} PairRunAppend(w: Pair, a: seq<PairEvent>, b: seq<PairEvent>)
    ensures PairRun(w, a + b) == PairRun(PairRun(w, a), b)
    decreases |a|
  {
    if a == [] {
      assert a + b == b;
    } else {
      PairRunAppend(PairStep(w, a[0]), a[1..], b);
      assert (a + b)[1..] == a[1..] + b;
    }
  }

  lemma FourSteps(w: Pair, e0: PairEvent, e1: PairEvent, e2: PairEvent, e3: PairEvent)
    ensures PairRun(w, [e0, e1, e2, e3]) == PairStep(PairStep(PairStep(PairStep(w, e0), e1), e2), e3)
  {
    var r3 := [e3] + [];
    var r2 := [e2] + r3;
    var r1 := [e1] + r2;
    assert [e0, e1, e2, e3] == [e0] + r1;
    var w1 := PairStep(w, e0);
    var w2 := PairStep(w1, e1);
    PairRunCons(w, e0, r1);
    PairRunCons(w1, e1, r2);
    PairRunCons(w2, e2, r3);
    PairRunCons(PairStep(w2, e2), e3, []);
  }

  /** Refused although sender and receiver agree on the Receive Maximum and the sender's quota admitted it. */
  predicate IsRefusedWithinQuota(w: Pair) {
    IsRefused(w) && w.sender.window.outstanding <= w.sender.window.receiveMaximum == w.receiver.window.ownReceiveMaximum
  }
}
