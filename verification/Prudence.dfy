/**
 * `Prudent` is the weakest rule a sender can follow that sees its own flows only: an event that breaks
 * it is not safe on some link that looks the same to the sender. That link has the same history, except
 * that the messages which still wait never arrived.
 */
module Prudence {
  import opened Prelude
  import FlowRuns
  import opened ExactlyOnce
  import opened OrderedDelivery
  import opened OrderedReplay

  /** The receiver sends nothing of its own. */
  predicate OneWay(events: seq<LinkEvent>) {
    forall i | 0 <= i < |events| :: events[i].Elsewhere? ==> events[i].outgoing == map[]
  }

  // -- what is over ---------------------------------------------------------------------------------

  /** Message `n` was sent and waits for no PUBREC. */
  ghost predicate Past(l: Link, n: nat) {
    n < l.next && forall id | IsPublishing(l, id) :: l.content[id] != n
  }

  lemma PastStep(l: Link, e: LinkEvent, n: nat)
    requires Invariant(l) && Past(l, n)
    ensures Past(LinkStep(l, e), n)
  {
    var m := LinkStep(l, e);
    match e {
      case Send(id) => assert forall k | IsPublishing(m, k) && k != id :: IsPublishing(l, k);
      case Resend(id) => assert forall k | IsPublishing(m, k) :: IsPublishing(l, k);
      case DeliverDown => assert m.sender == l.sender;
      case DeliverUp =>
        if l.up != [] {
          AcknowledgementEffect(l);
        }
      case Reconnect => assert forall k | IsPublishing(m, k) :: IsPublishing(l, k);
      case Elsewhere(_, _, _) => assert forall k | IsPublishing(m, k) :: IsPublishing(l, k);
    }
  }

  lemma {:induction false} PastRun(l: Link, events: seq<LinkEvent>, n: nat)
    requires Invariant(l) && Past(l, n)
    ensures Past(LinkRun(l, events), n)
    decreases |events|
  {
    if events != [] {
      PastStep(l, events[0], n);
      StepKeepsInvariant(l, events[0]);
      PastRun(LinkStep(l, events[0]), events[1..], n);
    }
  }

  // -- what waits is not in flight ------------------------------------------------------------------

  ghost predicate WaitsClear(l: Link) {
    forall id | Waits(l.sender, id) :: Of(l.down, id) == []
  }

  lemma WaitsClearStep(l: Link, e: LinkEvent)
    requires Invariant(l) && WaitsClear(l)
    ensures WaitsClear(LinkStep(l, e))
  {
    var m := LinkStep(l, e);
    forall k | Waits(m.sender, k)
      ensures Of(m.down, k) == []
    {
      match e {
        case Send(id) => OfAppend(l.down, Publish(id, l.next), k);
        case Resend(id) =>
          ResendEffect(l, id);
          OfAppend(l.down, Pubrel(id), k);
          if id in l.content {
            OfAppend(l.down, Publish(id, l.content[id]), k);
          }
          assert Consistent(l, id);
        case DeliverDown => assert m.sender == l.sender;
        case DeliverUp =>
          if l.up != [] {
            OfAppend(l.down, Pubrel(l.up[0].id), k);
          }
        case Reconnect => assert m.down == [];
        case Elsewhere(_, _, _) => assert m.sender.outgoing == l.sender.outgoing && m.down == l.down;
      }
    }
  }

  lemma {:induction false} MessageIsOf(c: Channel, n: nat) returns (id: u16)
    requires n in Messages(c)
    ensures Publish(id, n) in Of(c, id)
    decreases |c|
  {
    if c[0] == Publish(c[0].id, n) {
      id := c[0].id;
    } else {
      id := MessageIsOf(c[1..], n);
    }
  }

  /** A message in flight belongs to the exchange of its identifier. */
  lemma InFlightIsLive(l: Link, id: u16, n: nat)
    requires Consistent(l, id) && Publish(id, n) in Of(l.down, id)
    ensures id in l.sender.outgoing && id in l.content && l.content[id] == n
  {
  }

  lemma WaitsIsNotInFlight(l: Link, id: u16)
    requires Invariant(l) && WaitsClear(l) && Waits(l.sender, id)
    ensures IsPublishing(l, id) && l.content[id] !in Messages(l.down)
  {
    assert Consistent(l, id);
    if l.content[id] in Messages(l.down) {
      var k := MessageIsOf(l.down, l.content[id]);
      assert Consistent(l, k);
      InFlightIsLive(l, k, l.content[id]);
    }
  }

  // -- the same history, less the arrivals ----------------------------------------------------------

  /** The next packet is one of the `lost` messages. */
  predicate IsStopped(m: Link, lost: set<nat>) {
    m.down != [] && m.down[0].Publish? && m.down[0].n in lost
  }

  /** Nothing arrives from a lost message on, until the connection is lost. */
  function LazyStep(m: Link, e: LinkEvent, lost: set<nat>): Link {
    if e.DeliverDown? && IsStopped(m, lost) then m else LinkStep(m, e)
  }

  /**
   * Both are alike to the sender: either the channels are the same, or `m` has stopped before a lost
   * message, whose PUBREC is the first answer that `m` does not have.
   */
  ghost predicate Lags(l: Link, m: Link, lost: set<nat>) {
    && m.sender == l.sender && m.content == l.content && m.next == l.next
    && l.receiver.outgoing == m.receiver.outgoing == map[]
    && (forall n | n in lost :: n !in m.delivered)
    && if l.down == m.down && l.up == m.up then true
       else IsStopped(m, lost) && m.up + [Pubrec(m.down[0].id)] <= l.up
  }

  lemma SameAnswer(l: Link, m: Link, lost: set<nat>)
    requires Invariant(l) && Invariant(m) && Lags(l, m, lost) && l.down == m.down && l.up == m.up
    requires l.down != [] && !IsStopped(m, lost)
    ensures Lags(LinkStep(l, DeliverDown), LinkStep(m, DeliverDown), lost)
  {
    assert Consistent(l, l.down[0].id) && Consistent(m, l.down[0].id);
  }

  lemma StoppedAnswer(l: Link, m: Link, lost: set<nat>)
    requires Lags(l, m, lost) && IsStopped(m, lost)
    ensures Lags(LinkStep(l, DeliverDown), m, lost)
  {
  }

  lemma SameAcknowledgement(l: Link, m: Link, lost: set<nat>)
    requires Lags(l, m, lost) && m.up != []
    ensures Lags(LinkStep(l, DeliverUp), LinkStep(m, DeliverUp), lost)
  {
    assert l.up[0] == m.up[0];
  }

  /** The PUBREC of a lost message would end its waiting. */
  lemma MissingAcknowledgement(l: Link, m: Link, lost: set<nat>)
    requires Invariant(l) && Invariant(m) && Lags(l, m, lost) && m.up == [] && l.up != []
    ensures IsStopped(m, lost) && Past(LinkStep(l, DeliverUp), m.down[0].n)
  {
    HeadIsExpected(m);
    var id, n := m.down[0].id, m.down[0].n;
    assert l.up[0] == Pubrec(id);
    AcknowledgementEffect(l);
    assert Consistent(l, id);
    assert Of(l.up, id)[0] == Pubrec(id);
  }

  lemma OtherLags(l: Link, m: Link, e: LinkEvent, lost: set<nat>)
    requires Lags(l, m, lost) && !e.DeliverDown? && !e.DeliverUp? && (e.Elsewhere? ==> e.outgoing == map[])
    ensures Lags(LinkStep(l, e), LinkStep(m, e), lost)
  {
  }

  lemma LazyLags(l: Link, m: Link, e: LinkEvent, lost: set<nat>)
    requires Invariant(l) && Invariant(m) && Lags(l, m, lost) && (e.Elsewhere? ==> e.outgoing == map[])
    requires forall n | n in lost :: !Past(LinkStep(l, e), n)
    ensures Lags(LinkStep(l, e), LazyStep(m, e, lost), lost)
  {
    match e {
      case DeliverDown =>
        if IsStopped(m, lost) {
          StoppedAnswer(l, m, lost);
        } else if l.down != [] {
          SameAnswer(l, m, lost);
        }
      case DeliverUp =>
        if m.up != [] {
          SameAcknowledgement(l, m, lost);
        } else if l.up != [] {
          MissingAcknowledgement(l, m, lost);
        }
      case _ => OtherLags(l, m, e, lost);
    }
  }

  lemma {:induction false} LazyRun(l: Link, m: Link, events: seq<LinkEvent>, lost: set<nat>)
    returns (lazy: seq<LinkEvent>)
    requires Invariant(l) && Invariant(m) && WaitsClear(m) && Lags(l, m, lost) && OneWay(events)
    requires forall n | n in lost :: !Past(LinkRun(l, events), n)
    ensures var k := LinkRun(m, lazy);
            Invariant(k) && WaitsClear(k) && Lags(LinkRun(l, events), k, lost)
    decreases |events|
  {
    if events == [] {
      lazy := [];
    } else {
      var e, rest := events[0], events[1..];
      StepKeepsInvariant(l, e);
      StepIsNotPast(l, events, lost);
      LazyLags(l, m, e, lost);
      assert OneWay(rest);
      if LazyStep(m, e, lost) == m {
        lazy := LazyRun(LinkStep(l, e), m, rest, lost);
      } else {
        StepKeepsInvariant(m, e);
        WaitsClearStep(m, e);
        var more := LazyRun(LinkStep(l, e), LinkStep(m, e), rest, lost);
        lazy := [e] + more;
        assert lazy[1..] == more;
      }
    }
  }

  lemma StepIsNotPast(l: Link, events: seq<LinkEvent>, lost: set<nat>)
    requires Invariant(l) && events != [] && forall n | n in lost :: !Past(LinkRun(l, events), n)
    ensures forall n | n in lost :: !Past(LinkStep(l, events[0]), n)
  {
    forall n | n in lost
      ensures !Past(LinkStep(l, events[0]), n)
    {
      if Past(LinkStep(l, events[0]), n) {
        StepKeepsInvariant(l, events[0]);
        PastRun(LinkStep(l, events[0]), events[1..], n);
      }
    }
  }

  // -- the rule is the weakest ----------------------------------------------------------------------

  /** The messages that still wait. */
  function WaitingMessages(l: Link): set<nat> {
    set id | id in l.sender.outgoing && Waits(l.sender, id) && id in l.content :: l.content[id]
  }

  /** Some history that the sender cannot tell from this one has lost every message that waits. */
  lemma AllWaitingLost(events: seq<LinkEvent>) returns (others: seq<LinkEvent>)
    requires OneWay(events)
    ensures var l, m := LinkRun(INITIAL, events), LinkRun(INITIAL, others);
            && m.sender == l.sender && m.content == l.content
            && forall id | Waits(l.sender, id) :: IsLost(m, id)
  {
    InitialInvariant();
    RunKeepsInvariant(INITIAL, events);
    var l := LinkRun(INITIAL, events);
    var lost := WaitingMessages(l);
    forall n | n in lost
      ensures !Past(l, n)
    {
      var id :| id in l.sender.outgoing && Waits(l.sender, id) && id in l.content && l.content[id] == n;
      assert IsPublishing(l, id);
    }
    others := LazyRun(INITIAL, INITIAL, events, lost);
    var m := LinkRun(INITIAL, others);
    forall id | Waits(l.sender, id)
      ensures IsLost(m, id)
    {
      WaitsIsNotInFlight(m, id);
      assert m.content[id] in lost;
    }
  }

  /** Every link that a run reaches is one on which the sender's view is right. */
  lemma {:induction false} RunTracks(l: Link, events: seq<LinkEvent>)
    requires Tracks(l)
    ensures Tracks(LinkRun(l, events))
    decreases |events|
  {
    if events != [] {
      StepTracks(l, events[0]);
      RunTracks(LinkStep(l, events[0]), events[1..]);
    }
  }

  lemma ReachedTracks(events: seq<LinkEvent>)
    ensures Tracks(LinkRun(INITIAL, events))
  {
    InitiallyOrdered();
    RunTracks(INITIAL, events);
  }

  /** An event that breaks the rule is unsafe on a link that loses what waits. */
  lemma ImprudentIsUnsafe(m: Link, e: LinkEvent)
    requires Tracks(m) && !Prudent(m.sender, e) && forall id | Waits(m.sender, id) :: IsLost(m, id)
    ensures !Safe(m, e)
  {
    match e {
      case Send(id) =>
        var k :| Waits(m.sender, k);
        assert IsLost(m, k);
      case Resend(id) =>
        var k :| Waits(m.sender, k) && m.sender.outgoing[k].seqNo < m.sender.outgoing[id].seqNo;
        assert IsLost(m, id) && IsLost(m, k) && k != id;
        LostAreDistinct(m, id);
    }
  }

  /**
   * The rule is exact: in every situation of a sender an event is prudent if and only if it is safe on
   * every link that looks like this to the sender.
   */
  lemma PrudentIffSafeEverywhere(events: seq<LinkEvent>, e: LinkEvent)
    requires OneWay(events)
    ensures var s := LinkRun(INITIAL, events).sender;
            Prudent(s, e) <==> forall others | LinkRun(INITIAL, others).sender == s :: Safe(LinkRun(INITIAL, others), e)
  {
    var s := LinkRun(INITIAL, events).sender;
    if Prudent(s, e) {
      forall others | LinkRun(INITIAL, others).sender == s
        ensures Safe(LinkRun(INITIAL, others), e)
      {
        ReachedTracks(others);
        PrudentIsSafe(LinkRun(INITIAL, others), e);
      }
    } else {
      var others := AllWaitingLost(events);
      ReachedTracks(others);
      ImprudentIsUnsafe(LinkRun(INITIAL, others), e);
    }
  }

  /** Replaying the pending list, in whatever situation: always prudent, and then anything may be sent. */
  lemma ReachedReplayIsPrudent(events: seq<LinkEvent>, ids: seq<u16>)
    requires FlowRuns.Listing(LinkRun(INITIAL, events).sender.outgoing, ids)
    ensures var l := LinkRun(INITIAL, events);
            PrudentRun(l, Resends(ids)) && SafeRun(l, Resends(ids))
            && forall e :: Prudent(LinkRun(l, Resends(ids)).sender, e)
  {
    ReachedTracks(events);
    ReplayIsPrudent(LinkRun(INITIAL, events), ids);
  }
}
