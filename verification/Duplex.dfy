/**
 * Two flow managers that both send and both receive. Each direction is a link of ExactlyOnce, so
 * delivery is exactly once both ways; but an exchange can deadlock with one the other way under the
 * same identifier, and this module says exactly when.
 */
module Duplex {
  import opened Prelude
  import opened QosFlow
  import opened ExactlyOnce

  /** One side: its flows and store, the channel it writes to, and its logs. */
  datatype Party = Party(
    flows: Flows,
    content: map<u16, nat>,
    next: nat,
    out: Channel,
    delivered: seq<nat>,
    completed: seq<nat>)
  {
    function Sending(id: u16): Party {
      if id == 0 || id in flows.outgoing then this
      else Party(flows.PublishSent(id, ExactlyOnce), content[id := next], next + 1, out + [Publish(id, next)],
                 delivered, completed)
    }

    function Resending(id: u16): Party {
      match flows.NeedsRetransmission(id)
      case Some(ResendPublish(k)) =>
        if k in content then this.(flows := flows.MarkCharged(id), out := out + [Publish(k, content[k])]) else this
      case Some(ResendPubrel(k)) => this.(out := out + [Pubrel(k)])
      case _ => this
    }

    /** One packet of the peer: what its role asks for is done by the same flow manager. */
    function Handling(p: Packet): Party {
      match p
      case Publish(id, n) =>
        var (f, action) := flows.PublishReceivedQos2(id);
        this.(flows := f, out := Queued(out, action),
              delivered := if IsDelivery(action) then delivered + [n] else delivered)
      case Pubrel(id) =>
        var (f, reply) := flows.PubrelReceived(id);
        this.(flows := f, out := Replied(out, reply))
      case Pubrec(id) =>
        var (f, reply) := flows.PubrecReceived(id, 0);
        this.(flows := f, out := Replied(out, reply))
      case Pubcomp(id) =>
        var (f, reply) := flows.PubcompReceived(id);
        this.(flows := f,
              completed := if reply == Ok(Some(Complete(id))) && id in content
                           then completed + [content[id]] else completed)
    }

    function Reconnecting(): Party {
      this.(flows := flows.ClearCharges(), out := [])
    }
  }

  datatype Duplex = Duplex(a: Party, b: Party)

  datatype Side = A | B

  datatype DuplexEvent = New(side: Side, id: u16) | Again(side: Side, id: u16) | Deliver(from: Side) | Reset

  const IDLE := Party(Flows.Empty(), map[], 0, [], [], [])
  const START := Duplex(IDLE, IDLE)

  function Swap(d: Duplex): Duplex {
    Duplex(d.b, d.a)
  }

  function Other(side: Side): Side {
    if side == A then B else A
  }

  function SwapEvent(e: DuplexEvent): DuplexEvent {
    match e
    case New(side, id) => New(Other(side), id)
    case Again(side, id) => Again(Other(side), id)
    case Deliver(from) => Deliver(Other(from))
    case Reset => Reset
  }

  /** The first packet of `a` arrives at `b`. */
  function Arrive(d: Duplex): Duplex {
    if d.a.out == [] then d else Duplex(d.a.(out := d.a.out[1..]), d.b.Handling(d.a.out[0]))
  }

  function DuplexStep(d: Duplex, e: DuplexEvent): Duplex {
    match e
    case New(side, id) => if side == A then d.(a := d.a.Sending(id)) else d.(b := d.b.Sending(id))
    case Again(side, id) => if side == A then d.(a := d.a.Resending(id)) else d.(b := d.b.Resending(id))
    case Deliver(from) => if from == A then Arrive(d) else Swap(Arrive(Swap(d)))
    case Reset => Duplex(d.a.Reconnecting(), d.b.Reconnecting())
  }

  lemma StepSwaps(d: Duplex, e: DuplexEvent)
    ensures DuplexStep(Swap(d), SwapEvent(e)) == Swap(DuplexStep(d, e))
  {
  }

  function DuplexRun(d: Duplex, events: seq<DuplexEvent>): Duplex
    decreases |events|
  {
    if events == [] then d else DuplexRun(DuplexStep(d, events[0]), events[1..])
  }

  // -- one direction of the traffic -----------------------------------------------------------

  predicate IsForward(p: Packet) {
    p.Publish? || p.Pubrel?
  }

  function Forward(c: Channel): Channel {
    if c == [] then [] else (if IsForward(c[0]) then [c[0]] else []) + Forward(c[1..])
  }

  function Backward(c: Channel): Channel {
    if c == [] then [] else (if IsForward(c[0]) then [] else [c[0]]) + Backward(c[1..])
  }

  lemma {:induction false} ForwardAppend(c: Channel, p: Packet)
    ensures Forward(c + [p]) == Forward(c) + if IsForward(p) then [p] else []
    decreases |c|
  {
    if c == [] {
      assert (c + [p])[1..] == [];
    } else {
      var first, last := if IsForward(c[0]) then [c[0]] else [], if IsForward(p) then [p] else [];
      assert (c + [p])[1..] == c[1..] + [p];
      ForwardAppend(c[1..], p);
      assert first + (Forward(c[1..]) + last) == (first + Forward(c[1..])) + last;
    }
  }

  lemma {:induction false} BackwardAppend(c: Channel, p: Packet)
    ensures Backward(c + [p]) == Backward(c) + if IsForward(p) then [] else [p]
    decreases |c|
  {
    if c == [] {
      assert (c + [p])[1..] == [];
    } else {
      var first, last := if IsForward(c[0]) then [] else [c[0]], if IsForward(p) then [] else [p];
      assert (c + [p])[1..] == c[1..] + [p];
      BackwardAppend(c[1..], p);
      assert first + (Backward(c[1..]) + last) == (first + Backward(c[1..])) + last;
    }
  }

  /** `after` is `before`, or `before` and one more packet. */
  predicate Grew(before: Channel, after: Channel) {
    after == before || (|after| == |before| + 1 && after == before + [after[|before|]])
  }

  lemma GrewFilters(before: Channel, after: Channel)
    requires Grew(before, after)
    ensures after == before ==> Forward(after) == Forward(before) && Backward(after) == Backward(before)
    ensures after != before ==>
              var p := after[|before|];
              && Forward(after) == Forward(before) + (if IsForward(p) then [p] else [])
              && Backward(after) == Backward(before) + (if IsForward(p) then [] else [p])
  {
    if after != before {
      ForwardAppend(before, after[|before|]);
      BackwardAppend(before, after[|before|]);
    }
  }

  lemma HeadFilters(c: Channel)
    requires c != []
    ensures IsForward(c[0]) ==> Forward(c) == [c[0]] + Forward(c[1..]) && Backward(c) == Backward(c[1..])
    ensures !IsForward(c[0]) ==> Forward(c) == Forward(c[1..]) && Backward(c) == [c[0]] + Backward(c[1..])
  {
  }

  /** What `a` sends to `b`, as a link. */
  function Direction(d: Duplex): Link {
    Link(d.a.flows, d.b.flows, d.a.content, d.a.next, Forward(d.a.out), Backward(d.b.out), d.b.delivered, d.a.completed)
  }

  /** What the direction sees of an event. */
  function Seen(d: Duplex, e: DuplexEvent): LinkEvent {
    var t := DuplexStep(d, e);
    var elsewhere := Elsewhere(t.a.flows.incoming, t.b.flows.outgoing, t.b.flows.nextSeq);
    match e
    case New(side, id) => if side == A then Send(id) else elsewhere
    case Again(side, id) => if side == A then Resend(id) else elsewhere
    case Deliver(from) =>
      if from == A then if d.a.out != [] && IsForward(d.a.out[0]) then DeliverDown else elsewhere
      else if d.b.out != [] && !IsForward(d.b.out[0]) then DeliverUp else elsewhere
    case Reset => Reconnect
  }

  lemma SendDirects(d: Duplex, e: DuplexEvent)
    requires (e.New? || e.Again?) && e.side == A
    ensures Direction(DuplexStep(d, e)) == LinkStep(Direction(d), Seen(d, e))
  {
    GrewFilters(d.a.out, DuplexStep(d, e).a.out);
  }

  lemma OtherSendDirects(d: Duplex, e: DuplexEvent)
    requires (e.New? || e.Again?) && e.side == B
    ensures Direction(DuplexStep(d, e)) == LinkStep(Direction(d), Seen(d, e))
  {
    GrewFilters(d.b.out, DuplexStep(d, e).b.out);
  }

  /** A packet of `a` arrives at `b`. */
  lemma ForthDirects(d: Duplex)
    ensures Direction(Arrive(d)) == LinkStep(Direction(d), Seen(d, Deliver(A)))
  {
    if d.a.out != [] {
      if IsForward(d.a.out[0]) {
        ForwardArrives(d);
      } else {
        BackwardArrives(d);
      }
    }
  }

  lemma ForwardArrives(d: Duplex)
    requires d.a.out != [] && IsForward(d.a.out[0])
    ensures Direction(Arrive(d)) == LinkStep(Direction(d), Seen(d, Deliver(A)))
  {
    GrewFilters(d.b.out, Arrive(d).b.out);
    HeadFilters(d.a.out);
  }

  lemma BackwardArrives(d: Duplex)
    requires d.a.out != [] && !IsForward(d.a.out[0])
    ensures Direction(Arrive(d)) == LinkStep(Direction(d), Seen(d, Deliver(A)))
  {
    GrewFilters(d.b.out, Arrive(d).b.out);
    HeadFilters(d.a.out);
  }

  /** A packet of `b` arrives at `a`. */
  lemma BackDirects(d: Duplex)
    ensures Direction(Swap(Arrive(Swap(d)))) == LinkStep(Direction(d), Seen(d, Deliver(B)))
  {
    if d.b.out != [] {
      GrewFilters(d.a.out, Swap(Arrive(Swap(d))).a.out);
      HeadFilters(d.b.out);
    }
  }

  /** Each direction of a duplex connection is a link: every event is one event of it. */
  lemma StepDirects(d: Duplex, e: DuplexEvent)
    ensures Direction(DuplexStep(d, e)) == LinkStep(Direction(d), Seen(d, e))
  {
    if e.Deliver? {
      if e.from == A {
        ForthDirects(d);
      } else {
        BackDirects(d);
      }
    } else if !e.Reset? {
      if e.side == A {
        SendDirects(d, e);
      } else {
        OtherSendDirects(d, e);
      }
    }
  }

  ghost predicate DuplexInvariant(d: Duplex) {
    Invariant(Direction(d)) && Invariant(Direction(Swap(d)))
  }

  lemma StepKeepsBoth(d: Duplex, e: DuplexEvent)
    requires DuplexInvariant(d)
    ensures DuplexInvariant(DuplexStep(d, e))
  {
    StepDirects(d, e);
    StepKeepsInvariant(Direction(d), Seen(d, e));
    StepSwaps(d, e);
    StepDirects(Swap(d), SwapEvent(e));
    StepKeepsInvariant(Direction(Swap(d)), Seen(Swap(d), SwapEvent(e)));
  }

  lemma {:induction false} RunKeepsBoth(d: Duplex, events: seq<DuplexEvent>)
    requires DuplexInvariant(d)
    ensures DuplexInvariant(DuplexRun(d, events))
    decreases |events|
  {
    if events != [] {
      StepKeepsBoth(d, events[0]);
      RunKeepsBoth(DuplexStep(d, events[0]), events[1..]);
    }
  }

  lemma StartInvariant()
    ensures DuplexInvariant(START)
  {
    InitialInvariant();
    assert Direction(START) == INITIAL;
  }

  /** The messages of one party are delivered at most once, completed ones were, the rest is pending. */
  ghost predicate DeliversOnce(sender: Party, receiver: Party) {
    && Distinct(receiver.delivered)
    && (forall n | n in receiver.delivered :: n < sender.next)
    && (forall n | n in sender.completed :: n in receiver.delivered)
    && (forall n | 0 <= n < sender.next ::
          || n in sender.completed
          || exists id :: id in sender.flows.outgoing && id in sender.content && sender.content[id] == n)
  }

  /** Exactly once in both directions at a time, whatever identifiers the two parties choose. */
  lemma ExactlyOnceBothWays(events: seq<DuplexEvent>)
    ensures var d := DuplexRun(START, events); DeliversOnce(d.a, d.b) && DeliversOnce(d.b, d.a)
  {
    StartInvariant();
    RunKeepsBoth(START, events);
    var d := DuplexRun(START, events);
    OnceFromInvariant(d);
    OnceFromInvariant(Swap(d));
  }

  lemma OnceFromInvariant(d: Duplex)
    requires Invariant(Direction(d))
    ensures DeliversOnce(d.a, d.b)
  {
    forall n | 0 <= n < d.a.next && n !in d.a.completed
      ensures exists id :: id in d.a.flows.outgoing && id in d.a.content && d.a.content[id] == n
    {
      assert Pending(Direction(d), n);
    }
  }

  // -- deadlock ---------------------------------------------------------------------------------

  predicate AwaitsPubcomp(p: Party, id: u16) {
    id in p.flows.outgoing && p.flows.outgoing[id].state.AwaitingPubcomp?
  }

  /**
   * Both parties wait for a PUBCOMP under `id`, neither has a receive flow under it, and no PUBCOMP
   * is on its way.
   */
  predicate Deadlocked(d: Duplex, id: u16) {
    && AwaitsPubcomp(d.a, id) && AwaitsPubcomp(d.b, id)
    && id !in d.a.flows.incoming && id !in d.b.flows.incoming
    && Pubcomp(id) !in d.a.out && Pubcomp(id) !in d.b.out
  }

  lemma DeadlockSwaps(d: Duplex, id: u16)
    ensures Deadlocked(Swap(d), id) == Deadlocked(d, id)
  {
  }

  /** No PUBLISH can be in flight for an exchange that is past it on both sides. */
  lemma NoPublishInFlight(d: Duplex, id: u16)
    requires Invariant(Direction(d)) && AwaitsPubcomp(d.a, id) && id !in d.b.flows.incoming && d.a.out != []
    ensures d.a.out[0].Publish? ==> d.a.out[0].id != id
  {
    var p := d.a.out[0];
    assert Consistent(Direction(d), id);
    if IsForward(p) && p.id == id {
      assert Of(Forward(d.a.out), id)[0] == p;
    }
  }

  lemma ArriveKeepsDeadlock(d: Duplex, id: u16)
    requires Invariant(Direction(d)) && Deadlocked(d, id)
    ensures Deadlocked(Arrive(d), id)
  {
    if d.a.out != [] {
      NoPublishInFlight(d, id);
      var p := d.a.out[0];
      assert p in d.a.out;
      assert forall q | q in d.a.out[1..] :: q in d.a.out;
    }
  }

  /** A party's own calls do not get it out either. */
  lemma CallsKeepDeadlock(p: Party, k: u16, id: u16)
    requires AwaitsPubcomp(p, id) && Pubcomp(id) !in p.out
    ensures forall q | q in {p.Sending(k), p.Resending(k), p.Reconnecting()} ::
              AwaitsPubcomp(q, id) && Pubcomp(id) !in q.out && q.flows.incoming == p.flows.incoming
  {
  }

  /** A deadlock is for good: no event gets out of it, no reconnect and no retransmission. */
  lemma StepKeepsDeadlock(d: Duplex, e: DuplexEvent, id: u16)
    requires DuplexInvariant(d) && Deadlocked(d, id)
    ensures Deadlocked(DuplexStep(d, e), id)
  {
    if e.Deliver? {
      if e.from == A {
        ArriveKeepsDeadlock(d, id);
      } else {
        DeadlockSwaps(d, id);
        ArriveKeepsDeadlock(Swap(d), id);
        DeadlockSwaps(Arrive(Swap(d)), id);
      }
    } else {
      var k := if e.Reset? then id else e.id;
      CallsKeepDeadlock(d.a, k, id);
      CallsKeepDeadlock(d.b, k, id);
    }
  }

  lemma {:induction false} RunKeepsDeadlock(d: Duplex, events: seq<DuplexEvent>, id: u16)
    requires DuplexInvariant(d) && Deadlocked(d, id)
    ensures Deadlocked(DuplexRun(d, events), id)
    decreases |events|
  {
    if events != [] {
      StepKeepsBoth(d, events[0]);
      StepKeepsDeadlock(d, events[0], id);
      RunKeepsDeadlock(DuplexStep(d, events[0]), events[1..], id);
    }
  }

  // -- completion -------------------------------------------------------------------------------

  ghost predicate Reaches(d: Duplex, t: Duplex) {
    exists events :: DuplexRun(d, events) == t
  }

  lemma {:induction false} RunAppend(d: Duplex, a: seq<DuplexEvent>, b: seq<DuplexEvent>)
    ensures DuplexRun(d, a + b) == DuplexRun(DuplexRun(d, a), b)
    decreases |a|
  {
    if a == [] {
      assert a + b == b;
    } else {
      assert (a + b)[1..] == a[1..] + b;
      RunAppend(DuplexStep(d, a[0]), a[1..], b);
    }
  }

  lemma ReachesSelf(d: Duplex)
    ensures Reaches(d, d)
  {
    assert DuplexRun(d, []) == d;
  }

  lemma ReachesThen(d: Duplex, t: Duplex, e: DuplexEvent)
    requires Reaches(d, t)
    ensures Reaches(d, DuplexStep(t, e))
  {
    var events :| DuplexRun(d, events) == t;
    RunAppend(d, events, [e]);
    assert [e][1..] == [];
    assert DuplexRun(t, [e]) == DuplexStep(t, e);
  }

  lemma ReachesTransitive(d: Duplex, t: Duplex, u: Duplex)
    requires Reaches(d, t) && Reaches(t, u)
    ensures Reaches(d, u)
  {
    var first :| DuplexRun(d, first) == t;
    var second :| DuplexRun(t, second) == u;
    RunAppend(d, first, second);
  }

  lemma {:induction false} RunSwaps(d: Duplex, events: seq<DuplexEvent>) returns (swapped: seq<DuplexEvent>)
    ensures DuplexRun(Swap(d), swapped) == Swap(DuplexRun(d, events))
    decreases |events|
  {
    if events == [] {
      swapped := [];
    } else {
      StepSwaps(d, events[0]);
      var rest := RunSwaps(DuplexStep(d, events[0]), events[1..]);
      swapped := [SwapEvent(events[0])] + rest;
      assert swapped[1..] == rest;
    }
  }

  lemma ReachesSwaps(d: Duplex, t: Duplex)
    requires Reaches(d, t)
    ensures Reaches(Swap(d), Swap(t))
  {
    var events :| DuplexRun(d, events) == t;
    var swapped := RunSwaps(d, events);
  }

  /** Some run completes the exchange that `a` has under `id`. */
  ghost predicate CanComplete(d: Duplex, id: u16) {
    exists t :: Reaches(d, t) && id !in t.a.flows.outgoing
  }

  /** A reconnect, a retransmission and one or two round trips. */
  function Recovering(d: Duplex, id: u16): Duplex {
    DuplexStep(DuplexStep(DuplexStep(DuplexStep(d, Reset), Again(A, id)), Deliver(A)), Deliver(B))
  }

  function Trip(d: Duplex): Duplex {
    DuplexStep(DuplexStep(d, Deliver(A)), Deliver(B))
  }

  lemma RecoveringReaches(d: Duplex, id: u16)
    ensures Reaches(d, Recovering(d, id))
  {
    ReachesSelf(d);
    ReachesThen(d, d, Reset);
    var t := DuplexStep(d, Reset);
    ReachesThen(d, t, Again(A, id));
    t := DuplexStep(t, Again(A, id));
    TripReaches(d, t);
  }

  lemma TripReaches(d: Duplex, t: Duplex)
    requires Reaches(d, t)
    ensures Reaches(d, Trip(t))
  {
    ReachesThen(d, t, Deliver(A));
    ReachesThen(d, DuplexStep(t, Deliver(A)), Deliver(B));
  }

  /** A round trip of one forward packet is a round trip of the link. */
  lemma TripDirects(d: Duplex)
    requires |d.a.out| == 1 && IsForward(d.a.out[0]) && d.b.out == []
    ensures Direction(Trip(d)) == RoundTrip(Direction(d))
    ensures d.a.out[0].Publish? ==> Trip(d).b.out == [] && |Trip(d).a.out| <= 1
    ensures |Trip(d).a.out| > 0 ==> IsForward(Trip(d).a.out[0])
  {
    var t := DuplexStep(d, Deliver(A));
    StepDirects(d, Deliver(A));
    StepDirects(t, Deliver(B));
    assert t.b.out == [] || (|t.b.out| == 1 && !IsForward(t.b.out[0]));
  }

  lemma RetryDirects(d: Duplex, id: u16)
    requires Recoverable(Direction(d), id)
    ensures var t := DuplexStep(DuplexStep(d, Reset), Again(A, id));
            && Direction(t) == Retry(Direction(d), id) && |t.a.out| == 1 && IsForward(t.a.out[0]) && t.b.out == []
            && (t.a.out[0].Publish? <==> d.a.flows.outgoing[id].state.AwaitingPubrec?)
  {
    StepDirects(d, Reset);
    StepDirects(DuplexStep(d, Reset), Again(A, id));
  }

  /** Recovery as in ExactlyOnce, by events of the duplex connection. */
  function Recovery(d: Duplex, id: u16): Duplex
    requires id in d.a.flows.outgoing
  {
    if d.a.flows.outgoing[id].state.AwaitingPubrec? then Trip(Recovering(d, id)) else Recovering(d, id)
  }

  lemma RecoveryDirects(d: Duplex, id: u16)
    requires Recoverable(Direction(d), id)
    ensures Direction(Recovery(d, id)) == Recovered(Direction(d), id)
  {
    RetryDirects(d, id);
    var t := DuplexStep(DuplexStep(d, Reset), Again(A, id));
    TripDirects(t);
    if d.a.flows.outgoing[id].state.AwaitingPubrec? {
      RetryIs(Direction(d), id);
      PublishRoundTrip(Direction(t), id);
      assert Forward(Trip(t).a.out) == [Pubrel(id)];
      TripDirects(Trip(t));
    }
  }

  lemma RecoveryReaches(d: Duplex, id: u16)
    requires id in d.a.flows.outgoing
    ensures Reaches(d, Recovery(d, id))
  {
    RecoveringReaches(d, id);
    TripReaches(d, Recovering(d, id));
  }

  /** The peer's send flows wait for what they waited for. */
  predicate SameSending(p: Party, q: Party) {
    && p.flows.outgoing.Keys == q.flows.outgoing.Keys
    && forall id | id in p.flows.outgoing :: p.flows.outgoing[id].state == q.flows.outgoing[id].state
  }

  lemma ReceivingKeepsSending(l: Link, e: LinkEvent)
    requires !e.Elsewhere?
    ensures LinkStep(l, e).receiver.outgoing.Keys == l.receiver.outgoing.Keys
    ensures forall id | id in l.receiver.outgoing ::
              LinkStep(l, e).receiver.outgoing[id].state == l.receiver.outgoing[id].state
  {
  }

  lemma RecoveredKeepsSending(l: Link, id: u16)
    requires id in l.sender.outgoing
    ensures var m := Recovered(l, id);
            && m.receiver.outgoing.Keys == l.receiver.outgoing.Keys
            && forall k | k in l.receiver.outgoing :: m.receiver.outgoing[k].state == l.receiver.outgoing[k].state
  {
    ReceivingKeepsSending(l, Reconnect);
    ReceivingKeepsSending(LinkStep(l, Reconnect), Resend(id));
    var m := Retry(l, id);
    ReceivingKeepsSending(m, DeliverDown);
    ReceivingKeepsSending(LinkStep(m, DeliverDown), DeliverUp);
    m := RoundTrip(m);
    ReceivingKeepsSending(m, DeliverDown);
    ReceivingKeepsSending(LinkStep(m, DeliverDown), DeliverUp);
  }

  /** An exchange whose peer answers can complete, and leaves the peer's send flows as they were. */
  lemma CompletesWhenAnswered(d: Duplex, id: u16)
    requires DuplexInvariant(d) && id in d.a.flows.outgoing
    requires d.a.flows.outgoing[id].state.AwaitingPubrec? || Answers(Direction(d), id)
    ensures var t := Recovery(d, id);
            Reaches(d, t) && DuplexInvariant(t) && id !in t.a.flows.outgoing && SameSending(d.b, t.b)
  {
    var l := Direction(d);
    ExchangeIsRecoverable(l, id);
    RecoveredIff(l, id);
    RecoveryDirects(d, id);
    RecoveryReaches(d, id);
    RecoveredKeepsSending(l, id);
    var t := Recovery(d, id);
    var events :| DuplexRun(d, events) == t;
    RunKeepsBoth(d, events);
    assert Direction(t).receiver == t.b.flows && Direction(t).sender == t.a.flows;
  }

  /** A PUBCOMP on its way completes the exchange when what is ahead of it has arrived. */
  lemma {:induction false} PubcompArrives(d: Duplex, id: u16) returns (t: Duplex)
    requires AwaitsPubcomp(d.b, id) && Pubcomp(id) in d.a.out
    ensures Reaches(d, t) && id !in t.b.flows.outgoing && t.a.flows == d.a.flows
    decreases |d.a.out|
  {
    ReachesSelf(d);
    ReachesThen(d, d, Deliver(A));
    t := Arrive(d);
    if d.a.out[0] != Pubcomp(id) {
      OthersKeepWaiting(d.b, d.a.out[0], id);
      var u := t;
      t := PubcompArrives(u, id);
      ReachesTransitive(d, u, t);
    }
  }

  lemma OthersKeepWaiting(p: Party, q: Packet, id: u16)
    requires AwaitsPubcomp(p, id) && q != Pubcomp(id)
    ensures AwaitsPubcomp(p.Handling(q), id)
  {
  }

  /** With no send flow of the peer in the way an exchange can complete. */
  lemma CompletesWhenPeerIsDone(d: Duplex, t: Duplex, id: u16)
    requires Reaches(d, t) && DuplexInvariant(t) && id !in t.b.flows.outgoing
    ensures CanComplete(d, id)
  {
    if id in t.a.flows.outgoing {
      CompletesWhenAnswered(t, id);
      ReachesTransitive(d, t, Recovery(t, id));
    }
  }

  lemma ReachedInvariant(d: Duplex, t: Duplex)
    requires DuplexInvariant(d) && Reaches(d, t)
    ensures DuplexInvariant(t)
  {
    var events :| DuplexRun(d, events) == t;
    RunKeepsBoth(d, events);
  }

  /** The peer's exchange under the identifier is completed first, where it can be. */
  lemma CompletesAfterPeer(d: Duplex, id: u16)
    requires DuplexInvariant(d) && id in d.a.flows.outgoing && id in d.b.flows.outgoing
    requires d.b.flows.outgoing[id].state.AwaitingPubrec? || Answers(Direction(Swap(d)), id)
    ensures CanComplete(d, id)
  {
    CompletesWhenAnswered(Swap(d), id);
    var t := Swap(Recovery(Swap(d), id));
    ReachesSwaps(Swap(d), Swap(t));
    CompletesWhenPeerIsDone(d, t, id);
  }

  lemma CompletesByArrival(d: Duplex, id: u16)
    requires DuplexInvariant(d) && AwaitsPubcomp(d.a, id) && AwaitsPubcomp(d.b, id)
    requires Pubcomp(id) in d.a.out || Pubcomp(id) in d.b.out
    ensures CanComplete(d, id)
  {
    if Pubcomp(id) in d.a.out {
      var t := PubcompArrives(d, id);
      ReachedInvariant(d, t);
      CompletesWhenPeerIsDone(d, t, id);
    } else {
      var t := PubcompArrives(Swap(d), id);
      ReachesSwaps(Swap(d), t);
      assert id !in Swap(t).a.flows.outgoing;
    }
  }

  lemma CompletesUnlessDeadlocked(d: Duplex, id: u16)
    requires DuplexInvariant(d) && !Deadlocked(d, id)
    ensures CanComplete(d, id)
  {
    if id !in d.a.flows.outgoing {
      ReachesSelf(d);
    } else if d.a.flows.outgoing[id].state.AwaitingPubrec? || Answers(Direction(d), id) {
      CompletesWhenAnswered(d, id);
    } else if d.b.flows.outgoing[id].state.AwaitingPubrec? || Answers(Direction(Swap(d)), id) {
      CompletesAfterPeer(d, id);
    } else {
      ExchangeIsRecoverable(Direction(d), id);
      ExchangeIsRecoverable(Direction(Swap(d)), id);
      CompletesByArrival(d, id);
    }
  }

  /**
   * Exactly when an exchange can be stuck: from every reachable situation of a duplex connection
   * some run completes it if and only if it is not deadlocked with one the other way.
   */
  lemma CompletesIffNotDeadlocked(events: seq<DuplexEvent>, id: u16)
    ensures var d := DuplexRun(START, events); CanComplete(d, id) <==> !Deadlocked(d, id)
  {
    StartInvariant();
    RunKeepsBoth(START, events);
    var d := DuplexRun(START, events);
    if Deadlocked(d, id) {
      forall t | Reaches(d, t)
        ensures id in t.a.flows.outgoing
      {
        var more :| DuplexRun(d, more) == t;
        RunKeepsDeadlock(d, more, id);
      }
    } else {
      CompletesUnlessDeadlocked(d, id);
    }
  }

  /** Both parties have an exchange under identifier 1 in this state, and this packet in flight. */
  predicate BothAt(d: Duplex, p: Packet, state: FlowState, theirs: map<u16, FlowState>) {
    && d.a.out == d.b.out == [p]
    && 1 in d.a.flows.outgoing && d.a.flows.outgoing[1].state == state && d.a.flows.incoming == theirs
    && 1 in d.b.flows.outgoing && d.b.flows.outgoing[1].state == state && d.b.flows.incoming == theirs
  }

  lemma BothStart()
    ensures var d := DuplexStep(DuplexStep(START, New(A, 1)), New(B, 1));
            Reaches(START, d) && BothAt(d, Publish(1, 0), AwaitingPubrec, map[])
  {
    ReachesSelf(START);
    ReachesThen(START, START, New(A, 1));
    ReachesThen(START, DuplexStep(START, New(A, 1)), New(B, 1));
  }

  lemma BothPublish(d: Duplex, n: nat)
    requires BothAt(d, Publish(1, n), AwaitingPubrec, map[])
    ensures BothAt(Trip(d), Pubrec(1), AwaitingPubrec, map[1 := AwaitingPubrel])
  {
  }

  lemma BothRelease(d: Duplex)
    requires BothAt(d, Pubrec(1), AwaitingPubrec, map[1 := AwaitingPubrel])
    ensures BothAt(Trip(d), Pubrel(1), AwaitingPubcomp, map[1 := AwaitingPubrel])
  {
  }

  lemma BothComplete(d: Duplex)
    requires BothAt(d, Pubrel(1), AwaitingPubcomp, map[1 := AwaitingPubrel])
    ensures BothAt(Trip(d), Pubcomp(1), AwaitingPubcomp, map[])
  {
    assert map[1 := AwaitingPubrel] - {1} == map[];
  }

  /** Both parties use identifier 1, and a reconnect loses both PUBCOMP packets. */
  lemma DeadlockIsReachable()
    ensures exists events :: Deadlocked(DuplexRun(START, events), 1)
  {
    BothStart();
    var d1 := DuplexStep(DuplexStep(START, New(A, 1)), New(B, 1));
    BothPublish(d1, 0);
    var d2 := BothDeliver(START, d1);
    BothRelease(d2);
    var d3 := BothDeliver(START, d2);
    BothComplete(d3);
    var d4 := BothDeliver(START, d3);
    ReachesThen(START, d4, Reset);
    assert Deadlocked(DuplexStep(d4, Reset), 1);
    var events :| DuplexRun(START, events) == DuplexStep(d4, Reset);
  }

  /** The packets that are first in both channels arrive, that of `a` first. */
  lemma BothDeliver(d: Duplex, t: Duplex) returns (u: Duplex)
    requires Reaches(d, t) && |t.a.out| == 1 && |t.b.out| == 1
    ensures u == Trip(t) && Reaches(d, u)
  {
    TripReaches(d, t);
    u := Trip(t);
  }
}
