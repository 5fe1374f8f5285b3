/**
 * Exactly when the traffic of a resumed connection can end in a PUBLISH that the receiver refuses, for
 * any two Receive Maximums. The PUBCOMP of an exchange that was carried over gives the sender a unit
 * back, the receiver, which counted nothing for it, gives none; so each such exchange lets one PUBLISH
 * too many through.
 */
module CarriedOver {
  import opened Prelude
  import opened PacketIds
  import opened QosFlow
  import opened SessionSpec
  import opened SessionInvariants
  import opened ExactlyOnce
  import opened TwoSessions
  import opened SendQuota
  import opened PeerQuota
  import Replay

  /** Sending, resending, and the arrival of what is in flight. */
  predicate IsTraffic(e: PairEvent) {
    e.SendMessage? || e.ResendMessage? || e.PacketArrives? || e.AnswerArrives?
  }

  predicate Traffic(events: seq<PairEvent>) {
    forall i | 0 <= i < |events| :: IsTraffic(events[i])
  }

  predicate RefusedInQuota(w: Pair) {
    IsRefused(w) && w.sender.window.outstanding <= w.sender.window.receiveMaximum
  }

  ghost predicate CanBeRefused(w: Pair) {
    exists events :: Traffic(events) && RefusedInQuota(PairRun(w, events))
  }

  lemma ThenRefused(w: Pair, e: PairEvent)
    requires IsTraffic(e) && CanBeRefused(PairStep(w, e))
    ensures CanBeRefused(w)
  {
    var events :| Traffic(events) && RefusedInQuota(PairRun(PairStep(w, e), events));
    PairRunCons(w, e, events);
    assert Traffic([e] + events);
  }

  lemma NowRefused(w: Pair)
    requires RefusedInQuota(w)
    ensures CanBeRefused(w)
  {
    assert PairRun(w, []) == w && Traffic([]);
  }

  // -- the condition ------------------------------------------------------------------------------

  predicate InState(w: Pair, id: u16, state: FlowState) {
    id in w.sender.flows.outgoing && w.sender.flows.outgoing[id].state == state
  }

  /** The exchange waits for a PUBCOMP, and the receiver will send one. */
  predicate IsAnswered(w: Pair, id: u16) {
    InState(w, id, AwaitingPubcomp) && (id in w.receiver.flows.incoming || id !in w.receiver.flows.outgoing)
  }

  predicate IsMovable(w: Pair, id: u16) {
    InState(w, id, AwaitingPubrec) || IsAnswered(w, id)
  }

  function Answered(w: Pair): set<u16> {
    set id | id in w.sender.flows.outgoing && IsAnswered(w, id)
  }

  function Movable(w: Pair): set<u16> {
    set id | id in w.sender.flows.outgoing && IsMovable(w, id)
  }

  /** Identifiers that stay in use whatever arrives: requests, QoS 1 messages, exchanges without an answer. */
  function Fixed(w: Pair): set<u16> {
    w.sender.ids - Movable(w)
  }

  /**
   * One exchange carried over for each unit by which the sender's maximum is not below the receiver's,
   * and room for the identifiers of one message more than the receiver takes.
   */
  predicate CanOverrun(w: Pair) {
    && |Answered(w)| + w.sender.window.receiveMaximum > w.receiver.window.ownReceiveMaximum
    && |Fixed(w)| + w.receiver.window.ownReceiveMaximum < MAX_ID
  }

  /** A connection has been resumed and nothing was sent on it. */
  ghost predicate JustResumed(w: Pair) {
    && PairInvariant(w) && w.down == [] && w.up == []
    && (forall id | id in w.sender.flows.outgoing :: !w.sender.flows.outgoing[id].charged)
    && w.sender.window.outstanding == 0 < w.sender.window.receiveMaximum
    && w.receiver.window.incoming == 0 < w.receiver.window.ownReceiveMaximum
  }

  // -- what no traffic gets past ------------------------------------------------------------------

  function Charged(w: Pair): set<u16> {
    set id | id in w.sender.flows.outgoing && w.sender.flows.outgoing[id].charged
  }

  predicate IsCarried(w: Pair, id: u16) {
    id in w.sender.flows.outgoing && !w.sender.flows.outgoing[id].charged
  }

  /** Exchanges carried over whose PUBCOMP is still to come. */
  function Coming(w: Pair, fixed: set<u16>): set<u16> {
    set id | id in w.sender.flows.outgoing && IsCarried(w, id) && InState(w, id, AwaitingPubcomp) && id !in fixed
  }

  /** Of an exchange carried over only a PUBREL and its answer are in flight. */
  ghost predicate Quiet(w: Pair) {
    && (forall p | p in w.down && IsCarried(w, p.id) :: p.Pubrel?)
    && (forall p | p in w.up && IsCarried(w, p.id) :: p.Pubcomp?)
  }

  ghost predicate StaysFixed(w: Pair, fixed: set<u16>) {
    && fixed <= w.sender.ids && fixed !! Charged(w)
    && (forall id | id in fixed && id in w.sender.flows.outgoing :: !IsMovable(w, id))
    && (forall p | p in w.up && p.Pubcomp? && p.id in fixed :: !InState(w, p.id, AwaitingPubcomp))
  }

  /** Neither counter gets away from the charged flows by more than the `extra` exchanges allow. */
  ghost predicate Counted(w: Pair, fixed: set<u16>, extra: nat) {
    && w.sender.window.outstanding <= w.sender.window.receiveMaximum
    && |Charged(w)| + |Coming(w, fixed)| <= w.sender.window.outstanding + extra
    && w.receiver.window.incoming <= |Charged(w) * w.receiver.flows.incoming.Keys|
  }

  ghost predicate Bounded(w: Pair, fixed: set<u16>, extra: nat) {
    PairInvariant(w) && Quiet(w) && StaysFixed(w, fixed) && Counted(w, fixed, extra)
  }

  lemma ComingIsAnswered(w: Pair)
    requires w.sender.flows.outgoing.Keys <= w.sender.ids
    requires forall id | id in w.sender.flows.outgoing :: !w.sender.flows.outgoing[id].charged
    ensures Charged(w) == {} && Coming(w, Fixed(w)) == Answered(w)
  {
  }

  lemma OwnedIsInUse(w: Pair)
    requires PairInvariant(w)
    ensures w.sender.flows.outgoing.Keys <= w.sender.ids
  {
  }

  lemma ResumedIsBounded(w: Pair)
    requires JustResumed(w)
    ensures Bounded(w, Fixed(w), |Answered(w)|)
  {
    OwnedIsInUse(w);
    ComingIsAnswered(w);
  }

  /** Incoming exchanges belong to live ones of the sender. */
  lemma IncomingIsLive(w: Pair)
    requires PairInvariant(w)
    ensures forall id | id in w.receiver.flows.incoming ::
              InState(w, id, AwaitingPubrec) || InState(w, id, AwaitingPubcomp)
  {
    forall id | id in w.receiver.flows.incoming
      ensures InState(w, id, AwaitingPubrec) || InState(w, id, AwaitingPubcomp)
    {
      assert Consistent(w.View(), id);
    }
  }

  /** What a refusal takes. */
  lemma RefusedIsOverrun(w: Pair, fixed: set<u16>, extra: nat)
    requires Bounded(w, fixed, extra) && IsRefused(w)
    ensures extra + w.sender.window.receiveMaximum > w.receiver.window.ownReceiveMaximum
    ensures |fixed| + w.receiver.window.ownReceiveMaximum < MAX_ID
  {
    PublishIsCharged(w);
    RefusedCharges(w);
    OwnedIsInUse(w);
    SubsetSize(fixed + Charged(w), w.sender.ids);
    assert |fixed + Charged(w)| == |fixed| + |Charged(w)|;
    ExhaustedIffAllInUse(w.sender.ids);
  }

  lemma PublishIsCharged(w: Pair)
    requires PairInvariant(w) && Quiet(w) && w.down != [] && w.down[0].Publish?
    ensures w.down[0].id in Charged(w)
  {
    HeadIsExpected(w.View());
    assert !IsCarried(w, w.down[0].id);
  }

  lemma RefusedCharges(w: Pair)
    requires IsRefused(w) && w.down[0].id in Charged(w)
    requires w.receiver.window.incoming <= |Charged(w) * w.receiver.flows.incoming.Keys|
    ensures |Charged(w)| > w.receiver.window.ownReceiveMaximum
  {
    var both := Charged(w) * w.receiver.flows.incoming.Keys;
    SubsetSize(both + {w.down[0].id}, Charged(w));
  }

  // -- the bound is kept --------------------------------------------------------------------------

  /** A new message, or nothing. */
  ghost predicate Sends(w: Pair, m: Pair, id: u16) {
    && id !in w.sender.ids && id !in w.sender.flows.outgoing && w.sender.window.CanSend()
    && m.sender.flows == w.sender.flows.PublishSent(id, QoS.ExactlyOnce) && id in m.sender.flows.outgoing
    && m.sender.window == w.sender.window.PublishSent() && m.sender.ids == w.sender.ids + {id}
    && m.receiver == w.receiver && m.down == w.down + [Publish(id, w.next)] && m.up == w.up
  }

  lemma SendEffect(w: Pair) returns (id: u16)
    requires PairInvariant(w)
    ensures var m := PairStep(w, SendMessage); m == w || Sends(w, m, id)
    ensures w.sender.window.CanSend() && |w.sender.ids| < MAX_ID ==> Sends(w, PairStep(w, SendMessage), id)
  {
    FreshId(w);
    ExhaustedIffAllInUse(w.sender.ids);
    var unused := w.sender.AllocatePacketId().1;
    id := if unused.Some? then unused.value else 0;
    if unused.Some? {
      SendWith(w, id);
    }
  }

  lemma SendWith(w: Pair, id: u16)
    requires w.sender.AllocatePacketId() == (w.sender.(ids := w.sender.ids + {id}), Some(id))
    requires id != 0 && id !in w.sender.ids && id !in w.sender.flows.outgoing
    ensures var m := PairStep(w, SendMessage); if w.sender.window.CanSend() then Sends(w, m, id) else m == w
  {
    assert w.sender.ids + {id} - {id} == w.sender.ids;
  }

  lemma SendKeepsQuiet(w: Pair, m: Pair, id: u16)
    requires Quiet(w) && Sends(w, m, id)
    ensures Quiet(m)
  {
    assert forall k :: IsCarried(m, k) ==> IsCarried(w, k);
  }

  lemma SendKeepsFixed(w: Pair, m: Pair, id: u16, fixed: set<u16>)
    requires StaysFixed(w, fixed) && Sends(w, m, id)
    ensures StaysFixed(m, fixed)
  {
    assert forall k | k in fixed :: k != id;
    assert Charged(m) == Charged(w) + {id};
  }

  lemma SendKeepsCount(w: Pair, m: Pair, id: u16, fixed: set<u16>, extra: nat)
    requires Counted(w, fixed, extra) && Sends(w, m, id)
    ensures Counted(m, fixed, extra)
  {
    SendSets(w, m, id, fixed);
    var theirs := w.receiver.flows.incoming.Keys;
    SubsetSize(Charged(w) * theirs, Charged(m) * theirs);
  }

  lemma SendSets(w: Pair, m: Pair, id: u16, fixed: set<u16>)
    requires Sends(w, m, id)
    ensures Charged(m) == Charged(w) + {id} && id !in Charged(w) && Coming(m, fixed) == Coming(w, fixed)
  {
  }

  lemma SendStaysBounded(w: Pair, fixed: set<u16>, extra: nat)
    requires Bounded(w, fixed, extra)
    ensures Bounded(PairStep(w, SendMessage), fixed, extra)
  {
    var m := PairStep(w, SendMessage);
    PairStepKeepsInvariant(w, SendMessage);
    var id := SendEffect(w);
    if m != w {
      SendKeepsQuiet(w, m, id);
      SendKeepsFixed(w, m, id, fixed);
      SendKeepsCount(w, m, id, fixed, extra);
    }
  }

  /** A packet goes down; nothing else happens. */
  ghost predicate Puts(w: Pair, m: Pair, p: Packet) {
    m == w.(down := w.down + [p])
  }

  /** A PUBLISH that was carried over is charged and goes down. */
  ghost predicate Charges(w: Pair, m: Pair, id: u16) {
    && IsCarried(w, id) && InState(w, id, AwaitingPubrec) && w.sender.window.CanSend() && id in w.content
    && m == w.(sender := w.sender.(window := w.sender.window.PublishSent(), flows := w.sender.flows.MarkCharged(id)),
               down := w.down + [Publish(id, w.content[id])])
  }

  lemma ResendEffect(w: Pair, id: u16)
    requires PairInvariant(w)
    ensures var m := PairStep(w, ResendMessage(id));
            || m == w
            || Charges(w, m, id)
            || (Puts(w, m, Pubrel(id)) && InState(w, id, AwaitingPubcomp))
            || (id in w.content && Puts(w, m, Publish(id, w.content[id])) && !IsCarried(w, id))
    ensures IsCarried(w, id) && InState(w, id, AwaitingPubrec) && w.sender.window.CanSend()
            ==> Charges(w, PairStep(w, ResendMessage(id)), id)
    ensures InState(w, id, AwaitingPubcomp) ==> Puts(w, PairStep(w, ResendMessage(id)), Pubrel(id))
  {
    assert Consistent(w.View(), id);
  }

  lemma PutsKeepsBound(w: Pair, m: Pair, p: Packet, fixed: set<u16>, extra: nat)
    requires Quiet(w) && StaysFixed(w, fixed) && Counted(w, fixed, extra) && Puts(w, m, p)
    requires IsCarried(w, p.id) ==> p.Pubrel?
    ensures Quiet(m) && StaysFixed(m, fixed) && Counted(m, fixed, extra)
  {
    assert Charged(m) == Charged(w) && Coming(m, fixed) == Coming(w, fixed);
    assert forall k :: IsCarried(m, k) <==> IsCarried(w, k);
    assert forall k :: IsMovable(m, k) <==> IsMovable(w, k);
  }

  lemma ChargesKeepsFixed(w: Pair, m: Pair, id: u16, fixed: set<u16>)
    requires Quiet(w) && StaysFixed(w, fixed) && Charges(w, m, id)
    ensures Quiet(m) && StaysFixed(m, fixed)
  {
    assert forall k :: IsCarried(m, k) ==> IsCarried(w, k) && k != id;
    assert forall k :: IsMovable(m, k) <==> IsMovable(w, k);
    assert IsMovable(w, id);
    assert Charged(m) == Charged(w) + {id};
  }

  lemma ChargesKeepsCount(w: Pair, m: Pair, id: u16, fixed: set<u16>, extra: nat)
    requires Counted(w, fixed, extra) && Charges(w, m, id)
    ensures Counted(m, fixed, extra)
  {
    assert Charged(m) == Charged(w) + {id} && Coming(m, fixed) == Coming(w, fixed);
    var theirs := w.receiver.flows.incoming.Keys;
    SubsetSize(Charged(w) * theirs, Charged(m) * theirs);
  }

  lemma ResendStaysBounded(w: Pair, id: u16, fixed: set<u16>, extra: nat)
    requires Bounded(w, fixed, extra)
    ensures Bounded(PairStep(w, ResendMessage(id)), fixed, extra)
  {
    var m := PairStep(w, ResendMessage(id));
    PairStepKeepsInvariant(w, ResendMessage(id));
    ResendEffect(w, id);
    if m != w {
      if Charges(w, m, id) {
        ChargesKeepsFixed(w, m, id, fixed);
        ChargesKeepsCount(w, m, id, fixed, extra);
      } else if Puts(w, m, Pubrel(id)) {
        PutsKeepsBound(w, m, Pubrel(id), fixed, extra);
      } else {
        PutsKeepsBound(w, m, Publish(id, w.content[id]), fixed, extra);
      }
    }
  }

  /** The receiver takes a PUBLISH and answers it. */
  ghost predicate Takes(w: Pair, m: Pair, id: u16) {
    && w.down != [] && m.sender == w.sender && m.down == w.down[1..] && m.up == w.up + [Pubrec(id)]
    && m.receiver.flows == w.receiver.flows.(incoming := w.receiver.flows.incoming[id := AwaitingPubrel])
    && m.receiver.window.incoming == w.receiver.window.incoming + (if id in w.receiver.flows.incoming then 0 else 1)
    && m.receiver.window.ownReceiveMaximum == w.receiver.window.ownReceiveMaximum
  }

  /** The receiver ends an exchange, or has ended it, and answers. */
  ghost predicate Ends(w: Pair, m: Pair, id: u16) {
    && (id in w.receiver.flows.incoming || id !in w.receiver.flows.outgoing)
    && w.down != [] && m.sender == w.sender && m.down == w.down[1..] && m.up == w.up + [Pubcomp(id)]
    && m.receiver.flows == w.receiver.flows.(incoming := w.receiver.flows.incoming - {id})
    && m.receiver.window == w.receiver.window.(incoming := Decremented(w.receiver.window.incoming))
  }

  /** Packets are lost or have no effect. */
  ghost predicate Drops(w: Pair, m: Pair) {
    && m.sender == w.sender && m.receiver == w.receiver
    && ((m.down == [] && m.up == []) || (w.down != [] && m.down == w.down[1..] && m.up == w.up))
  }

  lemma PublishEffect(w: Pair)
    requires w.down != [] && w.down[0].Publish?
    ensures var m := PairStep(w, PacketArrives); if IsRefused(w) then Drops(w, m) else Takes(w, m, w.down[0].id)
  {
  }

  lemma PubrelEffect(w: Pair)
    requires PairInvariant(w) && w.down != [] && w.down[0].Pubrel?
    ensures var m, id := PairStep(w, PacketArrives), w.down[0].id;
            if id in w.receiver.flows.incoming || id !in w.receiver.flows.outgoing then Ends(w, m, id) else Drops(w, m)
  {
    var id := w.down[0].id;
    assert Consistent(w.View(), id);
    if id !in w.receiver.flows.incoming {
      assert w.receiver.flows.incoming - {id} == w.receiver.flows.incoming;
    }
  }

  lemma SameSender(w: Pair, m: Pair, fixed: set<u16>)
    requires m.sender == w.sender
    ensures Charged(m) == Charged(w) && Coming(m, fixed) == Coming(w, fixed)
    ensures forall k :: IsCarried(m, k) <==> IsCarried(w, k)
    ensures forall k, state :: InState(m, k, state) <==> InState(w, k, state)
  {
  }

  lemma DropsKeepsBound(w: Pair, m: Pair, fixed: set<u16>, extra: nat)
    requires Quiet(w) && StaysFixed(w, fixed) && Counted(w, fixed, extra) && Drops(w, m) && w.down != []
    ensures Quiet(m) && StaysFixed(m, fixed) && Counted(m, fixed, extra)
  {
    SameSender(w, m, fixed);
    assert forall k :: IsMovable(m, k) <==> IsMovable(w, k);
  }

  lemma TakesKeepsFixed(w: Pair, m: Pair, id: u16, fixed: set<u16>)
    requires Quiet(w) && StaysFixed(w, fixed) && w.down != [] && Takes(w, m, id) && id in Charged(w)
    ensures Quiet(m) && StaysFixed(m, fixed)
  {
    SameSender(w, m, fixed);
    assert id !in fixed;
    assert forall k | k != id :: IsMovable(m, k) <==> IsMovable(w, k);
  }

  lemma TakesKeepsCount(w: Pair, m: Pair, id: u16, fixed: set<u16>, extra: nat)
    requires Counted(w, fixed, extra) && Takes(w, m, id) && id in Charged(w)
    ensures Counted(m, fixed, extra)
  {
    SameSender(w, m, fixed);
    var before := Charged(w) * w.receiver.flows.incoming.Keys;
    assert Charged(m) * m.receiver.flows.incoming.Keys == before + {id};
  }

  lemma EndsKeepsFixed(w: Pair, m: Pair, id: u16, fixed: set<u16>)
    requires Quiet(w) && StaysFixed(w, fixed) && w.down != [] && Ends(w, m, id)
    ensures Quiet(m) && StaysFixed(m, fixed)
  {
    SameSender(w, m, fixed);
    assert forall k :: IsMovable(m, k) ==> IsMovable(w, k);
  }

  lemma EndsKeepsCount(w: Pair, m: Pair, id: u16, fixed: set<u16>, extra: nat)
    requires Counted(w, fixed, extra) && Ends(w, m, id)
    ensures Counted(m, fixed, extra)
  {
    SameSender(w, m, fixed);
    var before := Charged(w) * w.receiver.flows.incoming.Keys;
    assert Charged(m) * m.receiver.flows.incoming.Keys == before - {id};
    if id in before {
      assert |before - {id}| == |before| - 1;
    } else {
      assert before - {id} == before;
    }
  }

  lemma PacketStaysBounded(w: Pair, fixed: set<u16>, extra: nat)
    requires Bounded(w, fixed, extra)
    ensures Bounded(PairStep(w, PacketArrives), fixed, extra)
  {
    var m := PairStep(w, PacketArrives);
    PairStepKeepsInvariant(w, PacketArrives);
    if w.down != [] {
      var id := w.down[0].id;
      match w.down[0] {
        case Publish(_, _) =>
          PublishIsCharged(w);
          PublishEffect(w);
          if IsRefused(w) {
            DropsKeepsBound(w, m, fixed, extra);
          } else {
            TakesKeepsFixed(w, m, id, fixed);
            TakesKeepsCount(w, m, id, fixed, extra);
          }
        case Pubrel(_) =>
          PubrelEffect(w);
          if Ends(w, m, id) {
            EndsKeepsFixed(w, m, id, fixed);
            EndsKeepsCount(w, m, id, fixed, extra);
          } else {
            DropsKeepsBound(w, m, fixed, extra);
          }
        case Pubrec(_) => DropsKeepsBound(w, m, fixed, extra);
        case Pubcomp(_) => DropsKeepsBound(w, m, fixed, extra);
      }
    }
  }

  // -- the sender ---------------------------------------------------------------------------------

  /** An exchange goes on to its PUBREL. */
  ghost predicate Releases(w: Pair, m: Pair, id: u16) {
    && id in w.sender.flows.outgoing && m.sender.flows.outgoing.Keys == w.sender.flows.outgoing.Keys
    && (forall k | k in w.sender.flows.outgoing && k != id ::
          m.sender.flows.outgoing[k] == w.sender.flows.outgoing[k])
    && InState(m, id, AwaitingPubcomp) && m.sender.flows.outgoing[id].charged == w.sender.flows.outgoing[id].charged
    && m.sender.window == w.sender.window && m.sender.ids == w.sender.ids
    && w.up != [] && m.receiver == w.receiver && m.down == w.down + [Pubrel(id)] && m.up == w.up[1..]
  }

  /** An exchange is over. */
  ghost predicate Completed(w: Pair, m: Pair, id: u16) {
    && InState(w, id, AwaitingPubcomp)
    && m.sender.flows.outgoing == w.sender.flows.outgoing - {id} && m.sender.ids == w.sender.ids - {id}
    && m.sender.window == w.sender.window.PublishAcked()
    && w.up != [] && m.receiver == w.receiver && m.down == w.down && m.up == w.up[1..]
  }

  ghost predicate Ignores(w: Pair, m: Pair) {
    w.up != [] && m.sender == w.sender && m.receiver == w.receiver && m.down == w.down && m.up == w.up[1..]
  }

  lemma PubrecEffect(w: Pair)
    requires w.up != [] && w.up[0].Pubrec?
    ensures var m, id := PairStep(w, AnswerArrives), w.up[0].id;
            if InState(w, id, AwaitingPubrec) || InState(w, id, AwaitingPubcomp) then Releases(w, m, id)
            else Ignores(w, m)
  {
    var id := w.up[0].id;
    var (s, reply) := w.sender.HandlePubrec(id, 0);
    assert (s.flows, reply) == w.sender.flows.PubrecReceived(id, 0);
  }

  lemma PubcompEffect(w: Pair)
    requires w.up != [] && w.up[0].Pubcomp?
    ensures var m, id := PairStep(w, AnswerArrives), w.up[0].id;
            if InState(w, id, AwaitingPubcomp) then Completed(w, m, id) else Ignores(w, m)
  {
    var id := w.up[0].id;
    var (s, reply) := w.sender.HandlePubcomp(id);
    assert (s.flows, reply) == w.sender.flows.PubcompReceived(id);
  }

  lemma IgnoresKeepsBound(w: Pair, m: Pair, fixed: set<u16>, extra: nat)
    requires Quiet(w) && StaysFixed(w, fixed) && Counted(w, fixed, extra) && Ignores(w, m) && w.up != []
    ensures Quiet(m) && StaysFixed(m, fixed) && Counted(m, fixed, extra)
  {
    SameSender(w, m, fixed);
    assert forall k :: IsMovable(m, k) <==> IsMovable(w, k);
  }

  lemma ReleasesKeepsBound(w: Pair, m: Pair, id: u16, fixed: set<u16>, extra: nat)
    requires Quiet(w) && StaysFixed(w, fixed) && Counted(w, fixed, extra) && w.up != []
    requires Releases(w, m, id) && id in Charged(w)
    ensures Quiet(m) && StaysFixed(m, fixed) && Counted(m, fixed, extra)
  {
    assert Charged(m) == Charged(w) && Coming(m, fixed) == Coming(w, fixed);
    assert forall k :: IsCarried(m, k) <==> IsCarried(w, k);
    assert id !in fixed && forall k | k != id :: IsMovable(m, k) <==> IsMovable(w, k);
  }

  lemma CompletedKeepsFixed(w: Pair, m: Pair, id: u16, fixed: set<u16>)
    requires Quiet(w) && StaysFixed(w, fixed) && w.up != [] && Completed(w, m, id) && id !in fixed
    ensures Quiet(m) && StaysFixed(m, fixed)
  {
    assert forall k :: IsCarried(m, k) ==> IsCarried(w, k);
    assert forall k :: IsMovable(m, k) ==> IsMovable(w, k);
    assert Charged(m) <= Charged(w);
  }

  lemma CompletedKeepsCount(w: Pair, m: Pair, id: u16, fixed: set<u16>, extra: nat)
    requires Counted(w, fixed, extra) && Completed(w, m, id) && id !in fixed && id !in w.receiver.flows.incoming
    ensures Counted(m, fixed, extra)
  {
    var theirs := w.receiver.flows.incoming.Keys;
    CompletedSets(w, m, id, fixed);
    assert Charged(m) * theirs == Charged(w) * theirs;
    RemovedFromOne(Charged(w), Coming(w, fixed), id);
  }

  lemma CompletedSets(w: Pair, m: Pair, id: u16, fixed: set<u16>)
    requires Completed(w, m, id) && id !in fixed
    ensures Charged(m) == Charged(w) - {id} && Coming(m, fixed) == Coming(w, fixed) - {id}
    ensures id in Charged(w) <==> id !in Coming(w, fixed)
  {
  }

  lemma RemovedFromOne(a: set<u16>, b: set<u16>, id: u16)
    requires id in a <==> id !in b
    ensures |a - {id}| + |b - {id}| == |a| + |b| - 1
  {
    if id in a {
      assert b - {id} == b && |a - {id}| == |a| - 1;
    } else {
      assert a - {id} == a && |b - {id}| == |b| - 1;
    }
  }

  /** The receiver has no exchange left when its PUBCOMP arrives. */
  lemma PubcompIsLast(w: Pair)
    requires PairInvariant(w) && w.up != [] && w.up[0].Pubcomp? && InState(w, w.up[0].id, AwaitingPubcomp)
    ensures w.up[0].id !in w.receiver.flows.incoming
  {
    var l, id := w.View(), w.up[0].id;
    assert Consistent(l, id);
    assert Of(l.up, id)[0] == Pubcomp(id);
  }

  lemma PubrecStaysBounded(w: Pair, fixed: set<u16>, extra: nat)
    requires Bounded(w, fixed, extra) && w.up != [] && w.up[0].Pubrec?
    ensures Bounded(PairStep(w, AnswerArrives), fixed, extra)
  {
    var m, id := PairStep(w, AnswerArrives), w.up[0].id;
    PairStepKeepsInvariant(w, AnswerArrives);
    PubrecEffect(w);
    if Ignores(w, m) {
      IgnoresKeepsBound(w, m, fixed, extra);
    } else {
      assert !IsCarried(w, id);
      ReleasesKeepsBound(w, m, id, fixed, extra);
    }
  }

  lemma PubcompStaysBounded(w: Pair, fixed: set<u16>, extra: nat)
    requires Bounded(w, fixed, extra) && w.up != [] && w.up[0].Pubcomp?
    ensures Bounded(PairStep(w, AnswerArrives), fixed, extra)
  {
    var m, id := PairStep(w, AnswerArrives), w.up[0].id;
    PairStepKeepsInvariant(w, AnswerArrives);
    PubcompEffect(w);
    if Ignores(w, m) {
      IgnoresKeepsBound(w, m, fixed, extra);
    } else {
      PubcompIsLast(w);
      CompletedKeepsFixed(w, m, id, fixed);
      CompletedKeepsCount(w, m, id, fixed, extra);
    }
  }

  lemma AnswerStaysBounded(w: Pair, fixed: set<u16>, extra: nat)
    requires Bounded(w, fixed, extra)
    ensures Bounded(PairStep(w, AnswerArrives), fixed, extra)
  {
    var m := PairStep(w, AnswerArrives);
    if w.up != [] {
      if w.up[0].Pubrec? {
        PubrecStaysBounded(w, fixed, extra);
      } else if w.up[0].Pubcomp? {
        PubcompStaysBounded(w, fixed, extra);
      } else {
        PairStepKeepsInvariant(w, AnswerArrives);
        IgnoresKeepsBound(w, m, fixed, extra);
      }
    }
  }

  lemma TrafficStaysBounded(w: Pair, e: PairEvent, fixed: set<u16>, extra: nat)
    requires Bounded(w, fixed, extra) && IsTraffic(e)
    ensures Bounded(PairStep(w, e), fixed, extra)
    ensures var m := PairStep(w, e);
            && m.sender.window.receiveMaximum == w.sender.window.receiveMaximum
            && m.receiver.window.ownReceiveMaximum == w.receiver.window.ownReceiveMaximum
  {
    TrafficKeepsMaximums(w, e);
    match e {
      case SendMessage => SendStaysBounded(w, fixed, extra);
      case ResendMessage(id) => ResendStaysBounded(w, id, fixed, extra);
      case PacketArrives => PacketStaysBounded(w, fixed, extra);
      case AnswerArrives => AnswerStaysBounded(w, fixed, extra);
    }
  }

  lemma TrafficKeepsMaximums(w: Pair, e: PairEvent)
    requires IsTraffic(e)
    ensures var m := PairStep(w, e);
            && m.sender.window.receiveMaximum == w.sender.window.receiveMaximum
            && m.receiver.window.ownReceiveMaximum == w.receiver.window.ownReceiveMaximum
  {
  }

  /** Only if: a refusal takes an overrun. */
  lemma {:induction false} RefusedRunOverruns(w: Pair, events: seq<PairEvent>, fixed: set<u16>, extra: nat)
    requires Bounded(w, fixed, extra) && Traffic(events) && IsRefused(PairRun(w, events))
    ensures extra + w.sender.window.receiveMaximum > w.receiver.window.ownReceiveMaximum
    ensures |fixed| + w.receiver.window.ownReceiveMaximum < MAX_ID
    decreases |events|
  {
    if events == [] {
      RefusedIsOverrun(w, fixed, extra);
    } else {
      TrafficStaysBounded(w, events[0], fixed, extra);
      RefusedRunOverruns(PairStep(w, events[0]), events[1..], fixed, extra);
    }
  }

  // -- finishing an exchange that is not needed ---------------------------------------------------

  /** The exchange `id` is over, everything else is as it was. */
  ghost predicate Finished(w: Pair, m: Pair, id: u16) {
    && m.sender.flows.outgoing == w.sender.flows.outgoing - {id} && m.sender.ids == w.sender.ids - {id}
    && m.receiver.flows.incoming == w.receiver.flows.incoming - {id}
    && m.receiver.flows.outgoing == w.receiver.flows.outgoing
    && SameMaximums(w, m)
  }

  predicate SameMaximums(w: Pair, m: Pair) {
    && m.sender.window.receiveMaximum == w.sender.window.receiveMaximum
    && m.receiver.window.ownReceiveMaximum == w.receiver.window.ownReceiveMaximum
  }

  lemma FinishedSets(w: Pair, m: Pair, id: u16)
    requires Finished(w, m, id) && id in Movable(w)
    ensures Fixed(m) == Fixed(w) && Answered(m) == Answered(w) - {id} && Movable(m) == Movable(w) - {id}
  {
  }

  /** Traffic leads from the one to the other. */
  ghost predicate Leads(w: Pair, m: Pair) {
    PairInvariant(m) && (CanBeRefused(m) ==> CanBeRefused(w))
  }

  lemma StepLeads(w: Pair, e: PairEvent)
    requires PairInvariant(w) && IsTraffic(e)
    ensures Leads(w, PairStep(w, e))
  {
    PairStepKeepsInvariant(w, e);
    if CanBeRefused(PairStep(w, e)) {
      ThenRefused(w, e);
    }
  }

  lemma StepCharges(w: Pair, id: u16) returns (m: Pair)
    requires PairInvariant(w) && IsCarried(w, id) && InState(w, id, AwaitingPubrec) && w.sender.window.CanSend()
    ensures Leads(w, m) && Charges(w, m, id)
  {
    m := PairStep(w, ResendMessage(id));
    StepLeads(w, ResendMessage(id));
    ResendEffect(w, id);
  }

  lemma StepPuts(w: Pair, id: u16) returns (m: Pair)
    requires PairInvariant(w) && InState(w, id, AwaitingPubcomp)
    ensures Leads(w, m) && Puts(w, m, Pubrel(id))
  {
    m := PairStep(w, ResendMessage(id));
    StepLeads(w, ResendMessage(id));
    ResendEffect(w, id);
  }

  lemma StepTakes(w: Pair, id: u16) returns (m: Pair)
    requires PairInvariant(w) && w.down != [] && w.down[0].Publish? && w.down[0].id == id
    requires w.receiver.window.CanReceive()
    ensures Leads(w, m) && Takes(w, m, id)
  {
    m := PairStep(w, PacketArrives);
    StepLeads(w, PacketArrives);
    PublishEffect(w);
  }

  lemma StepEnds(w: Pair, id: u16) returns (m: Pair)
    requires PairInvariant(w) && w.down != [] && w.down[0] == Pubrel(id)
    requires id in w.receiver.flows.incoming || id !in w.receiver.flows.outgoing
    ensures Leads(w, m) && Ends(w, m, id)
  {
    m := PairStep(w, PacketArrives);
    StepLeads(w, PacketArrives);
    PubrelEffect(w);
  }

  lemma StepReleases(w: Pair, id: u16) returns (m: Pair)
    requires PairInvariant(w) && w.up != [] && w.up[0] == Pubrec(id) && InState(w, id, AwaitingPubrec)
    ensures Leads(w, m) && Releases(w, m, id)
  {
    m := PairStep(w, AnswerArrives);
    StepLeads(w, AnswerArrives);
    PubrecEffect(w);
  }

  lemma StepCompletes(w: Pair, id: u16) returns (m: Pair)
    requires PairInvariant(w) && w.up != [] && w.up[0] == Pubcomp(id) && InState(w, id, AwaitingPubcomp)
    ensures Leads(w, m) && Completed(w, m, id)
  {
    m := PairStep(w, AnswerArrives);
    StepLeads(w, AnswerArrives);
    PubcompEffect(w);
  }

  /** A PUBREL of an answered exchange goes down and its PUBCOMP up. */
  lemma PubrelAnswered(w: Pair, id: u16) returns (m: Pair)
    requires PairInvariant(w) && w.down == [] && IsAnswered(w, id)
    ensures Leads(w, m) && m.sender == w.sender && m.down == [] && m.up == w.up + [Pubcomp(id)]
    ensures m.receiver.flows == w.receiver.flows.(incoming := w.receiver.flows.incoming - {id})
    ensures m.receiver.window == w.receiver.window.(incoming := Decremented(w.receiver.window.incoming))
  {
    var a := StepPuts(w, id);
    m := StepEnds(a, id);
  }

  lemma FinishAnswered(w: Pair, id: u16) returns (m: Pair)
    requires JustResumed(w) && IsAnswered(w, id)
    ensures JustResumed(m) && Finished(w, m, id) && Leads(w, m)
  {
    var a := PubrelAnswered(w, id);
    m := StepCompletes(a, id);
  }

  /** The PUBLISH goes down, and the PUBREC comes back. */
  ghost predicate Published(w: Pair, b: Pair, id: u16) {
    && w.sender.window.CanSend() && b.down == [] && b.up == [Pubrec(id)]
    && b.sender.flows == w.sender.flows.MarkCharged(id) && b.sender.ids == w.sender.ids
    && b.sender.window == w.sender.window.PublishSent()
    && b.receiver.flows == w.receiver.flows.(incoming := w.receiver.flows.incoming[id := AwaitingPubrel])
    && b.receiver.window.incoming <= 1 && SameMaximums(w, b)
  }

  lemma PublishAnswered(w: Pair, id: u16) returns (b: Pair)
    requires JustResumed(w) && InState(w, id, AwaitingPubrec)
    ensures Leads(w, b) && Published(w, b, id)
  {
    var a := StepCharges(w, id);
    b := StepTakes(a, id);
    ChargedAndTaken(w, a, b, id);
  }

  lemma ChargedAndTaken(w: Pair, a: Pair, b: Pair, id: u16)
    requires w.down == [] && w.up == [] && w.receiver.window.incoming == 0
    requires Charges(w, a, id) && Takes(a, b, id)
    ensures Published(w, b, id)
  {
  }

  /** The PUBREL goes down, and the PUBCOMP comes back. */
  ghost predicate Releasing(b: Pair, d: Pair, id: u16) {
    && d.down == [] && d.up == [Pubcomp(id)]
    && InState(d, id, AwaitingPubcomp) && d.sender.ids == b.sender.ids && d.sender.window == b.sender.window
    && d.sender.flows.outgoing - {id} == b.sender.flows.outgoing - {id}
    && d.receiver.flows == b.receiver.flows.(incoming := b.receiver.flows.incoming - {id})
    && d.receiver.window == b.receiver.window.(incoming := Decremented(b.receiver.window.incoming))
  }

  lemma PubrecAnswered(b: Pair, id: u16) returns (d: Pair)
    requires PairInvariant(b) && b.down == [] && b.up == [Pubrec(id)]
    requires InState(b, id, AwaitingPubrec) && id in b.receiver.flows.incoming
    ensures Leads(b, d) && Releasing(b, d, id)
  {
    var c := StepReleases(b, id);
    d := StepEnds(c, id);
    ReleasedAndEnded(b, c, d, id);
  }

  lemma ReleasedAndEnded(b: Pair, c: Pair, d: Pair, id: u16)
    requires b.down == [] && b.up == [Pubrec(id)] && Releases(b, c, id) && Ends(c, d, id)
    ensures Releasing(b, d, id)
  {
  }

  lemma FinishPublish(w: Pair, id: u16) returns (m: Pair)
    requires JustResumed(w) && InState(w, id, AwaitingPubrec)
    ensures JustResumed(m) && Finished(w, m, id) && Leads(w, m)
  {
    var b := PublishAnswered(w, id);
    var d := PubrecAnswered(b, id);
    m := StepCompletes(d, id);
    ExchangeFinished(w, b, d, m, id);
  }

  lemma ExchangeFinished(w: Pair, b: Pair, d: Pair, m: Pair, id: u16)
    requires w.sender.window.outstanding == 0 < w.sender.window.receiveMaximum && id in w.sender.flows.outgoing
    requires forall k | k in w.sender.flows.outgoing :: !w.sender.flows.outgoing[k].charged
    requires Published(w, b, id) && Releasing(b, d, id) && Completed(d, m, id)
    ensures Finished(w, m, id) && m.down == [] && m.up == []
    ensures m.sender.window.outstanding == 0 && m.receiver.window.incoming == 0
    ensures forall k | k in m.sender.flows.outgoing :: !m.sender.flows.outgoing[k].charged
  {
    assert b.sender.flows.outgoing - {id} == w.sender.flows.outgoing - {id};
    assert b.receiver.flows.incoming - {id} == w.receiver.flows.incoming - {id};
  }

  // -- sending too much ---------------------------------------------------------------------------

  /** Every PUBLISH in flight is new to the receiver, and one more than it takes. */
  ghost predicate Draining(w: Pair) {
    && w.down != [] && w.sender.window.outstanding <= w.sender.window.receiveMaximum
    && w.receiver.window.incoming + |w.down| == w.receiver.window.ownReceiveMaximum + 1
    && (forall i | 0 <= i < |w.down| :: w.down[i].Publish? && w.down[i].id !in w.receiver.flows.incoming)
    && (forall i, j | 0 <= i < j < |w.down| :: w.down[i].id != w.down[j].id)
  }

  lemma {:induction false} DrainingIsRefused(w: Pair)
    requires Draining(w)
    ensures CanBeRefused(w)
    decreases |w.down|
  {
    if |w.down| == 1 {
      NowRefused(w);
    } else {
      PublishEffect(w);
      DrainingIsRefused(PairStep(w, PacketArrives));
      ThenRefused(w, PacketArrives);
    }
  }

  function Pubcomps(ids: seq<u16>): Channel {
    seq(|ids|, i requires 0 <= i < |ids| => Pubcomp(ids[i]))
  }

  /** New messages in flight, and the PUBCOMP packets that give back units for more of them. */
  ghost predicate Filling(w: Pair, answers: seq<u16>) {
    && w.up == Pubcomps(answers) && Distinct(answers)
    && (forall id | id in answers :: InState(w, id, AwaitingPubcomp))
    && (forall i | 0 <= i < |w.down| :: w.down[i].Publish? && w.down[i].id !in w.receiver.flows.incoming)
    && (forall i | 0 <= i < |w.down| :: w.down[i].id in w.sender.flows.outgoing && w.down[i].id !in answers)
    && (forall i, j | 0 <= i < j < |w.down| :: w.down[i].id != w.down[j].id)
    && w.receiver.window.incoming == 0 < w.sender.window.receiveMaximum
  }

  /** `extra` units are given back too many, just enough for one message more than the receiver takes. */
  ghost predicate Enough(w: Pair, answers: seq<u16>, extra: nat, fixed: nat) {
    && w.sender.window.outstanding + extra == |w.down| + |answers|
    && w.sender.window.outstanding <= w.sender.window.receiveMaximum
    && |w.down| <= w.receiver.window.ownReceiveMaximum + 1 && |answers| <= extra
    && IsJustEnough(w, extra)
    && |w.sender.ids| == fixed + |answers| + |w.down|
    && fixed + w.receiver.window.ownReceiveMaximum < MAX_ID
  }

  predicate IsJustEnough(w: Pair, extra: nat) {
    || (extra == 0 && w.sender.window.receiveMaximum > w.receiver.window.ownReceiveMaximum)
    || extra + w.sender.window.receiveMaximum == w.receiver.window.ownReceiveMaximum + 1
  }

  lemma SendsKeepsFilling(w: Pair, m: Pair, id: u16, answers: seq<u16>)
    requires Filling(w, answers) && Sends(w, m, id)
    requires w.receiver.flows.incoming.Keys <= w.sender.flows.outgoing.Keys
    ensures Filling(m, answers)
  {
    assert forall k :: InState(w, k, AwaitingPubcomp) ==> InState(m, k, AwaitingPubcomp);
  }

  lemma FillingSends(w: Pair, answers: seq<u16>, extra: nat, fixed: nat) returns (m: Pair)
    requires PairInvariant(w) && Filling(w, answers) && Enough(w, answers, extra, fixed)
    requires |w.down| <= w.receiver.window.ownReceiveMaximum && w.sender.window.CanSend()
    ensures Leads(w, m) && Filling(m, answers) && Enough(m, answers, extra, fixed)
    ensures |m.down| == |w.down| + 1 && m.receiver == w.receiver
  {
    RoomForOne(w, answers, extra, fixed);
    var id;
    m, id := StepSends(w);
    SendsKeepsFilling(w, m, id, answers);
    SendsKeepsEnough(w, m, id, answers, extra, fixed);
  }

  lemma RoomForOne(w: Pair, answers: seq<u16>, extra: nat, fixed: nat)
    requires Enough(w, answers, extra, fixed)
    requires |w.down| <= w.receiver.window.ownReceiveMaximum && w.sender.window.CanSend()
    ensures |w.sender.ids| < MAX_ID
  {
    assert |w.sender.ids| == fixed + w.sender.window.outstanding + extra;
  }

  lemma SendsKeepsEnough(w: Pair, m: Pair, id: u16, answers: seq<u16>, extra: nat, fixed: nat)
    requires Enough(w, answers, extra, fixed) && Sends(w, m, id)
    requires |w.down| <= w.receiver.window.ownReceiveMaximum
    ensures Enough(m, answers, extra, fixed)
  {
  }

  lemma StepSends(w: Pair) returns (m: Pair, id: u16)
    requires PairInvariant(w) && w.sender.window.CanSend() && |w.sender.ids| < MAX_ID
    ensures Leads(w, m) && Sends(w, m, id) && w.receiver.flows.incoming.Keys <= w.sender.flows.outgoing.Keys
  {
    m := PairStep(w, SendMessage);
    StepLeads(w, SendMessage);
    id := SendEffect(w);
    TheirsAreOurs(w);
  }

  lemma TheirsAreOurs(w: Pair)
    requires PairInvariant(w)
    ensures w.receiver.flows.incoming.Keys <= w.sender.flows.outgoing.Keys
  {
    IncomingIsLive(w);
  }

  lemma CompletedKeepsFilling(w: Pair, m: Pair, answers: seq<u16>)
    requires Filling(w, answers) && answers != [] && Completed(w, m, answers[0])
    ensures Filling(m, answers[1..])
  {
    assert Pubcomps(answers)[1..] == Pubcomps(answers[1..]);
    assert answers == [answers[0]] + answers[1..];
    assert forall k | k != answers[0] :: InState(w, k, AwaitingPubcomp) ==> InState(m, k, AwaitingPubcomp);
    assert forall i | 0 <= i < |answers[1..]| :: answers[1..][i] == answers[i + 1];
  }

  lemma CompletedKeepsEnough(w: Pair, m: Pair, answers: seq<u16>, extra: nat, fixed: nat)
    requires Enough(w, answers, extra, fixed) && answers != [] && Completed(w, m, answers[0])
    requires answers[0] in w.sender.ids && w.sender.window.outstanding > 0
    ensures Enough(m, answers[1..], extra, fixed)
  {
    assert |w.sender.ids - {answers[0]}| == |w.sender.ids| - 1;
  }

  lemma FillingAnswers(w: Pair, answers: seq<u16>, extra: nat, fixed: nat) returns (m: Pair)
    requires PairInvariant(w) && Filling(w, answers) && Enough(w, answers, extra, fixed)
    requires answers != [] && w.sender.window.outstanding > 0
    ensures Leads(w, m) && Filling(m, answers[1..]) && Enough(m, answers[1..], extra, fixed)
    ensures m.down == w.down && m.receiver == w.receiver
  {
    OwnedIsInUse(w);
    m := StepCompletes(w, answers[0]);
    CompletedKeepsFilling(w, m, answers);
    CompletedKeepsEnough(w, m, answers, extra, fixed);
  }

  lemma {:induction false} FillingIsRefused(w: Pair, answers: seq<u16>, extra: nat, fixed: nat)
    requires PairInvariant(w) && Filling(w, answers) && Enough(w, answers, extra, fixed)
    ensures CanBeRefused(w)
    decreases w.receiver.window.ownReceiveMaximum + 1 - |w.down| + |answers|
  {
    if |w.down| == w.receiver.window.ownReceiveMaximum + 1 {
      DrainingIsRefused(w);
    } else if w.sender.window.CanSend() {
      var m := FillingSends(w, answers, extra, fixed);
      FillingIsRefused(m, answers, extra, fixed);
    } else {
      var m := FillingAnswers(w, answers, extra, fixed);
      FillingIsRefused(m, answers[1..], extra, fixed);
    }
  }

  // -- gathering ----------------------------------------------------------------------------------

  /** Every exchange of `answers` has been released, those of `rest` are still to be. */
  ghost predicate Gathering(w: Pair, rest: seq<u16>, answers: seq<u16>) {
    && w.down == [] && w.up == Pubcomps(answers) && Distinct(rest + answers)
    && (forall id | id in rest :: IsAnswered(w, id))
    && (forall id | id in answers :: InState(w, id, AwaitingPubcomp))
    && w.sender.window.outstanding == 0 < w.sender.window.receiveMaximum && w.receiver.window.incoming == 0
  }

  lemma GatheringStep(w: Pair, rest: seq<u16>, answers: seq<u16>, m: Pair)
    requires Gathering(w, rest, answers) && rest != []
    requires m.sender == w.sender && m.down == [] && m.up == w.up + [Pubcomp(rest[0])]
    requires m.receiver.flows == w.receiver.flows.(incoming := w.receiver.flows.incoming - {rest[0]})
    requires m.receiver.window == w.receiver.window.(incoming := Decremented(w.receiver.window.incoming))
    ensures Gathering(m, rest[1..], answers + [rest[0]])
  {
    var all, more := rest + answers, rest[1..] + (answers + [rest[0]]);
    assert Pubcomps(answers + [rest[0]]) == Pubcomps(answers) + [Pubcomp(rest[0])];
    assert forall i | 0 <= i < |all| - 1 :: more[i] == all[i + 1];
    assert more[|all| - 1] == all[0];
    assert forall i | 0 <= i < |rest[1..]| :: rest[1..][i] == all[i + 1];
    assert rest[0] == all[0] && rest[0] !in rest[1..];
    forall id | id in rest[1..]
      ensures IsAnswered(m, id)
    {
      assert id in rest && id != rest[0];
    }
    forall id | id in answers + [rest[0]]
      ensures InState(m, id, AwaitingPubcomp)
    {
      assert id in answers || id == rest[0];
      assert IsAnswered(w, rest[0]);
    }
  }

  lemma {:induction false} GatheringIsRefused(w: Pair, rest: seq<u16>, answers: seq<u16>, fixed: nat)
    requires PairInvariant(w) && Gathering(w, rest, answers)
    requires IsJustEnough(w, |rest| + |answers|) && |w.sender.ids| == fixed + |rest| + |answers|
    requires fixed + w.receiver.window.ownReceiveMaximum < MAX_ID
    ensures CanBeRefused(w)
    decreases |rest|
  {
    if rest == [] {
      assert rest + answers == answers;
      FillingIsRefused(w, answers, |answers|, fixed);
    } else {
      var m := PubrelAnswered(w, rest[0]);
      GatheringStep(w, rest, answers, m);
      GatheringIsRefused(m, rest[1..], answers + [rest[0]], fixed);
    }
  }

  // -- exactly when -------------------------------------------------------------------------------

  lemma Listed(s: set<u16>) returns (ids: seq<u16>)
    ensures Distinct(ids) && |ids| == |s| && forall id :: id in ids <==> id in s
    decreases |s|
  {
    if s == {} {
      ids := [];
    } else {
      var id :| id in s;
      var rest := Listed(s - {id});
      ids := [id] + rest;
    }
  }

  /** If: what is not needed is finished first. */
  lemma {:induction false} OverrunIsRefused(w: Pair, extra: nat)
    requires JustResumed(w) && extra <= |Answered(w)| && IsJustEnough(w, extra)
    requires |Fixed(w)| + w.receiver.window.ownReceiveMaximum < MAX_ID
    ensures CanBeRefused(w)
    decreases |Movable(w)|
  {
    if id :| id in w.sender.flows.outgoing && InState(w, id, AwaitingPubrec) {
      var m := OneLess(w, id);
      OverrunIsRefused(m, extra);
    } else if extra < |Answered(w)| {
      var id :| id in Answered(w);
      var m := OneLess(w, id);
      OverrunIsRefused(m, extra);
    } else {
      AnsweredAreRefused(w);
    }
  }

  lemma OneLess(w: Pair, id: u16) returns (m: Pair)
    requires JustResumed(w) && IsMovable(w, id)
    ensures JustResumed(m) && Leads(w, m) && SameMaximums(w, m) && Fixed(m) == Fixed(w)
    ensures |Movable(m)| < |Movable(w)|
    ensures |Answered(m)| == |Answered(w)| - if IsAnswered(w, id) then 1 else 0
  {
    if IsAnswered(w, id) {
      m := FinishAnswered(w, id);
    } else {
      m := FinishPublish(w, id);
    }
    OneLessSets(w, m, id);
  }

  lemma OneLessSets(w: Pair, m: Pair, id: u16)
    requires Finished(w, m, id) && IsMovable(w, id)
    ensures Fixed(m) == Fixed(w) && |Movable(m)| < |Movable(w)|
    ensures |Answered(m)| == |Answered(w)| - if IsAnswered(w, id) then 1 else 0
  {
    FinishedSets(w, m, id);
    assert |Movable(w) - {id}| == |Movable(w)| - 1;
    if IsAnswered(w, id) {
      assert |Answered(w) - {id}| == |Answered(w)| - 1;
    } else {
      assert Answered(w) - {id} == Answered(w);
    }
  }

  lemma AnsweredAreRefused(w: Pair)
    requires JustResumed(w) && forall id | id in w.sender.flows.outgoing :: !InState(w, id, AwaitingPubrec)
    requires IsJustEnough(w, |Answered(w)|) && |Fixed(w)| + w.receiver.window.ownReceiveMaximum < MAX_ID
    ensures CanBeRefused(w)
  {
    OwnedIsInUse(w);
    FixedAndAnswered(w);
    var ids := Listed(Answered(w));
    GatheringStarts(w, ids);
    GatheringIsRefused(w, ids, [], |Fixed(w)|);
  }

  lemma FixedAndAnswered(w: Pair)
    requires forall id | id in w.sender.flows.outgoing :: !InState(w, id, AwaitingPubrec)
    requires w.sender.flows.outgoing.Keys <= w.sender.ids
    ensures |w.sender.ids| == |Fixed(w)| + |Answered(w)|
  {
    assert Movable(w) == Answered(w);
    assert w.sender.ids == Fixed(w) + Answered(w) && Fixed(w) !! Answered(w);
  }

  lemma GatheringStarts(w: Pair, ids: seq<u16>)
    requires w.down == [] && w.up == [] && Distinct(ids) && forall id | id in ids :: id in Answered(w)
    requires w.sender.window.outstanding == 0 < w.sender.window.receiveMaximum && w.receiver.window.incoming == 0
    ensures Gathering(w, ids, [])
  {
    assert ids + [] == ids && Pubcomps([]) == [];
  }

  /**
   * For any connection that was resumed: its traffic can end in a refusal if and only if enough answered
   * exchanges were carried over and enough identifiers are left.
   */
  lemma CanBeRefusedIff(w: Pair)
    requires JustResumed(w)
    ensures CanBeRefused(w) <==> CanOverrun(w)
  {
    if CanBeRefused(w) {
      var events :| Traffic(events) && RefusedInQuota(PairRun(w, events));
      ResumedIsBounded(w);
      RefusedRunOverruns(w, events, Fixed(w), |Answered(w)|);
    }
    if CanOverrun(w) {
      var ours, theirs := w.sender.window.receiveMaximum, w.receiver.window.ownReceiveMaximum;
      OverrunIsRefused(w, if ours > theirs then 0 else theirs + 1 - ours);
    }
  }

  lemma {:induction false} TrafficRunKeepsMaximums(w: Pair, events: seq<PairEvent>)
    requires Traffic(events)
    ensures SameMaximums(w, PairRun(w, events))
    decreases |events|
  {
    if events != [] {
      TrafficKeepsMaximums(w, events[0]);
      TrafficRunKeepsMaximums(PairStep(w, events[0]), events[1..]);
    }
  }

  /**
   * When both sides agree on the Receive Maximum one carried-over exchange that waits for a PUBCOMP, and
   * gets it, is what it takes.
   */
  lemma AgreedMaximumRefusedIff(w: Pair)
    requires JustResumed(w) && w.sender.window.receiveMaximum == w.receiver.window.ownReceiveMaximum
    ensures (exists events :: Traffic(events) && IsRefusedWithinQuota(PairRun(w, events))) <==>
            (exists id :: IsAnswered(w, id)) && |Fixed(w)| + w.sender.window.receiveMaximum < MAX_ID
  {
    CanBeRefusedIff(w);
    forall events | Traffic(events)
      ensures RefusedInQuota(PairRun(w, events)) <==> IsRefusedWithinQuota(PairRun(w, events))
    {
      TrafficRunKeepsMaximums(w, events);
    }
    assert (exists id :: IsAnswered(w, id)) <==> |Answered(w)| > 0 by {
      if id :| IsAnswered(w, id) {
        assert id in Answered(w);
      }
      if |Answered(w)| > 0 {
        var id :| id in Answered(w);
      }
    }
  }

  // -- the connections of a run -------------------------------------------------------------------

  lemma StepKeepsOwnMaximum(w: Pair, e: PairEvent)
    requires w.receiver.window.ownReceiveMaximum > 0
    ensures PairStep(w, e).receiver.window.ownReceiveMaximum > 0
  {
    match e {
      case ReceiverDoes(call) => OwnMaximumStaysPositive(w.receiver, call);
      case Resume(p, q) =>
        if Replay.Resumes(w.receiver, q) {
          ResumedOwnMaximum(w.receiver, q);
        }
      case QosOneArrives(_) =>
      case SenderDoes(_) =>
      case SendMessage => TrafficKeepsMaximums(w, e);
      case ResendMessage(_) => TrafficKeepsMaximums(w, e);
      case PacketArrives => TrafficKeepsMaximums(w, e);
      case AnswerArrives => TrafficKeepsMaximums(w, e);
    }
  }

  lemma ResumedOwnMaximum(s: SessionState, p: ConnackParams)
    requires Replay.Resumes(s, p)
    ensures Replay.Resumed(s, p).window.ownReceiveMaximum == s.window.ownReceiveMaximum
    ensures Replay.Resumed(s, p).window.incoming == 0 && Replay.Resumed(s, p).window.receiveMaximum > 0
  {
  }

  lemma {:induction false} RunKeepsOwnMaximum(w: Pair, events: seq<PairEvent>)
    requires w.receiver.window.ownReceiveMaximum > 0
    ensures PairRun(w, events).receiver.window.ownReceiveMaximum > 0
    decreases |events|
  {
    if events != [] {
      StepKeepsOwnMaximum(w, events[0]);
      RunKeepsOwnMaximum(PairStep(w, events[0]), events[1..]);
    }
  }

  lemma ResumeResumes(w: Pair, p: ConnackParams, q: ConnackParams)
    requires PairInvariant(w) && w.receiver.window.ownReceiveMaximum > 0
    requires Replay.Resumes(w.sender, p) && Replay.Resumes(w.receiver, q)
    ensures JustResumed(PairStep(w, Resume(p, q)))
  {
    PairStepKeepsInvariant(w, Resume(p, q));
    Replay.ResumedState(w.sender, p);
    ResumedOwnMaximum(w.sender, p);
    ResumedOwnMaximum(w.receiver, q);
  }

  /** Over every run of two sessions, after every reconnect that both accept. */
  lemma ReconnectCanBeRefusedIff(start: Pair, before: seq<PairEvent>, p: ConnackParams, q: ConnackParams)
    requires Starts(start)
    requires var v := PairRun(start, before); Replay.Resumes(v.sender, p) && Replay.Resumes(v.receiver, q)
    ensures var w := PairStep(PairRun(start, before), Resume(p, q)); CanBeRefused(w) <==> CanOverrun(w)
  {
    StartIsInvariant(start);
    PairRunKeepsInvariant(start, before);
    RunKeepsOwnMaximum(start, before);
    ResumeResumes(PairRun(start, before), p, q);
    CanBeRefusedIff(PairStep(PairRun(start, before), Resume(p, q)));
  }

  /** With one exchange to carry over and a Receive Maximum of one, a reconnect is enough. */
  lemma ResumedOneIsRefused(m: Pair, p: ConnackParams)
    requires PairInvariant(m) && p == Accepting(true, Some(1))
    requires At(m, map[1 := AwaitingPubcomp], 1, map[1 := AwaitingPubrel], 1)
    ensures exists events :: IsRefusedWithinQuota(PairRun(PairStep(m, Resume(p, p)), events))
  {
    ResumeAt(m, map[1 := AwaitingPubcomp], map[1 := AwaitingPubrel], p);
    ResumeResumes(m, p, p);
    var k := PairStep(m, Resume(p, p));
    OneAnswered(k);
    AgreedMaximumRefusedIff(k);
    var events :| Traffic(events) && IsRefusedWithinQuota(PairRun(k, events));
  }

  /**
   * The quota alone does not keep a sender within its peer's window: two new sessions with a Receive
   * Maximum of one reach a PUBLISH that is refused.
   */
  lemma CarriedOverExchangeGetsRefused(w: Pair)
    requires Starts(w) && CanResume(w.sender) && CanResume(w.receiver)
    ensures exists events :: IsRefusedWithinQuota(PairRun(w, events))
  {
    var p := Accepting(true, Some(1));
    var m, before := ToCarryOver(w);
    StartIsInvariant(w);
    PairRunKeepsInvariant(w, before);
    ResumedOneIsRefused(m, p);
    var events :| IsRefusedWithinQuota(PairRun(PairStep(m, Resume(p, p)), events));
    ContinuedRun(w, before, Resume(p, p), events);
    assert IsRefusedWithinQuota(PairRun(w, before + ([Resume(p, p)] + events)));
  }

  lemma ContinuedRun(w: Pair, before: seq<PairEvent>, e: PairEvent, after: seq<PairEvent>)
    ensures PairRun(w, before + ([e] + after)) == PairRun(PairStep(PairRun(w, before), e), after)
  {
    PairRunAppend(w, before, [e] + after);
    PairRunCons(PairRun(w, before), e, after);
  }

  lemma StartIsInvariant(w: Pair)
    requires Starts(w)
    ensures PairInvariant(w) && w.receiver.window.ownReceiveMaximum > 0
  {
    InitialInvariant();
  }

  lemma OneAnswered(m: Pair)
    requires At(m, map[1 := AwaitingPubcomp], 0, map[1 := AwaitingPubrel], 0)
    ensures IsAnswered(m, 1) && Fixed(m) == {}
  {
    assert IsAnswered(m, 1);
    assert m.sender.ids == {1};
  }
}
