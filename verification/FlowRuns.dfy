/** Runs of one flow manager, and the order in which it lists retransmissions. */
module FlowRuns {
  import opened Prelude
  import opened QosFlow

  /** Everything that can happen to a flow manager. */
  datatype FlowEvent =
    | Sent(id: u16, qos: QoS)
    | PubackIn(id: u16)
    | PubrecIn(id: u16, reason: u8)
    | PubrelIn(id: u16)
    | PubcompIn(id: u16)
    | Publish1In(id: u16)
    | Publish2In(id: u16)
    | PubackOut(id: u16)
    | Charged(id: u16)
    | ChargesCleared
    | Released(id: u16)
    | Reset

  /** The action asked of the caller, if any; a refused packet asks for none. */
  function ActionOf(r: Reply): Option<Action> {
    if r.Ok? then r.value else None
  }

  function FlowStep(f: Flows, e: FlowEvent): (Flows, Option<Action>) {
    match e
    case Sent(id, qos) => (if qos == AtMostOnce then f else f.PublishSent(id, qos), None)
    case PubackIn(id) => var (g, r) := f.PubackReceived(id); (g, ActionOf(r))
    case PubrecIn(id, reason) => var (g, r) := f.PubrecReceived(id, reason); (g, ActionOf(r))
    case PubrelIn(id) => var (g, r) := f.PubrelReceived(id); (g, ActionOf(r))
    case PubcompIn(id) => var (g, r) := f.PubcompReceived(id); (g, ActionOf(r))
    case Publish1In(id) => var (g, a) := f.PublishReceivedQos1(id); (g, Some(a))
    case Publish2In(id) => var (g, a) := f.PublishReceivedQos2(id); (g, Some(a))
    case PubackOut(id) => (f.PubackSent(id), None)
    case Charged(id) => (f.MarkCharged(id), None)
    case ChargesCleared => (f.ClearCharges(), None)
    case Released(id) => (f.Release(id), None)
    case Reset => (Flows.Empty(), None)
  }

  lemma PubrecKeepsValid(f: Flows, id: u16, reason: u8)
    requires f.Valid()
    ensures f.PubrecReceived(id, reason).0.Valid()
  {
  }

  lemma StepKeepsValid(f: Flows, e: FlowEvent)
    requires f.Valid()
    ensures FlowStep(f, e).0.Valid()
  {
    if e.PubrecIn? {
      PubrecKeepsValid(f, e.id, e.reason);
    }
  }

  // ------------------------------------------------------------------------------------------
  // Listings: an enumeration of a map of flows by increasing sequence number.
  // ------------------------------------------------------------------------------------------

  type Outgoing = map<u16, OutgoingFlow>

  ghost predicate IsFirst(flows: Outgoing, id: u16) {
    id in flows && forall k | k in flows && k != id :: flows[id].seqNo < flows[k].seqNo
  }

  ghost predicate Listing(flows: Outgoing, ids: seq<u16>) {
    if ids == [] then flows == map[]
    else IsFirst(flows, ids[0]) && Listing(flows - {ids[0]}, ids[1..])
  }

  lemma {:induction false} ListingElements(flows: Outgoing, ids: seq<u16>)
    requires Listing(flows, ids)
    ensures forall id :: id in ids <==> id in flows
    decreases |ids|
  {
    if ids != [] {
      var first, rest := ids[0], ids[1..];
      ListingElements(flows - {first}, rest);
      assert ids == [first] + rest;
    }
  }

  /** A listing names every flow exactly once. */
  lemma {:induction false} ListingCounts(flows: Outgoing, ids: seq<u16>)
    requires Listing(flows, ids)
    ensures Distinct(ids) && |ids| == |flows|
    decreases |ids|
  {
    if ids != [] {
      var first, rest := ids[0], ids[1..];
      ListingCounts(flows - {first}, rest);
      ListingElements(flows - {first}, rest);
      assert (flows - {first}).Keys == flows.Keys - {first};
      assert first !in rest;
      forall i, j | 0 <= i < j < |ids|
        ensures ids[i] != ids[j]
      {
        assert rest[j - 1] == ids[j];
        if i > 0 {
          assert rest[i - 1] == ids[i];
        }
      }
    }
  }

  lemma {:induction false} ListingUnique(flows: Outgoing, a: seq<u16>, b: seq<u16>)
    requires Listing(flows, a) && Listing(flows, b)
    ensures a == b
    decreases |a|
  {
    if a != [] && b != [] {
      ListingUnique(flows - {a[0]}, a[1..], b[1..]);
      assert a == [a[0]] + a[1..] && b == [b[0]] + b[1..];
    }
  }

  /** Appending a flow with the largest sequence number extends the listing. */
  lemma {:induction false} ListingAppend(flows: Outgoing, ids: seq<u16>, id: u16, flow: OutgoingFlow)
    requires Listing(flows, ids) && id !in flows
    requires forall k | k in flows :: flows[k].seqNo < flow.seqNo
    ensures Listing(flows[id := flow], ids + [id])
    decreases |ids|
  {
    if ids == [] {
      assert flows[id := flow] - {id} == map[];
      assert Listing(flows[id := flow] - {id}, []);
      assert (ids + [id])[1..] == [];
    } else {
      ListingAppend(flows - {ids[0]}, ids[1..], id, flow);
      assert (flows - {ids[0]})[id := flow] == flows[id := flow] - {ids[0]};
      assert (ids + [id])[1..] == ids[1..] + [id];
    }
  }

  /** Dropping a flow drops its name and keeps the order of the others. */
  lemma {:induction false} ListingWithout(flows: Outgoing, ids: seq<u16>, id: u16)
    requires Listing(flows, ids)
    ensures Listing(flows - {id}, Without(ids, id))
    decreases |ids|
  {
    if ids == [] {
      assert flows - {id} == map[];
    } else {
      ListingWithout(flows - {ids[0]}, ids[1..], id);
      if ids[0] == id {
        assert flows - {id} - {id} == flows - {id};
      } else {
        assert flows - {ids[0]} - {id} == flows - {id} - {ids[0]};
        assert Without(ids, id)[1..] == Without(ids[1..], id);
      }
    }
  }

  /** Only identifiers and sequence numbers matter to a listing. */
  lemma {:induction false} ListingSame(flows: Outgoing, other: Outgoing, ids: seq<u16>)
    requires Listing(flows, ids)
    requires flows.Keys == other.Keys && forall id | id in flows :: flows[id].seqNo == other[id].seqNo
    ensures Listing(other, ids)
    decreases |ids|
  {
    if ids != [] {
      ListingSame(flows - {ids[0]}, other - {ids[0]}, ids[1..]);
    }
  }

  // ------------------------------------------------------------------------------------------
  // The list of pending retransmissions.
  // ------------------------------------------------------------------------------------------

  predicate IsPublish(state: FlowState) {
    state.AwaitingPuback? || state.AwaitingPubrec?
  }

  ghost function Publishes(flows: Outgoing): Outgoing {
    map id | id in flows && IsPublish(flows[id].state) :: flows[id]
  }

  ghost function Pubrels(flows: Outgoing): Outgoing {
    map id | id in flows && flows[id].state.AwaitingPubcomp? :: flows[id]
  }

  lemma PartsWithout(flows: Outgoing, id: u16)
    ensures Publishes(flows - {id}) == Publishes(flows) - {id}
    ensures Pubrels(flows - {id}) == Pubrels(flows) - {id}
  {
  }

  lemma PartsWithPublish(flows: Outgoing, id: u16, flow: OutgoingFlow)
    requires IsPublish(flow.state)
    ensures Publishes(flows[id := flow]) == Publishes(flows)[id := flow]
    ensures Pubrels(flows[id := flow]) == Pubrels(flows) - {id}
  {
  }

  lemma PartsWithPubrel(flows: Outgoing, id: u16, flow: OutgoingFlow)
    requires flow.state.AwaitingPubcomp?
    ensures Publishes(flows[id := flow]) == Publishes(flows) - {id}
    ensures Pubrels(flows[id := flow]) == Pubrels(flows)[id := flow]
  {
  }

  lemma MapWithoutAbsent<V>(m: map<u16, V>, id: u16)
    requires id !in m
    ensures m - {id} == m
  {
  }

  /**
   * `pending_packet_ids`: every outgoing identifier by sequence number. The library sort is an
   * insertion sort here.
   */
  method PendingPacketIds(flows: Flows) returns (ids: seq<u16>)
    requires flows.Valid()
    ensures Listing(flows.outgoing, ids)
  {
    ids := [];
    var todo := flows.outgoing.Keys;
    while todo != {}
      invariant todo <= flows.outgoing.Keys
      invariant Listing(flows.outgoing - todo, ids)
      decreases |todo|
    {
      var id :| id in todo;
      ids := InsertBySeq(flows.outgoing, flows.outgoing - todo, ids, id);
      assert (flows.outgoing - todo)[id := flows.outgoing[id]] == flows.outgoing - (todo - {id});
      todo := todo - {id};
    }
    assert flows.outgoing - {} == flows.outgoing;
  }

  method InsertBySeq(flows: Outgoing, part: Outgoing, ids: seq<u16>, id: u16) returns (r: seq<u16>)
    requires Listing(part, ids) && id in flows && id !in part
    requires forall k | k in part :: k in flows && part[k] == flows[k] && flows[k].seqNo != flows[id].seqNo
    ensures Listing(part[id := flows[id]], r)
  {
    ListingElements(part, ids);
    var k := 0;
    while k < |ids| && part[ids[k]].seqNo < flows[id].seqNo
      invariant 0 <= k <= |ids|
      invariant forall i | 0 <= i < k :: part[ids[i]].seqNo < flows[id].seqNo
    {
      k := k + 1;
    }
    ListingInsert(part, ids, id, flows[id], k);
    return ids[..k] + [id] + ids[k..];
  }

  /** A flow with the smallest sequence number is listed first. */
  lemma ListingPrepend(flows: Outgoing, ids: seq<u16>, id: u16, flow: OutgoingFlow)
    requires Listing(flows, ids) && id !in flows
    requires ids != [] ==> flow.seqNo < flows[ids[0]].seqNo
    ensures Listing(flows[id := flow], [id] + ids)
  {
    assert flows[id := flow] - {id} == flows;
    assert ([id] + ids)[1..] == ids;
  }

  lemma InsertedTail(ids: seq<u16>, id: u16, k: nat)
    requires 0 < k <= |ids|
    ensures var all := ids[..k] + [id] + ids[k..];
            all[0] == ids[0] && all[1..] == ids[1..][..k - 1] + [id] + ids[1..][k - 1..]
  {
  }

  lemma {:induction false} ListingInsert(flows: Outgoing, ids: seq<u16>, id: u16, flow: OutgoingFlow, k: nat)
    requires Listing(flows, ids) && id !in flows && k <= |ids|
    requires forall i | 0 <= i < |ids| :: ids[i] in flows
    requires forall i | 0 <= i < k :: flows[ids[i]].seqNo < flow.seqNo
    requires k < |ids| ==> flow.seqNo < flows[ids[k]].seqNo
    ensures Listing(flows[id := flow], ids[..k] + [id] + ids[k..])
    decreases |ids|
  {
    if k == 0 {
      ListingPrepend(flows, ids, id, flow);
      assert ids[..0] + [id] + ids[0..] == [id] + ids;
    } else {
      var first, rest := ids[0], ids[1..];
      var others := flows - {first};
      ListingElements(others, rest);
      assert forall i | 0 <= i < |rest| :: rest[i] == ids[i + 1] && rest[i] in others;
      ListingInsert(others, rest, id, flow, k - 1);
      assert others[id := flow] == flows[id := flow] - {first};
      InsertedTail(ids, id, k);
      assert IsFirst(flows[id := flow], first);
    }
  }

  /** `pending_retransmissions`: the filter over `needs_retransmission`. */
  function Retransmissions(flows: Flows, ids: seq<u16>): seq<(u16, Action)> {
    if ids == [] then []
    else match flows.NeedsRetransmission(ids[0])
      case Some(action) => [(ids[0], action)] + Retransmissions(flows, ids[1..])
      case None => Retransmissions(flows, ids[1..])
  }

  /** The filter drops no pending identifier. */
  lemma RetransmissionsDropNone(flows: Flows, ids: seq<u16>)
    requires flows.Numbered() && forall id | id in ids :: id in flows.outgoing
    ensures |Retransmissions(flows, ids)| == |ids|
    ensures forall i | 0 <= i < |ids| :: Retransmissions(flows, ids)[i].0 == ids[i]
  {
  }

  function PublishIds(entries: seq<(u16, Action)>): seq<u16> {
    if entries == [] then []
    else if entries[0].1.ResendPublish? then [entries[0].0] + PublishIds(entries[1..])
    else PublishIds(entries[1..])
  }

  function PubrelIds(entries: seq<(u16, Action)>): seq<u16> {
    if entries == [] then []
    else if entries[0].1.ResendPubrel? then [entries[0].0] + PubrelIds(entries[1..])
    else PubrelIds(entries[1..])
  }

  /** The PUBLISH and the PUBREL entries of the pending list each are a listing of their flows. */
  lemma {:induction false} ProjectionsAreListings(flows: Flows, part: Outgoing, ids: seq<u16>)
    requires flows.Numbered() && Listing(part, ids)
    requires forall id | id in part :: id in flows.outgoing && part[id] == flows.outgoing[id]
    ensures Listing(Publishes(part), PublishIds(Retransmissions(flows, ids)))
    ensures Listing(Pubrels(part), PubrelIds(Retransmissions(flows, ids)))
    decreases |ids|
  {
    if ids == [] {
      assert Publishes(part) == map[] && Pubrels(part) == map[];
    } else {
      var id, rest := ids[0], ids[1..];
      ProjectionsAreListings(flows, part - {id}, rest);
      var entries, tail := Retransmissions(flows, ids), Retransmissions(flows, rest);
      assert entries[1..] == tail;
      PartsWithout(part, id);
      if part[id].state.AwaitingPubcomp? {
        MapWithoutAbsent(Publishes(part), id);
        assert PubrelIds(entries)[1..] == PubrelIds(tail);
      } else {
        MapWithoutAbsent(Pubrels(part), id);
        assert PublishIds(entries)[1..] == PublishIds(tail);
      }
    }
  }

  // ------------------------------------------------------------------------------------------
  // The order required by section 4.6 of MQTT v5.0, kept independently of sequence numbers.
  // ------------------------------------------------------------------------------------------

  /**
   * What an observer of the API writes down: unacknowledged PUBLISH packets in the order sent, and
   * PUBREL packets in the order of the first successful PUBREC.
   */
  datatype Ledger = Ledger(publishes: seq<u16>, pubrels: seq<u16>)
  {
    function Record(e: FlowEvent, action: Option<Action>): Ledger {
      match e
      case Sent(id, qos) =>
        if qos != AtMostOnce && id != 0 && id !in publishes && id !in pubrels
        then Ledger(publishes + [id], pubrels) else this
      case PubackIn(id) => if action == Some(Complete(id)) then Forget(id) else this
      case PubrecIn(id, _) =>
        if action == Some(Aborted(id)) then Forget(id)
        else if action == Some(SendPubrel(id)) && id in publishes
        then Ledger(Without(publishes, id), pubrels + [id])
        else this
      case PubcompIn(id) => if action == Some(Complete(id)) then Forget(id) else this
      case Released(id) => Forget(id)
      case Reset => Ledger([], [])
      case _ => this
    }

    function Forget(id: u16): Ledger {
      Ledger(Without(publishes, id), Without(pubrels, id))
    }
  }

  ghost predicate Agrees(f: Flows, ledger: Ledger) {
    && Listing(Publishes(f.outgoing), ledger.publishes)
    && Listing(Pubrels(f.outgoing), ledger.pubrels)
  }

  lemma ForgetAgrees(f: Flows, ledger: Ledger, id: u16)
    requires Agrees(f, ledger)
    ensures Agrees(f.WithoutOutgoing(id), ledger.Forget(id))
  {
    ListingWithout(Publishes(f.outgoing), ledger.publishes, id);
    ListingWithout(Pubrels(f.outgoing), ledger.pubrels, id);
    PartsWithout(f.outgoing, id);
  }

  /** The ledger's two lists name exactly the outgoing flows, by their state. */
  lemma LedgerElements(f: Flows, ledger: Ledger)
    requires f.Numbered() && Agrees(f, ledger)
    ensures forall id :: id in ledger.publishes <==> id in f.outgoing && IsPublish(f.outgoing[id].state)
    ensures forall id :: id in ledger.pubrels <==> id in f.outgoing && f.outgoing[id].state.AwaitingPubcomp?
  {
    ListingElements(Publishes(f.outgoing), ledger.publishes);
    ListingElements(Pubrels(f.outgoing), ledger.pubrels);
  }

  lemma SentAgrees(f: Flows, ledger: Ledger, id: u16, qos: QoS)
    requires f.Numbered() && Agrees(f, ledger) && qos != AtMostOnce
    ensures Agrees(f.PublishSent(id, qos), ledger.Record(Sent(id, qos), None))
  {
    var g := f.PublishSent(id, qos);
    LedgerElements(f, ledger);
    if id != 0 && id !in f.outgoing {
      ListingAppend(Publishes(f.outgoing), ledger.publishes, id, g.outgoing[id]);
      PartsWithPublish(f.outgoing, id, g.outgoing[id]);
      MapWithoutAbsent(Pubrels(f.outgoing), id);
    }
  }

  lemma PubrecAgrees(f: Flows, ledger: Ledger, id: u16)
    requires f.Numbered() && Agrees(f, ledger)
    requires id in f.outgoing && f.outgoing[id].state.AwaitingPubrec?
    ensures id in ledger.publishes
    ensures Agrees(f.Stamped(id, AwaitingPubcomp, f.outgoing[id].charged),
                   Ledger(Without(ledger.publishes, id), ledger.pubrels + [id]))
  {
    var g := f.Stamped(id, AwaitingPubcomp, f.outgoing[id].charged);
    LedgerElements(f, ledger);
    ListingWithout(Publishes(f.outgoing), ledger.publishes, id);
    ListingAppend(Pubrels(f.outgoing), ledger.pubrels, id, g.outgoing[id]);
    PartsWithPubrel(f.outgoing, id, g.outgoing[id]);
  }

  lemma SameOrderAgrees(f: Flows, g: Flows, ledger: Ledger)
    requires Agrees(f, ledger)
    requires f.outgoing.Keys == g.outgoing.Keys
    requires forall id | id in f.outgoing ::
      f.outgoing[id].seqNo == g.outgoing[id].seqNo && f.outgoing[id].state == g.outgoing[id].state
    ensures Agrees(g, ledger)
  {
    ListingSame(Publishes(f.outgoing), Publishes(g.outgoing), ledger.publishes);
    ListingSame(Pubrels(f.outgoing), Pubrels(g.outgoing), ledger.pubrels);
  }

  lemma PubrecStepAgrees(f: Flows, ledger: Ledger, id: u16, reason: u8)
    requires f.Numbered() && Agrees(f, ledger)
    ensures var (g, r) := f.PubrecReceived(id, reason);
            Agrees(g, ledger.Record(PubrecIn(id, reason), ActionOf(r)))
  {
    if id in f.outgoing && f.outgoing[id].state.AwaitingPubrec? {
      if reason >= 0x80 {
        ForgetAgrees(f, ledger, id);
      } else {
        PubrecAgrees(f, ledger, id);
      }
    } else {
      LedgerElements(f, ledger);
    }
  }

  lemma FinishedAgrees(f: Flows, ledger: Ledger, id: u16, awaited: FlowState)
    requires Agrees(f, ledger)
    ensures var (g, r) := f.Finished(id, awaited);
            Agrees(g, if ActionOf(r) == Some(Complete(id)) then ledger.Forget(id) else ledger)
  {
    ForgetAgrees(f, ledger, id);
  }

  lemma ReleaseAgrees(f: Flows, ledger: Ledger, id: u16)
    requires Agrees(f, ledger)
    ensures Agrees(f.Release(id), ledger.Forget(id))
  {
    ForgetAgrees(f, ledger, id);
    SameOrderAgrees(f.WithoutOutgoing(id), f.Release(id), ledger.Forget(id));
  }

  /** Events that leave identifiers, numbers and states of the outgoing flows alone. */
  predicate KeepsOutgoingOrder(e: FlowEvent) {
    !e.Sent? && !e.PubackIn? && !e.PubcompIn? && !e.PubrecIn? && !e.Released? && !e.Reset?
  }

  lemma OtherStepAgrees(f: Flows, ledger: Ledger, e: FlowEvent)
    requires Agrees(f, ledger) && KeepsOutgoingOrder(e)
    ensures Agrees(FlowStep(f, e).0, ledger)
  {
    SameOrderAgrees(f, FlowStep(f, e).0, ledger);
  }

  /** Every event, matched or not, keeps the flow manager in agreement with the ledger. */
  lemma StepAgrees(f: Flows, ledger: Ledger, e: FlowEvent)
    requires f.Numbered() && Agrees(f, ledger)
    ensures Agrees(FlowStep(f, e).0, ledger.Record(e, FlowStep(f, e).1))
  {
    match e {
      case Sent(id, qos) =>
        if qos != AtMostOnce { SentAgrees(f, ledger, id, qos); }
      case PubackIn(id) => FinishedAgrees(f, ledger, id, AwaitingPuback);
      case PubcompIn(id) => FinishedAgrees(f, ledger, id, AwaitingPubcomp);
      case PubrecIn(id, reason) => PubrecStepAgrees(f, ledger, id, reason);
      case Released(id) => ReleaseAgrees(f, ledger, id);
      case Reset =>
        assert Publishes(map[]) == map[] && Pubrels(map[]) == map[];
      case _ => OtherStepAgrees(f, ledger, e);
    }
  }

  function FlowRun(f: Flows, events: seq<FlowEvent>): Flows
    decreases |events|
  {
    if events == [] then f else FlowRun(FlowStep(f, events[0]).0, events[1..])
  }

  function LedgerRun(f: Flows, ledger: Ledger, events: seq<FlowEvent>): Ledger
    decreases |events|
  {
    if events == [] then ledger
    else
      var (g, action) := FlowStep(f, events[0]);
      LedgerRun(g, ledger.Record(events[0], action), events[1..])
  }

  lemma {:induction false} RunAgrees(f: Flows, ledger: Ledger, events: seq<FlowEvent>)
    requires f.Valid() && Agrees(f, ledger)
    ensures FlowRun(f, events).Valid()
    ensures Agrees(FlowRun(f, events), LedgerRun(f, ledger, events))
    decreases |events|
  {
    if events != [] {
      StepKeepsValid(f, events[0]);
      StepAgrees(f, ledger, events[0]);
      var (g, action) := FlowStep(f, events[0]);
      RunAgrees(g, ledger.Record(events[0], action), events[1..]);
    }
  }

  /**
   * Retransmission order. After any run, the pending list names every outgoing flow exactly once,
   * its PUBLISH entries are in original send order and its PUBREL entries in order of the first
   * successful PUBREC (section 4.6 of MQTT v5.0).
   */
  lemma RetransmissionOrder(events: seq<FlowEvent>, ids: seq<u16>)
    requires Listing(FlowRun(Flows.Empty(), events).outgoing, ids)
    ensures var f := FlowRun(Flows.Empty(), events);
            var ledger := LedgerRun(Flows.Empty(), Ledger([], []), events);
            var entries := Retransmissions(f, ids);
            && |entries| == |ids| == |f.outgoing| && Distinct(ids)
            && (forall i | 0 <= i < |ids| :: entries[i].0 == ids[i])
            && PublishIds(entries) == ledger.publishes
            && PubrelIds(entries) == ledger.pubrels
  {
    var f := FlowRun(Flows.Empty(), events);
    var ledger := LedgerRun(Flows.Empty(), Ledger([], []), events);
    RunAgrees(Flows.Empty(), Ledger([], []), events);
    ListingElements(f.outgoing, ids);
    ListingCounts(f.outgoing, ids);
    RetransmissionsDropNone(f, ids);
    ProjectionsAreListings(f, f.outgoing, ids);
    var entries := Retransmissions(f, ids);
    ListingUnique(Publishes(f.outgoing), PublishIds(entries), ledger.publishes);
    ListingUnique(Pubrels(f.outgoing), PubrelIds(entries), ledger.pubrels);
  }
}
