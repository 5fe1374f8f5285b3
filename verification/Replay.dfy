/** Replaying unacknowledged PUBLISH packets on a resumed session (sections 4.4 and 4.9 of MQTT v5.0). */
module Replay {
  import opened Prelude
  import opened FlowControls
  import opened QosFlow
  import opened FlowRuns
  import opened SessionSpec
  import opened SessionInvariants

  type Outcome = Result<Option<Action>, FlowControlError>

  /** `resend_publish` on each identifier in turn. */
  function Walk(s: SessionState, ids: seq<u16>): (SessionState, seq<Outcome>)
    decreases |ids|
  {
    if ids == [] then (s, [])
    else
      var (t, r) := s.ResendPublish(ids[0]);
      var (u, rs) := Walk(t, ids[1..]);
      (u, [r] + rs)
  }

  predicate IsWaiting(s: SessionState, id: u16) {
    id in s.flows.outgoing && IsPublish(s.flows.outgoing[id].state)
  }

  /** How many of `n` identifiers the free part of the send window admits. */
  function Admitted(s: SessionState, n: nat): (m: nat)
    requires s.window.outstanding <= s.window.receiveMaximum
    ensures m <= n && s.window.outstanding + m <= s.window.receiveMaximum
    ensures m == n || s.window.outstanding + m == s.window.receiveMaximum
  {
    var free := s.window.receiveMaximum - s.window.outstanding;
    if n <= free then n else free
  }

  /** `s` with the flows of `ids` charged. */
  function Charging(s: SessionState, ids: seq<u16>): SessionState
    requires s.window.outstanding + |ids| < 0x1_0000
  {
    s.(window := s.window.(outstanding := s.window.outstanding + |ids|),
       flows := s.flows.(outgoing := map id | id in s.flows.outgoing ::
         s.flows.outgoing[id].(charged := s.flows.outgoing[id].charged || id in ids)))
  }

  lemma ChargingNone(s: SessionState)
    ensures Charging(s, []) == s
  {
    assert Charging(s, []).flows.outgoing == s.flows.outgoing;
  }

  lemma ChargingOne(s: SessionState, ids: seq<u16>)
    requires s.window.outstanding + |ids| < 0x1_0000 && ids != [] && IsWaiting(s, ids[0])
    requires s.window.CanSend() && !s.flows.IsCharged(ids[0])
    ensures Charging(s.ResendPublish(ids[0]).0, ids[1..]) == Charging(s, ids)
  {
    var a, b := Charging(s.ResendPublish(ids[0]).0, ids[1..]), Charging(s, ids);
    assert a.flows.outgoing == b.flows.outgoing;
  }

  /**
   * The walk over flows without a unit: the window admits the first ones, in order, and no other;
   * exactly those are charged and nothing else changes.
   */
  lemma {:induction false} WalkCharges(s: SessionState, ids: seq<u16>)
    requires Distinct(ids) && s.window.outstanding <= s.window.receiveMaximum
    requires forall i | 0 <= i < |ids| :: IsWaiting(s, ids[i]) && !s.flows.IsCharged(ids[i])
    ensures var m := Admitted(s, |ids|);
            var (t, rs) := Walk(s, ids);
            && t == Charging(s, ids[..m])
            && |rs| == |ids|
            && (forall i | 0 <= i < m :: rs[i] == Ok(Some(Action.ResendPublish(ids[i]))))
            && (forall i | m <= i < |ids| :: rs[i] == Err(ReceiveMaximumExceeded))
    decreases |ids|
  {
    var m := Admitted(s, |ids|);
    if ids == [] || m == 0 {
      assert ids[..m] == [];
      ChargingNone(s);
      if ids != [] {
        WalkCharges(s, ids[1..]);
        assert ids[1..][..0] == [];
      }
    } else {
      var (t, r) := s.ResendPublish(ids[0]);
      WalkCharges(t, ids[1..]);
      ChargingOne(s, ids[..m]);
      assert ids[..m][1..] == ids[1..][..m - 1];
      assert ids[..m][0] == ids[0];
    }
  }

  /** The answer to resending a flow that holds its unit already. */
  function Repeated(version: Version, id: u16): Outcome {
    Ok(if version == V5 then None else Some(Action.ResendPublish(id)))
  }

  /** The walk over charged flows followed by flows that find the window full changes nothing. */
  lemma {:induction false} WalkAgain(s: SessionState, ids: seq<u16>, m: nat)
    requires m <= |ids| && (m == |ids| || !s.window.CanSend())
    requires forall i | 0 <= i < |ids| :: IsWaiting(s, ids[i]) && (s.flows.IsCharged(ids[i]) <==> i < m)
    ensures var (t, rs) := Walk(s, ids);
            && t == s && |rs| == |ids|
            && (forall i | 0 <= i < m :: rs[i] == Repeated(s.version, ids[i]))
            && (forall i | m <= i < |ids| :: rs[i] == Err(ReceiveMaximumExceeded))
    decreases |ids|
  {
    if ids != [] {
      WalkAgain(s, ids[1..], if m == 0 then 0 else m - 1);
    }
  }

  lemma SecondWalk(s: SessionState, ids: seq<u16>)
    requires Distinct(ids) && s.window.outstanding <= s.window.receiveMaximum
    requires forall i | 0 <= i < |ids| :: IsWaiting(s, ids[i]) && !s.flows.IsCharged(ids[i])
    ensures var m := Admitted(s, |ids|);
            var t := Walk(s, ids).0;
            && Walk(t, ids).0 == t
            && |Walk(t, ids).1| == |ids|
            && forall i | 0 <= i < |ids| ::
                 Walk(t, ids).1[i] == if i < m then Repeated(s.version, ids[i]) else Err(ReceiveMaximumExceeded)
  {
    var m := Admitted(s, |ids|);
    WalkCharges(s, ids);
    var t := Walk(s, ids).0;
    forall i | 0 <= i < |ids|
      ensures IsWaiting(t, ids[i]) && (t.flows.IsCharged(ids[i]) <==> i < m)
    {
      assert ids[i] in ids[..m] <==> i < m;
    }
    WalkAgain(t, ids, m);
  }

  /** The session once the server has resumed it with the CONNACK `p`. */
  function Resumed(s: SessionState, p: ConnackParams): SessionState {
    s.ConnectSent().ApplyConnack(p).0
  }

  predicate Resumes(s: SessionState, p: ConnackParams) {
    p.sessionPresent && s.ConnectSent().ConnackRefusal(p).None?
  }

  lemma ResumedState(s: SessionState, p: ConnackParams)
    requires Resumes(s, p)
    ensures var t := Resumed(s, p);
            && t.connection == Connected
            && t.flows == s.flows.ClearCharges()
            && t.window.outstanding == 0
            && t.window.receiveMaximum == OrElse(p.receiveMaximum, DEFAULT_MAXIMUM)
            && t.ids == s.ids && t.subs == s.subs && t.version == s.version
  {
  }

  /** The PUBLISH entries of a list of pending retransmissions are waiting flows, each named once. */
  lemma {:induction false} PublishIdsAreWaiting(s: SessionState, ids: seq<u16>)
    requires s.flows.Numbered() && Distinct(ids)
    requires forall i | 0 <= i < |ids| :: ids[i] in s.flows.outgoing
    ensures var publishes := PublishIds(Retransmissions(s.flows, ids));
            && Distinct(publishes)
            && (forall i | 0 <= i < |publishes| :: IsWaiting(s, publishes[i]) && publishes[i] in ids)
    decreases |ids|
  {
    if ids != [] {
      var id, rest := ids[0], ids[1..];
      PublishIdsAreWaiting(s, rest);
      assert Retransmissions(s.flows, ids)[1..] == Retransmissions(s.flows, rest);
      assert id !in rest;
    }
  }

  /**
   * Replay. After a reconnect that resumes the session under Receive Maximum `r`, resending the `k`
   * pending PUBLISH packets succeeds for exactly the first min(k, r) in the order they were first
   * sent; those units and no other are counted; and a second walk over the list charges nothing
   * more, in either version of the protocol.
   */
  lemma ReplayAfterReconnect(s: SessionState, p: ConnackParams, ids: seq<u16>)
    requires Wellformed(s) && Resumes(s, p) && Listing(Resumed(s, p).flows.outgoing, ids)
    ensures var publishes := PublishIds(Retransmissions(Resumed(s, p).flows, ids));
            var r, k := OrElse(p.receiveMaximum, DEFAULT_MAXIMUM), |publishes|;
            var m := if k <= r then k else r;
            var (t, first) := Walk(Resumed(s, p), publishes);
            var (u, second) := Walk(t, publishes);
            && t.window.outstanding == m && u == t
            && |first| == |second| == k
            && (forall i | 0 <= i < m :: first[i] == Ok(Some(Action.ResendPublish(publishes[i]))))
            && (forall i | 0 <= i < m :: second[i] == Repeated(s.version, publishes[i]))
            && (forall i | m <= i < k :: first[i] == second[i] == Err(ReceiveMaximumExceeded))
  {
    var t := Resumed(s, p);
    ResumedState(s, p);
    ListingCounts(t.flows.outgoing, ids);
    ListingElements(t.flows.outgoing, ids);
    assert t.flows.Numbered();
    PublishIdsAreWaiting(t, ids);
    var publishes := PublishIds(Retransmissions(t.flows, ids));
    WalkCharges(t, publishes);
    SecondWalk(t, publishes);
  }

  lemma {:induction false} RunAppend(s: SessionState, a: seq<Event>, b: seq<Event>)
    ensures Run(s, a + b) == Run(Run(s, a), b)
    decreases |a|
  {
    if a == [] {
      assert a + b == b;
    } else {
      assert (a + b)[1..] == a[1..] + b;
      RunAppend(Step(s, a[0]), a[1..], b);
    }
  }

  /** The list that is replayed is the ledger of unacknowledged PUBLISH packets of the whole run. */
  lemma ReplayFollowsSendOrder(s: SessionState, events: seq<Event>, p: ConnackParams, ids: seq<u16>)
    requires s.flows == Flows.Empty() && Listing(Resumed(Run(s, events), p).flows.outgoing, ids)
    ensures PublishIds(Retransmissions(Resumed(Run(s, events), p).flows, ids))
            == LedgerRun(Flows.Empty(), Ledger([], []),
                         FlowTrace(s, events + [Event.ConnectSent, ConnackReceived(p)])).publishes
  {
    var reconnect := [Event.ConnectSent, ConnackReceived(p)];
    var t := Run(s, events);
    RunAppend(s, events, reconnect);
    assert reconnect[1..] == [ConnackReceived(p)] && reconnect[1..][1..] == [];
    assert Run(t, reconnect) == Run(Step(t, reconnect[0]), reconnect[1..]) == Run(Resumed(t, p), []);
    SessionRetransmissionOrder(s, events + reconnect, ids);
  }
}
