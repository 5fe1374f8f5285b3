/**
 * What a SUBACK and an UNSUBACK do to the active subscriptions, filter by filter, and what they return,
 * stated over the request and the reason codes.
 */
module SubscriptionAnswers {
  import opened Prelude
  import opened Subscriptions

  /** The server granted the `i`-th subscription: reason codes 0, 1 and 2 name the QoS. */
  predicate IsGranted(codes: seq<u8>, i: nat) {
    i < |codes| && codes[i] <= 2
  }

  /** The `i`-th entry with the QoS that was granted. */
  function AsGranted(entries: seq<SubscriptionEntry>, codes: seq<u8>, i: nat): SubscriptionEntry
    requires i < |entries| && IsGranted(codes, i)
  {
    entries[i].(grantedQos := Some(if codes[i] == 0 then AtMostOnce else if codes[i] == 1 then AtLeastOnce
                                   else ExactlyOnce))
  }

  /** One of the first `k` entries for this filter was granted. */
  ghost predicate GrantedBelow(entries: seq<SubscriptionEntry>, codes: seq<u8>, k: nat, filter: string) {
    exists i :: 0 <= i < k <= |entries| && IsGranted(codes, i) && entries[i].topicFilter == filter
  }

  /** Of the first `k` entries the `i`-th is the last that was granted for its filter. */
  ghost predicate IsLastGranted(entries: seq<SubscriptionEntry>, codes: seq<u8>, k: nat, i: nat) {
    && i < k <= |entries| && IsGranted(codes, i)
    && forall j | i < j < k && IsGranted(codes, j) :: entries[j].topicFilter != entries[i].topicFilter
  }

  ghost predicate Increasing(s: seq<nat>, k: nat) {
    && (forall a, b | 0 <= a < b < |s| :: s[a] < s[b])
    && forall a | 0 <= a < |s| :: s[a] < k
  }

  /** `list` is what was granted among the first `k` entries, in their order. */
  ghost predicate AreGranted(entries: seq<SubscriptionEntry>, codes: seq<u8>, k: nat, at: seq<nat>,
                             list: seq<SubscriptionEntry>) {
    && k <= |entries| == |codes| && |list| == |at| && Increasing(at, k)
    && (forall i | 0 <= i < k :: IsGranted(codes, i) <==> i in at)
    && (forall a | 0 <= a < |at| :: IsGranted(codes, at[a]) && list[a] == AsGranted(entries, codes, at[a]))
  }

  /** Active are the filters that were, and those that were granted. */
  ghost predicate GrantedAreActive(s: Subs, t: Subs, entries: seq<SubscriptionEntry>, codes: seq<u8>, k: nat) {
    forall f :: f in t.active <==> f in s.active || GrantedBelow(entries, codes, k, f)
  }

  /** The last entry that was granted for a filter is the one it has. */
  ghost predicate LastIsActive(t: Subs, entries: seq<SubscriptionEntry>, codes: seq<u8>, k: nat) {
    forall i: nat | IsLastGranted(entries, codes, k, i) ::
      entries[i].topicFilter in t.active && t.active[entries[i].topicFilter] == AsGranted(entries, codes, i)
  }

  /** A filter that was not granted keeps its entry. */
  ghost predicate OthersAreKept(s: Subs, t: Subs, entries: seq<SubscriptionEntry>, codes: seq<u8>, k: nat) {
    forall f | f in s.active && !GrantedBelow(entries, codes, k, f) :: f in t.active && t.active[f] == s.active[f]
  }

  ghost predicate ActiveAfter(s: Subs, t: Subs, entries: seq<SubscriptionEntry>, codes: seq<u8>, k: nat) {
    && GrantedAreActive(s, t, entries, codes, k) && LastIsActive(t, entries, codes, k)
    && OthersAreKept(s, t, entries, codes, k)
  }

  lemma GrantedStep(entries: seq<SubscriptionEntry>, codes: seq<u8>, k: nat, f: string)
    requires 0 < k <= |entries| == |codes|
    ensures GrantedBelow(entries, codes, k, f) <==>
            GrantedBelow(entries, codes, k - 1, f) || (codes[k - 1] <= 2 && entries[k - 1].topicFilter == f)
  {
    if GrantedBelow(entries, codes, k - 1, f) {
      var i :| 0 <= i < k - 1 && IsGranted(codes, i) && entries[i].topicFilter == f;
      assert IsGranted(codes, i);
    }
    if codes[k - 1] <= 2 && entries[k - 1].topicFilter == f {
      assert IsGranted(codes, k - 1);
    }
  }

  /** One entry is active more, if its code grants it. */
  predicate OneMore(before: Subs, t: Subs, entry: SubscriptionEntry, code: u8) {
    && (code > 2 ==> t.active == before.active)
    && (code <= 2 ==> t.active == before.active[entry.topicFilter := Granted(entry, code)])
  }

  lemma ConfirmOne(s: Subs, entries: seq<SubscriptionEntry>, codes: seq<u8>, k: nat) returns (before: Subs, t: Subs)
    requires 0 < k <= |entries| == |codes|
    ensures before == s.ConfirmUpTo(entries, codes, k - 1) && t == s.ConfirmUpTo(entries, codes, k)
    ensures OneMore(before, t, entries[k - 1], codes[k - 1])
  {
    before, t := s.ConfirmUpTo(entries, codes, k - 1), s.ConfirmUpTo(entries, codes, k);
  }

  lemma {:induction false} ConfirmedAreActive(s: Subs, entries: seq<SubscriptionEntry>, codes: seq<u8>, k: nat)
    requires k <= |entries| == |codes|
    ensures GrantedAreActive(s, s.ConfirmUpTo(entries, codes, k), entries, codes, k)
  {
    if k > 0 {
      var before, t := ConfirmOne(s, entries, codes, k);
      ConfirmedAreActive(s, entries, codes, k - 1);
      GrantedAreActiveStep(s, before, t, entries, codes, k);
    }
  }

  lemma GrantedAreActiveStep(s: Subs, before: Subs, t: Subs, entries: seq<SubscriptionEntry>, codes: seq<u8>, k: nat)
    requires 0 < k <= |entries| == |codes| && GrantedAreActive(s, before, entries, codes, k - 1)
    requires OneMore(before, t, entries[k - 1], codes[k - 1])
    ensures GrantedAreActive(s, t, entries, codes, k)
  {
    forall f
      ensures f in t.active <==> f in s.active || GrantedBelow(entries, codes, k, f)
    {
      GrantedStep(entries, codes, k, f);
    }
  }

  lemma {:induction false} LastConfirmedIsActive(s: Subs, entries: seq<SubscriptionEntry>, codes: seq<u8>, k: nat)
    requires k <= |entries| == |codes|
    ensures LastIsActive(s.ConfirmUpTo(entries, codes, k), entries, codes, k)
  {
    if k > 0 {
      var before, t := ConfirmOne(s, entries, codes, k);
      LastConfirmedIsActive(s, entries, codes, k - 1);
      LastIsActiveStep(before, t, entries, codes, k);
    }
  }

  lemma LastIsActiveStep(before: Subs, t: Subs, entries: seq<SubscriptionEntry>, codes: seq<u8>, k: nat)
    requires 0 < k <= |entries| == |codes| && LastIsActive(before, entries, codes, k - 1)
    requires OneMore(before, t, entries[k - 1], codes[k - 1])
    ensures LastIsActive(t, entries, codes, k)
  {
    forall i: nat | IsLastGranted(entries, codes, k, i)
      ensures entries[i].topicFilter in t.active
      ensures t.active[entries[i].topicFilter] == AsGranted(entries, codes, i)
    {
      if i == k - 1 {
        assert Granted(entries[i], codes[i]) == AsGranted(entries, codes, i);
      } else {
        assert IsLastGranted(entries, codes, k - 1, i);
        assert codes[k - 1] <= 2 ==> IsGranted(codes, k - 1);
      }
    }
  }

  lemma {:induction false} OthersStayActive(s: Subs, entries: seq<SubscriptionEntry>, codes: seq<u8>, k: nat)
    requires k <= |entries| == |codes|
    ensures OthersAreKept(s, s.ConfirmUpTo(entries, codes, k), entries, codes, k)
  {
    if k > 0 {
      var before, t := ConfirmOne(s, entries, codes, k);
      OthersStayActive(s, entries, codes, k - 1);
      OthersAreKeptStep(s, before, t, entries, codes, k);
    }
  }

  lemma OthersAreKeptStep(s: Subs, before: Subs, t: Subs, entries: seq<SubscriptionEntry>, codes: seq<u8>, k: nat)
    requires 0 < k <= |entries| == |codes| && OthersAreKept(s, before, entries, codes, k - 1)
    requires OneMore(before, t, entries[k - 1], codes[k - 1])
    ensures OthersAreKept(s, t, entries, codes, k)
  {
    forall f | f in s.active && !GrantedBelow(entries, codes, k, f)
      ensures f in t.active && t.active[f] == s.active[f]
    {
      GrantedStep(entries, codes, k, f);
    }
  }

  lemma {:induction false} AcceptedAreGranted(entries: seq<SubscriptionEntry>, codes: seq<u8>, k: nat)
    returns (at: seq<nat>)
    requires k <= |entries| == |codes|
    ensures AreGranted(entries, codes, k, at, Accepted(entries, codes, k))
  {
    if k == 0 {
      at := [];
    } else {
      at := AcceptedAreGranted(entries, codes, k - 1);
      AcceptedStep(entries, codes, k, at, Accepted(entries, codes, k - 1));
      if codes[k - 1] <= 2 {
        at := at + [k - 1];
      }
    }
  }

  lemma IncreasingSnoc(at: seq<nat>, k: nat)
    requires k > 0 && Increasing(at, k - 1)
    ensures Increasing(at, k) && Increasing(at + [k - 1], k)
    ensures forall i :: i in at + [k - 1] <==> i in at || i == k - 1
  {
  }

  lemma AcceptedStep(entries: seq<SubscriptionEntry>, codes: seq<u8>, k: nat, at: seq<nat>,
                     list: seq<SubscriptionEntry>)
    requires 0 < k <= |entries| == |codes| && AreGranted(entries, codes, k - 1, at, list)
    ensures codes[k - 1] > 2 ==> AreGranted(entries, codes, k, at, list)
    ensures codes[k - 1] <= 2 ==>
              AreGranted(entries, codes, k, at + [k - 1], list + [Granted(entries[k - 1], codes[k - 1])])
  {
    IncreasingSnoc(at, k);
    if codes[k - 1] <= 2 {
      var last := Granted(entries[k - 1], codes[k - 1]);
      assert last == AsGranted(entries, codes, k - 1);
      var now, more := at + [k - 1], list + [last];
      forall a | 0 <= a < |now|
        ensures IsGranted(codes, now[a]) && more[a] == AsGranted(entries, codes, now[a])
      {
        if a < |at| {
          assert now[a] == at[a] && more[a] == list[a];
        }
      }
    }
  }

  /**
   * A SUBACK with one code for each entry: a filter is active afterwards if and only if it was active or
   * was granted; it then has the entry that was granted last, with the QoS of its code; every other filter
   * keeps its entry; and the granted entries are returned in the order of the request.
   */
  lemma SubackGrants(s: Subs, packetId: u16, codes: seq<u8>)
    requires packetId in s.pendingSubscribes && |s.pendingSubscribes[packetId]| == |codes|
    ensures var entries := s.pendingSubscribes[packetId];
            var (t, r) := s.SubackReceived(packetId, codes);
            && ActiveAfter(s, t, entries, codes, |entries|)
            && r.Some? && exists at :: AreGranted(entries, codes, |entries|, at, r.value)
  {
    var entries := s.pendingSubscribes[packetId];
    var dropped := s.DropPendingSubscribe(packetId);
    ConfirmedAreActive(dropped, entries, codes, |entries|);
    LastConfirmedIsActive(dropped, entries, codes, |entries|);
    OthersStayActive(dropped, entries, codes, |entries|);
    var at := AcceptedAreGranted(entries, codes, |entries|);
  }

  /** Any other SUBACK makes nothing active, and answers a request only when it has one code for each entry. */
  lemma OtherSubackGrantsNothing(s: Subs, packetId: u16, codes: seq<u8>)
    requires packetId in s.pendingSubscribes ==> |s.pendingSubscribes[packetId]| != |codes|
    ensures var (t, r) := s.SubackReceived(packetId, codes);
            r == None && t == s.(pendingSubscribes := s.pendingSubscribes - {packetId})
  {
    if packetId !in s.pendingSubscribes {
      assert s.pendingSubscribes - {packetId} == s.pendingSubscribes;
    }
  }

  /** A request waits under its identifier as it was sent; without identifier or entries there is none. */
  lemma RequestsWait(s: Subs, id: u16, entries: seq<SubscriptionEntry>, filters: seq<string>)
    ensures s.SubscribeSent(id, entries) == s.(pendingSubscribes :=
              if id == 0 || entries == [] then s.pendingSubscribes else s.pendingSubscribes[id := entries])
    ensures s.UnsubscribeSent(id, filters) == s.(pendingUnsubscribes :=
              if id == 0 || filters == [] then s.pendingUnsubscribes else s.pendingUnsubscribes[id := filters])
    ensures s.DropPendingSubscribe(id) == s.(pendingSubscribes := s.pendingSubscribes - {id})
    ensures s.DropPendingUnsubscribe(id) == s.(pendingUnsubscribes := s.pendingUnsubscribes - {id})
  {
  }

  // -- UNSUBACK -----------------------------------------------------------------------------------

  /** The server has no such subscription any more: it says so with 0x00 or 0x11, or says nothing. */
  predicate IsGone(codes: seq<u8>, i: nat) {
    codes == [] || (i < |codes| && (codes[i] == 0x00 || codes[i] == 0x11))
  }

  ghost predicate GoneBelow(filters: seq<string>, codes: seq<u8>, k: nat, filter: string) {
    exists i :: 0 <= i < k <= |filters| && IsGone(codes, i) && filters[i] == filter
  }

  ghost predicate KeptAfter(s: Subs, t: Subs, filters: seq<string>, codes: seq<u8>, k: nat) {
    && (forall f :: f in t.active <==> f in s.active && !GoneBelow(filters, codes, k, f))
    && (forall f | f in t.active :: f in s.active && t.active[f] == s.active[f])
  }

  lemma GoneStep(filters: seq<string>, codes: seq<u8>, k: nat, f: string)
    requires 0 < k <= |filters| && (codes == [] || |codes| == |filters|)
    ensures GoneBelow(filters, codes, k, f) <==>
            GoneBelow(filters, codes, k - 1, f) || (IsGone(codes, k - 1) && filters[k - 1] == f)
  {
    if GoneBelow(filters, codes, k - 1, f) {
      var i :| 0 <= i < k - 1 && IsGone(codes, i) && filters[i] == f;
      assert IsGone(codes, i);
    }
  }

  lemma {:induction false} RemovesGone(s: Subs, filters: seq<string>, codes: seq<u8>, k: nat)
    requires k <= |filters| && (codes == [] || |codes| == |filters|)
    ensures KeptAfter(s, s.RemoveUpTo(filters, codes, k), filters, codes, k)
  {
    if k > 0 {
      RemovesGone(s, filters, codes, k - 1);
      assert GoneOnServer(codes, k - 1) <==> IsGone(codes, k - 1);
      forall f
        ensures GoneBelow(filters, codes, k, f) <==>
                GoneBelow(filters, codes, k - 1, f) || (IsGone(codes, k - 1) && filters[k - 1] == f)
      {
        GoneStep(filters, codes, k, f);
      }
    }
  }

  /** `list` names the filters that were active and gone among the first `k`, each where it came first. */
  ghost predicate AreRemoved(s: Subs, filters: seq<string>, codes: seq<u8>, k: nat, at: seq<nat>, list: seq<string>) {
    && k <= |filters| && |list| == |at| && Increasing(at, k)
    && (forall a | 0 <= a < |at| :: IsGone(codes, at[a]) && list[a] == filters[at[a]] && list[a] in s.active)
    && (forall a | 0 <= a < |at| :: !GoneBelow(filters, codes, at[a], list[a]))
    && (forall f | f in s.active && GoneBelow(filters, codes, k, f) :: f in list)
  }

  lemma {:induction false} RemovedAreGone(s: Subs, filters: seq<string>, codes: seq<u8>, k: nat)
    returns (at: seq<nat>)
    requires k <= |filters| && (codes == [] || |codes| == |filters|)
    ensures AreRemoved(s, filters, codes, k, at, s.Removed(filters, codes, k))
  {
    if k == 0 {
      at := [];
    } else {
      at := RemovedAreGone(s, filters, codes, k - 1);
      RemovesGone(s, filters, codes, k - 1);
      var f := filters[k - 1];
      var before := s.RemoveUpTo(filters, codes, k - 1);
      var isRemoved := GoneOnServer(codes, k - 1) && f in before.active;
      if isRemoved {
        RemovedGrows(s, filters, codes, k, at, s.Removed(filters, codes, k - 1));
        at := at + [k - 1];
      } else {
        RemovedStays(s, filters, codes, k, at, s.Removed(filters, codes, k - 1));
      }
    }
  }

  lemma RemovedStays(s: Subs, filters: seq<string>, codes: seq<u8>, k: nat, at: seq<nat>, list: seq<string>)
    requires 0 < k <= |filters| && (codes == [] || |codes| == |filters|)
    requires AreRemoved(s, filters, codes, k - 1, at, list)
    requires IsGone(codes, k - 1) && filters[k - 1] in s.active ==> GoneBelow(filters, codes, k - 1, filters[k - 1])
    ensures AreRemoved(s, filters, codes, k, at, list)
  {
    IncreasingSnoc(at, k);
    RemovedCovers(s, filters, codes, k, list, list);
  }

  lemma RemovedGrows(s: Subs, filters: seq<string>, codes: seq<u8>, k: nat, at: seq<nat>, list: seq<string>)
    requires 0 < k <= |filters| && (codes == [] || |codes| == |filters|)
    requires AreRemoved(s, filters, codes, k - 1, at, list)
    requires IsGone(codes, k - 1) && filters[k - 1] in s.active
    requires !GoneBelow(filters, codes, k - 1, filters[k - 1])
    ensures AreRemoved(s, filters, codes, k, at + [k - 1], list + [filters[k - 1]])
  {
    var now, more := at + [k - 1], list + [filters[k - 1]];
    IncreasingSnoc(at, k);
    RemovedCovers(s, filters, codes, k, list, more);
    forall a | 0 <= a < |now|
      ensures IsGone(codes, now[a]) && more[a] == filters[now[a]] && more[a] in s.active
      ensures !GoneBelow(filters, codes, now[a], more[a])
    {
      if a < |at| {
        assert now[a] == at[a] && more[a] == list[a];
      }
    }
  }

  lemma RemovedCovers(s: Subs, filters: seq<string>, codes: seq<u8>, k: nat, list: seq<string>, more: seq<string>)
    requires 0 < k <= |filters| && (codes == [] || |codes| == |filters|)
    requires forall f | f in s.active && GoneBelow(filters, codes, k - 1, f) :: f in list
    requires forall f | f in list :: f in more
    requires IsGone(codes, k - 1) && filters[k - 1] in s.active ==> filters[k - 1] in more
    ensures forall f | f in s.active && GoneBelow(filters, codes, k, f) :: f in more
  {
    forall f | f in s.active && GoneBelow(filters, codes, k, f)
      ensures f in more
    {
      GoneStep(filters, codes, k, f);
    }
  }

  /** Each filter is named once. */
  lemma RemovedOnce(s: Subs, filters: seq<string>, codes: seq<u8>, k: nat, at: seq<nat>, list: seq<string>)
    requires AreRemoved(s, filters, codes, k, at, list)
    ensures Distinct(list)
  {
    forall a, b | 0 <= a < b < |list|
      ensures list[a] != list[b]
    {
      assert IsGone(codes, at[a]) && filters[at[a]] == list[a];
    }
  }

  /**
   * An UNSUBACK without codes, or with one for each filter: a subscription is gone afterwards if and only
   * if it was asked for and the server has none; the others keep their entries; and those that were active
   * are returned, each once, in the order of the request.
   */
  lemma UnsubackRemoves(s: Subs, packetId: u16, codes: seq<u8>)
    requires packetId in s.pendingUnsubscribes && (codes == [] || |codes| == |s.pendingUnsubscribes[packetId]|)
    ensures var filters := s.pendingUnsubscribes[packetId];
            var (t, r) := s.UnsubackReceived(packetId, codes);
            && KeptAfter(s, t, filters, codes, |filters|)
            && r.Some? && Distinct(r.value)
            && (exists at :: AreRemoved(s, filters, codes, |filters|, at, r.value))
            && (forall f :: f in r.value <==> f in s.active && f !in t.active)
  {
    var filters := s.pendingUnsubscribes[packetId];
    var dropped := s.DropPendingUnsubscribe(packetId);
    RemovesGone(dropped, filters, codes, |filters|);
    var at := RemovedAreGone(dropped, filters, codes, |filters|);
    var list := dropped.Removed(filters, codes, |filters|);
    RemovedOnce(dropped, filters, codes, |filters|, at, list);
    assert AreRemoved(s, filters, codes, |filters|, at, list);
    forall f | f in list
      ensures GoneBelow(filters, codes, |filters|, f)
    {
      var a :| 0 <= a < |list| && list[a] == f;
      assert IsGone(codes, at[a]) && filters[at[a]] == f;
    }
  }

  lemma OtherUnsubackRemovesNothing(s: Subs, packetId: u16, codes: seq<u8>)
    requires packetId in s.pendingUnsubscribes ==> codes != [] && |codes| != |s.pendingUnsubscribes[packetId]|
    ensures var (t, r) := s.UnsubackReceived(packetId, codes);
            r == None && t == s.(pendingUnsubscribes := s.pendingUnsubscribes - {packetId})
  {
    if packetId !in s.pendingUnsubscribes {
      assert s.pendingUnsubscribes - {packetId} == s.pendingUnsubscribes;
    }
  }
}
