/** Active and pending subscriptions and the index by Subscription Identifier (src/state/subscribe.rs). */
module Subscriptions {
  import opened Prelude

  datatype RetainHandling = SendRetained | SendRetainedIfNotExists | DoNotSendRetained

  datatype SubscriptionEntry = SubscriptionEntry(
    topicFilter: string,
    requestedQos: QoS,
    grantedQos: Option<QoS>,
    noLocal: bool,
    retainAsPublished: bool,
    retainHandling: RetainHandling,
    subscriptionIdentifier: Option<u32>)

  type Index = map<u32, seq<string>>

  datatype Subs = Subs(
    active: map<string, SubscriptionEntry>,
    pendingSubscribes: map<u16, seq<SubscriptionEntry>>,
    pendingUnsubscribes: map<u16, seq<string>>,
    ids: Index)
  {
    static function Empty(): Subs {
      Subs(map[], map[], map[], map[])
    }

    function SubscribeSent(packetId: u16, entries: seq<SubscriptionEntry>): Subs {
      if packetId == 0 || entries == [] then this
      else this.(pendingSubscribes := pendingSubscribes[packetId := entries])
    }

    function UnsubscribeSent(packetId: u16, filters: seq<string>): Subs {
      if packetId == 0 || filters == [] then this
      else this.(pendingUnsubscribes := pendingUnsubscribes[packetId := filters])
    }

    function DropPendingSubscribe(packetId: u16): Subs {
      this.(pendingSubscribes := pendingSubscribes - {packetId})
    }

    function DropPendingUnsubscribe(packetId: u16): Subs {
      this.(pendingUnsubscribes := pendingUnsubscribes - {packetId})
    }

    /** The index without what it says about an active subscription to `filter`. */
    function Unindexed(filter: string): Index {
      if filter in active && active[filter].subscriptionIdentifier.Some?
      then RemoveFromIndex(ids, filter, active[filter].subscriptionIdentifier.value)
      else ids
    }

    /** One accepted subscription: it replaces an older one to the same filter. */
    function Confirm(entry: SubscriptionEntry): Subs {
      this.(active := active[entry.topicFilter := entry],
            ids := match entry.subscriptionIdentifier
                   case Some(id) => AddToIndex(Unindexed(entry.topicFilter), entry.topicFilter, id)
                   case None => Unindexed(entry.topicFilter))
    }

    /** The effect of the first `k` reason codes of a SUBACK. */
    function ConfirmUpTo(entries: seq<SubscriptionEntry>, codes: seq<u8>, k: nat): Subs
      requires k <= |entries| == |codes|
    {
      if k == 0 then this
      else
        var before := ConfirmUpTo(entries, codes, k - 1);
        if codes[k - 1] <= 2 then before.Confirm(Granted(entries[k - 1], codes[k - 1])) else before
    }

    function SubackReceived(packetId: u16, codes: seq<u8>): (Subs, Option<seq<SubscriptionEntry>>) {
      if packetId !in pendingSubscribes then (this, None)
      else
        var entries := pendingSubscribes[packetId];
        var dropped := DropPendingSubscribe(packetId);
        if |codes| != |entries| then (dropped, None)
        else (dropped.ConfirmUpTo(entries, codes, |entries|), Some(Accepted(entries, codes, |entries|)))
    }

    function Remove(filter: string): Subs {
      this.(active := active - {filter}, ids := Unindexed(filter))
    }

    function RemoveUpTo(filters: seq<string>, codes: seq<u8>, k: nat): Subs
      requires k <= |filters| && (codes == [] || |codes| == |filters|)
    {
      if k == 0 then this
      else
        var before := RemoveUpTo(filters, codes, k - 1);
        if GoneOnServer(codes, k - 1) then before.Remove(filters[k - 1]) else before
    }

    /** The filters a UNSUBACK removed locally: gone on the server and active when its turn came. */
    function Removed(filters: seq<string>, codes: seq<u8>, k: nat): seq<string>
      requires k <= |filters| && (codes == [] || |codes| == |filters|)
    {
      if k == 0 then []
      else
        var before := RemoveUpTo(filters, codes, k - 1);
        Removed(filters, codes, k - 1) +
        if GoneOnServer(codes, k - 1) && filters[k - 1] in before.active then [filters[k - 1]] else []
    }

    function UnsubackReceived(packetId: u16, codes: seq<u8>): (Subs, Option<seq<string>>) {
      if packetId !in pendingUnsubscribes then (this, None)
      else
        var filters := pendingUnsubscribes[packetId];
        var dropped := DropPendingUnsubscribe(packetId);
        if codes != [] && |codes| != |filters| then (dropped, None)
        else (dropped.RemoveUpTo(filters, codes, |filters|), Some(dropped.Removed(filters, codes, |filters|)))
    }

    /** `find_by_subscription_identifier`. */
    function Find(id: u32): seq<SubscriptionEntry> {
      if id in ids then Lookup(ids[id]) else []
    }

    function Lookup(filters: seq<string>): seq<SubscriptionEntry> {
      if filters == [] then []
      else (if filters[0] in active then [active[filters[0]]] else []) + Lookup(filters[1..])
    }

    /** What a linear scan of the active subscriptions finds. */
    ghost function Scan(id: u32): set<SubscriptionEntry> {
      set f | f in active && active[f].subscriptionIdentifier == Some(id) :: active[f]
    }

    ghost predicate Listed(filter: string, id: u32) {
      id in ids && filter in ids[id]
    }

    ghost predicate HasIdentifier(filter: string, id: u32) {
      filter in active && active[filter].subscriptionIdentifier == Some(id)
    }

    /** The index says exactly what the active subscriptions say. */
    ghost predicate IndexExact() {
      && (forall f | f in active :: active[f].topicFilter == f)
      && (forall id | id in ids :: ids[id] != [] && Distinct(ids[id]))
      && (forall f, id :: Listed(f, id) <==> HasIdentifier(f, id))
    }
  }

  function RemoveFromIndex(ids: Index, filter: string, id: u32): Index {
    if id !in ids then ids
    else if Without(ids[id], filter) == [] then ids - {id}
    else ids[id := Without(ids[id], filter)]
  }

  function AddToIndex(ids: Index, filter: string, id: u32): Index {
    ids[id := (if id in ids then ids[id] else []) + [filter]]
  }

  function Granted(entry: SubscriptionEntry, code: u8): SubscriptionEntry {
    entry.(grantedQos := QoSOf(code))
  }

  function Accepted(entries: seq<SubscriptionEntry>, codes: seq<u8>, k: nat): seq<SubscriptionEntry>
    requires k <= |entries| == |codes|
  {
    if k == 0 then []
    else Accepted(entries, codes, k - 1) +
         if codes[k - 1] <= 2 then [Granted(entries[k - 1], codes[k - 1])] else []
  }

  /** MQTT v3.1.1 sends no codes; in v5.0 both 0x00 and 0x11 mean the server has no such subscription. */
  predicate GoneOnServer(codes: seq<u8>, k: nat)
    requires codes == [] || k < |codes|
  {
    codes == [] || codes[k] == 0x00 || codes[k] == 0x11
  }

  // ------------------------------------------------------------------------------------------
  // The index stays exact.
  // ------------------------------------------------------------------------------------------

  lemma {:induction false} WithoutDistinct(s: seq<string>, x: string)
    requires Distinct(s)
    ensures Distinct(Without(s, x))
    decreases |s|
  {
    if s != [] {
      WithoutDistinct(s[1..], x);
      var rest := Without(s[1..], x);
      assert forall k | 0 <= k < |s[1..]| :: s[1..][k] == s[k + 1] != s[0];
      assert forall k | 0 <= k < |rest| :: rest[k] in s[1..];
    }
  }

  /** Taking `filter` out of the index removes exactly its entry. */
  lemma UnindexedExact(s: Subs, filter: string)
    requires s.IndexExact()
    ensures var ids := s.Unindexed(filter);
            && (forall id | id in ids :: ids[id] != [] && Distinct(ids[id]))
            && (forall f, id :: id in ids && f in ids[id] <==> s.HasIdentifier(f, id) && f != filter)
  {
    var ids := s.Unindexed(filter);
    if filter in s.active && s.active[filter].subscriptionIdentifier.Some? {
      var old_ := s.active[filter].subscriptionIdentifier.value;
      assert s.HasIdentifier(filter, old_) && s.Listed(filter, old_);
      WithoutDistinct(s.ids[old_], filter);
    }
    forall f, id
      ensures id in ids && f in ids[id] <==> s.HasIdentifier(f, id) && f != filter
    {
      assert s.Listed(f, id) <==> s.HasIdentifier(f, id);
    }
  }

  lemma ConfirmKeepsIndex(s: Subs, entry: SubscriptionEntry)
    requires s.IndexExact()
    ensures s.Confirm(entry).IndexExact()
  {
    UnindexedExact(s, entry.topicFilter);
    var t, base := s.Confirm(entry), s.Unindexed(entry.topicFilter);
    forall f, id
      ensures t.Listed(f, id) <==> t.HasIdentifier(f, id)
    {
      assert id in base && f in base[id] <==> s.HasIdentifier(f, id) && f != entry.topicFilter;
    }
    forall id | id in t.ids
      ensures t.ids[id] != [] && Distinct(t.ids[id])
    {
      if id in base {
        assert entry.topicFilter !in base[id];
      }
    }
  }

  lemma RemoveKeepsIndex(s: Subs, filter: string)
    requires s.IndexExact()
    ensures s.Remove(filter).IndexExact()
  {
    UnindexedExact(s, filter);
    var t := s.Remove(filter);
    forall f, id
      ensures t.Listed(f, id) <==> t.HasIdentifier(f, id)
    {
      assert id in t.ids && f in t.ids[id] <==> s.HasIdentifier(f, id) && f != filter;
    }
  }

  lemma {:induction false} ConfirmUpToKeepsIndex(s: Subs, entries: seq<SubscriptionEntry>, codes: seq<u8>, k: nat)
    requires k <= |entries| == |codes| && s.IndexExact()
    ensures s.ConfirmUpTo(entries, codes, k).IndexExact()
    ensures var t := s.ConfirmUpTo(entries, codes, k);
            t.pendingSubscribes == s.pendingSubscribes && t.pendingUnsubscribes == s.pendingUnsubscribes
  {
    if k > 0 {
      ConfirmUpToKeepsIndex(s, entries, codes, k - 1);
      ConfirmKeepsIndex(s.ConfirmUpTo(entries, codes, k - 1), Granted(entries[k - 1], codes[k - 1]));
    }
  }

  lemma {:induction false} RemoveUpToKeepsIndex(s: Subs, filters: seq<string>, codes: seq<u8>, k: nat)
    requires k <= |filters| && (codes == [] || |codes| == |filters|) && s.IndexExact()
    ensures s.RemoveUpTo(filters, codes, k).IndexExact()
    ensures var t := s.RemoveUpTo(filters, codes, k);
            t.pendingSubscribes == s.pendingSubscribes && t.pendingUnsubscribes == s.pendingUnsubscribes
  {
    if k > 0 {
      RemoveUpToKeepsIndex(s, filters, codes, k - 1);
      RemoveKeepsIndex(s.RemoveUpTo(filters, codes, k - 1), filters[k - 1]);
    }
  }

  /** A SUBACK or UNSUBACK touches one pending request and keeps the index exact, whatever its codes. */
  lemma SubackKeepsIndex(s: Subs, packetId: u16, codes: seq<u8>)
    requires s.IndexExact()
    ensures var t := s.SubackReceived(packetId, codes).0;
            && t.IndexExact()
            && t.pendingSubscribes == s.pendingSubscribes - {packetId}
            && t.pendingUnsubscribes == s.pendingUnsubscribes
  {
    var dropped := s.DropPendingSubscribe(packetId);
    assert dropped.IndexExact() by {
      assert forall f, id :: dropped.Listed(f, id) <==> s.Listed(f, id);
      assert forall f, id :: dropped.HasIdentifier(f, id) <==> s.HasIdentifier(f, id);
    }
    if packetId in s.pendingSubscribes && |codes| == |s.pendingSubscribes[packetId]| {
      ConfirmUpToKeepsIndex(dropped, s.pendingSubscribes[packetId], codes, |codes|);
    }
  }

  lemma UnsubackKeepsIndex(s: Subs, packetId: u16, codes: seq<u8>)
    requires s.IndexExact()
    ensures var t := s.UnsubackReceived(packetId, codes).0;
            && t.IndexExact()
            && t.pendingSubscribes == s.pendingSubscribes
            && t.pendingUnsubscribes == s.pendingUnsubscribes - {packetId}
  {
    var dropped := s.DropPendingUnsubscribe(packetId);
    assert dropped.IndexExact() by {
      assert forall f, id :: dropped.Listed(f, id) <==> s.Listed(f, id);
      assert forall f, id :: dropped.HasIdentifier(f, id) <==> s.HasIdentifier(f, id);
    }
    if packetId in s.pendingUnsubscribes {
      var filters := s.pendingUnsubscribes[packetId];
      if codes == [] || |codes| == |filters| {
        RemoveUpToKeepsIndex(dropped, filters, codes, |filters|);
      }
    }
  }

  /** Under an exact index, the reverse lookup drops nothing and returns what a linear scan returns. */
  lemma FindAgreesWithScan(s: Subs, id: u32)
    requires s.IndexExact()
    ensures (set e | e in s.Find(id)) == s.Scan(id)
    ensures Distinct(s.Find(id))
    ensures |s.Find(id)| == if id in s.ids then |s.ids[id]| else 0
  {
    if id in s.ids {
      assert forall f | f in s.ids[id] :: s.Listed(f, id) && s.HasIdentifier(f, id);
      LookupIs(s, s.ids[id]);
    }
    forall e
      ensures e in s.Find(id) <==> e in s.Scan(id)
    {
      if e in s.Scan(id) {
        assert s.HasIdentifier(e.topicFilter, id) && s.Listed(e.topicFilter, id);
        var i :| 0 <= i < |s.ids[id]| && s.ids[id][i] == e.topicFilter;
        assert s.Find(id)[i] == e;
      }
      if e in s.Find(id) {
        var i :| 0 <= i < |s.Find(id)| && s.Find(id)[i] == e;
        assert s.HasIdentifier(s.ids[id][i], id);
      }
    }
  }

  lemma {:induction false} LookupIs(s: Subs, filters: seq<string>)
    requires forall f | f in filters :: f in s.active && s.active[f].topicFilter == f
    requires Distinct(filters)
    ensures |s.Lookup(filters)| == |filters|
    ensures forall i | 0 <= i < |filters| :: s.Lookup(filters)[i] == s.active[filters[i]]
    ensures Distinct(s.Lookup(filters))
    decreases |filters|
  {
    if filters != [] {
      LookupIs(s, filters[1..]);
      var found := s.Lookup(filters);
      forall i | 0 <= i < |filters|
        ensures found[i] == s.active[filters[i]]
      {
      }
      forall i, j | 0 <= i < j < |found|
        ensures found[i] != found[j]
      {
        assert found[i].topicFilter == filters[i] && found[j].topicFilter == filters[j];
      }
    }
  }

  class SubscriptionManager {
    var active: map<string, SubscriptionEntry>
    var pendingSubscribes: map<u16, seq<SubscriptionEntry>>
    var pendingUnsubscribes: map<u16, seq<string>>
    var subscriptionIds: Index

    ghost function State(): Subs
      reads this
    {
      Subs(active, pendingSubscribes, pendingUnsubscribes, subscriptionIds)
    }

    constructor ()
      ensures State() == Subs.Empty()
    {
      active, pendingSubscribes, pendingUnsubscribes, subscriptionIds := map[], map[], map[], map[];
    }

    method FindBySubscriptionIdentifier(id: u32) returns (found: seq<SubscriptionEntry>)
      requires State().IndexExact()
      ensures Distinct(found) && (set e | e in found) == State().Scan(id)
    {
      found := [];
      if id in subscriptionIds {
        var filters := subscriptionIds[id];
        for i := 0 to |filters|
          invariant found + State().Lookup(filters[i..]) == State().Find(id)
        {
          assert filters[i..] == [filters[i]] + filters[i + 1..];
          if filters[i] in active {
            found := found + [active[filters[i]]];
          }
        }
        assert filters[|filters|..] == [];
        assert found + [] == found;
      }
      FindAgreesWithScan(State(), id);
    }

    method SubscribeSent(packetId: u16, entries: seq<SubscriptionEntry>)
      modifies this
      ensures State() == old(State()).SubscribeSent(packetId, entries)
    {
      if packetId == 0 || entries == [] {
        return;
      }
      pendingSubscribes := pendingSubscribes[packetId := entries];
    }

    method DropPendingSubscribe(packetId: u16) returns (dropped: Option<seq<SubscriptionEntry>>)
      modifies this
      ensures State() == old(State()).DropPendingSubscribe(packetId)
      ensures dropped ==
        if packetId in old(pendingSubscribes) then Some(old(pendingSubscribes)[packetId]) else None
    {
      dropped := if packetId in pendingSubscribes then Some(pendingSubscribes[packetId]) else None;
      pendingSubscribes := pendingSubscribes - {packetId};
    }

    method SubackReceived(packetId: u16, codes: seq<u8>) returns (r: Option<seq<SubscriptionEntry>>)
      modifies this
      ensures (State(), r) == old(State()).SubackReceived(packetId, codes)
    {
      var pending := DropPendingSubscribe(packetId);
      if pending.None? {
        assert pendingSubscribes == old(pendingSubscribes);
        return None;
      }
      var entries := pending.value;
      if |codes| != |entries| {
        return None;
      }
      ghost var dropped := State();
      var confirmed := [];
      for i := 0 to |entries|
        invariant State() == dropped.ConfirmUpTo(entries, codes, i)
        invariant confirmed == Accepted(entries, codes, i)
      {
        var code := codes[i];
        if code <= 0x02 {
          var entry := entries[i].(grantedQos := QoSOf(code));
          if entry.topicFilter in active && active[entry.topicFilter].subscriptionIdentifier.Some? {
            RemoveSubscriptionIdentifier(entry.topicFilter, active[entry.topicFilter].subscriptionIdentifier.value);
          }
          if entry.subscriptionIdentifier.Some? {
            var id := entry.subscriptionIdentifier.value;
            var filters := if id in subscriptionIds then subscriptionIds[id] else [];
            subscriptionIds := subscriptionIds[id := filters + [entry.topicFilter]];
          }
          active := active[entry.topicFilter := entry];
          confirmed := confirmed + [entry];
        }
      }
      return Some(confirmed);
    }

    method RemoveSubscriptionIdentifier(filter: string, id: u32)
      modifies this`subscriptionIds
      ensures subscriptionIds == RemoveFromIndex(old(subscriptionIds), filter, id)
    {
      if id in subscriptionIds {
        subscriptionIds := subscriptionIds[id := Without(subscriptionIds[id], filter)];
        if subscriptionIds[id] == [] {
          subscriptionIds := subscriptionIds - {id};
          assert subscriptionIds == old(subscriptionIds) - {id};
        }
      }
    }

    method UnsubscribeSent(packetId: u16, filters: seq<string>)
      modifies this
      ensures State() == old(State()).UnsubscribeSent(packetId, filters)
    {
      if packetId == 0 || filters == [] {
        return;
      }
      pendingUnsubscribes := pendingUnsubscribes[packetId := filters];
    }

    method DropPendingUnsubscribe(packetId: u16) returns (dropped: Option<seq<string>>)
      modifies this
      ensures State() == old(State()).DropPendingUnsubscribe(packetId)
      ensures dropped ==
        if packetId in old(pendingUnsubscribes) then Some(old(pendingUnsubscribes)[packetId]) else None
    {
      dropped := if packetId in pendingUnsubscribes then Some(pendingUnsubscribes[packetId]) else None;
      pendingUnsubscribes := pendingUnsubscribes - {packetId};
    }

    method UnsubackReceived(packetId: u16, codes: seq<u8>) returns (r: Option<seq<string>>)
      modifies this
      ensures (State(), r) == old(State()).UnsubackReceived(packetId, codes)
    {
      var pending := DropPendingUnsubscribe(packetId);
      if pending.None? {
        assert pendingUnsubscribes == old(pendingUnsubscribes);
        return None;
      }
      var filters := pending.value;
      if codes != [] && |codes| != |filters| {
        return None;
      }
      ghost var dropped := State();
      var unsubscribed := [];
      for i := 0 to |filters|
        invariant State() == dropped.RemoveUpTo(filters, codes, i)
        invariant unsubscribed == dropped.Removed(filters, codes, i)
      {
        var filter := filters[i];
        var goneOnServer := codes == [] || codes[i] == 0x00 || codes[i] == 0x11;
        if !goneOnServer {
          continue;
        }
        if filter in active {
          var removed := active[filter];
          active := active - {filter};
          if removed.subscriptionIdentifier.Some? {
            RemoveSubscriptionIdentifier(filter, removed.subscriptionIdentifier.value);
          }
          unsubscribed := unsubscribed + [filter];
        } else {
          assert active - {filter} == active;
        }
      }
      return Some(unsubscribed);
    }

    method Reset()
      modifies this
      ensures State() == Subs.Empty()
    {
      active, pendingSubscribes, pendingUnsubscribes, subscriptionIds := map[], map[], map[], map[];
    }
  }
}
