/** Topic aliases in both directions (src/state/topic_alias.rs). */
module TopicAliases {
  import opened Prelude

  /** A table indexed by alias; entry 0 is never used. */
  type Table = seq<Option<string>>

  function Grown(table: Table, index: nat): (r: Table)
    ensures |r| > index && |r| >= |table|
    ensures forall i | 0 <= i < |r| :: r[i] == if i < |table| then table[i] else None
  {
    if |table| <= index then table + seq(index + 1 - |table|, _ => None) else table
  }

  datatype Aliases = Aliases(receive: Table, send: Table, ownMaximum: u16, peerMaximum: u16)
  {
    static function Fresh(): Aliases {
      Aliases([], [], 0, 0)
    }

    function SetOwnMaximum(max: u16): Aliases {
      this.(ownMaximum := max, receive := Grown(receive, max))
    }

    function SetPeerMaximum(max: u16): Aliases {
      this.(peerMaximum := max, send := Grown(send, max))
    }

    function Resolve(topic: string, alias: u16): (Aliases, Option<string>) {
      if alias == 0 then (this, if topic == "" then None else Some(topic))
      else if alias > ownMaximum then (this, None)
      else if topic == "" then (this, if alias < |receive| then receive[alias] else None)
      else (this.(receive := Grown(receive, alias)[alias := Some(topic)]), Some(topic))
    }

    /** `alias` may be sent for `topic`. */
    predicate Maps(alias: u16, topic: string) {
      1 <= alias <= peerMaximum && alias < |send| && send[alias] == Some(topic)
    }

    predicate IsFree(alias: u16) {
      1 <= alias <= peerMaximum && (alias < |send| ==> send[alias].None?)
    }

    /** The alias in use for `topic`, the least one if there were several. */
    ghost function Found(topic: string): Option<u16> {
      Least(set a: u16 | Maps(a, topic))
    }

    ghost function FreeAlias(): Option<u16> {
      Least(set a: u16 | IsFree(a))
    }

    /** `register_for_send`: reuse the topic's alias, else take the least free one, else give up. */
    ghost function Register(topic: string): (Aliases, Option<u16>) {
      if Found(topic).Some? || peerMaximum == 0 then (this, Found(topic))
      else
        var grown := Grown(send, peerMaximum);
        match FreeAlias()
        case Some(a) => (this.(send := grown[a := Some(topic)]), Some(a))
        case None => (this.(send := grown), None)
    }

    function ResetMappings(): Aliases {
      this.(receive := [], send := [])
    }

    /** What a connection starts with: empty mappings, a maximum of our own and one told by the peer. */
    function Reconnected(own: u16, peer: u16): Aliases {
      ResetMappings().SetOwnMaximum(own).SetPeerMaximum(0).SetPeerMaximum(peer)
    }

    /** No topic has two aliases. */
    ghost predicate Injective() {
      forall a, b, t | Maps(a, t) && Maps(b, t) :: a == b
    }
  }

  class TopicAliasManager {
    var aliasToTopic: Table
    var topicToAlias: Table
    var ownMaximum: u16
    var peerMaximum: u16

    ghost function State(): Aliases
      reads this
    {
      Aliases(aliasToTopic, topicToAlias, ownMaximum, peerMaximum)
    }

    constructor ()
      ensures State() == Aliases.Fresh()
    {
      aliasToTopic, topicToAlias, ownMaximum, peerMaximum := [], [], 0, 0;
    }

    method SetOwnMaximum(max: u16)
      modifies this
      ensures State() == old(State()).SetOwnMaximum(max)
    {
      ownMaximum := max;
      aliasToTopic := Grown(aliasToTopic, max);
    }

    method SetPeerMaximum(max: u16)
      modifies this
      ensures State() == old(State()).SetPeerMaximum(max)
    {
      peerMaximum := max;
      topicToAlias := Grown(topicToAlias, max);
    }

    method ResolveOnReceive(topic: string, alias: u16) returns (r: Option<string>)
      modifies this
      ensures (State(), r) == old(State()).Resolve(topic, alias)
    {
      if alias == 0 {
        return if topic == "" then None else Some(topic);
      }
      if alias > ownMaximum {
        return None;
      }
      if topic == "" {
        return if alias < |aliasToTopic| then aliasToTopic[alias] else None;
      }
      aliasToTopic := Grown(aliasToTopic, alias);
      aliasToTopic := aliasToTopic[alias := Some(topic)];
      return Some(topic);
    }

    method FindAliasForTopic(topic: string) returns (r: Option<u16>)
      ensures r == State().Found(topic)
    {
      ghost var known := set a: u16 | State().Maps(a, topic);
      if peerMaximum == 0 {
        assert known == {};
        return None;
      }
      for i := 0 to |topicToAlias|
        invariant forall b: u16 | b < i :: !State().Maps(b, topic)
      {
        if topicToAlias[i] == Some(topic) && 0 < i <= peerMaximum {
          LeastIs(i, known);
          return Some(i);
        }
      }
      assert known == {};
      return None;
    }

    method RegisterForSend(topic: string) returns (r: Option<u16>)
      modifies this
      ensures (State(), r) == old(State()).Register(topic)
    {
      ghost var s := State();
      ghost var free := set a: u16 | s.IsFree(a);
      if peerMaximum == 0 {
        assert (set a: u16 | s.Maps(a, topic)) == {};
        return None;
      }
      r := FindAliasForTopic(topic);
      if r.Some? {
        return r;
      }
      topicToAlias := Grown(topicToAlias, peerMaximum);
      for alias := 1 to peerMaximum + 1
        invariant State() == s.(send := Grown(s.send, s.peerMaximum))
        invariant forall b: u16 | b < alias :: !s.IsFree(b)
      {
        if topicToAlias[alias].None? {
          LeastIs(alias, free);
          topicToAlias := topicToAlias[alias := Some(topic)];
          return Some(alias);
        }
      }
      assert free == {};
      return None;
    }

    method ResetMappings()
      modifies this
      ensures State() == old(State()).ResetMappings()
    {
      aliasToTopic, topicToAlias := [], [];
    }

    method Reset()
      modifies this
      ensures State() == Aliases.Fresh()
    {
      aliasToTopic, topicToAlias, ownMaximum, peerMaximum := [], [], 0, 0;
    }
  }

  // ------------------------------------------------------------------------------------------
  // A sender's and a receiver's table as a compressor and its decompressor.
  // ------------------------------------------------------------------------------------------

  /** Registration keeps every mapping there is, so a full table never overwrites one. */
  lemma RegisterKeepsMappings(s: Aliases, topic: string)
    requires s.Injective()
    ensures var (t, r) := s.Register(topic);
            && t.Injective() && t.peerMaximum == s.peerMaximum
            && (forall a: u16, u | s.Maps(a, u) :: t.Maps(a, u))
            && (forall a: u16, u | t.Maps(a, u) :: s.Maps(a, u) || (r == Some(a) && u == topic))
            && (r.Some? ==> t.Maps(r.value, topic))
            && (r.None? <==> forall a: u16 :: !s.Maps(a, topic) && !s.IsFree(a))
  {
    var (t, r) := s.Register(topic);
    var known, free := set a: u16 | s.Maps(a, topic), set a: u16 | s.IsFree(a);
    assert known == {} ==> forall a: u16 :: a !in known;
    assert free == {} ==> forall a: u16 :: a !in free;
    forall a: u16, u
      ensures t.Maps(a, u) <==> s.Maps(a, u) || (r == Some(a) && u == topic)
    {
      if r == Some(a) && known == {} {
        assert a in free;
      }
    }
    forall a: u16, b: u16, u | t.Maps(a, u) && t.Maps(b, u)
      ensures a == b
    {
      assert u == topic && known == {} ==> a !in known && b !in known;
    }
    if r.Some? {
      assert r.value in known || r.value in free;
    } else {
      forall a: u16
        ensures !s.Maps(a, topic) && !s.IsFree(a)
      {
        assert a !in known;
        assert s.peerMaximum != 0 ==> a !in free;
      }
    }
  }

  /** What goes over the wire for one PUBLISH: a topic name, possibly empty, and an alias, possibly 0. */
  datatype Header = Header(topic: string, alias: u16)

  /**
   * The sender's policy: the name goes out when there is no alias, when the alias is new, and
   * whenever the sender wants to repeat it; otherwise the alias stands for the name.
   */
  ghost function Send(s: Aliases, topic: string, repeated: bool): (Aliases, Header) {
    match s.Register(topic)
    case (t, None) => (t, Header(topic, 0))
    case (t, Some(a)) => (t, Header(if repeated || !s.Maps(a, topic) then topic else "", a))
  }

  datatype Link = Link(sender: Aliases, receiver: Aliases)

  datatype AliasEvent =
    | Message(topic: string, repeated: bool)
    | NewConnection(receiverOwn: u16, senderPeer: u16, senderOwn: u16, receiverPeer: u16)

  /** One event with the topic the receiver ends up with, if it resolves one. */
  ghost function LinkStep(p: Link, e: AliasEvent): (Link, Option<string>) {
    match e
    case Message(topic, repeated) =>
      var (sender, h) := Send(p.sender, topic, repeated);
      var (receiver, out) := p.receiver.Resolve(h.topic, h.alias);
      (Link(sender, receiver), out)
    case NewConnection(receiverOwn, senderPeer, senderOwn, receiverPeer) =>
      (Link(p.sender.Reconnected(senderOwn, senderPeer), p.receiver.Reconnected(receiverOwn, receiverPeer)), None)
  }

  ghost function LinkOutputs(p: Link, events: seq<AliasEvent>): seq<Option<string>>
    decreases |events|
  {
    if events == [] then []
    else
      var (q, out) := LinkStep(p, events[0]);
      [out] + LinkOutputs(q, events[1..])
  }

  /** The receiver accepts the sender's aliases and knows every mapping the sender may rely on. */
  ghost predicate Synchronised(p: Link) {
    && p.sender.Injective()
    && p.receiver.ownMaximum >= p.sender.peerMaximum
    && (forall a: u16, t | p.sender.Maps(a, t) :: a < |p.receiver.receive| && p.receiver.receive[a] == Some(t))
  }

  ghost predicate WellBehaved(e: AliasEvent) {
    match e
    case Message(topic, _) => topic != ""
    case NewConnection(receiverOwn, senderPeer, _, _) => receiverOwn >= senderPeer
  }

  function Intended(e: AliasEvent): Option<string> {
    match e
    case Message(topic, _) => Some(topic)
    case NewConnection(_, _, _, _) => None
  }

  lemma LinkStepLossless(p: Link, e: AliasEvent)
    requires Synchronised(p) && WellBehaved(e)
    ensures Synchronised(LinkStep(p, e).0) && LinkStep(p, e).1 == Intended(e)
  {
    match e {
      case Message(topic, repeated) =>
        RegisterKeepsMappings(p.sender, topic);
        var q := LinkStep(p, e).0;
        var r := p.sender.Register(topic).1;
        forall a: u16, t | q.sender.Maps(a, t)
          ensures a < |q.receiver.receive| && q.receiver.receive[a] == Some(t)
        {
          assert p.sender.Maps(a, t) || (r == Some(a) && t == topic);
          assert r.Some? ==> q.sender.Maps(r.value, topic);
        }
      case NewConnection(_, _, _, _) =>
    }
  }

  /** Every message of every run resolves to its original topic, across reconnections. */
  lemma {:induction false} AliasesLossless(p: Link, events: seq<AliasEvent>)
    requires Synchronised(p)
    requires forall i | 0 <= i < |events| :: WellBehaved(events[i])
    ensures |LinkOutputs(p, events)| == |events|
    ensures forall i | 0 <= i < |events| :: LinkOutputs(p, events)[i] == Intended(events[i])
    decreases |events|
  {
    if events != [] {
      LinkStepLossless(p, events[0]);
      AliasesLossless(LinkStep(p, events[0]).0, events[1..]);
    }
  }
}
