/** The wire format of MQTT v3.1.1 is a bijection between encodable packets and decodable bytes. */
module V311RoundTrip {
  import opened Prelude
  import opened Vbi
  import opened Fields
  import opened HeaderFlags
  import opened CommonParts
  import opened V311

  /** `b` is what would be written for `p`, and `p` may be written. */
  ghost predicate IsBodyOf(b: Bytes, p: Packet) {
    Body(p) == b && Validate(p).None? && FieldFault(p).None?
  }

  // -- CONNECT --------------------------------------------------------------------------------

  predicate GoodWill(will: Option<Will>) {
    will.Some? ==>
      && will.value.topic != [] && !HasWildcard(will.value.topic)
      && IsStrField(will.value.topic) && IsField(will.value.payload)
  }

  predicate WillFlags(flags: FlagSet, will: Option<Will>) {
    && flags.will == will.Some?
    && (will.Some? ==> flags.willQos == QoSByte(will.value.qos) && flags.willRetain == will.value.retain)
  }

  lemma WillReadsBack(flags: FlagSet, will: Option<Will>, rest: Bytes)
    requires WillFlags(flags, will) && GoodWill(will)
    ensures TakeWill(flags, WillThen(will, rest)) == Ok((will, rest))
  {
    if will.Some? {
      TakeStrRoundTrip(will.value.topic, FieldBytes(will.value.payload) + rest);
      TakeBinRoundTrip(will.value.payload, rest);
    }
  }

  lemma WillExact(flags: FlagSet, b: Bytes)
    requires TakeWill(flags, b).Ok?
    ensures var (will, rest) := TakeWill(flags, b).value;
            WillFlags(flags, will) && GoodWill(will) && b == WillThen(will, rest)
  {
    if flags.will {
      TakeStrExact(b);
      TakeBinExact(TakeStr(b).value.1);
    }
  }

  lemma ConnectFieldsReadBack(p: Packet, flags: FlagSet)
    requires p.Connect? && Validate(p).None? && FieldFault(p).None?
    requires flags == FlagsFor(p.cleanSession, p.will, p.username.Some?, p.password.Some?)
    ensures ParseConnectFields(flags, p.keepAlive, ConnectFields(p)) == Ok(p)
  {
    var b3 := FieldThen(p.password, []);
    var b2 := FieldThen(p.username, b3);
    TakeStrRoundTrip(p.clientId, WillThen(p.will, b2));
    WillReadsBack(flags, p.will, b2);
    UsernameReadsBack(flags, p.username, b3);
    PasswordReadsBack(flags, p.password, []);
  }

  lemma ConnectReadsBack(p: Packet)
    requires p.Connect? && Validate(p).None? && FieldFault(p).None?
    ensures ParseConnect(Body(p)) == Ok(p)
  {
    var flags := FlagsFor(p.cleanSession, p.will, p.username.Some?, p.password.Some?);
    FlagsByteRoundTrip(flags);
    HeadReadsBack(PROTOCOL_LEVEL, FlagsByte(flags), p.keepAlive, ConnectFields(p));
    ConnectFieldsReadBack(p, flags);
  }

  lemma ConnectFieldsExact(flags: FlagSet, keepAlive: u16, b: Bytes)
    requires ParseConnectFields(flags, keepAlive, b).Ok?
    ensures var p := ParseConnectFields(flags, keepAlive, b).value;
            && p.Connect? && p.keepAlive == keepAlive && Validate(p).None? && FieldFault(p).None?
            && flags == FlagsFor(p.cleanSession, p.will, p.username.Some?, p.password.Some?)
            && b == ConnectFields(p)
  {
    TakeStrExact(b);
    var (clientId, b1) := TakeStr(b).value;
    WillExact(flags, b1);
    var (will, b2) := TakeWill(flags, b1).value;
    UsernameExact(flags, b2);
    PasswordExact(flags, TakeUsername(flags, b2).value.1);
  }

  lemma ConnectExact(b: Bytes)
    requires ParseConnect(b).Ok?
    ensures ParseConnect(b).value.Connect? && IsBodyOf(b, ParseConnect(b).value)
  {
    HeadExact(PROTOCOL_LEVEL, b);
    var ((flags, keepAlive), rest) := TakeConnectHead(PROTOCOL_LEVEL, b).value;
    ConnectFieldsExact(FlagsOf(flags), keepAlive, rest);
    FlagsByteExact(flags);
  }

  // -- PUBLISH --------------------------------------------------------------------------------

  lemma PublishReadsBack(p: Packet)
    requires p.Publish? && Validate(p).None? && FieldFault(p).None?
    ensures ParsePublish(PublishFlags(p.dup, QoSByte(p.qos), p.retain), Body(p)) == Ok(p)
  {
    TakeStrRoundTrip(p.topic, IdThen(p.publishId, p.payload));
    if p.publishId.Some? {
      TakeU16RoundTrip(p.publishId.value, p.payload);
    }
  }

  lemma PublishExact(flags: PublishFlags, b: Bytes)
    requires ParsePublish(flags, b).Ok? && (flags.qos == 0 ==> !flags.dup)
    ensures var p := ParsePublish(flags, b).value;
            && p.Publish? && IsBodyOf(b, p)
            && p.dup == flags.dup && p.retain == flags.retain && QoSOf(flags.qos) == Some(p.qos)
  {
    TakeStrExact(b);
    if ParsePublish(flags, b).value.publishId.Some? {
      TakeU16Exact(TakeStr(b).value.1);
    }
  }

  // -- identifiers, acknowledgements and lists --------------------------------------------------

  lemma AckReadsBack(p: Packet)
    requires p.Ack? && p.packetId != 0
    ensures ParseAck(p.ackKind, Body(p)) == Ok(p)
  {
    TakeIdReadsBack(p.packetId, []);
    assert U16Bytes(p.packetId) + [] == Body(p);
  }

  lemma AckExact(kind: AckKind, b: Bytes)
    requires ParseAck(kind, b).Ok?
    ensures ParseAck(kind, b).value.Ack? && ParseAck(kind, b).value.ackKind == kind
    ensures IsBodyOf(b, ParseAck(kind, b).value)
  {
    TakeIdExact(b);
    var (id, rest) := TakeId(b).value;
    assert U16Bytes(id) + [] == U16Bytes(id);
  }

  lemma {:induction false} SubscriptionsReadBack(list: seq<Subscription>)
    requires SubscriptionsFault(list).None? && forall i | 0 <= i < |list| :: IsValidFilter(list[i].topicFilter)
    ensures ParseSubscriptions(SubscriptionsBytes(list)) == Ok(list)
    decreases |list|
  {
    if list != [] {
      var s, rest := list[0], SubscriptionsBytes(list[1..]);
      TakeStrRoundTrip(s.topicFilter, [QoSByte(s.qos)] + rest);
      assert ([QoSByte(s.qos)] + rest)[1..] == rest;
      assert TakeSubscription(SubscriptionsBytes(list)) == Ok((s, rest));
      SubscriptionsReadBack(list[1..]);
      assert [s] + list[1..] == list;
    }
  }

  lemma {:induction false} SubscriptionsExact(b: Bytes)
    requires ParseSubscriptions(b).Ok?
    ensures var list := ParseSubscriptions(b).value;
            && SubscriptionsBytes(list) == b && SubscriptionsFault(list).None?
            && forall i | 0 <= i < |list| :: IsValidFilter(list[i].topicFilter)
    decreases |b|
  {
    if b != [] {
      TakeStrExact(b);
      var (filter, b1) := TakeStr(b).value;
      var (s, rest) := TakeSubscription(b).value;
      assert b1 == [QoSByte(s.qos)] + rest;
      SubscriptionsExact(rest);
      var list := ParseSubscriptions(b).value;
      assert list[1..] == ParseSubscriptions(rest).value;
    }
  }

  lemma SubscribeReadsBack(p: Packet)
    requires p.Subscribe? && Validate(p).None? && FieldFault(p).None?
    ensures ParseSubscribe(Body(p)) == Ok(p)
  {
    TakeIdReadsBack(p.packetId, SubscriptionsBytes(p.subscriptions));
    SubscriptionsReadBack(p.subscriptions);
  }

  lemma SubscribeExact(b: Bytes)
    requires ParseSubscribe(b).Ok?
    ensures ParseSubscribe(b).value.Subscribe? && IsBodyOf(b, ParseSubscribe(b).value)
  {
    TakeIdExact(b);
    SubscriptionsExact(TakeId(b).value.1);
  }

  lemma {:induction false} FiltersReadBack(list: seq<Text>)
    requires FiltersFault(list).None? && forall i | 0 <= i < |list| :: IsValidFilter(list[i])
    ensures ParseFilters(FiltersBytes(list)) == Ok(list)
    decreases |list|
  {
    if list != [] {
      TakeStrRoundTrip(list[0], FiltersBytes(list[1..]));
      FiltersReadBack(list[1..]);
      assert [list[0]] + list[1..] == list;
    }
  }

  lemma {:induction false} FiltersExact(b: Bytes)
    requires ParseFilters(b).Ok?
    ensures var list := ParseFilters(b).value;
            && FiltersBytes(list) == b && FiltersFault(list).None?
            && forall i | 0 <= i < |list| :: IsValidFilter(list[i])
    decreases |b|
  {
    if b != [] {
      TakeStrExact(b);
      var (s, rest) := TakeFilter(b).value;
      FiltersExact(rest);
      assert ParseFilters(b).value[1..] == ParseFilters(rest).value;
    }
  }

  lemma UnsubscribeReadsBack(p: Packet)
    requires p.Unsubscribe? && Validate(p).None? && FieldFault(p).None?
    ensures ParseUnsubscribe(Body(p)) == Ok(p)
  {
    TakeIdReadsBack(p.packetId, FiltersBytes(p.topicFilters));
    FiltersReadBack(p.topicFilters);
  }

  lemma UnsubscribeExact(b: Bytes)
    requires ParseUnsubscribe(b).Ok?
    ensures ParseUnsubscribe(b).value.Unsubscribe? && IsBodyOf(b, ParseUnsubscribe(b).value)
  {
    TakeIdExact(b);
    FiltersExact(TakeId(b).value.1);
  }

  lemma SubAckReadsBack(p: Packet)
    requires p.SubAck? && Validate(p).None?
    ensures ParseSubAck(Body(p)) == Ok(p)
  {
    TakeIdReadsBack(p.packetId, p.returnCodes);
  }

  lemma SubAckExact(b: Bytes)
    requires ParseSubAck(b).Ok?
    ensures ParseSubAck(b).value.SubAck? && IsBodyOf(b, ParseSubAck(b).value)
  {
    TakeIdExact(b);
  }

  lemma ConnAckExact(b: Bytes)
    requires ParseConnAck(b).Ok?
    ensures ParseConnAck(b).value.ConnAck? && IsBodyOf(b, ParseConnAck(b).value)
  {
  }

  // -- any packet -----------------------------------------------------------------------------

  /** The type of the first byte selects the parser. */
  lemma ParserOf(p: Packet, b: Bytes)
    ensures ParseBody(FirstByte(p), b) == match p
            case Connect(_, _, _, _, _, _) => ParseConnect(b)
            case ConnAck(_, _) => ParseConnAck(b)
            case Publish(dup, qos, retain, _, _, _) => ParsePublish(PublishFlags(dup, QoSByte(qos), retain), b)
            case Ack(kind, _) => ParseAck(kind, b)
            case Subscribe(_, _) => ParseSubscribe(b)
            case SubAck(_, _) => ParseSubAck(b)
            case Unsubscribe(_, _) => ParseUnsubscribe(b)
            case Bare(kind) => if b == [] then Ok(Bare(kind)) else Err(MalformedPacket)
  {
    if p.Publish? {
      PublishFirstRoundTrip(p.dup, p.qos, p.retain);
    }
  }

  lemma BodyReadsBack(p: Packet)
    requires Encodable(p)
    ensures ParseBody(FirstByte(p), Body(p)) == Ok(p)
  {
    ParserOf(p, Body(p));
    match p {
      case Connect(_, _, _, _, _, _) => ConnectReadsBack(p);
      case Publish(_, _, _, _, _, _) => PublishReadsBack(p);
      case Ack(_, _) => AckReadsBack(p);
      case Subscribe(_, _) => SubscribeReadsBack(p);
      case SubAck(_, _) => SubAckReadsBack(p);
      case Unsubscribe(_, _) => UnsubscribeReadsBack(p);
      case ConnAck(_, _) =>
      case Bare(_) =>
    }
  }

  lemma FirstByteAccepted(p: Packet)
    requires Validate(p).None?
    ensures CheckFirst(FirstByte(p)).None? && (IsBare(FirstByte(p)) ==> Body(p) == [])
  {
    if p.Publish? {
      PublishFirstRoundTrip(p.dup, p.qos, p.retain);
    }
  }

  lemma PublishBodyExact(first: u8, b: Bytes)
    requires first / 16 == 3 && CheckFirst(first).None? && ParsePublish(PublishFlagsOf(first), b).Ok?
    ensures var p := ParsePublish(PublishFlagsOf(first), b).value; FirstByte(p) == first && IsBodyOf(b, p)
  {
    PublishExact(PublishFlagsOf(first), b);
    PublishFirstExact(first, ParsePublish(PublishFlagsOf(first), b).value.qos);
  }

  /** An accepted first byte other than that of a PUBLISH is determined by its type. */
  lemma FirstByteExact(first: u8)
    requires CheckFirst(first).None? && first / 16 != 3
    ensures KindOfAck(first).Some? ==> AckFirst(KindOfAck(first).value) == first
    ensures KindOfBare(first).Some? ==> BareFirst(KindOfBare(first).value) == first
    ensures KindOfAck(first).None? && KindOfBare(first).None? ==> first in {0x10, 0x20, 0x82, 0x90, 0xA2}
  {
    assert first == 16 * (first / 16) + first % 16;
  }

  lemma BodyExact(first: u8, b: Bytes)
    requires CheckFirst(first).None? && ParseBody(first, b).Ok?
    ensures FirstByte(ParseBody(first, b).value) == first && IsBodyOf(b, ParseBody(first, b).value)
  {
    if first / 16 == 3 {
      PublishBodyExact(first, b);
    } else {
      FirstByteExact(first);
      if KindOfAck(first).Some? {
        AckExact(KindOfAck(first).value, b);
      } else if KindOfBare(first).None? {
        ListedBodyExact(first, b);
      }
    }
  }

  lemma ListedBodyExact(first: u8, b: Bytes)
    requires first in {0x10, 0x20, 0x82, 0x90, 0xA2} && ParseBody(first, b).Ok?
    ensures FirstByte(ParseBody(first, b).value) == first && IsBodyOf(b, ParseBody(first, b).value)
  {
    if first == 0x10 {
      ConnectExact(b);
    } else if first == 0x20 {
      ConnAckExact(b);
    } else if first == 0x82 {
      SubscribeExact(b);
    } else if first == 0x90 {
      SubAckExact(b);
    } else {
      UnsubscribeExact(b);
    }
  }

  /** Bytes after the packet do not matter. */
  lemma DecodesWire(p: Packet, rest: Bytes)
    requires Encodable(p)
    ensures Decode(Wire(p) + rest) == Ok((p, |Wire(p)|))
  {
    FirstByteAccepted(p);
    BodyReadsBack(p);
    FrameIsUnframed(FirstByte(p), Body(p), rest, CheckFirst, IsBare, ParseBody);
  }

  lemma DecodedIsWire(b: Bytes)
    requires Decode(b).Ok?
    ensures var (p, n) := Decode(b).value;
            Encodable(p) && n == |Wire(p)| <= |b| && b[..n] == Wire(p)
  {
    var body := UnframedIsFrame(b, CheckFirst, IsBare, ParseBody);
    BodyExact(b[0], body);
  }

  /**
   * The bijection: for every byte string and packet, decoding answers `p` and `n` if and only if
   * encoding `p` into a large enough buffer succeeds with `n` bytes and those are the first `n`.
   */
  lemma WireBijection(b: Bytes, p: Packet, n: nat, capacity: nat)
    requires capacity >= |Wire(p)|
    ensures Decode(b) == Ok((p, n)) <==> EncodeResult(p, capacity) == Ok(n) && n <= |b| && b[..n] == Wire(p)
  {
    if Decode(b) == Ok((p, n)) {
      DecodedIsWire(b);
    } else if EncodeResult(p, capacity) == Ok(n) && n <= |b| && b[..n] == Wire(p) {
      DecodesPrefix(b, p, n);
    }
  }

  lemma DecodesPrefix(b: Bytes, p: Packet, n: nat)
    requires Encodable(p) && n <= |b| && b[..n] == Wire(p)
    ensures Decode(b) == Ok((p, n))
  {
    DecodesWire(p, b[n..]);
    assert b[..n] + b[n..] == b;
  }

  /** No packet's bytes start another packet's bytes. */
  lemma WireIsPrefixFree(p: Packet, q: Packet)
    requires Encodable(p) && Encodable(q) && Wire(p) <= Wire(q)
    ensures p == q
  {
    DecodesPrefix(Wire(q), p, |Wire(p)|);
    assert Wire(q)[..|Wire(q)|] == Wire(q);
    DecodesPrefix(Wire(q), q, |Wire(q)|);
  }
}
