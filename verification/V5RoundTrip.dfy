/** PUBLISH, CONNECT and SUBSCRIBE of MQTT v5.0 come back from their bytes, and exactly when the converse holds. */
module V5RoundTrip {
  import opened Prelude
  import opened Vbi
  import opened Fields
  import opened HeaderFlags
  import opened CommonParts
  import opened V5Property
  import opened V5Packets

  // -- declared lengths -----------------------------------------------------------------------

  lemma ValueLenExact(v: Value, rest: Bytes)
    ensures |ValueThen(v, rest)| == ValueLen(v) + |rest|
  {
    if v.Var? && v.v <= MAX_VBI {
      VbiBytesLength(v.v);
    }
  }

  lemma {:induction false} PayloadLenExact(ps: Properties)
    ensures |Payload(ps)| == PayloadLen(ps)
    decreases |ps|
  {
    if ps != [] {
      ValueLenExact(ValueOf(ps[0]), Payload(ps[1..]));
      PayloadLenExact(ps[1..]);
    }
  }

  lemma PropertiesLenExact(ps: Properties, rest: Bytes)
    requires PayloadLen(ps) <= MAX_VBI
    ensures |PropertiesThen(ps, rest)| == PropertiesLen(ps) + |rest|
  {
    PayloadLenExact(ps);
    VbiBytesLength(|Payload(ps)|);
  }

  lemma {:induction false} SubscriptionsLenExact(list: seq<Subscription>)
    ensures |SubscriptionsBytes(list)| == SubscriptionsLen(list)
    decreases |list|
  {
    if list != [] {
      SubscriptionsLenExact(list[1..]);
    }
  }

  lemma FieldLenExact(field: Option<Bytes>, rest: Bytes)
    ensures |FieldThen(field, rest)| == FieldLen(field) + |rest|
  {
  }

  lemma WillLenExact(will: Option<Will>, rest: Bytes)
    requires will.Some? ==> PayloadLen(will.value.properties) <= MAX_VBI
    ensures |WillThen(will, rest)| == WillLen(will) + |rest|
  {
    if will.Some? {
      PropertiesLenExact(will.value.properties, FieldBytes(will.value.topic) + (FieldBytes(will.value.payload) + rest));
    }
  }

  /** No property list is too long for its own length field. */
  predicate Fits(p: Packet) {
    PayloadLen(p.properties) <= MAX_VBI
    && (p.Connect? && p.will.Some? ==> PayloadLen(p.will.value.properties) <= MAX_VBI)
  }

  lemma SmallFits(p: Packet)
    requires EncodedLen(p) <= MAX_VBI
    ensures Fits(p)
  {
  }

  lemma ConnectLenExact(p: Packet)
    requires p.Connect? && Fits(p)
    ensures EncodedLen(p) == Saturated(|Body(p)|)
  {
    var b2 := FieldThen(p.username, FieldThen(p.password, []));
    FieldLenExact(p.password, []);
    FieldLenExact(p.username, FieldThen(p.password, []));
    WillLenExact(p.will, b2);
    PropertiesLenExact(p.properties, ConnectFields(p));
  }

  lemma PublishLenExact(p: Packet)
    requires p.Publish? && Fits(p)
    requires p.qos == AtMostOnce <==> p.publishId.None?
    ensures EncodedLen(p) == Saturated(|Body(p)|)
  {
    PropertiesLenExact(p.properties, p.payload);
  }

  lemma SubscribeLenExact(p: Packet)
    requires p.Subscribe? && Fits(p)
    ensures EncodedLen(p) == Saturated(|Body(p)|)
  {
    PropertiesLenExact(p.properties, SubscriptionsBytes(p.subscriptions));
    SubscriptionsLenExact(p.subscriptions);
  }

  lemma LenExact(p: Packet)
    requires Fits(p)
    requires p.Publish? ==> (p.qos == AtMostOnce <==> p.publishId.None?)
    ensures EncodedLen(p) == Saturated(|Body(p)|)
  {
    match p {
      case Connect(_, _, _, _, _, _, _) => ConnectLenExact(p);
      case Publish(_, _, _, _, _, _, _) => PublishLenExact(p);
      case Subscribe(_, _, _) => SubscribeLenExact(p);
    }
  }

  lemma WireLen(p: Packet)
    requires EncodedLen(p) <= MAX_VBI && (p.Publish? ==> (p.qos == AtMostOnce <==> p.publishId.None?))
    ensures Fits(p) && EncodedLen(p) == |Body(p)| && |Wire(p)| == 1 + VbiLen(EncodedLen(p)) + EncodedLen(p)
  {
    SmallFits(p);
    LenExact(p);
    VbiBytesLength(|Body(p)|);
  }

  /** A packet that is written fills exactly the length it declares; that much room is enough. */
  lemma EncodedLenExact(p: Packet)
    requires Encodable(p)
    ensures EncodedLen(p) == |Body(p)| && EncodeResult(p, |Wire(p)|) == Ok(|Wire(p)|)
  {
    WireLen(p);
  }

  // -- what decoding accepts ----------------------------------------------------------------------

  predicate WillFlags(flags: FlagSet, will: Option<Will>) {
    && flags.will == will.Some?
    && (will.Some? ==> flags.willQos == QoSByte(will.value.qos) && flags.willRetain == will.value.retain)
  }

  /** What decoding a Will checks. */
  predicate GoodWill(will: Option<Will>) {
    will.Some? ==>
      && will.value.topic != [] && !HasWildcard(will.value.topic)
      && IsStrField(will.value.topic) && IsField(will.value.payload)
      && Within(will.value.properties, WILL_IDS) && Readable(will.value.properties, false)
  }

  /** What a client may send of what it may receive. */
  predicate MayForward(p: Packet) {
    match p
    case Publish(_, _, _, _, _, ps, payload) =>
      !HasIdentifier(ps, SUBSCRIPTION_ID) && (DeclaresUtf8(ps) ==> ValidUtf8(payload))
    case Connect(_, _, _, _, will, _, _) =>
      will.Some? && DeclaresUtf8(will.value.properties) ==> ValidUtf8(will.value.payload)
    case Subscribe(_, _, _) => true
  }

  /** What decoding checks of a packet. */
  predicate Decodable(p: Packet) {
    && FieldFault(p).None? && Fits(p) && |Body(p)| <= MAX_VBI
    && match p
       case Publish(dup, qos, _, topic, id, ps, _) =>
         && (qos == AtMostOnce <==> id.None?) && id != Some(0) && (qos == AtMostOnce ==> !dup)
         && (topic != [] || HasIdentifier(ps, 0x23)) && !HasWildcard(topic)
         && Within(ps, PUBLISH_IDS) && NoDuplicates(ps, true, {})
       case Connect(_, _, _, ps, will, _, _) =>
         GoodWill(will) && ValidForConnect(ps) && NoDuplicates(ps, false, {})
       case Subscribe(_, _, _) => Validate(p).None?
  }

  lemma WillFits(will: Option<Will>)
    requires WillFault(will).None? && will.Some? && PayloadLen(will.value.properties) <= MAX_VBI
    requires NoDuplicates(will.value.properties, false, {})
    ensures Readable(will.value.properties, false)
  {
    PayloadLenExact(will.value.properties);
  }

  lemma EncodableIsDecodable(p: Packet)
    requires Encodable(p)
    ensures Decodable(p) && MayForward(p)
  {
    SmallFits(p);
    LenExact(p);
    if p.Connect? && p.will.Some? {
      WillFits(p.will);
    }
  }

  lemma ForwardableIsEncodable(p: Packet)
    requires Decodable(p) && MayForward(p)
    ensures Encodable(p)
  {
    LenExact(p);
  }

  /** A packet may be written if and only if it may be read and forwarded. */
  lemma EncodableIffForwardable(p: Packet)
    ensures Encodable(p) <==> Decodable(p) && MayForward(p)
  {
    if Encodable(p) {
      EncodableIsDecodable(p);
    } else if Decodable(p) && MayForward(p) {
      ForwardableIsEncodable(p);
    }
  }

  // -- PUBLISH --------------------------------------------------------------------------------

  lemma PublishReadsBack(p: Packet)
    requires p.Publish? && Decodable(p)
    ensures ParsePublish(PublishFlags(p.dup, QoSByte(p.qos), p.retain), Body(p)) == Ok(p)
  {
    TakeStrRoundTrip(p.topic, IdThen(p.publishId, PropertiesThen(p.properties, p.payload)));
    if p.publishId.Some? {
      TakeIdReadsBack(p.publishId.value, PropertiesThen(p.properties, p.payload));
    }
    PayloadLenExact(p.properties);
    PropertiesReadBack(p.properties, true, p.payload);
  }

  lemma TakePublishIdExact(qos: QoS, b: Bytes)
    requires TakePublishId(qos, b).Ok?
    ensures var (id, rest) := TakePublishId(qos, b).value;
            (qos == AtMostOnce <==> id.None?) && id != Some(0) && b == IdThen(id, rest)
  {
    if qos != AtMostOnce {
      TakeIdExact(b);
    }
  }

  lemma PublishExact(flags: PublishFlags, b: Bytes)
    requires ParsePublish(flags, b).Ok?
    ensures var p := ParsePublish(flags, b).value;
            && p.Publish? && Body(p) == b && FieldFault(p).None? && Fits(p)
            && p.dup == flags.dup && p.retain == flags.retain && QoSOf(flags.qos) == Some(p.qos)
            && (p.qos == AtMostOnce <==> p.publishId.None?) && p.publishId != Some(0)
            && (p.topic != [] || HasIdentifier(p.properties, 0x23)) && !HasWildcard(p.topic)
            && Within(p.properties, PUBLISH_IDS) && NoDuplicates(p.properties, true, {})
  {
    TakeStrExact(b);
    var qos := QoSOf(flags.qos).value;
    var b1 := TakeStr(b).value.1;
    TakePublishIdExact(qos, b1);
    var b2 := TakePublishId(qos, b1).value.1;
    PropertiesExact(b2, true);
    var p := ParsePublish(flags, b).value;
    PayloadLenExact(p.properties);
  }

  /** `b` starts with the bytes of `p`, and whether `p` may be written is decided by `MayForward`. */
  ghost predicate IsReadFrom(b: Bytes, p: Packet, n: nat) {
    n == |Wire(p)| <= |b| && b[..n] == Wire(p) && Decodable(p) && (Encodable(p) <==> MayForward(p))
  }

  lemma ParsedPublishDecodable(flags: PublishFlags, body: Bytes)
    requires ParsePublish(flags, body).Ok? && |body| <= MAX_VBI && (flags.dup ==> flags.qos != 0)
    ensures Decodable(ParsePublish(flags, body).value)
  {
    PublishExact(flags, body);
  }

  lemma DecodedPublish(b: Bytes)
    requires DecodePublish(b).Ok?
    ensures var (p, n) := DecodePublish(b).value; p.Publish? && IsReadFrom(b, p, n)
  {
    var body := UnframedIsFrame(b, CheckPublish, NeverBare, PublishBody);
    var flags := PublishFlagsOf(b[0]);
    PublishExact(flags, body);
    var p := ParsePublish(flags, body).value;
    PublishFirstExact(b[0], p.qos);
    ParsedPublishDecodable(flags, body);
    EncodableIffForwardable(p);
  }

  lemma PublishDecodes(p: Packet, rest: Bytes)
    requires p.Publish? && Decodable(p)
    ensures DecodePublish(Wire(p) + rest) == Ok((p, |Wire(p)|))
  {
    PublishReadsBack(p);
    PublishFirstRoundTrip(p.dup, p.qos, p.retain);
    FrameIsUnframed(FirstByte(p), Body(p), rest, CheckPublish, NeverBare, PublishBody);
  }

  /** PUBLISH round trip: what is encoded is decoded, whatever follows it. */
  lemma PublishRoundTrip(p: Packet, rest: Bytes)
    requires p.Publish? && Encodable(p)
    ensures DecodePublish(Wire(p) + rest) == Ok((p, |Wire(p)|))
  {
    EncodableIffForwardable(p);
    PublishDecodes(p, rest);
  }

  /** "a" */
  const TOPIC: Text := [0x61]

  lemma TopicIsPlain()
    ensures IsStrField(TOPIC) && TOPIC != [] && !HasWildcard(TOPIC) && StrError(TOPIC).None?
  {
  }

  lemma SubscriberPublishIsDecodable(ps: Properties, id: u32, payload: Bytes)
    requires ps == [SubscriptionIdentifier(id)] && 1 <= id <= MAX_VBI && |payload| <= MAX_VBI - 9
    ensures Decodable(Publish(false, AtMostOnce, false, TOPIC, None, ps, payload))
  {
    TopicIsPlain();
    SingleProperty(ps[0], true);
    PropertiesLenExact(ps, payload);
    assert Identifier(ps[0]) == SUBSCRIPTION_ID;
  }

  /** A PUBLISH a server sends to a subscriber with an identifier: decoded, and not encodable again. */
  lemma ReceivedSubscriptionIdentifier(ps: Properties, id: u32, payload: Bytes)
    requires ps == [SubscriptionIdentifier(id)] && 1 <= id <= MAX_VBI && |payload| <= MAX_VBI - 9
    ensures var p := Publish(false, AtMostOnce, false, TOPIC, None, ps, payload);
            && DecodePublish(Wire(p)) == Ok((p, |Wire(p)|))
            && Validate(p) == Some(PropertyValidationFailed)
  {
    var p := Publish(false, AtMostOnce, false, TOPIC, None, ps, payload);
    SubscriberPublishIsDecodable(ps, id, payload);
    TopicIsPlain();
    PublishDecodes(p, []);
    assert Wire(p) + [] == Wire(p);
    assert Identifier(ps[0]) == SUBSCRIPTION_ID;
    assert HasIdentifier(ps, SUBSCRIPTION_ID);
  }

  lemma SingleProperty(p: Property, repeatSubscriptionId: bool)
    ensures NoDuplicates([p], repeatSubscriptionId, {})
    ensures PropertiesFault([p]) == PropertyFault(p) && PayloadLen([p]) == 1 + ValueLen(ValueOf(p))
  {
    assert [p][1..] == [];
  }

  // -- CONNECT --------------------------------------------------------------------------------

  lemma WillReadsBack(flags: FlagSet, will: Option<Will>, rest: Bytes)
    requires WillFlags(flags, will) && GoodWill(will)
    ensures TakeWill(flags, WillThen(will, rest)) == Ok((will, rest))
  {
    if will.Some? {
      var w := will.value;
      PropertiesReadBack(w.properties, false, FieldBytes(w.topic) + (FieldBytes(w.payload) + rest));
      TakeStrRoundTrip(w.topic, FieldBytes(w.payload) + rest);
      TakeBinRoundTrip(w.payload, rest);
    }
  }

  lemma WillExact(flags: FlagSet, b: Bytes)
    requires TakeWill(flags, b).Ok?
    ensures var (will, rest) := TakeWill(flags, b).value;
            WillFlags(flags, will) && GoodWill(will) && b == WillThen(will, rest)
  {
    if flags.will {
      PropertiesExact(b, false);
      var b1 := TakeProperties(b, false).value.1;
      TakeStrExact(b1);
      TakeBinExact(TakeStr(b1).value.1);
    }
  }

  lemma ConnectFieldsReadBack(p: Packet, flags: FlagSet)
    requires p.Connect? && Decodable(p)
    requires flags == FlagsFor(p.cleanStart, p.will, p.username.Some?, p.password.Some?)
    ensures ParseConnectFields(flags, p.keepAlive, p.properties, ConnectFields(p)) == Ok(p)
  {
    var b3 := FieldThen(p.password, []);
    var b2 := FieldThen(p.username, b3);
    TakeStrRoundTrip(p.clientId, WillThen(p.will, b2));
    WillReadsBack(flags, p.will, b2);
    UsernameReadsBack(flags, p.username, b3);
    PasswordReadsBack(flags, p.password, []);
  }

  lemma ConnectReadsBack(p: Packet)
    requires p.Connect? && Decodable(p)
    ensures ParseConnect(Body(p)) == Ok(p)
  {
    var flags := FlagsFor(p.cleanStart, p.will, p.username.Some?, p.password.Some?);
    FlagsByteRoundTrip(flags);
    HeadReadsBack(PROTOCOL_LEVEL, FlagsByte(flags), p.keepAlive, PropertiesThen(p.properties, ConnectFields(p)));
    PayloadLenExact(p.properties);
    PropertiesReadBack(p.properties, false, ConnectFields(p));
    ConnectFieldsReadBack(p, flags);
  }

  lemma ConnectFieldsExact(flags: FlagSet, keepAlive: u16, ps: Properties, b: Bytes)
    requires ParseConnectFields(flags, keepAlive, ps, b).Ok?
    ensures var p := ParseConnectFields(flags, keepAlive, ps, b).value;
            && p.Connect? && p.keepAlive == keepAlive && p.properties == ps && GoodWill(p.will)
            && UsernameFault(p.username).None? && PasswordFault(p.password).None? && StrError(p.clientId).None?
            && flags == FlagsFor(p.cleanStart, p.will, p.username.Some?, p.password.Some?)
            && b == ConnectFields(p)
  {
    TakeStrExact(b);
    var b1 := TakeStr(b).value.1;
    WillExact(flags, b1);
    var b2 := TakeWill(flags, b1).value.1;
    UsernameExact(flags, b2);
    PasswordExact(flags, TakeUsername(flags, b2).value.1);
  }

  lemma ConnectExact(b: Bytes)
    requires ParseConnect(b).Ok?
    ensures var p := ParseConnect(b).value;
            && p.Connect? && Body(p) == b && FieldFault(p).None? && Fits(p) && GoodWill(p.will)
            && ValidForConnect(p.properties) && NoDuplicates(p.properties, false, {})
  {
    HeadExact(PROTOCOL_LEVEL, b);
    var ((flags, keepAlive), b1) := TakeConnectHead(PROTOCOL_LEVEL, b).value;
    PropertiesExact(b1, false);
    var (ps, b2) := TakeProperties(b1, false).value;
    ConnectFieldsExact(FlagsOf(flags), keepAlive, ps, b2);
    FlagsByteExact(flags);
    var p := ParseConnect(b).value;
    PayloadLenExact(ps);
    if p.will.Some? {
      PayloadLenExact(p.will.value.properties);
    }
  }

  lemma DecodedConnect(b: Bytes)
    requires DecodeConnect(b).Ok?
    ensures var (p, n) := DecodeConnect(b).value; p.Connect? && IsReadFrom(b, p, n)
  {
    var body := UnframedIsFrame(b, CheckConnect, NeverBare, ConnectBody);
    ConnectExact(body);
    EncodableIffForwardable(ParseConnect(body).value);
  }

  lemma ConnectDecodes(p: Packet, rest: Bytes)
    requires p.Connect? && Decodable(p)
    ensures DecodeConnect(Wire(p) + rest) == Ok((p, |Wire(p)|))
  {
    ConnectReadsBack(p);
    FrameIsUnframed(FirstByte(p), Body(p), rest, CheckConnect, NeverBare, ConnectBody);
  }

  /** CONNECT round trip. */
  lemma ConnectRoundTrip(p: Packet, rest: Bytes)
    requires p.Connect? && Encodable(p)
    ensures DecodeConnect(Wire(p) + rest) == Ok((p, |Wire(p)|))
  {
    EncodableIffForwardable(p);
    ConnectDecodes(p, rest);
  }

  /** A Will payload declared to be UTF-8 that is not: decoded, and not encodable again. */
  lemma ReceivedMalformedWill(keepAlive: u16)
    ensures var will := Will(TOPIC, [0xFF], AtMostOnce, false, [PayloadFormatIndicator(1)]);
            var p := Connect(TOPIC, true, keepAlive, [], Some(will), None, None);
            && DecodeConnect(Wire(p)) == Ok((p, |Wire(p)|))
            && Validate(p) == Some(InvalidPayloadUtf8)
  {
    TopicIsPlain();
    var ps := [PayloadFormatIndicator(1)];
    var will := Will(TOPIC, [0xFF], AtMostOnce, false, ps);
    var p := Connect(TOPIC, true, keepAlive, [], Some(will), None, None);
    SingleProperty(ps[0], false);
    PayloadLenExact(ps);
    assert Identifier(ps[0]) == 0x01 && DeclaresUtf8(ps);
    ConnectLenExact(p);
    ConnectDecodes(p, []);
    assert Wire(p) + [] == Wire(p);
  }

  // -- SUBSCRIBE ------------------------------------------------------------------------------

  lemma OptionsRoundTrip(s: Subscription)
    ensures OptionsOf(s.topicFilter, OptionsByte(s)) == Some(s)
  {
    var o4 := RetainHandlingByte(s.retainHandling);
    var o3 := Bit(s.retainAsPublished, 1) + 2 * o4;
    var o2 := Bit(s.noLocal, 1) + 2 * o3;
    ShiftTwo(OptionsByte(s), QoSByte(s.qos), o2);
    ShiftOne(o2, s.noLocal, o3);
    ShiftOne(o3, s.retainAsPublished, o4);
  }

  lemma OptionsExact(filter: Text, options: u8)
    requires OptionsOf(filter, options).Some?
    ensures OptionsByte(OptionsOf(filter, options).value) == options
  {
    var o2 := options / 4;
    assert options == options % 4 + 4 * o2;
    LowBit(o2);
    LowBit(o2 / 2);
  }

  lemma TakeSubscriptionReadsBack(s: Subscription, rest: Bytes)
    requires StrError(s.topicFilter).None? && IsValidV5Filter(s.topicFilter) && !(s.noLocal && IsShared(s.topicFilter))
    ensures TakeSubscription(FieldBytes(s.topicFilter) + ([OptionsByte(s)] + rest)) == Ok((s, rest))
  {
    TakeStrRoundTrip(s.topicFilter, [OptionsByte(s)] + rest);
    OptionsRoundTrip(s);
    assert ([OptionsByte(s)] + rest)[1..] == rest;
  }

  lemma {:induction false} SubscriptionsReadBack(list: seq<Subscription>)
    requires SubscriptionsFault(list).None? && SubscriptionsCheck(list).None?
    ensures ParseSubscriptions(SubscriptionsBytes(list)) == Ok(list)
    decreases |list|
  {
    if list != [] {
      var first, rest := list[0], list[1..];
      SubscriptionsReadBack(rest);
      TakeSubscriptionReadsBack(first, SubscriptionsBytes(rest));
      assert list == [first] + rest;
    }
  }

  lemma TakeSubscriptionExact(b: Bytes)
    requires TakeSubscription(b).Ok?
    ensures var (s, rest) := TakeSubscription(b).value;
            && b == FieldBytes(s.topicFilter) + ([OptionsByte(s)] + rest) && StrError(s.topicFilter).None?
            && IsValidV5Filter(s.topicFilter) && !(s.noLocal && IsShared(s.topicFilter))
  {
    TakeStrExact(b);
    var (filter, b1) := TakeStr(b).value;
    OptionsExact(filter, b1[0]);
    assert b1 == [b1[0]] + b1[1..];
  }

  lemma {:induction false} SubscriptionsExact(b: Bytes)
    requires ParseSubscriptions(b).Ok?
    ensures var list := ParseSubscriptions(b).value;
            SubscriptionsBytes(list) == b && SubscriptionsFault(list).None? && SubscriptionsCheck(list).None?
    decreases |b|
  {
    if b != [] {
      TakeSubscriptionExact(b);
      var (s, rest) := TakeSubscription(b).value;
      SubscriptionsExact(rest);
      assert ParseSubscriptions(b).value[1..] == ParseSubscriptions(rest).value;
    }
  }

  lemma SubscribeReadsBack(p: Packet)
    requires p.Subscribe? && Decodable(p)
    ensures ParseSubscribe(Body(p)) == Ok(p)
  {
    var rest := SubscriptionsBytes(p.subscriptions);
    TakeIdReadsBack(p.packetId, PropertiesThen(p.properties, rest));
    PayloadLenExact(p.properties);
    PropertiesReadBack(p.properties, false, rest);
    SubscriptionsReadBack(p.subscriptions);
  }

  lemma SubscribeExact(b: Bytes)
    requires ParseSubscribe(b).Ok?
    ensures var p := ParseSubscribe(b).value;
            p.Subscribe? && Body(p) == b && FieldFault(p).None? && Fits(p) && Validate(p).None?
  {
    TakeIdExact(b);
    var b1 := TakeId(b).value.1;
    PropertiesExact(b1, false);
    var (ps, b2) := TakeProperties(b1, false).value;
    SubscriptionsExact(b2);
    PayloadLenExact(ps);
  }

  lemma DecodedSubscribe(b: Bytes)
    requires DecodeSubscribe(b).Ok?
    ensures var (p, n) := DecodeSubscribe(b).value; p.Subscribe? && IsReadFrom(b, p, n)
  {
    var body := UnframedIsFrame(b, CheckSubscribe, NeverBare, SubscribeBody);
    SubscribeExact(body);
    EncodableIffForwardable(ParseSubscribe(body).value);
  }

  /** SUBSCRIBE round trip. */
  lemma SubscribeRoundTrip(p: Packet, rest: Bytes)
    requires p.Subscribe? && Encodable(p)
    ensures DecodeSubscribe(Wire(p) + rest) == Ok((p, |Wire(p)|))
  {
    EncodableIffForwardable(p);
    SubscribeReadsBack(p);
    FrameIsUnframed(FirstByte(p), Body(p), rest, CheckSubscribe, NeverBare, SubscribeBody);
  }
}
