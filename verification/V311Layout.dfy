/**
 * The packets of MQTT v3.1.1 byte by byte (sections 2 and 3 of MQTT v3.1.1), with every constant written
 * out: what is sent for a packet, which packets may be sent, and what is read.
 */
module V311Layout {
  import opened Prelude
  import opened Vbi
  import opened Fields
  import opened HeaderFlags
  import opened CommonParts
  import opened Literals
  import opened V311
  import opened V311RoundTrip

  // -- the reference form -------------------------------------------------------------------------

  /** The number of a QoS on the wire. */
  function Level(qos: QoS): u8 {
    if qos == AtMostOnce then 0 else if qos == AtLeastOnce then 1 else 2
  }

  /** The packet type of section 2.2.1. */
  function Type(p: Packet): u8 {
    match p
    case Connect(_, _, _, _, _, _) => 1
    case ConnAck(_, _) => 2
    case Publish(_, _, _, _, _, _) => 3
    case Ack(kind, _) =>
      (match kind case PubAck => 4 case PubRec => 5 case PubRel => 6 case PubComp => 7 case UnsubAck => 11)
    case Subscribe(_, _) => 8
    case SubAck(_, _) => 9
    case Unsubscribe(_, _) => 10
    case Bare(kind) => (match kind case PingReq => 12 case PingResp => 13 case Disconnect => 14)
  }

  /** The flags of section 2.2.2: DUP, QoS and RETAIN of a PUBLISH, and the fixed ones of the others. */
  function Flags(p: Packet): u8 {
    match p
    case Publish(dup, qos, retain, _, _, _) => (if dup then 8 else 0) + 2 * Level(qos) + (if retain then 1 else 0)
    case Ack(kind, _) => if kind == PubRel then 2 else 0
    case Subscribe(_, _) => 2
    case Unsubscribe(_, _) => 2
    case _ => 0
  }

  predicate IsShort(field: Option<Bytes>) {
    field.Some? ==> |field.value| <= 65_535
  }

  /** The fields that carry a length can carry it. */
  predicate HasLengths(p: Packet) {
    match p
    case Connect(clientId, _, _, will, username, password) =>
      && |clientId| <= 65_535 && IsShort(username) && IsShort(password)
      && (will.Some? ==> |will.value.topic| <= 65_535 && |will.value.payload| <= 65_535)
    case Publish(_, _, _, topic, _, _) => |topic| <= 65_535
    case Subscribe(_, list) => forall i | 0 <= i < |list| :: |list[i].topicFilter| <= 65_535
    case Unsubscribe(_, list) => forall i | 0 <= i < |list| :: |list[i]| <= 65_535
    case _ => true
  }

  function FieldOf(field: Option<Bytes>, rest: Bytes): Bytes
    requires IsShort(field)
  {
    if field.None? then rest else Prefixed(field.value) + rest
  }

  /** Each bit of the CONNECT flags, the highest first. */
  function ConnectBits(p: Packet): u8
    requires p.Connect?
  {
    (if p.username.Some? then 128 else 0) + (if p.password.Some? then 64 else 0)
    + (match p.will case None => 0 case Some(w) => (if w.retain then 32 else 0) + 8 * Level(w.qos) + 4)
    + (if p.cleanSession then 2 else 0)
  }

  function FilterList(list: seq<Subscription>): Bytes
    requires forall i | 0 <= i < |list| :: |list[i].topicFilter| <= 65_535
  {
    if list == [] then []
    else Prefixed(list[0].topicFilter) + ([Level(list[0].qos)] + FilterList(list[1..]))
  }

  function TopicList(list: seq<Text>): Bytes
    requires forall i | 0 <= i < |list| :: |list[i]| <= 65_535
  {
    if list == [] then [] else Prefixed(list[0]) + TopicList(list[1..])
  }

  /** Everything behind the Remaining Length. */
  function Content(p: Packet): Bytes
    requires HasLengths(p)
  {
    match p
    case Connect(clientId, _, keepAlive, will, username, password) =>
      [0x00, 0x04, 0x4D, 0x51, 0x54, 0x54, 0x04, ConnectBits(p), keepAlive / 256, keepAlive % 256]
      + (Prefixed(clientId)
         + (var last := FieldOf(username, FieldOf(password, []));
            match will case None => last case Some(w) => Prefixed(w.topic) + (Prefixed(w.payload) + last)))
    case ConnAck(present, code) => [if present then 1 else 0, code]
    case Publish(_, _, _, topic, id, payload) =>
      Prefixed(topic) + (if id.None? then payload else [id.value / 256, id.value % 256] + payload)
    case Ack(_, id) => [id / 256, id % 256]
    case Subscribe(id, list) => [id / 256, id % 256] + FilterList(list)
    case SubAck(id, codes) => [id / 256, id % 256] + codes
    case Unsubscribe(id, list) => [id / 256, id % 256] + TopicList(list)
    case Bare(_) => []
  }

  /** The packet on the wire. */
  function Layout(p: Packet): Bytes
    requires HasLengths(p) && |Content(p)| <= 268_435_455
  {
    [16 * Type(p) + Flags(p)] + (LengthBytes(|Content(p)|) + Content(p))
  }

  // -- what is written has it ---------------------------------------------------------------------

  lemma {:induction false} FilterListIs(list: seq<Subscription>)
    requires forall i | 0 <= i < |list| :: |list[i].topicFilter| <= 65_535
    ensures SubscriptionsBytes(list) == FilterList(list)
    decreases |list|
  {
    if list != [] {
      FilterListIs(list[1..]);
      WrittenField(0, list[0].topicFilter);
      assert QoSByte(list[0].qos) == Level(list[0].qos);
    }
  }

  lemma {:induction false} TopicListIs(list: seq<Text>)
    requires forall i | 0 <= i < |list| :: |list[i]| <= 65_535
    ensures FiltersBytes(list) == TopicList(list)
    decreases |list|
  {
    if list != [] {
      TopicListIs(list[1..]);
      WrittenField(0, list[0]);
    }
  }

  lemma FirstByteIs(p: Packet)
    ensures FirstByte(p) == 16 * Type(p) + Flags(p)
  {
  }

  lemma ConnectHeadIs(flags: u8, keepAlive: u16, rest: Bytes)
    ensures ConnectHeadThen(PROTOCOL_LEVEL, flags, keepAlive, rest)
            == [0x00, 0x04, 0x4D, 0x51, 0x54, 0x54, 0x04, flags, keepAlive / 256, keepAlive % 256] + rest
  {
    WrittenField(keepAlive, PROTOCOL_NAME);
    assert FieldBytes(PROTOCOL_NAME) == [0x00, 0x04, 0x4D, 0x51, 0x54, 0x54];
    assert FieldBytes(PROTOCOL_NAME) + ([PROTOCOL_LEVEL, flags] + (U16Bytes(keepAlive) + rest))
           == FieldBytes(PROTOCOL_NAME) + [PROTOCOL_LEVEL, flags] + U16Bytes(keepAlive) + rest;
  }

  lemma ConnectFieldsAre(p: Packet)
    requires p.Connect? && HasLengths(p)
    ensures var last := FieldOf(p.username, FieldOf(p.password, []));
            ConnectFields(p) == Prefixed(p.clientId) + (match p.will case None => last case Some(w) =>
                                                          Prefixed(w.topic) + (Prefixed(w.payload) + last))
  {
    WrittenField(0, p.clientId);
    if p.will.Some? {
      WrittenField(0, p.will.value.topic);
      WrittenField(0, p.will.value.payload);
    }
    if p.username.Some? {
      WrittenField(0, p.username.value);
    }
    if p.password.Some? {
      WrittenField(0, p.password.value);
    }
  }

  lemma FlagsAre(p: Packet)
    requires p.Connect?
    ensures ConnectFlags(p.cleanSession, p.will, p.username.Some?, p.password.Some?) == ConnectBits(p)
  {
  }

  lemma ConnectContent(p: Packet)
    requires p.Connect? && HasLengths(p)
    ensures Body(p) == Content(p)
  {
    ConnectFieldsAre(p);
    FlagsAre(p);
    ConnectHeadIs(ConnectBits(p), p.keepAlive, ConnectFields(p));
  }

  lemma ContentIs(p: Packet)
    requires HasLengths(p)
    ensures Body(p) == Content(p)
  {
    match p {
      case Connect(_, _, _, _, _, _) => ConnectContent(p);
      case Publish(_, _, _, topic, id, _) => WrittenField(if id.Some? then id.value else 0, topic);
      case Subscribe(id, list) => FilterListIs(list);
      case Unsubscribe(id, list) => TopicListIs(list);
      case ConnAck(_, _) =>
      case Ack(_, _) =>
      case SubAck(_, _) =>
      case Bare(_) =>
    }
  }

  // -- which packets may be written ---------------------------------------------------------------

  predicate IsTopicName(s: Bytes) {
    s != [] && 0x2B !in s && 0x23 !in s
  }

  predicate IsWritable(s: Bytes) {
    |s| <= 65_535 && 0x00 !in s
  }

  /** The rules of section 3, packet by packet. */
  predicate IsLawful(p: Packet) {
    match p
    case Connect(clientId, cleanSession, _, will, username, password) =>
      && (password.Some? ==> username.Some?) && (clientId == [] ==> cleanSession)
      && (will.Some? ==> IsTopicName(will.value.topic))
    case ConnAck(present, code) => present ==> code == 0
    case Publish(dup, qos, _, topic, id, _) =>
      && IsTopicName(topic)
      && (if qos == AtMostOnce then id == None && !dup else id != None && id != Some(0))
    case Ack(_, id) => id != 0
    case Subscribe(id, list) =>
      id != 0 && list != [] && forall i | 0 <= i < |list| :: IsPlainFilter(list[i].topicFilter)
    case SubAck(id, codes) => id != 0 && codes != []
    case Unsubscribe(id, list) => id != 0 && list != [] && forall i | 0 <= i < |list| :: IsPlainFilter(list[i])
    case Bare(_) => true
  }

  /** Every text of the packet may be written. */
  predicate HasWritableTexts(p: Packet) {
    match p
    case Connect(clientId, _, _, will, username, password) =>
      && IsWritable(clientId) && (username.Some? ==> IsWritable(username.value)) && IsShort(password)
      && (will.Some? ==> IsWritable(will.value.topic) && |will.value.payload| <= 65_535)
    case Publish(_, _, _, topic, _, _) => IsWritable(topic)
    case Subscribe(_, list) => forall i | 0 <= i < |list| :: IsWritable(list[i].topicFilter)
    case Unsubscribe(_, list) => forall i | 0 <= i < |list| :: IsWritable(list[i])
    case _ => true
  }

  lemma {:induction false} FiltersWritable(list: seq<Subscription>)
    ensures SubscriptionsFault(list).None? <==> forall i | 0 <= i < |list| :: IsWritable(list[i].topicFilter)
    decreases |list|
  {
    if list != [] {
      FiltersWritable(list[1..]);
      WritableText(list[0].topicFilter);
      assert forall i | 1 <= i < |list| :: list[i] == list[1..][i - 1];
    }
  }

  lemma {:induction false} TopicsWritable(list: seq<Text>)
    ensures FiltersFault(list).None? <==> forall i | 0 <= i < |list| :: IsWritable(list[i])
    decreases |list|
  {
    if list != [] {
      TopicsWritable(list[1..]);
      WritableText(list[0]);
      assert forall i | 1 <= i < |list| :: list[i] == list[1..][i - 1];
    }
  }

  /** The only faults of a text: a NUL, or a length beyond what its prefix can tell. */
  predicate IsTextFault(fault: Option<EncodeError>) {
    fault.Some? ==> fault == Some(InvalidField(NullInUtf8String)) || fault.value.PacketTooLarge?
  }

  lemma {:induction false} FilterFaults(list: seq<Subscription>)
    ensures IsTextFault(SubscriptionsFault(list))
    ensures (forall i | 0 <= i < |list| :: |list[i].topicFilter| <= 65_535) && SubscriptionsFault(list).Some?
            ==> SubscriptionsFault(list) == Some(InvalidField(NullInUtf8String))
    decreases |list|
  {
    if list != [] {
      FilterFaults(list[1..]);
      assert forall i | 0 <= i < |list[1..]| :: list[1..][i] == list[i + 1];
    }
  }

  lemma {:induction false} TopicFaults(list: seq<Text>)
    ensures IsTextFault(FiltersFault(list))
    ensures (forall i | 0 <= i < |list| :: |list[i]| <= 65_535) && FiltersFault(list).Some?
            ==> FiltersFault(list) == Some(InvalidField(NullInUtf8String))
    decreases |list|
  {
    if list != [] {
      TopicFaults(list[1..]);
      assert forall i | 0 <= i < |list[1..]| :: list[1..][i] == list[i + 1];
    }
  }

  lemma FaultsAre(p: Packet)
    ensures IsTextFault(FieldFault(p))
    ensures HasLengths(p) && FieldFault(p).Some? ==> FieldFault(p) == Some(InvalidField(NullInUtf8String))
  {
    match p {
      case Subscribe(_, list) => FilterFaults(list);
      case Unsubscribe(_, list) => TopicFaults(list);
      case _ =>
    }
  }

  lemma TextsWritable(p: Packet)
    ensures FieldFault(p).None? <==> HasWritableTexts(p)
    ensures HasWritableTexts(p) ==> HasLengths(p)
  {
    match p {
      case Subscribe(_, list) => FiltersWritable(list);
      case Unsubscribe(_, list) => TopicsWritable(list);
      case _ =>
    }
  }

  lemma LawfulIs(p: Packet)
    ensures Validate(p).None? <==> IsLawful(p)
  {
    match p {
      case Subscribe(_, list) => assert forall s: Bytes :: IsValidFilter(s) <==> IsPlainFilter(s);
      case Unsubscribe(_, list) => assert forall s: Bytes :: IsValidFilter(s) <==> IsPlainFilter(s);
      case _ =>
    }
  }

  /** A packet is written if and only if it follows the rules, and its texts and its length can be told. */
  lemma EncodableIs(p: Packet)
    ensures Encodable(p) <==> IsLawful(p) && HasWritableTexts(p) && |Content(p)| <= 268_435_455
  {
    LawfulIs(p);
    TextsWritable(p);
    if HasWritableTexts(p) {
      ContentIs(p);
    }
  }

  /** What is written for a packet, byte by byte. */
  lemma WireIsLayout(p: Packet)
    requires Encodable(p)
    ensures HasLengths(p) && |Content(p)| <= 268_435_455 && Wire(p) == Layout(p)
  {
    EncodableIs(p);
    TextsWritable(p);
    ContentIs(p);
    FirstByteIs(p);
    WrittenLength(|Content(p)|);
    assert [FirstByte(p)] + VbiBytes(|Body(p)|) + Body(p) == [FirstByte(p)] + (VbiBytes(|Body(p)|) + Body(p));
  }

  /** And these bytes are read as that packet. */
  lemma LayoutIsRead(p: Packet, rest: Bytes)
    requires IsLawful(p) && HasWritableTexts(p) && |Content(p)| <= 268_435_455
    ensures Decode(Layout(p) + rest) == Ok((p, |Layout(p)|))
  {
    EncodableIs(p);
    WireIsLayout(p);
    DecodesWire(p, rest);
  }

  /** Nothing else is. */
  lemma ReadIsLayout(b: Bytes)
    requires Decode(b).Ok?
    ensures var (p, n) := Decode(b).value;
            && IsLawful(p) && HasWritableTexts(p) && |Content(p)| <= 268_435_455
            && n == |Layout(p)| <= |b| && b[..n] == Layout(p)
  {
    var (p, n) := Decode(b).value;
    DecodedIsWire(b);
    EncodableIs(p);
    WireIsLayout(p);
  }

  // -- bit by bit ---------------------------------------------------------------------------------

  /** The type is in the high four bits of the first byte, the flags in the low four. */
  lemma FirstByteBits(p: Packet)
    requires Encodable(p)
    ensures Wire(p)[0] / 16 == Type(p) && Wire(p)[0] % 16 == Flags(p)
    ensures p.Publish? ==>
              var first := Wire(p)[0];
              && (first / 8 % 2 == 1 <==> p.dup) && first / 2 % 4 == Level(p.qos) && (first % 2 == 1 <==> p.retain)
  {
    WireIsLayout(p);
  }

  /** The CONNECT flags, bit 7 to bit 0. */
  predicate HasConnectBits(flags: u8, p: Packet)
    requires p.Connect?
  {
    && (flags / 128 == 1 <==> p.username.Some?) && (flags / 64 % 2 == 1 <==> p.password.Some?)
    && (flags / 32 % 2 == 1 <==> p.will.Some? && p.will.value.retain)
    && flags / 8 % 4 == (if p.will.Some? then Level(p.will.value.qos) else 0)
    && (flags / 4 % 2 == 1 <==> p.will.Some?) && (flags / 2 % 2 == 1 <==> p.cleanSession)
    && flags % 2 == 0
  }

  lemma BitsAre(p: Packet)
    requires p.Connect?
    ensures HasConnectBits(ConnectBits(p), p)
  {
    BitsOfSum(p.username.Some?, p.password.Some?, p.will.Some? && p.will.value.retain,
              if p.will.Some? then Level(p.will.value.qos) else 0, p.will.Some?, p.cleanSession);
  }

  /** The content of a CONNECT: protocol name and level, the flags, Keep Alive with its high byte first. */
  lemma ConnectByPosition(p: Packet, content: Bytes)
    requires Encodable(p) && p.Connect?
    requires |content| < |Wire(p)| && content == Wire(p)[|Wire(p)| - |content|..] && |content| == |Body(p)|
    ensures |content| >= 10 && content[..7] == [0x00, 0x04, 0x4D, 0x51, 0x54, 0x54, 0x04]
    ensures HasConnectBits(content[7], p) && content[8] == p.keepAlive / 256 && content[9] == p.keepAlive % 256
  {
    WireIsLayout(p);
    ContentIs(p);
    ContentAtEnd(p);
    ContentHead(p);
    BitsAre(p);
  }

  lemma ContentAtEnd(p: Packet)
    requires HasLengths(p) && |Content(p)| <= 268_435_455
    ensures |Layout(p)| > |Content(p)| && Layout(p)[|Layout(p)| - |Content(p)|..] == Content(p)
  {
  }

  lemma ContentHead(p: Packet)
    requires p.Connect? && HasLengths(p)
    ensures |Content(p)| >= 10 && Content(p)[..7] == [0x00, 0x04, 0x4D, 0x51, 0x54, 0x54, 0x04]
    ensures Content(p)[7] == ConnectBits(p)
    ensures Content(p)[8] == p.keepAlive / 256 && Content(p)[9] == p.keepAlive % 256
  {
  }

  lemma BitsOfSum(username: bool, password: bool, retain: bool, qos: nat, will: bool, clean: bool)
    requires qos <= 2
    ensures var flags := (if username then 128 else 0) + (if password then 64 else 0) + (if retain then 32 else 0)
                         + 8 * qos + (if will then 4 else 0) + (if clean then 2 else 0);
            && (flags / 128 == 1 <==> username) && (flags / 64 % 2 == 1 <==> password)
            && (flags / 32 % 2 == 1 <==> retain) && flags / 8 % 4 == qos
            && (flags / 4 % 2 == 1 <==> will) && (flags / 2 % 2 == 1 <==> clean) && flags % 2 == 0
  {
    var f7 := if username then 1 else 0;
    var f6 := 2 * f7 + if password then 1 else 0;
    var f5 := 2 * f6 + if retain then 1 else 0;
    var f3 := 4 * f5 + qos;
    var f2 := 2 * f3 + if will then 1 else 0;
    var f1 := 2 * f2 + if clean then 1 else 0;
    var flags := 2 * f1;
    assert flags / 4 == f2 && flags / 8 == f3 && flags / 32 == f5 && flags / 64 == f6 && flags / 128 == f7;
  }

  // -- why a packet is refused ----------------------------------------------------------------------

  /** The first rule that a CONNECT or PUBLISH breaks is the reason of the refusal. */
  lemma RefusedPackets(p: Packet, capacity: nat)
    ensures var r := EncodeResult(p, capacity);
            match p
            case Connect(clientId, cleanSession, _, will, username, password) =>
              && (password.Some? && username.None? <==> r == Err(InvalidField(PasswordWithoutUsername)))
              && (password.None? || username.Some? ==>
                    && (clientId == [] && !cleanSession <==> r == Err(InvalidField(EmptyClientIdWithoutCleanSession)))
                    && (clientId != [] || cleanSession ==>
                          && (will.Some? && will.value.topic == [] <==> r == Err(InvalidField(EmptyTopicName)))
                          && (will.Some? && will.value.topic != [] && !IsTopicName(will.value.topic)
                              <==> r == Err(InvalidField(WildcardInTopicName)))))
            case ConnAck(_, _) => !IsLawful(p) <==> r == Err(InvalidField(SessionPresentWithNonSuccess))
            case Publish(dup, qos, _, topic, id, _) =>
              && (topic == [] <==> r == Err(InvalidField(EmptyTopicName)))
              && (topic != [] && !IsTopicName(topic) <==> r == Err(InvalidField(WildcardInTopicName)))
              && (IsTopicName(topic) ==>
                    && (qos != AtMostOnce && id == Some(0) <==> r == Err(InvalidField(ZeroPacketId)))
                    && (qos != AtMostOnce && id == None <==> r == Err(InvalidField(MissingPacketId)))
                    && (qos == AtMostOnce && id != None <==> r == Err(InvalidField(UnexpectedPacketId)))
                    && (qos == AtMostOnce && id == None && dup <==> r == Err(InvalidField(DupWithQos0))))
            case Ack(_, id) => id == 0 <==> r == Err(InvalidField(ZeroPacketId))
            case Subscribe(id, list) =>
              && (id == 0 <==> r == Err(InvalidField(ZeroPacketId)))
              && (id != 0 && list == [] <==> r == Err(InvalidField(EmptyTopicFilters)))
              && (id != 0 && list != [] && !IsLawful(p) <==> r == Err(InvalidField(InvalidTopicFilter)))
            case SubAck(id, codes) =>
              && (id == 0 <==> r == Err(InvalidField(ZeroPacketId)))
              && (id != 0 && codes == [] <==> r == Err(InvalidField(EmptyReturnCodes)))
            case Unsubscribe(id, list) =>
              && (id == 0 <==> r == Err(InvalidField(ZeroPacketId)))
              && (id != 0 && list == [] <==> r == Err(InvalidField(EmptyTopicFilters)))
              && (id != 0 && list != [] && !IsLawful(p) <==> r == Err(InvalidField(InvalidTopicFilter)))
            case Bare(_) => capacity >= 2 <==> r == Ok(2)
  {
    LawfulIs(p);
    FaultsAre(p);
  }

  /** A lawful packet is refused for its length, the room it has, or its texts, in this order. */
  lemma RefusedSizes(p: Packet, capacity: nat)
    requires IsLawful(p) && HasLengths(p)
    ensures var r, n := EncodeResult(p, capacity), |Content(p)|;
            && (n > 268_435_455 <==> r == Err(EncodeError.PacketTooLarge(n, 268_435_455)))
            && (n <= 268_435_455 ==>
                  && (capacity < |Layout(p)| <==> r == Err(BufferTooSmall))
                  && (capacity >= |Layout(p)| ==>
                        && (HasWritableTexts(p) ==> r == Ok(|Layout(p)|))
                        && (!HasWritableTexts(p) ==> r == Err(InvalidField(NullInUtf8String)))))
  {
    LawfulIs(p);
    FaultsAre(p);
    TextsWritable(p);
    ContentIs(p);
    if |Content(p)| <= 268_435_455 {
      WrittenLength(|Content(p)|);
    }
  }

  // -- why bytes are refused ------------------------------------------------------------------------

  /** The flags that section 2.2.2 asks for. */
  predicate HasGoodFlags(first: u8) {
    if first / 16 == 3 then first / 2 % 4 != 3 && (first / 2 % 4 == 0 ==> first / 8 % 2 == 0)
    else if first / 16 == 6 || first / 16 == 8 || first / 16 == 10 then first % 16 == 2
    else first % 16 == 0
  }

  /** The checks of the header in their order, before anything of the body is looked at. */
  lemma RefusedHeaders(b: Bytes)
    ensures b == [] ==> Decode(b) == Err(InsufficientData)
    ensures b != [] ==>
              var t := b[0] / 16;
              && (t == 0 || t == 15 ==> Decode(b) == Err(InvalidPacketType))
              && (1 <= t <= 14 && !HasGoodFlags(b[0]) ==> Decode(b) == Err(InvalidPacketFlags))
              && (1 <= t <= 14 && HasGoodFlags(b[0]) ==>
                    match VbiDecode(b[1..])
                    case Err(e) => Decode(b) == Err(e)
                    case Ok((n, k)) =>
                      && (t >= 12 && n != 0 ==> Decode(b) == Err(MalformedPacket))
                      && ((t < 12 || n == 0) && |b| < 1 + k + n ==> Decode(b) == Err(InsufficientData)))
  {
  }

  predicate IsBodyError(e: DecodeError) {
    e == MalformedPacket || e == InvalidUtf8
  }

  lemma {:induction false} SubscriptionsErrors(b: Bytes)
    ensures ParseSubscriptions(b).Err? ==> IsBodyError(ParseSubscriptions(b).error)
    decreases |b|
  {
    if b != [] && TakeSubscription(b).Ok? {
      SubscriptionsErrors(TakeSubscription(b).value.1);
    }
  }

  lemma {:induction false} FiltersErrors(b: Bytes)
    ensures ParseFilters(b).Err? ==> IsBodyError(ParseFilters(b).error)
    decreases |b|
  {
    if b != [] && TakeFilter(b).Ok? {
      FiltersErrors(TakeFilter(b).value.1);
    }
  }

  lemma WillErrors(flags: FlagSet, b: Bytes)
    ensures V311.TakeWill(flags, b).Err? ==> IsBodyError(V311.TakeWill(flags, b).error)
  {
  }

  lemma ConnectFieldErrors(flags: FlagSet, keepAlive: u16, b: Bytes)
    ensures ParseConnectFields(flags, keepAlive, b).Err? ==> IsBodyError(ParseConnectFields(flags, keepAlive, b).error)
  {
    if TakeStr(b).Ok? {
      WillErrors(flags, TakeStr(b).value.1);
    }
  }

  lemma ConnectErrors(b: Bytes)
    ensures ParseConnect(b).Err? ==> IsBodyError(ParseConnect(b).error)
  {
    var head := TakeConnectHead(PROTOCOL_LEVEL, b);
    if head.Ok? {
      ConnectFieldErrors(FlagsOf(head.value.0.0), head.value.0.1, head.value.1);
    }
  }

  lemma PublishErrors(flags: PublishFlags, b: Bytes)
    requires flags.qos <= 2
    ensures ParsePublish(flags, b).Err? ==> IsBodyError(ParsePublish(flags, b).error)
  {
  }

  lemma AckErrors(kind: AckKind, b: Bytes)
    ensures ParseAck(kind, b).Err? ==> IsBodyError(ParseAck(kind, b).error)
    ensures ParseConnAck(b).Err? ==> IsBodyError(ParseConnAck(b).error)
    ensures ParseSubAck(b).Err? ==> IsBodyError(ParseSubAck(b).error)
  {
  }

  lemma RequestErrors(b: Bytes)
    ensures ParseSubscribe(b).Err? ==> IsBodyError(ParseSubscribe(b).error)
    ensures ParseUnsubscribe(b).Err? ==> IsBodyError(ParseUnsubscribe(b).error)
  {
    if TakeId(b).Ok? {
      SubscriptionsErrors(TakeId(b).value.1);
      FiltersErrors(TakeId(b).value.1);
    }
  }

  lemma BodyErrors(first: u8, body: Bytes)
    requires 1 <= first / 16 <= 14 && HasGoodFlags(first)
    ensures ParseBody(first, body).Err? ==> IsBodyError(ParseBody(first, body).error)
  {
    ConnectErrors(body);
    RequestErrors(body);
    var kind := KindOfAck(first);
    AckErrors(if kind.Some? then kind.value else PubAck, body);
    if first / 16 == 3 {
      PublishErrors(PublishFlagsOf(first), body);
    }
  }

  lemma DecodedBody(b: Bytes, n: nat, k: nat)
    requires b != [] && 1 <= b[0] / 16 <= 14 && HasGoodFlags(b[0])
    requires VbiDecode(b[1..]) == Ok((n, k)) && 1 + k + n <= |b|
    ensures Decode(b) == if b[0] / 16 >= 12 && n != 0 then Err(MalformedPacket)
                         else match ParseBody(b[0], b[1 + k..1 + k + n])
                              case Ok(p) => Ok((p, 1 + k + n))
                              case Err(e) => Err(e)
  {
    GoodFirst(b[0]);
    CompletePacket(b, n, k, CheckFirst, IsBare, ParseBody);
  }

  lemma GoodFirst(first: u8)
    requires 1 <= first / 16 <= 14 && HasGoodFlags(first)
    ensures CheckFirst(first).None? && (IsBare(first) <==> first / 16 >= 12)
  {
  }

  /** With a good header and all of its bytes a packet is read, malformed, or has a text that is no UTF-8. */
  lemma RefusedBodies(b: Bytes, n: nat, k: nat)
    requires b != [] && 1 <= b[0] / 16 <= 14 && HasGoodFlags(b[0])
    requires VbiDecode(b[1..]) == Ok((n, k)) && 1 + k + n <= |b|
    ensures Decode(b).Err? ==> IsBodyError(Decode(b).error)
  {
    DecodedBody(b, n, k);
    BodyErrors(b[0], b[1 + k..1 + k + n]);
  }
}
