/**
 * PUBLISH, CONNECT and SUBSCRIBE of MQTT v5.0 byte by byte (section 3 of MQTT v5.0), with every constant
 * written out: what is sent, what may be sent and why not, and what is read.
 */
module V5PacketLayout {
  import opened Prelude
  import opened Vbi
  import opened Fields
  import opened HeaderFlags
  import opened CommonParts
  import opened Literals
  import opened V5Property
  import opened V5Packets
  import opened V5RoundTrip
  import opened V5Layout
  import S = Subscriptions

  // -- the reference form -------------------------------------------------------------------------

  function Level(qos: QoS): u8 {
    if qos == AtMostOnce then 0 else if qos == AtLeastOnce then 1 else 2
  }

  predicate HasListForm(ps: Properties) {
    (forall i | 0 <= i < |ps| :: HasForm(ps[i])) && |ListLayout(ps)| <= 268_435_455
  }

  function List(ps: Properties, rest: Bytes): Bytes
    requires HasListForm(ps)
  {
    LengthBytes(|ListLayout(ps)|) + (ListLayout(ps) + rest)
  }

  predicate IsShort(field: Option<Bytes>) {
    field.Some? ==> |field.value| <= 65_535
  }

  /** The fields and lists that carry a length can carry it. */
  predicate HasLengths(p: Packet) {
    && HasListForm(p.properties)
    && match p
       case Connect(clientId, _, _, _, will, username, password) =>
         && |clientId| <= 65_535 && IsShort(username) && IsShort(password)
         && (will.Some? ==>
               HasListForm(will.value.properties) && |will.value.topic| <= 65_535 && |will.value.payload| <= 65_535)
       case Publish(_, _, _, topic, _, _, _) => |topic| <= 65_535
       case Subscribe(_, _, list) => forall i | 0 <= i < |list| :: |list[i].topicFilter| <= 65_535
  }

  function FieldOf(field: Option<Bytes>, rest: Bytes): Bytes
    requires IsShort(field)
  {
    if field.None? then rest else Prefixed(field.value) + rest
  }

  /** Each bit of the CONNECT flags, the highest first. */
  function ConnectBits(p: Packet): u8
    requires p.Connect?
  {
    (if p.username.Some? then 128 else 0) + (if p.password.Some? then 64 else 0)
    + (match p.will case None => 0 case Some(w) => (if w.retain then 32 else 0) + 8 * Level(w.qos) + 4)
    + (if p.cleanStart then 2 else 0)
  }

  /** The subscription options of section 3.8.3.1, the highest bits first. */
  function OptionBits(s: Subscription): u8 {
    (match s.retainHandling case SendRetained => 0 case SendRetainedIfNotExists => 16 case DoNotSendRetained => 32)
    + (if s.retainAsPublished then 8 else 0) + (if s.noLocal then 4 else 0) + Level(s.qos)
  }

  function FilterList(list: seq<Subscription>): Bytes
    requires forall i | 0 <= i < |list| :: |list[i].topicFilter| <= 65_535
  {
    if list == [] then []
    else Prefixed(list[0].topicFilter) + ([OptionBits(list[0])] + FilterList(list[1..]))
  }

  /** Everything behind the Remaining Length. */
  function Content(p: Packet): Bytes
    requires HasLengths(p)
  {
    match p
    case Connect(clientId, _, keepAlive, ps, will, username, password) =>
      [0x00, 0x04, 0x4D, 0x51, 0x54, 0x54, 0x05, ConnectBits(p), keepAlive / 256, keepAlive % 256]
      + List(ps, Prefixed(clientId)
         + (var last := FieldOf(username, FieldOf(password, []));
            match will case None => last
            case Some(w) => List(w.properties, Prefixed(w.topic) + (Prefixed(w.payload) + last))))
    case Publish(_, _, _, topic, id, ps, payload) =>
      Prefixed(topic) + (if id.None? then List(ps, payload) else Short(id.value) + List(ps, payload))
    case Subscribe(id, ps, list) => Short(id) + List(ps, FilterList(list))
  }

  /** Type and flags. */
  function First(p: Packet): u8 {
    match p
    case Connect(_, _, _, _, _, _, _) => 0x10
    case Publish(dup, qos, retain, _, _, _, _) =>
      0x30 + (if dup then 8 else 0) + 2 * Level(qos) + (if retain then 1 else 0)
    case Subscribe(_, _, _) => 0x82
  }

  function Layout(p: Packet): Bytes
    requires HasLengths(p) && |Content(p)| <= 268_435_455
  {
    [First(p)] + (LengthBytes(|Content(p)|) + Content(p))
  }

  // -- what is written has it ---------------------------------------------------------------------

  lemma ListThen(ps: Properties, rest: Bytes)
    requires HasListForm(ps)
    ensures PropertiesThen(ps, rest) == List(ps, rest)
  {
    PropertiesAre(ps, rest);
  }

  lemma {:induction false} FilterListIs(list: seq<Subscription>)
    requires forall i | 0 <= i < |list| :: |list[i].topicFilter| <= 65_535
    ensures SubscriptionsBytes(list) == FilterList(list)
    decreases |list|
  {
    if list != [] {
      FilterListIs(list[1..]);
      WrittenField(0, list[0].topicFilter);
      assert OptionsByte(list[0]) == OptionBits(list[0]);
    }
  }

  lemma ConnectHeadIs(flags: u8, keepAlive: u16, rest: Bytes)
    ensures ConnectHeadThen(PROTOCOL_LEVEL, flags, keepAlive, rest)
            == [0x00, 0x04, 0x4D, 0x51, 0x54, 0x54, 0x05, flags, keepAlive / 256, keepAlive % 256] + rest
  {
    WrittenField(keepAlive, PROTOCOL_NAME);
    assert FieldBytes(PROTOCOL_NAME) == [0x00, 0x04, 0x4D, 0x51, 0x54, 0x54];
    assert FieldBytes(PROTOCOL_NAME) + ([PROTOCOL_LEVEL, flags] + (U16Bytes(keepAlive) + rest))
           == FieldBytes(PROTOCOL_NAME) + [PROTOCOL_LEVEL, flags] + U16Bytes(keepAlive) + rest;
  }

  lemma LastFieldsAre(username: Option<Text>, password: Option<Bytes>)
    requires IsShort(username) && IsShort(password)
    ensures FieldThen(username, FieldThen(password, [])) == FieldOf(username, FieldOf(password, []))
  {
    if username.Some? {
      WrittenField(0, username.value);
    }
    if password.Some? {
      WrittenField(0, password.value);
    }
  }

  lemma WillIs(will: Option<Will>, last: Bytes)
    requires will.Some? ==>
               HasListForm(will.value.properties) && |will.value.topic| <= 65_535 && |will.value.payload| <= 65_535
    ensures WillThen(will, last) == match will case None => last
              case Some(w) => List(w.properties, Prefixed(w.topic) + (Prefixed(w.payload) + last))
  {
    if will.Some? {
      WrittenField(0, will.value.topic);
      WrittenField(0, will.value.payload);
      ListThen(will.value.properties, Prefixed(will.value.topic) + (Prefixed(will.value.payload) + last));
    }
  }

  lemma ConnectContent(p: Packet)
    requires p.Connect? && HasLengths(p)
    ensures Body(p) == Content(p)
  {
    WrittenField(0, p.clientId);
    LastFieldsAre(p.username, p.password);
    WillIs(p.will, FieldOf(p.username, FieldOf(p.password, [])));
    ListThen(p.properties, ConnectFields(p));
    FlagsAre(p);
    ConnectHeadIs(ConnectBits(p), p.keepAlive, PropertiesThen(p.properties, ConnectFields(p)));
  }

  lemma FlagsAre(p: Packet)
    requires p.Connect?
    ensures FlagsByte(FlagsFor(p.cleanStart, p.will, p.username.Some?, p.password.Some?)) == ConnectBits(p)
  {
  }

  lemma ContentIs(p: Packet)
    requires HasLengths(p)
    ensures Body(p) == Content(p)
  {
    match p {
      case Connect(_, _, _, _, _, _, _) => ConnectContent(p);
      case Publish(_, _, _, topic, id, ps, payload) =>
        WrittenField(if id.Some? then id.value else 0, topic);
        ListThen(ps, payload);
      case Subscribe(id, ps, list) =>
        FilterListIs(list);
        ListThen(ps, FilterList(list));
    }
  }

  // -- which packets may be written ---------------------------------------------------------------

  /** "$share/", a name and a filter (section 4.8.2). */
  predicate IsSharedFilter(s: Bytes) {
    |s| >= 7 && s[..7] == [0x24, 0x73, 0x68, 0x61, 0x72, 0x65, 0x2F]
  }

  /** A share name is not empty and holds no slash and no wildcard. */
  ghost predicate HasShareName(s: Bytes) {
    exists i: nat :: IsShareName(s, i)
  }

  ghost predicate IsLawfulFilter(s: Bytes) {
    if IsSharedFilter(s) then HasShareName(s[7..]) else IsPlainFilter(s)
  }

  lemma FirstSlashIs(s: Bytes, i: nat)
    requires i < |s| && s[i] == 0x2F && 0x2F !in s[..i]
    ensures FirstSlash(s) == i
  {
    NotBefore(s, i);
    NotBefore(s, FirstSlash(s));
  }

  lemma NotBefore(s: Bytes, i: nat)
    requires i <= |s| && 0x2F !in s[..i]
    ensures forall k | 0 <= k < i :: s[k] != 0x2F
  {
    assert forall k | 0 <= k < i :: s[..i][k] == s[k];
  }

  lemma SharedIs(s: Bytes)
    ensures IsShared(s) <==> IsSharedFilter(s)
  {
  }

  /** The name ends at the slash `i`. */
  predicate IsShareName(s: Bytes, i: nat) {
    && 0 < i < |s| && s[i] == 0x2F && 0x2F !in s[..i] && 0x2B !in s[..i] && 0x23 !in s[..i]
    && IsPlainFilter(s[i + 1..])
  }

  lemma ShareNameIs(rest: Bytes)
    ensures HasShareName(rest) <==>
            var i := FirstSlash(rest); 0 < i < |rest| && !HasWildcard(rest[..i]) && IsValidFilter(rest[i + 1..])
  {
    var k := FirstSlash(rest);
    assert IsShareName(rest, k) <==> 0 < k < |rest| && !HasWildcard(rest[..k]) && IsValidFilter(rest[k + 1..]);
    if i: nat :| IsShareName(rest, i) {
      FirstSlashIs(rest, i);
    }
  }

  lemma FilterIsLawful(s: Bytes)
    ensures IsShared(s) <==> IsSharedFilter(s)
    ensures IsValidV5Filter(s) <==> IsLawfulFilter(s)
  {
    SharedIs(s);
    if IsSharedFilter(s) {
      ShareNameIs(s[7..]);
    }
  }

  predicate IsTopicName(s: Bytes) {
    s != [] && 0x2B !in s && 0x23 !in s
  }

  /** A payload that the properties declare to be text is text. */
  predicate IsDeclared(ps: Properties, payload: Bytes) {
    (exists i :: 0 <= i < |ps| && ps[i] == PayloadFormatIndicator(1)) ==> ValidUtf8(payload)
  }

  predicate IsLawfulWill(w: Will) {
    && IsTopicName(w.topic) && (forall i | 0 <= i < |w.properties| :: IsWillProperty(w.properties[i]))
    && NoneRepeated(w.properties, false) && IsDeclared(w.properties, w.payload)
  }

  predicate IsLawfulConnectList(ps: Properties) {
    && (forall i | 0 <= i < |ps| :: IsConnectProperty(ps[i]))
    && ((exists i :: 0 <= i < |ps| && ps[i].AuthenticationData?) ==>
          exists i :: 0 <= i < |ps| && ps[i].AuthenticationMethod?)
    && NoneRepeated(ps, false)
  }

  /** The rules of section 3, packet by packet, for a client. */
  ghost predicate IsLawful(p: Packet) {
    match p
    case Connect(_, _, _, ps, will, _, _) =>
      IsLawfulConnectList(ps) && (will.Some? ==> IsLawfulWill(will.value))
    case Publish(dup, qos, _, topic, id, ps, payload) =>
      && (topic == [] ==> exists i :: 0 <= i < |ps| && ps[i].TopicAlias?)
      && 0x2B !in topic && 0x23 !in topic
      && (if qos == AtMostOnce then id == None && !dup else id != None && id != Some(0))
      && (forall i | 0 <= i < |ps| :: IsPublishProperty(ps[i]) && !ps[i].SubscriptionIdentifier?)
      && NoneRepeated(ps, true) && IsDeclared(ps, payload)
    case Subscribe(id, ps, list) =>
      && id != 0 && list != []
      && (forall i | 0 <= i < |list| ::
            IsLawfulFilter(list[i].topicFilter) && !(list[i].noLocal && IsSharedFilter(list[i].topicFilter)))
      && (forall i | 0 <= i < |ps| :: IsSubscribeProperty(ps[i])) && NoneRepeated(ps, false)
  }

  /** A list that a packet holds: its properties have lawful values, and their texts may be written. */
  predicate IsWritableList(ps: Properties) {
    forall i | 0 <= i < |ps| :: IsLawfulProperty(ps[i]) && HasPrintableTexts(ps[i])
  }

  /** Every property and text of the packet may be written. */
  predicate HasWritableTexts(p: Packet) {
    && IsWritableList(p.properties)
    && match p
       case Connect(clientId, _, _, _, will, username, password) =>
         && IsPrintable(clientId) && (username.Some? ==> IsPrintable(username.value)) && IsShort(password)
         && (will.Some? ==> IsWritableList(will.value.properties) && IsPrintable(will.value.topic)
                            && |will.value.payload| <= 65_535)
       case Publish(_, _, _, topic, _, _, _) => IsPrintable(topic)
       case Subscribe(_, _, list) => forall i | 0 <= i < |list| :: IsPrintable(list[i].topicFilter)
  }

  lemma HasForms(ps: Properties)
    requires IsWritableList(ps)
    ensures forall i | 0 <= i < |ps| :: HasForm(ps[i])
  {
    forall i | 0 <= i < |ps|
      ensures HasForm(ps[i])
    {
      PropertyMayBeWritten(ps[i]);
    }
  }

  lemma {:induction false} ListWritable(ps: Properties)
    ensures PropertiesFault(ps).None? <==> IsWritableList(ps)
    decreases |ps|
  {
    if ps != [] {
      ListWritable(ps[1..]);
      PropertyMayBeWritten(ps[0]);
      assert forall i | 1 <= i < |ps| :: ps[i] == ps[1..][i - 1];
    }
  }

  lemma {:induction false} FiltersWritable(list: seq<Subscription>)
    ensures SubscriptionsFault(list).None? <==> forall i | 0 <= i < |list| :: IsPrintable(list[i].topicFilter)
    decreases |list|
  {
    if list != [] {
      FiltersWritable(list[1..]);
      WritableText(list[0].topicFilter);
      assert forall i | 1 <= i < |list| :: list[i] == list[1..][i - 1];
    }
  }

  lemma {:induction false} FiltersLawful(list: seq<Subscription>)
    ensures SubscriptionsCheck(list).None? <==>
            forall i | 0 <= i < |list| ::
              IsLawfulFilter(list[i].topicFilter) && !(list[i].noLocal && IsSharedFilter(list[i].topicFilter))
    decreases |list|
  {
    if list != [] {
      FiltersLawful(list[1..]);
      FilterIsLawful(list[0].topicFilter);
      assert forall i | 1 <= i < |list| :: list[i] == list[1..][i - 1];
    }
  }

  lemma TextsWritable(p: Packet)
    ensures FieldFault(p).None? <==> HasWritableTexts(p)
  {
    ListWritable(p.properties);
    match p {
      case Connect(_, _, _, _, will, _, _) =>
        if will.Some? {
          ListWritable(will.value.properties);
        }
      case Subscribe(_, _, list) => FiltersWritable(list);
      case Publish(_, _, _, _, _, _, _) =>
    }
  }

  lemma WillLawful(w: Will)
    requires IsTopicName(w.topic)
    ensures WillCheck(w).None? <==> IsLawfulWill(w)
  {
    PropertiesOfConnect(w.properties);
    NoneRepeatedIs(w.properties, false);
  }

  lemma LawfulIs(p: Packet)
    ensures Validate(p).None? <==> IsLawful(p)
  {
    match p {
      case Connect(_, _, _, ps, will, _, _) =>
        PropertiesOfConnect(ps);
        NoneRepeatedIs(ps, false);
        if will.Some? && IsTopicName(will.value.topic) {
          WillLawful(will.value);
        }
      case Publish(_, _, _, _, _, ps, _) =>
        PropertiesOfPublish(ps);
        NoneRepeatedIs(ps, true);
      case Subscribe(_, ps, list) =>
        PropertiesOfPublish(ps);
        NoneRepeatedIs(ps, false);
        FiltersLawful(list);
    }
  }

  lemma LengthsAre(p: Packet)
    requires HasWritableTexts(p)
    ensures HasLengths(p) <==> Fits(p)
  {
    HasForms(p.properties);
    ListIs(p.properties);
    PayloadLenExact(p.properties);
    if p.Connect? && p.will.Some? {
      HasForms(p.will.value.properties);
      ListIs(p.will.value.properties);
      PayloadLenExact(p.will.value.properties);
    }
  }

  /** A packet is written if and only if it follows the rules, and its texts and lengths can be told. */
  lemma EncodableIs(p: Packet)
    ensures Encodable(p) ==> IsLawful(p) && HasWritableTexts(p) && HasLengths(p) && |Content(p)| <= 268_435_455
    ensures IsLawful(p) && HasWritableTexts(p) && HasLengths(p) && |Content(p)| <= 268_435_455 ==> Encodable(p)
  {
    LawfulIs(p);
    TextsWritable(p);
    if HasWritableTexts(p) {
      LengthsAre(p);
      if EncodedLen(p) <= MAX_VBI {
        SmallFits(p);
      }
      if HasLengths(p) {
        ContentIs(p);
        if Validate(p).None? {
          LenExact(p);
        }
      }
    }
  }

  /** What is written for a packet, byte by byte. */
  lemma WireIsLayout(p: Packet)
    requires HasLengths(p) && |Content(p)| <= 268_435_455
    ensures Wire(p) == Layout(p)
  {
    ContentIs(p);
    WrittenLength(|Content(p)|);
    FirstIs(p);
    Regrouped([FirstByte(p)], VbiBytes(|Body(p)|), Body(p));
  }

  lemma FirstIs(p: Packet)
    ensures FirstByte(p) == First(p)
  {
  }

  /** And these bytes are read as that packet. */
  lemma LayoutIsRead(p: Packet, rest: Bytes)
    requires IsLawful(p) && HasWritableTexts(p) && HasLengths(p) && |Content(p)| <= 268_435_455
    ensures match p
            case Connect(_, _, _, _, _, _, _) => DecodeConnect(Layout(p) + rest) == Ok((p, |Layout(p)|))
            case Publish(_, _, _, _, _, _, _) => DecodePublish(Layout(p) + rest) == Ok((p, |Layout(p)|))
            case Subscribe(_, _, _) => DecodeSubscribe(Layout(p) + rest) == Ok((p, |Layout(p)|))
  {
    EncodableIs(p);
    WireIsLayout(p);
    match p {
      case Connect(_, _, _, _, _, _, _) => ConnectRoundTrip(p, rest);
      case Publish(_, _, _, _, _, _, _) => PublishRoundTrip(p, rest);
      case Subscribe(_, _, _) => SubscribeRoundTrip(p, rest);
    }
  }

  // -- why a packet is refused ----------------------------------------------------------------------

  /** The first rule that a packet breaks is the reason of the refusal. */
  lemma RefusedPublish(p: Packet, capacity: nat)
    requires p.Publish?
    ensures var r, ps := EncodeResult(p, capacity), p.properties;
            && (p.topic == [] && !(exists i :: 0 <= i < |ps| && ps[i].TopicAlias?)
                ==> r == Err(InvalidField(EmptyTopicName)))
            && (0x2B in p.topic || 0x23 in p.topic ==> r == Err(InvalidField(WildcardInTopicName)))
            && (IsTopicName(p.topic) ==>
                  && (p.qos != AtMostOnce && p.publishId == None ==> r == Err(InvalidField(MissingPacketId)))
                  && (p.qos == AtMostOnce && p.publishId != None ==> r == Err(InvalidField(UnexpectedPacketId)))
                  && (p.qos != AtMostOnce && p.publishId == Some(0) ==> r == Err(InvalidField(ZeroPacketId)))
                  && (p.qos == AtMostOnce && p.publishId == None && p.dup ==> r == Err(InvalidField(DupWithQos0)))
                  && (p.qos == AtMostOnce && p.publishId == None && !p.dup ==> RefusedList(p, r))
                  && (p.qos != AtMostOnce && p.publishId != None && p.publishId != Some(0) ==> RefusedList(p, r)))
  {
    PropertiesOfPublish(p.properties);
    PropertiesOfPublish([]);
    NoneRepeatedIs(p.properties, true);
  }

  ghost predicate RefusedList(p: Packet, r: Result<nat, EncodeError>)
    requires p.Publish?
  {
    var ps := p.properties;
    var ours := forall i | 0 <= i < |ps| :: IsPublishProperty(ps[i]) && !ps[i].SubscriptionIdentifier?;
    && (!ours ==> r == Err(InvalidField(PropertyValidationFailed)))
    && (ours && !NoneRepeated(ps, true) ==> r == Err(InvalidField(DuplicatePropertyIdentifier)))
    && (ours && NoneRepeated(ps, true) && !IsDeclared(ps, p.payload) ==> r == Err(InvalidField(InvalidPayloadUtf8)))
  }

  lemma RefusedConnect(p: Packet, capacity: nat)
    requires p.Connect?
    ensures var r, ps, will := EncodeResult(p, capacity), p.properties, p.will;
            && (will.Some? && will.value.topic == [] ==> r == Err(InvalidField(EmptyTopicName)))
            && (will.Some? && (0x2B in will.value.topic || 0x23 in will.value.topic)
                ==> r == Err(InvalidField(WildcardInTopicName)))
            && ((will.Some? ==> IsTopicName(will.value.topic)) ==>
                  && (!IsLawfulConnectList(ps) && NoneRepeated(ps, false)
                      ==> r == Err(InvalidField(PropertyValidationFailed)))
                  && (!NoneRepeated(ps, false) && ValidForConnect(ps)
                      ==> r == Err(InvalidField(DuplicatePropertyIdentifier)))
                  && (IsLawfulConnectList(ps) && will.Some? ==> RefusedWill(will.value, r)))
  {
    PropertiesOfConnect(p.properties);
    NoneRepeatedIs(p.properties, false);
    if p.will.Some? {
      PropertiesOfConnect(p.will.value.properties);
      NoneRepeatedIs(p.will.value.properties, false);
    }
  }

  ghost predicate RefusedWill(w: Will, r: Result<nat, EncodeError>) {
    var ps := w.properties;
    var its := forall i | 0 <= i < |ps| :: IsWillProperty(ps[i]);
    && (!its ==> r == Err(InvalidField(PropertyValidationFailed)))
    && (its && !NoneRepeated(ps, false) ==> r == Err(InvalidField(DuplicatePropertyIdentifier)))
    && (its && NoneRepeated(ps, false) && !IsDeclared(ps, w.payload) ==> r == Err(InvalidField(InvalidPayloadUtf8)))
  }

  ghost predicate HasLawfulFilters(list: seq<Subscription>) {
    forall i | 0 <= i < |list| ::
      IsLawfulFilter(list[i].topicFilter) && !(list[i].noLocal && IsSharedFilter(list[i].topicFilter))
  }

  lemma RefusedSubscribe(p: Packet, capacity: nat)
    requires p.Subscribe?
    ensures var r, ps := EncodeResult(p, capacity), p.properties;
            && (p.packetId == 0 ==> r == Err(InvalidField(ZeroPacketId)))
            && (p.packetId != 0 && p.subscriptions == [] ==> r == Err(InvalidField(EmptySubscriptions)))
            && (p.packetId != 0 && |p.subscriptions| == 1 ==>
                  var s := p.subscriptions[0];
                  && (!IsLawfulFilter(s.topicFilter) ==> r == Err(InvalidField(InvalidTopicFilter)))
                  && (IsLawfulFilter(s.topicFilter) && s.noLocal && IsSharedFilter(s.topicFilter)
                      ==> r == Err(InvalidField(SharedSubscriptionNoLocal))))
            && (p.packetId != 0 && p.subscriptions != [] && HasLawfulFilters(p.subscriptions) ==>
                  && ((exists i :: 0 <= i < |ps| && !IsSubscribeProperty(ps[i]))
                      ==> r == Err(InvalidField(PropertyValidationFailed)))
                  && ((forall i | 0 <= i < |ps| :: IsSubscribeProperty(ps[i])) && !NoneRepeated(ps, false)
                      ==> r == Err(InvalidField(DuplicatePropertyIdentifier))))
  {
    PropertiesOfPublish(p.properties);
    NoneRepeatedIs(p.properties, false);
    FiltersLawful(p.subscriptions);
    if p.subscriptions != [] {
      FilterIsLawful(p.subscriptions[0].topicFilter);
    }
  }

  /** A lawful packet is refused for its length, the room it has, or its texts, in this order. */
  lemma RefusedSizes(p: Packet, capacity: nat)
    requires IsLawful(p) && HasLengths(p)
    ensures var r, n := EncodeResult(p, capacity), |Content(p)|;
            && (268_435_455 < n <= 0xFFFF_FFFF_FFFF_FFFF ==> r == Err(EncodeError.PacketTooLarge(n, 268_435_455)))
            && (n > 268_435_455 <==> r.Err? && r.error.PacketTooLarge? && r.error.limit == 268_435_455)
            && (n <= 268_435_455 ==>
                  && (capacity < |Layout(p)| <==> r == Err(BufferTooSmall))
                  && (capacity >= |Layout(p)| && HasWritableTexts(p) ==> r == Ok(|Layout(p)|))
                  && (capacity >= |Layout(p)| && !HasWritableTexts(p) ==> r.Err? && FieldFault(p) == Some(r.error)))
  {
    LawfulIs(p);
    TextsWritable(p);
    LenIs(p);
    FaultLimits(p);
    if |Content(p)| <= 268_435_455 {
      LayoutLength(p);
    }
  }

  lemma LenIs(p: Packet)
    requires HasLengths(p) && (p.Publish? ==> (p.qos == AtMostOnce <==> p.publishId.None?))
    ensures EncodedLen(p) == if |Content(p)| > 0xFFFF_FFFF_FFFF_FFFF then 0xFFFF_FFFF_FFFF_FFFF else |Content(p)|
  {
    ListIs(p.properties);
    PayloadLenExact(p.properties);
    if p.Connect? && p.will.Some? {
      ListIs(p.will.value.properties);
      PayloadLenExact(p.will.value.properties);
    }
    LenExact(p);
    ContentIs(p);
  }

  lemma LayoutLength(p: Packet)
    requires HasLengths(p) && |Content(p)| <= 268_435_455
    ensures |Layout(p)| == 1 + VbiLen(|Content(p)|) + |Content(p)|
  {
  }

  /** A fault that is a length is one of a field or of an integer. */
  lemma FaultLimits(p: Packet)
    requires HasLengths(p)
    ensures FieldFault(p).Some? ==>
              FieldFault(p).value.InvalidField?
  {
    ListFaults(p.properties);
    match p {
      case Connect(_, _, _, _, will, _, _) =>
        if will.Some? {
          ListFaults(will.value.properties);
        }
      case Subscribe(_, _, list) => FilterFaults(list);
      case Publish(_, _, _, _, _, _, _) =>
    }
  }

  lemma {:induction false} ListFaults(ps: Properties)
    requires forall i | 0 <= i < |ps| :: HasForm(ps[i])
    ensures PropertiesFault(ps).Some? ==> PropertiesFault(ps).value.InvalidField?
    decreases |ps|
  {
    if ps != [] {
      ListFaults(ps[1..]);
      assert HasForm(ps[0]);
    }
  }

  lemma {:induction false} FilterFaults(list: seq<Subscription>)
    requires forall i | 0 <= i < |list| :: |list[i].topicFilter| <= 65_535
    ensures SubscriptionsFault(list).Some? ==> SubscriptionsFault(list).value.InvalidField?
    decreases |list|
  {
    if list != [] {
      FilterFaults(list[1..]);
    }
  }

  // -- why bytes are refused ------------------------------------------------------------------------

  /** The type first, then the flags: fixed ones, or QoS and DUP of a PUBLISH; then the length. */
  lemma RefusedHeaders(b: Bytes)
    requires b != []
    ensures DecodePublish(b).Ok? ==>
              b[0] / 16 == 3 && b[0] / 2 % 4 <= 2 && (b[0] / 2 % 4 == 0 ==> b[0] / 8 % 2 == 0)
    ensures b[0] / 16 != 3 ==> DecodePublish(b) == Err(InvalidPacketType)
    ensures b[0] / 16 == 3 && (b[0] / 2 % 4 == 3 || (b[0] / 2 % 4 == 0 && b[0] / 8 % 2 == 1))
            ==> DecodePublish(b) == Err(InvalidPacketFlags)
    ensures b[0] / 16 != 1 ==> DecodeConnect(b) == Err(InvalidPacketType)
    ensures b[0] / 16 == 1 && b[0] % 16 != 0 ==> DecodeConnect(b) == Err(InvalidPacketFlags)
    ensures b[0] / 16 != 8 ==> DecodeSubscribe(b) == Err(InvalidPacketType)
    ensures b[0] / 16 == 8 && b[0] % 16 != 2 ==> DecodeSubscribe(b) == Err(InvalidPacketFlags)
  {
  }

  predicate IsBodyError(e: DecodeError) {
    e == MalformedPacket || e == InvalidUtf8
  }

  lemma PropertyErrors(b: Bytes)
    ensures TakeProperty(b).Err? ==> IsBodyError(TakeProperty(b).error)
  {
    ReadLength(b);
    if VbiDecode(b).Ok? {
      ReadLength(b[VbiDecode(b).value.1..]);
    }
  }

  lemma {:induction false} PayloadErrors(b: Bytes)
    ensures ParsePayload(b).Err? ==> IsBodyError(ParsePayload(b).error)
    decreases |b|
  {
    if b != [] {
      PropertyErrors(b);
      if TakeProperty(b).Ok? {
        PayloadErrors(TakeProperty(b).value.1);
      }
    }
  }

  lemma ListErrors(b: Bytes, repeatSubscriptionId: bool)
    ensures TakeProperties(b, repeatSubscriptionId).Err? ==> IsBodyError(TakeProperties(b, repeatSubscriptionId).error)
  {
    ReadLength(b);
    if TakeBlock(b).Ok? {
      PayloadErrors(TakeBlock(b).value.0);
    }
  }

  lemma PublishErrors(flags: PublishFlags, b: Bytes)
    requires flags.qos <= 2
    ensures ParsePublish(flags, b).Err? ==> IsBodyError(ParsePublish(flags, b).error)
  {
    var qos := QoSOf(flags.qos).value;
    if TakeStr(b).Ok? && TakePublishId(qos, TakeStr(b).value.1).Ok? {
      ListErrors(TakePublishId(qos, TakeStr(b).value.1).value.1, true);
    }
  }

  lemma WillErrors(flags: FlagSet, b: Bytes)
    ensures V5Packets.TakeWill(flags, b).Err? ==> IsBodyError(V5Packets.TakeWill(flags, b).error)
  {
    ListErrors(b, false);
  }

  lemma ConnectFieldErrors(flags: FlagSet, keepAlive: u16, ps: Properties, b: Bytes)
    ensures ParseConnectFields(flags, keepAlive, ps, b).Err?
            ==> IsBodyError(ParseConnectFields(flags, keepAlive, ps, b).error)
  {
    if TakeStr(b).Ok? {
      WillErrors(flags, TakeStr(b).value.1);
    }
  }

  lemma ConnectErrors(b: Bytes)
    ensures ParseConnect(b).Err? ==> IsBodyError(ParseConnect(b).error)
  {
    var head := TakeConnectHead(PROTOCOL_LEVEL, b);
    if head.Ok? {
      ListErrors(head.value.1, false);
      var list := TakeProperties(head.value.1, false);
      if list.Ok? {
        ConnectFieldErrors(FlagsOf(head.value.0.0), head.value.0.1, list.value.0, list.value.1);
      }
    }
  }

  lemma {:induction false} SubscriptionsErrors(b: Bytes)
    ensures ParseSubscriptions(b).Err? ==> IsBodyError(ParseSubscriptions(b).error)
    decreases |b|
  {
    if b != [] && TakeSubscription(b).Ok? {
      SubscriptionsErrors(TakeSubscription(b).value.1);
    }
  }

  lemma SubscribeErrors(b: Bytes)
    ensures ParseSubscribe(b).Err? ==> IsBodyError(ParseSubscribe(b).error)
  {
    if TakeId(b).Ok? {
      ListErrors(TakeId(b).value.1, false);
      var list := TakeProperties(TakeId(b).value.1, false);
      if list.Ok? {
        SubscriptionsErrors(list.value.1);
      }
    }
  }

  /** With a good first byte and all of its bytes a packet is read, malformed, or has a text that is no UTF-8. */
  lemma RefusedConnectBody(b: Bytes, n: nat, k: nat)
    requires b != [] && VbiDecode(b[1..]) == Ok((n, k)) && 1 + k + n <= |b| && b[0] == 0x10
    ensures DecodeConnect(b).Err? ==> IsBodyError(DecodeConnect(b).error)
  {
    ConnectErrors(b[1 + k..1 + k + n]);
    CompletePacket(b, n, k, CheckConnect, NeverBare, ConnectBody);
  }

  lemma RefusedSubscribeBody(b: Bytes, n: nat, k: nat)
    requires b != [] && VbiDecode(b[1..]) == Ok((n, k)) && 1 + k + n <= |b| && b[0] == 0x82
    ensures DecodeSubscribe(b).Err? ==> IsBodyError(DecodeSubscribe(b).error)
  {
    SubscribeErrors(b[1 + k..1 + k + n]);
    CompletePacket(b, n, k, CheckSubscribe, NeverBare, SubscribeBody);
  }

  lemma RefusedPublishBody(b: Bytes, n: nat, k: nat)
    requires b != [] && VbiDecode(b[1..]) == Ok((n, k)) && 1 + k + n <= |b| && CheckPublish(b[0]).None?
    ensures DecodePublish(b).Err? ==> IsBodyError(DecodePublish(b).error)
  {
    PublishErrors(PublishFlagsOf(b[0]), b[1 + k..1 + k + n]);
    CompletePacket(b, n, k, CheckPublish, NeverBare, PublishBody);
  }

  /** The options of a subscription, bit by bit. */
  lemma OptionsBitByBit(s: Subscription)
    ensures var o := OptionsByte(s);
            && o % 4 == Level(s.qos) && (o / 4 % 2 == 1 <==> s.noLocal) && (o / 8 % 2 == 1 <==> s.retainAsPublished)
            && (o / 16 == 0 <==> s.retainHandling == S.SendRetained)
            && (o / 16 == 1 <==> s.retainHandling == S.SendRetainedIfNotExists)
            && (o / 16 == 2 <==> s.retainHandling == S.DoNotSendRetained) && o / 16 <= 2
  {
    assert OptionsByte(s) == OptionBits(s);
  }
}
