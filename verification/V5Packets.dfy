/** PUBLISH, CONNECT and SUBSCRIBE of MQTT v5.0 (src/v5/publish.rs, connect.rs, subscribe.rs). */
module V5Packets {
  import opened Prelude
  import opened Vbi
  import opened Fields
  import opened HeaderFlags
  import opened CommonParts
  import opened V5Property
  import S = Subscriptions

  datatype Will = Will(topic: Text, payload: Bytes, qos: QoS, retain: bool, properties: Properties)

  datatype Subscription = Subscription(
    topicFilter: Text, qos: QoS, noLocal: bool, retainAsPublished: bool, retainHandling: S.RetainHandling)

  datatype Packet =
    | Connect(clientId: Text, cleanStart: bool, keepAlive: u16, properties: Properties, will: Option<Will>,
              username: Option<Text>, password: Option<Bytes>)
    | Publish(dup: bool, qos: QoS, retain: bool, topic: Text, publishId: Option<u16>, properties: Properties,
              payload: Bytes)
    | Subscribe(packetId: u16, properties: Properties, subscriptions: seq<Subscription>)

  const PROTOCOL_LEVEL: u8 := 5
  const USIZE_MAX: nat := 0xFFFF_FFFF_FFFF_FFFF

  // -- properties by packet ----------------------------------------------------------------------

  const CONNECT_IDS: set<u8> := {0x11, 0x15, 0x16, 0x17, 0x19, 0x21, 0x22, 0x26, 0x27}
  const WILL_IDS: set<u8> := {0x01, 0x02, 0x03, 0x08, 0x09, 0x18, 0x26}
  const PUBLISH_IDS: set<u8> := {0x01, 0x02, 0x03, 0x08, 0x09, 0x0B, 0x23, 0x26}
  const SUBSCRIBE_IDS: set<u8> := {0x0B, 0x26}

  predicate Within(ps: Properties, allowed: set<u8>) {
    forall i | 0 <= i < |ps| :: Identifier(ps[i]) in allowed
  }

  predicate HasIdentifier(ps: Properties, id: u8) {
    exists i | 0 <= i < |ps| :: Identifier(ps[i]) == id
  }

  predicate ValidForConnect(ps: Properties) {
    Within(ps, CONNECT_IDS) && (HasIdentifier(ps, 0x16) ==> HasIdentifier(ps, 0x15))
  }

  /** A Subscription Identifier travels from the server to the client only. */
  predicate ValidForClientPublish(ps: Properties) {
    Within(ps, PUBLISH_IDS) && !HasIdentifier(ps, SUBSCRIPTION_ID)
  }

  /** The properties declare the payload to be UTF-8. */
  predicate DeclaresUtf8(ps: Properties) {
    exists i | 0 <= i < |ps| :: ps[i] == PayloadFormatIndicator(1)
  }

  // -- topic filters -----------------------------------------------------------------------------

  /** "$share/" */
  const SHARE: Bytes := [0x24, 0x73, 0x68, 0x61, 0x72, 0x65, 0x2F]

  predicate IsShared(filter: Bytes) {
    SHARE <= filter
  }

  /** `$share/{name}/{filter}` with a plain name, or a filter. */
  predicate IsValidV5Filter(filter: Bytes) {
    if !IsShared(filter) then IsValidFilter(filter)
    else
      var rest := filter[|SHARE|..];
      var i := FirstSlash(rest);
      0 < i < |rest| && !HasWildcard(rest[..i]) && IsValidFilter(rest[i + 1..])
  }

  // -- what is written ----------------------------------------------------------------------------

  function FlagsFor(cleanStart: bool, will: Option<Will>, username: bool, password: bool): (f: FlagSet)
    ensures f.willQos < 3
  {
    FlagSet(false, cleanStart, will.Some?, match will case None => 0 case Some(w) => QoSByte(w.qos),
            will.Some? && will.value.retain, password, username)
  }

  function RetainHandlingByte(r: S.RetainHandling): u8 {
    match r case SendRetained => 0 case SendRetainedIfNotExists => 1 case DoNotSendRetained => 2
  }

  function RetainHandlingOf(x: nat): Option<S.RetainHandling> {
    match x
    case 0 => Some(S.SendRetained) case 1 => Some(S.SendRetainedIfNotExists) case 2 => Some(S.DoNotSendRetained)
    case _ => None
  }

  function OptionsByte(s: Subscription): u8 {
    QoSByte(s.qos) + Bit(s.noLocal, 4) + Bit(s.retainAsPublished, 8) + 16 * RetainHandlingByte(s.retainHandling)
  }

  function FirstByte(p: Packet): u8 {
    match p
    case Connect(_, _, _, _, _, _, _) => 0x10
    case Publish(dup, qos, retain, _, _, _, _) => PublishFirst(dup, qos, retain)
    case Subscribe(_, _, _) => 0x82
  }

  function WillThen(will: Option<Will>, rest: Bytes): Bytes {
    match will
    case None => rest
    case Some(w) => PropertiesThen(w.properties, FieldBytes(w.topic) + (FieldBytes(w.payload) + rest))
  }

  function ConnectFields(p: Packet): Bytes
    requires p.Connect?
  {
    FieldBytes(p.clientId) + WillThen(p.will, FieldThen(p.username, FieldThen(p.password, [])))
  }

  function SubscriptionsBytes(list: seq<Subscription>): Bytes {
    if list == [] then []
    else FieldBytes(list[0].topicFilter) + ([OptionsByte(list[0])] + SubscriptionsBytes(list[1..]))
  }

  function Body(p: Packet): Bytes {
    match p
    case Connect(_, cleanStart, keepAlive, ps, will, username, password) =>
      ConnectHeadThen(PROTOCOL_LEVEL, FlagsByte(FlagsFor(cleanStart, will, username.Some?, password.Some?)), keepAlive,
                      PropertiesThen(ps, ConnectFields(p)))
    case Publish(_, _, _, topic, id, ps, payload) => FieldBytes(topic) + IdThen(id, PropertiesThen(ps, payload))
    case Subscribe(id, ps, list) => U16Bytes(id) + PropertiesThen(ps, SubscriptionsBytes(list))
  }

  function Wire(p: Packet): Bytes {
    Frame(FirstByte(p), Body(p))
  }

  // -- the declared lengths, which saturate -----------------------------------------------------

  function Saturated(n: nat): (r: nat)
    ensures r <= USIZE_MAX
  {
    if n > USIZE_MAX then USIZE_MAX else n
  }

  function ValueLen(v: Value): nat {
    match v
    case One(_) => 1
    case Two(_) => 2
    case Four(_) => 4
    case Var(n) => VbiLen(n)
    case Str(s) => 2 + |s|
    case Bin(b) => 2 + |b|
    case Pair(k, s) => 2 + |k| + 2 + |s|
  }

  function PayloadLen(ps: Properties): nat {
    if ps == [] then 0 else 1 + ValueLen(ValueOf(ps[0])) + PayloadLen(ps[1..])
  }

  function PropertiesLen(ps: Properties): nat {
    if PayloadLen(ps) > MAX_VBI then USIZE_MAX else VbiLen(PayloadLen(ps)) + PayloadLen(ps)
  }

  function FieldLen(field: Option<Bytes>): nat {
    match field case None => 0 case Some(s) => 2 + |s|
  }

  function WillLen(will: Option<Will>): nat {
    match will
    case None => 0
    case Some(w) => PropertiesLen(w.properties) + 2 + |w.topic| + 2 + |w.payload|
  }

  function SubscriptionsLen(list: seq<Subscription>): nat {
    if list == [] then 0 else 3 + |list[0].topicFilter| + SubscriptionsLen(list[1..])
  }

  /** `encoded_len`. */
  function EncodedLen(p: Packet): nat {
    Saturated(match p
      case Connect(clientId, _, _, ps, will, username, password) =>
        10 + PropertiesLen(ps) + 2 + |clientId| + WillLen(will) + FieldLen(username) + FieldLen(password)
      case Publish(_, qos, _, topic, _, ps, payload) =>
        2 + |topic| + (if qos == AtMostOnce then 0 else 2) + PropertiesLen(ps) + |payload|
      case Subscribe(_, ps, list) => 2 + PropertiesLen(ps) + SubscriptionsLen(list))
  }

  // -- what may be written ------------------------------------------------------------------------

  function DuplicateCheck(ps: Properties, repeatSubscriptionId: bool): Option<EncodeInvalidField> {
    if NoDuplicates(ps, repeatSubscriptionId, {}) then None else Some(DuplicatePropertyIdentifier)
  }

  function SubscriptionsCheck(list: seq<Subscription>): Option<EncodeInvalidField> {
    if list == [] then None
    else if !IsValidV5Filter(list[0].topicFilter) then Some(InvalidTopicFilter)
    else if list[0].noLocal && IsShared(list[0].topicFilter) then Some(SharedSubscriptionNoLocal)
    else SubscriptionsCheck(list[1..])
  }

  function WillCheck(w: Will): Option<EncodeInvalidField> {
    if !Within(w.properties, WILL_IDS) then Some(PropertyValidationFailed)
    else if DuplicateCheck(w.properties, false).Some? then DuplicateCheck(w.properties, false)
    else if DeclaresUtf8(w.properties) && !ValidUtf8(w.payload) then Some(InvalidPayloadUtf8)
    else None
  }

  function Validate(p: Packet): Option<EncodeInvalidField> {
    match p
    case Connect(_, _, _, ps, will, _, _) =>
      if will.Some? && will.value.topic == [] then Some(EmptyTopicName)
      else if will.Some? && HasWildcard(will.value.topic) then Some(WildcardInTopicName)
      else if !ValidForConnect(ps) then Some(PropertyValidationFailed)
      else if DuplicateCheck(ps, false).Some? then DuplicateCheck(ps, false)
      else if will.Some? then WillCheck(will.value)
      else None
    case Publish(dup, qos, _, topic, id, ps, payload) =>
      if topic == [] && !HasIdentifier(ps, 0x23) then Some(EmptyTopicName)
      else if HasWildcard(topic) then Some(WildcardInTopicName)
      else if qos != AtMostOnce && id.None? then Some(MissingPacketId)
      else if qos == AtMostOnce && id.Some? then Some(UnexpectedPacketId)
      else if id == Some(0) then Some(ZeroPacketId)
      else if qos == AtMostOnce && dup then Some(DupWithQos0)
      else if !ValidForClientPublish(ps) then Some(PropertyValidationFailed)
      else if DuplicateCheck(ps, true).Some? then DuplicateCheck(ps, true)
      else if DeclaresUtf8(ps) && !ValidUtf8(payload) then Some(InvalidPayloadUtf8)
      else None
    case Subscribe(id, ps, list) =>
      if id == 0 then Some(ZeroPacketId)
      else if list == [] then Some(EmptySubscriptions)
      else if SubscriptionsCheck(list).Some? then SubscriptionsCheck(list)
      else if !Within(ps, SUBSCRIBE_IDS) then Some(PropertyValidationFailed)
      else DuplicateCheck(ps, false)
  }

  function WillFault(will: Option<Will>): Option<EncodeError> {
    match will
    case None => None
    case Some(w) => OrElse(PropertiesFault(w.properties), OrElse(StrError(w.topic), BinError(w.payload)))
  }

  function SubscriptionsFault(list: seq<Subscription>): Option<EncodeError> {
    if list == [] then None else OrElse(StrError(list[0].topicFilter), SubscriptionsFault(list[1..]))
  }

  /** The first field or property that cannot be written, in the order of writing. */
  function FieldFault(p: Packet): Option<EncodeError> {
    match p
    case Connect(clientId, _, _, ps, will, username, password) =>
      OrElse(PropertiesFault(ps), OrElse(StrError(clientId), OrElse(WillFault(will),
      OrElse(UsernameFault(username), PasswordFault(password)))))
    case Publish(_, _, _, topic, _, ps, _) => OrElse(StrError(topic), PropertiesFault(ps))
    case Subscribe(_, ps, list) => OrElse(PropertiesFault(ps), SubscriptionsFault(list))
  }

  /** What `encode` answers for a buffer of `capacity` bytes. */
  function EncodeResult(p: Packet, capacity: nat): Result<nat, EncodeError> {
    var length := EncodedLen(p);
    if Validate(p).Some? then Err(InvalidField(Validate(p).value))
    else if length > MAX_VBI then Err(EncodeError.PacketTooLarge(length, MAX_VBI))
    else if capacity < 1 + VbiLen(length) + length then Err(BufferTooSmall)
    else if FieldFault(p).Some? then Err(FieldFault(p).value)
    else Ok(1 + VbiLen(length) + length)
  }

  predicate Encodable(p: Packet) {
    Validate(p).None? && EncodedLen(p) <= MAX_VBI && FieldFault(p).None?
  }

  // -- what is read ---------------------------------------------------------------------------

  function CheckFirst(expected: u8, first: u8): Option<DecodeError> {
    if first / 16 != expected / 16 then Some(InvalidPacketType)
    else if first / 16 == 3 then
      var flags := PublishFlagsOf(first);
      if flags.qos == 3 || (flags.qos == 0 && flags.dup) then Some(InvalidPacketFlags) else None
    else if first != expected then Some(InvalidPacketFlags)
    else None
  }

  function ParsePublish(flags: PublishFlags, b: Bytes): Result<Packet, DecodeError> {
    match QoSOf(flags.qos)
    case None => Err(InvalidPacketFlags)
    case Some(qos) =>
      var (topic, b1) :- TakeStr(b);
      var (id, b2) :- TakePublishId(qos, b1);
      var (ps, payload) :- TakeProperties(b2, true);
      if topic == [] && !HasIdentifier(ps, 0x23) then Err(MalformedPacket)
      else if HasWildcard(topic) then Err(MalformedPacket)
      else if !Within(ps, PUBLISH_IDS) then Err(MalformedPacket)
      else Ok(Publish(flags.dup, qos, flags.retain, topic, id, ps, payload))
  }

  function TakePublishId(qos: QoS, b: Bytes): Parsed<Option<u16>> {
    if qos == AtMostOnce then Ok((None, b))
    else
      var (id, rest) :- TakeId(b);
      Ok((Some(id), rest))
  }

  function TakeWill(flags: FlagSet, b: Bytes): Parsed<Option<Will>> {
    if !flags.will then Ok((None, b))
    else
      var (ps, b1) :- TakeProperties(b, false);
      if !Within(ps, WILL_IDS) then Err(MalformedPacket)
      else
        var (topic, b2) :- TakeStr(b1);
        if HasWildcard(topic) || topic == [] then Err(MalformedPacket)
        else
          var (payload, b3) :- TakeBin(b2);
          match QoSOf(flags.willQos)
          case None => Err(MalformedPacket)
          case Some(qos) => Ok((Some(Will(topic, payload, qos, flags.willRetain, ps)), b3))
  }

  function ParseConnectFields(flags: FlagSet, keepAlive: u16, ps: Properties, b: Bytes): Result<Packet, DecodeError> {
    var (clientId, b1) :- TakeStr(b);
    var (will, b2) :- TakeWill(flags, b1);
    var (username, b3) :- TakeUsername(flags, b2);
    var (password, b4) :- TakePassword(flags, b3);
    if flags.reserved then Err(MalformedPacket)
    else if will.None? && (flags.willQos != 0 || flags.willRetain) then Err(MalformedPacket)
    else if b4 != [] then Err(MalformedPacket)
    else Ok(Connect(clientId, flags.clean, keepAlive, ps, will, username, password))
  }

  function ParseConnect(b: Bytes): Result<Packet, DecodeError> {
    var ((flags, keepAlive), b1) :- TakeConnectHead(PROTOCOL_LEVEL, b);
    var (ps, b2) :- TakeProperties(b1, false);
    if !ValidForConnect(ps) then Err(MalformedPacket)
    else ParseConnectFields(FlagsOf(flags), keepAlive, ps, b2)
  }

  function TakeSubscription(b: Bytes): (r: Parsed<Subscription>)
    ensures r.Ok? ==> |r.value.1| < |b|
  {
    var (filter, b1) :- TakeStr(b);
    if !IsValidV5Filter(filter) then Err(MalformedPacket)
    else
      var (options, b2) :- TakeByte(b1);
      match OptionsOf(filter, options)
      case None => Err(MalformedPacket)
      case Some(s) => if s.noLocal && IsShared(filter) then Err(MalformedPacket) else Ok((s, b2))
  }

  /** The options are shifted out bit by bit; the two highest must be clear. */
  function OptionsOf(filter: Text, options: u8): Option<Subscription> {
    var o2 := options / 4;
    var o3 := o2 / 2;
    var o4 := o3 / 2;
    match (QoSOf(options % 4), RetainHandlingOf(o4 % 4))
    case (Some(qos), Some(handling)) =>
      if o4 / 4 != 0 then None else Some(Subscription(filter, qos, o2 % 2 == 1, o3 % 2 == 1, handling))
    case _ => None
  }

  function ParseSubscriptions(b: Bytes): Result<seq<Subscription>, DecodeError>
    decreases |b|
  {
    if b == [] then Ok([])
    else
      var (s, rest) :- TakeSubscription(b);
      var tail :- ParseSubscriptions(rest);
      Ok([s] + tail)
  }

  function ParseSubscribe(b: Bytes): Result<Packet, DecodeError> {
    var (id, b1) :- TakeId(b);
    var (ps, b2) :- TakeProperties(b1, false);
    if !Within(ps, SUBSCRIBE_IDS) then Err(MalformedPacket)
    else
      var list :- ParseSubscriptions(b2);
      if list == [] then Err(MalformedPacket) else Ok(Subscribe(id, ps, list))
  }

  // Every packet of these kinds has a body; the three readers share the frame.

  predicate NeverBare(first: u8) {
    false
  }

  function CheckPublish(first: u8): Option<DecodeError> {
    CheckFirst(0x30, first)
  }

  function CheckConnect(first: u8): Option<DecodeError> {
    CheckFirst(0x10, first)
  }

  function CheckSubscribe(first: u8): Option<DecodeError> {
    CheckFirst(0x82, first)
  }

  function PublishBody(first: u8, b: Bytes): Result<Packet, DecodeError> {
    ParsePublish(PublishFlagsOf(first), b)
  }

  function ConnectBody(first: u8, b: Bytes): Result<Packet, DecodeError> {
    ParseConnect(b)
  }

  function SubscribeBody(first: u8, b: Bytes): Result<Packet, DecodeError> {
    ParseSubscribe(b)
  }

  function DecodePublish(b: Bytes): Result<(Packet, nat), DecodeError> {
    Unframed(b, CheckPublish, NeverBare, PublishBody)
  }

  function DecodeConnect(b: Bytes): Result<(Packet, nat), DecodeError> {
    Unframed(b, CheckConnect, NeverBare, ConnectBody)
  }

  function DecodeSubscribe(b: Bytes): Result<(Packet, nat), DecodeError> {
    Unframed(b, CheckSubscribe, NeverBare, SubscribeBody)
  }
}
