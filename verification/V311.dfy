/**
 * The packets of MQTT v3.1.1: what is written for a packet, what is read from bytes, and that the
 * two are inverse to each other (src/v311).
 */
module V311 {
  import opened Prelude
  import opened Vbi
  import opened Fields
  import opened HeaderFlags
  import opened CommonParts

  datatype Will = Will(topic: Text, payload: Bytes, qos: QoS, retain: bool)

  datatype Subscription = Subscription(topicFilter: Text, qos: QoS)

  type ConnectReturnCode = x: u8 | x <= 5
  type SubscribeReturnCode = x: u8 | x <= 2 || x == 0x80

  /** The packets that carry an identifier and nothing else. */
  datatype AckKind = PubAck | PubRec | PubRel | PubComp | UnsubAck

  /** The packets without a body. */
  datatype BareKind = PingReq | PingResp | Disconnect

  datatype Packet =
    | Connect(clientId: Text, cleanSession: bool, keepAlive: u16, will: Option<Will>,
              username: Option<Text>, password: Option<Bytes>)
    | ConnAck(sessionPresent: bool, connectCode: ConnectReturnCode)
    | Publish(dup: bool, qos: QoS, retain: bool, topic: Text, publishId: Option<u16>, payload: Bytes)
    | Ack(ackKind: AckKind, packetId: u16)
    | Subscribe(packetId: u16, subscriptions: seq<Subscription>)
    | SubAck(packetId: u16, returnCodes: seq<SubscribeReturnCode>)
    | Unsubscribe(packetId: u16, topicFilters: seq<Text>)
    | Bare(bareKind: BareKind)

  const PROTOCOL_LEVEL: u8 := 4

  // -- what is written -----------------------------------------------------------------------

  function AckFirst(kind: AckKind): u8 {
    match kind
    case PubAck => 0x40 case PubRec => 0x50 case PubRel => 0x62 case PubComp => 0x70 case UnsubAck => 0xB0
  }

  function BareFirst(kind: BareKind): u8 {
    match kind case PingReq => 0xC0 case PingResp => 0xD0 case Disconnect => 0xE0
  }

  /** The flags of a CONNECT packet with these contents. */
  function FlagsFor(cleanSession: bool, will: Option<Will>, username: bool, password: bool): (f: FlagSet)
    ensures f.willQos < 3
  {
    FlagSet(false, cleanSession, will.Some?, match will case None => 0 case Some(w) => QoSByte(w.qos),
            will.Some? && will.value.retain, password, username)
  }

  function ConnectFlags(cleanSession: bool, will: Option<Will>, username: bool, password: bool): u8 {
    FlagsByte(FlagsFor(cleanSession, will, username, password))
  }

  function FirstByte(p: Packet): u8 {
    match p
    case Connect(_, _, _, _, _, _) => 0x10
    case ConnAck(_, _) => 0x20
    case Publish(dup, qos, retain, _, _, _) => PublishFirst(dup, qos, retain)
    case Ack(kind, _) => AckFirst(kind)
    case Subscribe(_, _) => 0x82
    case SubAck(_, _) => 0x90
    case Unsubscribe(_, _) => 0xA2
    case Bare(kind) => BareFirst(kind)
  }

  // Each of these writes a part and then what follows it.

  function WillThen(will: Option<Will>, rest: Bytes): Bytes {
    match will case None => rest case Some(w) => FieldBytes(w.topic) + (FieldBytes(w.payload) + rest)
  }

  function ConnectFields(p: Packet): Bytes
    requires p.Connect?
  {
    FieldBytes(p.clientId) + WillThen(p.will, FieldThen(p.username, FieldThen(p.password, [])))
  }

  function SubscriptionsBytes(list: seq<Subscription>): Bytes {
    if list == [] then []
    else FieldBytes(list[0].topicFilter) + ([QoSByte(list[0].qos)] + SubscriptionsBytes(list[1..]))
  }

  function FiltersBytes(list: seq<Text>): Bytes {
    if list == [] then [] else FieldBytes(list[0]) + FiltersBytes(list[1..])
  }

  function Body(p: Packet): Bytes {
    match p
    case Connect(_, cleanSession, keepAlive, will, username, password) =>
      ConnectHeadThen(PROTOCOL_LEVEL, ConnectFlags(cleanSession, will, username.Some?, password.Some?), keepAlive,
                      ConnectFields(p))
    case ConnAck(sessionPresent, code) => [Bit(sessionPresent, 1), code]
    case Publish(_, _, _, topic, id, payload) => FieldBytes(topic) + IdThen(id, payload)
    case Ack(_, id) => U16Bytes(id)
    case Subscribe(id, list) => U16Bytes(id) + SubscriptionsBytes(list)
    case SubAck(id, codes) => U16Bytes(id) + codes
    case Unsubscribe(id, list) => U16Bytes(id) + FiltersBytes(list)
    case Bare(_) => []
  }

  /** The whole packet. */
  function Wire(p: Packet): Bytes {
    Frame(FirstByte(p), Body(p))
  }

  // -- what may be written -------------------------------------------------------------------

  function Validate(p: Packet): Option<EncodeInvalidField> {
    match p
    case Connect(clientId, cleanSession, _, will, username, password) =>
      if password.Some? && username.None? then Some(PasswordWithoutUsername)
      else if clientId == [] && !cleanSession then Some(EmptyClientIdWithoutCleanSession)
      else if will.Some? && will.value.topic == [] then Some(EmptyTopicName)
      else if will.Some? && HasWildcard(will.value.topic) then Some(WildcardInTopicName)
      else None
    case ConnAck(sessionPresent, code) =>
      if sessionPresent && code != 0 then Some(SessionPresentWithNonSuccess) else None
    case Publish(dup, qos, _, topic, id, _) =>
      if topic == [] then Some(EmptyTopicName)
      else if HasWildcard(topic) then Some(WildcardInTopicName)
      else if qos != AtMostOnce && id == Some(0) then Some(ZeroPacketId)
      else if qos != AtMostOnce && id.None? then Some(MissingPacketId)
      else if qos == AtMostOnce && id.Some? then Some(UnexpectedPacketId)
      else if qos == AtMostOnce && dup then Some(DupWithQos0)
      else None
    case Ack(_, id) => if id == 0 then Some(ZeroPacketId) else None
    case Subscribe(id, list) =>
      if id == 0 then Some(ZeroPacketId)
      else if list == [] then Some(EmptyTopicFilters)
      else if exists i | 0 <= i < |list| :: !IsValidFilter(list[i].topicFilter) then Some(InvalidTopicFilter)
      else None
    case SubAck(id, codes) =>
      if id == 0 then Some(ZeroPacketId) else if codes == [] then Some(EmptyReturnCodes) else None
    case Unsubscribe(id, list) =>
      if id == 0 then Some(ZeroPacketId)
      else if list == [] then Some(EmptyTopicFilters)
      else if exists i | 0 <= i < |list| :: !IsValidFilter(list[i]) then Some(InvalidTopicFilter)
      else None
    case Bare(_) => None
  }

  function SubscriptionsFault(list: seq<Subscription>): Option<EncodeError> {
    if list == [] then None else OrElse(StrError(list[0].topicFilter), SubscriptionsFault(list[1..]))
  }

  function FiltersFault(list: seq<Text>): Option<EncodeError> {
    if list == [] then None else OrElse(StrError(list[0]), FiltersFault(list[1..]))
  }

  function WillFault(will: Option<Will>): Option<EncodeError> {
    match will case None => None case Some(w) => OrElse(StrError(w.topic), BinError(w.payload))
  }

  /** The first field that does not fit its length prefix or holds a NUL, in the order of writing. */
  function FieldFault(p: Packet): Option<EncodeError> {
    match p
    case Connect(clientId, _, _, will, username, password) =>
      OrElse(StrError(clientId), OrElse(WillFault(will), OrElse(UsernameFault(username), PasswordFault(password))))
    case Publish(_, _, _, topic, _, _) => StrError(topic)
    case Subscribe(_, list) => SubscriptionsFault(list)
    case Unsubscribe(_, list) => FiltersFault(list)
    case _ => None
  }

  /** What `encode` answers for a buffer of `capacity` bytes. */
  function EncodeResult(p: Packet, capacity: nat): Result<nat, EncodeError> {
    if Validate(p).Some? then Err(InvalidField(Validate(p).value))
    else if |Body(p)| > MAX_VBI then Err(EncodeError.PacketTooLarge(|Body(p)|, MAX_VBI))
    else if capacity < |Wire(p)| then Err(BufferTooSmall)
    else if FieldFault(p).Some? then Err(FieldFault(p).value)
    else Ok(|Wire(p)|)
  }

  predicate Encodable(p: Packet) {
    Validate(p).None? && |Body(p)| <= MAX_VBI && FieldFault(p).None?
  }

  /** A packet is refused whatever the buffer, or fits every buffer of at least its own length. */
  lemma EncodableIffFits(p: Packet, capacity: nat)
    ensures EncodeResult(p, capacity).Ok? <==> Encodable(p) && |Wire(p)| <= capacity
  {
  }

  // -- what is read --------------------------------------------------------------------------

  function KindOfAck(first: u8): Option<AckKind> {
    match first / 16
    case 4 => Some(PubAck) case 5 => Some(PubRec) case 6 => Some(PubRel) case 7 => Some(PubComp)
    case 11 => Some(UnsubAck) case _ => None
  }

  function KindOfBare(first: u8): Option<BareKind> {
    match first / 16 case 12 => Some(PingReq) case 13 => Some(PingResp) case 14 => Some(Disconnect) case _ => None
  }

  function TakeWill(flags: FlagSet, b: Bytes): Parsed<Option<Will>> {
    if !flags.will then Ok((None, b))
    else
      var (topic, b1) :- TakeStr(b);
      if HasWildcard(topic) || topic == [] then Err(MalformedPacket)
      else
        var (payload, b2) :- TakeBin(b1);
        match QoSOf(flags.willQos)
        case None => Err(MalformedPacket)
        case Some(qos) => Ok((Some(Will(topic, payload, qos, flags.willRetain)), b2))
  }

  function ParseConnectFields(flags: FlagSet, keepAlive: u16, b: Bytes): Result<Packet, DecodeError> {
    var (clientId, b1) :- TakeStr(b);
    if flags.reserved then Err(MalformedPacket)
    else
      var (will, b2) :- TakeWill(flags, b1);
      var (username, b3) :- TakeUsername(flags, b2);
      var (password, b4) :- TakePassword(flags, b3);
      if password.Some? && username.None? then Err(MalformedPacket)
      else if will.None? && (flags.willQos != 0 || flags.willRetain) then Err(MalformedPacket)
      else if clientId == [] && !flags.clean then Err(MalformedPacket)
      else if b4 != [] then Err(MalformedPacket)
      else Ok(Connect(clientId, flags.clean, keepAlive, will, username, password))
  }

  function ParseConnect(b: Bytes): Result<Packet, DecodeError> {
    var ((flags, keepAlive), rest) :- TakeConnectHead(PROTOCOL_LEVEL, b);
    ParseConnectFields(FlagsOf(flags), keepAlive, rest)
  }

  function ParseConnAck(b: Bytes): Result<Packet, DecodeError> {
    if |b| != 2 || b[0] > 1 || b[1] > 5 || (b[0] == 1 && b[1] != 0) then Err(MalformedPacket)
    else Ok(ConnAck(b[0] == 1, b[1]))
  }

  function ParsePublish(flags: PublishFlags, b: Bytes): Result<Packet, DecodeError> {
    match QoSOf(flags.qos)
    case None => Err(InvalidPacketFlags)
    case Some(qos) =>
      var (topic, b1) :- TakeStr(b);
      if topic == [] || HasWildcard(topic) then Err(MalformedPacket)
      else if qos == AtMostOnce then Ok(Publish(flags.dup, qos, flags.retain, topic, None, b1))
      else
        var (id, b2) :- TakeU16(b1);
        if id == 0 then Err(MalformedPacket)
        else Ok(Publish(flags.dup, qos, flags.retain, topic, Some(id), b2))
  }

  function ParseAck(kind: AckKind, b: Bytes): Result<Packet, DecodeError> {
    var (id, rest) :- TakeId(b);
    if rest != [] then Err(MalformedPacket) else Ok(Ack(kind, id))
  }

  function TakeSubscription(b: Bytes): (r: Parsed<Subscription>)
    ensures r.Ok? ==> |r.value.1| < |b|
  {
    var (filter, b1) :- TakeStr(b);
    if !IsValidFilter(filter) then Err(MalformedPacket)
    else
      var (options, b2) :- TakeByte(b1);
      if QoSOf(options % 4).None? || options / 4 != 0 then Err(MalformedPacket)
      else Ok((Subscription(filter, QoSOf(options % 4).value), b2))
  }

  function TakeFilter(b: Bytes): (r: Parsed<Text>)
    ensures r.Ok? ==> |r.value.1| < |b|
  {
    var (filter, b1) :- TakeStr(b);
    if !IsValidFilter(filter) then Err(MalformedPacket) else Ok((filter, b1))
  }

  function ParseSubscriptions(b: Bytes): Result<seq<Subscription>, DecodeError>
    decreases |b|
  {
    if b == [] then Ok([])
    else
      var (s, rest) :- TakeSubscription(b);
      var tail :- ParseSubscriptions(rest);
      Ok([s] + tail)
  }

  function ParseFilters(b: Bytes): Result<seq<Text>, DecodeError>
    decreases |b|
  {
    if b == [] then Ok([])
    else
      var (s, rest) :- TakeFilter(b);
      var tail :- ParseFilters(rest);
      Ok([s] + tail)
  }

  function ParseSubscribe(b: Bytes): Result<Packet, DecodeError> {
    var (id, rest) :- TakeId(b);
    var list :- ParseSubscriptions(rest);
    if list == [] then Err(MalformedPacket) else Ok(Subscribe(id, list))
  }

  function ParseUnsubscribe(b: Bytes): Result<Packet, DecodeError> {
    var (id, rest) :- TakeId(b);
    var list :- ParseFilters(rest);
    if list == [] then Err(MalformedPacket) else Ok(Unsubscribe(id, list))
  }

  predicate IsReturnCode(x: u8) {
    x <= 2 || x == 0x80
  }

  function ParseSubAck(b: Bytes): Result<Packet, DecodeError> {
    var (id, rest) :- TakeId(b);
    if rest == [] || exists i | 0 <= i < |rest| :: !IsReturnCode(rest[i]) then Err(MalformedPacket)
    else
      assert forall x | x in rest :: IsReturnCode(x);
      Ok(SubAck(id, rest))
  }

  /** The type names one of the packets, and the flags are those it must have. */
  function CheckFirst(first: u8): Option<DecodeError> {
    if first / 16 == 0 || first / 16 == 15 then Some(InvalidPacketType)
    else if first / 16 == 3 then
      var flags := PublishFlagsOf(first);
      if flags.qos == 3 || (flags.qos == 0 && flags.dup) then Some(InvalidPacketFlags) else None
    else if first % 16 == if first / 16 in {6, 8, 10} then 2 else 0 then None
    else Some(InvalidPacketFlags)
  }

  predicate IsBare(first: u8) {
    KindOfBare(first).Some?
  }

  function ParseBody(first: u8, b: Bytes): Result<Packet, DecodeError> {
    if KindOfAck(first).Some? then ParseAck(KindOfAck(first).value, b)
    else if KindOfBare(first).Some? then if b == [] then Ok(Bare(KindOfBare(first).value)) else Err(MalformedPacket)
    else if first / 16 == 1 then ParseConnect(b)
    else if first / 16 == 2 then ParseConnAck(b)
    else if first / 16 == 3 then ParsePublish(PublishFlagsOf(first), b)
    else if first / 16 == 8 then ParseSubscribe(b)
    else if first / 16 == 9 then ParseSubAck(b)
    else ParseUnsubscribe(b)
  }

  /** `Packet::decode`: the packet at the start of `b` and its length. */
  function Decode(b: Bytes): Result<(Packet, nat), DecodeError> {
    Unframed(b, CheckFirst, IsBare, ParseBody)
  }
}
