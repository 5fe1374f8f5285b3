/** The properties of MQTT v5.0 (src/v5/property/mod.rs, section 2.2.2 of MQTT v5.0). */
module V5Property {
  import opened Prelude
  import opened Vbi
  import opened Fields
  import opened CommonParts

  datatype Property =
    | PayloadFormatIndicator(byte: u8)
    | MessageExpiryInterval(four: u32)
    | ContentType(text: Text)
    | ResponseTopic(text: Text)
    | CorrelationData(data: Bytes)
    | SubscriptionIdentifier(vbi: u32)
    | SessionExpiryInterval(four: u32)
    | AssignedClientIdentifier(text: Text)
    | ServerKeepAlive(two: u16)
    | AuthenticationMethod(text: Text)
    | AuthenticationData(data: Bytes)
    | RequestProblemInformation(byte: u8)
    | WillDelayInterval(four: u32)
    | RequestResponseInformation(byte: u8)
    | ResponseInformation(text: Text)
    | ServerReference(text: Text)
    | ReasonString(text: Text)
    | ReceiveMaximum(two: u16)
    | TopicAliasMaximum(two: u16)
    | TopicAlias(two: u16)
    | MaximumQoS(byte: u8)
    | RetainAvailable(byte: u8)
    | UserProperty(key: Text, text: Text)
    | MaximumPacketSize(four: u32)
    | WildcardSubscriptionAvailable(byte: u8)
    | SubscriptionIdentifierAvailable(byte: u8)
    | SharedSubscriptionAvailable(byte: u8)

  /** The seven forms a value has on the wire. */
  datatype Shape = OneByte | TwoBytes | FourBytes | VarInt | Utf8 | Binary | Utf8Pair

  datatype Value =
    | One(x: u8)
    | Two(y: u16)
    | Four(z: u32)
    | Var(v: u32)
    | Str(s: Text)
    | Bin(b: Bytes)
    | Pair(k: Text, s: Text)

  const SUBSCRIPTION_ID: u8 := 0x0B
  const USER_PROPERTY: u8 := 0x26
  const LAST_ID: u8 := 0x2A

  function Identifier(p: Property): (id: u8)
    ensures id <= LAST_ID
  {
    match p
    case PayloadFormatIndicator(_) => 0x01
    case MessageExpiryInterval(_) => 0x02
    case ContentType(_) => 0x03
    case ResponseTopic(_) => 0x08
    case CorrelationData(_) => 0x09
    case SubscriptionIdentifier(_) => 0x0B
    case SessionExpiryInterval(_) => 0x11
    case AssignedClientIdentifier(_) => 0x12
    case ServerKeepAlive(_) => 0x13
    case AuthenticationMethod(_) => 0x15
    case AuthenticationData(_) => 0x16
    case RequestProblemInformation(_) => 0x17
    case WillDelayInterval(_) => 0x18
    case RequestResponseInformation(_) => 0x19
    case ResponseInformation(_) => 0x1A
    case ServerReference(_) => 0x1C
    case ReasonString(_) => 0x1F
    case ReceiveMaximum(_) => 0x21
    case TopicAliasMaximum(_) => 0x22
    case TopicAlias(_) => 0x23
    case MaximumQoS(_) => 0x24
    case RetainAvailable(_) => 0x25
    case UserProperty(_, _) => 0x26
    case MaximumPacketSize(_) => 0x27
    case WildcardSubscriptionAvailable(_) => 0x28
    case SubscriptionIdentifierAvailable(_) => 0x29
    case SharedSubscriptionAvailable(_) => 0x2A
  }

  function ShapeOf(id: u8): Option<Shape> {
    if id in {0x01, 0x17, 0x19, 0x24, 0x25, 0x28, 0x29, 0x2A} then Some(OneByte)
    else if id in {0x13, 0x21, 0x22, 0x23} then Some(TwoBytes)
    else if id in {0x02, 0x11, 0x18, 0x27} then Some(FourBytes)
    else if id in {0x03, 0x08, 0x12, 0x15, 0x1A, 0x1C, 0x1F} then Some(Utf8)
    else if id in {0x09, 0x16} then Some(Binary)
    else if id == 0x0B then Some(VarInt)
    else if id == 0x26 then Some(Utf8Pair)
    else None
  }

  function ValueOf(p: Property): Value {
    match ShapeOf(Identifier(p)).value
    case OneByte => One(p.byte)
    case TwoBytes => Two(p.two)
    case FourBytes => Four(p.four)
    case VarInt => Var(p.vbi)
    case Utf8 => Str(p.text)
    case Binary => Bin(p.data)
    case Utf8Pair => Pair(p.key, p.text)
  }

  predicate HasShape(v: Value, shape: Shape) {
    match shape
    case OneByte => v.One?
    case TwoBytes => v.Two?
    case FourBytes => v.Four?
    case VarInt => v.Var?
    case Utf8 => v.Str?
    case Binary => v.Bin?
    case Utf8Pair => v.Pair?
  }

  /** The property with this identifier and value. */
  function Make(id: u8, v: Value): Property
    requires ShapeOf(id).Some? && HasShape(v, ShapeOf(id).value)
  {
    match id
    case 0x01 => PayloadFormatIndicator(v.x)
    case 0x02 => MessageExpiryInterval(v.z)
    case 0x03 => ContentType(v.s)
    case 0x08 => ResponseTopic(v.s)
    case 0x09 => CorrelationData(v.b)
    case 0x0B => SubscriptionIdentifier(v.v)
    case 0x11 => SessionExpiryInterval(v.z)
    case 0x12 => AssignedClientIdentifier(v.s)
    case 0x13 => ServerKeepAlive(v.y)
    case 0x15 => AuthenticationMethod(v.s)
    case 0x16 => AuthenticationData(v.b)
    case 0x17 => RequestProblemInformation(v.x)
    case 0x18 => WillDelayInterval(v.z)
    case 0x19 => RequestResponseInformation(v.x)
    case 0x1A => ResponseInformation(v.s)
    case 0x1C => ServerReference(v.s)
    case 0x1F => ReasonString(v.s)
    case 0x21 => ReceiveMaximum(v.y)
    case 0x22 => TopicAliasMaximum(v.y)
    case 0x23 => TopicAlias(v.y)
    case 0x24 => MaximumQoS(v.x)
    case 0x25 => RetainAvailable(v.x)
    case 0x26 => UserProperty(v.k, v.s)
    case 0x27 => MaximumPacketSize(v.z)
    case 0x28 => WildcardSubscriptionAvailable(v.x)
    case 0x29 => SubscriptionIdentifierAvailable(v.x)
    case 0x2A => SharedSubscriptionAvailable(v.x)
  }

  /** A property is its identifier and its value. */
  lemma MakeInverse(p: Property)
    ensures ShapeOf(Identifier(p)).Some? && HasShape(ValueOf(p), ShapeOf(Identifier(p)).value)
    ensures Make(Identifier(p), ValueOf(p)) == p
  {
  }

  lemma MakeExact(id: u8, v: Value)
    requires ShapeOf(id).Some? && HasShape(v, ShapeOf(id).value)
    ensures Identifier(Make(id, v)) == id && ValueOf(Make(id, v)) == v
  {
  }

  // -- values ---------------------------------------------------------------------------------

  function U32Bytes(x: u32): (r: Bytes)
    ensures |r| == 4
  {
    var x1 := x / 256;
    var x2 := x1 / 256;
    [x2 / 256, x2 % 256, x1 % 256, x % 256]
  }

  function U32Of(a: u8, b: u8, c: u8, d: u8): u32 {
    ((a * 256 + b) * 256 + c) * 256 + d
  }

  lemma LastDigit(high: nat, low: u8)
    ensures (high * 256 + low) / 256 == high && (high * 256 + low) % 256 == low
  {
  }

  lemma U32Exact(a: u8, b: u8, c: u8, d: u8)
    ensures U32Bytes(U32Of(a, b, c, d)) == [a, b, c, d]
  {
    LastDigit(a, b);
    LastDigit(a * 256 + b, c);
    LastDigit((a * 256 + b) * 256 + c, d);
  }

  lemma U32RoundTrip(x: u32)
    ensures var r := U32Bytes(x); U32Of(r[0], r[1], r[2], r[3]) == x
  {
  }

  function TakeU32(b: Bytes): Parsed<u32> {
    if |b| < 4 then Err(MalformedPacket) else Ok((U32Of(b[0], b[1], b[2], b[3]), b[4..]))
  }

  lemma TakeU32RoundTrip(x: u32, rest: Bytes)
    ensures TakeU32(U32Bytes(x) + rest) == Ok((x, rest))
  {
    U32RoundTrip(x);
    assert (U32Bytes(x) + rest)[4..] == rest;
  }

  lemma TakeU32Exact(b: Bytes)
    requires TakeU32(b).Ok?
    ensures var (x, rest) := TakeU32(b).value; b == U32Bytes(x) + rest
  {
    U32Exact(b[0], b[1], b[2], b[3]);
    assert b == [b[0], b[1], b[2], b[3]] + b[4..];
  }

  function TakeVbi(b: Bytes): Parsed<u32> {
    match VbiDecode(b)
    case Ok((v, n)) =>
      VbiCanonical(b);
      Ok((v, b[n..]))
    case Err(e) => Err(MalformedIfInsufficient(e))
  }

  lemma TakeVbiRoundTrip(v: nat, rest: Bytes)
    requires v <= MAX_VBI
    ensures TakeVbi(VbiBytes(v) + rest) == Ok((v, rest))
  {
    VbiRoundTrip(v, rest);
  }

  lemma TakeVbiExact(b: Bytes)
    requires TakeVbi(b).Ok?
    ensures var (v, rest) := TakeVbi(b).value; v <= MAX_VBI && b == VbiBytes(v) + rest && |rest| < |b|
  {
    VbiCanonical(b);
  }

  /** A value beyond the maximum is never written; only its declared length matters. */
  function VarBytes(v: u32): Bytes {
    if v <= MAX_VBI then VbiBytes(v) else [0, 0, 0, 0]
  }

  /** A value and what follows it. */
  function ValueThen(v: Value, rest: Bytes): Bytes {
    match v
    case One(x) => [x] + rest
    case Two(y) => U16Bytes(y) + rest
    case Four(z) => U32Bytes(z) + rest
    case Var(n) => VarBytes(n) + rest
    case Str(s) => FieldBytes(s) + rest
    case Bin(b) => FieldBytes(b) + rest
    case Pair(k, s) => FieldBytes(k) + (FieldBytes(s) + rest)
  }

  function VbiError(v: u32): Option<EncodeError> {
    if v > MAX_VBI then Some(EncodeError.PacketTooLarge(v, MAX_VBI)) else None
  }

  function ValueFault(v: Value): Option<EncodeError> {
    match v
    case Var(n) => VbiError(n)
    case Str(s) => StrError(s)
    case Bin(b) => BinError(b)
    case Pair(k, s) => OrElse(StrError(k), StrError(s))
    case _ => None
  }

  function TakeValue(shape: Shape, b: Bytes): (r: Parsed<Value>)
    ensures r.Ok? ==> HasShape(r.value.0, shape) && |r.value.1| <= |b|
  {
    match shape
    case OneByte => var (x, rest) :- TakeByte(b); Ok((One(x), rest))
    case TwoBytes => var (y, rest) :- TakeU16(b); Ok((Two(y), rest))
    case FourBytes => var (z, rest) :- TakeU32(b); Ok((Four(z), rest))
    case VarInt => var (v, rest) :- TakeVbi(b); Ok((Var(v), rest))
    case Utf8 => var (s, rest) :- TakeStr(b); Ok((Str(s), rest))
    case Binary => var (d, rest) :- TakeBin(b); Ok((Bin(d), rest))
    case Utf8Pair =>
      var (k, b1) :- TakeStr(b);
      var (s, rest) :- TakeStr(b1);
      Ok((Pair(k, s), rest))
  }

  lemma ValueReadsBack(shape: Shape, v: Value, rest: Bytes)
    requires HasShape(v, shape) && ValueFault(v).None?
    ensures TakeValue(shape, ValueThen(v, rest)) == Ok((v, rest))
  {
    match v {
      case One(x) => assert ([x] + rest)[1..] == rest;
      case Two(y) => TakeU16RoundTrip(y, rest);
      case Four(z) => TakeU32RoundTrip(z, rest);
      case Var(n) => TakeVbiRoundTrip(n, rest);
      case Str(s) => TakeStrRoundTrip(s, rest);
      case Bin(b) => TakeBinRoundTrip(b, rest);
      case Pair(k, s) =>
        TakeStrRoundTrip(k, FieldBytes(s) + rest);
        TakeStrRoundTrip(s, rest);
    }
  }

  lemma ValueExact(shape: Shape, b: Bytes)
    requires TakeValue(shape, b).Ok?
    ensures var (v, rest) := TakeValue(shape, b).value; ValueFault(v).None? && b == ValueThen(v, rest)
  {
    match shape {
      case OneByte =>
      case TwoBytes => TakeU16Exact(b);
      case FourBytes => TakeU32Exact(b);
      case VarInt => TakeVbiExact(b);
      case Utf8 => TakeStrExact(b);
      case Binary => TakeBinExact(b);
      case Utf8Pair =>
        TakeStrExact(b);
        TakeStrExact(TakeStr(b).value.1);
    }
  }

  // -- one property ---------------------------------------------------------------------------

  /** `validate_value`. */
  function ValueCheck(p: Property): Option<EncodeInvalidField> {
    match p
    case MaximumQoS(v) => if v > 1 then Some(InvalidPropertyValue) else None
    case ReceiveMaximum(v) => if v == 0 then Some(InvalidPropertyValue) else None
    case TopicAlias(v) => if v == 0 then Some(InvalidPropertyValue) else None
    case MaximumPacketSize(v) => if v == 0 then Some(InvalidPropertyValue) else None
    case SubscriptionIdentifier(v) => if v == 0 then Some(InvalidPropertyValue) else None
    case ResponseTopic(topic) =>
      if topic == [] then Some(EmptyTopicName) else if HasWildcard(topic) then Some(WildcardInTopicName) else None
    case _ =>
      if ShapeOf(Identifier(p)) == Some(OneByte) && p.byte > 1 then Some(InvalidPropertyValue) else None
  }

  function PropertyThen(p: Property, rest: Bytes): Bytes {
    [Identifier(p)] + ValueThen(ValueOf(p), rest)
  }

  /** The first reason not to write a property. */
  function PropertyFault(p: Property): Option<EncodeError> {
    match ValueCheck(p)
    case Some(reason) => Some(InvalidField(reason))
    case None => ValueFault(ValueOf(p))
  }

  function TakeProperty(b: Bytes): (r: Parsed<Property>)
    ensures r.Ok? ==> |r.value.1| < |b|
  {
    match VbiDecode(b)
    case Err(e) => Err(MalformedIfInsufficient(e))
    case Ok((id, n)) =>
      if id > LAST_ID || ShapeOf(id).None? then Err(MalformedPacket)
      else
        var (v, rest) :- TakeValue(ShapeOf(id).value, b[n..]);
        if ValueCheck(Make(id, v)).Some? then Err(MalformedPacket) else Ok((Make(id, v), rest))
  }

  /** A small integer is its own encoding, and no longer form of it is accepted. */
  lemma OneByteVbi(id: u8, rest: Bytes)
    requires id < 128
    ensures VbiDecode([id] + rest) == Ok((id, 1)) && ([id] + rest)[1..] == rest
  {
    VbiRoundTrip(id, rest);
  }

  lemma PropertyReadsBack(p: Property, rest: Bytes)
    requires PropertyFault(p).None?
    ensures TakeProperty(PropertyThen(p, rest)) == Ok((p, rest))
  {
    MakeInverse(p);
    OneByteVbi(Identifier(p), ValueThen(ValueOf(p), rest));
    ValueReadsBack(ShapeOf(Identifier(p)).value, ValueOf(p), rest);
  }

  lemma PropertyExact(b: Bytes)
    requires TakeProperty(b).Ok?
    ensures var (p, rest) := TakeProperty(b).value; PropertyFault(p).None? && b == PropertyThen(p, rest)
  {
    VbiCanonical(b);
    var (id, n) := VbiDecode(b).value;
    assert VbiBytes(id) == [id];
    var (v, rest) := TakeValue(ShapeOf(id).value, b[n..]).value;
    ValueExact(ShapeOf(id).value, b[n..]);
    MakeExact(id, v);
  }

  // -- lists of properties ---------------------------------------------------------------------

  type Properties = seq<Property>

  /** The properties without their length. */
  function Payload(ps: Properties): Bytes {
    if ps == [] then [] else PropertyThen(ps[0], Payload(ps[1..]))
  }

  /** A property list with its length, and what follows it. */
  function PropertiesThen(ps: Properties, rest: Bytes): Bytes {
    VbiBytes(|Payload(ps)|) + (Payload(ps) + rest)
  }

  function PropertiesFault(ps: Properties): Option<EncodeError> {
    if ps == [] then None else OrElse(PropertyFault(ps[0]), PropertiesFault(ps[1..]))
  }

  /** Identifiers that may occur more than once. */
  predicate MayRepeat(id: u8, repeatSubscriptionId: bool) {
    id == USER_PROPERTY || (repeatSubscriptionId && id == SUBSCRIPTION_ID)
  }

  /** `validate_duplicate_identifiers`, with the identifiers `seen` so far. */
  predicate NoDuplicates(ps: Properties, repeatSubscriptionId: bool, seen: set<u8>) {
    ps == [] ||
    var id := Identifier(ps[0]);
    if MayRepeat(id, repeatSubscriptionId) then NoDuplicates(ps[1..], repeatSubscriptionId, seen)
    else id !in seen && NoDuplicates(ps[1..], repeatSubscriptionId, seen + {id})
  }

  /** The check says what it should: no two properties share an identifier that may not be repeated. */
  lemma {:induction false} NoDuplicatesIff(ps: Properties, repeatSubscriptionId: bool, seen: set<u8>)
    ensures NoDuplicates(ps, repeatSubscriptionId, seen) <==>
            && (forall i | 0 <= i < |ps| ::
                  MayRepeat(Identifier(ps[i]), repeatSubscriptionId) || Identifier(ps[i]) !in seen)
            && (forall i, j | 0 <= i < j < |ps| ::
                  Identifier(ps[i]) == Identifier(ps[j]) ==> MayRepeat(Identifier(ps[i]), repeatSubscriptionId))
    decreases |ps|
  {
    if ps != [] {
      var id, rest := Identifier(ps[0]), ps[1..];
      NoDuplicatesIff(rest, repeatSubscriptionId, if MayRepeat(id, repeatSubscriptionId) then seen else seen + {id});
      assert forall i | 1 <= i < |ps| :: ps[i] == rest[i - 1];
    }
  }

  function ParsePayload(b: Bytes): Result<Properties, DecodeError>
    decreases |b|
  {
    if b == [] then Ok([])
    else
      var (p, rest) :- TakeProperty(b);
      var tail :- ParsePayload(rest);
      Ok([p] + tail)
  }

  /** Bytes behind a length of their own. */
  function TakeBlock(b: Bytes): Parsed<Bytes> {
    match VbiDecode(b)
    case Err(e) => Err(MalformedIfInsufficient(e))
    case Ok((length, n)) => BlockAfter(b, n, length)
  }

  function BlockAfter(b: Bytes, n: nat, length: nat): Parsed<Bytes> {
    if |b| < n + length then Err(MalformedPacket) else Ok((b[n..n + length], b[n + length..]))
  }

  lemma Between(first: Bytes, block: Bytes, rest: Bytes)
    ensures BlockAfter(first + (block + rest), |first|, |block|) == Ok((block, rest))
  {
    var b := first + (block + rest);
    assert b[|first|..|first| + |block|] == block && b[|first| + |block|..] == rest;
  }

  lemma TakeBlockRoundTrip(block: Bytes, rest: Bytes)
    requires |block| <= MAX_VBI
    ensures TakeBlock(VbiBytes(|block|) + (block + rest)) == Ok((block, rest))
  {
    VbiRoundTrip(|block|, block + rest);
    Between(VbiBytes(|block|), block, rest);
  }

  lemma Rejoin(b: Bytes, n: nat, m: nat)
    requires n + m <= |b|
    ensures b == b[..n] + (b[n..n + m] + b[n + m..])
  {
  }

  lemma TakeBlockExact(b: Bytes)
    requires TakeBlock(b).Ok?
    ensures var (block, rest) := TakeBlock(b).value;
            |block| <= MAX_VBI && b == VbiBytes(|block|) + (block + rest)
  {
    VbiCanonical(b);
    var (length, n) := VbiDecode(b).value;
    Rejoin(b, n, length);
  }

  /** `decode_with_options`. */
  function TakeProperties(b: Bytes, repeatSubscriptionId: bool): Parsed<Properties> {
    var (block, rest) :- TakeBlock(b);
    var ps :- ParsePayload(block);
    if !NoDuplicates(ps, repeatSubscriptionId, {}) then Err(MalformedPacket) else Ok((ps, rest))
  }

  /** A list that can be written, and read back where `repeatSubscriptionId` says what may repeat. */
  predicate Readable(ps: Properties, repeatSubscriptionId: bool) {
    PropertiesFault(ps).None? && |Payload(ps)| <= MAX_VBI && NoDuplicates(ps, repeatSubscriptionId, {})
  }

  lemma {:induction false} PayloadReadsBack(ps: Properties)
    requires PropertiesFault(ps).None?
    ensures ParsePayload(Payload(ps)) == Ok(ps)
    decreases |ps|
  {
    if ps != [] {
      PropertyReadsBack(ps[0], Payload(ps[1..]));
      PayloadReadsBack(ps[1..]);
      assert [ps[0]] + ps[1..] == ps;
    }
  }

  lemma {:induction false} PayloadExact(b: Bytes)
    requires ParsePayload(b).Ok?
    ensures var ps := ParsePayload(b).value; PropertiesFault(ps).None? && Payload(ps) == b
    decreases |b|
  {
    if b != [] {
      PropertyExact(b);
      var (p, rest) := TakeProperty(b).value;
      PayloadExact(rest);
      assert ParsePayload(b).value[1..] == ParsePayload(rest).value;
    }
  }

  /** What is written is read back, with whatever follows it (section 2.2.2 of MQTT v5.0). */
  lemma PropertiesReadBack(ps: Properties, repeatSubscriptionId: bool, rest: Bytes)
    requires Readable(ps, repeatSubscriptionId)
    ensures TakeProperties(PropertiesThen(ps, rest), repeatSubscriptionId) == Ok((ps, rest))
  {
    PayloadReadsBack(ps);
    TakeBlockRoundTrip(Payload(ps), rest);
  }

  /** Only what would be written is read: the encoding is canonical. */
  lemma PropertiesExact(b: Bytes, repeatSubscriptionId: bool)
    requires TakeProperties(b, repeatSubscriptionId).Ok?
    ensures var (ps, rest) := TakeProperties(b, repeatSubscriptionId).value;
            Readable(ps, repeatSubscriptionId) && b == PropertiesThen(ps, rest)
  {
    TakeBlockExact(b);
    PayloadExact(TakeBlock(b).value.0);
  }
}
