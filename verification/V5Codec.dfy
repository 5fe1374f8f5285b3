/** The encoders of MQTT v5.0 over a buffer and a moving offset (src/v5). */
module V5Codec {
  import opened Prelude
  import opened Vbi
  import opened Fields
  import opened HeaderFlags
  import opened CommonParts
  import opened Cursor
  import opened V5Property
  import opened V5Packets
  import opened V5RoundTrip

  // -- properties -----------------------------------------------------------------------------

  lemma ValueThenIs(v: Value, rest: Bytes)
    ensures ValueThen(v, rest) == ValueThen(v, []) + rest
  {
    if v.Pair? {
      assert FieldBytes(v.k) + (FieldBytes(v.s) + []) + rest == FieldBytes(v.k) + (FieldBytes(v.s) + rest);
    }
  }

  method EncodeValue(v: Value, buf: array<u8>, at: nat) returns (r: Result<nat, EncodeError>)
    requires at + ValueLen(v) <= buf.Length
    modifies buf
    ensures |ValueThen(v, [])| == ValueLen(v)
    ensures match ValueFault(v)
            case Some(e) => r == Err(e)
            case None => r == Ok(ValueLen(v)) && buf[..] == Write(old(buf[..]), at, ValueThen(v, []))
  {
    ValueLenExact(v, []);
    match v {
      case One(x) =>
        assert [x] + [] == [x];
        PutByte(buf, at, x);
        return Ok(1);
      case Two(y) =>
        assert U16Bytes(y) + [] == U16Bytes(y);
        PutBytes(buf, at, U16Bytes(y));
        return Ok(2);
      case Four(z) =>
        assert U32Bytes(z) + [] == U32Bytes(z);
        PutBytes(buf, at, U32Bytes(z));
        return Ok(4);
      case Var(n) =>
        assert VarBytes(n) + [] == VarBytes(n);
        r := EncodeVbi(n, buf, at);
      case Str(s) =>
        assert FieldBytes(s) + [] == FieldBytes(s);
        r := EncodeStr(s, buf, at);
      case Bin(b) =>
        assert FieldBytes(b) + [] == FieldBytes(b);
        r := EncodeSlice(b, buf, at);
      case Pair(k, s) => r := EncodePair(k, s, buf, at);
    }
  }

  /** `encode_user_property`. */
  method EncodePair(k: Text, s: Text, buf: array<u8>, at: nat) returns (r: Result<nat, EncodeError>)
    requires at + 2 + |k| + 2 + |s| <= buf.Length
    modifies buf
    ensures match OrElse(StrError(k), StrError(s))
            case Some(e) => r == Err(e)
            case None =>
              r == Ok(2 + |k| + 2 + |s|)
              && buf[..] == Write(old(buf[..]), at, FieldBytes(k) + (FieldBytes(s) + []))
  {
    ghost var initial := buf[..];
    var n :- EncodeStr(k, buf, at);
    var m :- EncodeStr(s, buf, at + n);
    WriteThen(initial, at, FieldBytes(k), FieldBytes(s));
    assert FieldBytes(s) + [] == FieldBytes(s);
    return Ok(n + m);
  }

  /** What `Property::encode` answers where `capacity` bytes are left. */
  function PropertyResult(p: Property, capacity: nat): Result<nat, EncodeError> {
    if ValueCheck(p).Some? then Err(InvalidField(ValueCheck(p).value))
    else if capacity < 1 + ValueLen(ValueOf(p)) then Err(BufferTooSmall)
    else if ValueFault(ValueOf(p)).Some? then Err(ValueFault(ValueOf(p)).value)
    else Ok(1 + ValueLen(ValueOf(p)))
  }

  method EncodeProperty(p: Property, buf: array<u8>, at: nat) returns (r: Result<nat, EncodeError>)
    requires at <= buf.Length
    modifies buf
    ensures r == PropertyResult(p, buf.Length - at)
    ensures r.Ok? ==> |PropertyThen(p, [])| == r.value && buf[..] == Write(old(buf[..]), at, PropertyThen(p, []))
  {
    if ValueCheck(p).Some? {
      return Err(InvalidField(ValueCheck(p).value));
    }
    var v := ValueOf(p);
    if buf.Length - at < 1 + ValueLen(v) {
      return Err(BufferTooSmall);
    }
    ghost var initial := buf[..];
    ValueLenExact(v, []);
    var written :- EncodeValue(v, buf, at + 1);
    PutByte(buf, at, Identifier(p));
    IdentifierLast(initial, at, Identifier(p), ValueThen(v, []));
    return Ok(1 + written);
  }

  /** The identifier is put in front of the value after it. */
  lemma IdentifierLast(b: Bytes, at: nat, id: u8, value: Bytes)
    requires at + 1 + |value| <= |b|
    ensures Write(Write(b, at + 1, value), at, [id]) == Write(b, at, [id] + value)
  {
  }

  method PayloadLength(ps: Properties) returns (n: nat)
    ensures n == PayloadLen(ps)
  {
    n := 0;
    for i := 0 to |ps|
      invariant n + PayloadLen(ps[i..]) == PayloadLen(ps)
    {
      assert ps[i..][1..] == ps[i + 1..];
      n := n + 1 + ValueLen(ValueOf(ps[i]));
    }
  }

  /** What `Properties::encode` answers where `capacity` bytes are left. */
  function PropertiesResult(ps: Properties, capacity: nat): Result<nat, EncodeError> {
    if PayloadLen(ps) > MAX_VBI then Err(EncodeError.PacketTooLarge(PayloadLen(ps), MAX_VBI))
    else if capacity < PropertiesLen(ps) then Err(BufferTooSmall)
    else if PropertiesFault(ps).Some? then Err(PropertiesFault(ps).value)
    else Ok(PropertiesLen(ps))
  }

  /** Writes exactly `encoded_len` bytes, or refuses. */
  method EncodeProperties(ps: Properties, buf: array<u8>, at: nat) returns (r: Result<nat, EncodeError>)
    requires at <= buf.Length
    modifies buf
    ensures r == PropertiesResult(ps, buf.Length - at)
    ensures r.Ok? ==> |PropertiesThen(ps, [])| == r.value && buf[..] == Write(old(buf[..]), at, PropertiesThen(ps, []))
  {
    var length := PayloadLength(ps);
    if length > MAX_VBI {
      return Err(EncodeError.PacketTooLarge(length, MAX_VBI));
    }
    if buf.Length - at < VbiLen(length) + length {
      return Err(BufferTooSmall);
    }
    PropertiesLenExact(ps, []);
    PropertiesThenEnd(ps);
    PayloadLenExact(ps);
    r := WriteProperties(ps, length, buf, at);
  }

  /** The length and the loop, where there is room. */
  method WriteProperties(ps: Properties, length: nat, buf: array<u8>, at: nat) returns (r: Result<nat, EncodeError>)
    requires length == PayloadLen(ps) == |Payload(ps)| <= MAX_VBI && at + VbiLen(length) + length <= buf.Length
    modifies buf
    ensures |VbiBytes(length)| == VbiLen(length)
    ensures match PropertiesFault(ps)
            case Some(e) => r == Err(e)
            case None =>
              && r == Ok(VbiLen(length) + length)
              && buf[..] == Write(old(buf[..]), at, VbiBytes(length) + Payload(ps))
  {
    ghost var initial := buf[..];
    var n := PutLength(length, buf, at);
    var written :- EncodePayload(ps, buf, at + n);
    WriteThen(initial, at, VbiBytes(length), Payload(ps));
    return Ok(n + written);
  }

  lemma PropertiesThenEnd(ps: Properties)
    ensures PropertiesThen(ps, []) == VbiBytes(|Payload(ps)|) + Payload(ps)
  {
    assert Payload(ps) + [] == Payload(ps);
  }

  /** The loop over the properties. */
  method EncodePayload(ps: Properties, buf: array<u8>, at: nat) returns (r: Result<nat, EncodeError>)
    requires at + PayloadLen(ps) <= buf.Length && |Payload(ps)| == PayloadLen(ps)
    modifies buf
    ensures match PropertiesFault(ps)
            case Some(e) => r == Err(e)
            case None => r == Ok(PayloadLen(ps)) && buf[..] == Write(old(buf[..]), at, Payload(ps))
  {
    ghost var initial, done: Bytes := buf[..], [];
    var offset := at;
    for i := 0 to |ps|
      invariant PropertiesFault(ps) == PropertiesFault(ps[i..])
      invariant offset == at + |done| && offset + PayloadLen(ps[i..]) == at + PayloadLen(ps)
      invariant Payload(ps) == done + Payload(ps[i..])
      invariant buf[..] == Write(initial, at, done)
    {
      assert ps[i..][1..] == ps[i + 1..];
      ghost var piece := PropertyThen(ps[i], []);
      var n :- EncodeProperty(ps[i], buf, offset);
      PieceOfPayload(ps[i], Payload(ps[i + 1..]));
      WriteThen(initial, at, done, piece);
      Reassociate(Payload(ps), done, piece, Payload(ps[i + 1..]));
      offset, done := offset + n, done + piece;
    }
    assert done + [] == done;
    return Ok(offset - at);
  }

  lemma PieceOfPayload(p: Property, rest: Bytes)
    ensures PropertyThen(p, rest) == PropertyThen(p, []) + rest
  {
    ValueThenIs(ValueOf(p), rest);
    Reassociate([Identifier(p)] + (ValueThen(ValueOf(p), []) + rest), [Identifier(p)], ValueThen(ValueOf(p), []), rest);
  }

  lemma Reassociate(all: Bytes, a: Bytes, b: Bytes, c: Bytes)
    requires all == a + (b + c)
    ensures all == (a + b) + c
  {
  }

  method EmitProperties(ps: Properties, buf: array<u8>, offset: nat,
                        ghost initial: Bytes, ghost wire: Bytes, ghost rest: Bytes)
    returns (r: Result<nat, EncodeError>)
    requires Writing(buf[..], initial, wire, offset, PropertiesThen(ps, rest)) && PayloadLen(ps) <= MAX_VBI
    modifies buf
    ensures match PropertiesFault(ps)
            case Some(e) => r == Err(e)
            case None => r.Ok? && Writing(buf[..], initial, wire, r.value, rest)
  {
    PropertiesThenIs(ps, rest);
    PropertiesLenExact(ps, []);
    Advance(buf[..], initial, wire, offset, PropertiesThen(ps, []), rest);
    var n :- EncodeProperties(ps, buf, offset);
    return Ok(offset + n);
  }

  lemma PropertiesThenIs(ps: Properties, rest: Bytes)
    ensures PropertiesThen(ps, rest) == PropertiesThen(ps, []) + rest
  {
    assert Payload(ps) + [] == Payload(ps);
    Reassociate(PropertiesThen(ps, rest), VbiBytes(|Payload(ps)|), Payload(ps), rest);
  }

  // -- packets ---------------------------------------------------------------------------------

  /** The answer and the buffer after `encode`. */
  ghost predicate Encodes(p: Packet, r: Result<nat, EncodeError>, before: Bytes, after: Bytes) {
    && r == EncodeResult(p, |before|)
    && (r.Ok? ==> r.value == |Wire(p)| <= |before| && after == Write(before, 0, Wire(p)))
  }

  /** The checks every encoder begins with: its own, the length, and the buffer. */
  method Prepare(p: Packet, capacity: nat) returns (r: Result<nat, EncodeError>)
    ensures match r
            case Ok(length) =>
              && Validate(p).None? && Fits(p) && length == |Body(p)| <= MAX_VBI && |Wire(p)| <= capacity
              && EncodeResult(p, capacity)
                 == (match FieldFault(p) case Some(e) => Err(e) case None => Ok(|Wire(p)|))
            case Err(e) => EncodeResult(p, capacity) == Err(e)
  {
    if Validate(p).Some? {
      return Err(InvalidField(Validate(p).value));
    }
    var length := EncodedLen(p);
    if length > MAX_VBI {
      return Err(EncodeError.PacketTooLarge(length, MAX_VBI));
    }
    WireLen(p);
    if capacity < 1 + VbiLen(length) + length {
      return Err(BufferTooSmall);
    }
    return Ok(length);
  }

  method EncodePublish(p: Packet, buf: array<u8>) returns (r: Result<nat, EncodeError>)
    requires p.Publish?
    modifies buf
    ensures Encodes(p, r, old(buf[..]), buf[..])
  {
    var length :- Prepare(p, buf.Length);
    ghost var initial, wire := buf[..], Wire(p);
    ghost var tail := PropertiesThen(p.properties, p.payload);
    var offset := WriteHeader(PublishFirst(p.dup, p.qos, p.retain), length, buf, Body(p));
    offset :- EmitStr(p.topic, buf, offset, initial, wire, IdThen(p.publishId, tail));
    if p.publishId.Some? {
      offset := EmitBytes(U16Bytes(p.publishId.value), buf, offset, initial, wire, tail);
    }
    offset :- EmitProperties(p.properties, buf, offset, initial, wire, p.payload);
    assert p.payload + [] == p.payload;
    offset := EmitBytes(p.payload, buf, offset, initial, wire, []);
    Finished(buf[..], initial, wire, offset);
    return Ok(offset);
  }

  method EncodeConnect(p: Packet, buf: array<u8>) returns (r: Result<nat, EncodeError>)
    requires p.Connect?
    modifies buf
    ensures Encodes(p, r, old(buf[..]), buf[..])
  {
    var length :- Prepare(p, buf.Length);
    ghost var initial, wire := buf[..], Wire(p);
    var offset := WriteHeader(0x10, length, buf, Body(p));
    var flags := FlagsByte(FlagsFor(p.cleanStart, p.will, p.username.Some?, p.password.Some?));
    ghost var tail := PropertiesThen(p.properties, ConnectFields(p));
    offset := EmitConnectHead(PROTOCOL_LEVEL, flags, p.keepAlive, buf, offset, initial, wire, tail);
    offset :- EmitProperties(p.properties, buf, offset, initial, wire, ConnectFields(p));
    r := EncodeConnectFields(p, buf, offset, initial);
  }

  method EncodeConnectFields(p: Packet, buf: array<u8>, start: nat, ghost initial: Bytes)
    returns (r: Result<nat, EncodeError>)
    requires p.Connect? && Fits(p) && Writing(buf[..], initial, Wire(p), start, ConnectFields(p))
    modifies buf
    ensures match OrElse(StrError(p.clientId), OrElse(WillFault(p.will),
                  OrElse(UsernameFault(p.username), PasswordFault(p.password))))
            case Some(e) => r == Err(e)
            case None => r == Ok(|Wire(p)|) && buf[..] == Write(initial, 0, Wire(p))
  {
    ghost var wire := Wire(p);
    ghost var b3 := FieldThen(p.password, []);
    ghost var b2 := FieldThen(p.username, b3);
    var offset :- EmitStr(p.clientId, buf, start, initial, wire, WillThen(p.will, b2));
    offset :- EmitWill(p.will, buf, offset, initial, wire, b2);
    offset :- EmitUsername(p.username, buf, offset, initial, wire, b3);
    offset :- EmitPassword(p.password, buf, offset, initial, wire);
    return Ok(offset);
  }

  method EmitWill(will: Option<Will>, buf: array<u8>, start: nat,
                  ghost initial: Bytes, ghost wire: Bytes, ghost rest: Bytes)
    returns (r: Result<nat, EncodeError>)
    requires Writing(buf[..], initial, wire, start, WillThen(will, rest))
    requires will.Some? ==> PayloadLen(will.value.properties) <= MAX_VBI
    modifies buf
    ensures match WillFault(will)
            case Some(e) => r == Err(e)
            case None => r.Ok? && Writing(buf[..], initial, wire, r.value, rest)
  {
    if will.None? {
      return Ok(start);
    }
    var w := will.value;
    ghost var payload := FieldBytes(w.payload) + rest;
    var offset :- EmitProperties(w.properties, buf, start, initial, wire, FieldBytes(w.topic) + payload);
    offset :- EmitStr(w.topic, buf, offset, initial, wire, payload);
    r := EmitBin(w.payload, buf, offset, initial, wire, rest);
  }

  method EncodeSubscribe(p: Packet, buf: array<u8>) returns (r: Result<nat, EncodeError>)
    requires p.Subscribe?
    modifies buf
    ensures Encodes(p, r, old(buf[..]), buf[..])
  {
    var length :- Prepare(p, buf.Length);
    ghost var initial, wire := buf[..], Wire(p);
    ghost var list := SubscriptionsBytes(p.subscriptions);
    var offset := WriteHeader(0x82, length, buf, Body(p));
    offset := EmitBytes(U16Bytes(p.packetId), buf, offset, initial, wire, PropertiesThen(p.properties, list));
    offset :- EmitProperties(p.properties, buf, offset, initial, wire, list);
    r := EmitSubscriptions(p.subscriptions, buf, offset, initial, wire);
  }

  method EmitSubscriptions(list: seq<Subscription>, buf: array<u8>, start: nat, ghost initial: Bytes, ghost wire: Bytes)
    returns (r: Result<nat, EncodeError>)
    requires Writing(buf[..], initial, wire, start, SubscriptionsBytes(list))
    modifies buf
    ensures match SubscriptionsFault(list)
            case Some(e) => r == Err(e)
            case None => r == Ok(|wire|) && |wire| <= |initial| && buf[..] == Write(initial, 0, wire)
  {
    var offset := start;
    for i := 0 to |list|
      invariant Writing(buf[..], initial, wire, offset, SubscriptionsBytes(list[i..]))
      invariant SubscriptionsFault(list) == SubscriptionsFault(list[i..])
    {
      assert list[i..][1..] == list[i + 1..];
      ghost var rest := SubscriptionsBytes(list[i + 1..]);
      offset :- EmitStr(list[i].topicFilter, buf, offset, initial, wire, [OptionsByte(list[i])] + rest);
      offset := EmitByte(OptionsByte(list[i]), buf, offset, initial, wire, rest);
    }
    Finished(buf[..], initial, wire, offset);
    return Ok(offset);
  }
}
