/** The encoders and decoders of MQTT v3.1.1 over a buffer and a moving offset (src/v311). */
module V311Codec {
  import opened Prelude
  import opened Vbi
  import opened Fields
  import opened HeaderFlags
  import opened CommonParts
  import opened Cursor
  import opened V311

  // -- encoding -------------------------------------------------------------------------------

  /** The declared length. The identifier of a PUBLISH is counted by its QoS, present or not. */
  ghost function DeclaredLen(p: Packet): nat {
    if p.Publish? then 2 + |p.topic| + (if p.qos == AtMostOnce then 0 else 2) + |p.payload| else |Body(p)|
  }

  /** `encoded_len`: the length of the body of every packet that may be written. */
  method EncodedLen(p: Packet) returns (n: nat)
    ensures n == DeclaredLen(p)
    ensures Validate(p).None? ==> n == |Body(p)|
  {
    match p {
      case Connect(clientId, _, _, will, username, password) =>
        n := 2 + 4 + 1 + 1 + 2;
        n := n + 2 + |clientId|;
        if will.Some? {
          n := n + 2 + |will.value.topic|;
          n := n + 2 + |will.value.payload|;
        }
        if username.Some? {
          n := n + 2 + |username.value|;
        }
        if password.Some? {
          n := n + 2 + |password.value|;
        }
      case ConnAck(_, _) => n := 2;
      case Publish(_, qos, _, topic, _, payload) =>
        n := 2 + |topic|;
        if qos != AtMostOnce {
          n := n + 2;
        }
        n := n + |payload|;
      case Ack(_, _) => n := 2;
      case Subscribe(_, list) =>
        n := 2;
        for i := 0 to |list|
          invariant n == 2 + |SubscriptionsBytes(list[..i])|
        {
          SubscriptionsSnoc(list, i);
          n := n + 2 + |list[i].topicFilter|;
          n := n + 1;
        }
        assert list[..|list|] == list;
      case SubAck(_, codes) => n := 2 + |codes|;
      case Unsubscribe(_, list) =>
        n := 2;
        for i := 0 to |list|
          invariant n == 2 + |FiltersBytes(list[..i])|
        {
          FiltersSnoc(list, i);
          n := n + 2 + |list[i]|;
        }
        assert list[..|list|] == list;
      case Bare(_) => n := 0;
    }
  }

  lemma {:induction false} SubscriptionsSnoc(list: seq<Subscription>, i: nat)
    requires i < |list|
    ensures SubscriptionsBytes(list[..i + 1])
            == SubscriptionsBytes(list[..i]) + (FieldBytes(list[i].topicFilter) + [QoSByte(list[i].qos)])
    decreases i
  {
    if i == 0 {
      assert list[..1] == [list[0]];
    } else {
      SubscriptionsSnoc(list[1..], i - 1);
      assert list[..i + 1][1..] == list[1..][..i] && list[..i][1..] == list[1..][..i - 1];
    }
  }

  lemma {:induction false} FiltersSnoc(list: seq<Text>, i: nat)
    requires i < |list|
    ensures FiltersBytes(list[..i + 1]) == FiltersBytes(list[..i]) + FieldBytes(list[i])
    decreases i
  {
    if i == 0 {
      assert list[..1] == [list[0]];
    } else {
      FiltersSnoc(list[1..], i - 1);
      assert list[..i + 1][1..] == list[1..][..i] && list[..i][1..] == list[1..][..i - 1];
    }
  }

  /** The answer and the buffer after `encode`. */
  ghost predicate Encodes(p: Packet, r: Result<nat, EncodeError>, before: Bytes, after: Bytes) {
    && r == EncodeResult(p, |before|)
    && (r.Ok? ==> |Wire(p)| <= |before| && after == Write(before, 0, Wire(p)))
  }

  /** The checks every encoder begins with: its own, the length, and the buffer. */
  method Prepare(p: Packet, capacity: nat) returns (r: Result<nat, EncodeError>)
    ensures match r
            case Ok(length) => Validate(p).None? && length == |Body(p)| <= MAX_VBI && |Wire(p)| <= capacity
            case Err(e) => EncodeResult(p, capacity) == Err(e)
  {
    if Validate(p).Some? {
      return Err(InvalidField(Validate(p).value));
    }
    var length := EncodedLen(p);
    if length > MAX_VBI {
      return Err(EncodeError.PacketTooLarge(length, MAX_VBI));
    }
    VbiBytesLength(length);
    if capacity < 1 + VbiLen(length) + length {
      return Err(BufferTooSmall);
    }
    return Ok(length);
  }

  method EncodeConnect(p: Packet, buf: array<u8>) returns (r: Result<nat, EncodeError>)
    requires p.Connect?
    modifies buf
    ensures Encodes(p, r, old(buf[..]), buf[..])
  {
    var length :- Prepare(p, buf.Length);
    ghost var initial, wire := buf[..], Wire(p);
    var offset := WriteHeader(0x10, length, buf, Body(p));
    var flags := ConnectFlags(p.cleanSession, p.will, p.username.Some?, p.password.Some?);
    offset := EmitConnectHead(PROTOCOL_LEVEL, flags, p.keepAlive, buf, offset, initial, wire, ConnectFields(p));
    r := EncodeConnectFields(p, buf, offset, initial);
  }

  method EncodeConnectFields(p: Packet, buf: array<u8>, start: nat, ghost initial: Bytes)
    returns (r: Result<nat, EncodeError>)
    requires p.Connect? && Writing(buf[..], initial, Wire(p), start, ConnectFields(p))
    modifies buf
    ensures match FieldFault(p)
            case Some(e) => r == Err(e)
            case None => r == Ok(|Wire(p)|) && buf[..] == Write(initial, 0, Wire(p))
  {
    ghost var wire := Wire(p);
    ghost var b3 := FieldThen(p.password, []);
    ghost var b2 := FieldThen(p.username, b3);
    var offset :- EmitStr(p.clientId, buf, start, initial, wire, WillThen(p.will, b2));
    offset :- EmitWill(p.will, buf, offset, initial, wire, b2);
    offset :- EmitUsername(p.username, buf, offset, initial, wire, b3);
    offset :- EmitPassword(p.password, buf, offset, initial, wire);
    return Ok(offset);
  }

  method EmitWill(will: Option<Will>, buf: array<u8>, start: nat,
                  ghost initial: Bytes, ghost wire: Bytes, ghost rest: Bytes)
    returns (r: Result<nat, EncodeError>)
    requires Writing(buf[..], initial, wire, start, WillThen(will, rest))
    modifies buf
    ensures match WillFault(will)
            case Some(e) => r == Err(e)
            case None => r.Ok? && Writing(buf[..], initial, wire, r.value, rest)
  {
    if will.None? {
      return Ok(start);
    }
    var w := will.value;
    var offset :- EmitStr(w.topic, buf, start, initial, wire, FieldBytes(w.payload) + rest);
    r := EmitBin(w.payload, buf, offset, initial, wire, rest);
  }

  method EncodeConnAck(p: Packet, buf: array<u8>) returns (r: Result<nat, EncodeError>)
    requires p.ConnAck?
    modifies buf
    ensures Encodes(p, r, old(buf[..]), buf[..])
  {
    var length :- Prepare(p, buf.Length);
    ghost var initial, wire := buf[..], Wire(p);
    var offset := WriteHeader(0x20, length, buf, Body(p));
    offset := EmitBytes([Bit(p.sessionPresent, 1), p.connectCode], buf, offset, initial, wire, []);
    Finished(buf[..], initial, wire, offset);
    return Ok(offset);
  }

  method EmitPublishId(qos: QoS, id: Option<u16>, buf: array<u8>, start: nat,
                       ghost initial: Bytes, ghost wire: Bytes, ghost rest: Bytes) returns (offset: nat)
    requires qos == AtMostOnce <==> id.None?
    requires Writing(buf[..], initial, wire, start, IdThen(id, rest))
    modifies buf
    ensures Writing(buf[..], initial, wire, offset, rest)
  {
    offset := start;
    if qos != AtMostOnce {
      offset := EmitBytes(U16Bytes(id.value), buf, offset, initial, wire, rest);
    }
  }

  method EncodePublish(p: Packet, buf: array<u8>) returns (r: Result<nat, EncodeError>)
    requires p.Publish?
    modifies buf
    ensures Encodes(p, r, old(buf[..]), buf[..])
  {
    var length :- Prepare(p, buf.Length);
    ghost var initial, wire := buf[..], Wire(p);
    var offset := WriteHeader(PublishFirst(p.dup, p.qos, p.retain), length, buf, Body(p));
    offset :- EmitStr(p.topic, buf, offset, initial, wire, IdThen(p.publishId, p.payload));
    offset := EmitPublishId(p.qos, p.publishId, buf, offset, initial, wire, p.payload);
    assert p.payload + [] == p.payload;
    offset := EmitBytes(p.payload, buf, offset, initial, wire, []);
    Finished(buf[..], initial, wire, offset);
    return Ok(offset);
  }

  /** `encode_simple_ack` and `encode_empty`. */
  method EncodeSmall(p: Packet, buf: array<u8>) returns (r: Result<nat, EncodeError>)
    requires p.Ack? || p.Bare?
    modifies buf
    ensures Encodes(p, r, old(buf[..]), buf[..])
  {
    var length :- Prepare(p, buf.Length);
    ghost var initial, wire := buf[..], Wire(p);
    var offset := WriteHeader(FirstByte(p), length, buf, Body(p));
    if p.Ack? {
      assert U16Bytes(p.packetId) + [] == U16Bytes(p.packetId);
      offset := EmitBytes(U16Bytes(p.packetId), buf, offset, initial, wire, []);
    }
    Finished(buf[..], initial, wire, offset);
    return Ok(offset);
  }

  method EncodeSubscribe(p: Packet, buf: array<u8>) returns (r: Result<nat, EncodeError>)
    requires p.Subscribe?
    modifies buf
    ensures Encodes(p, r, old(buf[..]), buf[..])
  {
    var length :- Prepare(p, buf.Length);
    ghost var initial, wire := buf[..], Wire(p);
    var offset := WriteHeader(0x82, length, buf, Body(p));
    offset := EmitBytes(U16Bytes(p.packetId), buf, offset, initial, wire, SubscriptionsBytes(p.subscriptions));
    r := EmitSubscriptions(p.subscriptions, buf, offset, initial, wire);
  }

  method EmitSubscriptions(list: seq<Subscription>, buf: array<u8>, start: nat, ghost initial: Bytes, ghost wire: Bytes)
    returns (r: Result<nat, EncodeError>)
    requires Writing(buf[..], initial, wire, start, SubscriptionsBytes(list))
    modifies buf
    ensures match SubscriptionsFault(list)
            case Some(e) => r == Err(e)
            case None => r == Ok(|wire|) && |wire| <= |initial| && buf[..] == Write(initial, 0, wire)
  {
    var offset := start;
    for i := 0 to |list|
      invariant Writing(buf[..], initial, wire, offset, SubscriptionsBytes(list[i..]))
      invariant SubscriptionsFault(list) == SubscriptionsFault(list[i..])
    {
      assert list[i..][1..] == list[i + 1..];
      ghost var rest := SubscriptionsBytes(list[i + 1..]);
      offset :- EmitStr(list[i].topicFilter, buf, offset, initial, wire, [QoSByte(list[i].qos)] + rest);
      offset := EmitByte(QoSByte(list[i].qos), buf, offset, initial, wire, rest);
    }
    Finished(buf[..], initial, wire, offset);
    return Ok(offset);
  }

  method EncodeUnsubscribe(p: Packet, buf: array<u8>) returns (r: Result<nat, EncodeError>)
    requires p.Unsubscribe?
    modifies buf
    ensures Encodes(p, r, old(buf[..]), buf[..])
  {
    var length :- Prepare(p, buf.Length);
    ghost var initial, wire := buf[..], Wire(p);
    var offset := WriteHeader(0xA2, length, buf, Body(p));
    offset := EmitBytes(U16Bytes(p.packetId), buf, offset, initial, wire, FiltersBytes(p.topicFilters));
    r := EmitFilters(p.topicFilters, buf, offset, initial, wire);
  }

  method EmitFilters(list: seq<Text>, buf: array<u8>, start: nat, ghost initial: Bytes, ghost wire: Bytes)
    returns (r: Result<nat, EncodeError>)
    requires Writing(buf[..], initial, wire, start, FiltersBytes(list))
    modifies buf
    ensures match FiltersFault(list)
            case Some(e) => r == Err(e)
            case None => r == Ok(|wire|) && |wire| <= |initial| && buf[..] == Write(initial, 0, wire)
  {
    var offset := start;
    for i := 0 to |list|
      invariant Writing(buf[..], initial, wire, offset, FiltersBytes(list[i..]))
      invariant FiltersFault(list) == FiltersFault(list[i..])
    {
      assert list[i..][1..] == list[i + 1..];
      offset :- EmitStr(list[i], buf, offset, initial, wire, FiltersBytes(list[i + 1..]));
    }
    Finished(buf[..], initial, wire, offset);
    return Ok(offset);
  }

  method EncodeSubAck(p: Packet, buf: array<u8>) returns (r: Result<nat, EncodeError>)
    requires p.SubAck?
    modifies buf
    ensures Encodes(p, r, old(buf[..]), buf[..])
  {
    var length :- Prepare(p, buf.Length);
    ghost var initial, wire := buf[..], Wire(p);
    var offset := WriteHeader(0x90, length, buf, Body(p));
    offset := EmitBytes(U16Bytes(p.packetId), buf, offset, initial, wire, p.returnCodes);
    offset := EmitCodes(p.returnCodes, buf, offset, initial, wire);
    return Ok(offset);
  }

  method EmitCodes(codes: seq<SubscribeReturnCode>, buf: array<u8>, start: nat, ghost initial: Bytes, ghost wire: Bytes)
    returns (offset: nat)
    requires Writing(buf[..], initial, wire, start, codes)
    modifies buf
    ensures offset == |wire| <= |initial| && buf[..] == Write(initial, 0, wire)
  {
    offset := start;
    for i := 0 to |codes|
      invariant Writing(buf[..], initial, wire, offset, codes[i..])
    {
      assert codes[i..] == [codes[i]] + codes[i + 1..];
      offset := EmitByte(codes[i], buf, offset, initial, wire, codes[i + 1..]);
    }
    Finished(buf[..], initial, wire, offset);
  }

  /**
   * `Packet::encode`. When it succeeds the buffer starts with the bytes of the packet and is
   * otherwise unchanged; a buffer of exactly that length is enough.
   */
  method Encode(p: Packet, buf: array<u8>) returns (r: Result<nat, EncodeError>)
    modifies buf
    ensures Encodes(p, r, old(buf[..]), buf[..])
  {
    match p {
      case Connect(_, _, _, _, _, _) => r := EncodeConnect(p, buf);
      case ConnAck(_, _) => r := EncodeConnAck(p, buf);
      case Publish(_, _, _, _, _, _) => r := EncodePublish(p, buf);
      case Ack(_, _) => r := EncodeSmall(p, buf);
      case Subscribe(_, _) => r := EncodeSubscribe(p, buf);
      case SubAck(_, _) => r := EncodeSubAck(p, buf);
      case Unsubscribe(_, _) => r := EncodeUnsubscribe(p, buf);
      case Bare(_) => r := EncodeSmall(p, buf);
    }
  }

  /** `encode_to_vec`: exactly the bytes of the packet, or the refusal. The length is looked at first. */
  method EncodeToVec(p: Packet) returns (r: Result<Bytes, EncodeError>)
    ensures Encodable(p) ==> r == Ok(Wire(p))
    ensures !Encodable(p) && DeclaredLen(p) <= MAX_VBI ==> r.Err? && EncodeResult(p, |Wire(p)|) == Err(r.error)
    ensures DeclaredLen(p) > MAX_VBI ==> r == Err(EncodeError.PacketTooLarge(DeclaredLen(p), MAX_VBI))
  {
    var length := EncodedLen(p);
    if length > MAX_VBI {
      return Err(EncodeError.PacketTooLarge(length, MAX_VBI));
    }
    var buf := new u8[1 + VbiLen(length) + length](_ => 0);
    ghost var initial := buf[..];
    var n := Encode(p, buf);
    if n.Err? {
      RefusedAnyway(p, |initial|, n.error);
      return Err(n.error);
    }
    ExactRoom(p, initial);
    return Ok(buf[..]);
  }

  /** The buffer has the declared length, so the packet fills it. */
  lemma ExactRoom(p: Packet, initial: Bytes)
    requires Encodable(p) && |initial| == 1 + VbiLen(|Body(p)|) + |Body(p)|
    ensures |Wire(p)| == |initial| && Write(initial, 0, Wire(p)) == Wire(p)
  {
    VbiBytesLength(|Body(p)|);
    WholeBuffer(initial, Wire(p));
  }

  lemma WholeBuffer(initial: Bytes, data: Bytes)
    requires |data| == |initial|
    ensures Write(initial, 0, data) == data
  {
  }

  /** A buffer of the declared length is never the reason for a refusal. */
  lemma RefusedAnyway(p: Packet, capacity: nat, e: EncodeError)
    requires DeclaredLen(p) <= MAX_VBI && capacity == 1 + VbiLen(DeclaredLen(p)) + DeclaredLen(p)
    requires EncodeResult(p, capacity) == Err(e)
    ensures !Encodable(p) && EncodeResult(p, |Wire(p)|) == Err(e)
  {
    if Validate(p).None? {
      VbiBytesLength(|Body(p)|);
    }
  }
}
