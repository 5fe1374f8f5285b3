/**
 * The decoders of MQTT v3.1.1 with their offset cursor, proved against the parsers. The steps that
 * every packet's decoder begins with are written once, in DecodePacket.
 */
module V311Decode {
  import opened Prelude
  import opened Vbi
  import opened Fields
  import opened HeaderFlags
  import opened CommonParts
  import opened Cursor
  import opened V311

  method ReadWill(flags: FlagSet, buf: Bytes, start: nat, end: nat)
    returns (r: Result<(Option<Will>, nat), DecodeError>)
    requires start <= end <= |buf|
    ensures Reads(r, buf, start, end, TakeWill(flags, buf[start..end]))
  {
    if !flags.will {
      return Ok((None, start));
    }
    var topic, offset;
    var read := ReadStr(buf, start, end);
    if read.Err? {
      return Err(read.error);
    }
    topic, offset := read.value.0, read.value.1;
    if HasWildcard(topic) {
      return Err(MalformedPacket);
    }
    if topic == [] {
      return Err(MalformedPacket);
    }
    var payload := ReadBin(buf, offset, end);
    if payload.Err? {
      return Err(payload.error);
    }
    match QoSOf(flags.willQos) {
      case None => return Err(MalformedPacket);
      case Some(qos) => return Ok((Some(Will(topic, payload.value.0, qos, flags.willRetain)), payload.value.1));
    }
  }

  method ReadConnect(buf: Bytes, start: nat, end: nat) returns (r: Result<Packet, DecodeError>)
    requires start <= end <= |buf|
    ensures r == ParseConnect(buf[start..end])
  {
    var head := ReadConnectHead(PROTOCOL_LEVEL, buf, start, end);
    if head.Err? {
      return Err(head.error);
    }
    r := ReadConnectFields(FlagsOf(head.value.0.0), head.value.0.1, buf, head.value.1, end);
  }

  method ReadConnectFields(flags: FlagSet, keepAlive: u16, buf: Bytes, start: nat, end: nat)
    returns (r: Result<Packet, DecodeError>)
    requires start <= end <= |buf|
    ensures r == ParseConnectFields(flags, keepAlive, buf[start..end])
  {
    var clientId := ReadStr(buf, start, end);
    if clientId.Err? {
      return Err(clientId.error);
    }
    if flags.reserved {
      return Err(MalformedPacket);
    }
    var will := ReadWill(flags, buf, clientId.value.1, end);
    if will.Err? {
      return Err(will.error);
    }
    var username := ReadUsername(flags, buf, will.value.1, end);
    if username.Err? {
      return Err(username.error);
    }
    var password := ReadPassword(flags, buf, username.value.1, end);
    if password.Err? {
      return Err(password.error);
    }
    if password.value.0.Some? && username.value.0.None? {
      return Err(MalformedPacket);
    }
    if will.value.0.None? && (flags.willQos != 0 || flags.willRetain) {
      return Err(MalformedPacket);
    }
    if clientId.value.0 == [] && !flags.clean {
      return Err(MalformedPacket);
    }
    if password.value.1 != end {
      return Err(MalformedPacket);
    }
    return Ok(Connect(clientId.value.0, flags.clean, keepAlive, will.value.0, username.value.0, password.value.0));
  }

  method ReadConnAck(buf: Bytes, start: nat, end: nat) returns (r: Result<Packet, DecodeError>)
    requires start <= end <= |buf|
    ensures r == ParseConnAck(buf[start..end])
  {
    var offset := start;
    if offset >= end {
      return Err(MalformedPacket);
    }
    var flags := buf[offset];
    offset := offset + 1;
    if flags / 2 != 0 {
      return Err(MalformedPacket);
    }
    if offset >= end {
      return Err(MalformedPacket);
    }
    var code := buf[offset];
    offset := offset + 1;
    if code > 5 {
      return Err(MalformedPacket);
    }
    if code != 0 && flags == 1 {
      return Err(MalformedPacket);
    }
    if offset != end {
      return Err(MalformedPacket);
    }
    return Ok(ConnAck(flags == 1, code));
  }

  method ReadPublish(flags: PublishFlags, buf: Bytes, start: nat, end: nat) returns (r: Result<Packet, DecodeError>)
    requires start <= end <= |buf|
    ensures r == ParsePublish(flags, buf[start..end])
  {
    if QoSOf(flags.qos).None? {
      return Err(InvalidPacketFlags);
    }
    var qos := QoSOf(flags.qos).value;
    var topic := ReadStr(buf, start, end);
    if topic.Err? {
      return Err(topic.error);
    }
    if topic.value.0 == [] {
      return Err(MalformedPacket);
    }
    if HasWildcard(topic.value.0) {
      return Err(MalformedPacket);
    }
    var offset := topic.value.1;
    var id: Option<u16> := None;
    if qos != AtMostOnce {
      var read := ReadU16(buf, offset, end);
      if read.Err? || read.value.0 == 0 {
        return Err(MalformedPacket);
      }
      id, offset := Some(read.value.0), read.value.1;
    }
    return Ok(Publish(flags.dup, qos, flags.retain, topic.value.0, id, buf[offset..end]));
  }

  method ReadAck(kind: AckKind, buf: Bytes, start: nat, end: nat) returns (r: Result<Packet, DecodeError>)
    requires start <= end <= |buf|
    ensures r == ParseAck(kind, buf[start..end])
  {
    var id := ReadId(buf, start, end);
    if id.Err? {
      return Err(id.error);
    }
    if id.value.1 != end {
      return Err(MalformedPacket);
    }
    return Ok(Ack(kind, id.value.0));
  }

  method ReadSubscription(buf: Bytes, start: nat, end: nat) returns (r: Result<(Subscription, nat), DecodeError>)
    requires start <= end <= |buf|
    ensures Reads(r, buf, start, end, TakeSubscription(buf[start..end]))
  {
    var filter := ReadStr(buf, start, end);
    if filter.Err? {
      return Err(filter.error);
    }
    if !IsValidFilter(filter.value.0) {
      return Err(MalformedPacket);
    }
    var options := ReadByte(buf, filter.value.1, end);
    if options.Err? {
      return Err(MalformedPacket);
    }
    var qos := QoSOf(options.value.0 % 4);
    if qos.None? {
      return Err(MalformedPacket);
    }
    if options.value.0 / 4 != 0 {
      return Err(MalformedPacket);
    }
    return Ok((Subscription(filter.value.0, qos.value), options.value.1));
  }

  method ReadSubscriptions(buf: Bytes, start: nat, end: nat) returns (r: Result<seq<Subscription>, DecodeError>)
    requires start <= end <= |buf|
    ensures r == ParseSubscriptions(buf[start..end])
  {
    var offset, list := start, [];
    PrependedNone([], ParseSubscriptions(buf[start..end]));
    while offset < end
      invariant start <= offset <= end
      invariant ParseSubscriptions(buf[start..end]) == Prepended(list, ParseSubscriptions(buf[offset..end]))
    {
      var read := ReadSubscription(buf, offset, end);
      if read.Err? {
        return Err(read.error);
      }
      PrependedSnoc(list, read.value.0, ParseSubscriptions(buf[read.value.1..end]));
      offset, list := read.value.1, list + [read.value.0];
    }
    assert buf[offset..end] == [];
    PrependedNone(list, Ok([]));
    return Ok(list);
  }

  method ReadSubscribe(buf: Bytes, start: nat, end: nat) returns (r: Result<Packet, DecodeError>)
    requires start <= end <= |buf|
    ensures r == ParseSubscribe(buf[start..end])
  {
    var id := ReadId(buf, start, end);
    if id.Err? {
      return Err(id.error);
    }
    var list := ReadSubscriptions(buf, id.value.1, end);
    if list.Err? {
      return Err(list.error);
    }
    if list.value == [] {
      return Err(MalformedPacket);
    }
    return Ok(Subscribe(id.value.0, list.value));
  }

  method ReadFilters(buf: Bytes, start: nat, end: nat) returns (r: Result<seq<Text>, DecodeError>)
    requires start <= end <= |buf|
    ensures r == ParseFilters(buf[start..end])
  {
    var offset, list := start, [];
    PrependedNone([], ParseFilters(buf[start..end]));
    while offset < end
      invariant start <= offset <= end
      invariant ParseFilters(buf[start..end]) == Prepended(list, ParseFilters(buf[offset..end]))
    {
      var read := ReadStr(buf, offset, end);
      if read.Err? {
        return Err(read.error);
      }
      if !IsValidFilter(read.value.0) {
        return Err(MalformedPacket);
      }
      PrependedSnoc(list, read.value.0, ParseFilters(buf[read.value.1..end]));
      offset, list := read.value.1, list + [read.value.0];
    }
    assert buf[offset..end] == [];
    PrependedNone(list, Ok([]));
    return Ok(list);
  }

  method ReadUnsubscribe(buf: Bytes, start: nat, end: nat) returns (r: Result<Packet, DecodeError>)
    requires start <= end <= |buf|
    ensures r == ParseUnsubscribe(buf[start..end])
  {
    var id := ReadId(buf, start, end);
    if id.Err? {
      return Err(id.error);
    }
    var list := ReadFilters(buf, id.value.1, end);
    if list.Err? {
      return Err(list.error);
    }
    if list.value == [] {
      return Err(MalformedPacket);
    }
    return Ok(Unsubscribe(id.value.0, list.value));
  }

  method ReadSubAck(buf: Bytes, start: nat, end: nat) returns (r: Result<Packet, DecodeError>)
    requires start <= end <= |buf|
    ensures r == ParseSubAck(buf[start..end])
  {
    var id := ReadId(buf, start, end);
    if id.Err? {
      return Err(id.error);
    }
    ghost var rest := buf[id.value.1..end];
    var offset := id.value.1;
    var codes: seq<SubscribeReturnCode> := [];
    while offset < end
      invariant id.value.1 <= offset <= end
      invariant codes == buf[id.value.1..offset]
    {
      if !IsReturnCode(buf[offset]) {
        assert rest[offset - id.value.1] == buf[offset];
        return Err(MalformedPacket);
      }
      codes := codes + [buf[offset]];
      offset := offset + 1;
    }
    assert codes == rest;
    if codes == [] {
      return Err(MalformedPacket);
    }
    return Ok(SubAck(id.value.0, codes));
  }

  method ReadBody(first: u8, buf: Bytes, start: nat, end: nat) returns (r: Result<Packet, DecodeError>)
    requires start <= end <= |buf|
    ensures r == ParseBody(first, buf[start..end])
  {
    if KindOfAck(first).Some? {
      r := ReadAck(KindOfAck(first).value, buf, start, end);
    } else if KindOfBare(first).Some? {
      r := if start == end then Ok(Bare(KindOfBare(first).value)) else Err(MalformedPacket);
    } else {
      match first / 16 {
        case 1 => r := ReadConnect(buf, start, end);
        case 2 => r := ReadConnAck(buf, start, end);
        case 3 => r := ReadPublish(PublishFlagsOf(first), buf, start, end);
        case 8 => r := ReadSubscribe(buf, start, end);
        case 9 => r := ReadSubAck(buf, start, end);
        case _ => r := ReadUnsubscribe(buf, start, end);
      }
    }
  }

  method DecodePacket(buf: Bytes) returns (r: Result<(Packet, nat), DecodeError>)
    ensures r == Decode(buf)
  {
    if buf == [] {
      return Err(InsufficientData);
    }
    var first := buf[0];
    if CheckFirst(first).Some? {
      return Err(CheckFirst(first).value);
    }
    var vbi := DecodeVbi(buf[1..]);
    if vbi.Err? {
      return Err(vbi.error);
    }
    var remaining, headerLen := vbi.value.0, 1 + vbi.value.1;
    if IsBare(first) && remaining != 0 {
      return Err(MalformedPacket);
    }
    if |buf| < headerLen + remaining {
      return Err(InsufficientData);
    }
    var end := headerLen + remaining;
    var p :- ReadBody(first, buf, headerLen, end);
    return Ok((p, end));
  }
}
