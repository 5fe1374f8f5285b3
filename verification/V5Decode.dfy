/** The decoders of MQTT v5.0 with their offset cursor, proved against the parsers (src/v5). */
module V5Decode {
  import opened Prelude
  import opened Vbi
  import opened Fields
  import opened HeaderFlags
  import opened CommonParts
  import opened Cursor
  import opened V5Property
  import opened V5Packets

  // -- properties -----------------------------------------------------------------------------

  method ReadVbi(buf: Bytes, start: nat, end: nat) returns (r: Result<(u32, nat), DecodeError>)
    requires start <= end <= |buf|
    ensures Reads(r, buf, start, end, TakeVbi(buf[start..end]))
  {
    var d := DecodeVbi(buf[start..end]);
    if d.Err? {
      return Err(MalformedIfInsufficient(d.error));
    }
    VbiCanonical(buf[start..end]);
    Skip(buf, start, d.value.1, end);
    return Ok((d.value.0, start + d.value.1));
  }

  method ReadU32(buf: Bytes, start: nat, end: nat) returns (r: Result<(u32, nat), DecodeError>)
    requires start <= end <= |buf|
    ensures Reads(r, buf, start, end, TakeU32(buf[start..end]))
  {
    if start + 4 > end {
      return Err(MalformedPacket);
    }
    Skip(buf, start, 4, end);
    return Ok((U32Of(buf[start], buf[start + 1], buf[start + 2], buf[start + 3]), start + 4));
  }

  method ReadPair(buf: Bytes, start: nat, end: nat) returns (r: Result<(Value, nat), DecodeError>)
    requires start <= end <= |buf|
    ensures Reads(r, buf, start, end, TakeValue(Utf8Pair, buf[start..end]))
  {
    var key := ReadStr(buf, start, end);
    if key.Err? {
      return Err(key.error);
    }
    var text := ReadStr(buf, key.value.1, end);
    if text.Err? {
      return Err(text.error);
    }
    return Ok((Pair(key.value.0, text.value.0), text.value.1));
  }

  method ReadValue(shape: Shape, buf: Bytes, start: nat, end: nat) returns (r: Result<(Value, nat), DecodeError>)
    requires start <= end <= |buf|
    ensures Reads(r, buf, start, end, TakeValue(shape, buf[start..end]))
    ensures r.Ok? ==> HasShape(r.value.0, shape)
  {
    match shape {
      case OneByte =>
        var d := ReadByte(buf, start, end);
        return if d.Ok? then Ok((One(d.value.0), d.value.1)) else Err(d.error);
      case TwoBytes =>
        var d := ReadU16(buf, start, end);
        return if d.Ok? then Ok((Two(d.value.0), d.value.1)) else Err(d.error);
      case FourBytes =>
        var d := ReadU32(buf, start, end);
        return if d.Ok? then Ok((Four(d.value.0), d.value.1)) else Err(d.error);
      case VarInt =>
        var d := ReadVbi(buf, start, end);
        return if d.Ok? then Ok((Var(d.value.0), d.value.1)) else Err(d.error);
      case Utf8 =>
        var d := ReadStr(buf, start, end);
        return if d.Ok? then Ok((Str(d.value.0), d.value.1)) else Err(d.error);
      case Binary =>
        var d := ReadBin(buf, start, end);
        return if d.Ok? then Ok((Bin(d.value.0), d.value.1)) else Err(d.error);
      case Utf8Pair => r := ReadPair(buf, start, end);
    }
  }

  method ReadProperty(buf: Bytes, start: nat, end: nat) returns (r: Result<(Property, nat), DecodeError>)
    requires start <= end <= |buf|
    ensures Reads(r, buf, start, end, TakeProperty(buf[start..end]))
  {
    var id := DecodeVbi(buf[start..end]);
    if id.Err? {
      return Err(MalformedIfInsufficient(id.error));
    }
    if id.value.0 > LAST_ID {
      return Err(MalformedPacket);
    }
    var shape := ShapeOf(id.value.0);
    if shape.None? {
      return Err(MalformedPacket);
    }
    Skip(buf, start, id.value.1, end);
    var v := ReadValue(shape.value, buf, start + id.value.1, end);
    if v.Err? {
      return Err(v.error);
    }
    var p := Make(id.value.0, v.value.0);
    if ValueCheck(p).Some? {
      return Err(MalformedPacket);
    }
    return Ok((p, v.value.1));
  }

  /** The loop over the property list. */
  method ReadPayload(buf: Bytes, start: nat, end: nat) returns (r: Result<Properties, DecodeError>)
    requires start <= end <= |buf|
    ensures r == ParsePayload(buf[start..end])
  {
    var offset, list := start, [];
    PrependedNone([], ParsePayload(buf[start..end]));
    while offset < end
      invariant start <= offset <= end
      invariant ParsePayload(buf[start..end]) == Prepended(list, ParsePayload(buf[offset..end]))
    {
      var read := ReadProperty(buf, offset, end);
      if read.Err? {
        return Err(read.error);
      }
      PrependedSnoc(list, read.value.0, ParsePayload(buf[read.value.1..end]));
      offset, list := read.value.1, list + [read.value.0];
    }
    assert buf[offset..end] == [];
    PrependedNone(list, Ok([]));
    return Ok(list);
  }

  /** The loop over the identifiers, with the set of those seen. */
  method CheckDuplicates(ps: Properties, repeatSubscriptionId: bool) returns (ok: bool)
    ensures ok == NoDuplicates(ps, repeatSubscriptionId, {})
  {
    var seen: set<u8> := {};
    for i := 0 to |ps|
      invariant NoDuplicates(ps, repeatSubscriptionId, {}) == NoDuplicates(ps[i..], repeatSubscriptionId, seen)
    {
      assert ps[i..][1..] == ps[i + 1..];
      var id := Identifier(ps[i]);
      if id != USER_PROPERTY && !(repeatSubscriptionId && id == SUBSCRIPTION_ID) {
        if id in seen {
          return false;
        }
        seen := seen + {id};
      }
    }
    return true;
  }

  method ReadProperties(buf: Bytes, start: nat, end: nat, repeatSubscriptionId: bool)
    returns (r: Result<(Properties, nat), DecodeError>)
    requires start <= end <= |buf|
    ensures Reads(r, buf, start, end, TakeProperties(buf[start..end], repeatSubscriptionId))
  {
    var length := DecodeVbi(buf[start..end]);
    if length.Err? {
      return Err(MalformedIfInsufficient(length.error));
    }
    var offset := start + length.value.1;
    var last := offset + length.value.0;
    if end < last {
      return Err(MalformedPacket);
    }
    BlockIs(buf, start, offset, last, end);
    var ps := ReadPayload(buf, offset, last);
    if ps.Err? {
      return Err(ps.error);
    }
    var distinct := CheckDuplicates(ps.value, repeatSubscriptionId);
    if !distinct {
      return Err(MalformedPacket);
    }
    return Ok((ps.value, last));
  }

  lemma BlockIs(buf: Bytes, start: nat, offset: nat, last: nat, end: nat)
    requires start <= offset <= last <= end <= |buf|
    requires VbiDecode(buf[start..end]) == Ok((last - offset, offset - start))
    ensures TakeBlock(buf[start..end]) == Ok((buf[offset..last], buf[last..end]))
  {
    Inner(buf, start, offset, last, end);
  }

  lemma Inner(buf: Bytes, start: nat, offset: nat, last: nat, end: nat)
    requires start <= offset <= last <= end <= |buf|
    ensures buf[start..end][offset - start..last - start] == buf[offset..last]
    ensures buf[start..end][last - start..] == buf[last..end]
  {
    var b, n, m := buf[start..end], offset - start, last - start;
    assert forall i | 0 <= i < |b| :: b[i] == buf[start + i];
    assert b[n..m] == buf[offset..last] && b[m..] == buf[last..end];
  }

  // -- packets ---------------------------------------------------------------------------------

  method ReadPublishId(qos: QoS, buf: Bytes, start: nat, end: nat) returns (r: Result<(Option<u16>, nat), DecodeError>)
    requires start <= end <= |buf|
    ensures Reads(r, buf, start, end, TakePublishId(qos, buf[start..end]))
  {
    if qos == AtMostOnce {
      return Ok((None, start));
    }
    var id := ReadId(buf, start, end);
    return if id.Ok? then Ok((Some(id.value.0), id.value.1)) else Err(id.error);
  }

  method ReadPublish(flags: PublishFlags, buf: Bytes, start: nat, end: nat) returns (r: Result<Packet, DecodeError>)
    requires start <= end <= |buf|
    ensures r == ParsePublish(flags, buf[start..end])
  {
    if QoSOf(flags.qos).None? {
      return Err(InvalidPacketFlags);
    }
    var qos := QoSOf(flags.qos).value;
    var topic := ReadStr(buf, start, end);
    if topic.Err? {
      return Err(topic.error);
    }
    var id := ReadPublishId(qos, buf, topic.value.1, end);
    if id.Err? {
      return Err(id.error);
    }
    var ps := ReadProperties(buf, id.value.1, end, true);
    if ps.Err? {
      return Err(ps.error);
    }
    if topic.value.0 == [] && !HasIdentifier(ps.value.0, 0x23) {
      return Err(MalformedPacket);
    }
    if HasWildcard(topic.value.0) {
      return Err(MalformedPacket);
    }
    if !Within(ps.value.0, PUBLISH_IDS) {
      return Err(MalformedPacket);
    }
    return Ok(Publish(flags.dup, qos, flags.retain, topic.value.0, id.value.0, ps.value.0, buf[ps.value.1..end]));
  }

  method ReadWill(flags: FlagSet, buf: Bytes, start: nat, end: nat)
    returns (r: Result<(Option<Will>, nat), DecodeError>)
    requires start <= end <= |buf|
    ensures Reads(r, buf, start, end, TakeWill(flags, buf[start..end]))
  {
    if !flags.will {
      return Ok((None, start));
    }
    var ps := ReadProperties(buf, start, end, false);
    if ps.Err? {
      return Err(ps.error);
    }
    if !Within(ps.value.0, WILL_IDS) {
      return Err(MalformedPacket);
    }
    var topic := ReadStr(buf, ps.value.1, end);
    if topic.Err? {
      return Err(topic.error);
    }
    if HasWildcard(topic.value.0) {
      return Err(MalformedPacket);
    }
    if topic.value.0 == [] {
      return Err(MalformedPacket);
    }
    var payload := ReadBin(buf, topic.value.1, end);
    if payload.Err? {
      return Err(payload.error);
    }
    match QoSOf(flags.willQos) {
      case None => return Err(MalformedPacket);
      case Some(qos) =>
        return Ok((Some(Will(topic.value.0, payload.value.0, qos, flags.willRetain, ps.value.0)), payload.value.1));
    }
  }

  method ReadConnectFields(flags: FlagSet, keepAlive: u16, ps: Properties, buf: Bytes, start: nat, end: nat)
    returns (r: Result<Packet, DecodeError>)
    requires start <= end <= |buf|
    ensures r == ParseConnectFields(flags, keepAlive, ps, buf[start..end])
  {
    var clientId := ReadStr(buf, start, end);
    if clientId.Err? {
      return Err(clientId.error);
    }
    var will := ReadWill(flags, buf, clientId.value.1, end);
    if will.Err? {
      return Err(will.error);
    }
    var username := ReadUsername(flags, buf, will.value.1, end);
    if username.Err? {
      return Err(username.error);
    }
    var password := ReadPassword(flags, buf, username.value.1, end);
    if password.Err? {
      return Err(password.error);
    }
    if flags.reserved {
      return Err(MalformedPacket);
    }
    if will.value.0.None? && (flags.willQos != 0 || flags.willRetain) {
      return Err(MalformedPacket);
    }
    if password.value.1 != end {
      return Err(MalformedPacket);
    }
    return Ok(Connect(clientId.value.0, flags.clean, keepAlive, ps, will.value.0, username.value.0, password.value.0));
  }

  method ReadConnect(buf: Bytes, start: nat, end: nat) returns (r: Result<Packet, DecodeError>)
    requires start <= end <= |buf|
    ensures r == ParseConnect(buf[start..end])
  {
    var head := ReadConnectHead(PROTOCOL_LEVEL, buf, start, end);
    if head.Err? {
      return Err(head.error);
    }
    var ps := ReadProperties(buf, head.value.1, end, false);
    if ps.Err? {
      return Err(ps.error);
    }
    if !ValidForConnect(ps.value.0) {
      return Err(MalformedPacket);
    }
    r := ReadConnectFields(FlagsOf(head.value.0.0), head.value.0.1, ps.value.0, buf, ps.value.1, end);
  }

  method ReadSubscription(buf: Bytes, start: nat, end: nat) returns (r: Result<(Subscription, nat), DecodeError>)
    requires start <= end <= |buf|
    ensures Reads(r, buf, start, end, TakeSubscription(buf[start..end]))
  {
    var filter := ReadStr(buf, start, end);
    if filter.Err? {
      return Err(filter.error);
    }
    if !IsValidV5Filter(filter.value.0) {
      return Err(MalformedPacket);
    }
    var options := ReadByte(buf, filter.value.1, end);
    if options.Err? {
      return Err(MalformedPacket);
    }
    var s := OptionsOf(filter.value.0, options.value.0);
    if s.None? {
      return Err(MalformedPacket);
    }
    if s.value.noLocal && IsShared(filter.value.0) {
      return Err(MalformedPacket);
    }
    return Ok((s.value, options.value.1));
  }

  method ReadSubscriptions(buf: Bytes, start: nat, end: nat) returns (r: Result<seq<Subscription>, DecodeError>)
    requires start <= end <= |buf|
    ensures r == ParseSubscriptions(buf[start..end])
  {
    var offset, list := start, [];
    PrependedNone([], ParseSubscriptions(buf[start..end]));
    while offset < end
      invariant start <= offset <= end
      invariant ParseSubscriptions(buf[start..end]) == Prepended(list, ParseSubscriptions(buf[offset..end]))
    {
      var read := ReadSubscription(buf, offset, end);
      if read.Err? {
        return Err(read.error);
      }
      PrependedSnoc(list, read.value.0, ParseSubscriptions(buf[read.value.1..end]));
      offset, list := read.value.1, list + [read.value.0];
    }
    assert buf[offset..end] == [];
    PrependedNone(list, Ok([]));
    return Ok(list);
  }

  method ReadSubscribe(buf: Bytes, start: nat, end: nat) returns (r: Result<Packet, DecodeError>)
    requires start <= end <= |buf|
    ensures r == ParseSubscribe(buf[start..end])
  {
    var id := ReadId(buf, start, end);
    if id.Err? {
      return Err(id.error);
    }
    var ps := ReadProperties(buf, id.value.1, end, false);
    if ps.Err? {
      return Err(ps.error);
    }
    if !Within(ps.value.0, SUBSCRIBE_IDS) {
      return Err(MalformedPacket);
    }
    var list := ReadSubscriptions(buf, ps.value.1, end);
    if list.Err? {
      return Err(list.error);
    }
    if list.value == [] {
      return Err(MalformedPacket);
    }
    return Ok(Subscribe(id.value.0, ps.value.0, list.value));
  }

  /** Where the body starts and ends, or why there is none. */
  ghost predicate Opens(r: Result<(nat, nat), DecodeError>, buf: Bytes, check: u8 -> Option<DecodeError>,
                        parse: (u8, Bytes) -> Result<Packet, DecodeError>)
  {
    match r
    case Err(e) => Unframed(buf, check, NeverBare, parse) == Err(e)
    case Ok((start, end)) =>
      && buf != [] && start <= end <= |buf|
      && Unframed(buf, check, NeverBare, parse)
         == (match parse(buf[0], buf[start..end]) case Ok(p) => Ok((p, end)) case Err(e) => Err(e))
  }

  method OpenFrame(buf: Bytes, check: u8 -> Option<DecodeError>,
                   ghost parse: (u8, Bytes) -> Result<Packet, DecodeError>)
    returns (r: Result<(nat, nat), DecodeError>)
    ensures Opens(r, buf, check, parse)
  {
    if buf == [] {
      return Err(InsufficientData);
    }
    if check(buf[0]).Some? {
      return Err(check(buf[0]).value);
    }
    var vbi := DecodeVbi(buf[1..]);
    if vbi.Err? {
      return Err(vbi.error);
    }
    var start := 1 + vbi.value.1;
    if |buf| < start + vbi.value.0 {
      return Err(InsufficientData);
    }
    return Ok((start, start + vbi.value.0));
  }

  method PublishDecoder(buf: Bytes) returns (r: Result<(Packet, nat), DecodeError>)
    ensures r == DecodePublish(buf)
  {
    var body :- OpenFrame(buf, CheckPublish, PublishBody);
    var p :- ReadPublish(PublishFlagsOf(buf[0]), buf, body.0, body.1);
    return Ok((p, body.1));
  }

  method ConnectDecoder(buf: Bytes) returns (r: Result<(Packet, nat), DecodeError>)
    ensures r == DecodeConnect(buf)
  {
    var body :- OpenFrame(buf, CheckConnect, ConnectBody);
    var p :- ReadConnect(buf, body.0, body.1);
    return Ok((p, body.1));
  }

  method SubscribeDecoder(buf: Bytes) returns (r: Result<(Packet, nat), DecodeError>)
    ensures r == DecodeSubscribe(buf)
  {
    var body :- OpenFrame(buf, CheckSubscribe, SubscribeBody);
    var p :- ReadSubscribe(buf, body.0, body.1);
    return Ok((p, body.1));
  }
}
