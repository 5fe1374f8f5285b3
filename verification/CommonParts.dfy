/** The parts of packets that both versions share, each with its writer, its reader and their inverse laws. */
module CommonParts {
  import opened Prelude
  import opened Vbi
  import opened Fields
  import opened Cursor
  import opened HeaderFlags

  const PROTOCOL_NAME: Bytes := [0x4D, 0x51, 0x54, 0x54]

  function OrElse<T>(first: Option<T>, second: Option<T>): Option<T> {
    if first.Some? then first else second
  }

  // -- each of these writes a part and then what follows it ------------------------------------

  function FieldThen(field: Option<Bytes>, rest: Bytes): Bytes {
    match field case None => rest case Some(s) => FieldBytes(s) + rest
  }

  function IdThen(id: Option<u16>, rest: Bytes): Bytes {
    match id case None => rest case Some(x) => U16Bytes(x) + rest
  }

  /** Protocol name and level, flags and Keep Alive. */
  function ConnectHeadThen(level: u8, flags: u8, keepAlive: u16, rest: Bytes): Bytes {
    FieldBytes(PROTOCOL_NAME) + ([level, flags] + (U16Bytes(keepAlive) + rest))
  }

  function UsernameFault(username: Option<Text>): Option<EncodeError> {
    match username case None => None case Some(s) => StrError(s)
  }

  function PasswordFault(password: Option<Bytes>): Option<EncodeError> {
    match password case None => None case Some(s) => BinError(s)
  }

  // -- reading ---------------------------------------------------------------------------------

  function TakeUsername(flags: FlagSet, b: Bytes): Parsed<Option<Text>> {
    if !flags.username then Ok((None, b))
    else
      var (s, b1) :- TakeStr(b);
      Ok((Some(s), b1))
  }

  function TakePassword(flags: FlagSet, b: Bytes): Parsed<Option<Bytes>> {
    if !flags.password then Ok((None, b))
    else
      var (s, b1) :- TakeBin(b);
      Ok((Some(s), b1))
  }

  /** Protocol name and level, flags and Keep Alive. */
  function TakeConnectHead(level: u8, b: Bytes): Parsed<(u8, u16)> {
    var (name, b1) :- TakeStr(b);
    if name != PROTOCOL_NAME then Err(MalformedPacket)
    else
      var (sent, b2) :- TakeByte(b1);
      if sent != level then Err(MalformedPacket)
      else
        var (flags, b3) :- TakeByte(b2);
        var (keepAlive, b4) :- TakeU16(b3);
        Ok(((flags, keepAlive), b4))
  }

  function TakeId(b: Bytes): Parsed<u16> {
    var (id, rest) :- TakeU16(b);
    if id == 0 then Err(MalformedPacket) else Ok((id, rest))
  }

  // -- round trips -----------------------------------------------------------------------------

  lemma UsernameReadsBack(flags: FlagSet, username: Option<Text>, rest: Bytes)
    requires flags.username == username.Some? && (username.Some? ==> IsStrField(username.value))
    ensures TakeUsername(flags, FieldThen(username, rest)) == Ok((username, rest))
  {
    if username.Some? {
      TakeStrRoundTrip(username.value, rest);
    }
  }

  lemma UsernameExact(flags: FlagSet, b: Bytes)
    requires TakeUsername(flags, b).Ok?
    ensures var (username, rest) := TakeUsername(flags, b).value;
            && flags.username == username.Some? && (username.Some? ==> IsStrField(username.value))
            && b == FieldThen(username, rest)
  {
    if flags.username {
      TakeStrExact(b);
    }
  }

  lemma PasswordReadsBack(flags: FlagSet, password: Option<Bytes>, rest: Bytes)
    requires flags.password == password.Some? && (password.Some? ==> IsField(password.value))
    ensures TakePassword(flags, FieldThen(password, rest)) == Ok((password, rest))
  {
    if password.Some? {
      TakeBinRoundTrip(password.value, rest);
    }
  }

  lemma PasswordExact(flags: FlagSet, b: Bytes)
    requires TakePassword(flags, b).Ok?
    ensures var (password, rest) := TakePassword(flags, b).value;
            && flags.password == password.Some? && (password.Some? ==> IsField(password.value))
            && b == FieldThen(password, rest)
  {
    if flags.password {
      TakeBinExact(b);
    }
  }

  lemma NameIsText()
    ensures ValidUtf8(PROTOCOL_NAME) && IsStrField(PROTOCOL_NAME)
  {
    var n := PROTOCOL_NAME;
    assert n[1..] == [0x51, 0x54, 0x54] && n[1..][1..] == [0x54, 0x54] && n[1..][1..][1..] == [0x54];
    assert n[1..][1..][1..][1..] == [];
    assert ValidUtf8(n[1..][1..][1..]);
    assert ValidUtf8(n[1..][1..]);
    assert ValidUtf8(n[1..]);
  }

  lemma TwoBytes(x: u8, y: u8, rest: Bytes)
    ensures TakeByte([x, y] + rest) == Ok((x, [y] + rest)) && TakeByte([y] + rest) == Ok((y, rest))
  {
    assert ([x, y] + rest)[1..] == [y] + rest && ([y] + rest)[1..] == rest;
  }

  lemma HeadReadsBack(level: u8, flags: u8, keepAlive: u16, rest: Bytes)
    ensures TakeConnectHead(level, ConnectHeadThen(level, flags, keepAlive, rest)) == Ok(((flags, keepAlive), rest))
  {
    NameIsText();
    var tail := U16Bytes(keepAlive) + rest;
    TakeStrRoundTrip(PROTOCOL_NAME, [level, flags] + tail);
    TwoBytes(level, flags, tail);
    TakeU16RoundTrip(keepAlive, rest);
  }

  lemma HeadExact(level: u8, b: Bytes)
    requires TakeConnectHead(level, b).Ok?
    ensures var ((flags, keepAlive), rest) := TakeConnectHead(level, b).value;
            b == ConnectHeadThen(level, flags, keepAlive, rest)
  {
    TakeStrExact(b);
    var (name, b1) := TakeStr(b).value;
    var b2 := TakeByte(b1).value.1;
    var (flags, b3) := TakeByte(b2).value;
    TakeU16Exact(b3);
    assert b1 == [level, flags] + b3;
  }

  lemma TakeIdReadsBack(id: u16, rest: Bytes)
    requires id != 0
    ensures TakeId(U16Bytes(id) + rest) == Ok((id, rest))
  {
    TakeU16RoundTrip(id, rest);
  }

  lemma TakeIdExact(b: Bytes)
    requires TakeId(b).Ok?
    ensures var (id, rest) := TakeId(b).value; id != 0 && b == U16Bytes(id) + rest
  {
    TakeU16Exact(b);
  }

  // -- through a buffer ------------------------------------------------------------------------

  method EmitConnectHead(level: u8, flags: u8, keepAlive: u16, buf: array<u8>, start: nat,
                         ghost initial: Bytes, ghost wire: Bytes, ghost rest: Bytes)
    returns (offset: nat)
    requires Writing(buf[..], initial, wire, start, ConnectHeadThen(level, flags, keepAlive, rest))
    modifies buf
    ensures Writing(buf[..], initial, wire, offset, rest)
  {
    NameIsText();
    ghost var tail := U16Bytes(keepAlive) + rest;
    var named := EmitStr(PROTOCOL_NAME, buf, start, initial, wire, [level, flags] + tail);
    offset := named.value;
    offset := EmitBytes([level, flags], buf, offset, initial, wire, tail);
    offset := EmitBytes(U16Bytes(keepAlive), buf, offset, initial, wire, rest);
  }

  /** The last field of a CONNECT. */
  method EmitUsername(username: Option<Text>, buf: array<u8>, start: nat,
                      ghost initial: Bytes, ghost wire: Bytes, ghost rest: Bytes)
    returns (r: Result<nat, EncodeError>)
    requires Writing(buf[..], initial, wire, start, FieldThen(username, rest))
    modifies buf
    ensures match UsernameFault(username)
            case Some(e) => r == Err(e)
            case None => r.Ok? && Writing(buf[..], initial, wire, r.value, rest)
  {
    if username.None? {
      return Ok(start);
    }
    r := EmitStr(username.value, buf, start, initial, wire, rest);
  }

  method EmitPassword(password: Option<Bytes>, buf: array<u8>, start: nat, ghost initial: Bytes, ghost wire: Bytes)
    returns (r: Result<nat, EncodeError>)
    requires Writing(buf[..], initial, wire, start, FieldThen(password, []))
    modifies buf
    ensures match PasswordFault(password)
            case Some(e) => r == Err(e)
            case None => r == Ok(|wire|) && |wire| <= |initial| && buf[..] == Write(initial, 0, wire)
  {
    var offset := start;
    if password.Some? {
      offset :- EmitBin(password.value, buf, offset, initial, wire, []);
    }
    Finished(buf[..], initial, wire, offset);
    return Ok(offset);
  }

  method ReadUsername(flags: FlagSet, buf: Bytes, start: nat, end: nat)
    returns (r: Result<(Option<Text>, nat), DecodeError>)
    requires start <= end <= |buf|
    ensures Reads(r, buf, start, end, TakeUsername(flags, buf[start..end]))
  {
    if !flags.username {
      return Ok((None, start));
    }
    var read := ReadStr(buf, start, end);
    return if read.Ok? then Ok((Some(read.value.0), read.value.1)) else Err(read.error);
  }

  method ReadPassword(flags: FlagSet, buf: Bytes, start: nat, end: nat)
    returns (r: Result<(Option<Bytes>, nat), DecodeError>)
    requires start <= end <= |buf|
    ensures Reads(r, buf, start, end, TakePassword(flags, buf[start..end]))
  {
    if !flags.password {
      return Ok((None, start));
    }
    var read := ReadBin(buf, start, end);
    return if read.Ok? then Ok((Some(read.value.0), read.value.1)) else Err(read.error);
  }

  method ReadConnectHead(level: u8, buf: Bytes, start: nat, end: nat) returns (r: Result<((u8, u16), nat), DecodeError>)
    requires start <= end <= |buf|
    ensures Reads(r, buf, start, end, TakeConnectHead(level, buf[start..end]))
  {
    var name := ReadStr(buf, start, end);
    if name.Err? {
      return Err(name.error);
    }
    if name.value.0 != PROTOCOL_NAME {
      return Err(MalformedPacket);
    }
    var sent := ReadByte(buf, name.value.1, end);
    if sent.Err? || sent.value.0 != level {
      return Err(MalformedPacket);
    }
    var flags := ReadByte(buf, sent.value.1, end);
    if flags.Err? {
      return Err(MalformedPacket);
    }
    var keepAlive := ReadU16(buf, flags.value.1, end);
    if keepAlive.Err? {
      return Err(MalformedPacket);
    }
    return Ok(((flags.value.0, keepAlive.value.0), keepAlive.value.1));
  }

  /** The identifier every acknowledgement and request begins with. */
  method ReadId(buf: Bytes, start: nat, end: nat) returns (r: Result<(u16, nat), DecodeError>)
    requires start <= end <= |buf|
    ensures Reads(r, buf, start, end, TakeId(buf[start..end]))
  {
    var read := ReadU16(buf, start, end);
    if read.Ok? && read.value.0 == 0 {
      return Err(MalformedPacket);
    }
    return read;
  }

  /** What the loop has read, put before what it still has to read. */
  ghost function Prepended<T>(done: seq<T>, rest: Result<seq<T>, DecodeError>): Result<seq<T>, DecodeError> {
    match rest case Ok(list) => Ok(done + list) case Err(e) => Err(e)
  }

  lemma PrependedNone<T>(list: seq<T>, rest: Result<seq<T>, DecodeError>)
    ensures Prepended([], rest) == rest && Prepended(list, Ok([])) == Ok(list)
  {
    assert list + [] == list;
    if rest.Ok? {
      assert [] + rest.value == rest.value;
    }
  }

  lemma PrependedSnoc<T>(done: seq<T>, x: T, rest: Result<seq<T>, DecodeError>)
    ensures Prepended(done, Prepended([x], rest)) == Prepended(done + [x], rest)
  {
    if rest.Ok? {
      assert done + ([x] + rest.value) == (done + [x]) + rest.value;
    }
  }
}
