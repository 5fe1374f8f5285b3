/** A buffer written from the front, and a buffer read from an offset. */
module Cursor {
  import opened Prelude
  import opened Vbi
  import opened Fields

  /**
   * `wire` is being written over a buffer that held `initial`: what precedes `offset` is written,
   * and `rest` is not.
   */
  ghost predicate Writing(buf: Bytes, initial: Bytes, wire: Bytes, offset: nat, rest: Bytes) {
    offset <= |wire| <= |initial| && wire[offset..] == rest && buf == Write(initial, 0, wire[..offset])
  }

  lemma Advance(buf: Bytes, initial: Bytes, wire: Bytes, offset: nat, piece: Bytes, rest: Bytes)
    requires Writing(buf, initial, wire, offset, piece + rest)
    ensures offset + |piece| <= |wire| <= |buf|
    ensures Writing(Write(buf, offset, piece), initial, wire, offset + |piece|, rest)
  {
    WriteThen(initial, 0, wire[..offset], piece);
    assert wire[offset..][..|piece|] == piece && wire[offset..][|piece|..] == rest;
    assert wire[..offset + |piece|] == wire[..offset] + piece;
  }

  lemma Finished(buf: Bytes, initial: Bytes, wire: Bytes, offset: nat)
    requires Writing(buf, initial, wire, offset, [])
    ensures offset == |wire| && buf == Write(initial, 0, wire)
  {
    assert |wire[offset..]| == 0;
    assert wire[..offset] == wire;
  }

  /** A length that is known to fit. */
  method PutLength(length: nat, buf: array<u8>, at: nat) returns (n: nat)
    requires length <= MAX_VBI && at + VbiLen(length) <= buf.Length
    modifies buf
    ensures n == VbiLen(length) == |VbiBytes(length)| && buf[..] == Write(old(buf[..]), at, VbiBytes(length))
  {
    VbiBytesLength(length);
    var written := EncodeVbi(length, buf, at);
    n := written.value;
  }

  /** First byte and Remaining Length, into a buffer that is known to hold the whole packet. */
  method WriteHeader(first: u8, bodyLength: nat, buf: array<u8>, ghost body: Bytes) returns (offset: nat)
    requires |body| == bodyLength <= MAX_VBI && |Frame(first, body)| <= buf.Length
    modifies buf
    ensures Writing(buf[..], old(buf[..]), Frame(first, body), offset, body)
  {
    ghost var initial, wire := buf[..], Frame(first, body);
    PutByte(buf, 0, first);
    VbiBytesLength(bodyLength);
    var n := PutLength(bodyLength, buf, 1);
    WriteThen(initial, 0, [first], VbiBytes(bodyLength));
    offset := 1 + n;
    assert wire[..offset] == Header(first, bodyLength);
  }

  method EmitByte(byte: u8, buf: array<u8>, offset: nat, ghost initial: Bytes, ghost wire: Bytes, ghost rest: Bytes)
    returns (next: nat)
    requires Writing(buf[..], initial, wire, offset, [byte] + rest)
    modifies buf
    ensures next == offset + 1 && Writing(buf[..], initial, wire, next, rest)
  {
    Advance(buf[..], initial, wire, offset, [byte], rest);
    PutByte(buf, offset, byte);
    next := offset + 1;
  }

  method EmitBytes(data: Bytes, buf: array<u8>, offset: nat, ghost initial: Bytes, ghost wire: Bytes, ghost rest: Bytes)
    returns (next: nat)
    requires Writing(buf[..], initial, wire, offset, data + rest)
    modifies buf
    ensures next == offset + |data| && Writing(buf[..], initial, wire, next, rest)
  {
    Advance(buf[..], initial, wire, offset, data, rest);
    PutBytes(buf, offset, data);
    next := offset + |data|;
  }

  method EmitStr(value: Text, buf: array<u8>, offset: nat, ghost initial: Bytes, ghost wire: Bytes, ghost rest: Bytes)
    returns (r: Result<nat, EncodeError>)
    requires Writing(buf[..], initial, wire, offset, FieldBytes(value) + rest)
    modifies buf
    ensures match StrError(value)
            case Some(e) => r == Err(e)
            case None => r == Ok(offset + 2 + |value|) && Writing(buf[..], initial, wire, offset + 2 + |value|, rest)
  {
    Advance(buf[..], initial, wire, offset, FieldBytes(value), rest);
    var n :- EncodeStr(value, buf, offset);
    return Ok(offset + n);
  }

  method EmitBin(value: Bytes, buf: array<u8>, offset: nat, ghost initial: Bytes, ghost wire: Bytes, ghost rest: Bytes)
    returns (r: Result<nat, EncodeError>)
    requires Writing(buf[..], initial, wire, offset, FieldBytes(value) + rest)
    modifies buf
    ensures match BinError(value)
            case Some(e) => r == Err(e)
            case None => r == Ok(offset + 2 + |value|) && Writing(buf[..], initial, wire, offset + 2 + |value|, rest)
  {
    Advance(buf[..], initial, wire, offset, FieldBytes(value), rest);
    var n :- EncodeSlice(value, buf, offset);
    return Ok(offset + n);
  }

  // -- reading --------------------------------------------------------------------------------

  /** The reader moved from `offset` as the parser `p` did on the bytes up to `end`. */
  ghost predicate Reads<T>(r: Result<(T, nat), DecodeError>, buf: Bytes, offset: nat, end: nat, p: Parsed<T>)
    requires offset <= end <= |buf|
  {
    match r
    case Ok((v, o)) => offset <= o <= end && p == Ok((v, buf[o..end]))
    case Err(e) => p == Err(e)
  }

  lemma Skip(buf: Bytes, offset: nat, n: nat, end: nat)
    requires offset + n <= end <= |buf|
    ensures buf[offset..end][n..] == buf[offset + n..end]
  {
  }

  method ReadStr(buf: Bytes, offset: nat, end: nat) returns (r: Result<(Text, nat), DecodeError>)
    requires offset <= end <= |buf|
    ensures Reads(r, buf, offset, end, TakeStr(buf[offset..end]))
    ensures r.Ok? ==> r.value.1 == offset + 2 + |r.value.0|
  {
    var d := DecodeStr(buf[offset..end]);
    if d.Err? {
      return Err(MalformedIfInsufficient(d.error));
    }
    Skip(buf, offset, d.value.1, end);
    return Ok((d.value.0, offset + d.value.1));
  }

  method ReadBin(buf: Bytes, offset: nat, end: nat) returns (r: Result<(Bytes, nat), DecodeError>)
    requires offset <= end <= |buf|
    ensures Reads(r, buf, offset, end, TakeBin(buf[offset..end]))
    ensures r.Ok? ==> r.value.1 == offset + 2 + |r.value.0|
  {
    var d := DecodeBin(buf[offset..end]);
    if d.Err? {
      return Err(MalformedIfInsufficient(d.error));
    }
    Skip(buf, offset, d.value.1, end);
    return Ok((d.value.0, offset + d.value.1));
  }

  method ReadByte(buf: Bytes, offset: nat, end: nat) returns (r: Result<(u8, nat), DecodeError>)
    requires offset <= end <= |buf|
    ensures Reads(r, buf, offset, end, TakeByte(buf[offset..end]))
    ensures r.Ok? ==> r.value.1 == offset + 1
  {
    if offset >= end {
      return Err(MalformedPacket);
    }
    Skip(buf, offset, 1, end);
    return Ok((buf[offset], offset + 1));
  }

  method ReadU16(buf: Bytes, offset: nat, end: nat) returns (r: Result<(u16, nat), DecodeError>)
    requires offset <= end <= |buf|
    ensures Reads(r, buf, offset, end, TakeU16(buf[offset..end]))
    ensures r.Ok? ==> r.value.1 == offset + 2
  {
    if offset + 2 > end {
      return Err(MalformedPacket);
    }
    Skip(buf, offset, 2, end);
    return Ok((U16Of(buf[offset], buf[offset + 1]), offset + 2));
  }
}
