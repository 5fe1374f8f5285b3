/** Length-prefixed fields (src/codec/utf8_string.rs, src/codec/binary_data.rs, src/topic_filter.rs). */
module Fields {
  import opened Prelude
  import opened Vbi

  const MAX_FIELD := 65535

  predicate IsContinuation(b: u8) {
    0x80 <= b <= 0xBF
  }

  /** The length of the well-formed UTF-8 character that starts `b`; 0 when there is none. */
  function CharLen(b: Bytes): (n: nat)
    ensures n <= |b|
  {
    if b == [] then 0
    else if b[0] < 0x80 then 1
    else if |b| < 2 || !IsContinuation(b[1]) then 0
    else if 0xC2 <= b[0] <= 0xDF then 2
    else if |b| < 3 || !IsContinuation(b[2]) then 0
    else if 0xE0 <= b[0] <= 0xEF then
      if (b[0] == 0xE0 && b[1] < 0xA0) || (b[0] == 0xED && b[1] > 0x9F) then 0 else 3
    else if |b| < 4 || !IsContinuation(b[3]) then 0
    else if 0xF0 <= b[0] <= 0xF4 then
      if (b[0] == 0xF0 && b[1] < 0x90) || (b[0] == 0xF4 && b[1] > 0x8F) then 0 else 4
    else 0
  }

  predicate ValidUtf8(b: Bytes)
    decreases |b|
  {
    b == [] || (CharLen(b) > 0 && ValidUtf8(b[CharLen(b)..]))
  }

  /** Rust's `String`. NUL, `+` and `#` are one-byte characters, so looking for them looks for a byte. */
  type Text = b: Bytes | ValidUtf8(b) witness []

  const NUL: u8 := 0x00
  const HASH: u8 := 0x23
  const PLUS: u8 := 0x2B
  const SLASH: u8 := 0x2F

  predicate HasWildcard(s: Bytes) {
    PLUS in s || HASH in s
  }

  /** A wildcard fills its whole level, and `#` the last one. */
  predicate IsValidFilter(s: Bytes) {
    s != [] && WildcardsInPlace(s)
  }

  predicate WildcardsInPlace(s: Bytes) {
    && (forall i | 0 <= i < |s| && s[i] == HASH :: i == |s| - 1 && (i == 0 || s[i - 1] == SLASH))
    && (forall i | 0 <= i < |s| && s[i] == PLUS ::
          (i == 0 || s[i - 1] == SLASH) && (i == |s| - 1 || s[i + 1] == SLASH))
  }

  function FirstSlash(s: Bytes): (i: nat)
    ensures i <= |s| && (i < |s| ==> s[i] == SLASH) && SLASH !in s[..i]
  {
    if s == [] || s[0] == SLASH then 0
    else
      var i := FirstSlash(s[1..]);
      assert s[..i + 1] == [s[0]] + s[1..][..i];
      i + 1
  }

  function U16Bytes(x: u16): (r: Bytes)
    ensures |r| == 2
  {
    [x / 256, x % 256]
  }

  function U16Of(high: u8, low: u8): u16 {
    high * 256 + low
  }

  /** The length is cast to 16 bits, as in the source; every caller has checked that it fits. */
  function FieldBytes(s: Bytes): (r: Bytes)
    ensures |r| == 2 + |s|
  {
    U16Bytes(|s| % 0x1_0000) + s
  }

  // -- decoding ------------------------------------------------------------------------------

  function DecodeBin(b: Bytes): (r: Result<(Bytes, nat), DecodeError>)
    ensures r.Ok? ==> r.value.1 == 2 + |r.value.0| <= |b|
  {
    if |b| < 2 then Err(InsufficientData)
    else
      var n := U16Of(b[0], b[1]);
      if |b| < 2 + n then Err(InsufficientData) else Ok((b[2..2 + n], 2 + n))
  }

  function DecodeStr(b: Bytes): (r: Result<(Text, nat), DecodeError>)
    ensures r.Ok? ==> r.value.1 == 2 + |r.value.0| <= |b|
  {
    if |b| < 2 then Err(InsufficientData)
    else
      var n := U16Of(b[0], b[1]);
      if |b| < 2 + n then Err(InsufficientData)
      else if !ValidUtf8(b[2..2 + n]) then Err(InvalidUtf8)
      else if NUL in b[2..2 + n] then Err(MalformedPacket)
      else Ok((b[2..2 + n], 2 + n))
  }

  /** Inside a frame there is no more data to wait for. */
  function MalformedIfInsufficient(e: DecodeError): DecodeError {
    if e == InsufficientData then MalformedPacket else e
  }

  type Parsed<+T> = Result<(T, Bytes), DecodeError>

  function TakeBin(b: Bytes): Parsed<Bytes> {
    match DecodeBin(b)
    case Ok((v, n)) => Ok((v, b[n..]))
    case Err(e) => Err(MalformedIfInsufficient(e))
  }

  function TakeStr(b: Bytes): Parsed<Text> {
    match DecodeStr(b)
    case Ok((v, n)) => Ok((v, b[n..]))
    case Err(e) => Err(MalformedIfInsufficient(e))
  }

  function TakeU16(b: Bytes): Parsed<u16> {
    if |b| < 2 then Err(MalformedPacket) else Ok((U16Of(b[0], b[1]), b[2..]))
  }

  function TakeByte(b: Bytes): Parsed<u8> {
    if b == [] then Err(MalformedPacket) else Ok((b[0], b[1..]))
  }

  // -- what makes a field encodable, and the two halves of the round trip ---------------------

  predicate IsField(s: Bytes) {
    |s| <= MAX_FIELD
  }

  predicate IsStrField(s: Bytes) {
    |s| <= MAX_FIELD && NUL !in s
  }

  lemma U16Exact(high: u8, low: u8)
    ensures U16Bytes(U16Of(high, low)) == [high, low]
  {
  }

  lemma TakeU16RoundTrip(x: u16, rest: Bytes)
    ensures TakeU16(U16Bytes(x) + rest) == Ok((x, rest))
  {
    var b := U16Bytes(x) + rest;
    assert b[2..] == rest;
  }

  lemma TakeU16Exact(b: Bytes)
    requires TakeU16(b).Ok?
    ensures var (x, rest) := TakeU16(b).value; b == U16Bytes(x) + rest
  {
    U16Exact(b[0], b[1]);
  }

  lemma FieldPrefix(s: Bytes, rest: Bytes)
    requires IsField(s)
    ensures var b := FieldBytes(s) + rest;
            |b| >= 2 + |s| && U16Of(b[0], b[1]) == |s| && b[2..2 + |s|] == s && b[2 + |s|..] == rest
  {
  }

  lemma TakeBinRoundTrip(s: Bytes, rest: Bytes)
    requires IsField(s)
    ensures TakeBin(FieldBytes(s) + rest) == Ok((s, rest))
  {
    FieldPrefix(s, rest);
  }

  lemma TakeBinExact(b: Bytes)
    requires TakeBin(b).Ok?
    ensures var (s, rest) := TakeBin(b).value; IsField(s) && b == FieldBytes(s) + rest
  {
    U16Exact(b[0], b[1]);
  }

  lemma TakeStrRoundTrip(s: Text, rest: Bytes)
    requires IsStrField(s)
    ensures TakeStr(FieldBytes(s) + rest) == Ok((s, rest))
  {
    FieldPrefix(s, rest);
  }

  lemma TakeStrExact(b: Bytes)
    requires TakeStr(b).Ok?
    ensures var (s, rest) := TakeStr(b).value; IsStrField(s) && b == FieldBytes(s) + rest
  {
    U16Exact(b[0], b[1]);
  }

  // -- encoding ------------------------------------------------------------------------------

  function BinError(s: Bytes): Option<EncodeError> {
    if |s| > MAX_FIELD then Some(EncodeError.PacketTooLarge(|s|, MAX_FIELD)) else None
  }

  function StrError(s: Bytes): Option<EncodeError> {
    if NUL in s then Some(InvalidField(NullInUtf8String)) else BinError(s)
  }

  /** `copy_from_slice`, and the only way the encoders write more than a byte. */
  method PutBytes(buf: array<u8>, at: nat, data: Bytes)
    requires at + |data| <= buf.Length
    modifies buf
    ensures buf[..] == Write(old(buf[..]), at, data)
  {
    ghost var initial := buf[..];
    for i := 0 to |data|
      invariant buf[..] == Write(initial, at, data[..i])
    {
      PutByte(buf, at + i, data[i]);
      WriteThen(initial, at, data[..i], [data[i]]);
      NextPrefix(data, i);
    }
    assert data[..|data|] == data;
  }

  lemma NextPrefix(data: Bytes, i: nat)
    requires i < |data|
    ensures data[..i] + [data[i]] == data[..i + 1]
  {
  }

  method EncodeSlice(value: Bytes, buf: array<u8>, at: nat) returns (r: Result<nat, EncodeError>)
    requires at <= buf.Length
    modifies buf
    ensures match BinError(value)
            case Some(e) => r == Err(e)
            case None =>
              if at + 2 + |value| > buf.Length then r == Err(BufferTooSmall)
              else r == Ok(2 + |value|) && buf[..] == Write(old(buf[..]), at, FieldBytes(value))
  {
    if |value| > MAX_FIELD {
      return Err(EncodeError.PacketTooLarge(|value|, MAX_FIELD));
    }
    if buf.Length - at < 2 + |value| {
      return Err(BufferTooSmall);
    }
    PutBytes(buf, at, U16Bytes(|value|));
    PutBytes(buf, at + 2, value);
    WriteThen(old(buf[..]), at, U16Bytes(|value|), value);
    return Ok(2 + |value|);
  }

  method EncodeStr(value: Text, buf: array<u8>, at: nat) returns (r: Result<nat, EncodeError>)
    requires at <= buf.Length
    modifies buf
    ensures match StrError(value)
            case Some(e) => r == Err(e)
            case None =>
              if at + 2 + |value| > buf.Length then r == Err(BufferTooSmall)
              else r == Ok(2 + |value|) && buf[..] == Write(old(buf[..]), at, FieldBytes(value))
  {
    if NUL in value {
      return Err(InvalidField(NullInUtf8String));
    }
    r := EncodeSlice(value, buf, at);
  }

  // -- frames --------------------------------------------------------------------------------

  /** First byte and Remaining Length. */
  function Header(first: u8, bodyLength: nat): Bytes {
    [first] + VbiBytes(bodyLength)
  }

  function Frame(first: u8, body: Bytes): Bytes {
    Header(first, |body|) + body
  }

  /**
   * How every packet is read: the first byte is checked, the Remaining Length decoded, the body
   * awaited and parsed. A packet that has no body (`isBare`) is refused for a Remaining Length at
   * once, all others wait for their bytes.
   */
  function Unframed<P>(b: Bytes, check: u8 -> Option<DecodeError>, isBare: u8 -> bool,
                       parse: (u8, Bytes) -> Result<P, DecodeError>): Result<(P, nat), DecodeError>
  {
    if b == [] then Err(InsufficientData)
    else if check(b[0]).Some? then Err(check(b[0]).value)
    else
      var (remaining, n) :- VbiDecode(b[1..]);
      if isBare(b[0]) && remaining != 0 then Err(MalformedPacket)
      else if |b| < 1 + n + remaining then Err(InsufficientData)
      else
        var p :- parse(b[0], b[1 + n..1 + n + remaining]);
        Ok((p, 1 + n + remaining))
  }

  lemma FrameIsUnframed<P>(first: u8, body: Bytes, rest: Bytes, check: u8 -> Option<DecodeError>,
                           isBare: u8 -> bool, parse: (u8, Bytes) -> Result<P, DecodeError>)
    requires |body| <= MAX_VBI && check(first).None? && (isBare(first) ==> body == [])
    ensures Unframed(Frame(first, body) + rest, check, isBare, parse)
            == match parse(first, body) case Ok(p) => Ok((p, |Frame(first, body)|)) case Err(e) => Err(e)
  {
    var b, n := Frame(first, body) + rest, |VbiBytes(|body|)|;
    assert b[1..] == VbiBytes(|body|) + (body + rest);
    VbiRoundTrip(|body|, body + rest);
    assert b[1 + n..1 + n + |body|] == body;
  }

  lemma UnframedIsFrame<P>(b: Bytes, check: u8 -> Option<DecodeError>, isBare: u8 -> bool,
                           parse: (u8, Bytes) -> Result<P, DecodeError>) returns (body: Bytes)
    requires Unframed(b, check, isBare, parse).Ok?
    ensures |body| <= MAX_VBI && b != [] && check(b[0]).None?
    ensures var (p, n) := Unframed(b, check, isBare, parse).value;
            parse(b[0], body) == Ok(p) && n == |Frame(b[0], body)| <= |b| && b[..n] == Frame(b[0], body)
  {
    VbiCanonical(b[1..]);
    var (remaining, n) := VbiDecode(b[1..]).value;
    body := b[1 + n..1 + n + remaining];
    assert b[..1 + n] == [b[0]] + b[1..][..n];
  }
}
