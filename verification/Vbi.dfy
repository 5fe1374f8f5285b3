/** Errors of the codec and the Variable Byte Integer (src/error.rs, src/codec/variable_byte_integer.rs). */
module Vbi {
  import opened Prelude

  type Bytes = seq<u8>

  datatype DecodeError =
    | InsufficientData
    | MalformedPacket
    | InvalidPacketType
    | UnexpectedPacket(packetType: u8)
    | InvalidPacketFlags
    | InvalidUtf8
    | PacketTooLarge(size: nat, limit: nat)

  datatype EncodeInvalidField =
    | EmptyTopicName
    | WildcardInTopicName
    | MissingPacketId
    | UnexpectedPacketId
    | ZeroPacketId
    | DupWithQos0
    | EmptySubscriptions
    | EmptyTopicFilters
    | EmptyReturnCodes
    | InvalidTopicFilter
    | SharedSubscriptionNoLocal
    | PropertyValidationFailed
    | DuplicatePropertyIdentifier
    | InvalidPropertyValue
    | InvalidPayloadUtf8
    | SessionPresentWithNonSuccess
    | NullInUtf8String
    | PasswordWithoutUsername
    | EmptyClientIdWithoutCleanSession

  datatype EncodeError =
    | BufferTooSmall
    | PacketTooLarge(size: nat, limit: nat)
    | InvalidField(reason: EncodeInvalidField)

  const MAX_VBI := 268_435_455

  function VbiLen(v: nat): (n: nat)
    ensures 1 <= n <= 4
  {
    if v < 128 then 1 else if v < 16_384 then 2 else if v < 2_097_152 then 3 else 4
  }

  /** Seven bits a byte, least significant first, the high bit marking all but the last. */
  function VbiBytes(v: nat): (r: Bytes)
    ensures |r| >= 1
  {
    if v < 128 then [v] else [v % 128 + 128] + VbiBytes(v / 128)
  }

  lemma VbiBytesLength(v: nat)
    requires v <= MAX_VBI
    ensures |VbiBytes(v)| == VbiLen(v)
  {
    var v1 := v / 128;
    var v2 := v1 / 128;
    var v3 := v2 / 128;
    assert v3 < 128;
    if v >= 128 {
      assert |VbiBytes(v)| == 1 + |VbiBytes(v1)|;
      if v1 >= 128 {
        assert |VbiBytes(v1)| == 1 + |VbiBytes(v2)|;
        if v2 >= 128 {
          assert |VbiBytes(v2)| == 1 + |VbiBytes(v3)|;
        }
      }
    }
  }

  /** At most `fuel` bytes of seven bits each, in any number of bytes. */
  function Groups(b: Bytes, fuel: nat): (r: Result<(nat, nat), DecodeError>)
    ensures r.Ok? ==> 1 <= r.value.1 <= |b| && r.value.1 <= fuel
  {
    if fuel == 0 then Err(MalformedPacket)
    else if b == [] then Err(InsufficientData)
    else if b[0] < 128 then Ok((b[0], 1))
    else
      var (v, n) :- Groups(b[1..], fuel - 1);
      Ok((b[0] - 128 + 128 * v, n + 1))
  }

  /** The integer at the start of `b` and its length; only the shortest form is accepted. */
  function VbiDecode(b: Bytes): (r: Result<(nat, nat), DecodeError>)
    ensures r.Ok? ==> 1 <= r.value.1 <= |b| && r.value.1 <= 4
  {
    var (v, n) :- Groups(b, 4);
    if n == VbiLen(v) then Ok((v, n)) else Err(MalformedPacket)
  }

  function Power128(k: nat): (p: nat)
    ensures p >= 1
  {
    if k == 0 then 1 else 128 * Power128(k - 1)
  }

  /** `b` with `data` written over it at `start`. */
  function Write(b: Bytes, start: nat, data: Bytes): (r: Bytes)
    requires start + |data| <= |b|
    ensures |r| == |b|
  {
    b[..start] + data + b[start + |data|..]
  }

  lemma WriteThen(b: Bytes, start: nat, first: Bytes, second: Bytes)
    requires start + |first| + |second| <= |b|
    ensures Write(Write(b, start, first), start + |first|, second) == Write(b, start, first + second)
  {
  }

  method PutByte(buf: array<u8>, at: nat, byte: u8)
    requires at < buf.Length
    modifies buf
    ensures buf[..] == Write(old(buf[..]), at, [byte])
  {
    buf[at] := byte;
  }

  function LowGroup(v: nat): u8 {
    if v < 128 then v else v % 128 + 128
  }

  lemma FirstGroup(v: nat)
    ensures v < 128 ==> VbiBytes(v) == [LowGroup(v)]
    ensures v >= 128 ==> VbiBytes(v) == [LowGroup(v)] + VbiBytes(v / 128)
  {
  }

  lemma Regroup(all: Bytes, done: Bytes, byte: u8, rest: Bytes)
    requires all == done + ([byte] + rest)
    ensures all == (done + [byte]) + rest
  {
  }

  /** The encoding loop: the low seven bits of `value` go out until nothing is left. */
  method EncodeVbi(value: u32, buf: array<u8>, start: nat) returns (r: Result<nat, EncodeError>)
    requires start <= buf.Length
    modifies buf
    ensures value > MAX_VBI ==> r == Err(EncodeError.PacketTooLarge(value, MAX_VBI))
    ensures value <= MAX_VBI && start + |VbiBytes(value)| > buf.Length ==> r == Err(BufferTooSmall)
    ensures value <= MAX_VBI && start + |VbiBytes(value)| <= buf.Length ==>
      r == Ok(|VbiBytes(value)|) && buf[..] == Write(old(buf[..]), start, VbiBytes(value))
  {
    if value > MAX_VBI {
      return Err(EncodeError.PacketTooLarge(value, MAX_VBI));
    }
    var rest: u32, i: nat := value, 0;
    ghost var done: Bytes, initial := [], buf[..];
    while true
      invariant i == |done| && start + i <= buf.Length && rest <= value
      invariant VbiBytes(value) == done + VbiBytes(rest)
      invariant buf[..] == Write(initial, start, done)
      decreases rest
    {
      if start + i >= buf.Length {
        return Err(BufferTooSmall);
      }
      FirstGroup(rest);
      var byte: u8 := rest % 128;
      rest := rest / 128;
      if rest > 0 {
        byte := byte + 128;
      }
      PutByte(buf, start + i, byte);
      WriteThen(initial, start, done, [byte]);
      i := i + 1;
      if rest == 0 {
        return Ok(i);
      }
      Regroup(VbiBytes(value), done, byte, VbiBytes(rest));
      done := done + [byte];
    }
  }

  /** The multiplier after `i` groups. */
  function Weight(i: nat): (w: nat)
    requires i <= 4
    ensures 1 <= w <= 0x1000_0000
  {
    match i case 0 => 1 case 1 => 128 case 2 => 16_384 case 3 => 2_097_152 case 4 => 0x1000_0000
  }

  lemma GroupFits(value: nat, digit: nat, i: nat)
    requires i < 4 && value < Weight(i) && digit < 128
    ensures value + digit * Weight(i) < Weight(i + 1) == Weight(i) * 128
  {
  }

  /**
   * The decoding loop. `checked_add` and `checked_mul` never fail: the types of `value` and
   * `multiplier` make the verifier show it.
   */
  method DecodeVbi(b: Bytes) returns (r: Result<(nat, nat), DecodeError>)
    ensures r == VbiDecode(b)
  {
    var value: u32, multiplier: u32, i := 0, 1, 0;
    while true
      invariant 0 <= i <= 4 && i <= |b|
      invariant multiplier == Weight(i) && value < Weight(i)
      invariant Groups(b, 4) == Shifted(value, multiplier, i, Groups(b[i..], 4 - i))
      decreases 4 - i
    {
      if i >= 4 {
        return Err(MalformedPacket);
      }
      if i >= |b| {
        return Err(InsufficientData);
      }
      var byte := b[i];
      GroupFits(value, byte % 128, i);
      ShiftGroups(value, multiplier, i, b);
      value := value + byte % 128 * multiplier;
      i := i + 1;
      if byte < 128 {
        break;
      }
      multiplier := multiplier * 128;
    }
    if value > MAX_VBI {
      return Err(MalformedPacket);
    }
    if i != VbiLen(value) {
      return Err(MalformedPacket);
    }
    return Ok((value, i));
  }

  /** What the groups after the first `i` add to the value read so far. */
  ghost function Shifted(value: nat, multiplier: nat, i: nat, rest: Result<(nat, nat), DecodeError>)
    : Result<(nat, nat), DecodeError>
  {
    match rest
    case Ok((v, n)) => Ok((value + v * multiplier, i + n))
    case Err(e) => Err(e)
  }

  lemma ShiftGroups(value: nat, multiplier: nat, i: nat, b: Bytes)
    requires i < 4 && i < |b|
    ensures var tail := Shifted(value, multiplier, i, Groups(b[i..], 4 - i));
            var digit := b[i] % 128;
            tail == if b[i] < 128 then Ok((value + digit * multiplier, i + 1))
                    else Shifted(value + digit * multiplier, multiplier * 128, i + 1, Groups(b[i + 1..], 3 - i))
  {
    assert b[i..][1..] == b[i + 1..] && b[i..][0] == b[i];
    var rest := Groups(b[i + 1..], 3 - i);
    if b[i] >= 128 && rest.Ok? {
      var v := rest.value.0;
      Distribute(b[i] - 128, v, multiplier);
    }
  }

  lemma Distribute(digit: nat, v: nat, m: nat)
    ensures (digit + 128 * v) * m == digit * m + v * (m * 128)
  {
  }

  // -- round trips ----------------------------------------------------------------------------

  lemma {:induction false} GroupsOfBytes(v: nat, rest: Bytes, fuel: nat)
    requires |VbiBytes(v)| <= fuel
    ensures Groups(VbiBytes(v) + rest, fuel) == Ok((v, |VbiBytes(v)|))
    decreases v
  {
    var b := VbiBytes(v) + rest;
    if v >= 128 {
      assert b[1..] == VbiBytes(v / 128) + rest;
      GroupsOfBytes(v / 128, rest, fuel - 1);
    }
  }

  lemma VbiRoundTrip(v: nat, rest: Bytes)
    requires v <= MAX_VBI
    ensures VbiDecode(VbiBytes(v) + rest) == Ok((v, |VbiBytes(v)|))
  {
    VbiBytesLength(v);
    GroupsOfBytes(v, rest, 4);
  }

  /** Groups of no more bytes than the shortest form needs are the shortest form. */
  lemma {:induction false} ShortGroupsAreBytes(b: Bytes, fuel: nat)
    requires Groups(b, fuel).Ok?
    requires var (v, n) := Groups(b, fuel).value; n == 1 || v >= Power128(n - 1)
    ensures var (v, n) := Groups(b, fuel).value; b[..n] == VbiBytes(v) && v < Power128(n)
    decreases fuel
  {
    var (v, n) := Groups(b, fuel).value;
    if b[0] < 128 {
      assert n == 1 && v == b[0];
      assert b[..1] == [b[0]];
      assert Power128(1) == 128 * Power128(0);
    } else {
      var (w, m) := Groups(b[1..], fuel - 1).value;
      assert v == b[0] - 128 + 128 * w && n == m + 1;
      assert Power128(n - 1) == 128 * Power128(m - 1);
      assert v >= 128 * Power128(m - 1);
      assert w >= Power128(m - 1);
      ShortGroupsAreBytes(b[1..], fuel - 1);
      assert v / 128 == w && v % 128 == b[0] - 128;
      assert b[..n] == [b[0]] + b[1..][..m];
      assert Power128(n) == 128 * Power128(m);
    }
  }

  lemma Powers()
    ensures Power128(0) == 1 && Power128(1) == 128 && Power128(2) == 16_384 && Power128(3) == 2_097_152
    ensures Power128(4) == 268_435_456
  {
    assert Power128(1) == 128 * Power128(0);
    assert Power128(2) == 128 * Power128(1);
    assert Power128(3) == 128 * Power128(2);
    assert Power128(4) == 128 * Power128(3);
  }

  /** Only the bytes the encoder writes are accepted (section 1.5.5 of MQTT v5.0). */
  lemma VbiCanonical(b: Bytes)
    requires VbiDecode(b).Ok?
    ensures var (v, n) := VbiDecode(b).value; v <= MAX_VBI && b[..n] == VbiBytes(v)
  {
    var (v, n) := VbiDecode(b).value;
    Powers();
    ShortGroupsAreBytes(b, 4);
  }

  /** Bytes that follow change the answer only when bytes were missing. */
  lemma {:induction false} GroupsStable(b: Bytes, more: Bytes, fuel: nat)
    requires Groups(b, fuel) != Err(InsufficientData)
    ensures Groups(b + more, fuel) == Groups(b, fuel)
    decreases fuel
  {
    if fuel > 0 {
      assert (b + more)[0] == b[0];
      if b[0] >= 128 {
        assert (b + more)[1..] == b[1..] + more;
        GroupsStable(b[1..], more, fuel - 1);
      }
    }
  }

  lemma VbiStable(b: Bytes, more: Bytes)
    requires VbiDecode(b) != Err(InsufficientData)
    ensures VbiDecode(b + more) == VbiDecode(b)
  {
    GroupsStable(b, more, 4);
  }

  /** Bytes are missing exactly when fewer than four came and every one of them is marked. */
  lemma {:induction false} GroupsInsufficient(b: Bytes, fuel: nat)
    ensures Groups(b, fuel) == Err(InsufficientData) <==> |b| < fuel && forall i | 0 <= i < |b| :: b[i] >= 128
    decreases fuel
  {
    if fuel > 0 && b != [] && b[0] >= 128 {
      GroupsInsufficient(b[1..], fuel - 1);
      assert forall i | 1 <= i < |b| :: b[i] == b[1..][i - 1];
    }
  }

  lemma VbiInsufficient(b: Bytes)
    ensures VbiDecode(b) == Err(InsufficientData) <==> |b| < 4 && forall i | 0 <= i < |b| :: b[i] >= 128
  {
    GroupsInsufficient(b, 4);
  }
}
