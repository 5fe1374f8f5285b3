/**
 * The smallest parts of the wire, byte by byte: integers, fields, text and the frames of a stream, with
 * every number written out.
 */
module Literals {
  import opened Prelude
  import opened Vbi
  import opened Fields
  import opened Decoding

  // -- integers -----------------------------------------------------------------------------------

  /** Seven bits in each byte, the lowest first; 128 says that another byte follows. */
  function LengthBytes(n: nat): Bytes
    requires n <= 268_435_455
  {
    if n < 128 then [n]
    else if n < 16_384 then [128 + n % 128, n / 128]
    else if n < 2_097_152 then [128 + n % 128, 128 + n / 128 % 128, n / 16_384]
    else [128 + n % 128, 128 + n / 128 % 128, 128 + n / 16_384 % 128, n / 2_097_152]
  }

  lemma WrittenLength(n: nat)
    requires n <= 268_435_455
    ensures VbiBytes(n) == LengthBytes(n)
  {
    var n1 := n / 128;
    var n2 := n1 / 128;
    var n3 := n2 / 128;
    assert n2 == n / 16_384 && n3 == n / 2_097_152;
    assert n >= 128 ==> VbiBytes(n) == [n % 128 + 128] + VbiBytes(n1);
    assert n1 >= 128 ==> VbiBytes(n1) == [n1 % 128 + 128] + VbiBytes(n2);
    assert n2 >= 128 ==> VbiBytes(n2) == [n2 % 128 + 128] + VbiBytes(n3);
    assert n3 < 128 && VbiBytes(n3) == [n3];
  }

  function Digits(a: nat, b: nat, c: nat, d: nat): nat {
    a + 128 * b + 16_384 * c + 2_097_152 * d
  }

  /** What is read: at most four bytes, none of them superfluous. */
  lemma ReadLength(b: Bytes)
    ensures VbiDecode(b) ==
      if |b| == 0 then Err(InsufficientData)
      else if b[0] < 128 then Ok((Digits(b[0], 0, 0, 0), 1))
      else if |b| == 1 then Err(InsufficientData)
      else if b[1] < 128 then if b[1] == 0 then Err(MalformedPacket) else Ok((Digits(b[0] - 128, b[1], 0, 0), 2))
      else if |b| == 2 then Err(InsufficientData)
      else if b[2] < 128 then
        if b[2] == 0 then Err(MalformedPacket) else Ok((Digits(b[0] - 128, b[1] - 128, b[2], 0), 3))
      else if |b| == 3 then Err(InsufficientData)
      else if b[3] == 0 || b[3] >= 128 then Err(MalformedPacket)
      else Ok((Digits(b[0] - 128, b[1] - 128, b[2] - 128, b[3]), 4))
  {
    if |b| > 0 {
      var b1 := b[1..];
      assert Groups(b, 4) == if b[0] < 128 then Ok((b[0], 1)) else
        match Groups(b1, 3) case Ok((v, n)) => Ok((b[0] - 128 + 128 * v, n + 1)) case Err(e) => Err(e);
      if |b| > 1 {
        var b2 := b1[1..];
        assert b1[0] == b[1];
        assert Groups(b1, 3) == if b1[0] < 128 then Ok((b1[0], 1)) else
          match Groups(b2, 2) case Ok((v, n)) => Ok((b1[0] - 128 + 128 * v, n + 1)) case Err(e) => Err(e);
        if |b| > 2 {
          var b3 := b2[1..];
          assert b2[0] == b[2];
          assert Groups(b2, 2) == if b2[0] < 128 then Ok((b2[0], 1)) else
            match Groups(b3, 1) case Ok((v, n)) => Ok((b2[0] - 128 + 128 * v, n + 1)) case Err(e) => Err(e);
          if |b| > 3 {
            assert b3[0] == b[3];
            assert Groups(b3, 1) == if b3[0] < 128 then Ok((b3[0], 1)) else Err(MalformedPacket);
          }
        }
      }
    }
  }

  /** Integers go high byte first, and so do the lengths of fields. */
  function Prefixed(s: Bytes): Bytes
    requires |s| <= 65_535
  {
    [|s| / 256, |s| % 256] + s
  }

  lemma WrittenField(x: u16, s: Bytes)
    ensures U16Bytes(x) == [x / 256, x % 256]
    ensures |s| <= 65_535 ==> FieldBytes(s) == Prefixed(s)
  {
  }

  // -- fields -------------------------------------------------------------------------------------

  /** Text on the wire: UTF-8 without NUL. */
  predicate IsPlainText(s: Bytes) {
    ValidUtf8(s) && 0x00 !in s
  }

  /** A text that stops short, is no UTF-8 or has a NUL is an error, each its own. */
  lemma ReadText(b: Bytes)
    ensures |b| < 2 ==> TakeStr(b) == Err(MalformedPacket) && TakeBin(b) == Err(MalformedPacket)
    ensures |b| >= 2 ==>
              var high: nat, low: nat := b[0], b[1];
              var end := 2 + 256 * high + low;
              if |b| < end then TakeStr(b) == Err(MalformedPacket) && TakeBin(b) == Err(MalformedPacket)
              else
                && TakeBin(b) == Ok((b[2..end], b[end..]))
                && (!ValidUtf8(b[2..end]) ==> TakeStr(b) == Err(InvalidUtf8))
                && (ValidUtf8(b[2..end]) && 0x00 in b[2..end] ==> TakeStr(b) == Err(MalformedPacket))
                && (IsPlainText(b[2..end]) ==> TakeStr(b) == Ok((b[2..end], b[end..])))
  {
  }

  /** What may be written as text, and as a field. */
  lemma WritableText(s: Bytes)
    ensures StrError(s) == if 0x00 in s then Some(InvalidField(NullInUtf8String))
                           else if |s| > 65_535 then Some(EncodeError.PacketTooLarge(|s|, 65_535)) else None
    ensures BinError(s) == if |s| > 65_535 then Some(EncodeError.PacketTooLarge(|s|, 65_535)) else None
  {
  }

  // -- UTF-8 (RFC 3629) ---------------------------------------------------------------------------

  /** A Unicode scalar value: no surrogate, and not beyond the last plane. */
  predicate IsScalar(c: nat) {
    c < 0xD800 || 0xE000 <= c <= 0x10FFFF
  }

  function Utf8Bytes(c: nat): Bytes
    requires IsScalar(c)
  {
    if c < 0x80 then [c]
    else if c < 0x800 then [0xC0 + c / 64, 0x80 + c % 64]
    else if c < 0x1_0000 then [0xE0 + c / 4096, 0x80 + c / 64 % 64, 0x80 + c % 64]
    else [0xF0 + c / 262_144, 0x80 + c / 4096 % 64, 0x80 + c / 64 % 64, 0x80 + c % 64]
  }

  /** The scalar value of a well-formed character. */
  function ScalarOf(b: Bytes): (c: nat)
    requires CharLen(b) > 0
  {
    match CharLen(b)
    case 1 => b[0]
    case 2 => Sextets(0, 0, b[0] - 0xC0, b[1] - 0x80)
    case 3 => Sextets(0, b[0] - 0xE0, b[1] - 0x80, b[2] - 0x80)
    case _ => Sextets(b[0] - 0xF0, b[1] - 0x80, b[2] - 0x80, b[3] - 0x80)
  }

  function Sextets(a: nat, b: nat, c: nat, d: nat): nat {
    262_144 * a + 4096 * b + 64 * c + d
  }

  lemma CharIsScalar(b: Bytes)
    requires CharLen(b) > 0
    ensures IsScalar(ScalarOf(b)) && b[..CharLen(b)] == Utf8Bytes(ScalarOf(b))
  {
    match CharLen(b) {
      case 1 =>
      case 2 => SextetsBack(0, 0, b[0] - 0xC0, b[1] - 0x80);
      case 3 => SextetsBack(0, b[0] - 0xE0, b[1] - 0x80, b[2] - 0x80);
      case _ => SextetsBack(b[0] - 0xF0, b[1] - 0x80, b[2] - 0x80, b[3] - 0x80);
    }
  }

  lemma SextetsBack(a: nat, b: nat, c: nat, d: nat)
    requires b < 64 && c < 64 && d < 64
    ensures var x := Sextets(a, b, c, d);
            x % 64 == d && x / 64 % 64 == c && x / 4096 % 64 == b && x / 262_144 == a
            && x / 64 == 4096 * a + 64 * b + c && x / 4096 == 64 * a + b
  {
    var high := 64 * a + b;
    var higher := 64 * high + c;
    By64(higher, d);
    By64(high, c);
    By64(a, b);
    assert Sextets(a, b, c, d) == 64 * higher + d;
    TwoAndThree(Sextets(a, b, c, d));
  }

  lemma By64(q: nat, r: nat)
    requires r < 64
    ensures (64 * q + r) / 64 == q && (64 * q + r) % 64 == r
  {
  }

  lemma TwoAndThree(x: nat)
    ensures x / 64 / 64 == x / 4096 && x / 64 / 64 / 64 == x / 262_144
  {
  }

  lemma ScalarIsChar(c: nat, rest: Bytes)
    requires IsScalar(c)
    ensures CharLen(Utf8Bytes(c) + rest) == |Utf8Bytes(c)|
  {
    if 0x80 <= c < 0x800 {
      assert 2 <= c / 64 < 32;
    } else if 0x800 <= c < 0x1_0000 {
      ThreeBytes(c);
    } else if 0x1_0000 <= c {
      FourBytes(c);
    }
  }

  lemma ThreeBytes(c: nat)
    requires 0x800 <= c < 0x1_0000 && IsScalar(c)
    ensures c / 4096 < 16 && (c / 4096 == 0 ==> c / 64 % 64 >= 32) && (c / 4096 == 13 ==> c / 64 % 64 < 32)
  {
    assert c / 64 == 64 * (c / 4096) + c / 64 % 64;
  }

  lemma FourBytes(c: nat)
    requires 0x1_0000 <= c <= 0x10FFFF
    ensures c / 262_144 < 5 && (c / 262_144 == 0 ==> c / 4096 % 64 >= 16) && (c / 262_144 == 4 ==> c / 4096 % 64 < 16)
  {
    assert c / 4096 == 64 * (c / 262_144) + c / 4096 % 64;
  }

  function TextOf(scalars: seq<nat>): Bytes
    requires forall i | 0 <= i < |scalars| :: IsScalar(scalars[i])
  {
    if scalars == [] then [] else Utf8Bytes(scalars[0]) + TextOf(scalars[1..])
  }

  ghost predicate AreScalars(scalars: seq<nat>) {
    forall i | 0 <= i < |scalars| :: IsScalar(scalars[i])
  }

  /** Accepted text is the encoding of some scalar values, and every such encoding is accepted. */
  lemma {:induction false} AcceptedIsText(b: Bytes) returns (scalars: seq<nat>)
    requires ValidUtf8(b)
    ensures AreScalars(scalars) && TextOf(scalars) == b
    decreases |b|
  {
    if b == [] {
      scalars := [];
    } else {
      var n, c := CharLen(b), ScalarOf(b);
      CharIsScalar(b);
      var rest := AcceptedIsText(b[n..]);
      scalars := [c] + rest;
      TextOfMore(c, rest);
      assert b == b[..n] + b[n..];
    }
  }

  lemma TextOfMore(c: nat, rest: seq<nat>)
    requires IsScalar(c) && AreScalars(rest)
    ensures AreScalars([c] + rest) && TextOf([c] + rest) == Utf8Bytes(c) + TextOf(rest)
  {
    assert ([c] + rest)[1..] == rest;
  }

  lemma {:induction false} TextIsAccepted(scalars: seq<nat>)
    requires AreScalars(scalars)
    ensures ValidUtf8(TextOf(scalars))
    decreases |scalars|
  {
    if scalars != [] {
      var first, rest := Utf8Bytes(scalars[0]), TextOf(scalars[1..]);
      TextIsAccepted(scalars[1..]);
      ScalarIsChar(scalars[0], rest);
      assert (first + rest)[|first|..] == rest;
    }
  }

  lemma ValidUtf8Iff(b: Bytes)
    ensures ValidUtf8(b) <==> exists scalars :: AreScalars(scalars) && TextOf(scalars) == b
  {
    if ValidUtf8(b) {
      var scalars := AcceptedIsText(b);
    }
    if scalars :| AreScalars(scalars) && TextOf(scalars) == b {
      TextIsAccepted(scalars);
    }
  }

  // -- topics -------------------------------------------------------------------------------------

  /** `+` and `#` are the wildcards. */
  lemma WildcardsAre(s: Bytes)
    ensures HasWildcard(s) <==> 0x2B in s || 0x23 in s
  {
  }

  /** `#` ends a filter and fills its level, `+` fills a level; levels are between slashes. */
  predicate IsPlainFilter(s: Bytes) {
    && s != []
    && (forall i | 0 <= i < |s| && s[i] == 0x23 :: i == |s| - 1 && (i == 0 || s[i - 1] == 0x2F))
    && (forall i | 0 <= i < |s| && s[i] == 0x2B :: (i == 0 || s[i - 1] == 0x2F) && (i == |s| - 1 || s[i + 1] == 0x2F))
  }

  lemma FiltersAre(s: Bytes)
    ensures IsValidFilter(s) <==> IsPlainFilter(s)
  {
  }

  // -- frames -------------------------------------------------------------------------------------

  /**
   * The front of a stream. Nothing is known without a first byte and a length; then a packet beyond the
   * limit is refused before it is complete, and any other waits for its last byte.
   */
  lemma FrontOfStream(b: Bytes, max: nat)
    ensures b == [] ==> NextFrame(b, max) == Incomplete
    ensures b != [] ==>
              match VbiDecode(b[1..])
              case Err(e) => NextFrame(b, max) == if e == InsufficientData then Incomplete else Broken(e)
              case Ok((remaining, n)) =>
                && (NextFrame(b, max) == Broken(DecodeError.PacketTooLarge(1 + n + remaining, max))
                    <==> 1 + n + remaining > max)
                && (NextFrame(b, max) == Next.Complete(1 + n + remaining)
                    <==> 1 + n + remaining <= max && 1 + n + remaining <= |b|)
                && (NextFrame(b, max) == Incomplete <==> |b| < 1 + n + remaining <= max)
  {
  }

  /** The buffer takes the largest packet and five bytes more; what is too much is not taken at all. */
  lemma FedBytes<P>(t: Trace<P>, data: Bytes, max: nat, parse: Parser<P>)
    ensures var u := t.After(Call.Feed(data), max, parse);
            && (|t.pending| + |data| <= max + 5 ==> u.pending == t.pending + data && u.fed == t.fed + data)
            && (|t.pending| + |data| > max + 5 ==> u == t)
            && u.results == t.results && u.broken == t.broken
  {
  }

  /** A complete frame goes to the decoder of one packet; that more data were needed is an error by then. */
  lemma DecodedFrame<P>(parse: Parser<P>, frame: Bytes)
    ensures parse(frame) == Err(InsufficientData) ==> DecodeFrame(parse, frame) == Err(MalformedPacket)
    ensures parse(frame) != Err(InsufficientData) ==> DecodeFrame(parse, frame) == parse(frame)
  {
  }

  /** A packet whose header is good and whose bytes are all there is what its body is read as. */
  lemma CompletePacket<P>(b: Bytes, n: nat, k: nat, check: u8 -> Option<DecodeError>, isBare: u8 -> bool,
                          parse: (u8, Bytes) -> Result<P, DecodeError>)
    requires b != [] && check(b[0]).None? && VbiDecode(b[1..]) == Ok((n, k)) && 1 + k + n <= |b|
    ensures Unframed(b, check, isBare, parse)
            == if isBare(b[0]) && n != 0 then Err(MalformedPacket)
               else match parse(b[0], b[1 + k..1 + k + n])
                    case Ok(p) => Ok((p, 1 + k + n))
                    case Err(e) => Err(e)
  {
  }
}
