/** The flag bits shared by both versions: the first byte of PUBLISH and the CONNECT flags. */
module HeaderFlags {
  import opened Prelude

  function QoSByte(qos: QoS): (b: u8)
    ensures b <= 2 && QoSOf(b) == Some(qos)
  {
    match qos case AtMostOnce => 0 case AtLeastOnce => 1 case ExactlyOnce => 2
  }

  function Bit(isSet: bool, weight: u8): u8 {
    if isSet then weight else 0
  }

  // -- PUBLISH --------------------------------------------------------------------------------

  /** `qos` is as sent, and may be 3. */
  datatype PublishFlags = PublishFlags(dup: bool, qos: nat, retain: bool)

  function PublishFirst(dup: bool, qos: QoS, retain: bool): u8 {
    0x30 + Bit(dup, 8) + 2 * QoSByte(qos) + Bit(retain, 1)
  }

  function PublishFlagsOf(first: u8): PublishFlags {
    PublishFlags(first / 8 % 2 == 1, first / 2 % 4, first % 2 == 1)
  }

  lemma PublishFirstRoundTrip(dup: bool, qos: QoS, retain: bool)
    ensures var first := PublishFirst(dup, qos, retain);
            first / 16 == 3 && PublishFlagsOf(first) == PublishFlags(dup, QoSByte(qos), retain)
  {
  }

  lemma PublishFirstExact(first: u8, qos: QoS)
    requires first / 16 == 3 && QoSOf(PublishFlagsOf(first).qos) == Some(qos)
    ensures PublishFirst(PublishFlagsOf(first).dup, qos, PublishFlagsOf(first).retain) == first
  {
    assert first == 16 * (first / 16) + 8 * (first / 8 % 2) + 2 * (first / 2 % 4) + first % 2;
  }

  // -- CONNECT --------------------------------------------------------------------------------

  /** The bits of the CONNECT flags: `willQos` is as sent, and may be 3. */
  datatype FlagSet = FlagSet(
    reserved: bool, clean: bool, will: bool, willQos: nat, willRetain: bool, password: bool, username: bool)

  /** The flags as they are sent. */
  function FlagsByte(f: FlagSet): u8
    requires f.willQos < 4
  {
    Bit(f.reserved, 1) + Bit(f.clean, 2) + Bit(f.will, 4) + 8 * f.willQos + Bit(f.willRetain, 0x20)
    + Bit(f.password, 0x40) + Bit(f.username, 0x80)
  }

  /** Shifting the flags to the right, bit by bit. */
  function FlagsOf(flags: u8): (f: FlagSet)
    ensures f.willQos < 4
  {
    var f1 := flags / 2;
    var f2 := f1 / 2;
    var f3 := f2 / 2;
    var f5 := f3 / 4;
    var f6 := f5 / 2;
    FlagSet(flags % 2 == 1, f1 % 2 == 1, f2 % 2 == 1, f3 % 4, f5 % 2 == 1, f6 % 2 == 1, f6 / 2 == 1)
  }

  /** The flags as a nest of digits. */
  function Packed(f: FlagSet): nat {
    Bit(f.reserved, 1) + 2 * (Bit(f.clean, 1) + 2 * (Bit(f.will, 1) + 2 * (f.willQos + 4 * (
      Bit(f.willRetain, 1) + 2 * (Bit(f.password, 1) + 2 * Bit(f.username, 1))))))
  }

  lemma PackedIsByte(f: FlagSet)
    requires f.willQos < 4
    ensures Packed(f) == FlagsByte(f)
  {
  }

  lemma LowBit(x: nat)
    ensures x == Bit(x % 2 == 1, 1) + 2 * (x / 2)
  {
  }

  lemma LowBits(x: nat)
    ensures x == Bit(x % 2 == 1, 1) + 2 * (Bit(x / 2 % 2 == 1, 1) + 2 * (
                   Bit(x / 2 / 2 % 2 == 1, 1) + 2 * (x / 2 / 2 / 2)))
    ensures x < 0x100 ==> x / 2 / 2 / 2 < 32
  {
    LowBit(x);
    LowBit(x / 2);
    LowBit(x / 2 / 2);
  }

  lemma HighBits(x: nat)
    requires x < 32
    ensures x == x % 4 + 4 * (Bit(x / 4 % 2 == 1, 1) + 2 * (
                   Bit(x / 4 / 2 % 2 == 1, 1) + 2 * Bit(x / 4 / 2 / 2 == 1, 1)))
  {
    assert x == x % 4 + 4 * (x / 4);
    LowBit(x / 4);
    LowBit(x / 4 / 2);
  }

  lemma PackedExact(flags: u8)
    ensures Packed(FlagsOf(flags)) == flags
  {
    LowBits(flags);
    HighBits(flags / 2 / 2 / 2);
  }

  /** A byte is the sum of its flags. */
  lemma FlagsByteExact(flags: u8)
    ensures FlagsByte(FlagsOf(flags)) == flags
  {
    PackedExact(flags);
    PackedIsByte(FlagsOf(flags));
  }

  lemma ShiftOne(x: nat, low: bool, high: nat)
    requires x == Bit(low, 1) + 2 * high
    ensures (x % 2 == 1) == low && x / 2 == high
  {
  }

  lemma ShiftTwo(x: nat, low: nat, high: nat)
    requires low < 4 && x == low + 4 * high
    ensures x % 4 == low && x / 4 == high
  {
  }

  lemma FlagsByteRoundTrip(f: FlagSet)
    requires f.willQos < 4
    ensures FlagsOf(FlagsByte(f)) == f
  {
    PackedIsByte(f);
    var f6 := Bit(f.password, 1) + 2 * Bit(f.username, 1);
    var f5 := Bit(f.willRetain, 1) + 2 * f6;
    var f3 := f.willQos + 4 * f5;
    var f2 := Bit(f.will, 1) + 2 * f3;
    var f1 := Bit(f.clean, 1) + 2 * f2;
    ShiftOne(Packed(f), f.reserved, f1);
    ShiftOne(f1, f.clean, f2);
    ShiftOne(f2, f.will, f3);
    ShiftTwo(f3, f.willQos, f5);
    ShiftOne(f5, f.willRetain, f6);
    ShiftOne(f6, f.password, Bit(f.username, 1));
  }
}
