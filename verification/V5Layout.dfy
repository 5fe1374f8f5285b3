/**
 * The properties of MQTT v5.0 and its PUBLISH, CONNECT and SUBSCRIBE byte by byte (sections 2.2.2 and 3
 * of MQTT v5.0), with every constant written out: what is sent, what may be sent, and what is read.
 */
module V5Layout {
  import opened Prelude
  import opened Vbi
  import opened Literals
  import opened V5Property
  import opened V5Packets

  // -- properties ---------------------------------------------------------------------------------

  function Short(x: u16): Bytes {
    [x / 256, x % 256]
  }

  function Long(x: u32): Bytes {
    [x / 16_777_216, x / 65_536 % 256, x / 256 % 256, x % 256]
  }

  /** The value can be written with its length or in its range. */
  predicate HasForm(p: Property) {
    match p
    case ContentType(s) => |s| <= 65_535
    case ResponseTopic(s) => |s| <= 65_535
    case CorrelationData(b) => |b| <= 65_535
    case SubscriptionIdentifier(v) => v <= 268_435_455
    case AssignedClientIdentifier(s) => |s| <= 65_535
    case AuthenticationMethod(s) => |s| <= 65_535
    case AuthenticationData(b) => |b| <= 65_535
    case ResponseInformation(s) => |s| <= 65_535
    case ServerReference(s) => |s| <= 65_535
    case ReasonString(s) => |s| <= 65_535
    case UserProperty(k, s) => |k| <= 65_535 && |s| <= 65_535
    case _ => true
  }

  /** The 27 properties of table 2-4, each with its identifier and the form of its value. */
  function PropertyLayout(p: Property): Bytes
    requires HasForm(p)
  {
    match p
    case PayloadFormatIndicator(x) => [0x01, x]
    case MessageExpiryInterval(x) => [0x02] + Long(x)
    case ContentType(s) => [0x03] + Prefixed(s)
    case ResponseTopic(s) => [0x08] + Prefixed(s)
    case CorrelationData(b) => [0x09] + Prefixed(b)
    case SubscriptionIdentifier(v) => [0x0B] + LengthBytes(v)
    case SessionExpiryInterval(x) => [0x11] + Long(x)
    case AssignedClientIdentifier(s) => [0x12] + Prefixed(s)
    case ServerKeepAlive(x) => [0x13] + Short(x)
    case AuthenticationMethod(s) => [0x15] + Prefixed(s)
    case AuthenticationData(b) => [0x16] + Prefixed(b)
    case RequestProblemInformation(x) => [0x17, x]
    case WillDelayInterval(x) => [0x18] + Long(x)
    case RequestResponseInformation(x) => [0x19, x]
    case ResponseInformation(s) => [0x1A] + Prefixed(s)
    case ServerReference(s) => [0x1C] + Prefixed(s)
    case ReasonString(s) => [0x1F] + Prefixed(s)
    case ReceiveMaximum(x) => [0x21] + Short(x)
    case TopicAliasMaximum(x) => [0x22] + Short(x)
    case TopicAlias(x) => [0x23] + Short(x)
    case MaximumQoS(x) => [0x24, x]
    case RetainAvailable(x) => [0x25, x]
    case UserProperty(k, s) => [0x26] + (Prefixed(k) + Prefixed(s))
    case MaximumPacketSize(x) => [0x27] + Long(x)
    case WildcardSubscriptionAvailable(x) => [0x28, x]
    case SubscriptionIdentifierAvailable(x) => [0x29, x]
    case SharedSubscriptionAvailable(x) => [0x2A, x]
  }

  lemma LongBytes(x: u32)
    ensures U32Bytes(x) == Long(x)
  {
    assert x / 256 / 256 == x / 65_536 && x / 256 / 256 / 256 == x / 16_777_216;
  }

  /** What a value adds to its identifier. */
  lemma ValueLayout(v: Value, rest: Bytes)
    ensures match v
            case One(x) => ValueThen(v, rest) == [x] + rest
            case Two(x) => ValueThen(v, rest) == Short(x) + rest
            case Four(x) => ValueThen(v, rest) == Long(x) + rest
            case Var(n) => n <= 268_435_455 ==> ValueThen(v, rest) == LengthBytes(n) + rest
            case Str(s) => |s| <= 65_535 ==> ValueThen(v, rest) == Prefixed(s) + rest
            case Bin(b) => |b| <= 65_535 ==> ValueThen(v, rest) == Prefixed(b) + rest
            case Pair(k, s) => |k| <= 65_535 && |s| <= 65_535
                               ==> ValueThen(v, rest) == Prefixed(k) + Prefixed(s) + rest
  {
    match v {
      case Four(x) => LongBytes(x);
      case Var(n) =>
        if n <= 268_435_455 {
          WrittenLength(n);
        }
      case Str(s) => WrittenField(0, s);
      case Bin(b) => WrittenField(0, b);
      case Pair(k, s) =>
        WrittenField(0, k);
        WrittenField(0, s);
      case One(_) =>
      case Two(_) =>
    }
  }

  predicate IsByteProperty(p: Property) {
    || p.PayloadFormatIndicator? || p.RequestProblemInformation? || p.RequestResponseInformation? || p.MaximumQoS?
    || p.RetainAvailable? || p.WildcardSubscriptionAvailable? || p.SubscriptionIdentifierAvailable?
    || p.SharedSubscriptionAvailable?
  }

  predicate IsIntegerProperty(p: Property) {
    || p.ServerKeepAlive? || p.ReceiveMaximum? || p.TopicAliasMaximum? || p.TopicAlias?
    || p.MessageExpiryInterval? || p.SessionExpiryInterval? || p.WillDelayInterval? || p.MaximumPacketSize?
    || p.SubscriptionIdentifier?
  }

  lemma BytePropertyIs(p: Property, rest: Bytes)
    requires IsByteProperty(p)
    ensures PropertyThen(p, rest) == PropertyLayout(p) + rest
  {
    assert ValueOf(p) == One(p.byte);
    assert PropertyLayout(p) == [Identifier(p)] + [p.byte];
    Regrouped([Identifier(p)], [p.byte], rest);
  }

  lemma IntegerPropertyIs(p: Property, rest: Bytes)
    requires HasForm(p) && IsIntegerProperty(p)
    ensures PropertyThen(p, rest) == PropertyLayout(p) + rest
  {
    ValueLayout(ValueOf(p), rest);
  }

  lemma TextPropertyIs(p: Property, rest: Bytes)
    requires HasForm(p) && !IsByteProperty(p) && !IsIntegerProperty(p) && !p.UserProperty?
    ensures PropertyThen(p, rest) == PropertyLayout(p) + rest
  {
    var text := if p.CorrelationData? || p.AuthenticationData? then p.data else p.text;
    ValueLayout(ValueOf(p), rest);
    assert ValueThen(ValueOf(p), rest) == Prefixed(text) + rest;
    assert PropertyLayout(p) == [Identifier(p)] + Prefixed(text);
    Regrouped([Identifier(p)], Prefixed(text), rest);
  }

  lemma Regrouped(a: Bytes, b: Bytes, c: Bytes)
    ensures a + (b + c) == a + b + c
  {
  }

  lemma PairPropertyIs(p: Property, rest: Bytes)
    requires HasForm(p) && p.UserProperty?
    ensures PropertyThen(p, rest) == PropertyLayout(p) + rest
  {
    ValueLayout(ValueOf(p), rest);
  }

  /** What is written for each property, byte by byte. */
  lemma PropertyIs(p: Property, rest: Bytes)
    requires HasForm(p)
    ensures PropertyThen(p, rest) == PropertyLayout(p) + rest
  {
    if IsByteProperty(p) {
      BytePropertyIs(p, rest);
    } else if IsIntegerProperty(p) {
      IntegerPropertyIs(p, rest);
    } else if p.UserProperty? {
      PairPropertyIs(p, rest);
    } else {
      TextPropertyIs(p, rest);
    }
  }

  /** The values of section 2.2.2.2 that are no errors. */
  predicate IsLawfulProperty(p: Property) {
    match p
    case PayloadFormatIndicator(x) => x <= 1
    case RequestProblemInformation(x) => x <= 1
    case RequestResponseInformation(x) => x <= 1
    case MaximumQoS(x) => x <= 1
    case RetainAvailable(x) => x <= 1
    case WildcardSubscriptionAvailable(x) => x <= 1
    case SubscriptionIdentifierAvailable(x) => x <= 1
    case SharedSubscriptionAvailable(x) => x <= 1
    case ReceiveMaximum(x) => x != 0
    case TopicAlias(x) => x != 0
    case MaximumPacketSize(x) => x != 0
    case SubscriptionIdentifier(x) => x != 0
    case ResponseTopic(s) => s != [] && 0x2B !in s && 0x23 !in s
    case _ => true
  }

  predicate IsPrintable(s: Bytes) {
    |s| <= 65_535 && 0x00 !in s
  }

  /** Every text of the property may be written. */
  predicate HasPrintableTexts(p: Property) {
    match p
    case ContentType(s) => IsPrintable(s)
    case ResponseTopic(s) => IsPrintable(s)
    case AssignedClientIdentifier(s) => IsPrintable(s)
    case AuthenticationMethod(s) => IsPrintable(s)
    case ResponseInformation(s) => IsPrintable(s)
    case ServerReference(s) => IsPrintable(s)
    case ReasonString(s) => IsPrintable(s)
    case UserProperty(k, s) => IsPrintable(k) && IsPrintable(s)
    case _ => HasForm(p)
  }

  /** Exactly the properties that may be written. */
  lemma PropertyMayBeWritten(p: Property)
    ensures PropertyFault(p).None? <==> IsLawfulProperty(p) && HasPrintableTexts(p)
    ensures HasPrintableTexts(p) ==> HasForm(p)
  {
    ValueIsLawful(p);
    TextsArePrintable(p);
  }

  lemma ValueIsLawful(p: Property)
    ensures ValueCheck(p).None? <==> IsLawfulProperty(p)
  {
  }

  lemma TextsArePrintable(p: Property)
    ensures ValueFault(ValueOf(p)).None? <==> HasPrintableTexts(p)
  {
  }

  /** What a property outside of its range is refused with. */
  lemma RefusedProperty(p: Property)
    ensures match p
            case ResponseTopic(s) =>
              && (s == [] ==> PropertyFault(p) == Some(InvalidField(EmptyTopicName)))
              && (s != [] && (0x2B in s || 0x23 in s) ==> PropertyFault(p) == Some(InvalidField(WildcardInTopicName)))
            case _ => !IsLawfulProperty(p) ==> PropertyFault(p) == Some(InvalidField(InvalidPropertyValue))
  {
  }

  /** The bytes of a property are read as that property, and nothing else is. */
  lemma PropertyIsRead(p: Property, rest: Bytes)
    requires IsLawfulProperty(p) && HasPrintableTexts(p)
    ensures TakeProperty(PropertyLayout(p) + rest) == Ok((p, rest))
  {
    PropertyMayBeWritten(p);
    PropertyIs(p, rest);
    PropertyReadsBack(p, rest);
  }

  lemma ReadPropertyIs(b: Bytes)
    requires TakeProperty(b).Ok?
    ensures var (p, rest) := TakeProperty(b).value;
            IsLawfulProperty(p) && HasPrintableTexts(p) && b == PropertyLayout(p) + rest
  {
    var (p, rest) := TakeProperty(b).value;
    PropertyExact(b);
    PropertyMayBeWritten(p);
    PropertyIs(p, rest);
  }

  // -- lists of properties ------------------------------------------------------------------------

  ghost predicate HaveForm(ps: Properties) {
    forall i | 0 <= i < |ps| :: HasForm(ps[i])
  }

  function ListLayout(ps: Properties): Bytes
    requires forall i | 0 <= i < |ps| :: HasForm(ps[i])
  {
    if ps == [] then [] else PropertyLayout(ps[0]) + ListLayout(ps[1..])
  }

  lemma {:induction false} ListIs(ps: Properties)
    requires HaveForm(ps)
    ensures Payload(ps) == ListLayout(ps)
    decreases |ps|
  {
    if ps != [] {
      PropertyIs(ps[0], Payload(ps[1..]));
      ListIs(ps[1..]);
    }
  }

  /** A list behind its length. */
  lemma PropertiesAre(ps: Properties, rest: Bytes)
    requires HaveForm(ps) && |ListLayout(ps)| <= 268_435_455
    ensures PropertiesThen(ps, rest) == LengthBytes(|ListLayout(ps)|) + (ListLayout(ps) + rest)
  {
    ListIs(ps);
    WrittenLength(|ListLayout(ps)|);
  }

  /** The constructors of the property, so that two of a kind can be told. */
  function Kind(p: Property): u8 {
    match p
    case PayloadFormatIndicator(_) => 1 case MessageExpiryInterval(_) => 2 case ContentType(_) => 3
    case ResponseTopic(_) => 8 case CorrelationData(_) => 9 case SubscriptionIdentifier(_) => 11
    case SessionExpiryInterval(_) => 17 case AssignedClientIdentifier(_) => 18 case ServerKeepAlive(_) => 19
    case AuthenticationMethod(_) => 21 case AuthenticationData(_) => 22 case RequestProblemInformation(_) => 23
    case WillDelayInterval(_) => 24 case RequestResponseInformation(_) => 25 case ResponseInformation(_) => 26
    case ServerReference(_) => 28 case ReasonString(_) => 31 case ReceiveMaximum(_) => 33
    case TopicAliasMaximum(_) => 34 case TopicAlias(_) => 35 case MaximumQoS(_) => 36 case RetainAvailable(_) => 37
    case UserProperty(_, _) => 38 case MaximumPacketSize(_) => 39 case WildcardSubscriptionAvailable(_) => 40
    case SubscriptionIdentifierAvailable(_) => 41 case SharedSubscriptionAvailable(_) => 42
  }

  /** Only User Properties may be repeated, and Subscription Identifiers in a PUBLISH. */
  predicate NoneRepeated(ps: Properties, inPublish: bool) {
    forall i, j | 0 <= i < j < |ps| && Kind(ps[i]) == Kind(ps[j]) ::
      ps[i].UserProperty? || (inPublish && ps[i].SubscriptionIdentifier?)
  }

  lemma NoneRepeatedIs(ps: Properties, inPublish: bool)
    ensures NoDuplicates(ps, inPublish, {}) <==> NoneRepeated(ps, inPublish)
  {
    NoDuplicatesIff(ps, inPublish, {});
    forall i | 0 <= i < |ps|
      ensures Identifier(ps[i]) == Kind(ps[i])
    {
      KindIs(ps[i]);
    }
  }

  // -- the properties of each packet --------------------------------------------------------------

  predicate IsConnectProperty(p: Property) {
    || p.SessionExpiryInterval? || p.ReceiveMaximum? || p.MaximumPacketSize? || p.TopicAliasMaximum?
    || p.RequestResponseInformation? || p.RequestProblemInformation? || p.UserProperty?
    || p.AuthenticationMethod? || p.AuthenticationData?
  }

  predicate IsWillProperty(p: Property) {
    || p.WillDelayInterval? || p.PayloadFormatIndicator? || p.MessageExpiryInterval? || p.ContentType?
    || p.ResponseTopic? || p.CorrelationData? || p.UserProperty?
  }

  predicate IsPublishProperty(p: Property) {
    || p.PayloadFormatIndicator? || p.MessageExpiryInterval? || p.TopicAlias? || p.ResponseTopic?
    || p.CorrelationData? || p.UserProperty? || p.SubscriptionIdentifier? || p.ContentType?
  }

  predicate IsSubscribeProperty(p: Property) {
    p.SubscriptionIdentifier? || p.UserProperty?
  }

  lemma KindIs(p: Property)
    ensures Identifier(p) == Kind(p)
  {
  }

  lemma IdentifiersOfPublish(p: Property)
    ensures Identifier(p) in PUBLISH_IDS <==> IsPublishProperty(p)
    ensures Identifier(p) in SUBSCRIBE_IDS <==> IsSubscribeProperty(p)
    ensures Identifier(p) == SUBSCRIPTION_ID <==> p.SubscriptionIdentifier?
    ensures Identifier(p) == 0x23 <==> p.TopicAlias?
  {
  }

  lemma IdentifiersOfConnect(p: Property)
    ensures Identifier(p) in CONNECT_IDS <==> IsConnectProperty(p)
    ensures Identifier(p) in WILL_IDS <==> IsWillProperty(p)
    ensures (Identifier(p) == 0x16 <==> p.AuthenticationData?) && (Identifier(p) == 0x15 <==> p.AuthenticationMethod?)
  {
  }

  /** The properties of sections 3.3.2.3 and 3.8.2.1. */
  lemma PropertiesOfPublish(ps: Properties)
    ensures Within(ps, PUBLISH_IDS) <==> forall i | 0 <= i < |ps| :: IsPublishProperty(ps[i])
    ensures Within(ps, SUBSCRIBE_IDS) <==> forall i | 0 <= i < |ps| :: IsSubscribeProperty(ps[i])
    ensures ValidForClientPublish(ps) <==>
            forall i | 0 <= i < |ps| :: IsPublishProperty(ps[i]) && !ps[i].SubscriptionIdentifier?
    ensures HasIdentifier(ps, 0x23) <==> exists i :: 0 <= i < |ps| && ps[i].TopicAlias?
  {
    forall i | 0 <= i < |ps|
      ensures Identifier(ps[i]) in PUBLISH_IDS <==> IsPublishProperty(ps[i])
      ensures Identifier(ps[i]) in SUBSCRIBE_IDS <==> IsSubscribeProperty(ps[i])
      ensures Identifier(ps[i]) == SUBSCRIPTION_ID <==> ps[i].SubscriptionIdentifier?
      ensures Identifier(ps[i]) == 0x23 <==> ps[i].TopicAlias?
    {
      IdentifiersOfPublish(ps[i]);
    }
  }

  /** The properties of sections 3.1.2.11 and 3.1.3.2. */
  lemma PropertiesOfConnect(ps: Properties)
    ensures Within(ps, WILL_IDS) <==> forall i | 0 <= i < |ps| :: IsWillProperty(ps[i])
    ensures ValidForConnect(ps) <==>
            && (forall i | 0 <= i < |ps| :: IsConnectProperty(ps[i]))
            && ((exists i :: 0 <= i < |ps| && ps[i].AuthenticationData?) ==>
                  exists i :: 0 <= i < |ps| && ps[i].AuthenticationMethod?)
  {
    forall i | 0 <= i < |ps|
      ensures Identifier(ps[i]) in CONNECT_IDS <==> IsConnectProperty(ps[i])
      ensures Identifier(ps[i]) in WILL_IDS <==> IsWillProperty(ps[i])
      ensures Identifier(ps[i]) == 0x16 <==> ps[i].AuthenticationData?
      ensures Identifier(ps[i]) == 0x15 <==> ps[i].AuthenticationMethod?
    {
      IdentifiersOfConnect(ps[i]);
    }
  }
}
