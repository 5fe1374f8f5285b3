/** From the packets a server encodes to the packets a client's decoder yields (MQTT v3.1.1). */
module EndToEnd {
  import opened Prelude
  import opened Vbi
  import opened Fields
  import opened HeaderFlags
  import opened V311
  import opened V311RoundTrip
  import opened Decoding

  /** The packets that travel from the server to the client. */
  predicate FromServer(p: Packet) {
    p.ConnAck? || p.Publish? || p.Ack? || p.SubAck? || (p.Bare? && p.bareKind.PingResp?)
  }

  /** `IncomingPacket::decode`: the other direction is refused by type before anything else. */
  function DecodeIncoming(b: Bytes): Result<(Packet, nat), DecodeError> {
    if b == [] then Err(InsufficientData)
    else if b[0] / 16 in {1, 8, 10, 12, 14} then Err(UnexpectedPacket(b[0] / 16 * 16))
    else V311.Decode(b)
  }

  function ParseIncoming(b: Bytes): Result<Packet, DecodeError> {
    match DecodeIncoming(b) case Ok((p, _)) => Ok(p) case Err(e) => Err(e)
  }

  lemma ServerType(p: Packet)
    requires p.Publish? ==> !(p.qos == AtMostOnce && p.dup)
    ensures FirstByte(p) / 16 in {1, 8, 10, 12, 14} <==> !FromServer(p)
  {
    if p.Publish? {
      PublishFirstRoundTrip(p.dup, p.qos, p.retain);
    }
  }

  /** A client accepts a packet if and only if it travels in its direction. */
  lemma AcceptsServerOnly(p: Packet, rest: Bytes)
    requires Encodable(p)
    ensures DecodeIncoming(Wire(p) + rest)
            == if FromServer(p) then Ok((p, |Wire(p)|)) else Err(UnexpectedPacket(FirstByte(p) / 16 * 16))
  {
    ServerType(p);
    DecodesWire(p, rest);
    assert (Wire(p) + rest)[0] == FirstByte(p);
  }

  /** The packets, one after another. */
  function Stream(ps: seq<Packet>): Bytes {
    if ps == [] then [] else Wire(ps[0]) + Stream(ps[1..])
  }

  ghost predicate Sendable(ps: seq<Packet>, max: nat) {
    forall i | 0 <= i < |ps| :: Encodable(ps[i]) && |Wire(ps[i])| <= max
  }

  /** What a client makes of a packet. */
  function Received(p: Packet): Result<Packet, DecodeError> {
    if FromServer(p) then Ok(p) else Err(UnexpectedPacket(FirstByte(p) / 16 * 16))
  }

  lemma NextIsFrame(first: u8, body: Bytes, rest: Bytes, max: nat)
    requires |body| <= MAX_VBI && |Frame(first, body)| <= max
    ensures NextFrame(Frame(first, body) + rest, max) == Complete(|Frame(first, body)|)
  {
    assert (Frame(first, body) + rest)[1..] == VbiBytes(|body|) + (body + rest);
    VbiRoundTrip(|body|, body + rest);
  }

  lemma NextIsWire(p: Packet, rest: Bytes, max: nat)
    requires Encodable(p) && |Wire(p)| <= max
    ensures NextFrame(Wire(p) + rest, max) == Complete(|Wire(p)|)
  {
    NextIsFrame(FirstByte(p), Body(p), rest, max);
  }

  lemma FrontIsReceived(p: Packet, rest: Bytes, max: nat)
    requires Encodable(p) && |Wire(p)| <= max
    ensures var b := Wire(p) + rest;
            && Split(b, max, ParseIncoming) == [Received(p)] + Split(rest, max, ParseIncoming)
            && Breaks(b, max) == Breaks(rest, max) && Leftover(b, max) == Leftover(rest, max)
  {
    NextIsWire(p, rest, max);
    AcceptsServerOnly(p, []);
    assert Wire(p) + [] == Wire(p);
    var b, n := Wire(p) + rest, |Wire(p)|;
    assert b[..n] == Wire(p) && b[n..] == rest;
  }

  function ReceivedAll(ps: seq<Packet>): seq<Result<Packet, DecodeError>> {
    if ps == [] then [] else [Received(ps[0])] + ReceivedAll(ps[1..])
  }

  lemma {:induction false} StreamSplits(ps: seq<Packet>, max: nat)
    requires Sendable(ps, max)
    ensures Split(Stream(ps), max, ParseIncoming) == ReceivedAll(ps)
    ensures !Breaks(Stream(ps), max) && Leftover(Stream(ps), max) == []
    decreases |ps|
  {
    if ps != [] {
      FrontIsReceived(ps[0], Stream(ps[1..]), max);
      StreamSplits(ps[1..], max);
    }
  }

  /**
   * End to end: packets encoded one after another, fed to a decoder in any pieces with calls of
   * `decode` anywhere between them, come back in order and unchanged once the decoder asks for more;
   * packets of the wrong direction are reported in their place and lose nothing that follows.
   */
  lemma StreamArrives(ps: seq<Packet>, max: nat, calls: seq<Call>)
    requires Sendable(ps, max)
    requires var t := RunCalls(Trace([], [], [], false), calls, max, ParseIncoming);
             t.fed == Stream(ps) && NextFrame(t.pending, max).Incomplete?
    ensures var t := RunCalls(Trace([], [], [], false), calls, max, ParseIncoming);
            t.results == ReceivedAll(ps) && t.pending == []
  {
    var t := RunCalls(Trace([], [], [], false), calls, max, ParseIncoming);
    RunStaysFaithful(Trace([], [], [], false), calls, max, ParseIncoming);
    StreamSplits(ps, max);
    assert Split(t.pending, max, ParseIncoming) == [];
  }
}
