/**
 * The streaming decoder (src/decoder.rs): a phase machine over a growing buffer with a moving
 * offset, proved against the simple function that splits a byte string into frames. The decoder of
 * one complete frame is a parameter.
 */
module Decoding {
  import opened Prelude
  import opened Vbi
  import opened Fields

  const MAX_PACKET_OVERHEAD := 5

  // -- frames ---------------------------------------------------------------------------------

  datatype Next = Incomplete | Broken(error: DecodeError) | Complete(length: nat)

  /** What stands at the front of `b`. */
  function NextFrame(b: Bytes, max: nat): (r: Next)
    ensures r.Complete? ==> 2 <= r.length <= |b|
  {
    if b == [] then Incomplete
    else match VbiDecode(b[1..])
      case Err(InsufficientData) => Incomplete
      case Err(e) => Broken(e)
      case Ok((remaining, n)) =>
        var total := 1 + n + remaining;
        if total > max then Broken(DecodeError.PacketTooLarge(total, max))
        else if |b| < total then Incomplete
        else Complete(total)
  }

  type Parser<!P> = Bytes -> Result<P, DecodeError>

  /** `decode_packet`: a complete frame has no more data to wait for. */
  function DecodeFrame<P>(parse: Parser<P>, frame: Bytes): Result<P, DecodeError> {
    match parse(frame)
    case Ok(p) => Ok(p)
    case Err(e) => Err(MalformedIfInsufficient(e))
  }

  /** The bytes behind the front: a framing error takes everything with it. */
  function AfterFront(b: Bytes, max: nat): Bytes {
    match NextFrame(b, max)
    case Incomplete => b
    case Broken(_) => []
    case Complete(n) => b[n..]
  }

  /** The results of all complete frames of `b`, up to and including the first framing error. */
  function Split<P>(b: Bytes, max: nat, parse: Parser<P>): seq<Result<P, DecodeError>>
    decreases |b|
  {
    match NextFrame(b, max)
    case Incomplete => []
    case Broken(e) => [Err(e)]
    case Complete(n) => [DecodeFrame(parse, b[..n])] + Split(b[n..], max, parse)
  }

  /** What follows the complete frames; nothing when the framing is broken. */
  function Leftover(b: Bytes, max: nat): Bytes
    decreases |b|
  {
    match NextFrame(b, max)
    case Incomplete => b
    case Broken(_) => []
    case Complete(n) => Leftover(b[n..], max)
  }

  predicate Breaks(b: Bytes, max: nat)
    decreases |b|
  {
    match NextFrame(b, max)
    case Incomplete => false
    case Broken(_) => true
    case Complete(n) => Breaks(b[n..], max)
  }

  /** Bytes that arrive later do not change a frame that is complete or broken. */
  lemma NextFrameStable(b: Bytes, more: Bytes, max: nat)
    requires !NextFrame(b, max).Incomplete?
    ensures NextFrame(b + more, max) == NextFrame(b, max)
  {
    assert (b + more)[0] == b[0] && (b + more)[1..] == b[1..] + more;
    VbiStable(b[1..], more);
  }

  /** What bytes that come after `b` add to its frames. */
  function Later<P>(b: Bytes, more: Bytes, max: nat, parse: Parser<P>): seq<Result<P, DecodeError>> {
    if Breaks(b, max) then [] else Split(Leftover(b, max) + more, max, parse)
  }

  lemma Associative<T>(a: seq<T>, b: seq<T>, c: seq<T>)
    ensures (a + b) + c == a + (b + c)
  {
  }

  lemma FrameAtFront(b: Bytes, more: Bytes, max: nat)
    requires NextFrame(b, max).Complete?
    ensures var n := NextFrame(b, max).length;
            NextFrame(b + more, max) == Complete(n) && (b + more)[..n] == b[..n] && (b + more)[n..] == b[n..] + more
  {
    NextFrameStable(b, more, max);
  }

  /** Splitting may be interrupted: the rest is split once more bytes have come. */
  lemma {:induction false} SplitLater<P>(b: Bytes, more: Bytes, max: nat, parse: Parser<P>)
    ensures Split(b + more, max, parse) == Split(b, max, parse) + Later(b, more, max, parse)
    decreases |b|
  {
    match NextFrame(b, max) {
      case Incomplete => assert [] + Split(b + more, max, parse) == Split(b + more, max, parse);
      case Broken(_) => NextFrameStable(b, more, max);
      case Complete(n) =>
        FrameAtFront(b, more, max);
        SplitLater(b[n..], more, max, parse);
        Associative([DecodeFrame(parse, b[..n])], Split(b[n..], max, parse), Later(b[n..], more, max, parse));
    }
  }

  /** There is always room for one more byte of a frame within the limit. */
  lemma IncompleteHasRoom(b: Bytes, max: nat)
    requires NextFrame(b, max).Incomplete?
    ensures |b| + 1 <= max + MAX_PACKET_OVERHEAD
  {
    if b != [] {
      VbiInsufficient(b[1..]);
    }
  }

  /** What stands at the front is the first result. */
  lemma FrontOfSplit<P>(b: Bytes, max: nat, parse: Parser<P>)
    requires !NextFrame(b, max).Incomplete?
    ensures |Split(b, max, parse)| > 0
    ensures Split(b, max, parse) == [Split(b, max, parse)[0]] + Split(AfterFront(b, max), max, parse)
    ensures Leftover(b, max) == Leftover(AfterFront(b, max), max)
    ensures Split(b, max, parse)[0] == match NextFrame(b, max)
                                       case Broken(e) => Err(e)
                                       case Complete(n) => DecodeFrame(parse, b[..n])
  {
  }

  // -- runs -----------------------------------------------------------------------------------

  datatype Call = Feed(data: Bytes) | Decode

  /**
   * What an observer knows: the bytes accepted and not yet consumed, all bytes accepted, and the
   * results so far. After the first framing error (`broken`) the results are final.
   */
  datatype Trace<!P> = Trace(pending: Bytes, fed: Bytes, results: seq<Result<P, DecodeError>>, broken: bool)
  {
    function After(c: Call, max: nat, parse: Parser<P>): Trace<P> {
      match c
      case Feed(data) =>
        if |pending| + |data| > max + MAX_PACKET_OVERHEAD then this
        else this.(pending := pending + data, fed := fed + data)
      case Decode =>
        match NextFrame(pending, max)
        case Incomplete => this
        case Broken(e) => Trace([], fed, Recorded(Err(e)), true)
        case Complete(n) =>
          Trace(pending[n..], fed, Recorded(DecodeFrame(parse, pending[..n])), broken)
    }

    function Recorded(r: Result<P, DecodeError>): seq<Result<P, DecodeError>> {
      if broken then results else results + [r]
    }

    /**
     * The results so far and those still in the pending bytes are the frames of everything fed; and
     * the pending bytes end as everything fed does.
     */
    ghost predicate Faithful(max: nat, parse: Parser<P>) {
      if broken then Split(fed, max, parse) == results && Breaks(fed, max)
      else
        && Split(fed, max, parse) == results + Split(pending, max, parse)
        && (Breaks(fed, max) <==> Breaks(pending, max))
        && Leftover(fed, max) == Leftover(pending, max)
    }
  }

  /** Only the end of the bytes so far matters to what later bytes add. */
  lemma SameEndSameFuture<P>(a: Bytes, b: Bytes, results: seq<Result<P, DecodeError>>, more: Bytes,
                             max: nat, parse: Parser<P>)
    requires Split(a, max, parse) == results + Split(b, max, parse)
    requires (Breaks(a, max) <==> Breaks(b, max)) && Leftover(a, max) == Leftover(b, max)
    ensures Split(a + more, max, parse) == results + Split(b + more, max, parse)
  {
    SplitLater(a, more, max, parse);
    SplitLater(b, more, max, parse);
    Associative(results, Split(b, max, parse), Later(b, more, max, parse));
  }

  lemma FeedStaysFaithful<P>(t: Trace<P>, data: Bytes, max: nat, parse: Parser<P>)
    requires t.Faithful(max, parse)
    ensures t.After(Feed(data), max, parse).Faithful(max, parse)
  {
    EndLater(t.fed, data, max);
    if t.broken {
      SplitLater(t.fed, data, max, parse);
    } else {
      EndLater(t.pending, data, max);
      SameEndSameFuture(t.fed, t.pending, t.results, data, max, parse);
    }
  }

  lemma {:induction false} EndLater(b: Bytes, more: Bytes, max: nat)
    ensures Breaks(b + more, max) <==> Breaks(b, max) || Breaks(Leftover(b, max) + more, max)
    ensures Leftover(b + more, max) == if Breaks(b, max) then [] else Leftover(Leftover(b, max) + more, max)
    decreases |b|
  {
    match NextFrame(b, max) {
      case Incomplete =>
      case Broken(_) => NextFrameStable(b, more, max);
      case Complete(n) =>
        FrameAtFront(b, more, max);
        EndLater(b[n..], more, max);
    }
  }

  lemma DecodeStaysFaithful<P>(t: Trace<P>, max: nat, parse: Parser<P>)
    requires t.Faithful(max, parse)
    ensures t.After(Decode, max, parse).Faithful(max, parse)
  {
    if !t.broken && NextFrame(t.pending, max).Complete? {
      var n := NextFrame(t.pending, max).length;
      var first := DecodeFrame(parse, t.pending[..n]);
      assert t.results + ([first] + Split(t.pending[n..], max, parse))
             == t.results + [first] + Split(t.pending[n..], max, parse);
    }
  }

  function RunCalls<P>(t: Trace<P>, calls: seq<Call>, max: nat, parse: Parser<P>): Trace<P>
    decreases |calls|
  {
    if calls == [] then t else RunCalls(t.After(calls[0], max, parse), calls[1..], max, parse)
  }

  lemma {:induction false} RunStaysFaithful<P>(t: Trace<P>, calls: seq<Call>, max: nat, parse: Parser<P>)
    requires t.Faithful(max, parse)
    ensures RunCalls(t, calls, max, parse).Faithful(max, parse)
    decreases |calls|
  {
    if calls != [] {
      if calls[0].Feed? {
        FeedStaysFaithful(t, calls[0].data, max, parse);
      } else {
        DecodeStaysFaithful(t, max, parse);
      }
      RunStaysFaithful(t.After(calls[0], max, parse), calls[1..], max, parse);
    }
  }

  /**
   * Chunking independence: for every interleaving of `feed` and `decode`, the results so far
   * followed by the frames of the pending bytes are the frames of all bytes accepted, up to and
   * including the first framing error.
   */
  lemma ChunkingIndependence<P>(calls: seq<Call>, max: nat, parse: Parser<P>)
    ensures var t := RunCalls(Trace([], [], [], false), calls, max, parse);
            && (!t.broken ==> Split(t.fed, max, parse) == t.results + Split(t.pending, max, parse))
            && (t.broken ==> Split(t.fed, max, parse) == t.results)
  {
    RunStaysFaithful(Trace([], [], [], false), calls, max, parse);
  }

  /** Two ways of feeding the same bytes, both drained, have the same results. */
  lemma SameBytesSameResults<P>(a: seq<Call>, b: seq<Call>, max: nat, parse: Parser<P>)
    requires var t := RunCalls(Trace([], [], [], false), a, max, parse);
             var u := RunCalls(Trace([], [], [], false), b, max, parse);
             && t.fed == u.fed
             && (t.broken || NextFrame(t.pending, max).Incomplete?)
             && (u.broken || NextFrame(u.pending, max).Incomplete?)
    ensures RunCalls(Trace([], [], [], false), a, max, parse).results
            == RunCalls(Trace([], [], [], false), b, max, parse).results
  {
    ChunkingIndependence(a, max, parse);
    ChunkingIndependence(b, max, parse);
  }

  /** A request for more bytes changes nothing, and one more byte is always accepted. */
  lemma IncompleteWaits<P>(t: Trace<P>, max: nat, parse: Parser<P>)
    requires NextFrame(t.pending, max).Incomplete?
    ensures t.After(Decode, max, parse) == t
    ensures |t.pending| + 1 <= max + MAX_PACKET_OVERHEAD
  {
    IncompleteHasRoom(t.pending, max);
  }

  // -- the decoder ----------------------------------------------------------------------------

  datatype Phase = FixedHeader | RemainingLength | Payload(rlenLen: nat, remainingLength: nat)

  /** How far the phase is from an answer. */
  function Rank(phase: Phase): nat {
    match phase case FixedHeader => 2 case RemainingLength => 1 case Payload(_, _) => 0
  }

  /** What a cached phase says about the pending bytes. */
  predicate PhaseHolds(phase: Phase, pending: Bytes, max: nat) {
    match phase
    case FixedHeader => true
    case RemainingLength => pending != []
    case Payload(rlenLen, remaining) =>
      pending != [] && VbiDecode(pending[1..]) == Ok((remaining, rlenLen)) && 1 + rlenLen + remaining <= max
  }

  /** A cached phase stays right when bytes are appended. */
  lemma PhaseStable(phase: Phase, pending: Bytes, data: Bytes, max: nat)
    requires PhaseHolds(phase, pending, max)
    ensures PhaseHolds(phase, pending + data, max)
  {
    if phase.Payload? {
      assert pending[1..] + data == (pending + data)[1..];
      VbiStable(pending[1..], data);
    }
  }

  lemma AppendAfter(b: Bytes, k: nat, more: Bytes)
    requires k <= |b|
    ensures (b + more)[k..] == b[k..] + more
  {
  }

  class Decoder<!P> {
    const parse: Parser<P>
    const maxPacketSize: nat
    var buf: Bytes
    var bufOffset: nat
    var phase: Phase
    ghost var trace: Trace<P>
    ghost var moved: nat     // bytes moved to the front by compaction
    ghost var consumed: nat  // bytes taken off the front

    function Pending(): Bytes
      requires bufOffset <= |buf|
      reads this
    {
      buf[bufOffset..]
    }

    ghost predicate Valid()
      reads this
    {
      && bufOffset <= |buf| / 2
      && PhaseHolds(phase, Pending(), maxPacketSize)
      && |Pending()| <= maxPacketSize + MAX_PACKET_OVERHEAD
      && trace.pending == Pending()
      && trace.Faithful(maxPacketSize, parse)
      && moved + bufOffset <= consumed
      && consumed + |Pending()| == |trace.fed|
    }

    constructor (maxPacketSize: nat, parse: Parser<P>)
      ensures Valid() && trace == Trace([], [], [], false) && moved == 0
      ensures this.maxPacketSize == maxPacketSize && this.parse == parse
    {
      this.maxPacketSize, this.parse := maxPacketSize, parse;
      buf, bufOffset, phase := [], 0, FixedHeader;
      trace, moved, consumed := Trace([], [], [], false), 0, 0;
    }

    method Feed(data: Bytes) returns (r: Result<(), DecodeError>)
      requires Valid()
      modifies this
      ensures Valid() && trace == old(trace).After(Call.Feed(data), maxPacketSize, parse)
      ensures r.Ok? <==> |old(Pending())| + |data| <= maxPacketSize + MAX_PACKET_OVERHEAD
      ensures r.Err? ==>
        r.error == DecodeError.PacketTooLarge(|old(Pending())| + |data|, maxPacketSize + MAX_PACKET_OVERHEAD)
      ensures moved == old(moved)
    {
      var accumulated := |buf| - bufOffset + |data|;
      var allowed := maxPacketSize + MAX_PACKET_OVERHEAD;
      FeedStaysFaithful(trace, data, maxPacketSize, parse);
      trace := trace.After(Call.Feed(data), maxPacketSize, parse);
      if accumulated > allowed {
        return Err(DecodeError.PacketTooLarge(accumulated, allowed));
      }
      PhaseStable(phase, Pending(), data, maxPacketSize);
      AppendAfter(buf, bufOffset, data);
      buf := buf + data;
      return Ok(());
    }

    /**
     * `decode`: a packet, an error, or the request for more bytes. Everything but the request takes
     * bytes off the front; the request changes nothing and leaves room for one more byte.
     */
    method Decode() returns (r: Result<Option<P>, DecodeError>)
      requires Valid()
      modifies this
      ensures Valid() && trace == old(trace).After(Call.Decode, maxPacketSize, parse)
      ensures match NextFrame(old(Pending()), maxPacketSize)
              case Incomplete => r == Ok(None) && |Pending()| + 1 <= maxPacketSize + MAX_PACKET_OVERHEAD
              case Broken(e) => r == Err(e)
              case Complete(n) =>
                match DecodeFrame(parse, old(Pending())[..n])
                case Ok(p) => r == Ok(Some(p))
                case Err(e) => r == Err(e)
      ensures Pending() == AfterFront(old(Pending()), maxPacketSize)
      ensures r != Ok(None) ==> |Pending()| < |old(Pending())|
    {
      var t := TryDecode();
      match t {
        case Packet(p) => return Ok(Some(p));
        case Failed(e) => return Err(e);
        case NeedMore => return Ok(None);
      }
    }

    /** The loop over the phases. */
    method TryDecode() returns (r: Outcome<P>)
      requires Valid()
      modifies this
      ensures Valid() && trace == old(trace).After(Call.Decode, maxPacketSize, parse)
      ensures r == Answer(old(Pending()), maxPacketSize, parse)
      ensures r.NeedMore? ==> Pending() == old(Pending())
      ensures r.NeedMore? ==> |Pending()| + 1 <= maxPacketSize + MAX_PACKET_OVERHEAD
      ensures !r.NeedMore? ==> |Pending()| < |old(Pending())|
    {
      while true
        invariant Valid() && buf == old(buf) && bufOffset == old(bufOffset)
        invariant trace == old(trace) && moved == old(moved) && consumed == old(consumed)
        decreases Rank(phase)
      {
        match phase {
          case FixedHeader =>
            if |buf| <= bufOffset {
              IncompleteWaits(trace, maxPacketSize, parse);
              return NeedMore;
            }
            phase := RemainingLength;
          case RemainingLength =>
            var done := ReadRemainingLength();
            if done.Some? {
              return done.value;
            }
          case Payload(rlenLen, remaining) =>
            r := TakePayload(1 + rlenLen + remaining);
            return;
        }
      }
    }

    /** An answer, or the step to the payload phase. */
    method ReadRemainingLength() returns (r: Option<Outcome<P>>)
      requires Valid() && phase.RemainingLength?
      modifies this
      ensures Valid()
      ensures r.None? ==> phase.Payload? && buf == old(buf) && bufOffset == old(bufOffset)
      ensures r.None? ==> trace == old(trace) && moved == old(moved) && consumed == old(consumed)
      ensures r.Some? ==> trace == old(trace).After(Call.Decode, maxPacketSize, parse)
      ensures r.Some? ==> r.value == Answer(old(Pending()), maxPacketSize, parse) && !r.value.Packet?
      ensures r == Some(NeedMore) ==>
        Pending() == old(Pending()) && |Pending()| + 1 <= maxPacketSize + MAX_PACKET_OVERHEAD
      ensures r.Some? && r.value.Failed? ==> |Pending()| < |old(Pending())|
    {
      if |buf| - bufOffset < 2 {
        IncompleteWaits(trace, maxPacketSize, parse);
        return Some(NeedMore);
      }
      var vbi := DecodeVbi(buf[bufOffset + 1..]);
      assert vbi == VbiDecode(Pending()[1..]) by {
        assert Pending()[1..] == buf[bufOffset + 1..];
      }
      if vbi == Err(InsufficientData) {
        IncompleteWaits(trace, maxPacketSize, parse);
        return Some(NeedMore);
      }
      if vbi.Err? {
        Discard();
        return Some(Failed(vbi.error));
      }
      var remaining, rlenLen := vbi.value.0, vbi.value.1;
      var total := 1 + rlenLen + remaining;
      if total > maxPacketSize {
        Discard();
        return Some(Failed(DecodeError.PacketTooLarge(total, maxPacketSize)));
      }
      phase := Payload(rlenLen, remaining);
      return None;
    }

    method TakePayload(length: nat) returns (r: Outcome<P>)
      requires Valid() && phase.Payload? && length == 1 + phase.rlenLen + phase.remainingLength
      modifies this
      ensures Valid() && trace == old(trace).After(Call.Decode, maxPacketSize, parse)
      ensures r == Answer(old(Pending()), maxPacketSize, parse)
      ensures r.NeedMore? ==> Pending() == old(Pending())
      ensures r.NeedMore? ==> |Pending()| + 1 <= maxPacketSize + MAX_PACKET_OVERHEAD
      ensures !r.NeedMore? ==> |Pending()| < |old(Pending())|
    {
      if |buf| - bufOffset < length {
        IncompleteWaits(trace, maxPacketSize, parse);
        return NeedMore;
      }
      var end := bufOffset + length;
      var frame := buf[bufOffset..end];
      assert frame == Pending()[..length];
      r := match DecodeFrame(parse, frame) case Ok(p) => Packet(p) case Err(e) => Failed(e);
      Consume(length);
    }

    /** `reset` after a framing error: the whole buffer goes. */
    method Discard()
      requires Valid() && NextFrame(Pending(), maxPacketSize).Broken?
      modifies this
      ensures Valid() && trace == old(trace).After(Call.Decode, maxPacketSize, parse)
      ensures |Pending()| < |old(Pending())|
    {
      DecodeStaysFaithful(trace, maxPacketSize, parse);
      trace := trace.After(Call.Decode, maxPacketSize, parse);
      consumed := consumed + |buf| - bufOffset;
      buf, bufOffset, phase := [], 0, FixedHeader;
    }

    /** One frame is taken off the front. */
    method Consume(length: nat)
      requires Valid() && NextFrame(Pending(), maxPacketSize) == Complete(length)
      modifies this
      ensures Valid() && trace == old(trace).After(Call.Decode, maxPacketSize, parse)
      ensures |Pending()| == |old(Pending())| - length
    {
      DecodeStaysFaithful(trace, maxPacketSize, parse);
      trace := trace.After(Call.Decode, maxPacketSize, parse);
      assert buf[bufOffset + length..] == Pending()[length..];
      bufOffset := bufOffset + length;
      consumed := consumed + length;
      phase := FixedHeader;
      MaybeCompact();
    }

    /** The rest moves forward once it is the smaller half: it is no longer than what precedes it. */
    method MaybeCompact()
      requires bufOffset <= |buf|
      modifies `buf, `bufOffset, `moved
      ensures bufOffset <= |buf| / 2 && Pending() == old(Pending())
      ensures moved + bufOffset <= old(moved) + old(bufOffset)
    {
      if bufOffset > |buf| / 2 {
        moved := moved + (|buf| - bufOffset);
        buf := buf[bufOffset..];
        bufOffset := 0;
      }
    }

    /** Amortised cost and memory: each byte fed is moved at most once, and at most half is stale. */
    lemma Bounds()
      requires Valid()
      ensures moved + bufOffset <= consumed <= |trace.fed|
      ensures |buf| <= 2 * |Pending()| <= 2 * (maxPacketSize + MAX_PACKET_OVERHEAD)
    {
    }

    /** The loop that drains the decoder ends, with the frames of the pending bytes. */
    method Drain() returns (results: seq<Result<P, DecodeError>>)
      requires Valid()
      modifies this
      ensures Valid() && NextFrame(Pending(), maxPacketSize).Incomplete?
      ensures results == Split(old(Pending()), maxPacketSize, parse)
      ensures Pending() == Leftover(old(Pending()), maxPacketSize)
    {
      results := [];
      while true
        invariant Valid()
        invariant Split(old(Pending()), maxPacketSize, parse) == results + Split(Pending(), maxPacketSize, parse)
        invariant Leftover(old(Pending()), maxPacketSize) == Leftover(Pending(), maxPacketSize)
        decreases |Pending()|
      {
        ghost var before := Pending();
        ghost var done := results;
        var r := Decode();
        if r == Ok(None) {
          return;
        }
        FrontOfSplit(before, maxPacketSize, parse);
        var answer := if r.Ok? then Ok(r.value.value) else Err(r.error);
        results := results + [answer];
        Associative(done, [answer], Split(Pending(), maxPacketSize, parse));
      }
    }
  }

  datatype Outcome<P> = Packet(packet: P) | Failed(error: DecodeError) | NeedMore

  /** The answer for the frame at the front of the pending bytes. */
  function Answer<P>(pending: Bytes, max: nat, parse: Parser<P>): Outcome<P> {
    match NextFrame(pending, max)
    case Incomplete => NeedMore
    case Broken(e) => Failed(e)
    case Complete(n) => match DecodeFrame(parse, pending[..n]) case Ok(p) => Packet(p) case Err(e) => Failed(e)
  }
}
