/** Cutting a TCP byte stream back into envelopes. */
module Framing {
  import opened Wrappers
  import opened Bytes
  import opened Envelope

  datatype Limits = Limits(maxFrameBuffer: nat, maxMessageSize: nat)

  const DEFAULT_LIMITS := Limits(8_388_608, 2_097_152)

  /** parse_envelope, or anything else that judges a whole frame. */
  type Parser = bytes -> Result<NetworkEnvelope, EnvelopeError>

  datatype FramingError = FrameBufferExceeded | PayloadTooLong | MessageTooLong | BadEnvelope(cause: EnvelopeError)

  // ---------- one step on a buffer ----------

  datatype Step =
    | Wait
    | Drop(count: nat)
    | Cut(size: nat, parsed: Result<NetworkEnvelope, EnvelopeError>)
    | Refuse(error: FramingError)

  predicate MagicAt(buf: bytes, i: nat) {
    i + 4 <= |buf| && buf[i..i + 4] == MAGIC
  }

  /** bytearray.find: the first position of the magic at or after i, or -1. */
  function FindMagic(buf: bytes, i: nat): (p: int)
    ensures p == -1 || (i <= p && p + 4 <= |buf|)
    decreases |buf| - i
  {
    if i + 4 > |buf| then -1
    else if MagicAt(buf, i) then i
    else FindMagic(buf, i + 1)
  }

  lemma {:induction false} FindMagicFindsFirst(buf: bytes, i: nat)
    ensures var p := FindMagic(buf, i);
            && (p >= 0 ==> MagicAt(buf, p))
            && forall j: nat :: i <= j && (p == -1 || j < p) ==> !MagicAt(buf, j)
    decreases |buf| - i
  {
    if i + 4 <= |buf| && !MagicAt(buf, i) {
      FindMagicFindsFirst(buf, i + 1);
    }
  }

  /** A step takes something off the front of the buffer, unless it waits or refuses. */
  predicate Advances(s: Step, buf: bytes) {
    && (s.Drop? ==> 0 < s.count <= |buf|)
    && (s.Cut? ==> 0 < s.size <= |buf|)
  }

  type Stepper = s: bytes -> Step | forall b :: Advances(s(b), b) witness (b: bytes) => Wait

  function Steps(lim: Limits, parse: Parser): Stepper {
    (b: bytes) => NextStep(lim, parse, b)
  }

  function NextStep(lim: Limits, parse: Parser, buf: bytes): (s: Step)
    ensures Advances(s, buf)
  {
    if |buf| < 4 then Wait
    else if buf[..4] != MAGIC then
      var p := FindMagic(buf, 0);
      if p == -1 then Drop(|buf| - 3) else Drop(p)
    else if |buf| < 7 then Wait
    else
      var n := buf[6];
      var overhead := HeaderOverhead(n);
      if n == 0 || n > MAX_NETWORK_ID_LENGTH then Drop(1)
      else if |buf| < overhead then Wait
      else
        var length := FromBE(buf[9 + n..13 + n]);
        if length > lim.maxMessageSize then Refuse(PayloadTooLong)
        else if overhead + length > lim.maxMessageSize then Refuse(MessageTooLong)
        else if |buf| < overhead + length then Wait
        else Cut(overhead + length, parse(buf[..overhead + length]))
  }

  // ---------- what a buffer yields ----------

  /** Envelopes in order, the bytes left, and the exception that ended the call, if any. */
  datatype Outcome = Outcome(envelopes: seq<NetworkEnvelope>, rest: bytes, error: Option<FramingError>)

  function After(first: seq<NetworkEnvelope>, o: Outcome): Outcome {
    o.(envelopes := first + o.envelopes)
  }

  function Drain(step: Stepper, buf: bytes): Outcome
    decreases |buf|
  {
    match step(buf)
    case Wait => Outcome([], buf, None)
    case Drop(k) => Drain(step, buf[k..])
    case Refuse(e) => Outcome([], buf, Some(e))
    case Cut(size, parsed) =>
      match parsed
      case Err(e) => Outcome([], buf[size..], Some(BadEnvelope(e)))
      case Ok(envelope) => After([envelope], Drain(step, buf[size..]))
  }

  /** One call: refused when the bytes held and the bytes received are more than `limit`. */
  function Receive(limit: nat, step: Stepper, buf: bytes, data: bytes): Outcome {
    if data == [] then Outcome([], buf, None)
    else if |buf| + |data| > limit then Outcome([], buf, Some(FrameBufferExceeded))
    else Drain(step, buf + data)
  }

  /** Consuming chunks one after the other, up to the first exception. */
  function Feed(limit: nat, step: Stepper, buf: bytes, chunks: seq<bytes>): Outcome
    decreases |chunks|
  {
    if chunks == [] then Outcome([], buf, None)
    else
      var first := Receive(limit, step, buf, chunks[0]);
      if first.error.Some? then first else After(first.envelopes, Feed(limit, step, first.rest, chunks[1..]))
  }

  /** A fresh EnvelopeFraming fed the chunks. */
  function Consumed(lim: Limits, parse: Parser, chunks: seq<bytes>): Outcome {
    Feed(lim.maxFrameBuffer, Steps(lim, parse), [], chunks)
  }

  /** What a call that takes the step returns, and what it leaves in the buffer. */
  predicate Did(step: Step, before: bytes, after: bytes, r: Result<Option<NetworkEnvelope>, FramingError>)
    requires Advances(step, before)
  {
    match step
    case Wait => r == Ok(None) && after == before
    case Drop(k) => r == Ok(None) && after == before[k..]
    case Refuse(e) => r == Err(e) && after == before
    case Cut(size, Ok(envelope)) => r == Ok(Some(envelope)) && after == before[size..]
    case Cut(size, Err(e)) => r == Err(BadEnvelope(e)) && after == before[size..]
  }

  lemma {:induction false} OneStep(step: Stepper, found: seq<NetworkEnvelope>, before: bytes, after: bytes,
                                   r: Result<Option<NetworkEnvelope>, FramingError>)
    requires Did(step(before), before, after, r)
    ensures match r
            case Err(e) => After(found, Drain(step, before)) == Outcome(found, after, Some(e))
            case Ok(Some(e)) =>
              && |after| < |before|
              && After(found, Drain(step, before)) == After(found + [e], Drain(step, after))
            case Ok(None) => if |after| < |before| then Drain(step, before) == Drain(step, after)
                             else After(found, Drain(step, before)) == Outcome(found, after, None)
  {
    assert found + [] == found;
    if r.Ok? && r.value.Some? {
      AfterAfter(found, [r.value.value], Drain(step, after));
    }
  }

  // ---------- the source's loop ----------

  class EnvelopeFraming {
    const limits: Limits
    const parse: Parser
    var buffer: bytes

    constructor (limits: Limits, parse: Parser)
      ensures this.limits == limits && this.parse == parse && buffer == []
    {
      this.limits := limits;
      this.parse := parse;
      buffer := [];
    }

    method Clear()
      modifies this`buffer
      ensures buffer == []
    {
      buffer := [];
    }

    method Consume(data: bytes) returns (r: Result<seq<NetworkEnvelope>, FramingError>)
      modifies this`buffer
      ensures var o := Receive(limits.maxFrameBuffer, Steps(limits, parse), old(buffer), data);
              && buffer == o.rest
              && r == match o.error case None => Ok(o.envelopes) case Some(e) => Err(e)
    {
      if data == [] {
        return Ok([]);
      }
      if |buffer| + |data| > limits.maxFrameBuffer {
        return Err(FrameBufferExceeded);
      }
      buffer := buffer + data;
      ghost var step := Steps(limits, parse);
      ghost var all := Drain(step, buffer);
      var envelopes: seq<NetworkEnvelope> := [];
      while true
        invariant After(envelopes, Drain(step, buffer)) == all
        decreases |buffer|
      {
        var before := |buffer|;
        ghost var buf := buffer;
        var parsed := TryParseOne();
        OneStep(step, envelopes, buf, buffer, parsed);
        match parsed {
          case Err(e) => return Err(e);
          case Ok(Some(envelope)) => envelopes := envelopes + [envelope];
          case Ok(None) =>
            if |buffer| >= before {
              break;
            }
        }
      }
      return Ok(envelopes);
    }

    method TryParseOne() returns (r: Result<Option<NetworkEnvelope>, FramingError>)
      modifies this`buffer
      ensures Did(NextStep(limits, parse, old(buffer)), old(buffer), buffer, r)
    {
      if |buffer| < 4 {
        return Ok(None);
      }
      if buffer[..4] != MAGIC {
        var position := FindMagic(buffer, 0);
        if position == -1 {
          var keep := if |buffer| < 3 then |buffer| else 3;
          buffer := buffer[|buffer| - keep..];
          return Ok(None);
        }
        buffer := buffer[position..];
        return Ok(None);
      }
      if |buffer| < 7 {
        return Ok(None);
      }
      var n := buffer[6];
      if n == 0 || n > MAX_NETWORK_ID_LENGTH {
        buffer := buffer[1..];
        return Ok(None);
      }
      var overhead := HeaderOverhead(n);
      if |buffer| < overhead {
        return Ok(None);
      }
      var length := FromBE(buffer[9 + n..13 + n]);
      if length > limits.maxMessageSize {
        return Err(PayloadTooLong);
      }
      var total := overhead + length;
      if total > limits.maxMessageSize {
        return Err(MessageTooLong);
      }
      if |buffer| < total {
        return Ok(None);
      }
      var frame := buffer[..total];
      buffer := buffer[total..];
      match parse(frame) {
        case Ok(envelope) => return Ok(Some(envelope));
        case Err(e) => return Err(BadEnvelope(e));
      }
    }
  }

  lemma {:induction false} AfterAfter(a: seq<NetworkEnvelope>, b: seq<NetworkEnvelope>, o: Outcome)
    ensures After(a, After(b, o)) == After(a + b, o)
  {
    assert a + (b + o.envelopes) == a + b + o.envelopes;
  }

  // ---------- more bytes do not change what was already decided ----------

  lemma {:induction false} MagicSurvives(a: bytes, b: bytes, i: nat)
    requires i + 4 <= |a|
    ensures MagicAt(a + b, i) <==> MagicAt(a, i)
  {
    assert (a + b)[i..i + 4] == a[i..i + 4];
  }

  /** Frames, refusals and skips to a magic are decided by the bytes already there. */
  lemma {:induction false} DecidedStepStays(lim: Limits, parse: Parser, a: bytes, b: bytes)
    requires !NextStep(lim, parse, a).Wait? && (|a| >= 4 && a[..4] != MAGIC ==> FindMagic(a, 0) >= 0)
    ensures NextStep(lim, parse, a + b) == NextStep(lim, parse, a)
  {
    var ab := a + b;
    assert ab[..4] == a[..4];
    if a[..4] != MAGIC {
      FirstMagicStays(a, b);
    } else {
      var n := a[6];
      assert ab[6] == n;
      if 0 < n <= MAX_NETWORK_ID_LENGTH {
        assert ab[9 + n..13 + n] == a[9 + n..13 + n];
        var size := HeaderOverhead(n) + FromBE(a[9 + n..13 + n]);
        assert size <= |a| ==> ab[..size] == a[..size];
      }
    }
  }

  lemma {:induction false} FirstMagicStays(a: bytes, b: bytes)
    requires FindMagic(a, 0) >= 0
    ensures FindMagic(a + b, 0) == FindMagic(a, 0)
  {
    var p, q := FindMagic(a, 0), FindMagic(a + b, 0);
    FindMagicFindsFirst(a, 0);
    FindMagicFindsFirst(a + b, 0);
    MagicSurvives(a, b, p);
    assert q >= 0 && q <= p;
    MagicSurvives(a, b, q);
  }

  /** Bytes in front of which no magic starts can be dropped at once: draining ends the same. */
  lemma {:induction false} SkippingIsHarmless(lim: Limits, parse: Parser, x: bytes, j: nat)
    requires j + 3 <= |x| && forall i: nat :: i < j ==> !MagicAt(x, i)
    ensures Drain(Steps(lim, parse), x) == Drain(Steps(lim, parse), x[j..])
  {
    var y := x[j..];
    var k, l := BeforeMagic(x), BeforeMagic(y);
    SkipsMeet(x, j);
    JumpToMagic(lim, parse, x);
    JumpToMagic(lim, parse, y);
  }

  /** How much of a buffer goes before its first magic, or before its last three bytes. */
  function BeforeMagic(x: bytes): (k: nat)
    requires |x| >= 3
    ensures k <= |x|
  {
    if FindMagic(x, 0) == -1 then |x| - 3 else FindMagic(x, 0)
  }

  lemma {:induction false} MagicShifts(x: bytes, j: nat, i: nat)
    requires j <= |x|
    ensures MagicAt(x[j..], i) <==> MagicAt(x, j + i)
  {
    if j + i + 4 <= |x| {
      assert x[j..][i..i + 4] == x[j + i..j + i + 4];
    }
  }

  lemma {:induction false} MagicMeets(x: bytes, j: nat)
    requires j <= |x| && forall i: nat :: i < j ==> !MagicAt(x, i)
    ensures FindMagic(x, 0) == if FindMagic(x[j..], 0) == -1 then -1 else j + FindMagic(x[j..], 0)
  {
    var p, q := FindMagic(x, 0), FindMagic(x[j..], 0);
    FindMagicFindsFirst(x, 0);
    FindMagicFindsFirst(x[j..], 0);
    if p >= j {
      MagicShifts(x, j, p - j);
    }
    if q >= 0 {
      MagicShifts(x, j, q);
    }
  }

  lemma {:induction false} SkipsMeet(x: bytes, j: nat)
    requires j + 3 <= |x| && forall i: nat :: i < j ==> !MagicAt(x, i)
    ensures x[j..][BeforeMagic(x[j..])..] == x[BeforeMagic(x)..]
  {
    MagicMeets(x, j);
    TailOfTail(x, j, BeforeMagic(x[j..]));
  }

  lemma {:induction false} TailOfTail(x: bytes, j: nat, k: nat)
    requires j + k <= |x|
    ensures x[j..][k..] == x[j + k..]
  {
  }

  lemma {:induction false} JumpToMagic(lim: Limits, parse: Parser, x: bytes)
    requires |x| >= 3
    ensures Drain(Steps(lim, parse), x) == Drain(Steps(lim, parse), x[BeforeMagic(x)..])
  {
    var k := BeforeMagic(x);
    FindMagicFindsFirst(x, 0);
    if k == 0 {
      assert x[0..] == x;
    } else {
      assert |x| >= 4 && !MagicAt(x, 0) && x[0..4] == x[..4];
      assert Steps(lim, parse)(x) == Drop(k);
    }
  }

  /** Frames and refusals are settled by the bytes that caused them, and dropping can wait for the bytes to come. */
  ghost predicate Settled(step: Stepper, a: bytes, b: bytes) {
    match step(a)
    case Wait => true
    case Drop(k) => Drain(step, a + b) == Drain(step, a[k..] + b)
    case Cut(_, _) => step(a + b) == step(a)
    case Refuse(_) => step(a + b) == step(a)
  }

  lemma {:induction false} StepsAreSettled(lim: Limits, parse: Parser, a: bytes, b: bytes)
    ensures Settled(Steps(lim, parse), a, b)
  {
    var step := NextStep(lim, parse, a);
    if step.Drop? {
      DroppingCanWait(lim, parse, a, b, step.count);
    } else if !step.Wait? {
      DecidedStepStays(lim, parse, a, b);
    }
  }

  lemma {:induction false} DroppingCanWait(lim: Limits, parse: Parser, a: bytes, b: bytes, k: nat)
    requires NextStep(lim, parse, a) == Drop(k)
    ensures k <= |a| && Drain(Steps(lim, parse), a + b) == Drain(Steps(lim, parse), a[k..] + b)
  {
    assert (a + b)[k..] == a[k..] + b;
    if a[..4] != MAGIC {
      DroppedHasNoMagic(a, b, k);
      SkippingIsHarmless(lim, parse, a + b, k);
    } else {
      DecidedStepStays(lim, parse, a, b);
      DropDrains(Steps(lim, parse), a + b, k);
    }
  }

  lemma {:induction false} DropDrains(step: Stepper, x: bytes, k: nat)
    requires step(x) == Drop(k)
    ensures k <= |x| && Drain(step, x) == Drain(step, x[k..])
  {
  }

  lemma {:induction false} DroppedHasNoMagic(a: bytes, b: bytes, k: nat)
    requires |a| >= 4 && k == BeforeMagic(a)
    ensures k + 3 <= |a| && forall i: nat :: i < k ==> !MagicAt(a + b, i)
  {
    FindMagicFindsFirst(a, 0);
    forall i: nat | i < k ensures !MagicAt(a + b, i) {
      MagicSurvives(a, b, i);
      assert !MagicAt(a, i);
    }
  }

  /** Draining in two instalments: an exception stays, otherwise the leftover and the new bytes are drained together. */
  lemma {:induction false} DrainInTwo(step: Stepper, a: bytes, b: bytes)
    requires forall x :: Settled(step, x, b)
    ensures var d := Drain(step, a);
            Drain(step, a + b) == if d.error.Some? then d.(rest := d.rest + b)
                                  else After(d.envelopes, Drain(step, d.rest + b))
    decreases |a|
  {
    assert Settled(step, a, b);
    match step(a) {
      case Wait =>
      case Refuse(e) =>
      case Drop(k) => DrainInTwo(step, a[k..], b);
      case Cut(size, parsed) =>
        assert (a + b)[size..] == a[size..] + b;
        if parsed.Ok? {
          DrainInTwo(step, a[size..], b);
          var d := Drain(step, a[size..]);
          AfterAfter([parsed.value], d.envelopes, Drain(step, d.rest + b));
        }
    }
  }

  /** What is left over waits: draining it again yields nothing and changes nothing. */
  lemma {:induction false} LeftoverWaits(step: Stepper, buf: bytes)
    requires Drain(step, buf).error.None?
    ensures step(Drain(step, buf).rest).Wait?
    decreases |buf|
  {
    match step(buf)
    case Wait =>
    case Drop(k) => LeftoverWaits(step, buf[k..]);
    case Cut(size, parsed) => LeftoverWaits(step, buf[size..]);
  }

  /** A call with data that raises nothing leaves less than one message behind, whatever was held before. */
  lemma {:induction false} LeftoverIsShort(lim: Limits, parse: Parser, buf: bytes, data: bytes)
    requires data != [] && Receive(lim.maxFrameBuffer, Steps(lim, parse), buf, data).error.None?
    ensures |Receive(lim.maxFrameBuffer, Steps(lim, parse), buf, data).rest|
            < if lim.maxMessageSize < 109 then 109 else lim.maxMessageSize
  {
    LeftoverWaits(Steps(lim, parse), buf + data);
    WaitingIsShort(lim, parse, Drain(Steps(lim, parse), buf + data).rest);
  }

  lemma {:induction false} FeedLeavesWaiting(limit: nat, step: Stepper, buf: bytes, chunks: seq<bytes>)
    requires step(buf).Wait? && Feed(limit, step, buf, chunks).error.None?
    ensures step(Feed(limit, step, buf, chunks).rest).Wait?
    decreases |chunks|
  {
    if chunks != [] {
      var first := Receive(limit, step, buf, chunks[0]);
      if chunks[0] != [] {
        LeftoverWaits(step, buf + chunks[0]);
      }
      FeedLeavesWaiting(limit, step, first.rest, chunks[1..]);
    }
  }

  /** Whatever chunks a fresh framer has taken without raising, empty ones included, it holds less than one message. */
  lemma {:induction false} LeftoverStaysShort(lim: Limits, parse: Parser, chunks: seq<bytes>)
    requires Consumed(lim, parse, chunks).error.None?
    ensures |Consumed(lim, parse, chunks).rest| < if lim.maxMessageSize < 109 then 109 else lim.maxMessageSize
  {
    FeedLeavesWaiting(lim.maxFrameBuffer, Steps(lim, parse), [], chunks);
    WaitingIsShort(lim, parse, Consumed(lim, parse, chunks).rest);
  }

  lemma {:induction false} WaitingIsShort(lim: Limits, parse: Parser, rest: bytes)
    requires NextStep(lim, parse, rest).Wait?
    ensures |rest| < if lim.maxMessageSize < 109 then 109 else lim.maxMessageSize
  {
  }

  /**
   However the stream is cut, as long as no call finds the frame buffer too full, the chunks yield exactly what the
   whole stream yields at once: the same envelopes in order, the same exception if there is one, and otherwise the
   same leftover bytes.
   */
  lemma {:induction false} ChunkingIsIrrelevant(lim: Limits, parse: Parser, chunks: seq<bytes>)
    requires Consumed(lim, parse, chunks).error != Some(FrameBufferExceeded)
    ensures SameUpToError(Consumed(lim, parse, chunks), Drain(Steps(lim, parse), Join(chunks)))
  {
    forall a, b ensures Settled(Steps(lim, parse), a, b) {
      StepsAreSettled(lim, parse, a, b);
    }
    FeedFromWaiting(lim.maxFrameBuffer, Steps(lim, parse), [], chunks);
    assert [] + Join(chunks) == Join(chunks);
  }

  ghost predicate SameUpToError(f: Outcome, d: Outcome) {
    f.envelopes == d.envelopes && f.error == d.error && (f.error.None? ==> f.rest == d.rest)
  }

  lemma {:induction false} FeedFromWaiting(limit: nat, step: Stepper, buf: bytes, chunks: seq<bytes>)
    requires step(buf).Wait? && forall a, b :: Settled(step, a, b)
    requires Feed(limit, step, buf, chunks).error != Some(FrameBufferExceeded)
    ensures SameUpToError(Feed(limit, step, buf, chunks), Drain(step, buf + Join(chunks)))
    decreases |chunks|
  {
    if chunks == [] {
      assert buf + [] == buf;
    } else {
      var data, others := chunks[0], Join(chunks[1..]);
      assert buf + Join(chunks) == buf + data + others;
      DrainInTwo(step, buf + data, others);
      if data == [] {
        assert buf + data == buf;
        FeedFromWaiting(limit, step, buf, chunks[1..]);
      } else {
        var first := Drain(step, buf + data);
        if first.error.None? {
          LeftoverWaits(step, buf + data);
          FeedFromWaiting(limit, step, first.rest, chunks[1..]);
        }
      }
    }
  }

  /** Two ways of cutting the same stream agree. */
  lemma {:induction false} SplittingsAgree(lim: Limits, parse: Parser, a: seq<bytes>, b: seq<bytes>)
    requires Join(a) == Join(b)
    requires Consumed(lim, parse, a).error.None? && Consumed(lim, parse, b).error != Some(FrameBufferExceeded)
    ensures Consumed(lim, parse, a) == Consumed(lim, parse, b)
  {
    ChunkingIsIrrelevant(lim, parse, a);
    ChunkingIsIrrelevant(lim, parse, b);
  }

  // ---------- serialized envelopes come back ----------

  predicate Sendable(lim: Limits, e: NetworkEnvelope) {
    && KnownType(e.messageType) && !HasReservedFlags(e.flags) && |e.payload| <= MAX_PAYLOAD_BYTES
    && ENVELOPE_HEADER_SIZE + |e.payload| <= lim.maxMessageSize
  }

  function FramesOf(es: seq<NetworkEnvelope>, sha: Digest32): (fs: seq<bytes>)
    ensures |fs| == |es|
  {
    seq(|es|, i requires 0 <= i < |es| => Frame(es[i], sha))
  }

  function ParseEnvelope(sha: Digest32): Parser {
    (frame: bytes) => Parse(frame, sha)
  }

  lemma {:induction false} FrameIsCut(lim: Limits, sha: Digest32, e: NetworkEnvelope, more: bytes)
    requires Sendable(lim, e)
    ensures Steps(lim, ParseEnvelope(sha))(Frame(e, sha) + more) == Cut(|Frame(e, sha)|, Ok(e))
  {
    var f := Frame(e, sha);
    FrameFields(e, sha);
    ParseInvertsSerialize(f, e, sha);
    assert f[..|f|] == f;
    assert NextStep(lim, ParseEnvelope(sha), f) == Cut(|f|, Ok(e));
    DecidedStepStays(lim, ParseEnvelope(sha), f, more);
  }

  lemma {:induction false} FramesComeBack(step: Stepper, frames: seq<bytes>, es: seq<NetworkEnvelope>)
    requires |frames| == |es| && step([]).Wait?
    requires forall i, more :: 0 <= i < |frames| ==> step(frames[i] + more) == Cut(|frames[i]|, Ok(es[i]))
    ensures Drain(step, Join(frames)) == Outcome(es, [], None)
    decreases |frames|
  {
    if es != [] {
      var f, others := frames[0], Join(frames[1..]);
      assert step(f + others) == Cut(|f|, Ok(es[0]));
      assert (f + others)[|f|..] == others;
      forall i, more | 0 <= i < |frames[1..]|
        ensures step(frames[1..][i] + more) == Cut(|frames[1..][i]|, Ok(es[1..][i]))
      {
        assert frames[1..][i] == frames[i + 1];
      }
      FramesComeBack(step, frames[1..], es[1..]);
      assert es == [es[0]] + es[1..];
    }
  }

  /**
   Garbage in which no magic starts, then serialized envelopes, in any chunks: exactly those envelopes, in
   order, nothing left over.
   */
  lemma {:induction false} EnvelopesSurviveTheStream(lim: Limits, sha: Digest32, garbage: bytes,
                                                     es: seq<NetworkEnvelope>, chunks: seq<bytes>)
    requires es != [] && forall i :: 0 <= i < |es| ==> Sendable(lim, es[i])
    requires Join(chunks) == garbage + Join(FramesOf(es, sha))
    requires forall i: nat :: i < |garbage| ==> !MagicAt(Join(chunks), i)
    requires Consumed(lim, ParseEnvelope(sha), chunks).error != Some(FrameBufferExceeded)
    ensures Consumed(lim, ParseEnvelope(sha), chunks) == Outcome(es, [], None)
  {
    var frames, step := FramesOf(es, sha), Steps(lim, ParseEnvelope(sha));
    forall i, more | 0 <= i < |frames| ensures step(frames[i] + more) == Cut(|frames[i]|, Ok(es[i])) {
      FrameIsCut(lim, sha, es[i], more);
    }
    FramesComeBack(step, frames, es);
    FrameFields(es[0], sha);
    assert Join(chunks)[|garbage|..] == Join(frames);
    SkippingIsHarmless(lim, ParseEnvelope(sha), Join(chunks), |garbage|);
    ChunkingIsIrrelevant(lim, ParseEnvelope(sha), chunks);
  }
}
