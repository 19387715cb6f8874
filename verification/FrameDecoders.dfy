/** The two incremental decoders and encoders as the source writes them: buffers and flags updated in a loop. */
module FrameDecoders {
  import opened Bytes
  import opened Results
  import opened Framing

  const HUB_MAX_FRAME_BYTES := 1024 * 1024
  const NATIVE_MAX_FRAME_BYTES := 1024 * 1024

  function HubCodec(max: nat): Codec { Codec(true, max, (body: seq<Byte>) => true) }

  function NativeCodec<M(!new)>(parse: seq<Byte> -> Option<M>): Codec {
    Codec(false, NATIVE_MAX_FRAME_BYTES, (body: seq<Byte>) => parse(body).Some?)
  }

  /** The validated messages of a list of bodies. */
  function Parsed<M>(parse: seq<Byte> -> Option<M>, bodies: seq<seq<Byte>>): seq<M>
    requires forall i :: 0 <= i < |bodies| ==> parse(bodies[i]).Some?
  {
    seq(|bodies|, i requires 0 <= i < |bodies| => parse(bodies[i]).value)
  }

  ghost predicate ParsesTo<M(!new)>(parse: seq<Byte> -> Option<M>, bodies: seq<seq<Byte>>, messages: seq<M>) {
    (forall i :: 0 <= i < |bodies| ==> parse(bodies[i]).Some?) && messages == Parsed(parse, bodies)
  }

  lemma ParsesOneMore<M(!new)>(parse: seq<Byte> -> Option<M>, bodies: seq<seq<Byte>>, messages: seq<M>, body: seq<Byte>)
    requires ParsesTo(parse, bodies, messages) && parse(body).Some?
    ensures ParsesTo(parse, bodies + [body], messages + [parse(body).value])
  {
  }

  // ----- the state of a decoder

  /** The bytes of the incomplete frame: a header already taken off the buffer, and the buffer. */
  function Pending(c: Codec, buffered: seq<Byte>, expected: Option<nat>): seq<Byte> {
    (if expected.Some? then WriteLength(c, expected.value) else []) + buffered
  }

  /** A header that has been read is the length it was read as. */
  predicate Header(c: Codec, expected: Option<nat>) {
    expected.Some? ==> LengthOk(c, expected.value) && ReadLength(c, WriteLength(c, expected.value)) == expected.value
  }

  predicate Settled(c: Codec, buffered: seq<Byte>, expected: Option<nat>) {
    && Header(c, expected)
    && if expected.Some? then |buffered| < expected.value else |buffered| < HEADER_BYTES
  }

  // ----- what each turn of the loop does to the reading of what is left

  /** The bodies taken so far, and what is left, are together what the whole stream reads as. */
  ghost predicate Progress(c: Codec, all: seq<Byte>, bodies: seq<seq<Byte>>, buffered: seq<Byte>,
          expected: Option<nat>) {
    Header(c, expected) && Scan(c, all) == Continue(Reading(bodies, Bad), Scan(c, Pending(c, buffered, expected)))
  }

  lemma Begin(c: Codec, buffered: seq<Byte>, expected: Option<nat>, chunk: seq<Byte>)
    requires Header(c, expected)
    ensures Progress(c, Pending(c, buffered, expected) + chunk, [], buffered + chunk, expected)
  {
    assert Pending(c, buffered, expected) + chunk == Pending(c, buffered + chunk, expected);
    var r := Scan(c, Pending(c, buffered + chunk, expected));
    assert [] + r.bodies == r.bodies;
  }

  lemma TakeHeader(c: Codec, all: seq<Byte>, bodies: seq<seq<Byte>>, buffered: seq<Byte>)
    requires Progress(c, all, bodies, buffered, None) && |buffered| >= HEADER_BYTES
    ensures var n := ReadLength(c, buffered[..HEADER_BYTES]);
      if LengthOk(c, n) then Progress(c, all, bodies, buffered[HEADER_BYTES..], Some(n)) else Scan(c, all).tail.Bad?
  {
    HeaderRoundTrip(c, buffered[..HEADER_BYTES]);
    assert Pending(c, buffered, None) == buffered;
    var n := ReadLength(c, buffered[..HEADER_BYTES]);
    assert Pending(c, buffered[HEADER_BYTES..], Some(n)) == buffered;
  }

  lemma ScanBody(c: Codec, buffered: seq<Byte>, n: nat)
    requires Header(c, Some(n)) && |buffered| >= n
    ensures var s := Pending(c, buffered, Some(n));
      if c.accepts(buffered[..n]) then Scan(c, s) == Prepend(buffered[..n], Scan(c, buffered[n..]))
      else Scan(c, s) == Reading([], Bad)
  {
    var s := Pending(c, buffered, Some(n));
    assert s[..HEADER_BYTES] == WriteLength(c, n);
    assert s[HEADER_BYTES..HEADER_BYTES + n] == buffered[..n];
    assert s[HEADER_BYTES + n..] == buffered[n..];
  }

  lemma TakeBody(c: Codec, all: seq<Byte>, bodies: seq<seq<Byte>>, buffered: seq<Byte>, n: nat)
    requires Progress(c, all, bodies, buffered, Some(n)) && |buffered| >= n
    ensures if c.accepts(buffered[..n]) then Progress(c, all, bodies + [buffered[..n]], buffered[n..], None)
      else Scan(c, all).tail.Bad?
  {
    ScanBody(c, buffered, n);
    assert Pending(c, buffered[n..], None) == buffered[n..];
    Assoc(bodies, [buffered[..n]], Scan(c, buffered[n..]).bodies);
  }

  lemma TakeMessage<M(!new)>(parse: seq<Byte> -> Option<M>, all: seq<Byte>, bodies: seq<seq<Byte>>, messages: seq<M>,
                             buffered: seq<Byte>, n: nat)
    requires Progress(NativeCodec(parse), all, bodies, buffered, Some(n)) && |buffered| >= n
    requires ParsesTo(parse, bodies, messages)
    ensures match parse(buffered[..n])
      case None => Scan(NativeCodec(parse), all).tail.Bad?
      case Some(message) =>
        Progress(NativeCodec(parse), all, bodies + [buffered[..n]], buffered[n..], None)
        && ParsesTo(parse, bodies + [buffered[..n]], messages + [message])
  {
    TakeBody(NativeCodec(parse), all, bodies, buffered, n);
    if parse(buffered[..n]).Some? {
      ParsesOneMore(parse, bodies, messages, buffered[..n]);
    }
  }

  lemma NothingWhole(c: Codec, buffered: seq<Byte>, expected: Option<nat>)
    requires Settled(c, buffered, expected)
    ensures var s := Pending(c, buffered, expected); Scan(c, s) == Reading([], Partial(s))
  {
    var s := Pending(c, buffered, expected);
    if expected.Some? {
      assert s[..HEADER_BYTES] == WriteLength(c, expected.value);
    }
  }

  lemma Stop(c: Codec, all: seq<Byte>, bodies: seq<seq<Byte>>, buffered: seq<Byte>, expected: Option<nat>)
    requires Progress(c, all, bodies, buffered, expected) && Settled(c, buffered, expected)
    ensures Scan(c, all) == Reading(bodies, Partial(Pending(c, buffered, expected)))
  {
    NothingWhole(c, buffered, expected);
    assert bodies + [] == bodies;
  }

  // ----- the hub's decoder

  class HubFrameDecoder {
    const maxFrameBytes: nat
    var buffered: seq<Byte>
    var expectedLength: Option<nat>
    var failed: bool

    ghost predicate Valid() reads this {
      && ValidCodec(HubCodec(maxFrameBytes))
      && (failed ==> expectedLength.Some?)
      && (!failed ==> Settled(HubCodec(maxFrameBytes), buffered, expectedLength))
    }

    ghost function View(): Decoder reads this {
      if failed then Failed else Open(Pending(HubCodec(maxFrameBytes), buffered, expectedLength))
    }

    constructor (max: nat)
      requires 0 < max <= MAX_UINT32
      ensures Valid() && maxFrameBytes == max && View() == Open([])
    {
      maxFrameBytes, buffered, expectedLength, failed := max, [], None, false;
    }

    method Feed(chunk: seq<Byte>) returns (result: Outcome<seq<seq<Byte>>, FramingError>)
      requires Valid()
      modifies this
      ensures Valid() && (View(), result) == Framing.Feed(HubCodec(maxFrameBytes), old(View()), chunk)
    {
      if failed {
        return Err(DecoderClosed);
      }
      ghost var c := HubCodec(maxFrameBytes);
      ghost var all := Pending(c, buffered, expectedLength) + chunk;
      Begin(c, buffered, expectedLength, chunk);
      if |chunk| == 0 {
        assert buffered + chunk == buffered;
        Stop(c, all, [], buffered, expectedLength);
        return Ok([]);
      }
      assert |buffered| == 0 ==> buffered + chunk == chunk;
      buffered := if |buffered| == 0 then chunk else buffered + chunk;
      result := TakeFrames(all);
    }

    /** The loop of a feed: whole frames off the buffer, until none is left or one is bad. */
    method TakeFrames(ghost all: seq<Byte>) returns (result: Outcome<seq<seq<Byte>>, FramingError>)
      requires ValidCodec(HubCodec(maxFrameBytes)) && !failed
      requires Progress(HubCodec(maxFrameBytes), all, [], buffered, expectedLength)
      modifies this
      ensures Valid()
      ensures match Scan(HubCodec(maxFrameBytes), all).tail
        case Partial(rest) => View() == Open(rest) && result == Ok(Scan(HubCodec(maxFrameBytes), all).bodies)
        case Bad => View() == Failed && result == Err(BadFrame)
    {
      ghost var c := HubCodec(maxFrameBytes);
      var frames: seq<seq<Byte>> := [];
      while true
        invariant !failed && Progress(c, all, frames, buffered, expectedLength)
        decreases |buffered|, expectedLength.None?
      {
        if expectedLength.None? {
          if |buffered| < HEADER_BYTES {
            break;
          }
          TakeHeader(c, all, frames, buffered);
          expectedLength := Some(FromBigEndian(buffered[..HEADER_BYTES]));
          buffered := buffered[HEADER_BYTES..];
          if expectedLength.value == 0 || expectedLength.value > maxFrameBytes {
            failed := true;
            return Err(BadFrame);
          }
        }
        if |buffered| < expectedLength.value {
          break;
        }
        TakeBody(c, all, frames, buffered, expectedLength.value);
        frames := frames + [buffered[..expectedLength.value]];
        buffered := buffered[expectedLength.value..];
        expectedLength := None;
      }
      Stop(c, all, frames, buffered, expectedLength);
      return Ok(frames);
    }

    method Finish() returns (result: Outcome<(), FramingError>)
      requires Valid()
      ensures result == Framing.Finish(View())
    {
      if expectedLength.Some? || |buffered| != 0 {
        return Err(Truncated);
      }
      return Ok(());
    }

    method PendingBytes() returns (n: nat)
      requires Valid()
      ensures !failed ==> n == |View().pending| < HEADER_BYTES + maxFrameBytes
    {
      n := |buffered| + if expectedLength.None? then 0 else HEADER_BYTES;
    }
  }

  /** The constructor's range check. */
  method NewHubFrameDecoder(max: int) returns (result: Outcome<HubFrameDecoder, FramingError>)
    ensures result.Ok? <==> 1 <= max <= MAX_UINT32
    ensures result.Ok? ==> fresh(result.value) && result.value.Valid()
    ensures result.Ok? ==> result.value.maxFrameBytes == max && result.value.View() == Open([])
  {
    if max < 1 || max > MAX_UINT32 {
      return Err(BadLimit);
    }
    var decoder := new HubFrameDecoder(max);
    return Ok(decoder);
  }

  // ----- the native host's decoder

  class NativeMessageDecoder<M(!new)> {
    /** JSON parsing and message validation. */
    const parse: seq<Byte> -> Option<M>
    var buffered: seq<Byte>
    var expectedLength: Option<nat>
    var failed: bool

    ghost predicate Valid() reads this {
      && (failed ==> expectedLength.Some?)
      && (!failed ==> Settled(NativeCodec(parse), buffered, expectedLength))
    }

    ghost function View(): Decoder reads this {
      if failed then Failed else Open(Pending(NativeCodec(parse), buffered, expectedLength))
    }

    constructor (parse: seq<Byte> -> Option<M>)
      ensures Valid() && this.parse == parse && View() == Open([])
    {
      this.parse := parse;
      buffered, expectedLength, failed := [], None, false;
    }

    method Feed(chunk: seq<Byte>) returns (result: Outcome<seq<M>, FramingError>)
      requires Valid()
      modifies this
      ensures Valid()
      ensures var (after, fed) := Framing.Feed(NativeCodec(parse), old(View()), chunk);
        && View() == after
        && match fed
           case Err(e) => result == Err(e)
           case Ok(bodies) => result.Ok? && ParsesTo(parse, bodies, result.value)
    {
      if failed {
        return Err(DecoderClosed);
      }
      ghost var c := NativeCodec(parse);
      ghost var all := Pending(c, buffered, expectedLength) + chunk;
      Begin(c, buffered, expectedLength, chunk);
      if |chunk| == 0 {
        assert buffered + chunk == buffered;
        Stop(c, all, [], buffered, expectedLength);
        assert ParsesTo(parse, [], []);
        return Ok([]);
      }
      assert |buffered| == 0 ==> buffered + chunk == chunk;
      buffered := if |buffered| == 0 then chunk else buffered + chunk;
      result := TakeMessages(all);
    }

    /** The loop of a feed: whole messages off the buffer, until none is left or one is bad. */
    method TakeMessages(ghost all: seq<Byte>) returns (result: Outcome<seq<M>, FramingError>)
      requires !failed && Progress(NativeCodec(parse), all, [], buffered, expectedLength)
      modifies this
      ensures Valid()
      ensures match Scan(NativeCodec(parse), all).tail
        case Partial(rest) =>
          View() == Open(rest) && result.Ok? && ParsesTo(parse, Scan(NativeCodec(parse), all).bodies, result.value)
        case Bad => View() == Failed && result == Err(BadFrame)
    {
      ghost var c := NativeCodec(parse);
      var messages: seq<M> := [];
      ghost var bodies: seq<seq<Byte>> := [];
      assert ParsesTo(parse, bodies, messages);
      while true
        invariant !failed && Progress(c, all, bodies, buffered, expectedLength)
        invariant ParsesTo(parse, bodies, messages)
        decreases |buffered|, expectedLength.None?
      {
        if expectedLength.None? {
          if |buffered| < HEADER_BYTES {
            break;
          }
          TakeHeader(c, all, bodies, buffered);
          expectedLength := Some(FromLittleEndian(buffered[..HEADER_BYTES]));
          buffered := buffered[HEADER_BYTES..];
          if expectedLength.value == 0 || expectedLength.value > NATIVE_MAX_FRAME_BYTES {
            failed := true;
            return Err(BadFrame);
          }
        }
        if |buffered| < expectedLength.value {
          break;
        }
        TakeMessage(parse, all, bodies, messages, buffered, expectedLength.value);
        var body := buffered[..expectedLength.value];
        buffered := buffered[expectedLength.value..];
        var message := parse(body);
        if message.None? {
          failed := true;
          return Err(BadFrame);
        }
        messages := messages + [message.value];
        bodies := bodies + [body];
        expectedLength := None;
      }
      Stop(c, all, bodies, buffered, expectedLength);
      return Ok(messages);
    }

    method Finish() returns (result: Outcome<(), FramingError>)
      requires Valid()
      ensures result == Framing.Finish(View())
    {
      if expectedLength.Some? || |buffered| != 0 {
        return Err(Truncated);
      }
      return Ok(());
    }
  }

  // ----- the encoders

  /** A freshly allocated frame, or an error exactly when the payload is empty or over the limit. */
  method EncodeHubFrame(payload: seq<Byte>, max: nat) returns (result: Outcome<array<Byte>, FramingError>)
    ensures result.Ok? <==> BodyOk(HubCodec(max), payload) && |payload| <= MAX_UINT32
    ensures result.Ok? ==> fresh(result.value) && result.value[..] == Frame(HubCodec(max), payload)
  {
    if |payload| == 0 || |payload| > max || |payload| > MAX_UINT32 {
      return Err(FrameTooLarge);
    }
    var frame := new Byte[HEADER_BYTES + |payload|];
    var header := BigEndian(|payload|, HEADER_BYTES);
    forall i | 0 <= i < HEADER_BYTES {
      frame[i] := header[i];
    }
    forall i | 0 <= i < |payload| {
      frame[HEADER_BYTES + i] := payload[i];
    }
    assert frame[..] == header + payload;
    return Ok(frame);
  }

  method EncodeNativeFrame<M(!new)>(message: M, validate: M -> bool, toJson: M -> seq<Byte>,
          parse: seq<Byte> -> Option<M>)
    returns (result: Outcome<array<Byte>, FramingError>)
    requires forall m :: validate(m) ==> parse(toJson(m)) == Some(m)
    ensures result.Ok? <==> validate(message) && 0 < |toJson(message)| <= NATIVE_MAX_FRAME_BYTES
    ensures result.Ok? ==> fresh(result.value) && result.value[..] == Frame(NativeCodec(parse), toJson(message))
    ensures result.Ok? ==> BodyOk(NativeCodec(parse), toJson(message))
  {
    if !validate(message) {
      return Err(BadFrame);
    }
    var json := toJson(message);
    if |json| == 0 || |json| > NATIVE_MAX_FRAME_BYTES {
      return Err(FrameTooLarge);
    }
    var frame := new Byte[HEADER_BYTES + |json|];
    var header := LittleEndian(|json|, HEADER_BYTES);
    forall i | 0 <= i < HEADER_BYTES {
      frame[i] := header[i];
    }
    forall i | 0 <= i < |json| {
      frame[HEADER_BYTES + i] := json[i];
    }
    assert frame[..] == header + json;
    return Ok(frame);
  }

  /** The native round trip: printed messages, in any pieces, are parsed back in order. */
  lemma NativeRoundTrip<M(!new)>(messages: seq<M>, toJson: M -> seq<Byte>, parse: seq<Byte> -> Option<M>,
          chunks: seq<seq<Byte>>)
    requires forall i :: 0 <= i < |messages| ==>
      parse(toJson(messages[i])) == Some(messages[i]) && 0 < |toJson(messages[i])| <= NATIVE_MAX_FRAME_BYTES
    requires Join(chunks) ==
      Frames(NativeCodec(parse), seq(|messages|, i requires 0 <= i < |messages| => toJson(messages[i])))
    ensures var (last, bodies) := FeedAll(NativeCodec(parse), Open([]), chunks);
      && last == Open([]) && Framing.Finish(last).Ok?
      && ParsesTo(parse, bodies, messages)
  {
    RoundTrip(NativeCodec(parse), seq(|messages|, i requires 0 <= i < |messages| => toJson(messages[i])), chunks);
  }
}
