/**
 * Length-prefixed framing: what a byte stream stands for, and that feeding it to a decoder in any pieces gives that.
 * Both decoders of the source share this; they differ in byte order and in what bodies they accept.
 */
module Framing {
  import opened Bytes
  import opened Results

  const HEADER_BYTES := 4
  const MAX_UINT32 := 0xFFFF_FFFF

  datatype FramingError = DecoderClosed | BadFrame | Truncated | FrameTooLarge | BadLimit

  /** Byte order, length limit and accepted bodies. */
  datatype Codec = Codec(bigEndian: bool, max: nat, accepts: seq<Byte> -> bool)

  predicate ValidCodec(c: Codec) { 0 < c.max <= MAX_UINT32 }

  function ReadLength(c: Codec, header: seq<Byte>): nat {
    if c.bigEndian then FromBigEndian(header) else FromLittleEndian(header)
  }

  function WriteLength(c: Codec, n: nat): (header: seq<Byte>)
    ensures |header| == HEADER_BYTES
  {
    if c.bigEndian then BigEndian(n, HEADER_BYTES) else LittleEndian(n, HEADER_BYTES)
  }

  predicate LengthOk(c: Codec, n: nat) { 0 < n <= c.max }

  predicate BodyOk(c: Codec, body: seq<Byte>) { LengthOk(c, |body|) && c.accepts(body) }

  function Frame(c: Codec, body: seq<Byte>): seq<Byte> { WriteLength(c, |body|) + body }

  function Frames(c: Codec, bodies: seq<seq<Byte>>): seq<Byte> {
    if bodies == [] then [] else Frame(c, bodies[0]) + Frames(c, bodies[1..])
  }

  // ----- what a stream stands for

  datatype Tail = Partial(rest: seq<Byte>) | Bad

  datatype Reading = Reading(bodies: seq<seq<Byte>>, tail: Tail)

  function Prepend(body: seq<Byte>, r: Reading): Reading { Reading([body] + r.bodies, r.tail) }

  /** The bodies a stream carries, and the incomplete frame at its end, or the first error. */
  function Scan(c: Codec, s: seq<Byte>): Reading
    decreases |s|
  {
    if |s| < HEADER_BYTES then Reading([], Partial(s))
    else
      var n := ReadLength(c, s[..HEADER_BYTES]);
      if !LengthOk(c, n) then Reading([], Bad)
      else if |s| < HEADER_BYTES + n then Reading([], Partial(s))
      else
        var body := s[HEADER_BYTES..HEADER_BYTES + n];
        if !c.accepts(body) then Reading([], Bad)
        else Prepend(body, Scan(c, s[HEADER_BYTES + n..]))
  }

  // ----- a decoder fed in pieces

  /** What a decoder remembers between feeds: the bytes of an incomplete frame, or that it has failed. */
  datatype Decoder = Open(pending: seq<Byte>) | Failed

  function Feed(c: Codec, d: Decoder, chunk: seq<Byte>): (Decoder, Outcome<seq<seq<Byte>>, FramingError>) {
    if d.Failed? then (Failed, Err(DecoderClosed))
    else
      var r := Scan(c, d.pending + chunk);
      match r.tail
      case Partial(rest) => (Open(rest), Ok(r.bodies))
      case Bad => (Failed, Err(BadFrame))
  }

  function Finish(d: Decoder): Outcome<(), FramingError> {
    if d == Open([]) then Ok(()) else Err(Truncated)
  }

  /** All that the feeds return that do not throw, and the decoder afterwards. */
  function FeedAll(c: Codec, d: Decoder, chunks: seq<seq<Byte>>): (Decoder, seq<seq<Byte>>)
    decreases |chunks|
  {
    if chunks == [] then (d, [])
    else
      var step := Feed(c, d, chunks[0]);
      var later := FeedAll(c, step.0, chunks[1..]);
      (later.0, if step.1.Ok? then step.1.value + later.1 else later.1)
  }

  function Join(chunks: seq<seq<Byte>>): seq<Byte> {
    if chunks == [] then [] else chunks[0] + Join(chunks[1..])
  }

  // ----- reading on

  function Continue(first: Reading, second: Reading): Reading { Reading(first.bodies + second.bodies, second.tail) }

  lemma PrependContinue(body: seq<Byte>, first: Reading, second: Reading)
    ensures Continue(Prepend(body, first), second) == Prepend(body, Continue(first, second))
  {
    Assoc([body], first.bodies, second.bodies);
  }

  /** A stream that ends within a frame reads on from that frame; one that has gone wrong stays wrong. */
  lemma {:induction false} ScanOn(c: Codec, s: seq<Byte>, t: seq<Byte>)
    ensures match Scan(c, s).tail
      case Partial(rest) => Scan(c, s + t) == Continue(Scan(c, s), Scan(c, rest + t))
      case Bad => Scan(c, s + t) == Scan(c, s)
    decreases |s|
  {
    if |s| >= HEADER_BYTES {
      assert (s + t)[..HEADER_BYTES] == s[..HEADER_BYTES];
      var n := ReadLength(c, s[..HEADER_BYTES]);
      if LengthOk(c, n) && |s| >= HEADER_BYTES + n {
        var body := s[HEADER_BYTES..HEADER_BYTES + n];
        assert (s + t)[HEADER_BYTES..HEADER_BYTES + n] == body;
        if c.accepts(body) {
          var later := s[HEADER_BYTES + n..];
          assert (s + t)[HEADER_BYTES + n..] == later + t;
          ScanOn(c, later, t);
          var r := Scan(c, later);
          if r.tail.Partial? {
            PrependContinue(body, r, Scan(c, r.tail.rest + t));
          }
        }
      } else if LengthOk(c, n) {
        assert Scan(c, s) == Reading([], Partial(s));
        assert Continue(Reading([], Partial(s)), Scan(c, s + t)) == Scan(c, s + t);
      }
    } else {
      assert Continue(Reading([], Partial(s)), Scan(c, s + t)) == Scan(c, s + t);
    }
  }

  /** What is left over holds no whole frame: reading it again finds nothing new. */
  lemma {:induction false} RestIsPartial(c: Codec, s: seq<Byte>)
    requires Scan(c, s).tail.Partial?
    ensures var rest := Scan(c, s).tail.rest;
      Scan(c, rest) == Reading([], Partial(rest)) && |rest| < HEADER_BYTES + c.max && |rest| <= |s|
    decreases |s|
  {
    if |s| >= HEADER_BYTES {
      var n := ReadLength(c, s[..HEADER_BYTES]);
      if LengthOk(c, n) && |s| >= HEADER_BYTES + n {
        RestIsPartial(c, s[HEADER_BYTES + n..]);
      }
    }
  }

  /**
   * Chunking independence: however a stream is cut up, the feeds together return the bodies the stream carries and
   * leave its incomplete end; if the stream is bad the decoder has failed, having returned some first bodies only.
   */
  lemma {:induction false} ChunkingIndependence(c: Codec, d: Decoder, chunks: seq<seq<Byte>>)
    requires d.Open? && Scan(c, d.pending) == Reading([], Partial(d.pending))
    ensures var r := Scan(c, d.pending + Join(chunks));
      var (last, bodies) := FeedAll(c, d, chunks);
      match r.tail
      case Partial(rest) => last == Open(rest) && bodies == r.bodies
      case Bad => last == Failed && bodies <= r.bodies
    decreases |chunks|
  {
    if chunks == [] {
      assert d.pending + Join(chunks) == d.pending;
    } else {
      var s, t := d.pending + chunks[0], Join(chunks[1..]);
      Assoc(d.pending, chunks[0], t);
      ScanOn(c, s, t);
      if Scan(c, s).tail.Bad? {
        FailedForGood(c, chunks[1..]);
      } else {
        RestIsPartial(c, s);
        ChunkingIndependence(c, Open(Scan(c, s).tail.rest), chunks[1..]);
      }
    }
  }

  /** Failure is permanent: every later feed throws. */
  lemma {:induction false} FailedForGood(c: Codec, chunks: seq<seq<Byte>>)
    ensures FeedAll(c, Failed, chunks) == (Failed, [])
    ensures Finish(Failed).Err?
  {
    if chunks != [] {
      FailedForGood(c, chunks[1..]);
    }
  }

  // ----- encoding

  lemma LengthRoundTrip(c: Codec, n: nat)
    requires ValidCodec(c) && n <= MAX_UINT32
    ensures ReadLength(c, WriteLength(c, n)) == n
  {
    FourBytes();
    BigEndianRoundTrip(n, HEADER_BYTES);
    LittleEndianRoundTrip(n, HEADER_BYTES);
  }

  lemma ScanFrame(c: Codec, body: seq<Byte>, t: seq<Byte>)
    requires ValidCodec(c) && BodyOk(c, body)
    ensures Scan(c, Frame(c, body) + t) == Prepend(body, Scan(c, t))
  {
    LengthRoundTrip(c, |body|);
    var s := Frame(c, body) + t;
    assert s[..HEADER_BYTES] == WriteLength(c, |body|);
    assert s[HEADER_BYTES..HEADER_BYTES + |body|] == body;
    assert s[HEADER_BYTES + |body|..] == t;
  }

  lemma {:induction false} ScanFrames(c: Codec, bodies: seq<seq<Byte>>, t: seq<Byte>)
    requires ValidCodec(c) && forall i :: 0 <= i < |bodies| ==> BodyOk(c, bodies[i])
    ensures Scan(c, Frames(c, bodies) + t) == Continue(Reading(bodies, Partial([])), Scan(c, t))
  {
    if bodies == [] {
      assert [] + t == t;
    } else {
      ScanFrames(c, bodies[1..], t);
      ScanFrame(c, bodies[0], Frames(c, bodies[1..]) + t);
      Assoc(Frame(c, bodies[0]), Frames(c, bodies[1..]), t);
      assert bodies == [bodies[0]] + bodies[1..];
      PrependContinue(bodies[0], Reading(bodies[1..], Partial([])), Scan(c, t));
    }
  }

  /** The round trip, for every list of bodies and every partition of their encoded bytes. */
  lemma RoundTrip(c: Codec, bodies: seq<seq<Byte>>, chunks: seq<seq<Byte>>)
    requires ValidCodec(c) && forall i :: 0 <= i < |bodies| ==> BodyOk(c, bodies[i])
    requires Join(chunks) == Frames(c, bodies)
    ensures FeedAll(c, Open([]), chunks) == (Open([]), bodies)
    ensures Finish(FeedAll(c, Open([]), chunks).0).Ok?
  {
    ScanFrames(c, bodies, []);
    assert Frames(c, bodies) + [] == Frames(c, bodies) && [] + Join(chunks) == Join(chunks);
    assert bodies + [] == bodies;
    ChunkingIndependence(c, Open([]), chunks);
  }

  lemma HeaderRoundTrip(c: Codec, header: seq<Byte>)
    requires |header| == HEADER_BYTES
    ensures WriteLength(c, ReadLength(c, header)) == header
  {
    FromBigEndianRoundTrip(header);
    FromLittleEndianRoundTrip(header);
  }

  /** Conservation: the bytes fed are exactly the frames emitted and the bytes still pending. */
  lemma {:induction false} Conservation(c: Codec, s: seq<Byte>)
    requires Scan(c, s).tail.Partial?
    ensures s == Frames(c, Scan(c, s).bodies) + Scan(c, s).tail.rest
    ensures forall i :: 0 <= i < |Scan(c, s).bodies| ==> BodyOk(c, Scan(c, s).bodies[i])
    decreases |s|
  {
    if |s| >= HEADER_BYTES {
      var n := ReadLength(c, s[..HEADER_BYTES]);
      if LengthOk(c, n) && |s| >= HEADER_BYTES + n {
        var body, later := s[HEADER_BYTES..HEADER_BYTES + n], s[HEADER_BYTES + n..];
        Conservation(c, later);
        HeaderRoundTrip(c, s[..HEADER_BYTES]);
        assert s == Frame(c, body) + later;
        assert Scan(c, s).bodies[1..] == Scan(c, later).bodies;
        Assoc(Frame(c, body), Frames(c, Scan(c, later).bodies), Scan(c, later).tail.rest);
      }
    }
  }

  /** A fed stream finishes exactly when it is a sequence of whole frames with acceptable bodies. */
  lemma FinishAtBoundaries(c: Codec, chunks: seq<seq<Byte>>)
    requires ValidCodec(c)
    ensures Finish(FeedAll(c, Open([]), chunks).0).Ok? <==>
      exists bodies :: Join(chunks) == Frames(c, bodies) && forall i :: 0 <= i < |bodies| ==> BodyOk(c, bodies[i])
  {
    var s := Join(chunks);
    assert [] + s == s;
    ChunkingIndependence(c, Open([]), chunks);
    if Scan(c, s).tail == Partial([]) {
      Conservation(c, s);
      assert s == Frames(c, Scan(c, s).bodies);
    }
    forall bodies | s == Frames(c, bodies) && forall i :: 0 <= i < |bodies| ==> BodyOk(c, bodies[i])
      ensures Scan(c, s).tail == Partial([])
    {
      ScanFrames(c, bodies, []);
      assert s + [] == s;
    }
  }

  /** Between feeds a decoder holds less than one header and one maximal body. */
  lemma PendingBounded(c: Codec, chunks: seq<seq<Byte>>)
    ensures var d := FeedAll(c, Open([]), chunks).0;
      d.Open? ==> |d.pending| < HEADER_BYTES + c.max
  {
    assert [] + Join(chunks) == Join(chunks);
    ChunkingIndependence(c, Open([]), chunks);
    if Scan(c, Join(chunks)).tail.Partial? {
      RestIsPartial(c, Join(chunks));
    }
  }
}
