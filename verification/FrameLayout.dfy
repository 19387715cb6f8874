/**
 * The bytes of the two framings: what a frame is on the wire, which bodies may be framed, and which streams a decoder
 * refuses.
 */
module FrameLayout {
  import opened Bytes
  import opened Results
  import opened Framing
  import opened FrameDecoders

  /** The four bytes of a 32-bit length, the highest first. */
  function HighFirst(n: nat): seq<Byte> { [n / 0x100_0000 % 256, n / 0x1_0000 % 256, n / 0x100 % 256, n % 256] }

  /** And the lowest first. */
  function LowFirst(n: nat): seq<Byte> { [n % 256, n / 0x100 % 256, n / 0x1_0000 % 256, n / 0x100_0000 % 256] }

  lemma LengthBytes(n: nat)
    ensures BigEndian(n, 4) == HighFirst(n) && LittleEndian(n, 4) == LowFirst(n)
  {
    var a, b, c := n / 0x100, n / 0x1_0000, n / 0x100_0000;
    assert a / 0x100 == b && b / 0x100 == c;
    assert BigEndian(c, 1) == [c % 256] && BigEndian(b, 2) == [c % 256, b % 256];
    assert BigEndian(a, 3) == [c % 256, b % 256, a % 256];
    assert LittleEndian(c, 1) == [c % 256] && LittleEndian(b, 2) == [b % 256, c % 256];
    assert LittleEndian(a, 3) == [a % 256, b % 256, c % 256];
  }

  /** A hub frame is its length, highest byte first, and its payload of 1 to `max` bytes. */
  lemma HubLayout(max: nat, payload: seq<Byte>)
    ensures Frame(HubCodec(max), payload) == HighFirst(|payload|) + payload
    ensures BodyOk(HubCodec(max), payload) <==> 1 <= |payload| <= max
  {
    LengthBytes(|payload|);
  }

  /** A native message is its length, lowest byte first, and its JSON of 1 to 1048576 bytes that parses. */
  lemma NativeLayout<M(!new)>(parse: seq<Byte> -> Option<M>, body: seq<Byte>)
    ensures Frame(NativeCodec(parse), body) == LowFirst(|body|) + body
    ensures BodyOk(NativeCodec(parse), body) <==> 1 <= |body| <= 1048576 && parse(body).Some?
  {
    LengthBytes(|body|);
  }

  // ----- refused streams

  /** The stream goes on with a header that announces too little or too much, or with a whole frame of another body. */
  ghost predicate Refused(c: Codec, s: seq<Byte>) {
    && |s| >= 4
    && var n := if c.bigEndian then FromBigEndian(s[..4]) else FromLittleEndian(s[..4]);
       n < 1 || n > c.max || (|s| >= 4 + n && !c.accepts(s[4..4 + n]))
  }

  lemma RefusedAtOnce(c: Codec, s: seq<Byte>)
    ensures Refused(c, s) <==> Scan(c, s) == Reading([], Bad)
  {
  }

  lemma {:induction false} BadBehindFrames(c: Codec, s: seq<Byte>)
    requires Scan(c, s).tail.Bad?
    ensures exists rest :: s == Frames(c, Scan(c, s).bodies) + rest && Refused(c, rest)
    ensures forall i :: 0 <= i < |Scan(c, s).bodies| ==> BodyOk(c, Scan(c, s).bodies[i])
    decreases |s|
  {
    if Scan(c, s) == Reading([], Bad) {
      RefusedAtOnce(c, s);
      assert s == Frames(c, []) + s;
    } else {
      var n := ReadLength(c, s[..HEADER_BYTES]);
      var body, later := s[HEADER_BYTES..HEADER_BYTES + n], s[HEADER_BYTES + n..];
      BadBehindFrames(c, later);
      var bodies := Scan(c, later).bodies;
      var rest :| later == Frames(c, bodies) + rest && Refused(c, rest);
      HeaderRoundTrip(c, s[..HEADER_BYTES]);
      assert s == Frame(c, body) + later;
      Assoc(Frame(c, body), Frames(c, bodies), rest);
      assert ([body] + bodies)[1..] == bodies;
      assert s == Frames(c, [body] + bodies) + rest;
    }
  }

  /** Some whole frames, then a bad header or a whole frame of a body that is not accepted. */
  ghost predicate GoesWrong(c: Codec, s: seq<Byte>) {
    exists bodies, rest :: GoesWrongAfter(c, s, bodies, rest)
  }

  ghost predicate GoesWrongAfter(c: Codec, s: seq<Byte>, bodies: seq<seq<Byte>>, rest: seq<Byte>) {
    s == Frames(c, bodies) + rest && Refused(c, rest) && forall i :: 0 <= i < |bodies| ==> BodyOk(c, bodies[i])
  }

  lemma BadIff(c: Codec, s: seq<Byte>)
    requires ValidCodec(c)
    ensures Scan(c, s).tail.Bad? <==> GoesWrong(c, s)
  {
    if Scan(c, s).tail.Bad? {
      BadBehindFrames(c, s);
      var rest :| s == Frames(c, Scan(c, s).bodies) + rest && Refused(c, rest);
      assert GoesWrongAfter(c, s, Scan(c, s).bodies, rest);
    }
    if GoesWrong(c, s) {
      var bodies, rest :| GoesWrongAfter(c, s, bodies, rest);
      ScanFrames(c, bodies, rest);
      RefusedAtOnce(c, rest);
    }
  }

  /** A decoder fed a stream, in whatever pieces, has failed afterwards exactly if the stream goes wrong. */
  lemma FailsIff(c: Codec, chunks: seq<seq<Byte>>)
    requires ValidCodec(c)
    ensures FeedAll(c, Open([]), chunks).0.Failed? <==> GoesWrong(c, Join(chunks))
  {
    assert [] + Join(chunks) == Join(chunks);
    ChunkingIndependence(c, Open([]), chunks);
    BadIff(c, Join(chunks));
  }
}
