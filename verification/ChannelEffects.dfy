/**
 * What the channel operations do in every run, told by the history alone: which frames they seal and at which
 * positions, what they are answered, what an end's status says and how frames out of their place are refused.
 * A position is read off the frames sealed so far.
 */
module ChannelEffects {
  import opened Bytes
  import opened Results
  import opened Channel
  import opened ChannelNetwork

  // ----- the wire format

  /** Version 1; type 1 for data, 2 for close, 3 for rekey; then epoch in four bytes, counter in eight, big-endian. */
  lemma HeaderLayout(kind: Kind, epoch: nat, counter: nat)
    requires epoch <= 0xFFFF_FFFF && counter < 0x1_0000_0000
    ensures var h := FrameHeader(kind, epoch, counter);
      && |h| == 14 && h[0] == 1 && h[1] == (match kind case DataFrame => 1 case CloseFrame => 2 case RekeyFrame => 3)
      && FromBigEndian(h[2..6]) == epoch && FromBigEndian(h[6..14]) == counter
    ensures var nonce := FrameNonce(epoch, counter);
      |nonce| == 12 && FromBigEndian(nonce[..4]) == epoch && FromBigEndian(nonce[4..]) == counter
  {
    HeaderParts(kind, epoch, counter);
    NonceParts(epoch, counter);
    assert FrameHeader(kind, epoch, counter)[6..14] == FrameHeader(kind, epoch, counter)[6..];
  }

  // ----- sealing

  function LimitsOf(role: Role, initiator: Limits, responder: Limits): Limits {
    if role.Initiator? then initiator else responder
  }

  /** The frame at a position of one direction: sealed under that epoch's key, with its header as associated data. */
  function FrameIn(root: Secret, p: Position, kind: Kind, payload: seq<Byte>): Frame {
    var header := FrameHeader(kind, p.epoch, p.counter);
    Framed(header, Sealed(KeyOf(ChainAt(root, p.epoch)), FrameNonce(p.epoch, p.counter), header, payload))
  }

  /**
   * What sealing at a position gives: one frame there while it is not the last of its epoch; else a rekey there and the
   * frame first in the next epoch; and no frame at all in the last position of the last epoch.
   */
  function SealedAt(root: Secret, l: Limits, p: Position, kind: Kind, payload: seq<Byte>)
    : Outcome<seq<Frame>, Failure>
  {
    if p.counter + 1 < l.framesPerEpoch then Ok([FrameIn(root, p, kind, payload)])
    else if p.epoch < l.maxEpoch then
      Ok([FrameIn(root, p, RekeyFrame, []), FrameIn(root, Position(p.epoch + 1, 0), kind, payload)])
    else Err(CounterExhausted)
  }

  lemma SealsThere(session: Session, role: Role, e: End, kind: Kind, payload: seq<Byte>)
    requires SenderInv(session, role, e) && !e.channel.failed && !e.channel.localClosed
    ensures SealingInOrder(e.channel, kind, payload).result ==
      SealedAt(Root(session, role), e.channel.limits, PositionAfter(e.sealed), kind, payload)
    ensures SealingInOrder(e.channel, kind, payload).result.Err? ==>
      SealingInOrder(e.channel, kind, payload).state == FailChannel(e.channel)
  {
  }

  /** An end is closed exactly when its history has a close, and by its peer exactly when it holds a receipt of that. */
  ghost predicate ClosesOnRecord(e: End) {
    && |e.closings| <= 1
    && (e.channel.localClosed <==> |e.closings| == 1)
    && (e.channel.peerClosed <==> HoldsClose(e))
  }

  lemma ReceiptRecorded(e: End, frame: Frame)
    requires ClosesOnRecord(e)
    ensures ClosesOnRecord(Act(e, Offer(frame)))
  {
    var e' := Act(e, Offer(frame));
    var step := Receiving(e.channel, frame);
    if step.result.Ok? {
      var n := |e.receipts|;
      assert e'.receipts == e.receipts + [step.result.value] && e'.receipts[n] == step.result.value;
      assert forall k :: 0 <= k < n ==> e'.receipts[k] == e.receipts[k];
      Accepted(e.channel, frame);
    } else {
      assert e'.receipts == e.receipts;
      RejectionChangesNothing(e.channel, frame);
    }
  }

  lemma CloseRecorded(e: End, action: Action)
    requires ClosesOnRecord(e) && !action.Offer?
    ensures ClosesOnRecord(Act(e, action))
  {
    SendingSideOnly(e, action);
    assert e.closings + [] == e.closings;
  }

  lemma {:induction false} RunRecordsCloses(w: World, trace: seq<Event>)
    requires ClosesOnRecord(w.initiator) && ClosesOnRecord(w.responder)
    ensures ClosesOnRecord(Run(w, trace).initiator) && ClosesOnRecord(Run(w, trace).responder)
    decreases |trace|
  {
    if trace != [] {
      var e := At(w, trace[0].who);
      match trace[0].action {
        case Offer(frame) => ReceiptRecorded(e, frame);
        case _ => CloseRecorded(e, trace[0].action);
      }
      RunRecordsCloses(Next(w, trace[0]), trace[1..]);
    }
  }

  /** All that a run keeps of one end: the invariant, its limits and its closes on record. */
  lemma Reached(session: Session, initiator: Limits, responder: Limits, trace: seq<Event>, role: Role)
    requires ValidLimits(initiator) && ValidLimits(responder)
    requires Legal(session, Start(session, initiator, responder), trace)
    ensures var w := Run(Start(session, initiator, responder), trace);
      && Inv(session, w) && PairInv(session, role, At(w, role), At(w, Opposite(role))) && ClosesOnRecord(At(w, role))
      && At(w, role).channel.limits == LimitsOf(role, initiator, responder)
  {
    var start := Start(session, initiator, responder);
    StartInv(session, initiator, responder);
    RunKeepsInv(session, start, trace);
    RunKeepsFit(session, start, trace);
    RunRecordsCloses(start, trace);
    InvFrom(session, Run(start, trace), role);
  }

  /**
   * A send, over every run: refused without a trace by a failed or closed side and for a payload above the end's own
   * bound; else its frames are those of the end's position, and running out of positions fails the channel.
   */
  lemma SendExactly(session: Session, initiator: Limits, responder: Limits, trace: seq<Event>, role: Role,
      payload: seq<Byte>)
    requires ValidLimits(initiator) && ValidLimits(responder)
    requires Legal(session, Start(session, initiator, responder), trace)
    ensures var e := At(Run(Start(session, initiator, responder), trace), role);
      var e', answer := Act(e, Send(payload)), Sending(e.channel, payload).result;
      var l := LimitsOf(role, initiator, responder);
      var gives := SealedAt(Root(session, role), l, PositionAfter(e.sealed), DataFrame, payload);
      if e.channel.failed || e.closings != [] then answer == Err(ChannelClosed) && e' == e
      else if |payload| > l.maxFrameBytes then answer == Err(FrameTooLarge) && e' == e
      else
        && answer == gives
        && e'.sealed == e.sealed + (if gives.Ok? then gives.value else [])
        && e'.sent == e.sent + (if gives.Ok? then [payload] else [])
        && (e'.channel.failed <==> gives.Err?)
  {
    Reached(session, initiator, responder, trace, role);
    var e := At(Run(Start(session, initiator, responder), trace), role);
    assert e.sealed + [] == e.sealed && e.sent + [] == e.sent;
    if !e.channel.failed && !e.channel.localClosed {
      SealsThere(session, role, e, DataFrame, payload);
      SealInOrderKeeps(session, role, e, DataFrame, payload);
    }
  }

  lemma ClosesThere(session: Session, role: Role, e: End, reason: Option<Text>)
    requires SenderInv(session, role, e) && ClosesOnRecord(e)
    ensures var e', answer := Act(e, Close(reason)), Closing(e.channel, reason).result;
      var l := e.channel.limits;
      var gives := SealedAt(Root(session, role), l, PositionAfter(e.sealed), CloseFrame, ReasonBytes(reason));
      if e.channel.failed || e.closings != [] then answer == Err(ChannelClosed) && e' == e
      else if reason.Some? && |reason.value| > 1024 then answer == Err(BadReason) && e' == e
      else if |ReasonBytes(reason)| > l.maxFrameBytes then answer == Err(FrameTooLarge) && e' == e
      else
        && answer == gives
        && e'.sealed == e.sealed + (if gives.Ok? then gives.value else [])
        && e'.closings == (if gives.Ok? then [reason] else [])
        && (e'.channel.failed <==> gives.Err?)
  {
    var bytes := ReasonBytes(reason);
    assert e.sealed + [] == e.sealed && e.closings + [] == e.closings;
    assert Closing(e.channel, reason) ==
      if e.channel.failed || e.channel.localClosed then Step(e.channel, Err(ChannelClosed))
      else if reason.Some? && |reason.value| > 1024 then Step(e.channel, Err(BadReason))
      else if |bytes| > e.channel.limits.maxFrameBytes then Step(e.channel, Err(FrameTooLarge))
      else
        var step := SealingInOrder(e.channel, CloseFrame, bytes);
        if step.result.Err? then step
        else Step(step.state.(localClosed := true, send := Destroyed(step.state.send)), step.result);
    if !e.channel.failed && !e.channel.localClosed {
      SealsThere(session, role, e, CloseFrame, bytes);
      SealInOrderKeeps(session, role, e, CloseFrame, bytes);
    }
  }

  /** A close, over every run: the same with the reason's UTF-8, after a check of its length in characters. */
  lemma CloseExactly(session: Session, initiator: Limits, responder: Limits, trace: seq<Event>, role: Role,
      reason: Option<Text>)
    requires ValidLimits(initiator) && ValidLimits(responder)
    requires Legal(session, Start(session, initiator, responder), trace)
    ensures var e := At(Run(Start(session, initiator, responder), trace), role);
      var e', answer := Act(e, Close(reason)), Closing(e.channel, reason).result;
      var l := LimitsOf(role, initiator, responder);
      var gives := SealedAt(Root(session, role), l, PositionAfter(e.sealed), CloseFrame, ReasonBytes(reason));
      if e.channel.failed || e.closings != [] then answer == Err(ChannelClosed) && e' == e
      else if reason.Some? && |reason.value| > 1024 then answer == Err(BadReason) && e' == e
      else if |ReasonBytes(reason)| > l.maxFrameBytes then answer == Err(FrameTooLarge) && e' == e
      else
        && answer == gives
        && e'.sealed == e.sealed + (if gives.Ok? then gives.value else [])
        && e'.closings == (if gives.Ok? then [reason] else [])
        && (e'.channel.failed <==> gives.Err?)
  {
    Reached(session, initiator, responder, trace, role);
    ClosesThere(session, role, At(Run(Start(session, initiator, responder), trace), role), reason);
  }

  /** An explicit rekey, over every run: one frame at the end's position, or in the last epoch the channel's failure. */
  lemma RekeyExactly(session: Session, initiator: Limits, responder: Limits, trace: seq<Event>, role: Role)
    requires ValidLimits(initiator) && ValidLimits(responder)
    requires Legal(session, Start(session, initiator, responder), trace)
    ensures var e := At(Run(Start(session, initiator, responder), trace), role);
      var e', answer, p := Act(e, Rekey), Rekeying(e.channel).result, PositionAfter(e.sealed);
      var frame := FrameIn(Root(session, role), p, RekeyFrame, []);
      if e.channel.failed || e.closings != [] then answer == Err(ChannelClosed) && e' == e
      else if p.epoch < LimitsOf(role, initiator, responder).maxEpoch then
        answer == Ok(frame) && e'.sealed == e.sealed + [frame] && !e'.channel.failed
      else answer == Err(CounterExhausted) && e'.sealed == e.sealed && e'.channel.failed
  {
    Reached(session, initiator, responder, trace, role);
    var e := At(Run(Start(session, initiator, responder), trace), role);
    assert e.sealed + [] == e.sealed;
  }

  // ----- what an end says of itself

  /** The status, over every run: read off the end's own close, its peer's close in its receipts, and a failure. */
  lemma StatusExactly(session: Session, initiator: Limits, responder: Limits, trace: seq<Event>, role: Role)
    requires ValidLimits(initiator) && ValidLimits(responder)
    requires Legal(session, Start(session, initiator, responder), trace)
    ensures var e := At(Run(Start(session, initiator, responder), trace), role);
      var status := StatusOf(e.channel);
      && (status.StatusFailed? <==> e.channel.failed)
      && (status.StatusClosed? <==> !e.channel.failed && e.closings != [] && HoldsClose(e))
      && (status.LocalClosed? <==> !e.channel.failed && e.closings != [] && !HoldsClose(e))
      && (status.PeerClosed? <==> !e.channel.failed && e.closings == [] && HoldsClose(e))
      && (status.StatusOpen? <==> !e.channel.failed && e.closings == [] && !HoldsClose(e))
  {
    Reached(session, initiator, responder, trace, role);
  }

  /** An abort, over every run: fails the end unless both closes are on its record, and writes nothing. */
  lemma AbortExactly(session: Session, initiator: Limits, responder: Limits, trace: seq<Event>, role: Role)
    requires ValidLimits(initiator) && ValidLimits(responder)
    requires Legal(session, Start(session, initiator, responder), trace)
    ensures var e := At(Run(Start(session, initiator, responder), trace), role);
      var e' := Act(e, Abort);
      && e'.sealed == e.sealed && e'.receipts == e.receipts && e'.closings == e.closings
      && (e'.channel.failed <==> e.channel.failed || e.closings == [] || !HoldsClose(e))
  {
    Reached(session, initiator, responder, trace, role);
  }

  // ----- refusals

  /**
   * Any frame of the peer that fits, in any order, over every run: an end that failed or holds the peer's close answers
   * that it is closed; else what it has had is a replay and what it must not have yet is a reordering.
   */
  lemma OutOfPlace(session: Session, initiator: Limits, responder: Limits, trace: seq<Event>, role: Role, k: nat)
    requires ValidLimits(initiator) && ValidLimits(responder)
    requires Legal(session, Start(session, initiator, responder), trace)
    requires var w := Run(Start(session, initiator, responder), trace);
      && k < |At(w, Opposite(role)).sealed| && k != |At(w, role).receipts|
      && |Payload(At(w, Opposite(role)).sealed[k])| <= LimitsOf(role, initiator, responder).maxFrameBytes
    ensures var w := Run(Start(session, initiator, responder), trace);
      var e, frame := At(w, role), At(w, Opposite(role)).sealed[k];
      Receiving(e.channel, frame).result == Err(
        if e.channel.failed || HoldsClose(e) then ChannelClosed
        else if k < |e.receipts| then ReplayedFrame else ReorderedFrame)
  {
    Reached(session, initiator, responder, trace, role);
    var w := Run(Start(session, initiator, responder), trace);
    var e, sealed := At(w, role), At(w, Opposite(role)).sealed;
    var root, limits := Root(session, Opposite(role)), At(w, Opposite(role)).channel.limits;
    assert InStream(root, limits, sealed, k);
    InStreamHeader(root, limits, sealed, k);
    if !e.channel.failed && !e.channel.peerClosed {
      if k < |e.receipts| {
        PositionsAscend(sealed, k, |e.receipts|);
      } else {
        PositionsAscend(sealed, |e.receipts|, k);
      }
    }
  }

  lemma WrongBody(c: ChannelState, frame: Frame)
    requires frame.Framed? && !c.failed && !c.peerClosed && !Authentic(c, frame)
    requires frame.header[0] == 1 && KindOf(frame.header[1]).Some?
    requires HeaderEpoch(frame.header) == c.recv.epoch && HeaderCounter(frame.header) == c.recv.counter
    requires BodyBytes(frame.body) <= c.limits.maxFrameBytes + 16
    ensures Receiving(c, frame) == Step(c, Err(TamperedFrame))
  {
  }

  lemma OtherBodyUnopened(session: Session, w: World, role: Role, frame: Frame)
    requires Inv(session, w) && Buildable(session, w, frame)
    requires var e, sealed := At(w, role), At(w, Opposite(role)).sealed;
      |e.receipts| < |sealed| ==> frame != sealed[|e.receipts|]
    ensures !Authentic(At(w, role).channel, frame)
  {
    if Authentic(At(w, role).channel, frame) {
      InvFrom(session, w, role);
      var g := BuiltFromSealed(session, w, role, frame);
      AcceptedIsNext(session, role, At(w, role), At(w, Opposite(role)), frame, g);
    }
  }

  lemma NextHeader(session: Session, w: World, role: Role)
    requires Inv(session, w) && !At(w, role).channel.failed
    requires |At(w, role).receipts| < |At(w, Opposite(role)).sealed|
    ensures var c, next := At(w, role).channel, At(w, Opposite(role)).sealed[|At(w, role).receipts|];
      && !c.peerClosed && next.Framed? && next.header[0] == 1 && KindOf(next.header[1]).Some?
      && HeaderEpoch(next.header) == c.recv.epoch && HeaderCounter(next.header) == c.recv.counter
  {
    InvFrom(session, w, role);
    var peer, n := At(w, Opposite(role)), |At(w, role).receipts|;
    var p := PositionAfter(peer.sealed[..n]);
    assert InStream(Root(session, Opposite(role)), peer.channel.limits, peer.sealed, n);
    HeaderParts(FrameKind(peer.sealed[n]), p.epoch, p.counter);
    if At(w, role).channel.peerClosed {
      ClosedMeansComplete(session, w, role);
    }
  }

  /** The next frame's header over any other body the network can build, over every run: the frame is tampered with. */
  lemma OtherBodyTampered(session: Session, initiator: Limits, responder: Limits, trace: seq<Event>, role: Role,
      frame: Frame)
    requires ValidLimits(initiator) && ValidLimits(responder)
    requires Legal(session, Start(session, initiator, responder), trace)
    requires var w := Run(Start(session, initiator, responder), trace);
      var e, sealed := At(w, role), At(w, Opposite(role)).sealed;
      && !e.channel.failed && |e.receipts| < |sealed| && Buildable(session, w, frame)
      && frame.Framed? && sealed[|e.receipts|].Framed? && frame.header == sealed[|e.receipts|].header
      && frame.body != sealed[|e.receipts|].body
      && BodyBytes(frame.body) <= LimitsOf(role, initiator, responder).maxFrameBytes + 16
    ensures var e := At(Run(Start(session, initiator, responder), trace), role);
      Receiving(e.channel, frame).result == Err(TamperedFrame) && Receiving(e.channel, frame).state == e.channel
  {
    Reached(session, initiator, responder, trace, role);
    var w := Run(Start(session, initiator, responder), trace);
    NextHeader(session, w, role);
    OtherBodyUnopened(session, w, role, frame);
    WrongBody(At(w, role).channel, frame);
  }
}
