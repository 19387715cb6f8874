/**
 * Two channel endpoints and an adversarial network, as steps: either end sends, rekeys, closes
 * or aborts, and the network offers either end any frame it can build. Frames may be dropped,
 * duplicated, reordered, reflected and invented; only sealing under the channel's own keys is
 * out of the network's reach.
 */
module ChannelNetwork {
  import opened Bytes
  import opened Results
  import opened Channel
  import Utf8

  datatype Session = Session(shared: Secret, transcript: seq<Byte>)

  /**
   * One endpoint with its history: the payloads its sends took, every frame it sealed, every receipt it gave and the
   * reasons of the closes it made.
   */
  datatype End = End(
    channel: ChannelState, sent: seq<seq<Byte>>, sealed: seq<Frame>, receipts: seq<Receipt>,
    closings: seq<Option<Text>>)

  datatype World = World(initiator: End, responder: End)

  datatype Action = Send(payload: seq<Byte>) | Rekey | Close(reason: Option<Text>) | Abort | Offer(frame: Frame)

  datatype Event = Event(who: Role, action: Action)

  function At(w: World, role: Role): End {
    if role.Initiator? then w.initiator else w.responder
  }

  function Put(w: World, role: Role, e: End): World {
    if role.Initiator? then w.(initiator := e) else w.(responder := e)
  }

  function Start(session: Session, initiator: Limits, responder: Limits): World {
    World(
      End(NewChannel(Initiator, initiator, session.shared, session.transcript), [], [], [], []),
      End(NewChannel(Responder, responder, session.shared, session.transcript), [], [], [], []))
  }

  function Act(e: End, action: Action): End {
    match action
    case Send(payload) =>
      var step := Sending(e.channel, payload);
      Sealed(e, step).(sent := e.sent + if step.result.Ok? then [payload] else [])
    case Rekey =>
      var step := Rekeying(e.channel);
      e.(channel := step.state, sealed := e.sealed + if step.result.Ok? then [step.result.value] else [])
    case Close(reason) =>
      var step := Closing(e.channel, reason);
      Sealed(e, step).(closings := e.closings + if step.result.Ok? then [reason] else [])
    case Abort => e.(channel := Aborting(e.channel))
    case Offer(frame) =>
      var step := Receiving(e.channel, frame);
      e.(channel := step.state, receipts := e.receipts + if step.result.Ok? then [step.result.value] else [])
  }

  function Sealed(e: End, step: Step<seq<Frame>>): End {
    e.(channel := step.state, sealed := e.sealed + if step.result.Ok? then step.result.value else [])
  }

  function Next(w: World, event: Event): World {
    Put(w, event.who, Act(At(w, event.who), event.action))
  }

  function ChainAt(root: Secret, epoch: nat): Secret {
    if epoch == 0 then root else NextChain(ChainAt(root, epoch - 1))
  }

  function Root(session: Session, direction: Role): Secret {
    RootChain(session.shared, session.transcript, direction)
  }

  ghost predicate ChannelKey(session: Session, key: Secret) {
    exists direction: Role, epoch: nat :: key == KeyOf(ChainAt(Root(session, direction), epoch))
  }

  /** The ideal AEAD: a body under one of this channel's keys is one an endpoint sealed. Headers are free. */
  ghost predicate Buildable(session: Session, w: World, frame: Frame) {
    frame.Framed? && frame.body.Sealed? && ChannelKey(session, frame.body.key) ==>
      exists g :: (g in w.initiator.sealed || g in w.responder.sealed) && g.Framed? && g.body == frame.body
  }

  ghost predicate Legal(session: Session, w: World, trace: seq<Event>)
    decreases |trace|
  {
    trace != [] ==>
      && (trace[0].action.Offer? ==> Buildable(session, w, trace[0].action.frame))
      && Legal(session, Next(w, trace[0]), trace[1..])
  }

  function Run(w: World, trace: seq<Event>): World
    decreases |trace|
  {
    if trace == [] then w else Run(Next(w, trace[0]), trace[1..])
  }

  // ----- positions in a sealed stream

  datatype Position = Position(epoch: nat, counter: nat)

  predicate Before(p: Position, q: Position) {
    p.epoch < q.epoch || (p.epoch == q.epoch && p.counter < q.counter)
  }

  function FrameKind(frame: Frame): Kind {
    if frame.Framed? && KindOf(frame.header[1]).Some? then KindOf(frame.header[1]).value else DataFrame
  }

  function Advance(p: Position, kind: Kind): Position {
    if kind.RekeyFrame? then Position(p.epoch + 1, 0) else Position(p.epoch, p.counter + 1)
  }

  /** Where a direction stands after sealing (or accepting) these frames. */
  function PositionAfter(sealed: seq<Frame>): Position {
    if sealed == [] then Position(0, 0)
    else Advance(PositionAfter(sealed[..|sealed| - 1]), FrameKind(sealed[|sealed| - 1]))
  }

  function FrameAt(root: Secret, p: Position, kind: Kind, payload: seq<Byte>): Frame {
    SealedFrame(DirectionState(p.epoch, p.counter, false, ChainAt(root, p.epoch)), kind, payload)
  }

  function Payload(frame: Frame): seq<Byte> {
    if frame.Framed? && frame.body.Sealed? then frame.body.plaintext else []
  }

  function ReceiptOf(frame: Frame): Receipt { ReceiptFor(FrameKind(frame), Payload(frame)) }

  // ----- the invariant

  ghost predicate InStream(root: Secret, limits: Limits, sealed: seq<Frame>, k: nat)
    requires k < |sealed|
  {
    var p := PositionAfter(sealed[..k]);
    && p.counter < limits.framesPerEpoch && p.epoch <= limits.maxEpoch
    && sealed[k] == FrameAt(root, p, FrameKind(sealed[k]), Payload(sealed[k]))
  }

  /** A stream of frames sealed in order by a direction that now stands at `d`. */
  ghost predicate Stream(root: Secret, limits: Limits, sealed: seq<Frame>, d: DirectionState) {
    && PositionAfter(sealed) == Position(d.epoch, d.counter)
    && d.chain == ChainAt(root, d.epoch)
    && d.counter < limits.framesPerEpoch && d.epoch <= limits.maxEpoch
    && forall k :: 0 <= k < |sealed| ==> InStream(root, limits, sealed, k)
  }

  ghost predicate CloseIsLast(sealed: seq<Frame>, closed: bool) {
    && (closed ==> sealed != [] && FrameKind(sealed[|sealed| - 1]) == CloseFrame)
    && (forall k :: 0 <= k < |sealed| && FrameKind(sealed[k]) == CloseFrame ==> closed && k == |sealed| - 1)
  }

  ghost predicate Flags(c: ChannelState) {
    && (c.send.destroyed <==> c.failed || c.localClosed)
    && (c.recv.destroyed <==> c.failed || c.peerClosed)
  }

  ghost predicate SenderInv(session: Session, role: Role, e: End) {
    && ValidLimits(e.channel.limits)
    && Flags(e.channel)
    && Stream(Root(session, role), e.channel.limits, e.sealed, e.channel.send)
    && CloseIsLast(e.sealed, e.channel.localClosed)
  }

  /** What a receiver has accepted is a prefix of what its peer sealed, and it stands right after it. */
  ghost predicate ReceiverInv(session: Session, direction: Role, peerSealed: seq<Frame>, e: End) {
    && |e.receipts| <= |peerSealed|
    && (forall k :: 0 <= k < |e.receipts| ==> e.receipts[k] == ReceiptOf(peerSealed[k]))
    && e.channel.recv.chain == ChainAt(Root(session, direction), e.channel.recv.epoch)
    && (!e.channel.peerClosed ==>
          PositionAfter(peerSealed[..|e.receipts|]) == Position(e.channel.recv.epoch, e.channel.recv.counter))
    && (e.channel.peerClosed <==> e.receipts != [] && e.receipts[|e.receipts| - 1].ClosedReceipt?)
  }

  ghost predicate PairInv(session: Session, role: Role, me: End, peer: End) {
    && SenderInv(session, role, me)
    && SenderInv(session, Opposite(role), peer)
    && ReceiverInv(session, Opposite(role), peer.sealed, me)
    && ReceiverInv(session, role, me.sealed, peer)
  }

  ghost predicate Inv(session: Session, w: World) {
    PairInv(session, Initiator, w.initiator, w.responder)
  }

  lemma InvFrom(session: Session, w: World, role: Role)
    ensures Inv(session, w) <==> PairInv(session, role, At(w, role), At(w, Opposite(role)))
  {
  }

  // ----- positions

  lemma PositionPrefix(sealed: seq<Frame>, more: seq<Frame>, k: nat)
    requires k <= |sealed|
    ensures (sealed + more)[..k] == sealed[..k]
  {
  }

  lemma {:induction false} PositionsAscend(sealed: seq<Frame>, i: nat, j: nat)
    requires i < j <= |sealed|
    ensures Before(PositionAfter(sealed[..i]), PositionAfter(sealed[..j]))
  {
    assert sealed[..j][..j - 1] == sealed[..j - 1];
    if i < j - 1 {
      PositionsAscend(sealed, i, j - 1);
    }
  }

  lemma HeaderParts(kind: Kind, epoch: nat, counter: nat)
    requires epoch <= MAX_EPOCH && counter < 0x1_0000_0000
    ensures HeaderEpoch(FrameHeader(kind, epoch, counter)) == epoch
    ensures HeaderCounter(FrameHeader(kind, epoch, counter)) == counter
    ensures FrameHeader(kind, epoch, counter)[1] == KindByte(kind)
  {
    FourBytes();
    EightBytes();
    var header := FrameHeader(kind, epoch, counter);
    assert header[2..6] == BigEndian(epoch, 4);
    assert header[6..] == BigEndian(counter, 8);
    BigEndianRoundTrip(epoch, 4);
    BigEndianRoundTrip(counter, 8);
  }

  /** Chains started from different roots never meet, and one chain never revisits a value. */
  lemma {:induction false} ChainsApart(a: Secret, i: nat, b: Secret, j: nat)
    requires a.Hkdf? && b.Hkdf? && !a.info.RekeyLabel? && !b.info.RekeyLabel?
    requires ChainAt(a, i) == ChainAt(b, j)
    ensures a == b && i == j
  {
    if i > 0 && j > 0 {
      ChainsApart(a, i - 1, b, j - 1);
    }
  }

  lemma RootsDiffer(session: Session)
    ensures Root(session, Initiator) != Root(session, Responder)
  {
  }

  // ----- sealing keeps the stream

  function After(d: DirectionState, kind: Kind): DirectionState {
    if kind.RekeyFrame? then Ratcheted(d) else d.(counter := d.counter + 1)
  }

  lemma SealKeepsStream(root: Secret, limits: Limits, sealed: seq<Frame>, d: DirectionState, kind: Kind,
          payload: seq<Byte>)
    requires ValidLimits(limits) && Stream(root, limits, sealed, d)
    requires if kind.RekeyFrame? then d.epoch < limits.maxEpoch else d.counter + 1 < limits.framesPerEpoch
    ensures Stream(root, limits, sealed + [SealedFrame(d, kind, payload)], After(d, kind))
    ensures FrameKind(SealedFrame(d, kind, payload)) == kind
  {
    var frame := SealedFrame(d, kind, payload);
    var longer := sealed + [frame];
    HeaderParts(kind, d.epoch, d.counter);
    assert FrameKind(frame) == kind;
    assert longer[..|longer| - 1] == sealed;
    forall k | 0 <= k < |longer| ensures InStream(root, limits, longer, k) {
      PositionPrefix(sealed, [frame], k);
      if k < |sealed| {
        assert InStream(root, limits, sealed, k);
      } else {
        assert sealed[..k] == sealed;
      }
    }
  }

  lemma StreamIgnoresDestroyed(root: Secret, limits: Limits, sealed: seq<Frame>, d: DirectionState)
    requires Stream(root, limits, sealed, d)
    ensures Stream(root, limits, sealed, Destroyed(d))
  {
  }

  lemma CloseStaysLast(sealed: seq<Frame>, frame: Frame)
    requires CloseIsLast(sealed, false)
    ensures CloseIsLast(sealed + [frame], FrameKind(frame) == CloseFrame)
  {
  }

  /** SealingInOrder either seals one frame, or a rekey and then the frame, or fails terminally sealing nothing. */
  lemma SealInOrderKeeps(session: Session, role: Role, e: End, kind: Kind, payload: seq<Byte>)
    requires SenderInv(session, role, e) && !e.channel.failed && !e.channel.localClosed && !kind.RekeyFrame?
    ensures var step := SealingInOrder(e.channel, kind, payload);
      var limits := e.channel.limits;
      if step.result.Ok? then
        && step.state == e.channel.(send := step.state.send)
        && !step.state.send.destroyed
        && Stream(Root(session, role), limits, e.sealed + step.result.value, step.state.send)
        && CloseIsLast(e.sealed + step.result.value, kind.CloseFrame?)
      else step.state == FailChannel(e.channel)
  {
    var root, limits, d := Root(session, role), e.channel.limits, e.channel.send;
    if d.counter < limits.framesPerEpoch - 1 {
      SealKeepsStream(root, limits, e.sealed, d, kind, payload);
      CloseStaysLast(e.sealed, SealedFrame(d, kind, payload));
    } else if d.epoch < limits.maxEpoch {
      RekeyThenSeal(root, limits, e.sealed, d, kind, payload);
      assert SealingInOrder(e.channel, kind, payload).result == Ok(RekeyedPair(d, kind, payload));
    }
  }

  function RekeyedPair(d: DirectionState, kind: Kind, payload: seq<Byte>): seq<Frame> {
    [SealedFrame(d, RekeyFrame, []), SealedFrame(Ratcheted(d), kind, payload)]
  }

  lemma RekeyThenSeal(root: Secret, limits: Limits, sealed: seq<Frame>, d: DirectionState, kind: Kind,
          payload: seq<Byte>)
    requires ValidLimits(limits) && Stream(root, limits, sealed, d) && CloseIsLast(sealed, false)
    requires d.epoch < limits.maxEpoch && !kind.RekeyFrame?
    ensures Stream(root, limits, sealed + RekeyedPair(d, kind, payload), After(Ratcheted(d), kind))
    ensures CloseIsLast(sealed + RekeyedPair(d, kind, payload), kind.CloseFrame?)
  {
    var rekey, frame := SealedFrame(d, RekeyFrame, []), SealedFrame(Ratcheted(d), kind, payload);
    SealKeepsStream(root, limits, sealed, d, RekeyFrame, []);
    CloseStaysLast(sealed, rekey);
    SealKeepsStream(root, limits, sealed + [rekey], Ratcheted(d), kind, payload);
    CloseStaysLast(sealed + [rekey], frame);
    assert sealed + [rekey] + [frame] == sealed + RekeyedPair(d, kind, payload);
  }

  lemma SendKeepsSender(session: Session, role: Role, e: End, payload: seq<Byte>)
    requires SenderInv(session, role, e)
    ensures SenderInv(session, role, Act(e, Send(payload)))
    ensures e.sealed <= Act(e, Send(payload)).sealed
  {
    assert e.sealed + [] == e.sealed;
    if !e.channel.failed && !e.channel.localClosed {
      SealInOrderKeeps(session, role, e, DataFrame, payload);
    }
  }

  lemma CloseKeepsSender(session: Session, role: Role, e: End, reason: Option<Text>)
    requires SenderInv(session, role, e)
    ensures SenderInv(session, role, Act(e, Close(reason)))
    ensures e.sealed <= Act(e, Close(reason)).sealed
  {
    assert e.sealed + [] == e.sealed;
    if Closing(e.channel, reason).result.Ok? {
      var payload := Utf8.Encode(if reason.Some? then reason.value else []);
      SealInOrderKeeps(session, role, e, CloseFrame, payload);
      var step := SealingInOrder(e.channel, CloseFrame, payload);
      ClosedSender(session, role, e, step.result.value, step.state.send);
    } else {
      CloseFailure(session, role, e, reason);
    }
  }

  lemma ClosedSender(session: Session, role: Role, e: End, frames: seq<Frame>, d: DirectionState)
    requires SenderInv(session, role, e)
    requires Stream(Root(session, role), e.channel.limits, e.sealed + frames, d)
    requires CloseIsLast(e.sealed + frames, true)
    ensures SenderInv(session, role,
      e.(sealed := e.sealed + frames, channel := e.channel.(localClosed := true, send := Destroyed(d))))
  {
    StreamIgnoresDestroyed(Root(session, role), e.channel.limits, e.sealed + frames, d);
  }

  lemma CloseFailure(session: Session, role: Role, e: End, reason: Option<Text>)
    requires SenderInv(session, role, e) && Closing(e.channel, reason).result.Err?
    ensures Closing(e.channel, reason).state in {e.channel, FailChannel(e.channel)}
  {
    if !e.channel.failed && !e.channel.localClosed {
      SealInOrderKeeps(session, role, e, CloseFrame, Utf8.Encode(if reason.Some? then reason.value else []));
    }
  }

  lemma RekeyKeepsSender(session: Session, role: Role, e: End)
    requires SenderInv(session, role, e)
    ensures SenderInv(session, role, Act(e, Rekey))
    ensures e.sealed <= Act(e, Rekey).sealed
  {
    assert e.sealed + [] == e.sealed;
    if !e.channel.failed && !e.channel.localClosed && e.channel.send.epoch < e.channel.limits.maxEpoch {
      SealKeepsStream(Root(session, role), e.channel.limits, e.sealed, e.channel.send, RekeyFrame, []);
      CloseStaysLast(e.sealed, SealedFrame(e.channel.send, RekeyFrame, []));
    }
  }

  lemma ActKeepsSender(session: Session, role: Role, e: End, action: Action)
    requires SenderInv(session, role, e)
    ensures SenderInv(session, role, Act(e, action))
    ensures e.sealed <= Act(e, action).sealed
  {
    match action {
      case Send(payload) => SendKeepsSender(session, role, e, payload);
      case Close(reason) => CloseKeepsSender(session, role, e, reason);
      case Rekey => RekeyKeepsSender(session, role, e);
      case Abort =>
      case Offer(frame) =>
    }
  }

  // ----- receiving keeps the prefix

  /** The frame got past every check of the receiver: it is accepted, or it is a rekey too many. */
  predicate Authentic(c: ChannelState, frame: Frame) {
    Receiving(c, frame).result.Ok? || Receiving(c, frame).result.error.CounterExhausted?
  }

  /** What the receiver has checked about such a frame. */
  lemma Accepted(c: ChannelState, frame: Frame)
    requires Authentic(c, frame)
    ensures !c.failed && !c.peerClosed && !c.recv.destroyed
    ensures frame.Framed? && frame.body.Sealed? && frame.body.key == KeyOf(c.recv.chain)
    ensures frame.body.aad == frame.header
    ensures HeaderEpoch(frame.header) == c.recv.epoch && HeaderCounter(frame.header) == c.recv.counter
    ensures Receiving(c, frame) == Accept(c, FrameKind(frame), Payload(frame))
  {
  }

  /** Nothing this end sealed can open under its receive key: the roots of the two directions differ. */
  lemma NoReflection(session: Session, role: Role, me: End, g: Frame)
    requires SenderInv(session, role, me) && g in me.sealed
    requires me.channel.recv.chain == ChainAt(Root(session, Opposite(role)), me.channel.recv.epoch)
    ensures g.Framed? && g.body.Sealed? && g.body.key != KeyOf(me.channel.recv.chain)
  {
    var k :| 0 <= k < |me.sealed| && me.sealed[k] == g;
    assert InStream(Root(session, role), me.channel.limits, me.sealed, k);
    var p := PositionAfter(me.sealed[..k]);
    if ChainAt(Root(session, role), p.epoch) == ChainAt(Root(session, Opposite(role)), me.channel.recv.epoch) {
      ChainsApart(Root(session, role), p.epoch, Root(session, Opposite(role)), me.channel.recv.epoch);
      RootsDiffer(session);
    }
  }

  lemma InStreamHeader(root: Secret, limits: Limits, sealed: seq<Frame>, k: nat)
    requires ValidLimits(limits) && k < |sealed| && InStream(root, limits, sealed, k)
    ensures sealed[k].Framed? && sealed[k].body.Sealed? && sealed[k].body.aad == sealed[k].header
    ensures Position(HeaderEpoch(sealed[k].header), HeaderCounter(sealed[k].header)) == PositionAfter(sealed[..k])
  {
    var p := PositionAfter(sealed[..k]);
    HeaderParts(FrameKind(sealed[k]), p.epoch, p.counter);
  }

  lemma SamePosition(sealed: seq<Frame>, i: nat, j: nat)
    requires i <= |sealed| && j <= |sealed| && PositionAfter(sealed[..i]) == PositionAfter(sealed[..j])
    ensures i == j
  {
    if i < j {
      PositionsAscend(sealed, i, j);
    } else if j < i {
      PositionsAscend(sealed, j, i);
    }
  }

  /** An authentic frame is the very next one its peer sealed. */
  lemma AcceptedIsNext(session: Session, role: Role, me: End, peer: End, frame: Frame, g: Frame)
    requires PairInv(session, role, me, peer) && Authentic(me.channel, frame)
    requires (g in me.sealed || g in peer.sealed) && g.Framed? && g.body == frame.body
    ensures |me.receipts| < |peer.sealed| && frame == peer.sealed[|me.receipts|]
  {
    Accepted(me.channel, frame);
    if g in me.sealed {
      NoReflection(session, role, me, g);
    }
    var k :| 0 <= k < |peer.sealed| && peer.sealed[k] == g;
    assert InStream(Root(session, Opposite(role)), peer.channel.limits, peer.sealed, k);
    InStreamHeader(Root(session, Opposite(role)), peer.channel.limits, peer.sealed, k);
    assert frame == g;
    SamePosition(peer.sealed, k, |me.receipts|);
  }

  lemma BuiltFromSealed(session: Session, w: World, receiver: Role, frame: Frame) returns (g: Frame)
    requires Inv(session, w) && Buildable(session, w, frame)
    requires Authentic(At(w, receiver).channel, frame)
    ensures (g in At(w, receiver).sealed || g in At(w, Opposite(receiver)).sealed) && g.Framed? && g.body == frame.body
  {
    var me := At(w, receiver);
    Accepted(me.channel, frame);
    InvFrom(session, w, receiver);
    assert ChannelKey(session, frame.body.key) by {
      assert frame.body.key == KeyOf(ChainAt(Root(session, Opposite(receiver)), me.channel.recv.epoch));
    }
    g :| (g in w.initiator.sealed || g in w.responder.sealed) && g.Framed? && g.body == frame.body;
  }

  lemma ReceiverSeesLonger(session: Session, direction: Role, before: seq<Frame>, after: seq<Frame>, e: End)
    requires ReceiverInv(session, direction, before, e) && before <= after
    ensures ReceiverInv(session, direction, after, e)
  {
    assert after[..|e.receipts|] == before[..|e.receipts|];
  }

  lemma AcceptReceipt(c: ChannelState, kind: Kind, payload: seq<Byte>)
    requires Accept(c, kind, payload).result.Ok?
    ensures Accept(c, kind, payload).result == Ok(ReceiptFor(kind, payload))
  {
  }

  lemma AcceptMoves(c: ChannelState, kind: Kind, payload: seq<Byte>)
    requires Accept(c, kind, payload).result.Ok?
    ensures var d := Accept(c, kind, payload).state.recv;
      && (!kind.CloseFrame? ==> Position(d.epoch, d.counter) == Advance(Position(c.recv.epoch, c.recv.counter), kind))
      && d.chain == (if kind.RekeyFrame? then NextChain(c.recv.chain) else c.recv.chain)
      && d.epoch == (if kind.RekeyFrame? then c.recv.epoch + 1 else c.recv.epoch)
    ensures Accept(c, kind, payload).state.peerClosed <==> c.peerClosed || kind.CloseFrame?
  {
  }

  lemma PositionStep(sealed: seq<Frame>, n: nat)
    requires n < |sealed|
    ensures PositionAfter(sealed[..n + 1]) == Advance(PositionAfter(sealed[..n]), FrameKind(sealed[n]))
  {
    assert sealed[..n + 1][..n] == sealed[..n];
  }

  lemma ReceiverExtends(session: Session, direction: Role, peer: End, e: End, e': End)
    requires ReceiverInv(session, direction, peer.sealed, e) && SenderInv(session, direction, peer)
    requires |e.receipts| < |peer.sealed| && !e.channel.peerClosed
    requires e'.receipts == e.receipts + [ReceiptOf(peer.sealed[|e.receipts|])]
    requires e'.channel.recv.chain == ChainAt(Root(session, direction), e'.channel.recv.epoch)
    requires e'.channel.peerClosed <==> FrameKind(peer.sealed[|e.receipts|]).CloseFrame?
    requires !e'.channel.peerClosed ==>
      Position(e'.channel.recv.epoch, e'.channel.recv.counter) ==
      Advance(Position(e.channel.recv.epoch, e.channel.recv.counter), FrameKind(peer.sealed[|e.receipts|]))
    ensures ReceiverInv(session, direction, peer.sealed, e')
  {
    var n := |e.receipts|;
    PositionStep(peer.sealed, n);
    assert e'.receipts[n] == ReceiptOf(peer.sealed[n]);
    forall k | 0 <= k < |e'.receipts| ensures e'.receipts[k] == ReceiptOf(peer.sealed[k]) {
      if k < n {
        assert e'.receipts[k] == e.receipts[k];
      }
    }
  }

  lemma AcceptKeepsReceiver(session: Session, direction: Role, peer: End, e: End, frame: Frame)
    requires ReceiverInv(session, direction, peer.sealed, e) && SenderInv(session, direction, peer)
    requires Receiving(e.channel, frame).result.Ok?
    requires |e.receipts| < |peer.sealed| && frame == peer.sealed[|e.receipts|]
    ensures ReceiverInv(session, direction, peer.sealed, Act(e, Offer(frame)))
  {
    Accepted(e.channel, frame);
    AcceptReceipt(e.channel, FrameKind(frame), Payload(frame));
    AcceptMoves(e.channel, FrameKind(frame), Payload(frame));
    ReceiverExtends(session, direction, peer, e, Act(e, Offer(frame)));
  }

  lemma RejectKeepsReceiver(session: Session, direction: Role, peerSealed: seq<Frame>, e: End, frame: Frame)
    requires ReceiverInv(session, direction, peerSealed, e) && Receiving(e.channel, frame).result.Err?
    ensures ReceiverInv(session, direction, peerSealed, Act(e, Offer(frame)))
  {
    assert Act(e, Offer(frame)).receipts == e.receipts;
  }

  /** Send, rekey, close and abort leave the receive direction where it stands. */
  lemma SendingSideOnly(e: End, action: Action)
    requires !action.Offer?
    ensures var c := Act(e, action).channel;
      && c.recv == e.channel.recv.(destroyed := c.recv.destroyed)
      && c.peerClosed == e.channel.peerClosed && Act(e, action).receipts == e.receipts
  {
  }

  lemma OtherActsKeepReceiver(session: Session, direction: Role, peerSealed: seq<Frame>, e: End, action: Action)
    requires ReceiverInv(session, direction, peerSealed, e) && !action.Offer?
    ensures ReceiverInv(session, direction, peerSealed, Act(e, action))
    ensures Act(e, action).receipts == e.receipts
  {
    SendingSideOnly(e, action);
  }

  lemma NextKeepsInv(session: Session, w: World, event: Event)
    requires Inv(session, w)
    requires event.action.Offer? ==> Buildable(session, w, event.action.frame)
    ensures Inv(session, Next(w, event))
  {
    var role := event.who;
    var me, peer := At(w, role), At(w, Opposite(role));
    InvFrom(session, w, role);
    ActKeepsSender(session, role, me, event.action);
    var me' := Act(me, event.action);
    if !event.action.Offer? {
      OtherActsKeepReceiver(session, Opposite(role), peer.sealed, me, event.action);
    } else if Receiving(me.channel, event.action.frame).result.Ok? {
      var g := BuiltFromSealed(session, w, role, event.action.frame);
      AcceptedIsNext(session, role, me, peer, event.action.frame, g);
      AcceptKeepsReceiver(session, Opposite(role), peer, me, event.action.frame);
    } else {
      RejectKeepsReceiver(session, Opposite(role), peer.sealed, me, event.action.frame);
    }
    ReceiverSeesLonger(session, role, me.sealed, me'.sealed, peer);
    InvFrom(session, Next(w, event), role);
  }

  lemma StartInv(session: Session, initiator: Limits, responder: Limits)
    requires ValidLimits(initiator) && ValidLimits(responder)
    ensures Inv(session, Start(session, initiator, responder))
  {
  }

  lemma {:induction false} RunKeepsInv(session: Session, w: World, trace: seq<Event>)
    requires Inv(session, w) && Legal(session, w, trace)
    ensures Inv(session, Run(w, trace))
    decreases |trace|
  {
    if trace != [] {
      NextKeepsInv(session, w, trace[0]);
      RunKeepsInv(session, Next(w, trace[0]), trace[1..]);
    }
  }

  // ----- main theorems, over every run

  function Receipts(frames: seq<Frame>): (r: seq<Receipt>)
    ensures |r| == |frames|
    ensures forall k :: 0 <= k < |r| ==> r[k] == ReceiptOf(frames[k])
  {
    seq(|frames|, k requires 0 <= k < |frames| => ReceiptOf(frames[k]))
  }

  /** The application payloads among a run of receipts. */
  function Payloads(receipts: seq<Receipt>): seq<seq<Byte>> {
    if receipts == [] then []
    else
      var last := receipts[|receipts| - 1];
      Payloads(receipts[..|receipts| - 1]) + if last.DataReceipt? then [last.payload] else []
  }

  lemma {:induction false} PayloadsPrefix(a: seq<Receipt>, b: seq<Receipt>)
    requires a <= b
    ensures Payloads(a) <= Payloads(b)
    decreases |b|
  {
    if |a| < |b| {
      PayloadsPrefix(a, b[..|b| - 1]);
    } else {
      assert a == b;
    }
  }

  lemma PayloadsAppend(frames: seq<Frame>, frame: Frame)
    ensures Payloads(Receipts(frames + [frame])) ==
      Payloads(Receipts(frames)) + if FrameKind(frame).DataFrame? then [Payload(frame)] else []
  {
    assert Receipts(frames + [frame])[..|frames|] == Receipts(frames);
  }

  /** Sealing is faithful: the data frames an end has sealed carry exactly the payloads its sends took, in order. */
  ghost predicate SealedWhatWasSent(e: End) { Payloads(Receipts(e.sealed)) == e.sent }

  lemma SealPayload(sealed: seq<Frame>, d: DirectionState, kind: Kind, payload: seq<Byte>)
    requires d.epoch <= MAX_EPOCH && d.counter < 0x1_0000_0000
    ensures Payloads(Receipts(sealed + [SealedFrame(d, kind, payload)])) ==
      Payloads(Receipts(sealed)) + if kind.DataFrame? then [payload] else []
  {
    HeaderParts(kind, d.epoch, d.counter);
    PayloadsAppend(sealed, SealedFrame(d, kind, payload));
  }

  lemma RekeyThenSealPayloads(sealed: seq<Frame>, d: DirectionState, kind: Kind, payload: seq<Byte>)
    requires d.epoch < MAX_EPOCH && d.counter < 0x1_0000_0000
    ensures Payloads(Receipts(sealed + [SealedFrame(d, RekeyFrame, []), SealedFrame(Ratcheted(d), kind, payload)])) ==
      Payloads(Receipts(sealed)) + if kind.DataFrame? then [payload] else []
  {
    var rekey, frame := SealedFrame(d, RekeyFrame, []), SealedFrame(Ratcheted(d), kind, payload);
    SealPayload(sealed, d, RekeyFrame, []);
    SealPayload(sealed + [rekey], Ratcheted(d), kind, payload);
    assert sealed + [rekey] + [frame] == sealed + [rekey, frame];
  }

  lemma SealInOrderPayloads(session: Session, role: Role, e: End, kind: Kind, payload: seq<Byte>)
    requires SenderInv(session, role, e) && SealedWhatWasSent(e) && !e.channel.failed && !e.channel.localClosed
    requires !kind.RekeyFrame? && SealingInOrder(e.channel, kind, payload).result.Ok?
    ensures Payloads(Receipts(e.sealed + SealingInOrder(e.channel, kind, payload).result.value)) ==
      e.sent + if kind.DataFrame? then [payload] else []
  {
    var d, limits := e.channel.send, e.channel.limits;
    if d.counter >= limits.framesPerEpoch - 1 {
      assert SealingInOrder(e.channel, kind, payload).result.value ==
        [SealedFrame(d, RekeyFrame, []), SealedFrame(Ratcheted(d), kind, payload)];
      RekeyThenSealPayloads(e.sealed, d, kind, payload);
    } else {
      SealPayload(e.sealed, d, kind, payload);
    }
  }

  lemma SendKeepsSent(session: Session, role: Role, e: End, payload: seq<Byte>)
    requires SenderInv(session, role, e) && SealedWhatWasSent(e) && Sending(e.channel, payload).result.Ok?
    ensures SealedWhatWasSent(Act(e, Send(payload)))
  {
    SealInOrderPayloads(session, role, e, DataFrame, payload);
  }

  lemma CloseKeepsSent(session: Session, role: Role, e: End, reason: Option<Text>)
    requires SenderInv(session, role, e) && SealedWhatWasSent(e) && Closing(e.channel, reason).result.Ok?
    ensures SealedWhatWasSent(Act(e, Close(reason)))
  {
    SealInOrderPayloads(session, role, e, CloseFrame, Utf8.Encode(if reason.Some? then reason.value else []));
  }

  lemma RekeyKeepsSent(session: Session, role: Role, e: End)
    requires SenderInv(session, role, e) && SealedWhatWasSent(e) && Rekeying(e.channel).result.Ok?
    ensures SealedWhatWasSent(Act(e, Rekey))
  {
    SealPayload(e.sealed, e.channel.send, RekeyFrame, []);
  }

  predicate Seals(e: End, action: Action) {
    match action
    case Send(payload) => Sending(e.channel, payload).result.Ok?
    case Close(reason) => Closing(e.channel, reason).result.Ok?
    case Rekey => Rekeying(e.channel).result.Ok?
    case _ => false
  }

  lemma OthersSealNothing(e: End, action: Action)
    requires !Seals(e, action)
    ensures Act(e, action).sealed == e.sealed && Act(e, action).sent == e.sent
  {
  }

  lemma ActKeepsSent(session: Session, role: Role, e: End, action: Action)
    requires SenderInv(session, role, e) && SealedWhatWasSent(e)
    ensures SealedWhatWasSent(Act(e, action))
  {
    if !Seals(e, action) {
      OthersSealNothing(e, action);
    } else {
      match action {
        case Send(payload) => SendKeepsSent(session, role, e, payload);
        case Close(reason) => CloseKeepsSent(session, role, e, reason);
        case Rekey => RekeyKeepsSent(session, role, e);
      }
    }
  }

  lemma {:induction false} RunKeepsSent(session: Session, w: World, trace: seq<Event>)
    requires Inv(session, w) && Legal(session, w, trace)
    requires SealedWhatWasSent(w.initiator) && SealedWhatWasSent(w.responder)
    ensures SealedWhatWasSent(Run(w, trace).initiator) && SealedWhatWasSent(Run(w, trace).responder)
    decreases |trace|
  {
    if trace != [] {
      InvFrom(session, w, trace[0].who);
      ActKeepsSent(session, trace[0].who, At(w, trace[0].who), trace[0].action);
      NextKeepsInv(session, w, trace[0]);
      RunKeepsSent(session, Next(w, trace[0]), trace[1..]);
    }
  }

  /**
   * In-order delivery against the adversarial network: what either end accepted is a prefix of
   * what the other end sealed, and the payloads it handed up are a prefix of the payloads sent.
   */
  lemma InOrderDelivery(session: Session, initiator: Limits, responder: Limits, trace: seq<Event>, role: Role)
    requires ValidLimits(initiator) && ValidLimits(responder)
    requires Legal(session, Start(session, initiator, responder), trace)
    ensures var w := Run(Start(session, initiator, responder), trace);
      && At(w, role).receipts <= Receipts(At(w, Opposite(role)).sealed)
      && Payloads(At(w, role).receipts) <= At(w, Opposite(role)).sent
  {
    var start := Start(session, initiator, responder);
    var w := Run(start, trace);
    StartInv(session, initiator, responder);
    RunKeepsInv(session, start, trace);
    RunKeepsSent(session, start, trace);
    InvFrom(session, w, role);
    var sealed := Receipts(At(w, Opposite(role)).sealed);
    assert At(w, role).receipts <= sealed;
    PayloadsPrefix(At(w, role).receipts, sealed);
  }

  lemma ClosedMeansComplete(session: Session, w: World, role: Role)
    requires Inv(session, w) && At(w, role).channel.peerClosed
    ensures |At(w, role).receipts| == |At(w, Opposite(role)).sealed|
    ensures At(w, Opposite(role)).channel.localClosed
  {
    InvFrom(session, w, role);
    var me, peer := At(w, role), At(w, Opposite(role));
    var n := |me.receipts|;
    assert ReceiptOf(peer.sealed[n - 1]) == me.receipts[n - 1];
    assert FrameKind(peer.sealed[n - 1]) == CloseFrame;
  }

  /**
   * A rejected frame changes nothing, except that an authentic rekey past the epoch limit fails the channel for good.
   */
  lemma RejectionChangesNothing(c: ChannelState, frame: Frame)
    requires Receiving(c, frame).result.Err?
    ensures var after := Receiving(c, frame).state;
      if Receiving(c, frame).result.error.CounterExhausted? then
        && after == FailChannel(c) && FrameKind(frame).RekeyFrame? && c.recv.epoch >= c.limits.maxEpoch
        && frame.Framed?
          && Open(KeyOf(c.recv.chain), FrameNonce(c.recv.epoch, c.recv.counter), frame.header, frame.body).Some?
      else after == c
  {
  }

  /** Over every run the rekey that fails an end is the very next frame its peer sealed: no forgery fails a channel. */
  lemma OnlyTheNextRekeyFails(session: Session, initiator: Limits, responder: Limits, trace: seq<Event>, role: Role,
          frame: Frame)
    requires ValidLimits(initiator) && ValidLimits(responder)
    requires Legal(session, Start(session, initiator, responder), trace)
    requires var w := Run(Start(session, initiator, responder), trace);
      && Buildable(session, w, frame)
      && !At(w, role).channel.failed && Receiving(At(w, role).channel, frame).state.failed
    ensures var w := Run(Start(session, initiator, responder), trace);
      var me, sealed := At(w, role), At(w, Opposite(role)).sealed;
      && |me.receipts| < |sealed| && frame == sealed[|me.receipts|]
      && FrameKind(frame).RekeyFrame? && me.channel.recv.epoch >= me.channel.limits.maxEpoch
  {
    var start := Start(session, initiator, responder);
    var w := Run(start, trace);
    StartInv(session, initiator, responder);
    RunKeepsInv(session, start, trace);
    FailsOnNext(session, w, role, frame);
  }

  lemma FailsOnNext(session: Session, w: World, role: Role, frame: Frame)
    requires Inv(session, w) && Buildable(session, w, frame)
    requires !At(w, role).channel.failed && Receiving(At(w, role).channel, frame).state.failed
    ensures var me, sealed := At(w, role), At(w, Opposite(role)).sealed;
      && Receiving(me.channel, frame).result == Err(CounterExhausted)
      && |me.receipts| < |sealed| && frame == sealed[|me.receipts|]
      && FrameKind(frame).RekeyFrame? && me.channel.recv.epoch >= me.channel.limits.maxEpoch
  {
    var c := At(w, role).channel;
    if Receiving(c, frame).result.Ok? {
      AcceptedNotFailed(c, frame);
    }
    RejectionChangesNothing(c, frame);
    var g := BuiltFromSealed(session, w, role, frame);
    InvFrom(session, w, role);
    AcceptedIsNext(session, role, At(w, role), At(w, Opposite(role)), frame, g);
  }

  lemma AcceptedNotFailed(c: ChannelState, frame: Frame)
    requires !c.failed && Receiving(c, frame).result.Ok?
    ensures !Receiving(c, frame).state.failed
  {
  }

  lemma OpensInPlace(c: ChannelState, root: Secret, kind: Kind, payload: seq<Byte>)
    requires !c.failed && !c.peerClosed && !c.recv.destroyed
    requires c.recv.epoch <= MAX_EPOCH && c.recv.counter < 0x1_0000_0000 && c.recv.chain == ChainAt(root, c.recv.epoch)
    ensures Receiving(c, FrameAt(root, Position(c.recv.epoch, c.recv.counter), kind, payload)) ==
      if |payload| > c.limits.maxFrameBytes then Step(c, Err(FrameTooLarge)) else Accept(c, kind, payload)
  {
    HeaderParts(kind, c.recv.epoch, c.recv.counter);
  }

  /**
   * Progress, exactly: the next frame the peer sealed is accepted by an end that has not failed if and only
   * if it fits that end's frame bound and, for a rekey, that end's epoch limit. Equal limits always fit.
   */
  lemma NextIsAcceptedIff(session: Session, w: World, role: Role)
    requires Inv(session, w)
    requires !At(w, role).channel.failed
    requires |At(w, role).receipts| < |At(w, Opposite(role)).sealed|
    ensures var me, peer := At(w, role), At(w, Opposite(role));
      var next := peer.sealed[|me.receipts|];
      && Receiving(me.channel, next) ==
           (if |Payload(next)| > me.channel.limits.maxFrameBytes then Step(me.channel, Err(FrameTooLarge))
            else Accept(me.channel, FrameKind(next), Payload(next)))
      && (Receiving(me.channel, next).result.Ok? <==>
            && |Payload(next)| <= me.channel.limits.maxFrameBytes
            && (FrameKind(next).RekeyFrame? ==> me.channel.recv.epoch < me.channel.limits.maxEpoch))
  {
    var me, peer := At(w, role), At(w, Opposite(role));
    InvFrom(session, w, role);
    var n := |me.receipts|;
    if me.channel.peerClosed {
      ClosedMeansComplete(session, w, role);
    }
    var root := Root(session, Opposite(role));
    assert InStream(root, peer.channel.limits, peer.sealed, n);
    OpensInPlace(me.channel, root, FrameKind(peer.sealed[n]), Payload(peer.sealed[n]));
  }

  ghost predicate PayloadsFit(e: End) {
    forall k :: 0 <= k < |e.sealed| ==> |Payload(e.sealed[k])| <= e.channel.limits.maxFrameBytes
  }

  lemma ActKeepsFit(e: End, action: Action)
    requires ValidLimits(e.channel.limits) && PayloadsFit(e)
    ensures PayloadsFit(Act(e, action)) && Act(e, action).channel.limits == e.channel.limits
  {
    var e' := Act(e, action);
    forall k | 0 <= k < |e'.sealed| ensures |Payload(e'.sealed[k])| <= e.channel.limits.maxFrameBytes {
      if k < |e.sealed| {
        assert e'.sealed[k] == e.sealed[k];
      }
    }
  }

  lemma {:induction false} RunKeepsFit(session: Session, w: World, trace: seq<Event>)
    requires Inv(session, w) && Legal(session, w, trace) && PayloadsFit(w.initiator) && PayloadsFit(w.responder)
    ensures var w' := Run(w, trace);
      && PayloadsFit(w'.initiator) && PayloadsFit(w'.responder)
      && w'.initiator.channel.limits == w.initiator.channel.limits
      && w'.responder.channel.limits == w.responder.channel.limits
    decreases |trace|
  {
    if trace != [] {
      InvFrom(session, w, trace[0].who);
      ActKeepsFit(At(w, trace[0].who), trace[0].action);
      NextKeepsInv(session, w, trace[0]);
      RunKeepsFit(session, Next(w, trace[0]), trace[1..]);
    }
  }

  /** With equal limits, offering the next sealed frame to an end that is not failed always succeeds. */
  lemma EqualLimitsNeverStall(session: Session, limits: Limits, trace: seq<Event>, role: Role)
    requires ValidLimits(limits) && Legal(session, Start(session, limits, limits), trace)
    ensures var w := Run(Start(session, limits, limits), trace);
      var me, peer := At(w, role), At(w, Opposite(role));
      !me.channel.failed && |me.receipts| < |peer.sealed| ==>
        Receiving(me.channel, peer.sealed[|me.receipts|]).result == Ok(ReceiptOf(peer.sealed[|me.receipts|]))
  {
    var start := Start(session, limits, limits);
    var w := Run(start, trace);
    StartInv(session, limits, limits);
    RunKeepsInv(session, start, trace);
    RunKeepsFit(session, start, trace);
    InvFrom(session, w, role);
    var me, peer := At(w, role), At(w, Opposite(role));
    var n := |me.receipts|;
    if !me.channel.failed && n < |peer.sealed| {
      NextIsAcceptedIff(session, w, role);
      var next := peer.sealed[n];
      assert InStream(Root(session, Opposite(role)), limits, peer.sealed, n);
      if FrameKind(next).RekeyFrame? {
        RekeyLeavesRoom(session, Opposite(role), peer, n);
      }
      AcceptReceipt(me.channel, FrameKind(next), Payload(next));
    }
  }

  // ----- what a close carries

  /** The payloads of the close frames among these. */
  function ClosePayloads(frames: seq<Frame>): seq<seq<Byte>> {
    if frames == [] then []
    else
      var last := frames[|frames| - 1];
      ClosePayloads(frames[..|frames| - 1]) + if FrameKind(last).CloseFrame? then [Payload(last)] else []
  }

  /** A reason in UTF-8; an absent one has no bytes. */
  function ReasonBytes(reason: Option<Text>): seq<Byte> { if reason.Some? then Utf8.Encode(reason.value) else [] }

  function ReasonsInBytes(reasons: seq<Option<Text>>): (r: seq<seq<Byte>>)
    ensures |r| == |reasons|
  {
    seq(|reasons|, i requires 0 <= i < |reasons| => ReasonBytes(reasons[i]))
  }

  /** The close frames an end has sealed carry exactly the reasons of its closes, in order. */
  ghost predicate SealedWhatWasClosed(e: End) { ClosePayloads(e.sealed) == ReasonsInBytes(e.closings) }

  lemma CloseAppended(sealed: seq<Frame>, d: DirectionState, kind: Kind, payload: seq<Byte>)
    requires d.epoch <= MAX_EPOCH && d.counter < 0x1_0000_0000
    ensures ClosePayloads(sealed + [SealedFrame(d, kind, payload)]) ==
      ClosePayloads(sealed) + if kind.CloseFrame? then [payload] else []
  {
    HeaderParts(kind, d.epoch, d.counter);
    assert (sealed + [SealedFrame(d, kind, payload)])[..|sealed|] == sealed;
  }

  lemma CloseAppendedInOrder(session: Session, role: Role, e: End, kind: Kind, payload: seq<Byte>)
    requires SenderInv(session, role, e) && !e.channel.failed && !e.channel.localClosed
    requires !kind.RekeyFrame? && SealingInOrder(e.channel, kind, payload).result.Ok?
    ensures ClosePayloads(e.sealed + SealingInOrder(e.channel, kind, payload).result.value) ==
      ClosePayloads(e.sealed) + if kind.CloseFrame? then [payload] else []
  {
    var d, limits := e.channel.send, e.channel.limits;
    if d.counter >= limits.framesPerEpoch - 1 {
      var rekey, frame := SealedFrame(d, RekeyFrame, []), SealedFrame(Ratcheted(d), kind, payload);
      assert SealingInOrder(e.channel, kind, payload).result.value == [rekey, frame];
      CloseAppended(e.sealed, d, RekeyFrame, []);
      CloseAppended(e.sealed + [rekey], Ratcheted(d), kind, payload);
      assert e.sealed + [rekey] + [frame] == e.sealed + [rekey, frame];
    } else {
      CloseAppended(e.sealed, d, kind, payload);
    }
  }

  lemma CloseKeepsReasons(session: Session, role: Role, e: End, reason: Option<Text>)
    requires SenderInv(session, role, e) && SealedWhatWasClosed(e) && Closing(e.channel, reason).result.Ok?
    ensures SealedWhatWasClosed(Act(e, Close(reason)))
  {
    var payload := Utf8.Encode(if reason.Some? then reason.value else []);
    CloseAppendedInOrder(session, role, e, CloseFrame, payload);
    assert payload == ReasonBytes(reason);
    assert ReasonsInBytes(e.closings + [reason]) == ReasonsInBytes(e.closings) + [payload];
  }

  lemma ActKeepsReasons(session: Session, role: Role, e: End, action: Action)
    requires SenderInv(session, role, e) && SealedWhatWasClosed(e)
    ensures SealedWhatWasClosed(Act(e, action))
  {
    assert e.sealed + [] == e.sealed && e.closings + [] == e.closings;
    match action {
      case Send(payload) =>
        if Sending(e.channel, payload).result.Ok? {
          CloseAppendedInOrder(session, role, e, DataFrame, payload);
        }
      case Close(reason) =>
        if Closing(e.channel, reason).result.Ok? {
          CloseKeepsReasons(session, role, e, reason);
        }
      case Rekey =>
        if Rekeying(e.channel).result.Ok? {
          CloseAppended(e.sealed, e.channel.send, RekeyFrame, []);
        }
      case _ =>
    }
  }

  lemma {:induction false} RunKeepsReasons(session: Session, w: World, trace: seq<Event>)
    requires Inv(session, w) && Legal(session, w, trace)
    requires SealedWhatWasClosed(w.initiator) && SealedWhatWasClosed(w.responder)
    ensures SealedWhatWasClosed(Run(w, trace).initiator) && SealedWhatWasClosed(Run(w, trace).responder)
    decreases |trace|
  {
    if trace != [] {
      InvFrom(session, w, trace[0].who);
      ActKeepsReasons(session, trace[0].who, At(w, trace[0].who), trace[0].action);
      NextKeepsInv(session, w, trace[0]);
      RunKeepsReasons(session, Next(w, trace[0]), trace[1..]);
    }
  }

  lemma {:induction false} NoClosePayloads(frames: seq<Frame>)
    requires forall k :: 0 <= k < |frames| ==> !FrameKind(frames[k]).CloseFrame?
    ensures ClosePayloads(frames) == []
  {
    if frames != [] {
      NoClosePayloads(frames[..|frames| - 1]);
    }
  }

  /** The close frame is the last one sealed, so it is the only one. */
  lemma OneClosePayload(frames: seq<Frame>, k: nat)
    requires CloseIsLast(frames, true) && k < |frames| && FrameKind(frames[k]).CloseFrame?
    ensures k == |frames| - 1 && ClosePayloads(frames) == [Payload(frames[k])]
  {
    NoClosePayloads(frames[..k]);
  }

  lemma ReasonIsEmpty(text: Text)
    ensures Utf8.Encode(text) == [] <==> text == []
  {
  }

  /**
   * A close delivers its reason: over every run, an end that holds a closed receipt has a peer that closed exactly
   * once, and the receipt carries the UTF-8 of the reason given there, or none exactly when that was absent or empty.
   */
  lemma CloseReasonDelivered(
      session: Session, initiator: Limits, responder: Limits, trace: seq<Event>, role: Role, k: nat)
    requires ValidLimits(initiator) && ValidLimits(responder)
    requires Legal(session, Start(session, initiator, responder), trace)
    requires var e := At(Run(Start(session, initiator, responder), trace), role);
      k < |e.receipts| && e.receipts[k].ClosedReceipt?
    ensures var w := Run(Start(session, initiator, responder), trace);
      var closings := At(w, Opposite(role)).closings;
      && |closings| == 1
      && At(w, role).receipts[k] == ClosedReceipt(
           if closings[0].None? || closings[0].value == [] then None else Some(Utf8.Encode(closings[0].value)))
  {
    var start := Start(session, initiator, responder);
    var w := Run(start, trace);
    StartInv(session, initiator, responder);
    RunKeepsInv(session, start, trace);
    RunKeepsReasons(session, start, trace);
    InvFrom(session, w, role);
    var me, peer := At(w, role), At(w, Opposite(role));
    assert me.receipts[k] == ReceiptOf(peer.sealed[k]);
    assert FrameKind(peer.sealed[k]).CloseFrame?;
    OneClosePayload(peer.sealed, k);
    assert |ReasonsInBytes(peer.closings)| == 1 && ReasonsInBytes(peer.closings)[0] == ReasonBytes(peer.closings[0]);
    if peer.closings[0].Some? {
      ReasonIsEmpty(peer.closings[0].value);
    }
  }

  /** A rekey is never sealed in the last epoch. */
  lemma RekeyLeavesRoom(session: Session, role: Role, e: End, k: nat)
    requires SenderInv(session, role, e) && k < |e.sealed| && FrameKind(e.sealed[k]).RekeyFrame?
    ensures PositionAfter(e.sealed[..k]).epoch < e.channel.limits.maxEpoch
  {
    var limits := e.channel.limits;
    assert e.sealed[..k + 1][..k] == e.sealed[..k];
    assert PositionAfter(e.sealed[..k + 1]) == Position(PositionAfter(e.sealed[..k]).epoch + 1, 0);
    if k + 1 < |e.sealed| {
      assert InStream(Root(session, role), limits, e.sealed, k + 1);
    } else {
      assert e.sealed[..k + 1] == e.sealed;
    }
  }

  predicate Sends(action: Action) { action.Send? || action.Rekey? || action.Close? }

  /** One send, rekey or close of one's own: the state after it and the frames it gives, or its refusal. */
  function Own(c: ChannelState, action: Action): Step<seq<Frame>>
    requires Sends(action)
  {
    match action
    case Send(payload) => Sending(c, payload)
    case Close(reason) => Closing(c, reason)
    case Rekey =>
      var step := Rekeying(c);
      Step(step.state, if step.result.Ok? then Ok([step.result.value]) else Err(step.result.error))
  }

  /** A step of one's own that fails the channel: an abort while it is not closed, or running out of epochs. */
  predicate Quits(c: ChannelState, action: Action) {
    || (action.Abort? && !(c.localClosed && c.peerClosed))
    || (Sends(action) && Own(c, action).result == Err(CounterExhausted))
  }

  predicate EverQuits(w: World, trace: seq<Event>, role: Role)
    decreases |trace|
  {
    && trace != []
    && (|| (trace[0].who == role && Quits(At(w, role).channel, trace[0].action))
        || EverQuits(Next(w, trace[0]), trace[1..], role))
  }

  lemma OwnFails(c: ChannelState, action: Action)
    requires Sends(action)
    ensures Own(c, action).state.failed <==> c.failed || Own(c, action).result == Err(CounterExhausted)
  {
  }

  lemma ActFails(e: End, action: Action)
    requires !action.Offer?
    ensures Act(e, action).channel.failed <==> e.channel.failed || Quits(e.channel, action)
  {
    if Sends(action) {
      OwnFails(e.channel, action);
      assert Act(e, action).channel == Own(e.channel, action).state;
    }
  }

  ghost predicate EqualLimits(w: World) { w.initiator.channel.limits == w.responder.channel.limits }

  /** The peer never seals a rekey the receiver has no epoch left for, so no offered frame fails an end. */
  lemma OfferNeverFails(session: Session, w: World, role: Role, frame: Frame)
    requires Inv(session, w) && EqualLimits(w) && Buildable(session, w, frame) && !At(w, role).channel.failed
    ensures !Receiving(At(w, role).channel, frame).state.failed
  {
    if Receiving(At(w, role).channel, frame).state.failed {
      FailsOnNext(session, w, role, frame);
      InvFrom(session, w, role);
      var me, peer := At(w, role), At(w, Opposite(role));
      RekeyLeavesRoom(session, Opposite(role), peer, |me.receipts|);
      Accepted(me.channel, frame);
      assert false;
    }
  }

  lemma OfferStaysFailed(c: ChannelState, frame: Frame)
    requires c.failed
    ensures Receiving(c, frame).state.failed
  {
  }

  lemma NextFails(session: Session, w: World, event: Event, role: Role)
    requires Inv(session, w) && EqualLimits(w)
    requires event.action.Offer? ==> Buildable(session, w, event.action.frame)
    ensures At(Next(w, event), role).channel.failed <==>
      At(w, role).channel.failed || (event.who == role && Quits(At(w, role).channel, event.action))
  {
    if event.who == role {
      if !event.action.Offer? {
        ActFails(At(w, role), event.action);
      } else if At(w, role).channel.failed {
        OfferStaysFailed(At(w, role).channel, event.action.frame);
      } else {
        OfferNeverFails(session, w, role, event.action.frame);
      }
    }
  }

  lemma ActKeepsLimits(e: End, action: Action)
    ensures Act(e, action).channel.limits == e.channel.limits
  {
  }

  lemma {:induction false} RunFails(session: Session, w: World, trace: seq<Event>, role: Role)
    requires Inv(session, w) && EqualLimits(w) && Legal(session, w, trace)
    ensures At(Run(w, trace), role).channel.failed <==> At(w, role).channel.failed || EverQuits(w, trace, role)
    decreases |trace|
  {
    if trace != [] {
      ActKeepsLimits(At(w, trace[0].who), trace[0].action);
      NextFails(session, w, trace[0], role);
      NextKeepsInv(session, w, trace[0]);
      RunFails(session, Next(w, trace[0]), trace[1..], role);
    }
  }

  /** With equal limits an end has failed if and only if it aborted or ran out of epochs itself. */
  lemma EqualLimitsFailOnlyByQuitting(session: Session, limits: Limits, trace: seq<Event>, role: Role)
    requires ValidLimits(limits) && Legal(session, Start(session, limits, limits), trace)
    ensures At(Run(Start(session, limits, limits), trace), role).channel.failed <==>
      EverQuits(Start(session, limits, limits), trace, role)
  {
    StartInv(session, limits, limits);
    RunFails(session, Start(session, limits, limits), trace, role);
  }

  /**
   * Section 8 of NIST SP 800-38D: across both directions of a channel no key is ever used twice
   * with the same nonce. Within a direction positions strictly ascend and stay in range.
   */
  lemma NoncesUnique(session: Session, w: World, a: Role, i: nat, b: Role, j: nat)
    requires Inv(session, w)
    requires i < |At(w, a).sealed| && j < |At(w, b).sealed| && (a, i) != (b, j)
    ensures At(w, a).sealed[i].Framed? && At(w, a).sealed[i].body.Sealed?
    ensures At(w, b).sealed[j].Framed? && At(w, b).sealed[j].body.Sealed?
    ensures (At(w, a).sealed[i].body.key, At(w, a).sealed[i].body.nonce) !=
      (At(w, b).sealed[j].body.key, At(w, b).sealed[j].body.nonce)
  {
    InvFrom(session, w, a);
    InvFrom(session, w, b);
    var f, g := At(w, a).sealed[i], At(w, b).sealed[j];
    assert InStream(Root(session, a), At(w, a).channel.limits, At(w, a).sealed, i);
    assert InStream(Root(session, b), At(w, b).channel.limits, At(w, b).sealed, j);
    var p, q := PositionAfter(At(w, a).sealed[..i]), PositionAfter(At(w, b).sealed[..j]);
    if f.body.key == g.body.key && f.body.nonce == g.body.nonce {
      ChainsApart(Root(session, a), p.epoch, Root(session, b), q.epoch);
      RootsDiffer(session);
      assert a == b && p.epoch == q.epoch;
      NonceParts(p.epoch, p.counter);
      NonceParts(q.epoch, q.counter);
      SamePosition(At(w, a).sealed, i, j);
    }
  }

  lemma NonceParts(epoch: nat, counter: nat)
    requires epoch <= MAX_EPOCH && counter < 0x1_0000_0000
    ensures FromBigEndian(FrameNonce(epoch, counter)[..4]) == epoch
    ensures FromBigEndian(FrameNonce(epoch, counter)[4..]) == counter
  {
    FourBytes();
    EightBytes();
    assert FrameNonce(epoch, counter)[..4] == BigEndian(epoch, 4);
    assert FrameNonce(epoch, counter)[4..] == BigEndian(counter, 8);
    BigEndianRoundTrip(epoch, 4);
    BigEndianRoundTrip(counter, 8);
  }

  /** Positions on the wire strictly ascend, every counter is below the epoch size and every epoch within the limit. */
  lemma WirePositionsAscend(session: Session, w: World, role: Role, i: nat, j: nat)
    requires Inv(session, w) && i < j < |At(w, role).sealed|
    ensures var e := At(w, role);
      && e.sealed[i].Framed? && e.sealed[j].Framed?
      && Before(Position(HeaderEpoch(e.sealed[i].header), HeaderCounter(e.sealed[i].header)),
                Position(HeaderEpoch(e.sealed[j].header), HeaderCounter(e.sealed[j].header)))
      && HeaderCounter(e.sealed[j].header) < e.channel.limits.framesPerEpoch
      && HeaderEpoch(e.sealed[j].header) <= e.channel.limits.maxEpoch
  {
    InvFrom(session, w, role);
    var e := At(w, role);
    assert InStream(Root(session, role), e.channel.limits, e.sealed, i);
    assert InStream(Root(session, role), e.channel.limits, e.sealed, j);
    InStreamHeader(Root(session, role), e.channel.limits, e.sealed, i);
    InStreamHeader(Root(session, role), e.channel.limits, e.sealed, j);
    PositionsAscend(e.sealed, i, j);
  }

  /**
   * Over every run: no key is used twice with one nonce, across both directions; on the wire each direction's
   * positions strictly ascend, counters stay below the epoch size (at most 2^32) and epochs within a limit of 32 bits.
   */
  lemma NonceDiscipline(session: Session, initiator: Limits, responder: Limits, trace: seq<Event>, a: Role, i: nat,
          b: Role, j: nat)
    requires ValidLimits(initiator) && ValidLimits(responder)
    requires Legal(session, Start(session, initiator, responder), trace)
    requires var w := Run(Start(session, initiator, responder), trace);
      i < |At(w, a).sealed| && j < |At(w, b).sealed| && (a, i) != (b, j)
    ensures var w := Run(Start(session, initiator, responder), trace);
      var f, g := At(w, a).sealed[i], At(w, b).sealed[j];
      && f.Framed? && f.body.Sealed? && g.Framed? && g.body.Sealed?
      && (f.body.key, f.body.nonce) != (g.body.key, g.body.nonce)
      && (a == b && i < j ==>
            && Before(Position(HeaderEpoch(f.header), HeaderCounter(f.header)),
              Position(HeaderEpoch(g.header), HeaderCounter(g.header)))
            && HeaderCounter(g.header) < At(w, a).channel.limits.framesPerEpoch <= 0x1_0000_0000
            && HeaderEpoch(g.header) <= At(w, a).channel.limits.maxEpoch <= MAX_EPOCH)
  {
    var start := Start(session, initiator, responder);
    var w := Run(start, trace);
    StartInv(session, initiator, responder);
    RunKeepsInv(session, start, trace);
    NoncesUnique(session, w, a, i, b, j);
    InvFrom(session, w, a);
    if a == b && i < j {
      WirePositionsAscend(session, w, a, i, j);
    }
  }

  /** Over every run the next sealed frame is accepted exactly when it fits the receiver's own limits. */
  lemma ProgressExactly(session: Session, initiator: Limits, responder: Limits, trace: seq<Event>, role: Role)
    requires ValidLimits(initiator) && ValidLimits(responder)
    requires Legal(session, Start(session, initiator, responder), trace)
    requires var w := Run(Start(session, initiator, responder), trace);
      !At(w, role).channel.failed && |At(w, role).receipts| < |At(w, Opposite(role)).sealed|
    ensures var w := Run(Start(session, initiator, responder), trace);
      var me, next := At(w, role).channel, At(w, Opposite(role)).sealed[|At(w, role).receipts|];
      Receiving(me, next).result.Ok? <==>
        |Payload(next)| <= me.limits.maxFrameBytes
          && (FrameKind(next).RekeyFrame? ==> me.recv.epoch < me.limits.maxEpoch)
  {
    var start := Start(session, initiator, responder);
    StartInv(session, initiator, responder);
    RunKeepsInv(session, start, trace);
    NextIsAcceptedIff(session, Run(start, trace), role);
  }

  ghost predicate HoldsClose(e: End) {
    exists k :: 0 <= k < |e.receipts| && e.receipts[k].ClosedReceipt?
  }

  lemma LocalClosedSealsNothing(e: End, action: Action)
    requires e.channel.localClosed
    ensures Act(e, action).sealed == e.sealed && Act(e, action).channel.localClosed
  {
    assert e.sealed + [] == e.sealed;
  }

  lemma {:induction false} LocalClosedForever(session: Session, w: World, trace: seq<Event>, role: Role)
    requires At(w, role).channel.localClosed && Legal(session, w, trace)
    ensures At(Run(w, trace), role).sealed == At(w, role).sealed
    ensures At(Run(w, trace), role).channel.localClosed
    decreases |trace|
  {
    if trace != [] {
      if trace[0].who == role {
        LocalClosedSealsNothing(At(w, role), trace[0].action);
      }
      LocalClosedForever(session, Next(w, trace[0]), trace[1..], role);
    }
  }

  lemma CloseIsComplete(session: Session, w: World, more: seq<Event>, role: Role)
    requires Inv(session, w) && Legal(session, w, more) && HoldsClose(At(w, role))
    ensures At(w, role).receipts == Receipts(At(w, Opposite(role)).sealed)
    ensures At(Run(w, more), Opposite(role)).sealed == At(w, Opposite(role)).sealed
  {
    InvFrom(session, w, role);
    ReceivedAll(session, role, At(w, role), At(w, Opposite(role)));
    LocalClosedForever(session, w, more, Opposite(role));
  }

  lemma ReceivedAll(session: Session, role: Role, me: End, peer: End)
    requires ReceiverInv(session, Opposite(role), peer.sealed, me) && CloseIsLast(peer.sealed, peer.channel.localClosed)
    requires HoldsClose(me)
    ensures me.receipts == Receipts(peer.sealed) && peer.channel.localClosed
  {
    var k :| 0 <= k < |me.receipts| && me.receipts[k].ClosedReceipt?;
    assert FrameKind(peer.sealed[k]) == CloseFrame by { assert ReceiptOf(peer.sealed[k]) == me.receipts[k]; }
    assert k == |peer.sealed| - 1;
  }

  /**
   * An authenticated close is complete: once an end holds a closed receipt it has received every frame
   * its peer sealed, and the peer never seals another in any continuation of the run.
   */
  lemma AuthenticatedCloseIsComplete(session: Session, initiator: Limits, responder: Limits, trace: seq<Event>,
          more: seq<Event>, role: Role)
    requires ValidLimits(initiator) && ValidLimits(responder)
    requires Legal(session, Start(session, initiator, responder), trace)
    requires Legal(session, Run(Start(session, initiator, responder), trace), more)
    requires HoldsClose(At(Run(Start(session, initiator, responder), trace), role))
    ensures var w := Run(Start(session, initiator, responder), trace);
      && At(w, role).receipts == Receipts(At(w, Opposite(role)).sealed)
      && At(Run(w, more), Opposite(role)).sealed == At(w, Opposite(role)).sealed
  {
    var start := Start(session, initiator, responder);
    StartInv(session, initiator, responder);
    RunKeepsInv(session, start, trace);
    CloseIsComplete(session, Run(start, trace), more, role);
  }

  /** `closed` and `failed` are absorbing under every operation, abort included. */
  lemma TerminalStatusAbsorbs(e: End, action: Action)
    requires StatusOf(e.channel).StatusClosed? || StatusOf(e.channel).StatusFailed?
    ensures StatusOf(Act(e, action).channel) == StatusOf(e.channel)
    ensures Act(e, action).sealed == e.sealed && Act(e, action).receipts == e.receipts
  {
    assert e.sealed + [] == e.sealed && e.receipts + [] == e.receipts;
  }

  // ----- half-closed channels

  /** The two states differ at most in their send sides. */
  predicate SameReceiver(c: ChannelState, d: ChannelState) { d == c.(send := d.send, localClosed := d.localClosed) }

  /** What a list of offered frames is answered with, one after another. */
  function Receivings(c: ChannelState, frames: seq<Frame>): seq<Outcome<Receipt, Failure>>
    decreases |frames|
  {
    if frames == [] then []
    else [Receiving(c, frames[0]).result] + Receivings(Receiving(c, frames[0]).state, frames[1..])
  }

  lemma {:induction false} SendSideIrrelevant(c: ChannelState, d: ChannelState, frames: seq<Frame>)
    requires SameReceiver(c, d)
    ensures Receivings(d, frames) == Receivings(c, frames)
    decreases |frames|
  {
    if frames != [] {
      assert Receiving(d, frames[0]).result == Receiving(c, frames[0]).result;
      SendSideIrrelevant(Receiving(c, frames[0]).state, Receiving(d, frames[0]).state, frames[1..]);
    }
  }

  /**
   * Half-close leaves the receive direction working: after closing one's own side, any frames in any order are
   * answered exactly as they would have been without.
   */
  lemma HalfCloseKeepsReceiving(c: ChannelState, reason: Option<Text>, frames: seq<Frame>)
    requires Closing(c, reason).result.Ok?
    ensures Receivings(Closing(c, reason).state, frames) == Receivings(c, frames)
  {
    SendSideIrrelevant(c, Closing(c, reason).state, frames);
  }

  function Sendings(c: ChannelState, actions: seq<Action>): seq<Outcome<seq<Frame>, Failure>>
    requires forall i :: 0 <= i < |actions| ==> Sends(actions[i])
    decreases |actions|
  {
    if actions == [] then [] else [Own(c, actions[0]).result] + Sendings(Own(c, actions[0]).state, actions[1..])
  }

  /** The two states differ at most in their receive sides. */
  predicate SameSender(c: ChannelState, d: ChannelState) { d == c.(recv := d.recv, peerClosed := d.peerClosed) }

  lemma SealAlike(c: ChannelState, d: ChannelState, kind: Kind, payload: seq<Byte>)
    requires SameSender(c, d)
    ensures Sealing(d, kind, payload).result == Sealing(c, kind, payload).result
    ensures SameSender(Sealing(c, kind, payload).state, Sealing(d, kind, payload).state)
  {
  }

  lemma SealRekeyAlike(c: ChannelState, d: ChannelState)
    requires SameSender(c, d)
    ensures SealingRekey(d).result == SealingRekey(c).result && SameSender(SealingRekey(c).state, SealingRekey(d).state)
  {
    if c.send.epoch < c.limits.maxEpoch {
      SealAlike(c, d, RekeyFrame, []);
      Resent(Sealing(c, RekeyFrame, []).state, Sealing(d, RekeyFrame, []).state);
    }
  }

  lemma Resent(c: ChannelState, d: ChannelState)
    requires SameSender(c, d)
    ensures SameSender(c.(send := Ratcheted(c.send)), d.(send := Ratcheted(d.send)))
    ensures SameSender(c.(localClosed := true, send := Destroyed(c.send)),
      d.(localClosed := true, send := Destroyed(d.send)))
  {
  }

  lemma SealsAlike(c: ChannelState, d: ChannelState, kind: Kind, payload: seq<Byte>)
    requires SameSender(c, d)
    ensures SealingInOrder(d, kind, payload).result == SealingInOrder(c, kind, payload).result
    ensures SameSender(SealingInOrder(c, kind, payload).state, SealingInOrder(d, kind, payload).state)
  {
    if c.send.counter >= c.limits.framesPerEpoch - 1 {
      SealRekeyAlike(c, d);
      SealAlike(SealingRekey(c).state, SealingRekey(d).state, kind, payload);
    } else {
      SealAlike(c, d, kind, payload);
    }
  }

  lemma OwnAlike(c: ChannelState, d: ChannelState, action: Action)
    requires SameSender(c, d) && Sends(action)
    ensures Own(d, action).result == Own(c, action).result && SameSender(Own(c, action).state, Own(d, action).state)
  {
    match action {
      case Send(payload) => SealsAlike(c, d, DataFrame, payload);
      case Close(reason) =>
        var payload := Utf8.Encode(if reason.Some? then reason.value else []);
        SealsAlike(c, d, CloseFrame, payload);
        Resent(SealingInOrder(c, CloseFrame, payload).state, SealingInOrder(d, CloseFrame, payload).state);
      case Rekey => SealRekeyAlike(c, d);
    }
  }

  lemma {:induction false} ReceiveSideIrrelevant(c: ChannelState, d: ChannelState, actions: seq<Action>)
    requires SameSender(c, d) && forall i :: 0 <= i < |actions| ==> Sends(actions[i])
    ensures Sendings(d, actions) == Sendings(c, actions)
    decreases |actions|
  {
    if actions != [] {
      OwnAlike(c, d, actions[0]);
      ReceiveSideIrrelevant(Own(c, actions[0]).state, Own(d, actions[0]).state, actions[1..]);
    }
  }

  /**
   * And a close of the peer, as any frame that is accepted, leaves the send direction working: every later send,
   * rekey and close gives the frames it would have given without.
   */
  lemma PeerCloseKeepsSending(c: ChannelState, frame: Frame, actions: seq<Action>)
    requires Receiving(c, frame).result.Ok? && forall i :: 0 <= i < |actions| ==> Sends(actions[i])
    ensures Sendings(Receiving(c, frame).state, actions) == Sendings(c, actions)
  {
    AcceptedSender(c, frame);
    ReceiveSideIrrelevant(c, Receiving(c, frame).state, actions);
  }

  lemma AcceptedSender(c: ChannelState, frame: Frame)
    requires Receiving(c, frame).result.Ok?
    ensures SameSender(c, Receiving(c, frame).state)
  {
  }
}
