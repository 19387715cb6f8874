/**
 * The end-to-end session channel: key schedule, frames and the channel object.
 * Hashing and key derivation are free constructors and the AEAD is ideal: a body opens
 * only under the key, nonce and associated data it was sealed with.
 */
module Channel {
  import opened Bytes
  import opened Results
  import Utf8

  const FRAME_HEADER_BYTES := 14
  const TAG_BYTES := 16
  const FRAME_VERSION: Byte := 1
  const MAX_EPOCH := 0xFFFF_FFFF
  const MAX_CLOSE_REASON_CHARS := 1024
  const CHANNEL_MAX_FRAME_BYTES := 65536

  datatype Role = Initiator | Responder

  datatype Failure =
    | TamperedFrame | ReplayedFrame | ReorderedFrame | FrameTooLarge | ChannelClosed | CounterExhausted | BadReason

  // ----- key schedule

  datatype Salt = NoSalt | Sha256(data: seq<Byte>)
  datatype Info = MasterLabel | InitiatorToResponder | ResponderToInitiator | AeadKey | RekeyLabel

  /** Section 2 of RFC 5869 as a free constructor; the ECDH secret depends on the unordered pair of ephemerals. */
  datatype Secret = DiffieHellman(ephemerals: set<Text>) | Hkdf(ikm: Secret, salt: Salt, info: Info)

  function NextChain(chain: Secret): Secret { Hkdf(chain, NoSalt, RekeyLabel) }

  function KeyOf(chain: Secret): Secret { Hkdf(chain, NoSalt, AeadKey) }

  /** The root chain of one direction of a channel. */
  function RootChain(shared: Secret, transcript: seq<Byte>, direction: Role): Secret {
    var master := Hkdf(shared, Sha256(transcript), MasterLabel);
    Hkdf(master, NoSalt, if direction.Initiator? then InitiatorToResponder else ResponderToInitiator)
  }

  // ----- frames

  datatype Kind = DataFrame | CloseFrame | RekeyFrame

  function KindByte(kind: Kind): (b: Byte)
    ensures 1 <= b <= 3
  {
    match kind case DataFrame => 1 case CloseFrame => 2 case RekeyFrame => 3
  }

  function KindOf(b: Byte): (kind: Option<Kind>)
    ensures forall k :: kind == Some(k) <==> b == KindByte(k)
  {
    if b == 1 then Some(DataFrame) else if b == 2 then Some(CloseFrame) else if b == 3 then Some(RekeyFrame) else None
  }

  type Header = h: seq<Byte> | |h| == 14 witness seq(14, i => 0)

  /** Version, type, epoch (u32) and counter (u64), big-endian. */
  function FrameHeader(kind: Kind, epoch: nat, counter: nat): Header {
    [FRAME_VERSION, KindByte(kind)] + BigEndian(epoch, 4) + BigEndian(counter, 8)
  }

  function FrameNonce(epoch: nat, counter: nat): (r: seq<Byte>)
    ensures |r| == 12
  {
    BigEndian(epoch, 4) + BigEndian(counter, 8)
  }

  /** What follows a header: the ideal AEAD's output, or bytes that are no AEAD output. */
  datatype Body = Sealed(key: Secret, nonce: seq<Byte>, aad: seq<Byte>, plaintext: seq<Byte>) | Noise(bytes: seq<Byte>)

  /** Bytes off the network: a runt is shorter than a header. */
  datatype Frame = Runt(bytes: seq<Byte>) | Framed(header: Header, body: Body)

  function BodyBytes(body: Body): nat {
    match body
    case Sealed(_, _, _, plaintext) => |plaintext| + TAG_BYTES
    case Noise(bytes) => |bytes|
  }

  function FrameBytes(frame: Frame): nat {
    match frame
    case Runt(bytes) => |bytes|
    case Framed(_, body) => FRAME_HEADER_BYTES + BodyBytes(body)
  }

  function Open(key: Secret, nonce: seq<Byte>, aad: seq<Byte>, body: Body): Option<seq<Byte>> {
    if body.Sealed? && body.key == key && body.nonce == nonce && body.aad == aad then Some(body.plaintext) else None
  }

  datatype Receipt = DataReceipt(payload: seq<Byte>) | Rekeyed | ClosedReceipt(reason: Option<seq<Byte>>)

  function ReceiptFor(kind: Kind, payload: seq<Byte>): Receipt {
    match kind
    case DataFrame => DataReceipt(payload)
    case RekeyFrame => Rekeyed
    case CloseFrame => ClosedReceipt(if payload == [] then None else Some(payload))
  }

  // ----- channel state and its operations

  datatype DirectionState = DirectionState(epoch: nat, counter: nat, destroyed: bool, chain: Secret)

  datatype Limits = Limits(maxFrameBytes: nat, framesPerEpoch: nat, maxEpoch: nat)

  /** The ranges normalizeOptions enforces. */
  predicate ValidLimits(l: Limits) {
    && 1 <= l.maxFrameBytes <= CHANNEL_MAX_FRAME_BYTES
    && 2 <= l.framesPerEpoch <= 0x1_0000_0000
    && l.maxEpoch <= MAX_EPOCH
  }

  datatype ChannelState = ChannelState(
    role: Role, limits: Limits,
    send: DirectionState, recv: DirectionState,
    localClosed: bool, peerClosed: bool, failed: bool)

  datatype Status = StatusOpen | LocalClosed | PeerClosed | StatusClosed | StatusFailed

  function StatusOf(s: ChannelState): Status {
    if s.failed then StatusFailed
    else if s.localClosed && s.peerClosed then StatusClosed
    else if s.localClosed then LocalClosed
    else if s.peerClosed then PeerClosed
    else StatusOpen
  }

  datatype Step<+T> = Step(state: ChannelState, result: Outcome<T, Failure>)

  function Opposite(role: Role): Role {
    if role.Initiator? then Responder else Initiator
  }

  function NewChannel(role: Role, limits: Limits, shared: Secret, transcript: seq<Byte>): ChannelState {
    ChannelState(role, limits,
      DirectionState(0, 0, false, RootChain(shared, transcript, role)),
      DirectionState(0, 0, false, RootChain(shared, transcript, Opposite(role))),
      false, false, false)
  }

  function Destroyed(d: DirectionState): DirectionState { d.(destroyed := true) }

  function Ratcheted(d: DirectionState): DirectionState {
    d.(epoch := d.epoch + 1, counter := 0, chain := NextChain(d.chain))
  }

  function FailChannel(s: ChannelState): ChannelState {
    s.(failed := true, send := Destroyed(s.send), recv := Destroyed(s.recv))
  }

  /** The frame a send direction seals next. */
  function SealedFrame(d: DirectionState, kind: Kind, payload: seq<Byte>): Frame {
    var header := FrameHeader(kind, d.epoch, d.counter);
    Framed(header, Sealed(KeyOf(d.chain), FrameNonce(d.epoch, d.counter), header, payload))
  }

  function Sealing(s: ChannelState, kind: Kind, payload: seq<Byte>): Step<Frame> {
    if s.send.destroyed then Step(s, Err(ChannelClosed)) else
    Step(s.(send := s.send.(counter := s.send.counter + 1)), Ok(SealedFrame(s.send, kind, payload)))
  }

  function SealingRekey(s: ChannelState): Step<Frame> {
    if s.send.epoch >= s.limits.maxEpoch then Step(FailChannel(s), Err(CounterExhausted)) else
    var step := Sealing(s, RekeyFrame, []);
    if step.result.Err? then step else
    Step(step.state.(send := Ratcheted(step.state.send)), step.result)
  }

  /** A frame of the given kind, preceded by an automatic rekey when the epoch is nearly full. */
  function SealingInOrder(s: ChannelState, kind: Kind, payload: seq<Byte>): Step<seq<Frame>> {
    if s.send.counter >= s.limits.framesPerEpoch - 1 then
      var first := SealingRekey(s);
      if first.result.Err? then Step(first.state, Err(first.result.error)) else
      var second := Sealing(first.state, kind, payload);
      if second.result.Err? then Step(second.state, Err(second.result.error)) else
      Step(second.state, Ok([first.result.value, second.result.value]))
    else
      var only := Sealing(s, kind, payload);
      if only.result.Err? then Step(only.state, Err(only.result.error)) else
      Step(only.state, Ok([only.result.value]))
  }

  function Sending(s: ChannelState, payload: seq<Byte>): Step<seq<Frame>> {
    if s.failed || s.localClosed then Step(s, Err(ChannelClosed))
    else if |payload| > s.limits.maxFrameBytes then Step(s, Err(FrameTooLarge))
    else SealingInOrder(s, DataFrame, payload)
  }

  function Rekeying(s: ChannelState): Step<Frame> {
    if s.failed || s.localClosed then Step(s, Err(ChannelClosed)) else SealingRekey(s)
  }

  function Closing(s: ChannelState, reason: Option<Text>): Step<seq<Frame>> {
    if s.failed || s.localClosed then Step(s, Err(ChannelClosed))
    else if reason.Some? && |reason.value| > MAX_CLOSE_REASON_CHARS then Step(s, Err(BadReason))
    else
      var payload := Utf8.Encode(if reason.Some? then reason.value else []);
      if |payload| > s.limits.maxFrameBytes then Step(s, Err(FrameTooLarge)) else
      var step := SealingInOrder(s, CloseFrame, payload);
      if step.result.Err? then step else
      Step(step.state.(localClosed := true, send := Destroyed(step.state.send)), step.result)
  }

  function Aborting(s: ChannelState): ChannelState {
    if s.failed || (s.localClosed && s.peerClosed) then s else FailChannel(s)
  }

  function HeaderEpoch(header: Header): nat { FromBigEndian(header[2..6]) }

  function HeaderCounter(header: Header): nat { FromBigEndian(header[6..]) }

  function Receiving(s: ChannelState, frame: Frame): Step<Receipt> {
    if s.failed || s.peerClosed then Step(s, Err(ChannelClosed))
    else if frame.Runt? || FrameBytes(frame) < FRAME_HEADER_BYTES + TAG_BYTES then Step(s, Err(TamperedFrame))
    else if FrameBytes(frame) > FRAME_HEADER_BYTES + s.limits.maxFrameBytes + TAG_BYTES then Step(s, Err(FrameTooLarge))
    else
      var header := frame.header;
      var kind := KindOf(header[1]);
      if header[0] != FRAME_VERSION || kind.None? then Step(s, Err(TamperedFrame)) else
      var epoch, counter := HeaderEpoch(header), HeaderCounter(header);
      var d := s.recv;
      if epoch < d.epoch || (epoch == d.epoch && counter < d.counter) then Step(s, Err(ReplayedFrame))
      else if epoch > d.epoch || counter > d.counter then Step(s, Err(ReorderedFrame))
      else
        var payload := if d.destroyed then None
          else Open(KeyOf(d.chain), FrameNonce(epoch, d.counter), header, frame.body);
        if payload.None? then Step(s, Err(TamperedFrame)) else
        Accept(s, kind.value, payload.value)
  }

  /** What an authenticated frame does to the receiver. */
  function Accept(s: ChannelState, kind: Kind, payload: seq<Byte>): Step<Receipt> {
    match kind
    case RekeyFrame =>
      if s.recv.epoch >= s.limits.maxEpoch then Step(FailChannel(s), Err(CounterExhausted))
      else Step(s.(recv := Ratcheted(s.recv)), Ok(Rekeyed))
    case CloseFrame =>
      Step(s.(peerClosed := true, recv := Destroyed(s.recv)), Ok(ReceiptFor(CloseFrame, payload)))
    case DataFrame =>
      Step(s.(recv := s.recv.(counter := s.recv.counter + 1)), Ok(DataReceipt(payload)))
  }

  // ----- the objects

  /** One direction's epoch-chained AEAD keys. */
  class Direction {
    var epoch: nat
    var counter: nat
    var destroyed: bool
    var chain: Secret
    var key: Secret
    const maxEpoch: nat

    ghost predicate Valid() reads this { key == KeyOf(chain) }

    ghost function View(): DirectionState reads this { DirectionState(epoch, counter, destroyed, chain) }

    constructor (chain: Secret, maxEpoch: nat)
      ensures Valid() && View() == DirectionState(0, 0, false, chain) && this.maxEpoch == maxEpoch
    {
      this.epoch, this.counter, this.destroyed := 0, 0, false;
      this.chain, this.key, this.maxEpoch := chain, KeyOf(chain), maxEpoch;
    }

    method Ratchet() returns (error: Option<Failure>)
      requires Valid()
      modifies this
      ensures Valid()
      ensures View() ==
        if old(destroyed) then old(View())
        else if old(epoch) >= maxEpoch then Destroyed(old(View()))
        else Ratcheted(old(View()))
      ensures error ==
        if old(destroyed) then Some(ChannelClosed)
        else if old(epoch) >= maxEpoch then Some(CounterExhausted)
        else None
    {
      if destroyed { return Some(ChannelClosed); }
      if epoch >= maxEpoch {
        Destroy();
        return Some(CounterExhausted);
      }
      var next := NextChain(chain);
      chain := next;
      key := KeyOf(next);
      epoch := epoch + 1;
      counter := 0;
      return None;
    }

    method Destroy()
      modifies this
      ensures View() == Destroyed(old(View())) && key == old(key)
    {
      destroyed := true;
    }
  }

  /** The authenticated duplex channel handed to callers once a handshake completes. */
  class SecureSessionChannel {
    const role: Role
    const sendDirection: Direction
    const recvDirection: Direction
    const limits: Limits
    var localClosed: bool
    var peerClosed: bool
    var failed: bool

    ghost predicate Valid()
      reads this, sendDirection, recvDirection
    {
      && sendDirection != recvDirection
      && sendDirection.Valid() && recvDirection.Valid()
      && sendDirection.maxEpoch == limits.maxEpoch && recvDirection.maxEpoch == limits.maxEpoch
    }

    ghost function View(): ChannelState
      reads this, sendDirection, recvDirection
    {
      ChannelState(role, limits, sendDirection.View(), recvDirection.View(), localClosed, peerClosed, failed)
    }

    constructor (role: Role, limits: Limits, shared: Secret, transcript: seq<Byte>)
      ensures Valid() && fresh(sendDirection) && fresh(recvDirection)
      ensures View() == NewChannel(role, limits, shared, transcript)
    {
      this.role, this.limits := role, limits;
      this.localClosed, this.peerClosed, this.failed := false, false, false;
      var initiatorToResponder := new Direction(RootChain(shared, transcript, Initiator), limits.maxEpoch);
      var responderToInitiator := new Direction(RootChain(shared, transcript, Responder), limits.maxEpoch);
      this.sendDirection := if role.Initiator? then initiatorToResponder else responderToInitiator;
      this.recvDirection := if role.Initiator? then responderToInitiator else initiatorToResponder;
    }

    method State() returns (status: Status)
      ensures status == StatusOf(View())
    {
      if failed { return StatusFailed; }
      if localClosed && peerClosed { return StatusClosed; }
      if localClosed { return LocalClosed; }
      if peerClosed { return PeerClosed; }
      return StatusOpen;
    }

    method Fail()
      requires Valid()
      modifies this, sendDirection, recvDirection
      ensures Valid() && View() == FailChannel(old(View()))
    {
      failed := true;
      sendDirection.Destroy();
      recvDirection.Destroy();
    }

    method Seal(kind: Kind, payload: seq<Byte>) returns (r: Outcome<Frame, Failure>)
      requires Valid()
      modifies sendDirection
      ensures Valid() && Step(View(), r) == Sealing(old(View()), kind, payload)
    {
      if sendDirection.destroyed { return Err(ChannelClosed); }
      var header := FrameHeader(kind, sendDirection.epoch, sendDirection.counter);
      var nonce := FrameNonce(sendDirection.epoch, sendDirection.counter);
      var body := Sealed(sendDirection.key, nonce, header, payload);
      sendDirection.counter := sendDirection.counter + 1;
      return Ok(Framed(header, body));
    }

    method SealRekey() returns (r: Outcome<Frame, Failure>)
      requires Valid()
      modifies this, sendDirection, recvDirection
      ensures Valid() && Step(View(), r) == SealingRekey(old(View()))
    {
      if sendDirection.epoch >= limits.maxEpoch {
        Fail();
        return Err(CounterExhausted);
      }
      r := Seal(RekeyFrame, []);
      if r.Ok? {
        var error := sendDirection.Ratchet();
      }
    }

    method SealInOrder(kind: Kind, payload: seq<Byte>) returns (r: Outcome<seq<Frame>, Failure>)
      requires Valid()
      modifies this, sendDirection, recvDirection
      ensures Valid() && Step(View(), r) == SealingInOrder(old(View()), kind, payload)
    {
      var frames := [];
      if sendDirection.counter >= limits.framesPerEpoch - 1 {
        var first := SealRekey();
        if first.Err? { return Err(first.error); }
        frames := frames + [first.value];
      }
      var frame := Seal(kind, payload);
      if frame.Err? { return Err(frame.error); }
      assert frames + [frame.value] == if frames == [] then [frame.value] else [frames[0], frame.value];
      return Ok(frames + [frame.value]);
    }

    method Send(payload: seq<Byte>) returns (r: Outcome<seq<Frame>, Failure>)
      requires Valid()
      modifies this, sendDirection, recvDirection
      ensures Valid() && Step(View(), r) == Sending(old(View()), payload)
    {
      if failed { return Err(ChannelClosed); }
      if localClosed { return Err(ChannelClosed); }
      if |payload| > limits.maxFrameBytes { return Err(FrameTooLarge); }
      r := SealInOrder(DataFrame, payload);
    }

    method Rekey() returns (r: Outcome<Frame, Failure>)
      requires Valid()
      modifies this, sendDirection, recvDirection
      ensures Valid() && Step(View(), r) == Rekeying(old(View()))
    {
      if failed { return Err(ChannelClosed); }
      if localClosed { return Err(ChannelClosed); }
      r := SealRekey();
    }

    method Close(reason: Option<Text>) returns (r: Outcome<seq<Frame>, Failure>)
      requires Valid()
      modifies this, sendDirection, recvDirection
      ensures Valid() && Step(View(), r) == Closing(old(View()), reason)
    {
      if failed { return Err(ChannelClosed); }
      if localClosed { return Err(ChannelClosed); }
      if reason.Some? && |reason.value| > MAX_CLOSE_REASON_CHARS { return Err(BadReason); }
      var payload := Utf8.Encode(if reason.Some? then reason.value else []);
      if |payload| > limits.maxFrameBytes { return Err(FrameTooLarge); }
      r := SealInOrder(CloseFrame, payload);
      if r.Ok? {
        localClosed := true;
        sendDirection.Destroy();
      }
    }

    method Abort()
      requires Valid()
      modifies this, sendDirection, recvDirection
      ensures Valid() && View() == Aborting(old(View()))
    {
      if failed || (localClosed && peerClosed) { return; }
      Fail();
    }

    method Receive(frame: Frame) returns (r: Outcome<Receipt, Failure>)
      requires Valid()
      modifies this, sendDirection, recvDirection
      ensures Valid() && Step(View(), r) == Receiving(old(View()), frame)
    {
      if failed { return Err(ChannelClosed); }
      if peerClosed { return Err(ChannelClosed); }
      if frame.Runt? || FrameBytes(frame) < FRAME_HEADER_BYTES + TAG_BYTES { return Err(TamperedFrame); }
      if FrameBytes(frame) > FRAME_HEADER_BYTES + limits.maxFrameBytes + TAG_BYTES { return Err(FrameTooLarge); }
      var header := frame.header;
      var kind := KindOf(header[1]);
      if header[0] != FRAME_VERSION || kind.None? { return Err(TamperedFrame); }
      var epoch := HeaderEpoch(header);
      var counter := HeaderCounter(header);
      var expected := recvDirection;
      if epoch < expected.epoch || (epoch == expected.epoch && counter < expected.counter) {
        return Err(ReplayedFrame);
      }
      if epoch > expected.epoch || counter > expected.counter { return Err(ReorderedFrame); }
      if expected.destroyed { return Err(TamperedFrame); }
      var payload := Open(expected.key, FrameNonce(epoch, expected.counter), header, frame.body);
      if payload.None? { return Err(TamperedFrame); }
      if kind.value == RekeyFrame {
        if expected.epoch >= limits.maxEpoch {
          Fail();
          return Err(CounterExhausted);
        }
        var error := expected.Ratchet();
        return Ok(Rekeyed);
      }
      if kind.value == CloseFrame {
        peerClosed := true;
        expected.Destroy();
        return Ok(ClosedReceipt(if |payload.value| > 0 then Some(payload.value) else None));
      }
      expected.counter := expected.counter + 1;
      return Ok(DataReceipt(payload.value));
    }
  }
}
