/**
 * The signed-ephemeral handshake: what each side signs, when it accepts, and the channel it releases.
 * Signatures are ideal: one verifies for a key and a body only if it was made with that key on that body.
 */
module Handshake {
  import opened Bytes
  import opened Results
  import opened CanonicalJson
  import Base64Url
  import Utf8
  import opened Channel

  // ----- the transcript and what is signed

  datatype Party = Party(principalId: Text, publicKeySpki: Text)

  datatype Fields = Fields(
    sessionId: Text, context: seq<Byte>, initiator: Party, responder: Party,
    initiatorEphemeral: Text, responderEphemeral: Text, initiatorNonce: Text, responderNonce: Text)

  function Member(key: string, value: Value): Field { Field(Ascii(key), value) }

  function PartyValue(p: Party): Value {
    Record([Member("principalId", Str(p.principalId)), Member("publicKeySpki", Str(p.publicKeySpki))])
  }

  function ProtocolVersion(): Text { Ascii("atb-channel-v1") }

  function CipherSuite(): Text { Ascii("ECDH-P256-HKDF-SHA256-AES-256-GCM-P256SIG") }

  function TranscriptFields(f: Fields): seq<Field> {
    [ Member("type", Str(Ascii("atb-channel-transcript-v1"))),
      Member("protocolVersion", Str(ProtocolVersion())),
      Member("cipherSuite", Str(CipherSuite())),
      Member("sessionId", Str(f.sessionId)),
      Member("context", Str(Base64Url.ToBase64Url(f.context))),
      Member("initiator", PartyValue(f.initiator)),
      Member("responder", PartyValue(f.responder)),
      Member("initiatorEphemeralPublicKey", Str(f.initiatorEphemeral)),
      Member("responderEphemeralPublicKey", Str(f.responderEphemeral)),
      Member("initiatorNonce", Str(f.initiatorNonce)),
      Member("responderNonce", Str(f.responderNonce)) ]
  }

  function RoleName(role: Role): Text { if role.Initiator? then Ascii("initiator") else Ascii("responder") }

  function SignatureFields(signer: Role, transcript: seq<Byte>): seq<Field> {
    [ Member("type", Str(Ascii("atb-channel-signature-v1"))),
      Member("signer", Str(RoleName(signer))),
      Member("transcript", Str(Base64Url.ToBase64Url(transcript))) ]
  }

  function Bytes8(v: Value): seq<Byte>
    requires Supported(v)
  {
    Utf8.Encode(Print(v))
  }

  lemma PartySupported(p: Party)
    ensures Supported(PartyValue(p))
  {
    var fields := PartyValue(p).fields;
    assert fields[0].value == Str(p.principalId) && fields[1].value == Str(p.publicKeySpki);
  }

  lemma TranscriptSupported(f: Fields)
    ensures Supported(Record(TranscriptFields(f)))
  {
    PartySupported(f.initiator);
    PartySupported(f.responder);
  }

  /** The exact byte string both static signatures cover. */
  function ChannelTranscript(f: Fields): seq<Byte> {
    TranscriptSupported(f);
    Bytes8(Record(TranscriptFields(f)))
  }

  /** Role domain separation: the signer's role is part of what is signed. */
  function SignatureBody(signer: Role, transcript: seq<Byte>): seq<Byte> {
    Bytes8(Record(SignatureFields(signer, transcript)))
  }

  // ----- messages and options

  /** Public-key text recognised by the platform and the fingerprint it gives, both left to the platform. */
  datatype Crypto = Crypto(fingerprint: Text -> Option<Text>, validEphemeral: Text -> bool)

  /** A signature made with a private key (named by its public half), or text that is none. */
  datatype Signature = Signed(signer: Text, body: seq<Byte>) | Scrap(text: Text)

  predicate Verifies(publicKeySpki: Text, body: seq<Byte>, signature: Signature) {
    signature == Signed(publicKeySpki, body)
  }

  predicate SignatureText(signature: Signature) {
    signature.Scrap? ==> Base64Url.IsBase64Url(signature.text)
  }

  datatype Options = Options(
    publicKeySpki: Text, signingKey: Text, peerPublicKeySpki: Text, sessionId: Text, context: seq<Byte>, limits: Limits)

  datatype Normalized = Normalized(options: Options, localFingerprint: Text, peerFingerprint: Text)

  datatype HandshakeError = InvalidOptions | ProtocolDowngrade | ContextMismatch | KeyMismatch | HandshakeState

  datatype Hello = Hello(protocolVersion: Text, cipherSuite: Text, sessionId: Text, ephemeral: Text, nonce: Text)
  datatype Accept = Accept(protocolVersion: Text, cipherSuite: Text, sessionId: Text, ephemeral: Text, nonce: Text,
      signature: Signature)
  datatype Confirm = Confirm(sessionId: Text, signature: Signature)

  function Normalize(crypto: Crypto, o: Options): Outcome<Normalized, HandshakeError> {
    if !(1 <= |o.sessionId| <= 256) || !(1 <= |o.context| <= 65536) || !ValidLimits(o.limits) then Err(InvalidOptions)
    else
      match (crypto.fingerprint(o.peerPublicKeySpki), crypto.fingerprint(o.publicKeySpki))
      case (Some(peer), Some(local)) => Ok(Normalized(o, local, peer))
      case _ => Err(InvalidOptions)
  }

  function Local(n: Normalized): Party { Party(n.localFingerprint, n.options.publicKeySpki) }

  function Peer(n: Normalized): Party { Party(n.peerFingerprint, n.options.peerPublicKeySpki) }

  // ----- the two sides as values

  /** `completed` holds the accept that released the channel. */
  datatype InitiatorSide = InitiatorSide(n: Normalized, ephemeral: Text, nonce: Text, completed: Option<Accept>)

  datatype ResponderSide = ResponderSide(n: Normalized, hello: Hello, ephemeral: Text, nonce: Text, completed: bool)

  function InitiatorFields(s: InitiatorSide, accept: Accept): Fields {
    Fields(s.n.options.sessionId, s.n.options.context, Local(s.n), Peer(s.n), s.ephemeral, accept.ephemeral, s.nonce,
      accept.nonce)
  }

  function ResponderFields(s: ResponderSide): Fields {
    Fields(s.n.options.sessionId, s.n.options.context, Peer(s.n), Local(s.n), s.hello.ephemeral, s.ephemeral,
      s.hello.nonce, s.nonce)
  }

  function HelloOf(s: InitiatorSide): Hello {
    Hello(ProtocolVersion(), CipherSuite(), s.n.options.sessionId, s.ephemeral, s.nonce)
  }

  function AcceptOf(s: ResponderSide): Accept {
    var body := SignatureBody(Responder, ChannelTranscript(ResponderFields(s)));
    Accept(ProtocolVersion(), CipherSuite(), s.n.options.sessionId, s.ephemeral, s.nonce,
      Signed(s.n.options.signingKey, body))
  }

  function ConfirmOf(s: InitiatorSide, accept: Accept): Confirm {
    var body := SignatureBody(Initiator, ChannelTranscript(InitiatorFields(s, accept)));
    Confirm(s.n.options.sessionId, Signed(s.n.options.signingKey, body))
  }

  function InitiatorChannel(s: InitiatorSide, accept: Accept): ChannelState {
    NewChannel(Initiator, s.n.options.limits, DiffieHellman({s.ephemeral, accept.ephemeral}),
      ChannelTranscript(InitiatorFields(s, accept)))
  }

  function ResponderChannel(s: ResponderSide): ChannelState {
    NewChannel(Responder, s.n.options.limits, DiffieHellman({s.ephemeral, s.hello.ephemeral}),
      ChannelTranscript(ResponderFields(s)))
  }

  /** Why the initiator refuses an accept, in the order it checks; None when it releases its channel. */
  function AcceptFault(crypto: Crypto, s: InitiatorSide, a: Accept): Option<HandshakeError> {
    if s.completed.Some? then Some(HandshakeState)
    else if a.protocolVersion != ProtocolVersion() || a.cipherSuite != CipherSuite() then Some(ProtocolDowngrade)
    else if a.sessionId != s.n.options.sessionId then Some(ContextMismatch)
    else if !Base64Url.IsBase64Url(a.ephemeral) || !Base64Url.IsBase64Url(a.nonce) || !SignatureText(a.signature)
      then Some(KeyMismatch)
    else if !crypto.validEphemeral(a.ephemeral) then Some(KeyMismatch)
    else if !Verifies(s.n.options.peerPublicKeySpki, SignatureBody(Responder, ChannelTranscript(InitiatorFields(s, a))),
      a.signature)
    then Some(KeyMismatch)
    else None
  }

  function HelloFault(crypto: Crypto, n: Normalized, h: Hello): Option<HandshakeError> {
    if h.protocolVersion != ProtocolVersion() || h.cipherSuite != CipherSuite() then Some(ProtocolDowngrade)
    else if h.sessionId != n.options.sessionId then Some(ContextMismatch)
    else if !Base64Url.IsBase64Url(h.ephemeral) || !Base64Url.IsBase64Url(h.nonce) then Some(KeyMismatch)
    else if !crypto.validEphemeral(h.ephemeral) then Some(KeyMismatch)
    else None
  }

  function ConfirmFault(s: ResponderSide, c: Confirm): Option<HandshakeError> {
    if s.completed then Some(HandshakeState)
    else if c.sessionId != s.n.options.sessionId then Some(ContextMismatch)
    else if !SignatureText(c.signature) then Some(KeyMismatch)
    else if !Verifies(s.n.options.peerPublicKeySpki, SignatureBody(Initiator, ChannelTranscript(ResponderFields(s))),
      c.signature)
    then Some(KeyMismatch)
    else None
  }

  function CompleteInitiator(crypto: Crypto, s: InitiatorSide, a: Accept): InitiatorSide {
    if AcceptFault(crypto, s, a).None? then s.(completed := Some(a)) else s
  }

  function CompleteResponder(s: ResponderSide, c: Confirm): ResponderSide {
    if ConfirmFault(s, c).None? then s.(completed := true) else s
  }

  // ----- the objects

  /** What initiateChannel returns: a hello and one use of `complete`. */
  class InitiatedChannel {
    const crypto: Crypto
    const normalized: Normalized
    const ephemeral: Text
    const nonce: Text
    var completed: bool
    var ephemeralPrivate: Option<Text>
    ghost var accepted: Option<Accept>

    ghost predicate Valid() reads this {
      && (completed <==> accepted.Some?)
      && ephemeralPrivate == (if completed then None else Some(ephemeral))
    }

    ghost function View(): InitiatorSide reads this { InitiatorSide(normalized, ephemeral, nonce, accepted) }

    constructor (crypto: Crypto, normalized: Normalized, ephemeral: Text, nonce: Text)
      ensures Valid() && View() == InitiatorSide(normalized, ephemeral, nonce, None) && this.crypto == crypto
    {
      this.crypto, this.normalized, this.ephemeral, this.nonce := crypto, normalized, ephemeral, nonce;
      this.completed, this.ephemeralPrivate, this.accepted := false, Some(ephemeral), None;
    }

    method Complete(accept: Accept) returns (r: Outcome<(SecureSessionChannel, Confirm), HandshakeError>)
      requires Valid()
      modifies this
      ensures Valid() && View() == CompleteInitiator(crypto, old(View()), accept)
      ensures r.Err? <==> AcceptFault(crypto, old(View()), accept).Some?
      ensures r.Err? ==> AcceptFault(crypto, old(View()), accept) == Some(r.error)
      ensures r.Ok? ==>
        && fresh(r.value.0) && r.value.0.Valid()
        && r.value.0.View() == InitiatorChannel(old(View()), accept)
        && r.value.1 == ConfirmOf(old(View()), accept)
    {
      if completed { return Err(HandshakeState); }
      if accept.protocolVersion != ProtocolVersion() || accept.cipherSuite != CipherSuite() {
        return Err(ProtocolDowngrade);
      }
      var o := normalized.options;
      if accept.sessionId != o.sessionId { return Err(ContextMismatch); }
      if !Base64Url.IsBase64Url(accept.ephemeral) || !Base64Url.IsBase64Url(accept.nonce)
        || !SignatureText(accept.signature) {
        return Err(KeyMismatch);
      }
      if !crypto.validEphemeral(accept.ephemeral) { return Err(KeyMismatch); }
      var transcript := ChannelTranscript(
        Fields(o.sessionId, o.context, Local(normalized), Peer(normalized), ephemeral, accept.ephemeral, nonce,
          accept.nonce));
      if !Verifies(o.peerPublicKeySpki, SignatureBody(Responder, transcript), accept.signature) {
        return Err(KeyMismatch);
      }
      if ephemeralPrivate.None? { return Err(HandshakeState); }
      var sharedSecret := DiffieHellman({ephemeralPrivate.value, accept.ephemeral});
      completed := true;
      ephemeralPrivate := None;
      accepted := Some(accept);
      var confirm := Confirm(o.sessionId, Signed(o.signingKey, SignatureBody(Initiator, transcript)));
      var channel := new SecureSessionChannel(Initiator, o.limits, sharedSecret, transcript);
      return Ok((channel, confirm));
    }
  }

  /** What acceptChannel returns: an accept, and a channel released only by the initiator's confirm. */
  class AcceptedChannel {
    const normalized: Normalized
    const hello: Hello
    const ephemeral: Text
    const nonce: Text
    const transcript: seq<Byte>
    var completed: bool
    var ephemeralPrivate: Option<Text>

    ghost predicate Valid() reads this {
      && transcript == ChannelTranscript(ResponderFields(View()))
      && ephemeralPrivate == (if completed then None else Some(ephemeral))
    }

    ghost function View(): ResponderSide reads this { ResponderSide(normalized, hello, ephemeral, nonce, completed) }

    constructor (normalized: Normalized, hello: Hello, ephemeral: Text, nonce: Text)
      ensures Valid() && View() == ResponderSide(normalized, hello, ephemeral, nonce, false)
    {
      this.normalized, this.hello, this.ephemeral, this.nonce := normalized, hello, ephemeral, nonce;
      this.transcript := ChannelTranscript(ResponderFields(ResponderSide(normalized, hello, ephemeral, nonce, false)));
      this.completed, this.ephemeralPrivate := false, Some(ephemeral);
    }

    method Complete(confirm: Confirm) returns (r: Outcome<SecureSessionChannel, HandshakeError>)
      requires Valid()
      modifies this
      ensures Valid() && View() == CompleteResponder(old(View()), confirm)
      ensures r.Err? <==> ConfirmFault(old(View()), confirm).Some?
      ensures r.Err? ==> ConfirmFault(old(View()), confirm) == Some(r.error)
      ensures r.Ok? ==> fresh(r.value) && r.value.Valid() && r.value.View() == ResponderChannel(old(View()))
    {
      if completed { return Err(HandshakeState); }
      if confirm.sessionId != normalized.options.sessionId { return Err(ContextMismatch); }
      if !SignatureText(confirm.signature) { return Err(KeyMismatch); }
      if !Verifies(normalized.options.peerPublicKeySpki, SignatureBody(Initiator, transcript), confirm.signature) {
        return Err(KeyMismatch);
      }
      if ephemeralPrivate.None? { return Err(HandshakeState); }
      var sharedSecret := DiffieHellman({ephemeralPrivate.value, hello.ephemeral});
      completed := true;
      ephemeralPrivate := None;
      var channel := new SecureSessionChannel(Responder, normalized.options.limits, sharedSecret, transcript);
      return Ok(channel);
    }
  }
}
