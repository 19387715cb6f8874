/**
 * What a handshake message must say to be accepted, spelled out: version, suite, session, encodings and signature.
 * Nothing released in any run of handshakes rests on a message that says anything else.
 */
module HandshakeChecks {
  import opened Bytes
  import opened Results
  import Base64Url
  import opened Channel
  import opened Handshake
  import opened HandshakeAgreement

  // ----- messages

  predicate SpeaksV1(version: Text, suite: Text) {
    version == Ascii("atb-channel-v1") && suite == Ascii("ECDH-P256-HKDF-SHA256-AES-256-GCM-P256SIG")
  }

  /** /^[A-Za-z0-9_-]+$/, at most 8192 characters. */
  predicate Base64UrlText(t: Text) {
    && 0 < |t| <= 8192
    && forall i :: 0 <= i < |t| ==>
         || 0x41 <= t[i] <= 0x5A || 0x61 <= t[i] <= 0x7A || 0x30 <= t[i] <= 0x39
         || t[i] == 0x5F || t[i] == 0x2D
  }

  /** The options' ranges. */
  predicate InRange(o: Options) {
    && 0 < |o.sessionId| <= 256 && 0 < |o.context| <= 65_536
    && 1 <= o.limits.maxFrameBytes <= 65_536 && 2 <= o.limits.framesPerEpoch <= 4_294_967_296
    && o.limits.maxEpoch <= 4_294_967_295
  }

  predicate WellEncoded(crypto: Crypto, ephemeral: Text, nonce: Text) {
    Base64UrlText(ephemeral) && Base64UrlText(nonce) && crypto.validEphemeral(ephemeral)
  }

  /** The exchange as the initiator knows it once it has this accept. */
  function InitiatorsView(i: InitiatorSide, a: Accept): Fields {
    var o := i.n.options;
    var local, peer := Party(i.n.localFingerprint, o.publicKeySpki), Party(i.n.peerFingerprint, o.peerPublicKeySpki);
    Fields(o.sessionId, o.context, local, peer, i.ephemeral, a.ephemeral, i.nonce, a.nonce)
  }

  function RespondersView(j: ResponderSide): Fields {
    var o := j.n.options;
    var local, peer := Party(j.n.localFingerprint, o.publicKeySpki), Party(j.n.peerFingerprint, o.peerPublicKeySpki);
    Fields(o.sessionId, o.context, peer, local, j.hello.ephemeral, j.ephemeral, j.hello.nonce, j.nonce)
  }

  predicate Convincing(crypto: Crypto, i: InitiatorSide, a: Accept) {
    && SpeaksV1(a.protocolVersion, a.cipherSuite) && a.sessionId == i.n.options.sessionId
    && WellEncoded(crypto, a.ephemeral, a.nonce)
    && a.signature ==
         Signed(i.n.options.peerPublicKeySpki, SignatureBody(Responder, ChannelTranscript(InitiatorsView(i, a))))
  }

  lemma SameAlphabet(t: Text)
    ensures Base64Url.IsBase64Url(t) <==> Base64UrlText(t)
  {
  }

  /**
   * An initiator releases its channel on exactly those accepts that speak version 1 and its suite, name its session,
   * are well encoded and carry the pinned peer's signature over the exchange; any other leaves it as it was, and the
   * error tells which of these fails first.
   */
  lemma AcceptReleasesIff(crypto: Crypto, i: InitiatorSide, a: Accept)
    ensures CompleteInitiator(crypto, i, a) ==
      if i.completed.None? && Convincing(crypto, i, a) then i.(completed := Some(a)) else i
    ensures AcceptFault(crypto, i, a) ==
      if i.completed.Some? then Some(HandshakeState)
      else if !SpeaksV1(a.protocolVersion, a.cipherSuite) then Some(ProtocolDowngrade)
      else if a.sessionId != i.n.options.sessionId then Some(ContextMismatch)
      else if !Convincing(crypto, i, a) then Some(KeyMismatch)
      else None
  {
    SameAlphabet(a.ephemeral);
    SameAlphabet(a.nonce);
    assert InitiatorsView(i, a) == InitiatorFields(i, a);
  }

  /** The accept of an honest exchange with version, suite or session changed completes nothing. */
  lemma AlteredAcceptRefused(
      crypto: Crypto, i: InitiatorSide, j: ResponderSide, version: Text, suite: Text, sessionId: Text)
    requires !SpeaksV1(version, suite) || sessionId != i.n.options.sessionId
    ensures var a := AcceptOf(j).(protocolVersion := version, cipherSuite := suite, sessionId := sessionId);
      CompleteInitiator(crypto, i, a) == i && AcceptFault(crypto, i, a).Some?
  {
    AcceptReleasesIff(crypto, i,
      AcceptOf(j).(protocolVersion := version, cipherSuite := suite, sessionId := sessionId));
  }

  predicate Welcome(crypto: Crypto, n: Normalized, h: Hello) {
    && SpeaksV1(h.protocolVersion, h.cipherSuite) && h.sessionId == n.options.sessionId
    && WellEncoded(crypto, h.ephemeral, h.nonce)
  }

  lemma HelloAcceptedIff(crypto: Crypto, n: Normalized, h: Hello)
    ensures HelloFault(crypto, n, h) ==
      if !SpeaksV1(h.protocolVersion, h.cipherSuite) then Some(ProtocolDowngrade)
      else if h.sessionId != n.options.sessionId then Some(ContextMismatch)
      else if !Welcome(crypto, n, h) then Some(KeyMismatch)
      else None
  {
    SameAlphabet(h.ephemeral);
    SameAlphabet(h.nonce);
  }

  /** A responder releases its channel on exactly the confirm of its session with the pinned peer's signature. */
  lemma ConfirmReleasesIff(j: ResponderSide, c: Confirm)
    ensures CompleteResponder(j, c) ==
      if !j.completed && c.sessionId == j.n.options.sessionId
         && c.signature ==
              Signed(j.n.options.peerPublicKeySpki, SignatureBody(Initiator, ChannelTranscript(RespondersView(j))))
      then j.(completed := true) else j
    ensures ConfirmFault(j, c).None? <==> CompleteResponder(j, c) != j
    ensures ConfirmFault(j, c) == Some(HandshakeState) <==> j.completed
    ensures ConfirmFault(j, c) == Some(ContextMismatch) <==> !j.completed && c.sessionId != j.n.options.sessionId
  {
    assert RespondersView(j) == ResponderFields(j);
  }

  // ----- every run

  /** Sides have options in range; what completed an initiator and what a responder answered are as they must be. */
  ghost predicate Checked(crypto: Crypto, w: World) {
    && (forall i :: 0 <= i < |w.initiators| ==> InitiatorChecked(crypto, w.initiators[i]))
    && (forall j :: 0 <= j < |w.responders| ==>
          InRange(w.responders[j].n.options) && Welcome(crypto, w.responders[j].n, w.responders[j].hello))
  }

  predicate InitiatorChecked(crypto: Crypto, i: InitiatorSide) {
    InRange(i.n.options) && (i.completed.Some? ==> Convincing(crypto, i.(completed := None), i.completed.value))
  }

  /** Options are taken exactly when they are in range and both keys have a fingerprint. */
  lemma NormalizedIff(crypto: Crypto, o: Options)
    ensures Normalize(crypto, o).Ok? <==>
      InRange(o) && crypto.fingerprint(o.publicKeySpki).Some? && crypto.fingerprint(o.peerPublicKeySpki).Some?
    ensures Normalize(crypto, o).Ok? ==>
      Normalize(crypto, o).value ==
        Normalized(o, crypto.fingerprint(o.publicKeySpki).value, crypto.fingerprint(o.peerPublicKeySpki).value)
  {
  }

  lemma NextChecked(crypto: Crypto, w: World, event: Event)
    requires Checked(crypto, w)
    ensures Checked(crypto, Next(crypto, w, event))
  {
    var n := Next(crypto, w, event);
    match event {
      case Initiate(o, _, _) => NormalizedIff(crypto, o);
      case Respond(o, hello, _, _) =>
        NormalizedIff(crypto, o);
        if Normalize(crypto, o).Ok? {
          HelloAcceptedIff(crypto, Normalize(crypto, o).value, hello);
        }
      case FinishInitiator(i, accept) =>
        if i < |w.initiators| {
          FinishChecked(crypto, w.initiators[i], accept);
        }
      case FinishResponder(j, confirm) =>
        if j < |w.responders| {
          ConfirmReleasesIff(w.responders[j], confirm);
        }
    }
  }

  lemma FinishChecked(crypto: Crypto, i: InitiatorSide, a: Accept)
    requires InitiatorChecked(crypto, i)
    ensures InitiatorChecked(crypto, CompleteInitiator(crypto, i, a))
  {
    AcceptReleasesIff(crypto, i, a);
    assert i.completed.None? ==> i.(completed := None) == i;
    assert InitiatorsView(i.(completed := None), a) == InitiatorsView(i, a);
  }

  lemma {:induction false} RunChecked(crypto: Crypto, w: World, trace: seq<Event>)
    requires Checked(crypto, w)
    ensures Checked(crypto, Run(crypto, w, trace))
    decreases |trace|
  {
    if trace != [] {
      NextChecked(crypto, w, trace[0]);
      RunChecked(crypto, Next(crypto, w, trace[0]), trace[1..]);
    }
  }

  /**
   * Over every run of handshakes, whatever the network does and whoever is honest: an accept that released a channel
   * speaks version 1 and its suite, names the initiator's own session, is well encoded and signed by the pinned key.
   */
  lemma ReleasedAccepts(crypto: Crypto, trace: seq<Event>, i: nat)
    requires i < |Run(crypto, World([], []), trace).initiators|
    requires Run(crypto, World([], []), trace).initiators[i].completed.Some?
    ensures var s := Run(crypto, World([], []), trace).initiators[i];
      var a := s.completed.value;
      && a.protocolVersion == Ascii("atb-channel-v1")
      && a.cipherSuite == Ascii("ECDH-P256-HKDF-SHA256-AES-256-GCM-P256SIG")
      && a.sessionId == s.n.options.sessionId
      && Base64UrlText(a.ephemeral) && Base64UrlText(a.nonce) && crypto.validEphemeral(a.ephemeral)
      && a.signature ==
           Signed(s.n.options.peerPublicKeySpki, SignatureBody(Responder, ChannelTranscript(InitiatorsView(s, a))))
  {
    RunChecked(crypto, World([], []), trace);
    var s := Run(crypto, World([], []), trace).initiators[i];
    assert InitiatorChecked(crypto, s);
    assert InitiatorsView(s.(completed := None), s.completed.value) == InitiatorsView(s, s.completed.value);
  }

  /** And every hello a responder ever answered does so too. */
  lemma AnsweredHellos(crypto: Crypto, trace: seq<Event>, j: nat)
    requires j < |Run(crypto, World([], []), trace).responders|
    ensures var s := Run(crypto, World([], []), trace).responders[j];
      && s.hello.protocolVersion == Ascii("atb-channel-v1")
      && s.hello.cipherSuite == Ascii("ECDH-P256-HKDF-SHA256-AES-256-GCM-P256SIG")
      && s.hello.sessionId == s.n.options.sessionId
      && Base64UrlText(s.hello.ephemeral) && Base64UrlText(s.hello.nonce) && crypto.validEphemeral(s.hello.ephemeral)
  {
    RunChecked(crypto, World([], []), trace);
  }
}
