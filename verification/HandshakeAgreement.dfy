/**
 * Many handshakes over a network that carries, alters and invents every message, signatures of
 * honest keys excepted: whoever gets a channel agrees with its peer on everything the channel rests on.
 */
module HandshakeAgreement {
  import opened Bytes
  import opened Results
  import opened Sorting
  import opened CanonicalJson
  import opened JsonReading
  import Base64Url
  import SigningDomains
  import opened Channel
  import opened Handshake
  import Net = ChannelNetwork

  // ----- equal signed bytes mean equal fields

  lemma SameMembers(f: seq<Field>, g: seq<Field>)
    requires WellKeyed(Record(f)) && WellKeyed(Record(g)) && Keys(f) == Keys(g) && Same(Record(f), Record(g))
    ensures forall i :: 0 <= i < |f| ==> Same(f[i].value, g[i].value)
  {
    forall i | 0 <= i < |f| ensures Same(f[i].value, g[i].value) {
      assert Keys(f)[i] == Keys(g)[i];
      LookupAt(g, i);
    }
  }

  /** Keys told apart by length and first unit are distinct. */
  lemma DistinctKeys(keys: seq<Text>, tags: seq<(int, int)>)
    requires |keys| == |tags| && Distinct(tags)
    requires forall i :: 0 <= i < |keys| ==> keys[i] != [] && tags[i] == (|keys[i]|, keys[i][0] as int)
    ensures Distinct(keys)
  {
    forall i, j | 0 <= i < j < |keys| ensures keys[i] != keys[j] {
      assert tags[i] != tags[j];
    }
  }

  lemma PartyWellKeyed(p: Party)
    ensures WellKeyed(PartyValue(p))
  {
    var f := PartyValue(p).fields;
    assert Keys(f)[0] == Ascii("principalId") && Keys(f)[1] == Ascii("publicKeySpki");
    assert |Keys(f)[0]| == 11 && |Keys(f)[1]| == 13;
  }

  lemma TranscriptWellKeyed(f: Fields)
    ensures WellKeyed(Record(TranscriptFields(f)))
  {
    var fields := TranscriptFields(f);
    var tags :=
      [(4, 0x74), (15, 0x70), (11, 0x63), (9, 0x73), (7, 0x63), (9, 0x69), (9, 0x72),
       (27, 0x69), (27, 0x72), (14, 0x69), (14, 0x72)];
    DistinctKeys(Keys(fields), tags);
    PartyWellKeyed(f.initiator);
    PartyWellKeyed(f.responder);
  }

  lemma SignatureWellKeyed(signer: Role, transcript: seq<Byte>)
    ensures WellKeyed(Record(SignatureFields(signer, transcript)))
  {
    DistinctKeys(Keys(SignatureFields(signer, transcript)), [(4, 0x74), (6, 0x73), (10, 0x74)]);
  }

  lemma StrSame(a: Text, b: Text)
    requires Same(Str(a), Str(b))
    ensures a == b
  {
  }

  lemma PartySame(p: Party, q: Party)
    requires Same(PartyValue(p), PartyValue(q))
    ensures p == q
  {
    PartyWellKeyed(p);
    PartyWellKeyed(q);
    var f, g := PartyValue(p).fields, PartyValue(q).fields;
    assert Keys(f) == Keys(g);
    SameMembers(f, g);
    assert Same(f[0].value, g[0].value) && Same(f[1].value, g[1].value);
  }

  /** Equal bytes of two records listing the same keys mean member-by-member equality. */
  lemma EqualBytes(f: seq<Field>, g: seq<Field>)
    requires Supported(Record(f)) && Supported(Record(g)) && WellKeyed(Record(f)) && WellKeyed(Record(g))
    requires Keys(f) == Keys(g) && Bytes8(Record(f)) == Bytes8(Record(g))
    ensures |f| == |g| && forall i :: 0 <= i < |f| ==> Same(f[i].value, g[i].value)
  {
    CanonicalBytesIff(Record(f), Record(g));
    SameMembers(f, g);
    assert |f| == |Keys(f)| == |g|;
  }

  lemma TranscriptKeys(a: Fields, b: Fields)
    ensures Keys(TranscriptFields(a)) == Keys(TranscriptFields(b))
  {
    var f, g := TranscriptFields(a), TranscriptFields(b);
    forall i | 0 <= i < |f| ensures f[i].key == g[i].key {
    }
  }

  lemma MembersDetermine(a: Fields, b: Fields)
    requires forall i :: 0 <= i < 11 ==> Same(TranscriptFields(a)[i].value, TranscriptFields(b)[i].value)
    ensures a == b
  {
    var f, g := TranscriptFields(a), TranscriptFields(b);
    assert Same(f[3].value, g[3].value) && Same(f[4].value, g[4].value);
    StrSame(a.sessionId, b.sessionId);
    StrSame(Base64Url.ToBase64Url(a.context), Base64Url.ToBase64Url(b.context));
    Base64Url.ToBase64UrlInjective(a.context, b.context);
    assert Same(f[5].value, g[5].value) && Same(f[6].value, g[6].value);
    PartySame(a.initiator, b.initiator);
    PartySame(a.responder, b.responder);
    assert Same(f[7].value, g[7].value) && Same(f[8].value, g[8].value);
    StrSame(a.initiatorEphemeral, b.initiatorEphemeral);
    StrSame(a.responderEphemeral, b.responderEphemeral);
    assert Same(f[9].value, g[9].value) && Same(f[10].value, g[10].value);
    StrSame(a.initiatorNonce, b.initiatorNonce);
    StrSame(a.responderNonce, b.responderNonce);
  }

  /** The transcript bytes determine every field of the exchange. */
  lemma TranscriptInjective(a: Fields, b: Fields)
    requires ChannelTranscript(a) == ChannelTranscript(b)
    ensures a == b
  {
    TranscriptSupported(a);
    TranscriptSupported(b);
    TranscriptWellKeyed(a);
    TranscriptWellKeyed(b);
    TranscriptKeys(a, b);
    EqualBytes(TranscriptFields(a), TranscriptFields(b));
    MembersDetermine(a, b);
  }

  lemma RoleNamesDiffer()
    ensures RoleName(Initiator) != RoleName(Responder)
  {
    assert RoleName(Initiator)[0] == 0x69 && RoleName(Responder)[0] == 0x72;
  }

  lemma SignatureKeys(r: Role, s: seq<Byte>, r': Role, s': seq<Byte>)
    ensures Keys(SignatureFields(r, s)) == Keys(SignatureFields(r', s'))
  {
    var f, g := SignatureFields(r, s), SignatureFields(r', s');
    forall i | 0 <= i < |f| ensures f[i].key == g[i].key {
    }
  }

  lemma SignatureMembersDetermine(r: Role, s: seq<Byte>, r': Role, s': seq<Byte>)
    requires forall i :: 0 <= i < 3 ==> Same(SignatureFields(r, s)[i].value, SignatureFields(r', s')[i].value)
    ensures r == r' && s == s'
  {
    var f, g := SignatureFields(r, s), SignatureFields(r', s');
    assert Same(f[1].value, g[1].value) && Same(f[2].value, g[2].value);
    StrSame(RoleName(r), RoleName(r'));
    RoleNamesDiffer();
    StrSame(Base64Url.ToBase64Url(s), Base64Url.ToBase64Url(s'));
    Base64Url.ToBase64UrlInjective(s, s');
  }

  /** A signature body determines the signer's role and the transcript. */
  lemma SignatureBodyInjective(r: Role, s: seq<Byte>, r': Role, s': seq<Byte>)
    requires SignatureBody(r, s) == SignatureBody(r', s')
    ensures r == r' && s == s'
  {
    SignatureWellKeyed(r, s);
    SignatureWellKeyed(r', s');
    SignatureKeys(r, s, r', s');
    EqualBytes(SignatureFields(r, s), SignatureFields(r', s'));
    SignatureMembersDetermine(r, s, r', s');
  }

  // ----- the world of handshakes

  datatype World = World(initiators: seq<InitiatorSide>, responders: seq<ResponderSide>)

  datatype Event =
    | Initiate(options: Options, ephemeral: Text, nonce: Text)
    | Respond(options: Options, hello: Hello, ephemeral: Text, nonce: Text)
    | FinishInitiator(i: nat, accept: Accept)
    | FinishResponder(j: nat, confirm: Confirm)

  function Next(crypto: Crypto, w: World, event: Event): World {
    match event
    case Initiate(o, ephemeral, nonce) =>
      var n := Normalize(crypto, o);
      if n.Err? then w else w.(initiators := w.initiators + [InitiatorSide(n.value, ephemeral, nonce, None)])
    case Respond(o, hello, ephemeral, nonce) =>
      var n := Normalize(crypto, o);
      if n.Err? || HelloFault(crypto, n.value, hello).Some? then w
      else w.(responders := w.responders + [ResponderSide(n.value, hello, ephemeral, nonce, false)])
    case FinishInitiator(i, accept) =>
      if i >= |w.initiators| then w
      else w.(initiators := w.initiators[i := CompleteInitiator(crypto, w.initiators[i], accept)])
    case FinishResponder(j, confirm) =>
      if j >= |w.responders| then w
      else w.(responders := w.responders[j := CompleteResponder(w.responders[j], confirm)])
  }

  function AcceptBody(s: ResponderSide): seq<Byte> {
    SignatureBody(Responder, ChannelTranscript(ResponderFields(s)))
  }

  function ConfirmBody(s: InitiatorSide): seq<Byte>
    requires s.completed.Some?
  {
    SignatureBody(Initiator, ChannelTranscript(InitiatorFields(s, s.completed.value)))
  }

  /** Everything the endpoints have signed: a responder signs its accept, an initiator its confirm. */
  ghost predicate WasSigned(w: World, key: Text, body: seq<Byte>) {
    || (exists j :: 0 <= j < |w.responders| && w.responders[j].n.options.signingKey == key
          && body == AcceptBody(w.responders[j]))
    || (exists i :: 0 <= i < |w.initiators| && w.initiators[i].completed.Some?
          && w.initiators[i].n.options.signingKey == key && body == ConfirmBody(w.initiators[i]))
  }

  /** Bytes that do not read as a record of the channel's signature type: whatever else a static key is used to sign. */
  predicate Elsewhere(body: seq<Byte>) { !SigningDomains.ReadsAs(body, SigningDomains.ChannelSignatureType()) }

  /** Every signature body reads as such a record, so it is never among those bytes. */
  lemma SignatureBodyReads(signer: Role, transcript: seq<Byte>)
    ensures !Elsewhere(SignatureBody(signer, transcript))
  {
    var fields := SignatureFields(signer, transcript);
    SignatureWellKeyed(signer, transcript);
    LookupAt(fields, 0);
    SigningDomains.CanonicalReadsAs(fields, SigningDomains.ChannelSignatureType());
  }

  /**
   * The network may offer any signature except one of an honest key that its owner did not make; and the owner may
   * have signed anything at all outside the channel's own type.
   */
  ghost predicate Offerable(honest: set<Text>, w: World, signature: Signature) {
    signature.Signed? && signature.signer in honest ==>
      WasSigned(w, signature.signer, signature.body) || Elsewhere(signature.body)
  }

  ghost predicate FreshEphemeral(w: World, ephemeral: Text) {
    && (forall i :: 0 <= i < |w.initiators| ==> w.initiators[i].ephemeral != ephemeral)
    && (forall j :: 0 <= j < |w.responders| ==> w.responders[j].ephemeral != ephemeral)
  }

  ghost predicate Allowed(honest: set<Text>, w: World, event: Event) {
    match event
    case Initiate(_, ephemeral, _) => FreshEphemeral(w, ephemeral)
    case Respond(_, _, ephemeral, _) => FreshEphemeral(w, ephemeral)
    case FinishInitiator(_, accept) => Offerable(honest, w, accept.signature)
    case FinishResponder(_, confirm) => Offerable(honest, w, confirm.signature)
  }

  ghost predicate Legal(crypto: Crypto, honest: set<Text>, w: World, trace: seq<Event>)
    decreases |trace|
  {
    trace != [] ==> Allowed(honest, w, trace[0]) && Legal(crypto, honest, Next(crypto, w, trace[0]), trace[1..])
  }

  function Run(crypto: Crypto, w: World, trace: seq<Event>): World
    decreases |trace|
  {
    if trace == [] then w else Run(crypto, Next(crypto, w, trace[0]), trace[1..])
  }

  // ----- agreement

  /** Both ends hold the same session ID, context, static keys, ephemerals and nonces, in opposite roles. */
  predicate Matched(i: InitiatorSide, accept: Accept, j: ResponderSide) {
    && InitiatorFields(i, accept) == ResponderFields(j)
    && j.n.options.signingKey == i.n.options.peerPublicKeySpki == j.n.options.publicKeySpki
    && j.n.options.peerPublicKeySpki == i.n.options.publicKeySpki
  }

  ghost predicate InitiatorAgrees(honest: set<Text>, w: World, i: nat)
    requires i < |w.initiators|
  {
    var s := w.initiators[i];
    s.completed.Some? && s.n.options.peerPublicKeySpki in honest ==>
      exists j :: 0 <= j < |w.responders| && Matched(s, s.completed.value, w.responders[j])
  }

  ghost predicate ResponderAgrees(honest: set<Text>, w: World, j: nat)
    requires j < |w.responders|
  {
    var s := w.responders[j];
    s.completed && s.n.options.peerPublicKeySpki in honest ==>
      exists i :: 0 <= i < |w.initiators| && ConfirmedBy(w.initiators[i], s)
  }

  predicate ConfirmedBy(i: InitiatorSide, j: ResponderSide) {
    && i.completed.Some?
    && InitiatorFields(i, i.completed.value) == ResponderFields(j)
    && i.n.options.signingKey == j.n.options.peerPublicKeySpki == i.n.options.publicKeySpki
    && i.n.options.peerPublicKeySpki == j.n.options.publicKeySpki
  }

  ghost predicate EphemeralsDistinct(w: World) {
    && (forall i, i' :: 0 <= i < i' < |w.initiators| ==> w.initiators[i].ephemeral != w.initiators[i'].ephemeral)
    && (forall j, j' :: 0 <= j < j' < |w.responders| ==> w.responders[j].ephemeral != w.responders[j'].ephemeral)
  }

  ghost predicate Inv(honest: set<Text>, w: World) {
    && EphemeralsDistinct(w)
    && (forall i :: 0 <= i < |w.initiators| ==> InitiatorAgrees(honest, w, i))
    && (forall j :: 0 <= j < |w.responders| ==> ResponderAgrees(honest, w, j))
  }

  /** Sides are never dropped; what they hold never changes, except that they may complete. */
  ghost predicate Grows(w: World, w': World) {
    && |w.initiators| <= |w'.initiators| && |w.responders| <= |w'.responders|
    && (forall i :: 0 <= i < |w.initiators| ==>
          w'.initiators[i].(completed := w.initiators[i].completed) == w.initiators[i]
          && (w.initiators[i].completed.Some? ==> w'.initiators[i] == w.initiators[i]))
    && (forall j :: 0 <= j < |w.responders| ==>
          w'.responders[j].(completed := w.responders[j].completed) == w.responders[j]
          && (w.responders[j].completed ==> w'.responders[j].completed))
  }

  lemma NextGrows(crypto: Crypto, w: World, event: Event)
    ensures Grows(w, Next(crypto, w, event))
  {
  }

  lemma AgreementPersists(honest: set<Text>, w: World, w': World)
    requires Grows(w, w')
    ensures forall i ::
      0 <= i < |w.initiators| && w'.initiators[i] == w.initiators[i] && InitiatorAgrees(honest, w, i) ==>
        InitiatorAgrees(honest, w', i)
    ensures forall j ::
      0 <= j < |w.responders| && w'.responders[j] == w.responders[j] && ResponderAgrees(honest, w, j) ==>
        ResponderAgrees(honest, w', j)
  {
    forall i | 0 <= i < |w.initiators| && w'.initiators[i] == w.initiators[i] && InitiatorAgrees(honest, w, i)
      ensures InitiatorAgrees(honest, w', i)
    {
      var s := w.initiators[i];
      if s.completed.Some? && s.n.options.peerPublicKeySpki in honest {
        var j :| 0 <= j < |w.responders| && Matched(s, s.completed.value, w.responders[j]);
        assert Matched(s, s.completed.value, w'.responders[j]);
      }
    }
    forall j | 0 <= j < |w.responders| && w'.responders[j] == w.responders[j] && ResponderAgrees(honest, w, j)
      ensures ResponderAgrees(honest, w', j)
    {
      var s := w.responders[j];
      if s.completed && s.n.options.peerPublicKeySpki in honest {
        var i :| 0 <= i < |w.initiators| && ConfirmedBy(w.initiators[i], s);
        assert ConfirmedBy(w'.initiators[i], s);
      }
    }
  }

  /** An accept that verifies against an honest pinned key was signed by a responder that agrees on everything. */
  lemma AcceptFromMatch(crypto: Crypto, honest: set<Text>, w: World, s: InitiatorSide, accept: Accept) returns (j: nat)
    requires AcceptFault(crypto, s, accept).None? && Offerable(honest, w, accept.signature)
    requires s.n.options.peerPublicKeySpki in honest
    ensures j < |w.responders| && Matched(s, accept, w.responders[j])
  {
    var transcript := ChannelTranscript(InitiatorFields(s, accept));
    var body := SignatureBody(Responder, transcript);
    SignatureBodyReads(Responder, transcript);
    assert WasSigned(w, s.n.options.peerPublicKeySpki, body);
    if k :| 0 <= k < |w.initiators| && w.initiators[k].completed.Some? && body == ConfirmBody(w.initiators[k]) {
      SignatureBodyInjective(Responder, transcript, Initiator,
        ChannelTranscript(InitiatorFields(w.initiators[k], w.initiators[k].completed.value)));
    }
    j :| 0 <= j < |w.responders| && w.responders[j].n.options.signingKey == s.n.options.peerPublicKeySpki
      && body == AcceptBody(w.responders[j]);
    SignatureBodyInjective(Responder, transcript, Responder, ChannelTranscript(ResponderFields(w.responders[j])));
    TranscriptInjective(InitiatorFields(s, accept), ResponderFields(w.responders[j]));
  }

  lemma ConfirmFromMatch(honest: set<Text>, w: World, s: ResponderSide, confirm: Confirm) returns (i: nat)
    requires ConfirmFault(s, confirm).None? && Offerable(honest, w, confirm.signature)
    requires s.n.options.peerPublicKeySpki in honest
    ensures i < |w.initiators| && ConfirmedBy(w.initiators[i], s)
  {
    var transcript := ChannelTranscript(ResponderFields(s));
    var body := SignatureBody(Initiator, transcript);
    SignatureBodyReads(Initiator, transcript);
    assert WasSigned(w, s.n.options.peerPublicKeySpki, body);
    if k :| 0 <= k < |w.responders| && body == AcceptBody(w.responders[k]) {
      SignatureBodyInjective(Initiator, transcript, Responder, ChannelTranscript(ResponderFields(w.responders[k])));
    }
    i :| 0 <= i < |w.initiators| && w.initiators[i].completed.Some?
      && w.initiators[i].n.options.signingKey == s.n.options.peerPublicKeySpki
      && body == ConfirmBody(w.initiators[i]);
    SignatureBodyInjective(Initiator, transcript, Initiator,
      ChannelTranscript(InitiatorFields(w.initiators[i], w.initiators[i].completed.value)));
    TranscriptInjective(ResponderFields(s), InitiatorFields(w.initiators[i], w.initiators[i].completed.value));
  }

  lemma FinishInitiatorKeeps(crypto: Crypto, honest: set<Text>, w: World, i: nat, accept: Accept)
    requires Inv(honest, w) && i < |w.initiators| && Offerable(honest, w, accept.signature)
    ensures Inv(honest, Next(crypto, w, FinishInitiator(i, accept)))
  {
    var w' := Next(crypto, w, FinishInitiator(i, accept));
    NextGrows(crypto, w, FinishInitiator(i, accept));
    AgreementPersists(honest, w, w');
    var s := w.initiators[i];
    if AcceptFault(crypto, s, accept).None? && s.n.options.peerPublicKeySpki in honest {
      var j := AcceptFromMatch(crypto, honest, w, s, accept);
      assert Matched(w'.initiators[i], accept, w'.responders[j]);
    }
    assert InitiatorAgrees(honest, w', i);
  }

  lemma FinishResponderKeeps(crypto: Crypto, honest: set<Text>, w: World, j: nat, confirm: Confirm)
    requires Inv(honest, w) && j < |w.responders| && Offerable(honest, w, confirm.signature)
    ensures Inv(honest, Next(crypto, w, FinishResponder(j, confirm)))
  {
    var w' := Next(crypto, w, FinishResponder(j, confirm));
    NextGrows(crypto, w, FinishResponder(j, confirm));
    AgreementPersists(honest, w, w');
    var s := w.responders[j];
    if ConfirmFault(s, confirm).None? && s.n.options.peerPublicKeySpki in honest {
      var i := ConfirmFromMatch(honest, w, s, confirm);
      assert ConfirmedBy(w'.initiators[i], w'.responders[j]);
    }
    assert ResponderAgrees(honest, w', j);
  }

  lemma NextKeepsInv(crypto: Crypto, honest: set<Text>, w: World, event: Event)
    requires Inv(honest, w) && Allowed(honest, w, event)
    ensures Inv(honest, Next(crypto, w, event))
  {
    match event {
      case FinishInitiator(i, accept) =>
        if i < |w.initiators| {
          FinishInitiatorKeeps(crypto, honest, w, i, accept);
        }
      case FinishResponder(j, confirm) =>
        if j < |w.responders| {
          FinishResponderKeeps(crypto, honest, w, j, confirm);
        }
      case Initiate(_, _, _) =>
        NextGrows(crypto, w, event);
        AgreementPersists(honest, w, Next(crypto, w, event));
      case Respond(_, _, _, _) =>
        NextGrows(crypto, w, event);
        AgreementPersists(honest, w, Next(crypto, w, event));
    }
  }

  lemma {:induction false} RunKeepsInv(crypto: Crypto, honest: set<Text>, w: World, trace: seq<Event>)
    requires Inv(honest, w) && Legal(crypto, honest, w, trace)
    ensures Inv(honest, Run(crypto, w, trace))
    decreases |trace|
  {
    if trace != [] {
      NextKeepsInv(crypto, honest, w, trace[0]);
      RunKeepsInv(crypto, honest, Next(crypto, w, trace[0]), trace[1..]);
    }
  }

  // ----- main theorems

  /**
   * If an initiator whose pinned peer key is honest gets a channel, some responder holding that key signed
   * the same session ID, context, static keys, ephemerals and nonces in the responder role, and the channel
   * that responder releases is the other end of the initiator's: each send chain is the other's receive chain.
   */
  lemma InitiatorAgreement(crypto: Crypto, honest: set<Text>, trace: seq<Event>, i: nat)
    requires Legal(crypto, honest, World([], []), trace)
    requires i < |Run(crypto, World([], []), trace).initiators|
    requires var s := Run(crypto, World([], []), trace).initiators[i];
      s.completed.Some? && s.n.options.peerPublicKeySpki in honest
    ensures var w := Run(crypto, World([], []), trace);
      var s := w.initiators[i];
      exists j :: 0 <= j < |w.responders| && Matched(s, s.completed.value, w.responders[j])
        && TwoEnds(InitiatorChannel(s, s.completed.value), ResponderChannel(w.responders[j]))
  {
    var w := Run(crypto, World([], []), trace);
    RunKeepsInv(crypto, honest, World([], []), trace);
    assert InitiatorAgrees(honest, w, i);
    var s := w.initiators[i];
    var j :| 0 <= j < |w.responders| && Matched(s, s.completed.value, w.responders[j]);
    MatchedChannels(s, s.completed.value, w.responders[j]);
  }

  /** The same for a responder: its peer not only signed the same exchange but already holds its channel. */
  lemma ResponderAgreement(crypto: Crypto, honest: set<Text>, trace: seq<Event>, j: nat)
    requires Legal(crypto, honest, World([], []), trace)
    requires j < |Run(crypto, World([], []), trace).responders|
    requires var s := Run(crypto, World([], []), trace).responders[j];
      s.completed && s.n.options.peerPublicKeySpki in honest
    ensures var w := Run(crypto, World([], []), trace);
      var s := w.responders[j];
      exists i :: 0 <= i < |w.initiators| && ConfirmedBy(w.initiators[i], s)
        && TwoEnds(InitiatorChannel(w.initiators[i], w.initiators[i].completed.value), ResponderChannel(s))
  {
    var w := Run(crypto, World([], []), trace);
    RunKeepsInv(crypto, honest, World([], []), trace);
    assert ResponderAgrees(honest, w, j);
    var s := w.responders[j];
    var i :| 0 <= i < |w.initiators| && ConfirmedBy(w.initiators[i], s);
    MatchedChannels(w.initiators[i], w.initiators[i].completed.value, s);
  }

  /** Two channels that are the two ends of one session of the network model. */
  ghost predicate TwoEnds(a: ChannelState, b: ChannelState) {
    && a.send.chain == b.recv.chain && b.send.chain == a.recv.chain && a.send.chain != a.recv.chain
    && exists session: Net.Session ::
         && Net.Start(session, a.limits, b.limits).initiator.channel == a
         && Net.Start(session, a.limits, b.limits).responder.channel == b
  }

  lemma MatchedChannels(i: InitiatorSide, accept: Accept, j: ResponderSide)
    requires InitiatorFields(i, accept) == ResponderFields(j)
    ensures TwoEnds(InitiatorChannel(i, accept), ResponderChannel(j))
  {
    var a, b := InitiatorChannel(i, accept), ResponderChannel(j);
    assert {i.ephemeral, accept.ephemeral} == {j.ephemeral, j.hello.ephemeral};
    var session :=
      Net.Session(DiffieHellman({i.ephemeral, accept.ephemeral}), ChannelTranscript(InitiatorFields(i, accept)));
    assert Net.Start(session, a.limits, b.limits).initiator.channel == a;
    assert Net.Start(session, a.limits, b.limits).responder.channel == b;
    Net.RootsDiffer(session);
  }

  /** Injective agreement: one responder run is never matched by two initiators, nor one initiator by two responders. */
  lemma MatchIsUnique(crypto: Crypto, honest: set<Text>, trace: seq<Event>, i: nat, i': nat, j: nat, j': nat)
    requires Legal(crypto, honest, World([], []), trace)
    requires var w := Run(crypto, World([], []), trace);
      && i < |w.initiators| && i' < |w.initiators| && j < |w.responders| && j' < |w.responders|
      && w.initiators[i].completed.Some? && w.initiators[i'].completed.Some?
      && InitiatorFields(w.initiators[i], w.initiators[i].completed.value) == ResponderFields(w.responders[j])
      && InitiatorFields(w.initiators[i'], w.initiators[i'].completed.value) == ResponderFields(w.responders[j'])
    ensures i == i' <==> j == j'
  {
    RunKeepsInv(crypto, honest, World([], []), trace);
  }

  /** Each side yields at most one channel: after a completion every further call is refused and changes nothing. */
  lemma AtMostOneChannel(crypto: Crypto, i: InitiatorSide, first: Accept, j: ResponderSide, confirm: Confirm)
    requires AcceptFault(crypto, i, first).None? && ConfirmFault(j, confirm).None?
    ensures forall later :: AcceptFault(crypto, CompleteInitiator(crypto, i, first), later) == Some(HandshakeState)
    ensures forall later ::
      CompleteInitiator(crypto, CompleteInitiator(crypto, i, first), later) == CompleteInitiator(crypto, i, first)
    ensures forall later :: ConfirmFault(CompleteResponder(j, confirm), later) == Some(HandshakeState)
    ensures forall later :: CompleteResponder(CompleteResponder(j, confirm), later) == CompleteResponder(j, confirm)
  {
  }

  /** An honest exchange delivered unchanged completes on both sides. */
  lemma HonestExchangeCompletes(crypto: Crypto, i: InitiatorSide, j: ResponderSide)
    requires i.completed.None? && !j.completed && j.hello == HelloOf(i)
    requires i.n.options.sessionId == j.n.options.sessionId && i.n.options.context == j.n.options.context
    requires Local(i.n) == Peer(j.n) && Peer(i.n) == Local(j.n)
    requires i.n.options.signingKey == i.n.options.publicKeySpki && j.n.options.signingKey == j.n.options.publicKeySpki
    requires Base64Url.IsBase64Url(j.ephemeral) && Base64Url.IsBase64Url(j.nonce) && crypto.validEphemeral(j.ephemeral)
    ensures AcceptFault(crypto, i, AcceptOf(j)).None?
    ensures ConfirmFault(j, ConfirmOf(i, AcceptOf(j))).None?
    ensures TwoEnds(InitiatorChannel(i, AcceptOf(j)), ResponderChannel(j))
  {
    assert InitiatorFields(i, AcceptOf(j)) == ResponderFields(j);
    MatchedChannels(i, AcceptOf(j), j);
  }
}
