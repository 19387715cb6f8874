/**
 * Handshake and channel together: the channels that a completed handshake releases deliver in order over any network,
 * and channels of different handshakes never use a common key.
 */
module AgreedChannels {
  import opened Bytes
  import opened Channel
  import opened Handshake
  import opened HandshakeAgreement
  import Net = ChannelNetwork

  /** The session both ends of an exchange derive their keys from. */
  function SessionOf(f: Fields): Net.Session {
    Net.Session(DiffieHellman({f.initiatorEphemeral, f.responderEphemeral}), ChannelTranscript(f))
  }

  // ----- limits

  ghost predicate LimitsValid(w: World) {
    && (forall i :: 0 <= i < |w.initiators| ==> ValidLimits(w.initiators[i].n.options.limits))
    && (forall j :: 0 <= j < |w.responders| ==> ValidLimits(w.responders[j].n.options.limits))
  }

  lemma {:induction false} RunLimitsValid(crypto: Crypto, w: World, trace: seq<Event>)
    requires LimitsValid(w)
    ensures LimitsValid(Run(crypto, w, trace))
    decreases |trace|
  {
    if trace != [] {
      NextLimitsValid(crypto, w, trace[0]);
      RunLimitsValid(crypto, Next(crypto, w, trace[0]), trace[1..]);
    }
  }

  lemma NextLimitsValid(crypto: Crypto, w: World, event: Event)
    requires LimitsValid(w)
    ensures LimitsValid(Next(crypto, w, event))
  {
    NextGrows(crypto, w, event);
  }

  // ----- delivery

  /** Over every run of the channel network, what either end accepts is a prefix of what the other end sent. */
  ghost predicate DeliversInOrder(session: Net.Session, initiator: Limits, responder: Limits) {
    forall steps: seq<Net.Event>, role: Role | Net.Legal(session, Net.Start(session, initiator, responder), steps) ::
      var w := Net.Run(Net.Start(session, initiator, responder), steps);
      && Net.At(w, role).receipts <= Net.Receipts(Net.At(w, Opposite(role)).sealed)
      && Net.Payloads(Net.At(w, role).receipts) <= Net.At(w, Opposite(role)).sent
  }

  lemma ValidLimitsDeliver(session: Net.Session, initiator: Limits, responder: Limits)
    requires ValidLimits(initiator) && ValidLimits(responder)
    ensures DeliversInOrder(session, initiator, responder)
  {
    forall steps: seq<Net.Event>, role: Role | Net.Legal(session, Net.Start(session, initiator, responder), steps)
      ensures var w := Net.Run(Net.Start(session, initiator, responder), steps);
        && Net.At(w, role).receipts <= Net.Receipts(Net.At(w, Opposite(role)).sealed)
        && Net.Payloads(Net.At(w, role).receipts) <= Net.At(w, Opposite(role)).sent
    {
      Net.InOrderDelivery(session, initiator, responder, steps, role);
    }
  }

  lemma SessionChannels(i: InitiatorSide, accept: Accept, j: ResponderSide)
    requires InitiatorFields(i, accept) == ResponderFields(j)
    ensures var a, b := InitiatorChannel(i, accept), ResponderChannel(j);
      var start := Net.Start(SessionOf(ResponderFields(j)), a.limits, b.limits);
      && start.initiator == Net.End(a, [], [], [], []) && start.responder == Net.End(b, [], [], [], [])
      && a.limits == i.n.options.limits && b.limits == j.n.options.limits
  {
    var f := ResponderFields(j);
    assert {i.ephemeral, accept.ephemeral} == {f.initiatorEphemeral, f.responderEphemeral};
    assert {j.ephemeral, j.hello.ephemeral} == {f.initiatorEphemeral, f.responderEphemeral};
  }

  /**
   * End to end: an initiator whose pinned peer key is honest and who gets a channel shares a session with a responder
   * that agrees on everything, and between the two released channels delivery is in order whatever the network does.
   */
  lemma AgreedChannelsDeliver(crypto: Crypto, honest: set<Text>, trace: seq<Event>, i: nat) returns (j: nat)
    requires Legal(crypto, honest, World([], []), trace)
    requires i < |Run(crypto, World([], []), trace).initiators|
    requires var s := Run(crypto, World([], []), trace).initiators[i];
      s.completed.Some? && s.n.options.peerPublicKeySpki in honest
    ensures var w := Run(crypto, World([], []), trace);
      && j < |w.responders| && Matched(w.initiators[i], w.initiators[i].completed.value, w.responders[j])
    ensures var w := Run(crypto, World([], []), trace);
      var a, b := InitiatorChannel(w.initiators[i], w.initiators[i].completed.value), ResponderChannel(w.responders[j]);
      var session := SessionOf(ResponderFields(w.responders[j]));
      && Net.Start(session, a.limits, b.limits).initiator == Net.End(a, [], [], [], [])
      && Net.Start(session, a.limits, b.limits).responder == Net.End(b, [], [], [], [])
      && DeliversInOrder(session, a.limits, b.limits)
  {
    var w := Run(crypto, World([], []), trace);
    InitiatorAgreement(crypto, honest, trace, i);
    var s := w.initiators[i];
    j :| 0 <= j < |w.responders| && Matched(s, s.completed.value, w.responders[j])
      && TwoEnds(InitiatorChannel(s, s.completed.value), ResponderChannel(w.responders[j]));
    RunLimitsValid(crypto, World([], []), trace);
    SessionChannels(s, s.completed.value, w.responders[j]);
    ValidLimitsDeliver(SessionOf(ResponderFields(w.responders[j])), s.n.options.limits,
      w.responders[j].n.options.limits);
  }

  /** The same from the responder's side, whose initiator already holds the other channel. */
  lemma ConfirmedChannelsDeliver(crypto: Crypto, honest: set<Text>, trace: seq<Event>, j: nat) returns (i: nat)
    requires Legal(crypto, honest, World([], []), trace)
    requires j < |Run(crypto, World([], []), trace).responders|
    requires var s := Run(crypto, World([], []), trace).responders[j];
      s.completed && s.n.options.peerPublicKeySpki in honest
    ensures var w := Run(crypto, World([], []), trace);
      && i < |w.initiators| && ConfirmedBy(w.initiators[i], w.responders[j])
    ensures var w := Run(crypto, World([], []), trace);
      var a, b := InitiatorChannel(w.initiators[i], w.initiators[i].completed.value), ResponderChannel(w.responders[j]);
      var session := SessionOf(ResponderFields(w.responders[j]));
      && Net.Start(session, a.limits, b.limits).initiator == Net.End(a, [], [], [], [])
      && Net.Start(session, a.limits, b.limits).responder == Net.End(b, [], [], [], [])
      && DeliversInOrder(session, a.limits, b.limits)
  {
    var w := Run(crypto, World([], []), trace);
    ResponderAgreement(crypto, honest, trace, j);
    var s := w.responders[j];
    i :| 0 <= i < |w.initiators| && ConfirmedBy(w.initiators[i], s)
      && TwoEnds(InitiatorChannel(w.initiators[i], w.initiators[i].completed.value), ResponderChannel(s));
    RunLimitsValid(crypto, World([], []), trace);
    SessionChannels(w.initiators[i], w.initiators[i].completed.value, s);
    ValidLimitsDeliver(SessionOf(ResponderFields(s)), w.initiators[i].n.options.limits, s.n.options.limits);
  }

  // ----- different exchanges

  /** No key belongs to both sessions, in whatever direction and epoch. */
  ghost predicate KeysApart(s: Net.Session, t: Net.Session) {
    forall key :: !(Net.ChannelKey(s, key) && Net.ChannelKey(t, key))
  }

  lemma TranscriptsApart(s: Net.Session, t: Net.Session)
    requires s.transcript != t.transcript
    ensures KeysApart(s, t)
  {
    forall key ensures !(Net.ChannelKey(s, key) && Net.ChannelKey(t, key)) {
      if Net.ChannelKey(s, key) && Net.ChannelKey(t, key) {
        var d: Role, e: nat :| key == KeyOf(Net.ChainAt(Net.Root(s, d), e));
        var d': Role, e': nat :| key == KeyOf(Net.ChainAt(Net.Root(t, d'), e'));
        Net.ChainsApart(Net.Root(s, d), e, Net.Root(t, d'), e');
        assert false;
      }
    }
  }

  /** Exchanges that differ anywhere in what was signed derive keys that never meet. */
  lemma FieldsApart(f: Fields, g: Fields)
    requires f != g
    ensures KeysApart(SessionOf(f), SessionOf(g))
  {
    if ChannelTranscript(f) == ChannelTranscript(g) {
      TranscriptInjective(f, g);
    }
    TranscriptsApart(SessionOf(f), SessionOf(g));
  }

  /** What an end seals is sealed under its own session's keys. */
  lemma SealedUnderOwnKeys(session: Net.Session, initiator: Limits, responder: Limits, steps: seq<Net.Event>,
          role: Role, k: nat)
    requires ValidLimits(initiator) && ValidLimits(responder)
    requires Net.Legal(session, Net.Start(session, initiator, responder), steps)
    requires k < |Net.At(Net.Run(Net.Start(session, initiator, responder), steps), role).sealed|
    ensures var frame := Net.At(Net.Run(Net.Start(session, initiator, responder), steps), role).sealed[k];
      frame.Framed? && frame.body.Sealed? && Net.ChannelKey(session, frame.body.key)
  {
    var start := Net.Start(session, initiator, responder);
    var w := Net.Run(start, steps);
    Net.StartInv(session, initiator, responder);
    Net.RunKeepsInv(session, start, steps);
    Net.InvFrom(session, w, role);
    var e := Net.At(w, role);
    assert Net.InStream(Net.Root(session, role), e.channel.limits, e.sealed, k);
    var p := Net.PositionAfter(e.sealed[..k]);
    assert e.sealed[k].body.key == KeyOf(Net.ChainAt(Net.Root(session, role), p.epoch));
  }

  /** Frames sealed in channels of different exchanges are never under one key, so no nonce repeats across them. */
  lemma FramesApart(
      f: Fields, fi: Limits, fr: Limits, steps: seq<Net.Event>, a: Role, k: nat,
      g: Fields, gi: Limits, gr: Limits, steps': seq<Net.Event>, b: Role, k': nat)
    requires f != g && ValidLimits(fi) && ValidLimits(fr) && ValidLimits(gi) && ValidLimits(gr)
    requires Net.Legal(SessionOf(f), Net.Start(SessionOf(f), fi, fr), steps)
    requires Net.Legal(SessionOf(g), Net.Start(SessionOf(g), gi, gr), steps')
    requires k < |Net.At(Net.Run(Net.Start(SessionOf(f), fi, fr), steps), a).sealed|
    requires k' < |Net.At(Net.Run(Net.Start(SessionOf(g), gi, gr), steps'), b).sealed|
    ensures var frame := Net.At(Net.Run(Net.Start(SessionOf(f), fi, fr), steps), a).sealed[k];
      var frame' := Net.At(Net.Run(Net.Start(SessionOf(g), gi, gr), steps'), b).sealed[k'];
      && frame.Framed? && frame.body.Sealed? && frame'.Framed? && frame'.body.Sealed?
      && frame.body.key != frame'.body.key
  {
    SealedUnderOwnKeys(SessionOf(f), fi, fr, steps, a, k);
    SealedUnderOwnKeys(SessionOf(g), gi, gr, steps', b, k');
    FieldsApart(f, g);
  }

  /** Two different initiators of a run, or two different responders, never share a key, however they completed. */
  lemma DifferentHandshakesShareNoKey(crypto: Crypto, honest: set<Text>, trace: seq<Event>)
    requires Legal(crypto, honest, World([], []), trace)
    ensures var w := Run(crypto, World([], []), trace);
      && (forall i, i' ::
            0 <= i < i' < |w.initiators| && w.initiators[i].completed.Some? && w.initiators[i'].completed.Some? ==>
            KeysApart(SessionOf(InitiatorFields(w.initiators[i], w.initiators[i].completed.value)),
                      SessionOf(InitiatorFields(w.initiators[i'], w.initiators[i'].completed.value))))
      && (forall j, j' :: 0 <= j < j' < |w.responders| ==>
            KeysApart(SessionOf(ResponderFields(w.responders[j])), SessionOf(ResponderFields(w.responders[j']))))
  {
    var w := Run(crypto, World([], []), trace);
    RunKeepsInv(crypto, honest, World([], []), trace);
    forall i, i' | 0 <= i < i' < |w.initiators| && w.initiators[i].completed.Some? && w.initiators[i'].completed.Some?
      ensures KeysApart(SessionOf(InitiatorFields(w.initiators[i], w.initiators[i].completed.value)),
                        SessionOf(InitiatorFields(w.initiators[i'], w.initiators[i'].completed.value)))
    {
      FieldsApart(InitiatorFields(w.initiators[i], w.initiators[i].completed.value),
        InitiatorFields(w.initiators[i'], w.initiators[i'].completed.value));
    }
    forall j, j' | 0 <= j < j' < |w.responders|
      ensures KeysApart(SessionOf(ResponderFields(w.responders[j])), SessionOf(ResponderFields(w.responders[j'])))
    {
      FieldsApart(ResponderFields(w.responders[j]), ResponderFields(w.responders[j']));
    }
  }
}
