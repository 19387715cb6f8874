/**
 * What the channel's two static signatures say to a reader: the JSON object each covers has exactly these properties
 * with exactly these values.
 */
module SignedFields {
  import opened Bytes
  import opened Results
  import opened Sorting
  import opened CanonicalJson
  import opened JsonReading
  import opened Handshake
  import opened HandshakeAgreement
  import Base64Url
  import Utf8
  import Channel

  /** The object a byte string is the JSON text of. */
  function ObjectOf(body: seq<Byte>): Option<seq<Field>> {
    match Read(Utf8.Decode(body))
    case Some((Record(fields), rest)) => if rest == [] then Some(fields) else None
    case _ => None
  }

  /** The object's property of this name. */
  function Property(fields: seq<Field>, name: string): Option<Value> {
    if Ascii(name) in Keys(fields) then Some(Lookup(fields, Ascii(name))) else None
  }

  /** The property is this text. */
  predicate Says(fields: seq<Field>, name: string, text: Text) { Property(fields, name) == Some(Str(text)) }

  /** The property is an object of a party's two texts. */
  predicate SaysParty(fields: seq<Field>, name: string, p: Party) {
    var v := Property(fields, name);
    v.Some? && v.value.Record? && |v.value.fields| == 2
    && Says(v.value.fields, "principalId", p.principalId) && Says(v.value.fields, "publicKeySpki", p.publicKeySpki)
  }

  // ----- reading a printed record

  lemma RecordReads(fields: seq<Field>)
    requires WellKeyed(Record(fields)) && Supported(Record(fields))
    ensures ObjectOf(Bytes8(Record(fields))) == Some(Normal(Record(fields)).fields)
  {
    var v := Record(fields);
    PrintWellFormed(v);
    Utf8.DecodeEncode(Print(v));
    ReadBack(v, []);
    assert Print(v) + [] == Print(v);
  }

  /** Each property of a record is there in its sorted form, and no other. */
  lemma SortedKeeps(fields: seq<Field>, i: nat)
    requires WellKeyed(Record(fields)) && i < |fields|
    ensures var sorted := Normal(Record(fields)).fields;
      && |sorted| == |fields| && fields[i].key in Keys(sorted)
      && Lookup(sorted, fields[i].key) == Normal(fields[i].value)
  {
    var keys := Sort(TextLess, Keys(fields));
    TextOrder();
    SortMembers(TextLess, Keys(fields));
    SortAscending(TextLess, Keys(fields));
    var sorted := NormalFields(fields, keys);
    forall k | 0 <= k < |keys| ensures sorted[k].key == keys[k] {
      NormalFieldsAt(fields, keys, k);
    }
    assert Keys(sorted) == keys && Distinct(keys);
    assert Keys(fields)[i] in keys;
    var p :| 0 <= p < |keys| && keys[p] == fields[i].key;
    NormalFieldsAt(fields, keys, p);
    LookupAt(sorted, p);
    LookupAt(fields, i);
  }

  lemma SaysText(fields: seq<Field>, i: nat, name: string, text: Text)
    requires WellKeyed(Record(fields)) && i < |fields| && fields[i] == Member(name, Str(text))
    ensures Says(Normal(Record(fields)).fields, name, text)
  {
    SortedKeeps(fields, i);
  }

  lemma SaysTheParty(fields: seq<Field>, i: nat, name: string, p: Party)
    requires WellKeyed(Record(fields)) && i < |fields| && fields[i] == Member(name, PartyValue(p))
    ensures SaysParty(Normal(Record(fields)).fields, name, p)
  {
    SortedKeeps(fields, i);
    PartyWellKeyed(p);
    var inner := PartyValue(p).fields;
    SaysText(inner, 0, "principalId", p.principalId);
    SaysText(inner, 1, "publicKeySpki", p.publicKeySpki);
    SortedKeeps(inner, 0);
  }

  // ----- the two signed objects

  /** What is spoken: type, version and suite. */
  predicate SaysProtocol(fields: seq<Field>) {
    && Says(fields, "type", Ascii("atb-channel-transcript-v1"))
    && Says(fields, "protocolVersion", Ascii("atb-channel-v1"))
    && Says(fields, "cipherSuite", Ascii("ECDH-P256-HKDF-SHA256-AES-256-GCM-P256SIG"))
  }

  /** About which session. */
  predicate SaysWhat(fields: seq<Field>, f: Fields) {
    Says(fields, "sessionId", f.sessionId) && Says(fields, "context", Base64Url.ToBase64Url(f.context))
  }

  /** Between whom. */
  predicate SaysWho(fields: seq<Field>, f: Fields) {
    SaysParty(fields, "initiator", f.initiator) && SaysParty(fields, "responder", f.responder)
  }

  /** With which ephemeral keys and nonces. */
  predicate SaysWith(fields: seq<Field>, f: Fields) {
    && Says(fields, "initiatorEphemeralPublicKey", f.initiatorEphemeral)
    && Says(fields, "responderEphemeralPublicKey", f.responderEphemeral)
    && Says(fields, "initiatorNonce", f.initiatorNonce)
    && Says(fields, "responderNonce", f.responderNonce)
  }

  /** The first three properties of any list that begins with them. */
  lemma SortedSaysProtocol(fields: seq<Field>)
    requires WellKeyed(Record(fields)) && |fields| > 2
    requires fields[0] == Member("type", Str(Ascii("atb-channel-transcript-v1")))
    requires fields[1] == Member("protocolVersion", Str(Ascii("atb-channel-v1")))
    requires fields[2] == Member("cipherSuite", Str(Ascii("ECDH-P256-HKDF-SHA256-AES-256-GCM-P256SIG")))
    ensures SaysProtocol(Normal(Record(fields)).fields)
  {
    SaysText(fields, 0, "type", Ascii("atb-channel-transcript-v1"));
    SaysText(fields, 1, "protocolVersion", Ascii("atb-channel-v1"));
    SaysText(fields, 2, "cipherSuite", Ascii("ECDH-P256-HKDF-SHA256-AES-256-GCM-P256SIG"));
  }

  lemma SortedSaysWhat(fields: seq<Field>, f: Fields)
    requires fields == TranscriptFields(f) && WellKeyed(Record(fields))
    ensures SaysWhat(Normal(Record(fields)).fields, f)
  {
    SaysText(fields, 3, "sessionId", f.sessionId);
    SaysText(fields, 4, "context", Base64Url.ToBase64Url(f.context));
  }

  lemma SortedSaysWho(fields: seq<Field>, f: Fields)
    requires fields == TranscriptFields(f) && WellKeyed(Record(fields))
    ensures SaysWho(Normal(Record(fields)).fields, f)
  {
    SaysTheParty(fields, 5, "initiator", f.initiator);
    SaysTheParty(fields, 6, "responder", f.responder);
  }

  lemma SortedSaysWith(fields: seq<Field>, f: Fields)
    requires fields == TranscriptFields(f) && WellKeyed(Record(fields))
    ensures SaysWith(Normal(Record(fields)).fields, f)
  {
    SaysText(fields, 7, "initiatorEphemeralPublicKey", f.initiatorEphemeral);
    SaysText(fields, 8, "responderEphemeralPublicKey", f.responderEphemeral);
    SaysText(fields, 9, "initiatorNonce", f.initiatorNonce);
    SaysText(fields, 10, "responderNonce", f.responderNonce);
  }

  lemma ElevenProperties(fields: seq<Field>, f: Fields)
    requires fields == TranscriptFields(f) && WellKeyed(Record(fields))
    ensures |Normal(Record(fields)).fields| == 11
  {
    SortedKeeps(fields, 0);
  }

  /**
   * The transcript is the JSON text of one object of eleven properties: its type, the protocol version, the cipher
   * suite, and the session, context, parties, ephemeral keys and nonces of the exchange, each under its own name.
   */
  lemma TranscriptSays(f: Fields)
    ensures var read := ObjectOf(ChannelTranscript(f));
      && read.Some? && |read.value| == 11
      && SaysProtocol(read.value) && SaysWhat(read.value, f) && SaysWho(read.value, f) && SaysWith(read.value, f)
  {
    TranscriptSupported(f);
    TranscriptWellKeyed(f);
    RecordReads(TranscriptFields(f));
    var fields := TranscriptFields(f);
    SortedSaysProtocol(fields);
    SortedSaysWhat(fields, f);
    SortedSaysWho(fields, f);
    SortedSaysWith(fields, f);
    ElevenProperties(fields, f);
  }

  /** And what is signed is the text of one with three: its type, the signer's role, and the transcript in base64url. */
  lemma SignatureSays(signer: Channel.Role, transcript: seq<Byte>)
    ensures var read := ObjectOf(SignatureBody(signer, transcript));
      && read.Some? && |read.value| == 3
      && Says(read.value, "type", Ascii("atb-channel-signature-v1"))
      && Says(read.value, "signer", if signer.Initiator? then Ascii("initiator") else Ascii("responder"))
      && Says(read.value, "transcript", Base64Url.ToBase64Url(transcript))
  {
    var fields := SignatureFields(signer, transcript);
    SignatureWellKeyed(signer, transcript);
    RecordReads(fields);
    SortedKeeps(fields, 0);
    SaysText(fields, 0, "type", Ascii("atb-channel-signature-v1"));
    SaysText(fields, 1, "signer", if signer.Initiator? then Ascii("initiator") else Ascii("responder"));
    SaysText(fields, 2, "transcript", Base64Url.ToBase64Url(transcript));
  }
}
