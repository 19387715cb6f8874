/**
 * What else a static key signs. Channel signatures cover a JSON record of one type; whatever does not read as such a
 * record can be signed by the same key without ever passing for one.
 */
module SigningDomains {
  import opened Bytes
  import opened Results
  import opened Sorting
  import opened CanonicalJson
  import opened JsonReading
  import Utf8
  import Der

  function TypeKey(): Text { Ascii("type") }

  /** The `type` property of a record. */
  function TypeOf(v: Value): Option<Value> {
    if v.Record? && TypeKey() in Keys(v.fields) then Some(Lookup(v.fields, TypeKey())) else None
  }

  /** The bytes are the text of one JSON record whose type has this name. */
  predicate ReadsAs(body: seq<Byte>, name: Text) {
    var read := Read(Utf8.Decode(body));
    read.Some? && read.value.1 == [] && TypeOf(read.value.0) == Some(Str(name))
  }

  // ----- records, in whatever order their properties are printed

  /** The text of an object with its properties in the given order; a canonical printer sorts them. */
  function Listed(fields: seq<Field>, keys: seq<Text>): Text
    requires Supported(Record(fields)) && forall k :: k in keys ==> k in Keys(fields)
  {
    [0x7B] + PrintFields(fields, keys) + [0x7D]
  }

  ghost predicate Lists(keys: seq<Text>, fields: seq<Field>) {
    Distinct(keys) && forall k :: k in keys <==> k in Keys(fields)
  }

  /** Reading such a text back keeps what its properties are called and stand for. */
  lemma ListedType(fields: seq<Field>, keys: seq<Text>)
    requires WellKeyed(Record(fields)) && Lists(keys, fields)
    ensures var v := Record(fields);
      TypeOf(Record(NormalFields(fields, keys))) == if TypeOf(v).Some? then Some(Normal(TypeOf(v).value)) else None
  {
    var read := NormalFields(fields, keys);
    forall i | 0 <= i < |keys| ensures read[i].key == keys[i] {
      NormalFieldsAt(fields, keys, i);
    }
    assert Keys(read) == keys;
    if TypeKey() in keys {
      var p :| 0 <= p < |keys| && keys[p] == TypeKey();
      NormalFieldsAt(fields, keys, p);
      LookupAt(read, p);
    }
  }

  lemma ListedReads(fields: seq<Field>, keys: seq<Text>)
    requires Supported(Record(fields)) && forall k :: k in keys ==> k in Keys(fields)
    ensures Read(Listed(fields, keys)) == Some((Record(NormalFields(fields, keys)), []))
  {
    var tail := PrintFields(fields, keys) + [0x7D];
    assert Listed(fields, keys) == [0x7B] + tail;
    ReadBraced(tail);
    if keys == [] {
      assert tail == [0x7D] && tail[1..] == [];
    } else {
      ReadBackFields(fields, keys, []);
      assert tail + [] == tail;
      assert tail[0] == PrintField(fields, keys[0])[0] == 0x22;
    }
  }

  /** Such a text reads as a record of some type exactly when the record that was printed has it. */
  lemma ListedReadsAs(fields: seq<Field>, keys: seq<Text>, name: Text)
    requires WellKeyed(Record(fields)) && Supported(Record(fields)) && Lists(keys, fields)
    ensures ReadsAs(Utf8.Encode(Listed(fields, keys)), name) <==> TypeOf(Record(fields)) == Some(Str(name))
  {
    FieldsWellFormed(fields, keys);
    Bracket(0x7B, PrintFields(fields, keys), 0x7D);
    Utf8.DecodeEncode(Listed(fields, keys));
    ListedReads(fields, keys);
    ListedType(fields, keys);
  }

  /** So do canonical bytes. */
  lemma CanonicalReadsAs(fields: seq<Field>, name: Text)
    requires WellKeyed(Record(fields)) && Supported(Record(fields))
    ensures ReadsAs(Utf8.Encode(Print(Record(fields))), name) <==> TypeOf(Record(fields)) == Some(Str(name))
  {
    var keys := Sort(TextLess, Keys(fields));
    TextOrder();
    SortMembers(TextLess, Keys(fields));
    SortAscending(TextLess, Keys(fields));
    ListedReadsAs(fields, keys, name);
  }

  /** A record without a type, listed in any order, reads as a record of no type. */
  lemma UntypedApart(fields: seq<Field>, keys: seq<Text>, name: Text)
    requires WellKeyed(Record(fields)) && Supported(Record(fields)) && Lists(keys, fields) && TypeKey() !in keys
    ensures !ReadsAs(Utf8.Encode(Listed(fields, keys)), name)
  {
    ListedReadsAs(fields, keys, name);
  }

  // ----- text that is no record, or one of another type

  lemma ReadsNoRecord(text: Text)
    requires text != [] && text[0] != 0x7B && Read(text).Some?
    ensures !Read(text).value.0.Record?
  {
    if text[0] == 0x22 {
    } else if text[0] == 0x5B {
      assert Read(text) == ReadArray(text[1..]);
    } else if text[0] == 0x2D || IsDigit(text[0]) {
      assert Read(text) == ReadNumeral(text);
    } else {
      assert Read(text) == ReadWord(text);
    }
  }

  /** Text that does not begin with a brace reads as no record. */
  lemma FirstByteTells(body: seq<Byte>, name: Text)
    requires body != [] && body[0] < 0x80 && body[0] != 0x7B
    ensures !ReadsAs(body, name)
  {
    var text := Utf8.Decode(body);
    assert Utf8.DecodeOne(body) == ([body[0]], 1);
    assert text[0] == body[0];
    if Read(text).Some? {
      ReadsNoRecord(text);
    }
  }

  /** The text of an object whose first property is its type, as the pairing ceremony signs it. */
  function Typed(name: Text, rest: Text): Text {
    [0x7B] + (Quote(TypeKey()) + ([0x3A] + (Quote(name) + rest)))
  }

  lemma ReadsTypeFirst(name: Text, rest: Text)
    requires Read(Typed(name, rest)).Some?
    ensures TypeOf(Read(Typed(name, rest)).value.0) == Some(Str(name))
  {
    var tail := [0x3A] + (Quote(name) + rest);
    var body := Quote(TypeKey()) + tail;
    ReadBraced(body);
    ReadQuoted(TypeKey(), tail);
    assert tail[1..] == Quote(name) + rest;
    ReadQuoted(name, rest);
    assert body[0] == 0x22;
    assert ReadField(body) == Some((Field(TypeKey(), Str(name)), rest));
    var fields := Read(Typed(name, rest)).value.0.fields;
    assert fields[0] == Field(TypeKey(), Str(name)) && Keys(fields)[0] == TypeKey();
  }

  /** Objects of another type are apart too, in whatever order the other properties follow. */
  lemma OtherTypeApart(other: Text, rest: Text, name: Text)
    requires other != name && Utf8.WellFormed(rest)
    ensures !ReadsAs(Utf8.Encode(Typed(other, rest)), name)
  {
    TypedWellFormed(other, rest);
    Utf8.DecodeEncode(Typed(other, rest));
    if Read(Typed(other, rest)).Some? {
      ReadsTypeFirst(other, rest);
    }
  }

  lemma TypedWellFormed(name: Text, rest: Text)
    requires Utf8.WellFormed(rest)
    ensures Utf8.WellFormed(Typed(name, rest))
  {
    QuoteWellFormed(name);
    QuoteWellFormed(TypeKey());
    Utf8.WellFormedPlain([0x3A]);
    Utf8.WellFormedPlain([0x7B]);
    Utf8.WellFormedConcat(Quote(name), rest);
    Utf8.WellFormedConcat([0x3A], Quote(name) + rest);
    Utf8.WellFormedConcat(Quote(TypeKey()), [0x3A] + (Quote(name) + rest));
    Utf8.WellFormedConcat([0x7B], Quote(TypeKey()) + ([0x3A] + (Quote(name) + rest)));
  }

  // ----- everything else the static keys sign

  function ChannelSignatureType(): Text { Ascii("atb-channel-signature-v1") }

  datatype Ceremony = PairingHello | PairingResponse | PairingConfirmation

  function CeremonyType(c: Ceremony): Text {
    match c
    case PairingHello => Ascii("atb-pairing-hello-v1")
    case PairingResponse => Ascii("atb-pairing-response-v1")
    case PairingConfirmation => Ascii("atb-pairing-confirmation-v1")
  }

  /** A message of the repository that is signed with a static key and is no channel signature. */
  datatype Message =
    | AuthV2Transcript(fields: seq<Field>)
    | NativeHandshake(
        companionId: Text, companionNonce: Text, companionPublicKey: Text,
        extensionId: Text, extensionNonce: Text, extensionPublicKey: Text)
    | Enrollment(
        endpointId: Text, enrolledAt: nat, machineId: Text, principalId: Text, profileName: Text, publicKeySpki: Text)
    | Pairing(ceremony: Ceremony, rest: Text)
    | Certificate(signedPart: Der.Node)
    | ProfileProbe(profile: Text)

  /** The keys isAuthV2Transcript demands, no more and no fewer. */
  function AuthV2Keys(): seq<Text> {
    [Ascii("protocolVersion"), Ascii("cipherSuite"), Ascii("controller"), Ascii("edge"), Ascii("endpointId"),
     Ascii("controllerEphemeralPublicKey"), Ascii("edgeEphemeralPublicKey"),
     Ascii("controllerNonce"), Ascii("edgeNonce"), Ascii("authority"), Ascii("expiresAt"),
     Ascii("hubId"), Ascii("routeId"), Ascii("streamId")]
  }

  const NATIVE_PROTOCOL_VERSION := 2

  function HandshakeFields(m: Message): seq<Field>
    requires m.NativeHandshake?
  {
    [Field(Ascii("companionId"), Str(m.companionId)), Field(Ascii("companionNonce"), Str(m.companionNonce)),
     Field(Ascii("companionPublicKey"), Str(m.companionPublicKey)), Field(Ascii("extensionId"), Str(m.extensionId)),
     Field(Ascii("extensionNonce"), Str(m.extensionNonce)),
     Field(Ascii("extensionPublicKey"), Str(m.extensionPublicKey)),
     Field(Ascii("protocolVersion"), Number(NATIVE_PROTOCOL_VERSION)),
     Field(Ascii("roles"), Array([Str(Ascii("extension")), Str(Ascii("companion"))]))]
  }

  function EnrollmentFields(m: Message): seq<Field>
    requires m.Enrollment?
  {
    [Field(Ascii("endpointId"), Str(m.endpointId)), Field(Ascii("enrolledAt"), Number(m.enrolledAt)),
     Field(Ascii("machineId"), Str(m.machineId)), Field(Ascii("principalId"), Str(m.principalId)),
     Field(Ascii("profileName"), Str(m.profileName)), Field(Ascii("publicKeySpki"), Str(m.publicKeySpki))]
  }

  /** What the signing code checks, or what the printer gives, of each message. */
  ghost predicate Shaped(m: Message) {
    match m
    case AuthV2Transcript(fields) =>
      && WellKeyed(Record(fields)) && Supported(Record(fields))
      && |fields| == |AuthV2Keys()| && forall k :: k in Keys(fields) ==> k in AuthV2Keys()
    case Enrollment(_, enrolledAt, _, _, _, _) => 0 < enrolledAt <= MAX_SAFE_INTEGER
    case Pairing(_, rest) => Utf8.WellFormed(rest)
    case Certificate(signedPart) => signedPart.tag == 0x30
    case _ => true
  }

  /** The bytes that are signed. */
  function BytesOf(m: Message): seq<Byte>
    requires Shaped(m)
  {
    match m
    case AuthV2Transcript(fields) => Utf8.Encode(Print(Record(fields)))
    case NativeHandshake(_, _, _, _, _, _) => Utf8.Encode(Listed(HandshakeFields(m), Keys(HandshakeFields(m))))
    case Enrollment(_, _, _, _, _, _) => Utf8.Encode(Listed(EnrollmentFields(m), Keys(EnrollmentFields(m))))
    case Pairing(ceremony, rest) => Utf8.Encode(Typed(CeremonyType(ceremony), rest))
    case Certificate(signedPart) => Der.Encode(signedPart)
    case ProfileProbe(profile) => Utf8.Encode(Ascii("atb-profile-probe") + [0] + profile)
  }

  lemma AuthV2Untyped()
    ensures TypeKey() !in AuthV2Keys()
  {
    var keys := AuthV2Keys();
    assert TypeKey()[0] == 0x74 && keys[3][0] == 0x65;
    forall i | 0 <= i < |keys| ensures keys[i] != TypeKey() {
      assert i != 3 ==> |keys[i]| > 4;
    }
  }

  /** Keys of one length are told apart by one unit. */
  lemma HandshakeKeyed(m: Message)
    requires m.NativeHandshake?
    ensures var fields := HandshakeFields(m);
      && WellKeyed(Record(fields)) && Supported(Record(fields))
      && Lists(Keys(fields), fields) && TypeKey() !in Keys(fields)
  {
    var fields := HandshakeFields(m);
    var keys := Keys(fields);
    assert |keys[0]| == 11 && |keys[1]| == 14 && |keys[2]| == 18 && |keys[3]| == 11;
    assert |keys[4]| == 14 && |keys[5]| == 18 && |keys[6]| == 15 && |keys[7]| == 5;
    assert keys[0][0] == 0x63 && keys[1][0] == 0x63 && keys[2][0] == 0x63;
    assert keys[3][0] == 0x65 && keys[4][0] == 0x65 && keys[5][0] == 0x65;
    assert |TypeKey()| == 4;
    forall i | 0 <= i < |fields| ensures WellKeyed(fields[i].value) && Supported(fields[i].value) {}
  }

  lemma EnrollmentKeyed(m: Message)
    requires m.Enrollment? && Shaped(m)
    ensures var fields := EnrollmentFields(m);
      && WellKeyed(Record(fields)) && Supported(Record(fields))
      && Lists(Keys(fields), fields) && TypeKey() !in Keys(fields)
  {
    var fields := EnrollmentFields(m);
    var keys := Keys(fields);
    assert |keys[0]| == 10 && |keys[1]| == 10 && |keys[2]| == 9 && |keys[3]| == 11 && |keys[4]| == 11
      && |keys[5]| == 13;
    assert keys[0][2] == 0x64 && keys[1][2] == 0x72 && keys[3][2] == 0x69 && keys[4][2] == 0x6F;
    assert |TypeKey()| == 4;
    forall i | 0 <= i < |fields| ensures WellKeyed(fields[i].value) && Supported(fields[i].value) {}
  }

  lemma CeremonyApart(c: Ceremony)
    ensures CeremonyType(c) != ChannelSignatureType()
  {
    assert CeremonyType(c)[4] == 0x70 && ChannelSignatureType()[4] == 0x63;
  }

  /** Nothing the repository signs with a static key besides channel signatures reads as a channel signature. */
  lemma OtherMessagesApart(m: Message)
    requires Shaped(m)
    ensures !ReadsAs(BytesOf(m), ChannelSignatureType())
  {
    var name := ChannelSignatureType();
    match m {
      case AuthV2Transcript(fields) =>
        AuthV2Untyped();
        CanonicalReadsAs(fields, name);
      case NativeHandshake(_, _, _, _, _, _) =>
        HandshakeKeyed(m);
        UntypedApart(HandshakeFields(m), Keys(HandshakeFields(m)), name);
      case Enrollment(_, _, _, _, _, _) =>
        EnrollmentKeyed(m);
        UntypedApart(EnrollmentFields(m), Keys(EnrollmentFields(m)), name);
      case Pairing(ceremony, rest) =>
        CeremonyApart(ceremony);
        OtherTypeApart(CeremonyType(ceremony), rest, name);
      case Certificate(signedPart) => FirstByteTells(Der.Encode(signedPart), name);
      case ProfileProbe(profile) =>
        var text := Ascii("atb-profile-probe") + [0] + profile;
        assert text[0] == 0x61;
        assert Utf8.Encode(text)[0] == 0x61;
        FirstByteTells(Utf8.Encode(text), name);
    }
  }
}
