/** The certificate as a reader of section 4.1 of RFC 5280 sees it: which value each field of it has. */
module CertificateFields {
  import opened Bytes
  import opened Results
  import opened Der

  datatype Fields = Fields(
    version: int, serial: int, algorithm: seq<nat>, issuer: seq<Byte>, notBefore: seq<Byte>, notAfter: seq<Byte>,
    subject: seq<Byte>, key: Node, signedPart: Node, signedWith: seq<nat>, signature: seq<Byte>)

  predicate Has(node: Node, tag: Byte, n: nat) { node.Parent? && node.tag == tag && |node.children| == n }

  function ContentOf(node: Node, tag: Byte): Option<seq<Byte>> {
    if node.Leaf? && node.tag == tag then Some(node.content) else None
  }

  function ReadNumber(node: Node): Option<int> {
    if ContentOf(node, 0x02).Some? then ReadInteger(ContentOf(node, 0x02).value) else None
  }

  /** Version ::= [0] EXPLICIT INTEGER */
  function ReadVersion(node: Node): Option<int> {
    if Has(node, 0xA0, 1) then ReadNumber(node.children[0]) else None
  }

  /** AlgorithmIdentifier ::= SEQUENCE { algorithm OBJECT IDENTIFIER, parameters NULL } */
  function ReadAlgorithm(node: Node): Option<seq<nat>> {
    if Has(node, 0x30, 2) && node.children[1] == Leaf(0x05, []) && ContentOf(node.children[0], 0x06).Some?
    then ReadOid(ContentOf(node.children[0], 0x06).value) else None
  }

  /** A name of one SET of one attribute, the common name 2.5.4.3 as a UTF8String. */
  function ReadCommonName(node: Node): Option<seq<Byte>> {
    if Has(node, 0x30, 1) && Has(node.children[0], 0x31, 1) && Has(node.children[0].children[0], 0x30, 2) then
      var attribute := node.children[0].children[0].children;
      if ContentOf(attribute[0], 0x06).Some? && ReadOid(ContentOf(attribute[0], 0x06).value) == Some([2, 5, 4, 3])
      then ContentOf(attribute[1], 0x0C) else None
    else None
  }

  /** Validity ::= SEQUENCE { notBefore GeneralizedTime, notAfter GeneralizedTime } */
  function ReadValidity(node: Node): Option<(seq<Byte>, seq<Byte>)> {
    if Has(node, 0x30, 2) && ContentOf(node.children[0], 0x18).Some? && ContentOf(node.children[1], 0x18).Some?
    then Some((node.children[0].content, node.children[1].content)) else None
  }

  /**
   * Certificate ::= SEQUENCE { tbsCertificate, signatureAlgorithm, signatureValue BIT STRING }, where tbsCertificate is
   * a SEQUENCE of version, serialNumber, signature, issuer, validity, subject and subjectPublicKeyInfo.
   */
  function ReadFields(node: Node): Option<Fields> {
    if Has(node, 0x30, 3) && Has(node.children[0], 0x30, 7) then
      var tbs := node.children[0].children;
      match (ReadVersion(tbs[0]), ReadNumber(tbs[1]), ReadAlgorithm(tbs[2]), ReadCommonName(tbs[3]))
      case (Some(version), Some(serial), Some(algorithm), Some(issuer)) =>
        (match (ReadValidity(tbs[4]), ReadCommonName(tbs[5]), ReadAlgorithm(node.children[1]),
           ContentOf(node.children[2], 0x03))
         case (Some(validity), Some(subject), Some(signedWith), Some(bits)) =>
           if bits != [] && bits[0] == 0 then
             Some(Fields(version, serial, algorithm, issuer, validity.0, validity.1, subject, tbs[6],
               node.children[0], signedWith, bits[1..]))
           else None
         case _ => None)
      case _ => None
    else None
  }

  function ReadCertificate(bytes: seq<Byte>): Option<Fields> {
    match Decode(bytes)
    case Some((node, rest)) => if rest == [] then ReadFields(node) else None
    case None => None
  }

  lemma NameReads(commonName: seq<Byte>)
    ensures ReadCommonName(NameNode(commonName)) == Some(commonName)
  {
    ConstantsReadable();
    var attribute := Parent(0x30, [OidNode(COMMON_NAME), Leaf(0x0C, commonName)]);
    assert NameNode(commonName).children[0].children[0] == attribute;
    assert OidNode(COMMON_NAME).content == OidContent(COMMON_NAME);
  }

  lemma AlgorithmReads()
    ensures ReadAlgorithm(AlgorithmNode()) == Some([1, 2, 840, 10045, 4, 3, 2])
  {
    ConstantsReadable();
    assert AlgorithmNode().children[0] == OidNode(ECDSA_WITH_SHA256);
  }

  lemma NumbersRead()
    ensures ReadVersion(Parent(0xA0, [Leaf(0x02, IntegerContent(2))])) == Some(2)
    ensures ReadNumber(Leaf(0x02, IntegerContent(1))) == Some(1)
  {
    ConstantsReadable();
  }

  lemma FieldsAt(version: Node, serial: Node, algorithm: Node, name: Node, validity: Node, signature: seq<Byte>,
      f: Fields)
    requires f.signedPart == Parent(0x30, [version, serial, algorithm, name, validity, name, f.key])
    requires ReadVersion(version) == Some(f.version) && ReadNumber(serial) == Some(f.serial)
    requires ReadAlgorithm(algorithm) == Some(f.algorithm) && f.signedWith == f.algorithm
    requires ReadCommonName(name) == Some(f.issuer) && f.subject == f.issuer
    requires ReadValidity(validity) == Some((f.notBefore, f.notAfter)) && f.signature == signature
    ensures ReadFields(Parent(0x30, [f.signedPart, algorithm, Leaf(0x03, [0] + signature)])) == Some(f)
  {
    assert ([0] + signature)[1..] == signature;
  }

  lemma ValidityReads(from: seq<Byte>, to: seq<Byte>)
    ensures ReadValidity(ValidityNode(from, to)) == Some((from, to))
  {
  }

  lemma NodeReads(commonName: seq<Byte>, from: seq<Byte>, to: seq<Byte>, key: Node, signature: seq<Byte>)
    ensures ReadFields(CertificateNode(TbsNode(commonName, from, to, key), signature)) ==
      Some(Written(commonName, from, to, key, signature))
  {
    NameReads(commonName);
    AlgorithmReads();
    NumbersRead();
    ValidityReads(from, to);
    FieldsAt(Parent(0xA0, [Leaf(0x02, IntegerContent(2))]), Leaf(0x02, IntegerContent(1)), AlgorithmNode(),
      NameNode(commonName), ValidityNode(from, to), signature, Written(commonName, from, to, key, signature));
  }

  /** Version 3, serial number 1, one name for both sides, ECDSA with SHA-256, and what went in. */
  function Written(commonName: seq<Byte>, from: seq<Byte>, to: seq<Byte>, key: Node, signature: seq<Byte>): Fields {
    var ecdsa := [1, 2, 840, 10045, 4, 3, 2];
    Fields(2, 1, ecdsa, commonName, from, to, commonName, key, TbsNode(commonName, from, to, key), ecdsa, signature)
  }

  /**
   * A certificate below 4 GiB reads as version 3 with serial number 1, the one common name as issuer and as subject,
   * the validity from the first date to the second, the key and signature that went in, and ECDSA with SHA-256 twice.
   */
  lemma CertificateReadsAs(commonName: seq<Byte>, from: seq<Byte>, to: seq<Byte>, key: Node, signature: seq<Byte>)
    requires TagsRight(key)
    requires |Encode(CertificateNode(TbsNode(commonName, from, to, key), signature))| < UINT32
    ensures ReadCertificate(Encode(CertificateNode(TbsNode(commonName, from, to, key), signature))) ==
      Some(Written(commonName, from, to, key, signature))
  {
    CertificateReadable(commonName, from, to, key, signature);
    NodeReads(commonName, from, to, key, signature);
  }
}
