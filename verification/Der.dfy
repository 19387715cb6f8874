/**
 * The hub certificate's DER writer, and a strict reader for it: definite minimal lengths, minimal integers and
 * object identifiers (sections 8.1.3, 8.3, 8.19 and 10.1 of ITU-T X.690).
 */
module Der {
  import opened Bytes
  import opened Results

  const UINT32 := 0x1_0000_0000

  // ----- lengths

  /** Big-endian base 256 without leading zeros; zero has no bytes. */
  function Base256(n: nat): (r: seq<Byte>)
    ensures n > 0 ==> r != [] && r[0] != 0
  {
    if n == 0 then [] else Base256(n / 256) + [n % 256]
  }

  /** What is left of a number after JavaScript's 32-bit operators; a multiple of 2^32 leaves one zero byte. */
  function LowBytes(n: nat): seq<Byte> { Digits(n % UINT32) }

  function Digits(n: nat): seq<Byte> { if n == 0 then [0] else Base256(n) }

  function LengthBytes(n: nat): seq<Byte> {
    LowBytesShort(n);
    if n < 0x80 then [n] else [0x80 + |LowBytes(n)|] + LowBytes(n)
  }

  lemma {:induction false} Base256Size(n: nat, k: nat)
    requires n < Pow256(k)
    ensures |Base256(n)| <= k
  {
    if n > 0 {
      Base256Size(n / 256, k - 1);
    }
  }

  lemma LowBytesShort(n: nat)
    ensures 0 < |LowBytes(n)| <= 4
  {
    FourBytes();
    Base256Size(n % UINT32, 4);
  }

  lemma {:induction false} Base256Reads(n: nat)
    ensures FromBigEndian(Base256(n)) == n
  {
    if n > 0 {
      Base256Reads(n / 256);
      assert Base256(n)[..|Base256(n)| - 1] == Base256(n / 256);
    }
  }

  /** `value & 0xff` and `value >>>= 8` until nothing is left. */
  method DerLength(length: nat) returns (encoded: seq<Byte>)
    ensures encoded == LengthBytes(length)
  {
    if length < 0x80 {
      return [length];
    }
    var bytes: seq<Byte> := [];
    var value: nat := length;
    while value > 0
      invariant value == length ==> bytes == []
      invariant value != length ==> value < UINT32 && Base256(value) + bytes == LowBytes(length)
    {
      LengthTurn(length, value, bytes);
      bytes := [value % 256] + bytes;
      value := value % UINT32 / 256;
    }
    assert [] + bytes == bytes;
    LowBytesShort(length);
    return [0x80 + |bytes|] + bytes;
  }

  lemma LengthTurn(length: nat, value: nat, bytes: seq<Byte>)
    requires value > 0 && (value == length ==> bytes == [])
    requires value != length ==> value < UINT32 && Base256(value) + bytes == LowBytes(length)
    ensures Base256(value % UINT32 / 256) + ([value % 256] + bytes) == LowBytes(length)
  {
    LowStep(value, bytes);
    if value == length {
      assert LowBytes(value) + bytes == LowBytes(value);
    } else {
      LowOfSmall(value);
    }
  }

  /** One turn of the loop: the low byte moves to the front of what has been written. */
  lemma LowStep(value: nat, bytes: seq<Byte>)
    requires value > 0
    ensures Base256(value % UINT32 / 256) + ([value % 256] + bytes) == LowBytes(value) + bytes
  {
    LastByte(value);
    MoveDigit(value % UINT32, value % 256, bytes);
  }

  lemma MoveDigit(low: nat, last: Byte, bytes: seq<Byte>)
    requires last == low % 256
    ensures Base256(low / 256) + ([last] + bytes) == Digits(low) + bytes
  {
    LastDigit(low);
    Assoc(Base256(low / 256), [last], bytes);
  }

  lemma LowOfSmall(value: nat)
    requires 0 < value < UINT32
    ensures LowBytes(value) == Base256(value)
  {
    assert value % UINT32 == value;
  }

  lemma LastByte(value: nat)
    ensures value % UINT32 % 256 == value % 256
  {
    var q, low := value / UINT32, value % UINT32;
    assert value == 256 * (0x100_0000 * q) + low;
  }

  lemma LastDigit(low: nat)
    ensures Base256(low / 256) + [low % 256] == Digits(low)
  {
    if low == 0 {
      assert Base256(0) + [0] == [0];
    }
  }

  /** A definite length in the fewest bytes, and what follows it. */
  function ReadLength(s: seq<Byte>): (r: Option<(nat, seq<Byte>)>)
    ensures r.Some? ==> |r.value.1| < |s|
  {
    if s == [] then None
    else if s[0] < 0x80 then Some((s[0], s[1..]))
    else
      var k := s[0] - 0x80;
      if k == 0 || k > 4 || |s| < 1 + k || s[1] == 0 then None
      else
        var n := FromBigEndian(s[1..1 + k]);
        if n < 0x80 then None else Some((n, s[1 + k..]))
  }

  lemma ReadShortForm(n: nat, rest: seq<Byte>)
    requires n < 0x80
    ensures ReadLength([n] + rest) == Some((n, rest))
  {
    assert ([n] + rest)[1..] == rest;
  }

  /** What the strict reader makes of a long form. */
  lemma ReadLongForm(b: seq<Byte>, rest: seq<Byte>)
    requires 0 < |b| <= 4
    ensures ReadLength([0x80 + |b|] + b + rest) ==
      if b[0] == 0 || FromBigEndian(b) < 0x80 then None else Some((FromBigEndian(b), rest))
  {
    var s := [0x80 + |b|] + b + rest;
    assert s[1..1 + |b|] == b && s[1 + |b|..] == rest;
  }

  lemma LowBytesRead(n: nat)
    requires n > 0
    ensures FromBigEndian(LowBytes(n)) == n % UINT32
    ensures n < UINT32 ==> LowBytes(n)[0] != 0
  {
    Base256Reads(n % UINT32);
    assert FromBigEndian([0]) == 0;
    if n < UINT32 {
      LowOfSmall(n);
    }
  }

  lemma Remainder(n: nat)
    ensures n % UINT32 == n <==> n < UINT32
  {
  }

  /** A written length reads back exactly when it is below 2^32. */
  lemma LengthRoundTrip(n: nat, rest: seq<Byte>)
    ensures ReadLength(LengthBytes(n) + rest) == Some((n, rest)) <==> n < UINT32
  {
    if n < 0x80 {
      ReadShortForm(n, rest);
    } else {
      LowBytesShort(n);
      LowBytesRead(n);
      ReadLongForm(LowBytes(n), rest);
      Remainder(n);
    }
  }

  lemma {:induction false} Base256Unique(s: seq<Byte>)
    requires s == [] || s[0] != 0
    ensures Base256(FromBigEndian(s)) == s && (s != [] ==> FromBigEndian(s) > 0)
  {
    if s != [] {
      var front := s[..|s| - 1];
      Base256Unique(front);
      assert s == front + [s[|s| - 1]];
    }
  }

  lemma {:induction false} BigEndianBound(s: seq<Byte>)
    ensures FromBigEndian(s) < Pow256(|s|)
  {
    FromBigEndianRoundTrip(s);
  }

  lemma {:induction false} Pow256Grows(a: nat, b: nat)
    requires a <= b
    ensures Pow256(a) <= Pow256(b)
  {
    if a < b {
      Pow256Grows(a, b - 1);
    }
  }

  /** The reader accepts only what the writer writes. */
  lemma LengthCanonical(s: seq<Byte>)
    requires ReadLength(s).Some?
    ensures var (n, rest) := ReadLength(s).value; n < UINT32 && s == LengthBytes(n) + rest
  {
    var (n, rest) := ReadLength(s).value;
    if s[0] < 0x80 {
      assert s == [s[0]] + s[1..];
    } else {
      var k := s[0] - 0x80;
      var b := s[1..1 + k];
      Base256Unique(b);
      BigEndianBound(b);
      Pow256Grows(k, 4);
      FourBytes();
      assert s[1..] == b + s[1 + k..];
      Assoc([s[0]], b, s[1 + k..]);
      assert s == [s[0]] + s[1..];
    }
  }

  // ----- trees of tagged values

  datatype Node = Leaf(tag: Byte, content: seq<Byte>) | Parent(tag: Byte, children: seq<Node>)

  /** Bit 6 of an identifier octet. */
  predicate IsConstructed(tag: Byte) { tag / 0x20 % 2 == 1 }

  function Tlv(tag: Byte, value: seq<Byte>): seq<Byte> { [tag] + LengthBytes(|value|) + value }

  function Encode(node: Node): seq<Byte>
    decreases node, 0
  {
    match node
    case Leaf(tag, content) => Tlv(tag, content)
    case Parent(tag, children) => Tlv(tag, EncodeAll(children))
  }

  function EncodeAll(nodes: seq<Node>): seq<Byte>
    decreases nodes, 0
  {
    if nodes == [] then [] else Encode(nodes[0]) + EncodeAll(nodes[1..])
  }

  /** Tags say which nodes have children, and every length fits four bytes. */
  predicate Encodable(node: Node) {
    match node
    case Leaf(tag, content) => !IsConstructed(tag) && |content| < UINT32
    case Parent(tag, children) =>
      IsConstructed(tag) && |EncodeAll(children)| < UINT32 && forall i :: 0 <= i < |children| ==> Encodable(children[i])
  }

  function Decode(s: seq<Byte>): (r: Option<(Node, seq<Byte>)>)
    ensures r.Some? ==> |r.value.1| < |s|
    decreases |s|, 0
  {
    if s == [] then None else
    match ReadLength(s[1..])
    case None => None
    case Some((n, rest)) =>
      if |rest| < n then None
      else if !IsConstructed(s[0]) then Some((Leaf(s[0], rest[..n]), rest[n..]))
      else
        match DecodeAll(rest[..n])
        case None => None
        case Some(children) => Some((Parent(s[0], children), rest[n..]))
  }

  function DecodeAll(s: seq<Byte>): Option<seq<Node>>
    decreases |s|, 1
  {
    if s == [] then Some([]) else
    match Decode(s)
    case None => None
    case Some((node, rest)) =>
      match DecodeAll(rest)
      case None => None
      case Some(nodes) => Some([node] + nodes)
  }

  lemma TlvShape(tag: Byte, length: seq<Byte>, value: seq<Byte>, rest: seq<Byte>)
    ensures [tag] + length + value + rest == [tag] + (length + (value + rest))
  {
    Assoc([tag] + length, value, rest);
    Assoc([tag], length, value + rest);
  }

  lemma ReadTlv(tag: Byte, value: seq<Byte>, rest: seq<Byte>)
    requires |value| < UINT32
    ensures var s := Tlv(tag, value) + rest;
      s != [] && s[0] == tag && ReadLength(s[1..]) == Some((|value|, value + rest))
  {
    var s := Tlv(tag, value) + rest;
    var tail := LengthBytes(|value|) + (value + rest);
    LengthRoundTrip(|value|, value + rest);
    TlvShape(tag, LengthBytes(|value|), value, rest);
    assert s == [tag] + tail;
    assert ([tag] + tail)[1..] == tail;
  }

  /** The reader recovers every tree from its bytes, whatever follows them. */
  lemma {:induction false} DerRoundTrip(node: Node, rest: seq<Byte>)
    requires Encodable(node)
    ensures Decode(Encode(node) + rest) == Some((node, rest))
    decreases node, 0
  {
    match node {
      case Leaf(tag, content) =>
        ReadTlv(tag, content, rest);
        assert (content + rest)[..|content|] == content && (content + rest)[|content|..] == rest;
      case Parent(tag, children) =>
        var value := EncodeAll(children);
        ReadTlv(tag, value, rest);
        assert (value + rest)[..|value|] == value && (value + rest)[|value|..] == rest;
        DerRoundTripAll(children);
    }
  }

  lemma {:induction false} DerRoundTripAll(nodes: seq<Node>)
    requires forall i :: 0 <= i < |nodes| ==> Encodable(nodes[i])
    ensures DecodeAll(EncodeAll(nodes)) == Some(nodes)
    decreases nodes, 0
  {
    if nodes != [] {
      DerRoundTrip(nodes[0], EncodeAll(nodes[1..]));
      DerRoundTripAll(nodes[1..]);
      assert nodes == [nodes[0]] + nodes[1..];
    }
  }

  /** Every byte string that reads as a tree is the one encoding of that tree. */
  lemma {:induction false} DerCanonical(s: seq<Byte>)
    requires Decode(s).Some?
    ensures var (node, rest) := Decode(s).value; Encodable(node) && s == Encode(node) + rest
    decreases |s|, 0
  {
    LengthCanonical(s[1..]);
    var (n, after) := ReadLength(s[1..]).value;
    TlvSplits(s, n, after);
    if IsConstructed(s[0]) {
      DerCanonicalAll(after[..n]);
    }
  }

  lemma TlvSplits(s: seq<Byte>, n: nat, after: seq<Byte>)
    requires s != [] && s[1..] == LengthBytes(n) + after && n <= |after|
    ensures s == Tlv(s[0], after[..n]) + after[n..]
  {
    assert after == after[..n] + after[n..];
    TlvShape(s[0], LengthBytes(n), after[..n], after[n..]);
    assert s == [s[0]] + s[1..];
  }

  lemma {:induction false} DerCanonicalAll(s: seq<Byte>)
    requires DecodeAll(s).Some?
    ensures var nodes := DecodeAll(s).value;
      EncodeAll(nodes) == s && forall i :: 0 <= i < |nodes| ==> Encodable(nodes[i])
    decreases |s|, 1
  {
    if s != [] {
      var (node, rest) := Decode(s).value;
      DerCanonical(s);
      DerCanonicalAll(rest);
      assert DecodeAll(s).value[1..] == DecodeAll(rest).value;
    }
  }

  /** The writer of one value, and its two constructed forms. */
  method WriteDer(tag: Byte, value: seq<Byte>) returns (encoded: seq<Byte>)
    ensures encoded == Tlv(tag, value)
  {
    var length := DerLength(|value|);
    encoded := [tag] + length + value;
  }

  function Concat(values: seq<seq<Byte>>): seq<Byte> {
    if values == [] then [] else values[0] + Concat(values[1..])
  }

  method Sequence(values: seq<seq<Byte>>) returns (encoded: seq<Byte>)
    ensures encoded == Tlv(0x30, Concat(values))
  {
    encoded := WriteDer(0x30, Concat(values));
  }

  method Set(values: seq<seq<Byte>>) returns (encoded: seq<Byte>)
    ensures encoded == Tlv(0x31, Concat(values))
  {
    encoded := WriteDer(0x31, Concat(values));
  }

  function Encodings(nodes: seq<Node>): seq<seq<Byte>> {
    seq(|nodes|, i requires 0 <= i < |nodes| => Encode(nodes[i]))
  }

  /** Concatenating encoded values is encoding the list of them. */
  lemma {:induction false} ConcatEncodings(nodes: seq<Node>)
    ensures Concat(Encodings(nodes)) == EncodeAll(nodes)
  {
    if nodes != [] {
      ConcatEncodings(nodes[1..]);
      assert Encodings(nodes)[1..] == Encodings(nodes[1..]);
    }
  }

  // ----- integers

  function IntegerDigits(n: int): seq<Byte> {
    if n / 256 > 0 then IntegerDigits(n / 256) + [n % 256] else [n % 256]
  }

  function IntegerContent(n: int): seq<Byte> {
    var digits := IntegerDigits(n);
    if digits != [] && digits[0] >= 0x80 then [0] + digits else digits
  }

  method Integer(value: int) returns (encoded: seq<Byte>)
    ensures encoded == Encode(Leaf(0x02, IntegerContent(value)))
  {
    var bytes: seq<Byte> := [value % 256];
    var current := value / 256;
    assert [] + bytes == bytes;
    while current > 0
      invariant (if current > 0 then IntegerDigits(current) else []) + bytes == IntegerDigits(value)
      decreases current
    {
      Assoc(if current / 256 > 0 then IntegerDigits(current / 256) else [], [current % 256], bytes);
      assert IntegerDigits(current) ==
        (if current / 256 > 0 then IntegerDigits(current / 256) else []) + [current % 256];
      bytes := [current % 256] + bytes;
      current := current / 256;
    }
    assert [] + bytes == bytes;
    if bytes[0] >= 0x80 {
      bytes := [0] + bytes;
    }
    encoded := WriteDer(0x02, bytes);
  }

  /** Two's complement in the fewest bytes. */
  function ReadInteger(content: seq<Byte>): Option<int> {
    if content == [] then None
    else if |content| > 1 && content[0] == 0 && content[1] < 0x80 then None
    else if |content| > 1 && content[0] == 0xFF && content[1] >= 0x80 then None
    else if content[0] < 0x80 then Some(FromBigEndian(content))
    else Some(FromBigEndian(content) - Pow256(|content|))
  }

  lemma {:induction false} DigitsRead(n: nat)
    ensures var d := IntegerDigits(n);
      d != [] && FromBigEndian(d) == n && (|d| > 1 ==> d[0] != 0)
  {
    if n / 256 > 0 {
      DigitsRead(n / 256);
      assert IntegerDigits(n)[..|IntegerDigits(n)| - 1] == IntegerDigits(n / 256);
    } else {
      assert FromBigEndian([n]) == 256 * FromBigEndian([]) + n by {
        assert [n][..0] == [];
      }
    }
  }

  lemma {:induction false} LeadingZero(s: seq<Byte>)
    ensures FromBigEndian([0] + s) == FromBigEndian(s)
  {
    if s == [] {
      assert ([0] + s)[..0] == [];
    } else {
      LeadingZero(s[..|s| - 1]);
      assert ([0] + s)[..|s|] == [0] + s[..|s| - 1];
    }
  }

  /** The writer's integer reads back exactly when it is not negative. */
  lemma IntegerRoundTrip(n: int)
    ensures ReadInteger(IntegerContent(n)) == Some(n) <==> n >= 0
  {
    if n >= 0 {
      DigitsRead(n);
      LeadingZero(IntegerDigits(n));
    } else {
      var d := IntegerDigits(n);
      assert d == [n % 256];
      DigitsRead(n % 256);
      LeadingZero(d);
      assert IntegerDigits(n % 256) == d;
    }
  }

  // ----- object identifiers

  function Base128(n: nat, last: bool): (r: seq<Byte>)
    ensures n > 0 ==> r != []
    ensures last ==> r != []
    ensures forall i :: 0 <= i < |r| ==> (r[i] >= 0x80 <==> (i < |r| - 1 || !last))
  {
    if n == 0 && !last then []
    else
      var rest := if n / 128 == 0 then [] else Base128(n / 128, false);
      rest + [n % 128 + if last then 0 else 0x80]
  }

  /** `component & 0x7f`, then what `>>> 7` leaves of it. */
  function Component(n: nat): seq<Byte> { Base128(n % UINT32, true) }

  method EncodeComponent(component: nat) returns (parts: seq<Byte>)
    ensures parts == Component(component)
  {
    parts := [component % 128];
    var current: nat := component % UINT32 / 128;
    assert [] + parts == parts;
    while current > 0
      invariant (if current == 0 then [] else Base128(current, false)) + parts == Component(component)
    {
      Assoc(if current / 128 == 0 then [] else Base128(current / 128, false), [current % 128 + 0x80], parts);
      parts := [current % 128 + 0x80] + parts;
      current := current / 128;
    }
    assert [] + parts == parts;
  }

  function Components(items: seq<nat>): seq<Byte> {
    if items == [] then [] else Component(items[0]) + Components(items[1..])
  }

  /** The first two arcs in one number; with an arc missing it is not a number, which the bit operators read as 0. */
  function Head(value: seq<nat>): nat { if |value| >= 2 then value[0] * 40 + value[1] else 0 }

  function Tail(value: seq<nat>): seq<nat> { if |value| >= 2 then value[2..] else [] }

  function OidContent(value: seq<nat>): seq<Byte> { Component(Head(value)) + Components(Tail(value)) }

  method Oid(value: seq<nat>) returns (encoded: seq<Byte>)
    ensures encoded == Encode(Leaf(0x06, OidContent(value)))
  {
    var output := EncodeComponent(Head(value));
    var i := 2;
    while i < |value|
      invariant 2 <= i && (|value| >= 2 ==> i <= |value|)
      invariant output + Components(if i <= |value| then value[i..] else []) == OidContent(value)
    {
      var part := EncodeComponent(value[i]);
      Assoc(output, part, Components(value[i + 1..]));
      assert value[i..][1..] == value[i + 1..];
      output := output + part;
      i := i + 1;
    }
    assert output + [] == output;
    encoded := WriteDer(0x06, output);
  }

  /** One component, most significant seven bits first and without leading zeros, and what follows it. */
  function ReadComponent(s: seq<Byte>, sofar: nat): (r: Option<(nat, seq<Byte>)>)
    ensures r.Some? ==> |r.value.1| < |s|
  {
    if s == [] || (sofar == 0 && s[0] == 0x80) then None
    else if s[0] < 0x80 then Some((sofar * 128 + s[0], s[1..]))
    else ReadComponent(s[1..], sofar * 128 + (s[0] - 0x80))
  }

  function ReadComponents(s: seq<Byte>): Option<seq<nat>>
    decreases |s|
  {
    if s == [] then Some([]) else
    match ReadComponent(s, 0)
    case None => None
    case Some((n, rest)) =>
      match ReadComponents(rest)
      case None => None
      case Some(more) => Some([n] + more)
  }

  function ReadOid(content: seq<Byte>): Option<seq<nat>> {
    match ReadComponents(content)
    case None => None
    case Some(items) =>
      if items == [] then None
      else
        var first := if items[0] < 80 then items[0] / 40 else 2;
        Some([first, items[0] - first * 40] + items[1..])
  }

  /** One digit with the continuation bit. */
  lemma HighDigit(d: nat, sofar: nat, rest: seq<Byte>)
    requires d < 128 && rest != [] && (sofar > 0 || d > 0)
    ensures ReadComponent([d + 0x80] + rest, sofar) == ReadComponent(rest, sofar * 128 + d)
  {
    assert ([d + 0x80] + rest)[1..] == rest;
  }

  lemma {:induction false} HighDigitsRead(n: nat, rest: seq<Byte>)
    requires n > 0 && rest != []
    ensures ReadComponent(Base128(n, false) + rest, 0) == ReadComponent(rest, n)
  {
    var d := n % 128;
    HighDigit(d, n / 128, rest);
    if n / 128 == 0 {
      assert Base128(n, false) == [d + 0x80];
    } else {
      HighDigitsRead(n / 128, [d + 0x80] + rest);
      assert Base128(n, false) == Base128(n / 128, false) + [d + 0x80];
      Assoc(Base128(n / 128, false), [d + 0x80], rest);
    }
  }

  lemma ComponentRoundTrip(n: nat, rest: seq<Byte>)
    ensures ReadComponent(Component(n) + rest, 0) == Some((n % UINT32, rest))
  {
    var m := n % UINT32;
    var tail := [m % 128] + rest;
    assert tail[1..] == rest;
    if m / 128 == 0 {
      assert Component(n) + rest == tail;
    } else {
      HighDigitsRead(m / 128, tail);
      Assoc(Base128(m / 128, false), [m % 128], rest);
    }
  }

  function Low(items: seq<nat>): seq<nat> { seq(|items|, i requires 0 <= i < |items| => items[i] % UINT32) }

  lemma {:induction false} ComponentsRoundTrip(items: seq<nat>)
    ensures ReadComponents(Components(items)) == Some(Low(items))
  {
    if items == [] {
      assert Low(items) == [];
    } else {
      ComponentRoundTrip(items[0], Components(items[1..]));
      ComponentsRoundTrip(items[1..]);
      assert Low(items) == [items[0] % UINT32] + Low(items[1..]);
    }
  }

  /** The arcs section 8.19 of X.690 can express, as far as 32-bit operators reach. */
  predicate ExpressibleArcs(value: seq<nat>) {
    && |value| >= 2 && value[0] <= 2 && (value[0] < 2 ==> value[1] < 40)
    && value[0] * 40 + value[1] < UINT32
    && forall i :: 2 <= i < |value| ==> value[i] < UINT32
  }

  /** What a reader makes of the first component: at most two, and the rest of it. */
  function Arcs(head: nat, more: seq<nat>): seq<nat> {
    var first := if head < 80 then head / 40 else 2;
    [first, head - first * 40] + more
  }

  lemma OidReads(value: seq<nat>)
    ensures ReadOid(OidContent(value)) == Some(Arcs(Head(value) % UINT32, Low(Tail(value))))
  {
    var head, tail := Head(value), Tail(value);
    ComponentRoundTrip(head, Components(tail));
    ComponentsRoundTrip(tail);
    var items := [head % UINT32] + Low(tail);
    assert ReadComponents(OidContent(value)) == Some(items);
    assert items[1..] == Low(tail);
  }

  lemma ArcsEqual(a: nat, b: nat, tail: seq<nat>)
    ensures Arcs((a * 40 + b) % UINT32, Low(tail)) == [a, b] + tail <==>
      a <= 2 && (a < 2 ==> b < 40) && a * 40 + b < UINT32 && forall i :: 0 <= i < |tail| ==> tail[i] < UINT32
  {
    var read := Arcs((a * 40 + b) % UINT32, Low(tail));
    assert read[2..] == Low(tail) && ([a, b] + tail)[2..] == tail;
    assert Low(tail) == tail <==> forall i :: 0 <= i < |tail| ==> tail[i] < UINT32;
    assert read == [read[0], read[1]] + Low(tail);
  }

  /** A written object identifier reads back exactly when its arcs, two at least, are expressible and below 2^32. */
  lemma OidRoundTrip(value: seq<nat>)
    ensures ReadOid(OidContent(value)) == Some(value) <==> ExpressibleArcs(value)
  {
    OidReads(value);
    if |value| >= 2 {
      OidRoundTripLong(value);
    }
  }

  lemma OidRoundTripLong(value: seq<nat>)
    requires |value| >= 2 && ReadOid(OidContent(value)) == Some(Arcs(Head(value) % UINT32, Low(Tail(value))))
    ensures ReadOid(OidContent(value)) == Some(value) <==> ExpressibleArcs(value)
  {
    var tail := value[2..];
    ArcsEqual(value[0], value[1], tail);
    assert value == [value[0], value[1]] + tail;
    assert (forall i :: 0 <= i < |tail| ==> tail[i] < UINT32) <==>
      (forall i :: 2 <= i < |value| ==> value[i] < UINT32) by {
      if forall i :: 0 <= i < |tail| ==> tail[i] < UINT32 {
        forall i | 2 <= i < |value| ensures value[i] < UINT32 {
          assert value[i] == tail[i - 2];
        }
      }
    }
  }

  // ----- the certificate

  const COMMON_NAME: seq<nat> := [2, 5, 4, 3]
  const ECDSA_WITH_SHA256: seq<nat> := [1, 2, 840, 10045, 4, 3, 2]

  function OidNode(value: seq<nat>): Node { Leaf(0x06, OidContent(value)) }

  function NameNode(commonName: seq<Byte>): Node {
    Parent(0x30, [Parent(0x31, [Parent(0x30, [OidNode(COMMON_NAME), Leaf(0x0C, commonName)])])])
  }

  function AlgorithmNode(): Node { Parent(0x30, [OidNode(ECDSA_WITH_SHA256), Leaf(0x05, [])]) }

  function ValidityNode(from: seq<Byte>, to: seq<Byte>): Node { Parent(0x30, [Leaf(0x18, from), Leaf(0x18, to)]) }

  /** The part that is signed: version 3, serial 1, and the same name as issuer and subject. */
  function TbsNode(commonName: seq<Byte>, from: seq<Byte>, to: seq<Byte>, key: Node): Node {
    Parent(0x30, [Parent(0xA0, [Leaf(0x02, IntegerContent(2))]), Leaf(0x02, IntegerContent(1)), AlgorithmNode(),
      NameNode(commonName), ValidityNode(from, to), NameNode(commonName), key])
  }

  function CertificateNode(tbs: Node, signature: seq<Byte>): Node {
    Parent(0x30, [tbs, AlgorithmNode(), Leaf(0x03, [0] + signature)])
  }

  method Name(commonName: seq<Byte>) returns (encoded: seq<Byte>)
    ensures encoded == Encode(NameNode(commonName))
  {
    var id := Oid(COMMON_NAME);
    var text := WriteDer(0x0C, commonName);
    var attribute := Sequence([id, text]);
    Two(OidNode(COMMON_NAME), Leaf(0x0C, commonName));
    var set1 := Set([attribute]);
    One(Parent(0x30, [OidNode(COMMON_NAME), Leaf(0x0C, commonName)]));
    encoded := Sequence([set1]);
    One(Parent(0x31, [Parent(0x30, [OidNode(COMMON_NAME), Leaf(0x0C, commonName)])]));
  }

  lemma One(a: Node)
    ensures EncodeAll([a]) == Concat([Encode(a)])
  {
    ConcatEncodings([a]);
    assert Encodings([a]) == [Encode(a)];
  }

  lemma Two(a: Node, b: Node)
    ensures EncodeAll([a, b]) == Concat([Encode(a), Encode(b)])
  {
    ConcatEncodings([a, b]);
    assert Encodings([a, b]) == [Encode(a), Encode(b)];
  }

  method Algorithm() returns (encoded: seq<Byte>)
    ensures encoded == Encode(AlgorithmNode())
  {
    var id := Oid(ECDSA_WITH_SHA256);
    var none := WriteDer(0x05, []);
    Two(OidNode(ECDSA_WITH_SHA256), Leaf(0x05, []));
    encoded := Sequence([id, none]);
  }

  method ToBeSigned(commonName: seq<Byte>, from: seq<Byte>, to: seq<Byte>, publicKey: seq<Byte>, ghost key: Node)
    returns (encoded: seq<Byte>)
    requires publicKey == Encode(key)
    ensures encoded == Encode(TbsNode(commonName, from, to, key))
  {
    var two := Integer(2);
    var version := WriteDer(0xA0, two);
    assert EncodeAll([Leaf(0x02, IntegerContent(2))]) == two + [];
    assert version == Encode(Parent(0xA0, [Leaf(0x02, IntegerContent(2))]));
    var serial := Integer(1);
    var algorithm := Algorithm();
    var issuer := Name(commonName);
    var notBefore := WriteDer(0x18, from);
    var notAfter := WriteDer(0x18, to);
    Two(Leaf(0x18, from), Leaf(0x18, to));
    var validity := Sequence([notBefore, notAfter]);
    var subject := Name(commonName);
    encoded := Sequence([version, serial, algorithm, issuer, validity, subject, publicKey]);
    ghost var nodes := TbsNode(commonName, from, to, key).children;
    ConcatEncodings(nodes);
    assert Encodings(nodes) == [version, serial, algorithm, issuer, validity, subject, publicKey];
  }

  method SelfSigned(tbs: seq<Byte>, signature: seq<Byte>, ghost node: Node) returns (encoded: seq<Byte>)
    requires tbs == Encode(node)
    ensures encoded == Encode(CertificateNode(node, signature))
  {
    var algorithm := Algorithm();
    var bits := WriteDer(0x03, [0] + signature);
    encoded := Sequence([tbs, algorithm, bits]);
    ghost var nodes := CertificateNode(node, signature).children;
    ConcatEncodings(nodes);
    assert Encodings(nodes) == [tbs, algorithm, bits];
  }

  lemma {:induction false} ChildrenFit(nodes: seq<Node>, i: nat)
    requires i < |nodes|
    ensures |Encode(nodes[i])| <= |EncodeAll(nodes)|
  {
    if i > 0 {
      ChildrenFit(nodes[1..], i - 1);
    }
  }

  /** Bit 6 says for every node whether it has children. */
  predicate TagsRight(node: Node) {
    match node
    case Leaf(tag, _) => !IsConstructed(tag)
    case Parent(tag, children) => IsConstructed(tag) && forall i :: 0 <= i < |children| ==> TagsRight(children[i])
  }

  /** A tree whose tags are right and whose whole encoding is below 2^32 bytes is encodable throughout. */
  lemma {:induction false} SmallTrees(node: Node)
    requires TagsRight(node) && |Encode(node)| < UINT32
    ensures Encodable(node)
  {
    match node {
      case Leaf(_, _) =>
      case Parent(tag, children) =>
        forall i | 0 <= i < |children| ensures Encodable(children[i]) {
          ChildrenFit(children, i);
          SmallTrees(children[i]);
        }
    }
  }

  lemma TagsOfName(commonName: seq<Byte>)
    ensures TagsRight(NameNode(commonName)) && TagsRight(AlgorithmNode())
  {
    assert TagsRight(Parent(0x30, [OidNode(COMMON_NAME), Leaf(0x0C, commonName)]));
    assert TagsRight(Parent(0x31, [Parent(0x30, [OidNode(COMMON_NAME), Leaf(0x0C, commonName)])]));
  }

  lemma TagsOfCertificate(commonName: seq<Byte>, from: seq<Byte>, to: seq<Byte>, key: Node, signature: seq<Byte>)
    requires TagsRight(key)
    ensures TagsRight(CertificateNode(TbsNode(commonName, from, to, key), signature))
  {
    TagsOfName(commonName);
    TagsOfTbs(commonName, from, to, key);
    TagsOfParent(0x30, [TbsNode(commonName, from, to, key), AlgorithmNode(), Leaf(0x03, [0] + signature)]);
  }

  lemma TagsOfTbs(commonName: seq<Byte>, from: seq<Byte>, to: seq<Byte>, key: Node)
    requires TagsRight(key)
    ensures TagsRight(TbsNode(commonName, from, to, key))
  {
    TagsOfName(commonName);
    TagsOfParent(0xA0, [Leaf(0x02, IntegerContent(2))]);
    TagsOfParent(0x30, [Leaf(0x18, from), Leaf(0x18, to)]);
    TagsOfSeven(Parent(0xA0, [Leaf(0x02, IntegerContent(2))]), Leaf(0x02, IntegerContent(1)), AlgorithmNode(),
      NameNode(commonName), ValidityNode(from, to), NameNode(commonName), key);
  }

  lemma TagsOfSeven(a: Node, b: Node, c: Node, d: Node, e: Node, f: Node, g: Node)
    requires TagsRight(a) && TagsRight(b) && TagsRight(c) && TagsRight(d) && TagsRight(e) && TagsRight(f)
    requires TagsRight(g)
    ensures TagsRight(Parent(0x30, [a, b, c, d, e, f, g]))
  {
    TagsOfParent(0x30, [a, b, c, d, e, f, g]);
  }

  lemma TagsOfParent(tag: Byte, children: seq<Node>)
    requires IsConstructed(tag) && forall i :: 0 <= i < |children| ==> TagsRight(children[i])
    ensures TagsRight(Parent(tag, children))
  {
  }

  /** The constants of a certificate read back as themselves. */
  lemma ConstantsReadable()
    ensures ReadOid(OidContent(COMMON_NAME)) == Some(COMMON_NAME)
    ensures ReadOid(OidContent(ECDSA_WITH_SHA256)) == Some(ECDSA_WITH_SHA256)
    ensures ReadInteger(IntegerContent(2)) == Some(2) && ReadInteger(IntegerContent(1)) == Some(1)
  {
    OidRoundTrip(COMMON_NAME);
    OidRoundTrip(ECDSA_WITH_SHA256);
    IntegerRoundTrip(2);
    IntegerRoundTrip(1);
  }

  /** A reader of a certificate below 4 GiB finds exactly the fields that went in, and nothing after them. */
  lemma CertificateReadable(commonName: seq<Byte>, from: seq<Byte>, to: seq<Byte>, key: Node, signature: seq<Byte>)
    requires TagsRight(key)
    requires |Encode(CertificateNode(TbsNode(commonName, from, to, key), signature))| < UINT32
    ensures var certificate := CertificateNode(TbsNode(commonName, from, to, key), signature);
      Decode(Encode(certificate)) == Some((certificate, []))
  {
    var certificate := CertificateNode(TbsNode(commonName, from, to, key), signature);
    TagsOfCertificate(commonName, from, to, key, signature);
    SmallTrees(certificate);
    DerRoundTrip(certificate, []);
    assert Encode(certificate) + [] == Encode(certificate);
  }
}
