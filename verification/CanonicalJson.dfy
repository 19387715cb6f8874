/**
 * The canonical JSON printer under every signature, its reader, and unique readability.
 * Values are what the printer may be handed; a record keeps its insertion order.
 */
module CanonicalJson {
  import opened Bytes
  import opened Results
  import Utf8
  import opened Sorting

  const MAX_SAFE_INTEGER := 0x1F_FFFF_FFFF_FFFF

  datatype Value =
    | Null
    | Bool(b: bool)
    | Number(n: int)
    | Str(s: Text)
    | Array(items: seq<Value>)
    | Record(fields: seq<Field>)
    | Unsupported  // undefined, a function, a fraction, a non-finite number

  datatype Field = Field(key: Text, value: Value)

  function Keys(fields: seq<Field>): (r: seq<Text>)
    ensures |r| == |fields|
    ensures forall i :: 0 <= i < |r| ==> r[i] == fields[i].key
  {
    seq(|fields|, i requires 0 <= i < |fields| => fields[i].key)
  }

  /** Property access by name. */
  function Lookup(fields: seq<Field>, key: Text): (v: Value)
    requires key in Keys(fields)
    ensures exists i :: 0 <= i < |fields| && fields[i].key == key && fields[i].value == v
  {
    if fields[0].key == key then fields[0].value
    else
      assert Keys(fields) == [fields[0].key] + Keys(fields[1..]);
      Lookup(fields[1..], key)
  }

  /** Every JavaScript object has distinct keys; this holds of every record in the value. */
  ghost predicate WellKeyed(v: Value) {
    match v
    case Array(items) => forall i :: 0 <= i < |items| ==> WellKeyed(items[i])
    case Record(fields) =>
      Distinct(Keys(fields)) && forall i :: 0 <= i < |fields| ==> WellKeyed(fields[i].value)
    case _ => true
  }

  /** The values the printer does not throw on. */
  predicate Supported(v: Value) {
    match v
    case Number(n) => -MAX_SAFE_INTEGER <= n <= MAX_SAFE_INTEGER
    case Array(items) => forall i :: 0 <= i < |items| ==> Supported(items[i])
    case Record(fields) => forall i :: 0 <= i < |fields| ==> Supported(fields[i].value)
    case Unsupported => false
    case _ => true
  }

  // ----- printing

  function Decimal(n: nat): (t: Text)
    ensures |t| > 0
    ensures forall i :: 0 <= i < |t| ==> IsDigit(t[i])
  {
    if n < 10 then [0x30 + n] else Decimal(n / 10) + [0x30 + n % 10]
  }

  predicate IsDigit(u: Unit) { 0x30 <= u <= 0x39 }

  function HexDigit(d: int): Unit
    requires 0 <= d < 16
  {
    if d < 10 then 0x30 + d else 0x57 + d
  }

  /** `\uXXXX`, lower-case. */
  function UnicodeEscape(u: Unit): (t: Text)
    ensures |t| == 6
  {
    [0x5C, 0x75, HexDigit(u / 0x1000), HexDigit(u / 0x100 % 16), HexDigit(u / 16 % 16), HexDigit(u % 16)]
  }

  function QuoteUnit(u: Unit): (t: Text)
    ensures |t| > 0
  {
    if u == 0x22 || u == 0x5C then [0x5C, u]
    else if u == 0x08 then [0x5C, 0x62]
    else if u == 0x09 then [0x5C, 0x74]
    else if u == 0x0A then [0x5C, 0x6E]
    else if u == 0x0C then [0x5C, 0x66]
    else if u == 0x0D then [0x5C, 0x72]
    else if u < 0x20 || Utf8.IsHigh(u) || Utf8.IsLow(u) then UnicodeEscape(u)
    else [u]
  }

  function QuoteBody(s: Text): Text {
    if s == [] then []
    else if Utf8.IsHigh(s[0]) && |s| > 1 && Utf8.IsLow(s[1]) then [s[0], s[1]] + QuoteBody(s[2..])
    else QuoteUnit(s[0]) + QuoteBody(s[1..])
  }

  /** JSON.stringify of a string: section 7 of RFC 8259, lone surrogates escaped. */
  function Quote(s: Text): Text {
    [0x22] + QuoteBody(s) + [0x22]
  }

  function NumberText(n: int): Text {
    if n < 0 then [0x2D] + Decimal(-n) else Decimal(n)
  }

  function Print(v: Value): Text
    requires Supported(v)
    decreases v, 0
  {
    match v
    case Null => Ascii("null")
    case Bool(b) => if b then Ascii("true") else Ascii("false")
    case Number(n) => NumberText(n)
    case Str(s) => Quote(s)
    case Array(items) => [0x5B] + PrintItems(items) + [0x5D]
    case Record(fields) =>
      SortMembers(TextLess, Keys(fields));
      [0x7B] + PrintFields(fields, Sort(TextLess, Keys(fields))) + [0x7D]
  }

  function PrintItems(items: seq<Value>): Text
    requires forall i :: 0 <= i < |items| ==> Supported(items[i])
    decreases items, 0
  {
    if items == [] then []
    else if |items| == 1 then Print(items[0])
    else Print(items[0]) + [0x2C] + PrintItems(items[1..])
  }

  function PrintField(fields: seq<Field>, key: Text): Text
    requires forall i :: 0 <= i < |fields| ==> Supported(fields[i].value)
    requires key in Keys(fields)
    decreases fields, 0
  {
    Quote(key) + [0x3A] + Print(Lookup(fields, key))
  }

  function PrintFields(fields: seq<Field>, keys: seq<Text>): Text
    requires forall i :: 0 <= i < |fields| ==> Supported(fields[i].value)
    requires forall k :: k in keys ==> k in Keys(fields)
    decreases fields, 1 + |keys|
  {
    if keys == [] then []
    else if |keys| == 1 then PrintField(fields, keys[0])
    else PrintField(fields, keys[0]) + [0x2C] + PrintFields(fields, keys[1..])
  }

  datatype PrintError = NotCanonical

  /** The canonical text, or the TypeError thrown at the first unsafe number or unsupported value. */
  function Canonical(v: Value): Outcome<Text, PrintError> {
    if Supported(v) then Ok(Print(v)) else Err(NotCanonical)
  }

  /** The canonical UTF-8 bytes that are signed, hashed and compared. */
  function CanonicalBytes(v: Value): Outcome<seq<Byte>, PrintError> {
    match Canonical(v)
    case Ok(text) => Ok(Utf8.Encode(text))
    case Err(e) => Err(e)
  }

  // ----- reading

  function ReadDigits(t: Text, sofar: nat): (r: (nat, Text))
    ensures |r.1| <= |t|
  {
    if t != [] && IsDigit(t[0]) then ReadDigits(t[1..], sofar * 10 + (t[0] - 0x30)) else (sofar, t)
  }

  function HexValue(u: Unit): Option<nat> {
    if IsDigit(u) then Some(u - 0x30)
    else if 0x61 <= u <= 0x66 then Some(u - 0x57)
    else None
  }

  function ReadEscape(t: Text): (r: Option<(Unit, nat)>)
    requires t != []
    ensures r.Some? ==> 0 < r.value.1 <= |t|
  {
    if t[0] == 0x22 || t[0] == 0x5C || t[0] == 0x2F then Some((t[0], 1))
    else if t[0] == 0x62 then Some((0x08, 1))
    else if t[0] == 0x74 then Some((0x09, 1))
    else if t[0] == 0x6E then Some((0x0A, 1))
    else if t[0] == 0x66 then Some((0x0C, 1))
    else if t[0] == 0x72 then Some((0x0D, 1))
    else if t[0] == 0x75 && |t| >= 5 then
      match (HexValue(t[1]), HexValue(t[2]), HexValue(t[3]), HexValue(t[4]))
      case (Some(a), Some(b), Some(c), Some(d)) => Some(((a * 0x1000 + b * 0x100 + c * 16 + d) % 0x1_0000, 5))
      case _ => None
    else None
  }

  /** One unit of a string body and the number of text units it took. */
  function ReadUnit(t: Text): (r: Option<(Unit, nat)>)
    requires t != []
    ensures r.Some? ==> 0 < r.value.1 <= |t|
  {
    if t[0] == 0x5C then
      if |t| == 1 then None else
      match ReadEscape(t[1..])
      case Some((u, used)) => Some((u, used + 1))
      case None => None
    else if t[0] < 0x20 then None
    else Some((t[0], 1))
  }

  /** A string body up to and including its closing quote. */
  function ReadBody(t: Text): (r: Option<(Text, Text)>)
    ensures r.Some? ==> |r.value.1| < |t|
    decreases |t|
  {
    if t == [] then None
    else if t[0] == 0x22 then Some(([], t[1..]))
    else
      match ReadUnit(t)
      case None => None
      case Some((u, used)) =>
        match ReadBody(t[used..])
        case None => None
        case Some((s, rest)) => Some(([u] + s, rest))
  }

  predicate StartsWith(t: Text, prefix: Text) {
    |prefix| <= |t| && t[..|prefix|] == prefix
  }

  function ReadKeyword(t: Text, keyword: Text, v: Value): (r: Option<(Value, Text)>)
    requires keyword != []
    ensures r.Some? ==> |r.value.1| < |t|
  {
    if StartsWith(t, keyword) then Some((v, t[|keyword|..])) else None
  }

  function ReadWord(t: Text): (r: Option<(Value, Text)>)
    ensures r.Some? ==> |r.value.1| < |t|
  {
    if t == [] then None
    else if t[0] == 0x6E then ReadKeyword(t, Ascii("null"), Null)
    else if t[0] == 0x74 then ReadKeyword(t, Ascii("true"), Bool(true))
    else ReadKeyword(t, Ascii("false"), Bool(false))
  }

  function ReadNumeral(t: Text): (r: Option<(Value, Text)>)
    requires t != []
    ensures r.Some? ==> |r.value.1| < |t|
  {
    if t[0] == 0x2D then
      if |t| > 1 && IsDigit(t[1]) then
        var (n, rest) := ReadDigits(t[1..], 0);
        Some((Number(0 - n), rest))
      else None
    else if IsDigit(t[0]) then
      var (n, rest) := ReadDigits(t[1..], t[0] - 0x30);
      Some((Number(n), rest))
    else None
  }

  /** One value off the front of a text, and what is left. */
  function Read(t: Text): (r: Option<(Value, Text)>)
    ensures r.Some? ==> |r.value.1| < |t|
    decreases |t|, 1
  {
    if t == [] then None
    else if t[0] == 0x22 then
      match ReadBody(t[1..])
      case Some((s, rest)) => Some((Str(s), rest))
      case None => None
    else if t[0] == 0x5B then ReadArray(t[1..])
    else if t[0] == 0x7B then ReadRecord(t[1..])
    else if t[0] == 0x2D || IsDigit(t[0]) then ReadNumeral(t)
    else ReadWord(t)
  }

  /** An array after its opening bracket. */
  function ReadArray(t: Text): (r: Option<(Value, Text)>)
    ensures r.Some? ==> |r.value.1| <= |t|
    decreases |t|, 3
  {
    if t != [] && t[0] == 0x5D then Some((Array([]), t[1..])) else
    match ReadItems(t)
    case Some((items, rest)) => Some((Array(items), rest))
    case None => None
  }

  /** A record after its opening brace. */
  function ReadRecord(t: Text): (r: Option<(Value, Text)>)
    ensures r.Some? ==> |r.value.1| <= |t|
    decreases |t|, 4
  {
    if t != [] && t[0] == 0x7D then Some((Record([]), t[1..])) else
    match ReadFields(t)
    case Some((fields, rest)) => Some((Record(fields), rest))
    case None => None
  }

  /** A non-empty item list and its closing bracket. */
  function ReadItems(t: Text): (r: Option<(seq<Value>, Text)>)
    ensures r.Some? ==> |r.value.1| < |t|
    decreases |t|, 2
  {
    match Read(t)
    case None => None
    case Some((v, rest)) =>
      if rest == [] then None
      else if rest[0] == 0x5D then Some(([v], rest[1..]))
      else if rest[0] != 0x2C then None
      else
        match ReadItems(rest[1..])
        case None => None
        case Some((vs, last)) => Some(([v] + vs, last))
  }

  function ReadField(t: Text): (r: Option<(Field, Text)>)
    ensures r.Some? ==> |r.value.1| < |t|
    decreases |t|, 2
  {
    if t == [] || t[0] != 0x22 then None else
    match ReadBody(t[1..])
    case None => None
    case Some((key, rest)) =>
      if rest == [] || rest[0] != 0x3A then None else
      match Read(rest[1..])
      case None => None
      case Some((v, last)) => Some((Field(key, v), last))
  }

  /** A non-empty member list and its closing brace. */
  function ReadFields(t: Text): (r: Option<(seq<Field>, Text)>)
    ensures r.Some? ==> |r.value.1| < |t|
    decreases |t|, 3
  {
    match ReadField(t)
    case None => None
    case Some((f, rest)) =>
      if rest == [] then None
      else if rest[0] == 0x7D then Some(([f], rest[1..]))
      else if rest[0] != 0x2C then None
      else
        match ReadFields(rest[1..])
        case None => None
        case Some((fs, last)) => Some(([f] + fs, last))
  }

  // ----- what the text stands for

  /** The value with every record listed in key order. */
  function Normal(v: Value): Value
    decreases v, 0
  {
    match v
    case Array(items) => Array(NormalItems(items))
    case Record(fields) =>
      SortMembers(TextLess, Keys(fields));
      Record(NormalFields(fields, Sort(TextLess, Keys(fields))))
    case _ => v
  }

  function NormalItems(items: seq<Value>): (r: seq<Value>)
    ensures |r| == |items|
    decreases items, 0
  {
    if items == [] then [] else [Normal(items[0])] + NormalItems(items[1..])
  }

  function NormalField(fields: seq<Field>, key: Text): Field
    requires key in Keys(fields)
    decreases fields, 0
  {
    Field(key, Normal(Lookup(fields, key)))
  }

  function NormalFields(fields: seq<Field>, keys: seq<Text>): (r: seq<Field>)
    requires forall k :: k in keys ==> k in Keys(fields)
    ensures |r| == |keys|
    decreases fields, 1 + |keys|
  {
    if keys == [] then [] else [NormalField(fields, keys[0])] + NormalFields(fields, keys[1..])
  }

  /** Structural equality of JavaScript values: records are equal as maps, whatever their insertion order. */
  ghost predicate Same(v: Value, w: Value)
    decreases v, 0
  {
    if v.Array? && w.Array? then SameItems(v.items, w.items)
    else if v.Record? && w.Record? then SameFields(v.fields, w.fields)
    else v == w
  }

  ghost predicate SameItems(a: seq<Value>, b: seq<Value>)
    decreases a, 0
  {
    |a| == |b| && forall i :: 0 <= i < |a| ==> Same(a[i], b[i])
  }

  ghost predicate SameFields(f: seq<Field>, g: seq<Field>)
    decreases f, 0
  {
    |f| == |g| && forall i :: 0 <= i < |f| ==> f[i].key in Keys(g) && Same(f[i].value, Lookup(g, f[i].key))
  }
}
