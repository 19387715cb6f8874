/**
 * What canonical text is beyond being readable: which values have one, how strings are escaped, and that the keys of
 * every record stand in the order of their UTF-16 code units.
 */
module CanonicalForm {
  import opened Bytes
  import opened Results
  import Utf8
  import opened Sorting
  import opened CanonicalJson
  import opened JsonReading

  // ----- which values

  /** Every value in it prints: integers up to 2^53 - 1 either way, and nothing JSON does not have. */
  lemma PrintsIff(v: Value)
    ensures Canonical(v).Ok? <==>
      match v
      case Number(n) => -9007199254740991 <= n <= 9007199254740991
      case Array(items) => forall i :: 0 <= i < |items| ==> Canonical(items[i]).Ok?
      case Record(fields) => forall i :: 0 <= i < |fields| ==> Canonical(fields[i].value).Ok?
      case Unsupported => false
      case _ => true
  {
  }

  // ----- numbers

  lemma {:induction false} NoLeadingZero(n: nat)
    ensures Decimal(n)[0] == 0x30 <==> n == 0
  {
    if n >= 10 {
      NoLeadingZero(n / 10);
    }
  }

  /** A number is printed with a minus sign exactly when it is negative, without a leading zero; zero is just "0". */
  lemma NumbersAs(n: int)
    requires Canonical(Number(n)).Ok?
    ensures var t := Canonical(Number(n)).value;
      && (t[0] == 0x2D <==> n < 0)
      && Read(t) == Some((Number(n), []))
      && (if n == 0 then t == Ascii("0") else t[if n < 0 then 1 else 0] != 0x30)
  {
    var t := Print(Number(n));
    NoLeadingZero(if n < 0 then -n else n);
    ReadBack(Number(n), []);
    assert t + [] == t;
    assert Ascii("0") == [0x30];
  }

  // ----- strings

  function HexOf(d: int): Unit
    requires 0 <= d < 16
  {
    Ascii("0123456789abcdef")[d]
  }

  /** Backslash, u and four lower-case hexadecimal digits. */
  function Hexadecimal(u: Unit): Text {
    Ascii("\\u") + [HexOf(u / 0x1000), HexOf(u / 0x100 % 16), HexOf(u / 0x10 % 16), HexOf(u % 16)]
  }

  /** A unit as it stands in a string: itself, unless it must be escaped; then the short form, if it has one. */
  function Escaped(u: Unit, lone: bool): Text {
    if u == 0x08 then Ascii("\\b") else if u == 0x09 then Ascii("\\t") else if u == 0x0A then Ascii("\\n")
    else if u == 0x0C then Ascii("\\f") else if u == 0x0D then Ascii("\\r")
    else if u == 0x22 then Ascii("\\\"") else if u == 0x5C then Ascii("\\\\")
    else if u < 0x20 || lone then Hexadecimal(u)
    else [u]
  }

  /** The units of a string from one on, each as it stands. */
  function Spelled(s: Text, n: nat): Text
    requires n <= |s|
    decreases |s| - n
  {
    if n == |s| then [] else Escaped(s[n], Utf8.Lone(s, n)) + Spelled(s, n + 1)
  }

  lemma QuotedUnit(u: Unit, lone: bool)
    requires lone <==> Utf8.IsHigh(u) || Utf8.IsLow(u)
    ensures QuoteUnit(u) == Escaped(u, lone)
  {
    assert Ascii("\\b") == [0x5C, 0x62] && Ascii("\\t") == [0x5C, 0x74] && Ascii("\\n") == [0x5C, 0x6E];
    assert Ascii("\\f") == [0x5C, 0x66] && Ascii("\\r") == [0x5C, 0x72];
    assert Ascii("\\\"") == [0x5C, 0x22] && Ascii("\\\\") == [0x5C, 0x5C] && Ascii("\\u") == [0x5C, 0x75];
    assert forall d :: 0 <= d < 16 ==> HexOf(d) == HexDigit(d);
  }

  /** Not between the two halves of a surrogate pair. */
  predicate Between(s: Text, n: nat)
    requires n <= |s|
  {
    0 < n < |s| ==> !(Utf8.IsHigh(s[n - 1]) && Utf8.IsLow(s[n]))
  }

  lemma PairSpelled(s: Text, n: nat)
    requires n + 1 < |s| && Utf8.IsHigh(s[n]) && Utf8.IsLow(s[n + 1])
    ensures QuoteBody(s[n..]) == [s[n], s[n + 1]] + QuoteBody(s[n + 2..])
    ensures Spelled(s, n) == [s[n], s[n + 1]] + Spelled(s, n + 2)
  {
    assert s[n..][2..] == s[n + 2..];
    assert Escaped(s[n], Utf8.Lone(s, n)) == [s[n]] && Escaped(s[n + 1], Utf8.Lone(s, n + 1)) == [s[n + 1]];
    var first, second: Text, rest := [s[n]], [s[n + 1]], Spelled(s, n + 2);
    assert Spelled(s, n + 1) == second + rest;
    assert Spelled(s, n) == first + (second + rest);
    assert first + (second + rest) == [s[n], s[n + 1]] + rest;
  }

  lemma UnitSpelled(s: Text, n: nat)
    requires n < |s| && Between(s, n) && !(n + 1 < |s| && Utf8.IsHigh(s[n]) && Utf8.IsLow(s[n + 1]))
    ensures QuoteBody(s[n..]) == Escaped(s[n], Utf8.Lone(s, n)) + QuoteBody(s[n + 1..])
  {
    assert s[n..][1..] == s[n + 1..];
    QuotedUnit(s[n], Utf8.Lone(s, n));
  }

  lemma {:induction false} BodySpelled(s: Text, n: nat)
    requires n <= |s| && Between(s, n)
    ensures QuoteBody(s[n..]) == Spelled(s, n)
    decreases |s| - n
  {
    if n < |s| {
      if n + 1 < |s| && Utf8.IsHigh(s[n]) && Utf8.IsLow(s[n + 1]) {
        PairSpelled(s, n);
        BodySpelled(s, n + 2);
      } else {
        UnitSpelled(s, n);
        BodySpelled(s, n + 1);
      }
    }
  }

  /**
   * A string is printed between quotation marks, each unit as itself but for these: the quotation mark, the backslash,
   * the control characters and the lone surrogates, in their short form or as four lower-case hexadecimal digits.
   */
  lemma QuotesAs(s: Text)
    ensures Quote(s) == [0x22] + Spelled(s, 0) + [0x22]
  {
    BodySpelled(s, 0);
    assert s[0..] == s;
  }

  // ----- records

  /** In every record the keys stand in the order of their UTF-16 code units, each once. */
  ghost predicate KeysAscend(v: Value) {
    match v
    case Array(items) => forall i :: 0 <= i < |items| ==> KeysAscend(items[i])
    case Record(fields) =>
      && (forall i, j :: 0 <= i < j < |fields| ==> Precedes(fields[i].key, fields[j].key))
      && forall i :: 0 <= i < |fields| ==> KeysAscend(fields[i].value)
    case _ => true
  }

  lemma {:induction false} NormalAscends(v: Value)
    requires WellKeyed(v)
    ensures KeysAscend(Normal(v))
    decreases v, 0
  {
    match v {
      case Array(items) =>
        ItemsAscend(items);
        assert Normal(v) == Array(NormalItems(items));
      case Record(fields) =>
        var keys := Sort(TextLess, Keys(fields));
        SortMembers(TextLess, Keys(fields));
        TextOrder();
        SortAscending(TextLess, Keys(fields));
        FieldsAscend(fields, keys);
        RecordAscends(NormalFields(fields, keys));
      case _ =>
    }
  }

  lemma {:induction false} ItemsAscend(items: seq<Value>)
    requires forall i :: 0 <= i < |items| ==> WellKeyed(items[i])
    ensures forall i :: 0 <= i < |items| ==> KeysAscend(NormalItems(items)[i])
    decreases items, 0
  {
    if items != [] {
      NormalAscends(items[0]);
      ItemsAscend(items[1..]);
      forall i | 0 <= i < |items| ensures KeysAscend(NormalItems(items)[i]) {
        assert i > 0 ==> NormalItems(items)[i] == NormalItems(items[1..])[i - 1];
      }
    }
  }

  lemma {:induction false} FieldsAscend(fields: seq<Field>, keys: seq<Text>)
    requires forall i :: 0 <= i < |fields| ==> WellKeyed(fields[i].value)
    requires forall k :: k in keys ==> k in Keys(fields)
    requires Ascending(TextLess, keys)
    ensures var n := NormalFields(fields, keys);
      && (forall i :: 0 <= i < |n| ==> n[i].key == keys[i] && KeysAscend(n[i].value))
    decreases fields, 1 + |keys|
  {
    if keys != [] {
      NormalAscends(Lookup(fields, keys[0]));
      FieldsAscend(fields, keys[1..]);
    }
  }

  lemma RecordAscends(fields: seq<Field>)
    requires Ascending(TextLess, Keys(fields)) && forall i :: 0 <= i < |fields| ==> KeysAscend(fields[i].value)
    ensures KeysAscend(Record(fields))
  {
    forall i, j | 0 <= i < j < |fields| ensures Precedes(fields[i].key, fields[j].key) {
      assert TextLess(Keys(fields)[i], Keys(fields)[j]);
      TextLessIff(fields[i].key, fields[j].key);
    }
  }

  /** Canonical text lists the keys of every record in it in the order of their UTF-16 code units. */
  lemma KeysInOrder(v: Value)
    requires WellKeyed(v) && Canonical(v).Ok?
    ensures var read := Read(Canonical(v).value);
      read.Some? && read.value.1 == [] && KeysAscend(read.value.0)
  {
    ReadBack(v, []);
    assert Print(v) + [] == Print(v);
    NormalAscends(v);
  }
}
