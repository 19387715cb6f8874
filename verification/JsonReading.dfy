/**
 * Unique readability of canonical JSON: the reader recovers every printed value, so equal
 * text (and equal bytes) mean the same value, and insertion order never shows.
 */
module JsonReading {
  import opened Bytes
  import opened Results
  import Utf8
  import opened Sorting
  import opened CanonicalJson

  // ----- the reader undoes the printer

  lemma {:induction false} ReadDigitsDecimal(n: nat, rest: Text)
    ensures ReadDigits(Decimal(n) + rest, 0) == ReadDigits(rest, n)
  {
    if n < 10 {
      assert (Decimal(n) + rest)[1..] == rest;
    } else {
      var last: Text := [0x30 + n % 10];
      assert Decimal(n) + rest == Decimal(n / 10) + (last + rest);
      ReadDigitsDecimal(n / 10, last + rest);
      assert (last + rest)[1..] == rest;
    }
  }

  lemma HexDigits(u: Unit)
    ensures u / 0x1000 * 0x1000 + u / 0x100 % 16 * 0x100 + u / 16 % 16 * 16 + u % 16 == u
    ensures 0 <= u / 0x1000 < 16
  {
    var q: int := u / 16;
    var r: int := q / 16;
    assert u == q * 16 + u % 16 && q == r * 16 + q % 16 && r == r / 16 * 16 + r % 16;
    assert u / 0x100 == r && u / 0x1000 == r / 16;
  }

  lemma ReadUnicodeEscape(u: Unit, tail: Text)
    ensures ReadUnit(UnicodeEscape(u) + tail) == Some((u, 6))
  {
    HexDigits(u);
    var body := (UnicodeEscape(u) + tail)[1..];
    assert body[0] == 0x75 && |body| >= 5;
    assert HexValue(body[1]) == Some(u / 0x1000);
    assert HexValue(body[2]) == Some(u / 0x100 % 16);
    assert HexValue(body[3]) == Some(u / 16 % 16);
    assert HexValue(body[4]) == Some(u % 16);
    assert ReadEscape(body) == Some((u, 5));
  }

  lemma ReadQuotedUnit(u: Unit, tail: Text)
    ensures QuoteUnit(u)[0] != 0x22
    ensures ReadUnit(QuoteUnit(u) + tail) == Some((u, |QuoteUnit(u)|))
  {
    if |QuoteUnit(u)| == 6 {
      ReadUnicodeEscape(u, tail);
    } else if |QuoteUnit(u)| == 2 {
      assert (QuoteUnit(u) + tail)[1..][0] == QuoteUnit(u)[1];
    }
  }

  lemma ReadBodyStep(head: Text, u: Unit, tail: Text)
    requires head != [] && head[0] != 0x22 && ReadUnit(head + tail) == Some((u, |head|))
    requires ReadBody(tail).Some?
    ensures ReadBody(head + tail) == Some(([u] + ReadBody(tail).value.0, ReadBody(tail).value.1))
  {
    assert (head + tail)[|head|..] == tail;
  }

  lemma ReadPlainUnit(u: Unit, tail: Text, s: Text, rest: Text)
    requires u >= 0x20 && u != 0x22 && u != 0x5C
    requires ReadBody(tail) == Some((s, rest))
    ensures ReadBody([u] + tail) == Some(([u] + s, rest))
  {
    ReadBodyStep([u], u, tail);
  }

  lemma ReadQuotedPair(s: Text, tail: Text, rest: Text)
    requires |s| > 1 && Utf8.IsHigh(s[0]) && Utf8.IsLow(s[1])
    requires ReadBody(tail) == Some((s[2..], rest))
    ensures ReadBody([s[0], s[1]] + tail) == Some((s, rest))
  {
    ReadPlainUnit(s[1], tail, s[2..], rest);
    ReadPlainUnit(s[0], [s[1]] + tail, [s[1]] + s[2..], rest);
    assert [s[0], s[1]] + tail == [s[0]] + ([s[1]] + tail);
    assert s == [s[0]] + ([s[1]] + s[2..]);
  }

  lemma ReadQuotedHead(s: Text, tail: Text, rest: Text)
    requires s != [] && ReadBody(tail) == Some((s[1..], rest))
    ensures ReadBody(QuoteUnit(s[0]) + tail) == Some((s, rest))
  {
    ReadQuotedUnit(s[0], tail);
    ReadBodyStep(QuoteUnit(s[0]), s[0], tail);
    assert s == [s[0]] + s[1..];
  }

  lemma {:induction false} ReadQuotedBody(s: Text, rest: Text)
    ensures ReadBody(QuoteBody(s) + ([0x22] + rest)) == Some((s, rest))
  {
    var end: Text := [0x22] + rest;
    if s == [] {
      assert QuoteBody(s) + end == end && end[1..] == rest;
    } else if Utf8.IsHigh(s[0]) && |s| > 1 && Utf8.IsLow(s[1]) {
      ReadQuotedBody(s[2..], rest);
      ReadQuotedPair(s, QuoteBody(s[2..]) + end, rest);
      Assoc([s[0], s[1]], QuoteBody(s[2..]), end);
    } else {
      ReadQuotedBody(s[1..], rest);
      ReadQuotedHead(s, QuoteBody(s[1..]) + end, rest);
      Assoc(QuoteUnit(s[0]), QuoteBody(s[1..]), end);
    }
  }

  lemma ReadQuoted(s: Text, rest: Text)
    ensures ReadBody((Quote(s) + rest)[1..]) == Some((s, rest))
  {
    assert (Quote(s) + rest)[1..] == QuoteBody(s) + ([0x22] + rest);
    ReadQuotedBody(s, rest);
  }

  lemma ReadPrintedKeyword(v: Value, rest: Text)
    requires v.Null? || v.Bool?
    ensures Read(Print(v) + rest) == Some((v, rest))
  {
    var t := Print(v) + rest;
    assert Ascii("null")[0] == 0x6E && Ascii("true")[0] == 0x74 && Ascii("false")[0] == 0x66;
    assert t[..|Print(v)|] == Print(v) && t[|Print(v)|..] == rest;
  }

  /** A bare number can be extended by a following digit; nothing else can. */
  predicate Extends(v: Value, rest: Text) {
    v.Number? && rest != [] && IsDigit(rest[0])
  }

  lemma ReadDigitRun(t: Text, n: nat, rest: Text)
    requires t != [] && IsDigit(t[0]) && ReadDigits(t, 0) == (n, rest)
    ensures Read(t) == Some((Number(n), rest))
  {
    assert ReadDigits(t[1..], t[0] - 0x30) == (n, rest);
  }

  lemma ReadNegativeRun(t: Text, n: nat, rest: Text)
    requires t != [] && IsDigit(t[0]) && ReadDigits(t, 0) == (n, rest)
    ensures Read([0x2D] + t) == Some((Number(0 - n), rest))
  {
    assert ([0x2D] + t)[1..] == t;
  }

  lemma ReadNumber(n: int, rest: Text)
    requires rest == [] || !IsDigit(rest[0])
    ensures Read(NumberText(n) + rest) == Some((Number(n), rest))
  {
    var magnitude := if n < 0 then -n else n;
    var t := Decimal(magnitude) + rest;
    ReadDigitsDecimal(magnitude, rest);
    assert t[0] == Decimal(magnitude)[0];
    assert ReadDigits(rest, magnitude) == (magnitude, rest);
    if n < 0 {
      ReadNegativeRun(t, magnitude, rest);
      Assoc([0x2D], Decimal(-n), rest);
    } else {
      ReadDigitRun(t, magnitude, rest);
    }
  }

  lemma FirstUnit(v: Value)
    requires Supported(v)
    ensures |Print(v)| > 0 && Print(v)[0] != 0x5D && Print(v)[0] != 0x7D
  {
    assert Ascii("null")[0] == 0x6E && Ascii("true")[0] == 0x74 && Ascii("false")[0] == 0x66;
  }

  lemma ReadBracketed(tail: Text)
    ensures Read([0x5B] + tail) == ReadArray(tail)
  {
    assert ([0x5B] + tail)[1..] == tail;
  }

  lemma ReadBraced(tail: Text)
    ensures Read([0x7B] + tail) == ReadRecord(tail)
  {
    assert ([0x7B] + tail)[1..] == tail;
  }

  lemma Wrapped(open: Text, body: Text, close: Text, rest: Text)
    ensures open + body + close + rest == open + (body + close + rest)
  {
  }

  /**
   * The reader recovers every printed value, up to key order, from its text followed by any
   * text that cannot extend it.
   */
  lemma {:induction false} ReadBack(v: Value, rest: Text)
    requires Supported(v) && !Extends(v, rest)
    ensures Read(Print(v) + rest) == Some((Normal(v), rest))
    decreases v, 0
  {
    match v {
      case Null => ReadPrintedKeyword(v, rest);
      case Bool(_) => ReadPrintedKeyword(v, rest);
      case Number(n) => ReadNumber(n, rest);
      case Str(s) => ReadQuoted(s, rest);
      case Array(items) =>
        var tail := PrintItems(items) + [0x5D] + rest;
        Wrapped([0x5B], PrintItems(items), [0x5D], rest);
        ReadBracketed(tail);
        if items == [] {
          assert tail[0] == 0x5D && tail[1..] == rest;
        } else {
          ReadBackItems(items, rest);
          FirstUnit(items[0]);
          assert tail[0] == Print(items[0])[0];
        }
      case Record(fields) => ReadBackRecord(fields, rest);
    }
  }

  lemma {:induction false} ReadBackRecord(fields: seq<Field>, rest: Text)
    requires Supported(Record(fields))
    ensures Read(Print(Record(fields)) + rest) == Some((Normal(Record(fields)), rest))
    decreases fields, 2 + |fields|
  {
    var keys := Sort(TextLess, Keys(fields));
    SortMembers(TextLess, Keys(fields));
    var tail := PrintFields(fields, keys) + [0x7D] + rest;
    Wrapped([0x7B], PrintFields(fields, keys), [0x7D], rest);
    ReadBraced(tail);
    if fields == [] {
      assert tail[0] == 0x7D && tail[1..] == rest;
    } else {
      ReadBackFields(fields, keys, rest);
      assert tail[0] == PrintField(fields, keys[0])[0] == 0x22;
    }
  }

  lemma ReadItemsStep(head: Text, v: Value, more: Text)
    requires Read(head + more) == Some((v, more)) && more != []
    ensures more[0] == 0x5D ==> ReadItems(head + more) == Some(([v], more[1..]))
    ensures more[0] == 0x2C && ReadItems(more[1..]).Some? ==>
      ReadItems(head + more) == Some(([v] + ReadItems(more[1..]).value.0, ReadItems(more[1..]).value.1))
  {
  }

  lemma PrintItemsSplit(items: seq<Value>, rest: Text) returns (more: Text)
    requires items != [] && forall i :: 0 <= i < |items| ==> Supported(items[i])
    ensures PrintItems(items) + [0x5D] + rest == Print(items[0]) + more
    ensures more != []
    ensures |items| == 1 ==> more[0] == 0x5D && more[1..] == rest
    ensures |items| > 1 ==> more[0] == 0x2C && more[1..] == PrintItems(items[1..]) + [0x5D] + rest
  {
    if |items| == 1 {
      more := [0x5D] + rest;
    } else {
      more := [0x2C] + (PrintItems(items[1..]) + [0x5D] + rest);
    }
  }

  lemma {:induction false} ReadBackItems(items: seq<Value>, rest: Text)
    requires items != [] && forall i :: 0 <= i < |items| ==> Supported(items[i])
    ensures ReadItems(PrintItems(items) + [0x5D] + rest) == Some((NormalItems(items), rest))
    decreases items, 0
  {
    var more := PrintItemsSplit(items, rest);
    ReadBack(items[0], more);
    if |items| > 1 {
      ReadBackItems(items[1..], rest);
    }
    ReadItemsStep(Print(items[0]), Normal(items[0]), more);
    if |items| == 1 {
      assert NormalItems(items) == [Normal(items[0])];
    }
  }

  lemma {:induction false} ReadBackField(fields: seq<Field>, key: Text, rest: Text)
    requires forall i :: 0 <= i < |fields| ==> Supported(fields[i].value)
    requires key in Keys(fields)
    requires rest != [] && !IsDigit(rest[0])
    ensures ReadField(PrintField(fields, key) + rest) == Some((NormalField(fields, key), rest))
    decreases fields, 0
  {
    var v := Lookup(fields, key);
    var tail := [0x3A] + (Print(v) + rest);
    assert PrintField(fields, key) + rest == Quote(key) + tail;
    ReadQuoted(key, tail);
    assert tail[1..] == Print(v) + rest;
    ReadBack(v, rest);
  }

  lemma ReadFieldsStep(head: Text, f: Field, more: Text)
    requires ReadField(head + more) == Some((f, more)) && more != []
    ensures more[0] == 0x7D ==> ReadFields(head + more) == Some(([f], more[1..]))
    ensures more[0] == 0x2C && ReadFields(more[1..]).Some? ==>
      ReadFields(head + more) == Some(([f] + ReadFields(more[1..]).value.0, ReadFields(more[1..]).value.1))
  {
  }

  lemma PrintFieldsSplit(fields: seq<Field>, keys: seq<Text>, rest: Text) returns (more: Text)
    requires forall i :: 0 <= i < |fields| ==> Supported(fields[i].value)
    requires keys != [] && forall k :: k in keys ==> k in Keys(fields)
    ensures PrintFields(fields, keys) + [0x7D] + rest == PrintField(fields, keys[0]) + more
    ensures more != []
    ensures |keys| == 1 ==> more[0] == 0x7D && more[1..] == rest
    ensures |keys| > 1 ==> more[0] == 0x2C && more[1..] == PrintFields(fields, keys[1..]) + [0x7D] + rest
  {
    if |keys| == 1 {
      more := [0x7D] + rest;
    } else {
      more := [0x2C] + (PrintFields(fields, keys[1..]) + [0x7D] + rest);
    }
  }

  lemma {:induction false} ReadBackFields(fields: seq<Field>, keys: seq<Text>, rest: Text)
    requires forall i :: 0 <= i < |fields| ==> Supported(fields[i].value)
    requires keys != [] && forall k :: k in keys ==> k in Keys(fields)
    ensures ReadFields(PrintFields(fields, keys) + [0x7D] + rest) == Some((NormalFields(fields, keys), rest))
    decreases fields, 1 + |keys|
  {
    var more := PrintFieldsSplit(fields, keys, rest);
    ReadBackField(fields, keys[0], more);
    if |keys| > 1 {
      ReadBackFields(fields, keys[1..], rest);
    }
    ReadFieldsStep(PrintField(fields, keys[0]), NormalField(fields, keys[0]), more);
    if |keys| == 1 {
      assert NormalFields(fields, keys) == [NormalField(fields, keys[0])];
    }
  }

  // ----- sorted form and structural equality

  lemma {:induction false} NormalItemsAt(items: seq<Value>, i: nat)
    requires i < |items|
    ensures NormalItems(items)[i] == Normal(items[i])
  {
    if i > 0 {
      NormalItemsAt(items[1..], i - 1);
    }
  }

  lemma {:induction false} NormalFieldsAt(fields: seq<Field>, keys: seq<Text>, i: nat)
    requires forall k :: k in keys ==> k in Keys(fields)
    requires i < |keys|
    ensures NormalFields(fields, keys)[i] == NormalField(fields, keys[i])
  {
    if i > 0 {
      NormalFieldsAt(fields, keys[1..], i - 1);
    }
  }

  lemma {:induction false} LookupAt(fields: seq<Field>, i: nat)
    requires Distinct(Keys(fields)) && i < |fields|
    ensures fields[i].key in Keys(fields) && Lookup(fields, fields[i].key) == fields[i].value
  {
    assert Keys(fields)[i] == fields[i].key;
    if i > 0 {
      assert Keys(fields)[0] != Keys(fields)[i];
      assert Keys(fields[1..]) == Keys(fields)[1..];
      LookupAt(fields[1..], i - 1);
    }
  }

  /** Values with the same sorted form are structurally equal. */
  lemma {:induction false} NormalSame(v: Value, w: Value)
    requires WellKeyed(v) && WellKeyed(w) && Normal(v) == Normal(w)
    ensures Same(v, w)
    decreases v, 0
  {
    if v.Array? {
      NormalSameItems(v.items, w.items);
    } else if v.Record? {
      NormalSameFields(v.fields, w.fields);
    }
  }

  lemma {:induction false} NormalSameItems(a: seq<Value>, b: seq<Value>)
    requires forall i :: 0 <= i < |a| ==> WellKeyed(a[i])
    requires forall i :: 0 <= i < |b| ==> WellKeyed(b[i])
    requires NormalItems(a) == NormalItems(b)
    ensures SameItems(a, b)
    decreases a, 0
  {
    assert |a| == |NormalItems(a)| == |b|;
    forall i | 0 <= i < |a| ensures Same(a[i], b[i]) {
      NormalItemsAt(a, i);
      NormalItemsAt(b, i);
      NormalSame(a[i], b[i]);
    }
  }

  lemma {:induction false} NormalSameFields(f: seq<Field>, g: seq<Field>)
    requires WellKeyed(Record(f)) && WellKeyed(Record(g)) && Normal(Record(f)) == Normal(Record(g))
    ensures SameFields(f, g)
    decreases f, 0
  {
    NormalCounterparts(f, g);
    forall i | 0 <= i < |f| ensures f[i].key in Keys(g) && Same(f[i].value, Lookup(g, f[i].key)) {
      NormalSame(f[i].value, Lookup(g, f[i].key));
    }
  }

  lemma LookupWellKeyed(g: seq<Field>, key: Text)
    requires WellKeyed(Record(g)) && key in Keys(g)
    ensures WellKeyed(Lookup(g, key))
  {
  }

  lemma NormalCounterparts(f: seq<Field>, g: seq<Field>)
    requires WellKeyed(Record(f)) && WellKeyed(Record(g)) && Normal(Record(f)) == Normal(Record(g))
    ensures |f| == |g|
    ensures forall i :: 0 <= i < |f| ==>
      f[i].key in Keys(g) && WellKeyed(Lookup(g, f[i].key)) && Normal(f[i].value) == Normal(Lookup(g, f[i].key))
  {
    var keys := Sort(TextLess, Keys(f));
    var keys' := Sort(TextLess, Keys(g));
    SortMembers(TextLess, Keys(f));
    SortMembers(TextLess, Keys(g));
    assert NormalFields(f, keys) == NormalFields(g, keys');
    assert |keys| == |NormalFields(f, keys)| == |keys'|;
    forall i | 0 <= i < |f|
      ensures f[i].key in Keys(g) && WellKeyed(Lookup(g, f[i].key)) && Normal(f[i].value) == Normal(Lookup(g, f[i].key))
    {
      assert Keys(f)[i] in keys;
      var p :| 0 <= p < |keys| && keys[p] == f[i].key;
      NormalFieldsAt(f, keys, p);
      NormalFieldsAt(g, keys', p);
      assert keys'[p] in keys';
      LookupAt(f, i);
      LookupWellKeyed(g, f[i].key);
    }
  }

  /** Structurally equal values have the same sorted form: insertion order is forgotten. */
  lemma {:induction false} SameNormal(v: Value, w: Value)
    requires WellKeyed(v) && WellKeyed(w) && Same(v, w)
    ensures Normal(v) == Normal(w)
    decreases v, 0
  {
    if v.Array? && w.Array? {
      SameNormalItems(v.items, w.items);
    } else if v.Record? && w.Record? {
      SameNormalFields(v.fields, w.fields);
    }
  }

  lemma {:induction false} SameNormalItems(a: seq<Value>, b: seq<Value>)
    requires forall i :: 0 <= i < |a| ==> WellKeyed(a[i])
    requires forall i :: 0 <= i < |b| ==> WellKeyed(b[i])
    requires SameItems(a, b)
    ensures NormalItems(a) == NormalItems(b)
    decreases a, 0
  {
    forall i | 0 <= i < |a| ensures NormalItems(a)[i] == NormalItems(b)[i] {
      NormalItemsAt(a, i);
      NormalItemsAt(b, i);
      SameNormal(a[i], b[i]);
    }
  }

  lemma {:induction false} SameNormalFields(f: seq<Field>, g: seq<Field>)
    requires WellKeyed(Record(f)) && WellKeyed(Record(g)) && SameFields(f, g)
    ensures Normal(Record(f)) == Normal(Record(g))
    decreases f, 0
  {
    SameKeys(f, g);
    var keys := Sort(TextLess, Keys(f));
    SortMembers(TextLess, Keys(f));
    SortMembers(TextLess, Keys(g));
    forall p | 0 <= p < |keys| ensures NormalFields(f, keys)[p] == NormalFields(g, keys)[p] {
      NormalFieldsAt(f, keys, p);
      NormalFieldsAt(g, keys, p);
      assert keys[p] in keys;
      var i :| 0 <= i < |f| && f[i].key == keys[p] && f[i].value == Lookup(f, keys[p]);
      LookupWellKeyed(g, keys[p]);
      SameNormal(f[i].value, Lookup(g, keys[p]));
    }
    assert NormalFields(f, keys) == NormalFields(g, keys);
  }

  /** Equal as maps means the same key set, hence the same sorted key list. */
  lemma SameKeys(f: seq<Field>, g: seq<Field>)
    requires Distinct(Keys(f)) && Distinct(Keys(g)) && SameFields(f, g)
    ensures Sort(TextLess, Keys(f)) == Sort(TextLess, Keys(g))
  {
    var a, b := Keys(f), Keys(g);
    PigeonholeMembers(a, b);
    TextOrder();
    SortAscending(TextLess, a);
    SortAscending(TextLess, b);
    SortMembers(TextLess, a);
    SortMembers(TextLess, b);
    AscendingUnique(TextLess, Sort(TextLess, a), Sort(TextLess, b));
  }

  lemma {:induction false} DistinctCount(s: seq<Text>)
    requires Distinct(s)
    ensures |set x | x in s| == |s|
  {
    if s != [] {
      DistinctCount(s[1..]);
      assert (set x | x in s) == {s[0]} + (set x | x in s[1..]);
    }
  }

  lemma PigeonholeMembers(a: seq<Text>, b: seq<Text>)
    requires Distinct(a) && Distinct(b) && |a| == |b| && forall k :: k in a ==> k in b
    ensures forall k :: k in a <==> k in b
  {
    var sa, sb := set x | x in a, set x | x in b;
    DistinctCount(a);
    DistinctCount(b);
    assert sa <= sb;
    if sa != sb {
      var k :| k in sb && k !in sa;
      assert sa <= sb - {k};
      SubsetSize(sa, sb - {k});
    }
    forall k | k in b ensures k in a {
      assert k in sb && k in sa;
    }
  }

  lemma {:induction false} SubsetSize<T>(a: set<T>, b: set<T>)
    requires a <= b
    ensures |a| <= |b|
    decreases a
  {
    if a != {} {
      var x :| x in a;
      SubsetSize(a - {x}, b - {x});
    }
  }

  // ----- main theorems

  /** Sorting records first changes nothing: the text is a function of the sorted form. */
  lemma {:induction false} PrintOfNormal(v: Value, w: Value)
    requires Supported(v) && Supported(w) && Normal(v) == Normal(w)
    ensures Print(v) == Print(w)
    decreases v, 0
  {
    if v.Array? {
      PrintItemsOfNormal(v.items, w.items);
    } else if v.Record? {
      var f, g := v.fields, w.fields;
      SortMembers(TextLess, Keys(f));
      SortMembers(TextLess, Keys(g));
      PrintFieldsOfNormal(f, Sort(TextLess, Keys(f)), g, Sort(TextLess, Keys(g)));
    }
  }

  lemma {:induction false} PrintItemsOfNormal(a: seq<Value>, b: seq<Value>)
    requires NormalItems(a) == NormalItems(b)
    requires forall i :: 0 <= i < |a| ==> Supported(a[i])
    requires forall i :: 0 <= i < |b| ==> Supported(b[i])
    ensures PrintItems(a) == PrintItems(b)
    decreases a, 0
  {
    assert |a| == |NormalItems(a)| == |b|;
    if a != [] {
      assert NormalItems(a)[0] == NormalItems(b)[0];
      PrintOfNormal(a[0], b[0]);
      if |a| > 1 {
        assert NormalItems(a)[1..] == NormalItems(b)[1..];
        PrintItemsOfNormal(a[1..], b[1..]);
      }
    }
  }

  lemma {:induction false} PrintFieldsOfNormal(f: seq<Field>, keys: seq<Text>, g: seq<Field>, keys': seq<Text>)
    requires forall i :: 0 <= i < |f| ==> Supported(f[i].value)
    requires forall i :: 0 <= i < |g| ==> Supported(g[i].value)
    requires forall k :: k in keys ==> k in Keys(f)
    requires forall k :: k in keys' ==> k in Keys(g)
    requires NormalFields(f, keys) == NormalFields(g, keys')
    ensures PrintFields(f, keys) == PrintFields(g, keys')
    decreases f, |keys|
  {
    assert |keys| == |NormalFields(f, keys)| == |keys'|;
    if keys != [] {
      assert NormalFields(f, keys)[0] == NormalFields(g, keys')[0];
      PrintOfNormal(Lookup(f, keys[0]), Lookup(g, keys'[0]));
      if |keys| > 1 {
        assert NormalFields(f, keys)[1..] == NormalFields(g, keys')[1..];
        PrintFieldsOfNormal(f, keys[1..], g, keys'[1..]);
      }
    }
  }

  /** Canonical text is a complete invariant: equal text exactly when the values are structurally equal. */
  lemma CanonicalTextIff(v: Value, w: Value)
    requires WellKeyed(v) && WellKeyed(w) && Supported(v) && Supported(w)
    ensures Print(v) == Print(w) <==> Same(v, w)
  {
    if Print(v) == Print(w) {
      ReadBack(v, []);
      ReadBack(w, []);
      assert Print(v) + [] == Print(v) && Print(w) + [] == Print(w);
      NormalSame(v, w);
    }
    if Same(v, w) {
      SameNormal(v, w);
      PrintOfNormal(v, w);
    }
  }

  lemma {:induction false} QuoteBodyWellFormed(s: Text)
    ensures Utf8.WellFormed(QuoteBody(s))
  {
    if s == [] {
    } else if Utf8.IsHigh(s[0]) && |s| > 1 && Utf8.IsLow(s[1]) {
      QuoteBodyWellFormed(s[2..]);
      var t := QuoteBody(s);
      assert t[2..] == QuoteBody(s[2..]);
    } else {
      QuoteBodyWellFormed(s[1..]);
      if |QuoteUnit(s[0])| > 1 {
        Utf8.WellFormedPlain(QuoteUnit(s[0]));
      }
      assert QuoteUnit(s[0])[1..] == [] || |QuoteUnit(s[0])| > 1;
      assert Utf8.WellFormed(QuoteUnit(s[0]));
      Utf8.WellFormedConcat(QuoteUnit(s[0]), QuoteBody(s[1..]));
    }
  }

  lemma QuoteWellFormed(s: Text)
    ensures Utf8.WellFormed(Quote(s))
  {
    QuoteBodyWellFormed(s);
    var quote: Text := [0x22];
    assert Utf8.WellFormed(quote) by { Utf8.WellFormedPlain(quote); }
    Utf8.WellFormedConcat(quote, QuoteBody(s));
    Utf8.WellFormedConcat(quote + QuoteBody(s), quote);
  }

  /** Canonical text never holds a lone surrogate, so encoding it loses nothing. */
  lemma {:induction false} PrintWellFormed(v: Value)
    requires Supported(v)
    ensures Utf8.WellFormed(Print(v))
    decreases v, 0
  {
    match v {
      case Str(s) => QuoteWellFormed(s);
      case Array(items) =>
        ItemsWellFormed(items);
        Bracket(0x5B, PrintItems(items), 0x5D);
      case Record(fields) =>
        SortMembers(TextLess, Keys(fields));
        var keys := Sort(TextLess, Keys(fields));
        FieldsWellFormed(fields, keys);
        Bracket(0x7B, PrintFields(fields, keys), 0x7D);
      case Null => Utf8.WellFormedPlain(Print(v));
      case Bool(_) => Utf8.WellFormedPlain(Print(v));
      case Number(_) => Utf8.WellFormedPlain(Print(v));
    }
  }

  lemma Bracket(open: Unit, t: Text, close: Unit)
    requires open < 0xD800 && close < 0xD800 && Utf8.WellFormed(t)
    ensures Utf8.WellFormed([open] + t + [close])
  {
    Utf8.WellFormedPlain([open]);
    Utf8.WellFormedPlain([close]);
    Utf8.WellFormedConcat([open], t);
    Utf8.WellFormedConcat([open] + t, [close]);
  }

  lemma Joined(a: Text, separator: Unit, b: Text)
    requires separator < 0xD800 && Utf8.WellFormed(a) && Utf8.WellFormed(b)
    ensures Utf8.WellFormed(a + [separator] + b)
  {
    Utf8.WellFormedPlain([separator]);
    Utf8.WellFormedConcat(a, [separator]);
    Utf8.WellFormedConcat(a + [separator], b);
  }

  lemma {:induction false} ItemsWellFormed(items: seq<Value>)
    requires forall i :: 0 <= i < |items| ==> Supported(items[i])
    ensures Utf8.WellFormed(PrintItems(items))
    decreases items, 0
  {
    if items != [] {
      PrintWellFormed(items[0]);
      if |items| > 1 {
        ItemsWellFormed(items[1..]);
        Joined(Print(items[0]), 0x2C, PrintItems(items[1..]));
      }
    }
  }

  lemma {:induction false} FieldsWellFormed(fields: seq<Field>, keys: seq<Text>)
    requires forall i :: 0 <= i < |fields| ==> Supported(fields[i].value)
    requires forall k :: k in keys ==> k in Keys(fields)
    ensures Utf8.WellFormed(PrintFields(fields, keys))
    decreases fields, |keys|
  {
    if keys != [] {
      QuoteWellFormed(keys[0]);
      PrintWellFormed(Lookup(fields, keys[0]));
      Joined(Quote(keys[0]), 0x3A, Print(Lookup(fields, keys[0])));
      if |keys| > 1 {
        FieldsWellFormed(fields, keys[1..]);
        Joined(PrintField(fields, keys[0]), 0x2C, PrintFields(fields, keys[1..]));
      }
    }
  }

  /** Signed, hashed or compared bytes are equal exactly when the values behind them are structurally equal. */
  lemma CanonicalBytesIff(v: Value, w: Value)
    requires WellKeyed(v) && WellKeyed(w) && CanonicalBytes(v).Ok? && CanonicalBytes(w).Ok?
    ensures CanonicalBytes(v) == CanonicalBytes(w) <==> Same(v, w)
  {
    CanonicalTextIff(v, w);
    PrintWellFormed(v);
    PrintWellFormed(w);
    if CanonicalBytes(v) == CanonicalBytes(w) {
      Utf8.EncodeInjective(Print(v), Print(w));
    }
  }

  /** No canonical text is a proper prefix of another value's text, bare numbers aside. */
  lemma PrefixFree(v: Value, w: Value, rest: Text)
    requires Supported(v) && Supported(w) && WellKeyed(v) && WellKeyed(w)
    requires !Extends(v, rest)
    requires Print(v) + rest == Print(w)
    ensures rest == [] && Same(v, w)
  {
    ReadBack(v, rest);
    ReadBack(w, []);
    assert Print(w) + [] == Print(w);
    NormalSame(v, w);
  }
}
