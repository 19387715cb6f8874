/** The TextEncoder/TextDecoder pair on UTF-16 strings: lone surrogates become U+FFFD, all else is exact. */
module Utf8 {
  import opened Bytes

  predicate IsHigh(u: Unit) { 0xD800 <= u < 0xDC00 }

  predicate IsLow(u: Unit) { 0xDC00 <= u < 0xE000 }

  /** No lone surrogate anywhere. */
  predicate WellFormed(s: Text) {
    if s == [] then true
    else if IsHigh(s[0]) then |s| > 1 && IsLow(s[1]) && WellFormed(s[2..])
    else !IsLow(s[0]) && WellFormed(s[1..])
  }

  function EncodeUnit(u: Unit): (r: seq<Byte>)
    ensures 1 <= |r| <= 3
  {
    if u < 0x80 then [u]
    else if u < 0x800 then [0xC0 + u / 0x40, 0x80 + u % 0x40]
    else [0xE0 + u / 0x1000, 0x80 + u / 0x40 % 0x40, 0x80 + u % 0x40]
  }

  function PairCode(high: Unit, low: Unit): (n: nat)
    requires IsHigh(high) && IsLow(low)
    ensures 0x1_0000 <= n < 0x11_0000
  {
    0x1_0000 + (high - 0xD800) * 0x400 + (low - 0xDC00)
  }

  function PairUnits(n: nat): (t: Text)
    ensures |t| == 2
  {
    [(0xD800 + (n - 0x1_0000) / 0x400) % 0x1_0000, (0xDC00 + n % 0x400) % 0x1_0000]
  }

  function EncodeFour(n: nat): (r: seq<Byte>)
    requires n < 0x20_0000
    ensures |r| == 4
  {
    [0xF0 + n / 0x4_0000, 0x80 + n / 0x1000 % 0x40, 0x80 + n / 0x40 % 0x40, 0x80 + n % 0x40]
  }

  function Encode(s: Text): seq<Byte> {
    if s == [] then []
    else if IsHigh(s[0]) && |s| > 1 && IsLow(s[1]) then EncodeFour(PairCode(s[0], s[1])) + Encode(s[2..])
    else if IsHigh(s[0]) || IsLow(s[0]) then [0xEF, 0xBF, 0xBD] + Encode(s[1..])
    else EncodeUnit(s[0]) + Encode(s[1..])
  }

  function Units(code: int): (t: Text)
    requires 0 <= code < 0x1_0000
    ensures t == [code]
  {
    [code]
  }

  /** One code point off the front of a byte string: its units, and the bytes it took. */
  function DecodeOne(b: seq<Byte>): (r: (Text, nat))
    requires b != []
    ensures 0 < r.1 <= |b|
  {
    var first: int := b[0];
    if first < 0x80 then (Units(first), 1)
    else if 0xC0 <= first < 0xE0 && |b| >= 2 then
      var second: int := b[1];
      (Units(((first - 0xC0) * 0x40 + second % 0x40) % 0x1_0000), 2)
    else if 0xE0 <= first < 0xF0 && |b| >= 3 then
      var second: int, third: int := b[1], b[2];
      (Units(((first - 0xE0) * 0x1000 + second % 0x40 * 0x40 + third % 0x40) % 0x1_0000), 3)
    else if 0xF0 <= first < 0xF8 && |b| >= 4 then
      var n := FourByteCode(b[0], b[1], b[2], b[3]);
      (PairUnits(n), 4)
    else (Units(0xFFFD), 1)
  }

  function FourByteCode(a: int, b: int, c: int, d: int): int {
    (a - 0xF0) * 0x4_0000 + b % 0x40 * 0x1000 + c % 0x40 * 0x40 + d % 0x40
  }

  function Decode(b: seq<Byte>): Text {
    if b == [] then [] else
    var (units, used) := DecodeOne(b);
    units + Decode(b[used..])
  }

  lemma DecodeUnit(u: Unit, rest: seq<Byte>)
    ensures DecodeOne(EncodeUnit(u) + rest) == ([u], |EncodeUnit(u)|)
  {
    var b := EncodeUnit(u) + rest;
    if 0x80 <= u < 0x800 {
      assert b[0] == 0xC0 + u / 0x40 && b[1] == 0x80 + u % 0x40;
    } else if u >= 0x800 {
      assert b[0] == 0xE0 + u / 0x1000 && b[1] == 0x80 + u / 0x40 % 0x40 && b[2] == 0x80 + u % 0x40;
      ThreeDigits(u);
    }
  }

  lemma ThreeDigits(u: Unit)
    ensures u / 0x1000 * 0x1000 + u / 0x40 % 0x40 * 0x40 + u % 0x40 == u
  {
    assert u / 0x40 / 0x40 == u / 0x1000;
  }

  lemma FourByteDigits(n: nat)
    requires n < 0x20_0000
    ensures FourByteCode(0xF0 + n / 0x4_0000, 0x80 + n / 0x1000 % 0x40, 0x80 + n / 0x40 % 0x40, 0x80 + n % 0x40) == n
  {
    var q := n / 0x40;
    var r := q / 0x40;
    assert n == q * 0x40 + n % 0x40 && q == r * 0x40 + q % 0x40 && r == r / 0x40 * 0x40 + r % 0x40;
    assert n / 0x1000 == r && n / 0x4_0000 == r / 0x40;
    assert (0x80 + r % 0x40) % 0x40 == r % 0x40;
    assert (0x80 + q % 0x40) % 0x40 == q % 0x40;
    assert (0x80 + n % 0x40) % 0x40 == n % 0x40;
  }

  lemma PairUnitsOfCode(high: Unit, low: Unit)
    requires IsHigh(high) && IsLow(low)
    ensures PairUnits(PairCode(high, low)) == [high, low]
  {
    var h: int, l: int := high - 0xD800, low - 0xDC00;
    assert 0x1_0000 + h * 0x400 + l == (0x40 + h) * 0x400 + l;
    assert (h * 0x400 + l) / 0x400 == h;
  }

  lemma DecodeFour(n: nat, rest: seq<Byte>)
    requires n < 0x20_0000
    ensures DecodeOne(EncodeFour(n) + rest) == (PairUnits(n), 4)
  {
    var head := EncodeFour(n);
    var t := head + rest;
    assert t[0] == head[0] && t[1] == head[1] && t[2] == head[2] && t[3] == head[3];
    FourByteDigits(n);
  }

  lemma {:induction false} DecodeEncode(s: Text)
    requires WellFormed(s)
    ensures Decode(Encode(s)) == s
  {
    if s == [] {
    } else if IsHigh(s[0]) {
      var code := PairCode(s[0], s[1]);
      DecodeFour(code, Encode(s[2..]));
      PairUnitsOfCode(s[0], s[1]);
      DecodeEncode(s[2..]);
      assert Encode(s)[4..] == Encode(s[2..]);
      assert s == [s[0], s[1]] + s[2..];
    } else {
      var unit := EncodeUnit(s[0]);
      DecodeUnit(s[0], Encode(s[1..]));
      DecodeEncode(s[1..]);
      assert Encode(s)[|unit|..] == Encode(s[1..]);
      assert s == [s[0]] + s[1..];
    }
  }

  /** Two well-formed strings never share an encoding. */
  lemma EncodeInjective(s: Text, t: Text)
    requires WellFormed(s) && WellFormed(t) && Encode(s) == Encode(t)
    ensures s == t
  {
    DecodeEncode(s);
    DecodeEncode(t);
  }

  lemma {:induction false} WellFormedConcat(s: Text, t: Text)
    requires WellFormed(s) && WellFormed(t)
    ensures WellFormed(s + t)
  {
    if s == [] {
      assert s + t == t;
    } else if IsHigh(s[0]) {
      WellFormedConcat(s[2..], t);
      assert (s + t)[2..] == s[2..] + t;
    } else {
      WellFormedConcat(s[1..], t);
      assert (s + t)[1..] == s[1..] + t;
    }
  }

  lemma {:induction false} WellFormedPlain(s: Text)
    requires forall i :: 0 <= i < |s| ==> s[i] < 0xD800
    ensures WellFormed(s)
  {
    if s != [] {
      WellFormedPlain(s[1..]);
    }
  }

  /** A surrogate without its other half. */
  predicate Lone(s: Text, i: nat)
    requires i < |s|
  {
    || (IsHigh(s[i]) && !(i + 1 < |s| && IsLow(s[i + 1])))
    || (IsLow(s[i]) && !(i > 0 && IsHigh(s[i - 1])))
  }

  /** The string with U+FFFD in place of every lone surrogate. */
  function Repaired(s: Text): (r: Text)
    ensures |r| == |s|
  {
    seq(|s|, i requires 0 <= i < |s| => if Lone(s, i) then 0xFFFD else s[i])
  }

  lemma RepairedPair(s: Text)
    requires |s| > 1 && IsHigh(s[0]) && IsLow(s[1])
    ensures Repaired(s) == [s[0], s[1]] + Repaired(s[2..])
  {
    var more := s[2..];
    forall i | 0 <= i < |more| ensures Lone(s, i + 2) == Lone(more, i) {
      assert more[i] == s[i + 2];
    }
  }

  lemma RepairedUnit(s: Text)
    requires s != [] && !(IsHigh(s[0]) && |s| > 1 && IsLow(s[1]))
    ensures Repaired(s) == [if IsHigh(s[0]) || IsLow(s[0]) then 0xFFFD else s[0]] + Repaired(s[1..])
  {
    var more := s[1..];
    forall i | 0 <= i < |more| ensures Lone(s, i + 1) == Lone(more, i) {
      assert more[i] == s[i + 1];
    }
  }

  /** Encoding loses exactly the lone surrogates, of any string: what decodes is the string with them replaced. */
  lemma {:induction false} DecodesRepaired(s: Text)
    ensures Decode(Encode(s)) == Repaired(s)
  {
    if s == [] {
    } else if IsHigh(s[0]) && |s| > 1 && IsLow(s[1]) {
      DecodeFour(PairCode(s[0], s[1]), Encode(s[2..]));
      PairUnitsOfCode(s[0], s[1]);
      DecodesRepaired(s[2..]);
      RepairedPair(s);
      assert Encode(s)[4..] == Encode(s[2..]);
    } else {
      var u: Unit := if IsHigh(s[0]) || IsLow(s[0]) then 0xFFFD else s[0];
      assert EncodeUnit(0xFFFD) == [0xEF, 0xBF, 0xBD];
      DecodeUnit(u, Encode(s[1..]));
      DecodesRepaired(s[1..]);
      RepairedUnit(s);
      assert Encode(s) == EncodeUnit(u) + Encode(s[1..]);
      assert Encode(s)[|EncodeUnit(u)|..] == Encode(s[1..]);
    }
  }

  predicate Tail(b: Byte) { 0x80 <= b <= 0xBF }

  /** UTF8-octets in the syntax of section 4 of RFC 3629: no overlong forms, no surrogates, nothing above U+10FFFF. */
  predicate Octets(b: seq<Byte>) {
    if b == [] then true
    else if b[0] <= 0x7F then Octets(b[1..])
    else if 0xC2 <= b[0] <= 0xDF then |b| >= 2 && Tail(b[1]) && Octets(b[2..])
    else if 0xE0 <= b[0] <= 0xEF then
      && |b| >= 3 && Tail(b[1]) && Tail(b[2]) && Octets(b[3..])
      && (b[0] == 0xE0 ==> b[1] >= 0xA0) && (b[0] == 0xED ==> b[1] <= 0x9F)
    else
      && 0xF0 <= b[0] <= 0xF4 && |b| >= 4 && Tail(b[1]) && Tail(b[2]) && Tail(b[3]) && Octets(b[4..])
      && (b[0] == 0xF0 ==> b[1] >= 0x90) && (b[0] == 0xF4 ==> b[1] <= 0x8F)
  }

  lemma UnitOctets(u: Unit, rest: seq<Byte>)
    requires !(0xD800 <= u <= 0xDFFF) && Octets(rest)
    ensures Octets(EncodeUnit(u) + rest)
  {
    var b := EncodeUnit(u) + rest;
    assert b[|EncodeUnit(u)|..] == rest;
    assert u / 0x40 / 0x40 == u / 0x1000;
  }

  lemma PairOctets(high: Unit, low: Unit, rest: seq<Byte>)
    requires IsHigh(high) && IsLow(low) && Octets(rest)
    ensures Octets(EncodeFour(PairCode(high, low)) + rest)
  {
    var n := PairCode(high, low);
    var b := EncodeFour(n) + rest;
    assert b[4..] == rest;
    assert n / 0x1000 / 0x40 == n / 0x4_0000;
    assert n / 0x1000 >= 0x10 && n / 0x1000 < 0x110;
  }

  /** Whatever the string, its encoding is well-formed UTF-8. */
  lemma {:induction false} EncodesToOctets(s: Text)
    ensures Octets(Encode(s))
  {
    if s == [] {
    } else if IsHigh(s[0]) && |s| > 1 && IsLow(s[1]) {
      EncodesToOctets(s[2..]);
      PairOctets(s[0], s[1], Encode(s[2..]));
    } else {
      EncodesToOctets(s[1..]);
      assert EncodeUnit(0xFFFD) == [0xEF, 0xBF, 0xBD];
      UnitOctets(if IsHigh(s[0]) || IsLow(s[0]) then 0xFFFD else s[0], Encode(s[1..]));
    }
  }
}
