/** Unpadded base64url, as Buffer.toString("base64url") writes it, and its injectivity. */
module Base64Url {
  import opened Bytes
  import opened Results

  function Digit(n: int): (u: Unit)
    requires 0 <= n < 64
  {
    if n < 26 then 0x41 + n
    else if n < 52 then 0x61 + (n - 26)
    else if n < 62 then 0x30 + (n - 52)
    else if n == 62 then 0x2D
    else 0x5F
  }

  predicate IsDigit(u: Unit) {
    0x41 <= u <= 0x5A || 0x61 <= u <= 0x7A || 0x30 <= u <= 0x39 || u == 0x2D || u == 0x5F
  }

  function Triple(a: Byte, b: Byte, c: Byte): (t: Text)
    ensures |t| == 4
  {
    [Digit(a / 4), Digit(a % 4 * 16 + b / 16), Digit(b % 16 * 4 + c / 64), Digit(c % 64)]
  }

  function Double(a: Byte, b: Byte): (t: Text)
    ensures |t| == 3
  {
    [Digit(a / 4), Digit(a % 4 * 16 + b / 16), Digit(b % 16 * 4)]
  }

  function Single(a: Byte): (t: Text)
    ensures |t| == 2
  {
    [Digit(a / 4), Digit(a % 4 * 16)]
  }

  function ToBase64Url(s: seq<Byte>): (t: Text)
    ensures |t| == 0 <==> |s| == 0
    ensures forall i :: 0 <= i < |t| ==> IsDigit(t[i])
  {
    if s == [] then []
    else if |s| == 1 then Single(s[0])
    else if |s| == 2 then Double(s[0], s[1])
    else Triple(s[0], s[1], s[2]) + ToBase64Url(s[3..])
  }

  /** base64Url() of the source: a non-empty run of at most 8192 digits. */
  predicate IsBase64Url(t: Text) {
    0 < |t| <= 8192 && forall i :: 0 <= i < |t| ==> IsDigit(t[i])
  }

  lemma DigitInjective(m: int, n: int)
    requires 0 <= m < 64 && 0 <= n < 64 && Digit(m) == Digit(n)
    ensures m == n
  {
  }

  lemma TripleInjective(a: Byte, b: Byte, c: Byte, a': Byte, b': Byte, c': Byte)
    requires Triple(a, b, c) == Triple(a', b', c')
    ensures a == a' && b == b' && c == c'
  {
    var t, t' := Triple(a, b, c), Triple(a', b', c');
    assert t[0] == t'[0] && t[1] == t'[1] && t[2] == t'[2] && t[3] == t'[3];
    DigitInjective(a / 4, a' / 4);
    DigitInjective(a % 4 * 16 + b / 16, a' % 4 * 16 + b' / 16);
    DigitInjective(b % 16 * 4 + c / 64, b' % 16 * 4 + c' / 64);
    DigitInjective(c % 64, c' % 64);
  }

  lemma DoubleInjective(a: Byte, b: Byte, a': Byte, b': Byte)
    requires Double(a, b) == Double(a', b')
    ensures a == a' && b == b'
  {
    var t, t' := Double(a, b), Double(a', b');
    assert t[0] == t'[0] && t[1] == t'[1] && t[2] == t'[2];
    DigitInjective(a / 4, a' / 4);
    DigitInjective(a % 4 * 16 + b / 16, a' % 4 * 16 + b' / 16);
    DigitInjective(b % 16 * 4, b' % 16 * 4);
  }

  lemma SingleInjective(a: Byte, a': Byte)
    requires Single(a) == Single(a')
    ensures a == a'
  {
    assert Single(a)[0] == Single(a')[0] && Single(a)[1] == Single(a')[1];
    DigitInjective(a / 4, a' / 4);
    DigitInjective(a % 4 * 16, a' % 4 * 16);
  }

  lemma TextLength(s: seq<Byte>)
    ensures |s| == 1 ==> |ToBase64Url(s)| == 2
    ensures |s| == 2 ==> |ToBase64Url(s)| == 3
    ensures |s| >= 3 ==> |ToBase64Url(s)| >= 4
  {
  }

  lemma {:induction false} ToBase64UrlInjective(s: seq<Byte>, t: seq<Byte>)
    requires ToBase64Url(s) == ToBase64Url(t)
    ensures s == t
  {
    TextLength(s);
    TextLength(t);
    if |s| >= 3 {
      LongInjective(s, t);
      ToBase64UrlInjective(s[3..], t[3..]);
      assert s == [s[0], s[1], s[2]] + s[3..] && t == [t[0], t[1], t[2]] + t[3..];
    } else if |s| == 2 {
      DoubleInjective(s[0], s[1], t[0], t[1]);
    } else if |s| == 1 {
      SingleInjective(s[0], t[0]);
    }
  }

  lemma LongInjective(s: seq<Byte>, t: seq<Byte>)
    requires |s| >= 3 && |t| >= 3 && ToBase64Url(s) == ToBase64Url(t)
    ensures s[0] == t[0] && s[1] == t[1] && s[2] == t[2] && ToBase64Url(s[3..]) == ToBase64Url(t[3..])
  {
    var head, head' := Triple(s[0], s[1], s[2]), Triple(t[0], t[1], t[2]);
    var tail, tail' := ToBase64Url(s[3..]), ToBase64Url(t[3..]);
    assert (head + tail)[..4] == head && (head' + tail')[..4] == head';
    assert (head + tail)[4..] == tail && (head' + tail')[4..] == tail';
    TripleInjective(s[0], s[1], s[2], t[0], t[1], t[2]);
  }

  // ----- reading it, by the table and groups of RFC 4648

  /** Table 2 of RFC 4648. */
  function DigitValue(u: Unit): Option<int> {
    if 0x41 <= u <= 0x5A then Some(u - 0x41)
    else if 0x61 <= u <= 0x7A then Some(u - 0x61 + 26)
    else if 0x30 <= u <= 0x39 then Some(u - 0x30 + 52)
    else if u == 0x2D then Some(62)
    else if u == 0x5F then Some(63)
    else None
  }

  /** A group of digits as a number, the first digit highest. */
  function GroupValue(t: Text): (r: Option<int>)
    ensures r.Some? ==> r.value >= 0
  {
    if t == [] then Some(0)
    else
      match (GroupValue(t[..|t| - 1]), DigitValue(t[|t| - 1]))
      case (Some(high), Some(low)) => Some(high * 64 + low)
      case _ => None
  }

  /** Four digits are three bytes; at the end three digits are two bytes and two are one, with zero bits left over. */
  function FromBase64Url(t: Text): Option<seq<Byte>> {
    if t == [] then Some([])
    else if |t| == 1 then None
    else
      match GroupValue(t[..if |t| < 4 then |t| else 4])
      case None => None
      case Some(n) =>
        if |t| == 2 then (if n % 16 == 0 then Some([n / 16 % 256]) else None)
        else if |t| == 3 then (if n % 4 == 0 then Some([n / 4 / 256 % 256, n / 4 % 256]) else None)
        else
          match FromBase64Url(t[4..])
          case None => None
          case Some(rest) => Some([n / 65536 % 256, n / 256 % 256, n % 256] + rest)
  }

  lemma DigitReads(d: int)
    requires 0 <= d < 64
    ensures DigitValue(Digit(d)) == Some(d)
  {
  }

  lemma TwoDigits(a: int, b: int)
    requires 0 <= a < 64 && 0 <= b < 64
    ensures GroupValue([Digit(a), Digit(b)]) == Some(a * 64 + b)
  {
    var t := [Digit(a), Digit(b)];
    DigitReads(a);
    DigitReads(b);
    assert t[..1] == [Digit(a)] && [Digit(a)][..0] == [];
    assert GroupValue([Digit(a)]) == Some(a);
  }

  lemma ThreeDigits(a: int, b: int, c: int)
    requires 0 <= a < 64 && 0 <= b < 64 && 0 <= c < 64
    ensures GroupValue([Digit(a), Digit(b), Digit(c)]) == Some((a * 64 + b) * 64 + c)
  {
    TwoDigits(a, b);
    DigitReads(c);
    assert [Digit(a), Digit(b), Digit(c)][..2] == [Digit(a), Digit(b)];
  }

  lemma FourDigits(a: int, b: int, c: int, d: int)
    requires 0 <= a < 64 && 0 <= b < 64 && 0 <= c < 64 && 0 <= d < 64
    ensures GroupValue([Digit(a), Digit(b), Digit(c), Digit(d)]) == Some(((a * 64 + b) * 64 + c) * 64 + d)
  {
    ThreeDigits(a, b, c);
    DigitReads(d);
    assert [Digit(a), Digit(b), Digit(c), Digit(d)][..3] == [Digit(a), Digit(b), Digit(c)];
  }

  lemma SingleValue(a: Byte)
    ensures GroupValue(Single(a)) == Some(a * 16)
  {
    TwoDigits(a / 4, a % 4 * 16);
  }

  lemma DoubleValue(a: Byte, b: Byte)
    ensures GroupValue(Double(a, b)) == Some((a * 256 + b) * 4)
  {
    ThreeDigits(a / 4, a % 4 * 16 + b / 16, b % 16 * 4);
  }

  lemma TripleValue(a: Byte, b: Byte, c: Byte)
    ensures GroupValue(Triple(a, b, c)) == Some((a * 256 + b) * 256 + c)
  {
    FourDigits(a / 4, a % 4 * 16 + b / 16, b % 16 * 4 + c / 64, c % 64);
  }

  lemma BytesOfGroup(a: Byte, b: Byte, c: Byte)
    ensures a * 16 % 16 == 0 && a * 16 / 16 % 256 == a
    ensures var n := (a * 256 + b) * 4; n % 4 == 0 && n / 4 / 256 % 256 == a && n / 4 % 256 == b
    ensures var n := (a * 256 + b) * 256 + c; n / 65536 % 256 == a && n / 256 % 256 == b && n % 256 == c
  {
    var n := (a * 256 + b) * 256 + c;
    assert n / 256 == a * 256 + b;
  }

  lemma SingleReads(a: Byte)
    ensures FromBase64Url(Single(a)) == Some([a])
  {
    SingleValue(a);
    BytesOfGroup(a, 0, 0);
    assert Single(a)[..2] == Single(a);
  }

  lemma DoubleReads(a: Byte, b: Byte)
    ensures FromBase64Url(Double(a, b)) == Some([a, b])
  {
    DoubleValue(a, b);
    BytesOfGroup(a, b, 0);
    assert Double(a, b)[..3] == Double(a, b);
  }

  lemma TripleReads(a: Byte, b: Byte, c: Byte, rest: Text, more: seq<Byte>)
    requires FromBase64Url(rest) == Some(more)
    ensures FromBase64Url(Triple(a, b, c) + rest) == Some([a, b, c] + more)
  {
    TripleValue(a, b, c);
    BytesOfGroup(a, b, c);
    var t := Triple(a, b, c) + rest;
    assert t[..4] == Triple(a, b, c) && t[4..] == rest;
  }

  /** What is written reads back: the text is the base64url of the bytes, without padding, and no other. */
  lemma {:induction false} Base64UrlReads(s: seq<Byte>)
    ensures FromBase64Url(ToBase64Url(s)) == Some(s)
  {
    if |s| == 1 {
      SingleReads(s[0]);
      assert s == [s[0]];
    } else if |s| == 2 {
      DoubleReads(s[0], s[1]);
      assert s == [s[0], s[1]];
    } else if |s| > 2 {
      Base64UrlReads(s[3..]);
      TripleReads(s[0], s[1], s[2], ToBase64Url(s[3..]), s[3..]);
      assert s == [s[0], s[1], s[2]] + s[3..];
    }
  }
}
