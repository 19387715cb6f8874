/**
 * The pairing-code generator: rejection sampling over batches of random bytes, what it returns, and that it favours
 * no code.
 */
module PairingCode {
  import opened Bytes
  import opened Results

  const PAIRING_CODE_LENGTH := 6
  const BATCHES := 32
  const BATCH_BYTES := 16

  type Digit = x: int | 0 <= x < 10

  datatype PairingError = NotEnoughDigits

  // ----- what a stream of bytes yields

  /** The digits of the bytes below 250, in draw order. */
  function Digits(s: seq<Byte>): seq<Digit> {
    if s == [] then [] else (if s[0] < 250 then [s[0] % 10] else []) + Digits(s[1..])
  }

  function Code(s: seq<Byte>): Outcome<seq<Digit>, PairingError> {
    if |Digits(s)| < PAIRING_CODE_LENGTH then Err(NotEnoughDigits) else Ok(Digits(s)[..PAIRING_CODE_LENGTH])
  }

  function Join(batches: seq<seq<Byte>>): seq<Byte> {
    if batches == [] then [] else batches[0] + Join(batches[1..])
  }

  lemma {:induction false} DigitsAppend(s: seq<Byte>, t: seq<Byte>)
    ensures Digits(s + t) == Digits(s) + Digits(t)
  {
    if s == [] {
      assert s + t == t;
    } else {
      assert (s + t)[1..] == s[1..] + t;
      DigitsAppend(s[1..], t);
      Assoc(if s[0] < 250 then [s[0] % 10] else [], Digits(s[1..]), Digits(t));
    }
  }

  lemma {:induction false} JoinAppend(batches: seq<seq<Byte>>, batch: seq<Byte>)
    ensures Join(batches + [batch]) == Join(batches) + batch
  {
    if batches == [] {
      assert batches + [batch] == [batch];
    } else {
      assert (batches + [batch])[1..] == batches[1..] + [batch];
      JoinAppend(batches[1..], batch);
    }
  }

  lemma {:induction false} JoinSplit(a: seq<seq<Byte>>, b: seq<seq<Byte>>)
    ensures Join(a + b) == Join(a) + Join(b)
  {
    if a == [] {
      assert a + b == b;
    } else {
      assert (a + b)[1..] == a[1..] + b;
      JoinSplit(a[1..], b);
    }
  }

  /** Once a prefix has yielded six digits, the code is settled. */
  lemma CodeSettled(s: seq<Byte>, t: seq<Byte>)
    requires |Digits(s)| == PAIRING_CODE_LENGTH
    ensures Code(s + t) == Ok(Digits(s))
  {
    DigitsAppend(s, t);
    assert (Digits(s) + Digits(t))[..PAIRING_CODE_LENGTH] == Digits(s);
  }

  /** `draws` are the batches the random source would return, one per call. */
  method Generate(draws: seq<seq<Byte>>) returns (result: Outcome<seq<Digit>, PairingError>)
    requires |draws| == BATCHES && forall i :: 0 <= i < BATCHES ==> |draws[i]| == BATCH_BYTES
    ensures result == Code(Join(draws))
  {
    var digits: seq<Digit> := [];
    var batch := 0;
    while batch < BATCHES && |digits| < PAIRING_CODE_LENGTH
      invariant 0 <= batch <= BATCHES
      invariant digits == Digits(Join(draws[..batch])) && |digits| < PAIRING_CODE_LENGTH
    {
      var bytes := draws[batch];
      ghost var before := Join(draws[..batch]);
      assert draws[..batch + 1] == draws[..batch] + [bytes];
      JoinAppend(draws[..batch], bytes);
      var i := 0;
      assert before + bytes[..0] == before;
      while i < |bytes|
        invariant 0 <= i <= |bytes|
        invariant digits == Digits(before + bytes[..i]) && |digits| < PAIRING_CODE_LENGTH
      {
        ghost var seen := before + bytes[..i];
        assert before + bytes[..i + 1] == seen + [bytes[i]];
        DigitsAppend(seen, [bytes[i]]);
        if bytes[i] < 250 {
          digits := digits + [bytes[i] % 10];
        }
        assert digits == Digits(seen + [bytes[i]]);
        if |digits| == PAIRING_CODE_LENGTH {
          ghost var later := bytes[i + 1..] + Join(draws[batch + 1..]);
          CodeSettled(seen + [bytes[i]], later);
          JoinSplit(draws[..batch], draws[batch..]);
          assert draws[..batch] + draws[batch..] == draws;
          assert bytes == bytes[..i + 1] + bytes[i + 1..];
          assert Join(draws) == seen + [bytes[i]] + later;
          return Ok(digits);
        }
        i := i + 1;
      }
      assert bytes[..|bytes|] == bytes;
      batch := batch + 1;
    }
    assert draws[..BATCHES] == draws;
    return Err(NotEnoughDigits);
  }

  // ----- counting

  /** All byte strings of length n. */
  ghost function Streams(n: nat): set<seq<Byte>> {
    if n == 0 then {[]} else set b: Byte, s | 0 <= b < 0x100 && s in Streams(n - 1) :: [b] + s
  }

  /** The stream's first accepted bytes spell the code. */
  predicate Spells(s: seq<Byte>, code: seq<Digit>) {
    code == [] ||
    (s != [] && if s[0] >= 250 then Spells(s[1..], code) else s[0] % 10 == code[0] && Spells(s[1..], code[1..]))
  }

  lemma {:induction false} SpellsIff(s: seq<Byte>, code: seq<Digit>)
    ensures Spells(s, code) <==> code <= Digits(s)
  {
    if code != [] && s != [] {
      if s[0] >= 250 {
        SpellsIff(s[1..], code);
        assert [] + Digits(s[1..]) == Digits(s[1..]);
      } else {
        SpellsIff(s[1..], code[1..]);
        assert Digits(s)[1..] == Digits(s[1..]);
        assert code == [code[0]] + code[1..];
        assert Digits(s) == [Digits(s)[0]] + Digits(s)[1..];
      }
    }
  }

  /** The streams of length n from which the generator makes this code. */
  ghost function Spelling(n: nat, code: seq<Digit>): set<seq<Byte>> {
    set s | s in Streams(n) && Spells(s, code)
  }

  /** How many they are: it depends on the length of the code alone. */
  function Weight(n: nat, length: nat): nat {
    if length == 0 then Pow256(n)
    else if n == 0 then 0
    else 6 * Weight(n - 1, length) + 25 * Weight(n - 1, length - 1)
  }

  function Pow25(n: nat): nat { if n == 0 then 1 else 25 * Pow25(n - 1) }

  lemma {:induction false} StreamsMembers(n: nat, s: seq<Byte>)
    ensures s in Streams(n) <==> |s| == n
  {
    if n > 0 {
      if |s| == n {
        StreamsMembers(n - 1, s[1..]);
        assert s == [s[0]] + s[1..];
      }
      if s in Streams(n) {
        var b: Byte, t :| 0 <= b < 0x100 && t in Streams(n - 1) && s == [b] + t;
        StreamsMembers(n - 1, t);
      }
    }
  }

  /** What is still to be spelled after a first byte. */
  function After(b: Byte, code: seq<Digit>): Option<seq<Digit>> {
    if code == [] || b >= 250 then Some(code)
    else if b % 10 == code[0] then Some(code[1..])
    else None
  }

  ghost function Shifted(b: Byte, streams: set<seq<Byte>>): set<seq<Byte>> { set s | s in streams :: [b] + s }

  lemma {:induction false} ShiftedSize(b: Byte, streams: set<seq<Byte>>)
    ensures |Shifted(b, streams)| == |streams|
  {
    if streams != {} {
      var s :| s in streams;
      ShiftedSize(b, streams - {s});
      assert Shifted(b, streams) == Shifted(b, streams - {s}) + {[b] + s};
      assert [b] + s !in Shifted(b, streams - {s}) by {
        forall t | t in streams - {s} ensures [b] + t != [b] + s {
          assert ([b] + t)[1..] == t && ([b] + s)[1..] == s;
        }
      }
    }
  }

  /** The streams of length n + 1 that spell the code and begin below k. */
  ghost function Below(n: nat, code: seq<Digit>, k: nat): set<seq<Byte>> {
    set s | s in Streams(n + 1) && Spells(s, code) && s != [] && s[0] < k
  }

  ghost function Beginning(n: nat, code: seq<Digit>, b: Byte): set<seq<Byte>> {
    if After(b, code).Some? then Shifted(b, Spelling(n, After(b, code).value)) else {}
  }

  lemma SpellsAfter(b: Byte, s: seq<Byte>, code: seq<Digit>)
    ensures Spells([b] + s, code) <==> After(b, code).Some? && Spells(s, After(b, code).value)
  {
    assert ([b] + s)[1..] == s;
  }

  lemma BelowMore(n: nat, code: seq<Digit>, k: nat)
    requires k < 0x100
    ensures Below(n, code, k + 1) == Below(n, code, k) + Beginning(n, code, k)
    ensures Below(n, code, k) !! Beginning(n, code, k)
  {
    var b: Byte := k;
    forall s ensures s in Below(n, code, k + 1) <==> s in Below(n, code, k) || s in Beginning(n, code, k) {
      StreamsMembers(n + 1, s);
      if s != [] && s[0] == k {
        assert s == [s[0]] + s[1..];
        StreamsMembers(n, s[1..]);
        SpellsAfter(k, s[1..], code);
      }
      if s in Beginning(n, code, k) {
        var t :| t in Spelling(n, After(k, code).value) && s == [b] + t;
        StreamsMembers(n, t);
        SpellsAfter(b, t, code);
      }
    }
    forall s | s in Beginning(n, code, k) ensures s !in Below(n, code, k) {}
  }

  /** The weights of all first bytes below k. */
  function Tally(n: nat, code: seq<Digit>, k: nat): nat
    requires k <= 0x100
  {
    if k == 0 then 0
    else Tally(n, code, k - 1) + if After(k - 1, code).Some? then Weight(n, |After(k - 1, code).value|) else 0
  }

  lemma {:induction false} BelowSize(n: nat, code: seq<Digit>, k: nat)
    requires k <= 0x100
    ensures |Below(n, code, k)| == Tally(n, code, k)
    decreases n, 1, k
  {
    if k == 0 {
      assert Below(n, code, 0) == {};
    } else {
      BelowSize(n, code, k - 1);
      BelowMore(n, code, k - 1);
      if After(k - 1, code).Some? {
        SpellingSize(n, After(k - 1, code).value);
      }
      BeginningSize(n, code, k - 1);
      DisjointSize(Below(n, code, k - 1), Beginning(n, code, k - 1));
    }
  }

  lemma BeginningSize(n: nat, code: seq<Digit>, b: Byte)
    ensures |Beginning(n, code, b)| == if After(b, code).Some? then |Spelling(n, After(b, code).value)| else 0
  {
    if After(b, code).Some? {
      ShiftedSize(b, Spelling(n, After(b, code).value));
    }
  }

  lemma DisjointSize<T>(a: set<T>, b: set<T>)
    requires a !! b
    ensures |a + b| == |a| + |b|
  {
  }

  /** Each digit is the last one of one byte in ten below 250. */
  lemma {:induction false} TallyTens(n: nat, code: seq<Digit>, tens: nat)
    requires code != [] && tens <= 25
    ensures Tally(n, code, 10 * tens) == tens * Weight(n, |code| - 1)
  {
    if tens > 0 {
      TallyTens(n, code, tens - 1);
      var k, w := 10 * (tens - 1), Weight(n, |code| - 1);
      var d := code[0];
      TallyRange(n, code, k, d);
      assert tens * w == (tens - 1) * w + w;
    }
  }

  lemma TallyStep(n: nat, code: seq<Digit>, k: nat)
    requires code != [] && k < 250
    ensures Tally(n, code, k + 1) == Tally(n, code, k) + if k % 10 == code[0] then Weight(n, |code| - 1) else 0
  {
  }

  /** Ten bytes in a row end in each digit once. */
  lemma TallyRange(n: nat, code: seq<Digit>, k: nat, d: Digit)
    requires code != [] && d == code[0] && k % 10 == 0 && k + 10 <= 250
    ensures Tally(n, code, k + 10) == Tally(n, code, k) + Weight(n, |code| - 1)
  {
    var i := 0;
    while i < 10
      invariant 0 <= i <= 10
      invariant Tally(n, code, k + i) == Tally(n, code, k) + if i > d then Weight(n, |code| - 1) else 0
    {
      TallyStep(n, code, k + i);
      assert (k + i) % 10 == i;
      i := i + 1;
    }
  }

  lemma {:induction false} TallyAny(n: nat, k: nat)
    requires k <= 0x100
    ensures Tally(n, [], k) == k * Pow256(n)
  {
    if k > 0 {
      TallyAny(n, k - 1);
      assert k * Pow256(n) == (k - 1) * Pow256(n) + Pow256(n);
    }
  }

  lemma TallyAll(n: nat, code: seq<Digit>)
    ensures Tally(n, code, 0x100) == Weight(n + 1, |code|)
  {
    if code == [] {
      TallyAny(n, 0x100);
    } else {
      TallyTens(n, code, 25);
      TallyRejected(n, code);
    }
  }

  lemma RejectedStep(n: nat, code: seq<Digit>, k: nat)
    requires code != [] && 250 <= k < 0x100
    ensures Tally(n, code, k + 1) == Tally(n, code, k) + Weight(n, |code|)
  {
  }

  lemma TallyRejected(n: nat, code: seq<Digit>)
    requires code != []
    ensures Tally(n, code, 0x100) == Tally(n, code, 250) + 6 * Weight(n, |code|)
  {
    RejectedStep(n, code, 250);
    RejectedStep(n, code, 251);
    RejectedStep(n, code, 252);
    RejectedStep(n, code, 253);
    RejectedStep(n, code, 254);
    RejectedStep(n, code, 255);
  }

  /** The number of streams of length n that spell a code. */
  lemma {:induction false} SpellingSize(n: nat, code: seq<Digit>)
    ensures |Spelling(n, code)| == Weight(n, |code|)
    decreases n, 0
  {
    if n == 0 {
      if code == [] {
        assert Spelling(0, code) == {[]};
      } else {
        assert Spelling(0, code) == {};
      }
    } else {
      BelowSize(n - 1, code, 0x100);
      TallyAll(n - 1, code);
      forall s ensures s in Spelling(n, code) <==> s in Below(n - 1, code, 0x100) {
        StreamsMembers(n, s);
      }
      assert Spelling(n, code) == Below(n - 1, code, 0x100);
    }
  }

  /** The streams of a given length from which the generator returns a given code. */
  ghost function Yielding(n: nat, code: seq<Digit>): set<seq<Byte>> {
    set s | s in Streams(n) && Code(s) == Ok(code)
  }

  lemma YieldingSpells(n: nat, code: seq<Digit>)
    requires |code| == PAIRING_CODE_LENGTH
    ensures Yielding(n, code) == Spelling(n, code)
  {
    forall s | s in Streams(n) ensures Code(s) == Ok(code) <==> Spells(s, code) {
      SpellsIff(s, code);
      PrefixIs(code, Digits(s));
    }
  }

  lemma PrefixIs(code: seq<Digit>, digits: seq<Digit>)
    requires |code| == PAIRING_CODE_LENGTH
    ensures code <= digits <==> |digits| >= PAIRING_CODE_LENGTH && digits[..PAIRING_CODE_LENGTH] == code
  {
  }

  /** No code is favoured: each is returned for equally many of the 512-byte draws, or draws of any length. */
  lemma Unbiased(n: nat, a: seq<Digit>, b: seq<Digit>)
    requires |a| == |b| == PAIRING_CODE_LENGTH
    ensures |Yielding(n, a)| == |Yielding(n, b)| == Weight(n, PAIRING_CODE_LENGTH)
  {
    YieldingSpells(n, a);
    YieldingSpells(n, b);
    SpellingSize(n, a);
    SpellingSize(n, b);
  }

  lemma {:induction false} WeightTight(n: nat, length: nat)
    requires n <= length
    ensures Weight(n, length) == if n == length then Pow25(n) else 0
  {
    if n > 0 {
      WeightTight(n - 1, length);
      WeightTight(n - 1, length - 1);
    }
  }

  /** Every code of n digits has exactly 25^n byte strings of length n that are accepted throughout and spell it. */
  lemma AcceptedStrings(code: seq<Digit>)
    ensures |Spelling(|code|, code)| == Pow25(|code|)
    ensures forall s :: s in Spelling(|code|, code) <==> |s| == |code| && Digits(s) == code
  {
    SpellingSize(|code|, code);
    WeightTight(|code|, |code|);
    forall s ensures s in Spelling(|code|, code) <==> |s| == |code| && Digits(s) == code {
      StreamsMembers(|code|, s);
      SpellsIff(s, code);
      DigitsBound(s);
    }
  }

  lemma {:induction false} DigitsBound(s: seq<Byte>)
    ensures |Digits(s)| <= |s|
  {
    if s != [] {
      DigitsBound(s[1..]);
    }
  }
}
