/** Array.prototype.sort and `[...new Set(values)]` over a strict total order. */
module Sorting {
  import opened Bytes

  ghost predicate StrictOrder<T(!new)>(less: (T, T) -> bool) {
    && (forall x :: !less(x, x))
    && (forall x, y :: less(x, y) || x == y || less(y, x))
    && (forall x, y, z :: less(x, y) && less(y, z) ==> less(x, z))
  }

  ghost predicate Ascending<T>(less: (T, T) -> bool, s: seq<T>) {
    forall i, j :: 0 <= i < j < |s| ==> less(s[i], s[j])
  }

  ghost predicate Distinct<T>(s: seq<T>) {
    forall i, j :: 0 <= i < j < |s| ==> s[i] != s[j]
  }

  function Insert<T>(less: (T, T) -> bool, x: T, s: seq<T>): (r: seq<T>)
    ensures |r| == |s| + 1
  {
    if s == [] || !less(s[0], x) then [x] + s else [s[0]] + Insert(less, x, s[1..])
  }

  function Sort<T>(less: (T, T) -> bool, s: seq<T>): (r: seq<T>)
    ensures |r| == |s|
  {
    if s == [] then [] else Insert(less, s[0], Sort(less, s[1..]))
  }

  /** The first occurrences, in order: `[...new Set(s)]`. */
  function Dedupe<T(==)>(s: seq<T>): (r: seq<T>)
    ensures |r| <= |s|
  {
    if s == [] then []
    else
      var r := Dedupe(s[..|s| - 1]);
      if s[|s| - 1] in r then r else r + [s[|s| - 1]]
  }

  lemma {:induction false} InsertMembers<T(!new)>(less: (T, T) -> bool, x: T, s: seq<T>)
    ensures forall y :: y in Insert(less, x, s) <==> y in s || y == x
  {
    if s != [] && less(s[0], x) {
      InsertMembers(less, x, s[1..]);
      assert s == [s[0]] + s[1..];
    }
  }

  lemma {:induction false} SortMembers<T(!new)>(less: (T, T) -> bool, s: seq<T>)
    ensures forall x :: x in Sort(less, s) <==> x in s
  {
    if s != [] {
      SortMembers(less, s[1..]);
      InsertMembers(less, s[0], Sort(less, s[1..]));
      assert s == [s[0]] + s[1..];
    }
  }

  lemma {:induction false} DedupeMembers<T(!new)>(s: seq<T>)
    ensures forall x :: x in Dedupe(s) <==> x in s
    ensures Distinct(Dedupe(s))
  {
    if s != [] {
      DedupeMembers(s[..|s| - 1]);
      assert s == s[..|s| - 1] + [s[|s| - 1]];
    }
  }

  lemma {:induction false} InsertAscending<T(!new)>(less: (T, T) -> bool, x: T, s: seq<T>)
    requires StrictOrder(less) && Ascending(less, s) && x !in s
    ensures Ascending(less, Insert(less, x, s))
  {
    if s == [] || !less(s[0], x) {
      assert s != [] ==> less(x, s[0]);
      var r := [x] + s;
      forall i, j | 0 <= i < j < |r| ensures less(r[i], r[j]) {
        assert r[j] == s[j - 1];
        if i == 0 && j > 1 {
          assert less(s[0], s[j - 1]);
        }
      }
    } else {
      InsertAscending(less, x, s[1..]);
      var t := Insert(less, x, s[1..]);
      InsertMembers(less, x, s[1..]);
      var r := [s[0]] + t;
      forall i, j | 0 <= i < j < |r| ensures less(r[i], r[j]) {
        if i == 0 {
          assert r[j] in t;
        }
      }
    }
  }

  lemma {:induction false} SortAscending<T(!new)>(less: (T, T) -> bool, s: seq<T>)
    requires StrictOrder(less) && Distinct(s)
    ensures Ascending(less, Sort(less, s))
  {
    if s != [] {
      SortAscending(less, s[1..]);
      SortMembers(less, s[1..]);
      InsertAscending(less, s[0], Sort(less, s[1..]));
    }
  }

  /** A strictly ascending list is determined by its members. */
  lemma {:induction false} AscendingUnique<T(!new)>(less: (T, T) -> bool, s: seq<T>, t: seq<T>)
    requires StrictOrder(less) && Ascending(less, s) && Ascending(less, t)
    requires forall x :: x in s <==> x in t
    ensures s == t
  {
    assert t != [] ==> t[0] in s;
    assert s != [] ==> s[0] in t;
    if s != [] {
      assert s[0] in t && t[0] in s;
      assert !less(s[0], t[0]) && !less(t[0], s[0]);
      assert s == [s[0]] + s[1..] && t == [t[0]] + t[1..];
      forall x ensures x in s[1..] <==> x in t[1..] {
        if x in s[1..] {
          var i :| 0 <= i < |s| - 1 && s[1..][i] == x;
          assert less(s[0], s[i + 1]) && x in t;
        }
        if x in t[1..] {
          var i :| 0 <= i < |t| - 1 && t[1..][i] == x;
          assert less(t[0], t[i + 1]) && x in s;
        }
      }
      AscendingUnique(less, s[1..], t[1..]);
    }
  }

  /** Sorting what is already strictly ascending changes nothing. */
  lemma SortIdempotent<T(!new)>(less: (T, T) -> bool, s: seq<T>)
    requires StrictOrder(less) && Ascending(less, s)
    ensures Sort(less, s) == s
  {
    assert Distinct(s);
    SortAscending(less, s);
    SortMembers(less, s);
    AscendingUnique(less, Sort(less, s), s);
  }

  lemma {:induction false} DedupeDistinct<T(!new)>(s: seq<T>)
    requires Distinct(s)
    ensures Dedupe(s) == s
  {
    if s != [] {
      DedupeDistinct(s[..|s| - 1]);
      assert s == s[..|s| - 1] + [s[|s| - 1]];
    }
  }

  /** JavaScript's default string order: by UTF-16 code unit, a prefix before its extensions. */
  predicate TextLess(a: Text, b: Text) {
    if b == [] then false
    else if a == [] then true
    else a[0] < b[0] || (a[0] == b[0] && TextLess(a[1..], b[1..]))
  }

  lemma {:induction false} TextLessTotal(a: Text, b: Text)
    ensures TextLess(a, b) || a == b || TextLess(b, a)
    ensures !(TextLess(a, b) && TextLess(b, a))
    ensures a == b ==> !TextLess(a, b)
  {
    if a != [] && b != [] {
      TextLessTotal(a[1..], b[1..]);
      assert a == [a[0]] + a[1..] && b == [b[0]] + b[1..];
    }
  }

  lemma {:induction false} TextLessTransitive(a: Text, b: Text, c: Text)
    requires TextLess(a, b) && TextLess(b, c)
    ensures TextLess(a, c)
  {
    if a != [] && a[0] == b[0] && b[0] == c[0] {
      TextLessTransitive(a[1..], b[1..], c[1..]);
    }
  }

  lemma TextOrder()
    ensures StrictOrder(TextLess)
  {
    forall x, y
      ensures !TextLess(x, x) && (TextLess(x, y) || x == y || TextLess(y, x))
    {
      TextLessTotal(x, x);
      TextLessTotal(x, y);
    }
    forall x, y, z | TextLess(x, y) && TextLess(y, z) ensures TextLess(x, z) {
      TextLessTransitive(x, y, z);
    }
  }

  /** By UTF-16 code unit at the first difference; a prefix comes before its extensions. */
  predicate Precedes(a: Text, b: Text) {
    exists k :: 0 <= k <= |a| && k <= |b| && a[..k] == b[..k] && k < |b| && (k == |a| || a[k] < b[k])
  }

  lemma {:induction false} TextLessIff(a: Text, b: Text)
    ensures TextLess(a, b) <==> Precedes(a, b)
  {
    if a == [] || b == [] {
      assert a == [] && b != [] ==> a[..0] == b[..0];
    } else {
      TextLessIff(a[1..], b[1..]);
      if a[0] == b[0] && Precedes(a[1..], b[1..]) {
        var k :| 0 <= k <= |a[1..]| && k <= |b[1..]| && a[1..][..k] == b[1..][..k] && k < |b[1..]|
          && (k == |a[1..]| || a[1..][k] < b[1..][k]);
        assert a[..k + 1] == [a[0]] + a[1..][..k] && b[..k + 1] == [b[0]] + b[1..][..k];
      }
      if a[0] < b[0] {
        assert a[..0] == b[..0];
      }
      if Precedes(a, b) && a[0] == b[0] {
        var k :| 0 <= k <= |a| && k <= |b| && a[..k] == b[..k] && k < |b| && (k == |a| || a[k] < b[k]);
        assert a[1..][..k - 1] == a[..k][1..] && b[1..][..k - 1] == b[..k][1..];
      }
      if Precedes(a, b) && a[0] != b[0] {
        var k :| 0 <= k <= |a| && k <= |b| && a[..k] == b[..k] && k < |b| && (k == |a| || a[k] < b[k]);
        assert k > 0 ==> a[..k][0] == b[..k][0];
      }
    }
  }

  predicate IntLess(a: int, b: int) { a < b }

  lemma IntOrder()
    ensures StrictOrder(IntLess)
  {
  }
}
