/**
 * What normalized domains, access records and upgrades are, spelled out member by member: which inputs are taken and
 * what comes of them, without the normalizer's own steps.
 */
module SessionNormalForm {
  import opened Bytes
  import opened Results
  import opened Sorting
  import opened SessionAccess
  import opened SessionAdmission

  // ----- domains

  /** 1 to 63 letters, digits and hyphens, with no hyphen at either end. */
  predicate NameLabel(l: Text) {
    && 1 <= |l| <= 63 && l[0] != 0x2D && l[|l| - 1] != 0x2D
    && forall i :: 0 <= i < |l| ==> 0x61 <= l[i] <= 0x7A || 0x30 <= l[i] <= 0x39 || l[i] == 0x2D
  }

  ghost predicate Labelled(d: Text) {
    exists labels: seq<Text> :: labels != [] && d == Joined(labels) && forall l :: l in labels ==> NameLabel(l)
  }

  /** The cleaned text may start with "*." and end in a dot; what is between is a host name that stands for itself. */
  ghost predicate Names(host: Host, value: Text, d: Text) {
    && (exists before: Text, after: Text ::
          before in {[], [0x2A, 0x2E]} && after in {[], [0x2E]} && host.clean(value) == before + d + after)
    && |d| <= 253 && host.hostname(d) == Some(d) && Labelled(d)
  }

  lemma ExtendedMember(labels: seq<Text>, u: Unit, l: Text)
    requires labels != [] && l in Extended(labels, u)
    ensures l in labels || l == [] || (u != DOT && l == labels[|labels| - 1] + [u])
  {
  }

  lemma {:induction false} LabelUnits(t: Text, l: Text, u: Unit)
    requires l in Labels(t) && u in l
    ensures u in t && u != DOT
  {
    if t != [] {
      var front, last := t[..|t| - 1], t[|t| - 1];
      var r := Labels(front);
      ExtendedMember(r, last, l);
      assert t == front + [last];
      if l in r {
        LabelUnits(front, l, u);
      } else if u != last {
        assert r[|r| - 1] in r && u in r[|r| - 1];
        LabelUnits(front, r[|r| - 1], u);
      }
    }
  }

  lemma {:induction false} PlainLabel(l: Text)
    requires DOT !in l
    ensures Labels(l) == [l]
  {
    if l != [] {
      PlainLabel(l[..|l| - 1]);
      assert l == l[..|l| - 1] + [l[|l| - 1]];
    }
  }

  lemma {:induction false} LabelsOfJoined(labels: seq<Text>)
    requires labels != [] && forall l :: l in labels ==> DOT !in l
    ensures Labels(Joined(labels)) == labels
  {
    var last := labels[|labels| - 1];
    PlainLabel(last);
    if |labels| == 1 {
      assert labels == [last];
    } else {
      var front := labels[..|labels| - 1];
      LabelsOfJoined(front);
      LabelsApart(Joined(front), last);
      assert labels == front + [last];
    }
  }

  lemma {:induction false} JoinedUnits(labels: seq<Text>)
    requires labels != [] && forall l :: l in labels ==> NameLabel(l)
    ensures Joined(labels) != [] && IsDomainText(Joined(labels))
    ensures Joined(labels)[0] != 0x2A && Joined(labels)[|Joined(labels)| - 1] != DOT
  {
    var last := labels[|labels| - 1];
    assert last in labels && NameLabel(last);
    if |labels| > 1 {
      JoinedUnits(labels[..|labels| - 1]);
    }
  }

  lemma NameLabels(d: Text)
    requires IsDomainText(d) && forall l :: l in Labels(d) ==> IsLabel(l)
    ensures Labelled(d)
  {
    JoinedLabels(d);
    forall l | l in Labels(d) ensures NameLabel(l) {
      forall i | 0 <= i < |l| ensures IsDomainUnit(l[i]) && l[i] != DOT {
        LabelUnits(d, l, l[i]);
      }
    }
  }

  lemma LabelledIff(d: Text)
    ensures Labelled(d) <==> IsDomainText(d) && forall l :: l in Labels(d) ==> IsLabel(l)
    ensures Labelled(d) ==> d != [] && d[0] != 0x2A && d[|d| - 1] != DOT
  {
    if Labelled(d) {
      var labels: seq<Text> :| labels != [] && d == Joined(labels) && forall l :: l in labels ==> NameLabel(l);
      forall l | l in labels ensures DOT !in l {
        assert NameLabel(l);
      }
      LabelsOfJoined(labels);
      JoinedUnits(labels);
      forall l | l in Labels(d) ensures IsLabel(l) {
        assert NameLabel(l);
      }
    }
    if IsDomainText(d) && forall l :: l in Labels(d) ==> IsLabel(l) {
      NameLabels(d);
    }
  }

  lemma StripsTo(clean: Text, d: Text)
    requires d != [] && d[0] != 0x2A && d[|d| - 1] != DOT
    ensures StripDot(StripStar(clean)) == d <==>
      exists before: Text, after: Text ::
        before in {[], [0x2A, 0x2E]} && after in {[], [0x2E]} && clean == before + d + after
  {
    var star, dot: Text := [0x2A, 0x2E], [0x2E];
    if StripDot(StripStar(clean)) == d {
      var inner := StripStar(clean);
      var before := if inner == clean then [] else star;
      var after := if inner == d then [] else dot;
      assert inner == d + after;
      assert clean == before + inner;
      assert clean == before + d + after;
    }
    if before: Text, after: Text :|
      before in {[], [0x2A, 0x2E]} && after in {[], [0x2E]} && clean == before + d + after
    {
      var inner := d + after;
      assert clean == before + inner;
      assert StripStar(clean) == inner;
      assert StripDot(inner) == d;
    }
  }

  /**
   * A domain is taken, as d, exactly if cleaning leaves d but for a leading "*." and a final dot, d has at most 253
   * characters, is a list of labels of letters, digits and inner hyphens joined by dots, and is its own host name.
   */
  lemma DomainIff(host: Host, value: Text, d: Text)
    ensures NormalizeDomain(host, value) == Ok(d) <==> Names(host, value, d)
  {
    LabelledIff(d);
    var raw := StripDot(StripStar(host.clean(value)));
    if Labelled(d) {
      StripsTo(host.clean(value), d);
      assert forall i :: 0 <= i < |d| ==> IsDomainUnit(d[i]);
      assert 0x2F !in d && 0x3A !in d;
    }
  }

  // ----- access and deltas

  predicate Rising(tabIds: seq<int>) { forall i, j :: 0 <= i < j < |tabIds| ==> tabIds[i] < tabIds[j] }

  predicate Alphabetical(names: seq<Text>) { forall i, j :: 0 <= i < j < |names| ==> Precedes(names[i], names[j]) }

  lemma AlphabeticalIff(names: seq<Text>)
    ensures Alphabetical(names) <==> Ascending(TextLess, names)
  {
    forall i, j | 0 <= i < j < |names| ensures TextLess(names[i], names[j]) <==> Precedes(names[i], names[j]) {
      TextLessIff(names[i], names[j]);
    }
  }

  /** At most 64 non-negative tab IDs, listed in rising order. */
  ghost predicate TakenTabs(given: seq<int>, tabIds: seq<int>) {
    && |given| <= 64 && (forall i :: 0 <= i < |given| ==> given[i] >= 0)
    && Rising(tabIds) && forall t :: t in tabIds <==> t in given
  }

  /** At most 64 texts that each name a domain; those domains in alphabetical order. */
  ghost predicate TakenDomains(host: Host, given: seq<Text>, names: seq<Text>) {
    && |given| <= 64 && (forall i :: 0 <= i < |given| ==> NamesSome(host, given[i]))
    && Alphabetical(names) && forall d :: d in names <==> NamedIn(host, given, d)
  }

  ghost predicate NamesSome(host: Host, value: Text) { exists d :: Names(host, value, d) }

  ghost predicate NamedIn(host: Host, given: seq<Text>, d: Text) {
    exists i :: 0 <= i < |given| && Names(host, given[i], d)
  }

  lemma TabsIff(given: seq<int>, tabIds: seq<int>)
    ensures NormalizedTabIds(given) == Ok(tabIds) <==> TakenTabs(given, tabIds)
  {
    IntOrder();
    SortedSet(IntLess, given);
    SortedTabs(given);
    var s := Sort(IntLess, Dedupe(given));
    assert Rising(tabIds) <==> Ascending(IntLess, tabIds);
    if TakenTabs(given, tabIds) {
      assert forall t :: t in s <==> t in tabIds;
      AscendingUnique(IntLess, s, tabIds);
    }
  }

  /** All the texts name domains, and these are the domains, in order. */
  ghost predicate EachNamed(host: Host, given: seq<Text>, names: seq<Text>) {
    |names| == |given| && forall i :: 0 <= i < |given| ==> Names(host, given[i], names[i])
  }

  lemma NamesSomeIff(host: Host, value: Text)
    ensures NormalizeDomain(host, value).Ok? <==> NamesSome(host, value)
    ensures NormalizeDomain(host, value).Ok? ==> Names(host, value, NormalizeDomain(host, value).value)
  {
    forall d ensures NormalizeDomain(host, value) == Ok(d) <==> Names(host, value, d) {
      DomainIff(host, value, d);
    }
    if NormalizeDomain(host, value).Ok? {
      assert Names(host, value, NormalizeDomain(host, value).value);
    }
  }

  lemma {:induction false} NamesOfEach(host: Host, given: seq<Text>)
    ensures NormalizeEach(host, given).Ok? <==> forall i :: 0 <= i < |given| ==> NamesSome(host, given[i])
    ensures NormalizeEach(host, given).Ok? ==> EachNamed(host, given, NormalizeEach(host, given).value)
  {
    if given != [] {
      var rest := given[1..];
      NamesOfEach(host, rest);
      NamesSomeIff(host, given[0]);
      assert forall i :: 0 <= i < |rest| ==> rest[i] == given[i + 1];
      if NamesSome(host, given[0]) && forall i :: 0 <= i < |rest| ==> NamesSome(host, rest[i]) {
        forall i | 0 <= i < |given| ensures NamesSome(host, given[i]) {
          assert i > 0 ==> NamesSome(host, rest[i - 1]);
        }
      }
      if forall i :: 0 <= i < |given| ==> NamesSome(host, given[i]) {
        forall i | 0 <= i < |rest| ensures NamesSome(host, rest[i]) {
          assert NamesSome(host, given[i + 1]);
        }
      }
    }
  }

  lemma NamesOnce(host: Host, value: Text, d: Text, e: Text)
    requires Names(host, value, d) && Names(host, value, e)
    ensures d == e
  {
    DomainIff(host, value, d);
    DomainIff(host, value, e);
  }

  lemma MembersNamed(host: Host, given: seq<Text>, names: seq<Text>, d: Text)
    requires EachNamed(host, given, names)
    ensures d in names <==> NamedIn(host, given, d)
  {
    if d in names {
      var i :| 0 <= i < |names| && names[i] == d;
      assert Names(host, given[i], d);
    }
    if NamedIn(host, given, d) {
      var i :| 0 <= i < |given| && Names(host, given[i], d);
      NamesOnce(host, given[i], d, names[i]);
    }
  }

  lemma DomainsTaken(host: Host, given: seq<Text>)
    requires NormalizedDomains(host, given).Ok?
    ensures TakenDomains(host, given, NormalizedDomains(host, given).value)
  {
    NamesOfEach(host, given);
    var each := NormalizeEach(host, given).value;
    var names := Sort(TextLess, Dedupe(each));
    SortedAlphabetically(each);
    forall d ensures d in names <==> NamedIn(host, given, d) {
      MembersNamed(host, given, each, d);
    }
  }

  lemma SortedAlphabetically(values: seq<Text>)
    ensures var names := Sort(TextLess, Dedupe(values));
      Alphabetical(names) && forall d :: d in names <==> d in values
  {
    TextOrder();
    SortedSet(TextLess, values);
    SortedNames(values);
    AlphabeticalIff(Sort(TextLess, Dedupe(values)));
  }

  lemma SameNames(a: seq<Text>, b: seq<Text>)
    requires Alphabetical(a) && Alphabetical(b) && forall d :: d in a <==> d in b
    ensures a == b
  {
    AlphabeticalIff(a);
    AlphabeticalIff(b);
    TextOrder();
    AscendingUnique(TextLess, a, b);
  }

  lemma DomainsIff(host: Host, given: seq<Text>, names: seq<Text>)
    ensures NormalizedDomains(host, given) == Ok(names) <==> TakenDomains(host, given, names)
  {
    NamesOfEach(host, given);
    if NormalizedDomains(host, given).Ok? {
      DomainsTaken(host, given);
      if TakenDomains(host, given, names) {
        SameNames(NormalizedDomains(host, given).value, names);
      }
    }
  }

  /** Selected tabs have no domains, domain access has some, and full access has neither list. */
  predicate Consistent(a: Access) {
    match a.level
    case SelectedTabs => a.domains == []
    case Domains => a.domains != []
    case Full => a.tabIds == [] && a.domains == []
  }

  /** The normalizer takes exactly inputs with such lists and a level that suits them; without one, selected tabs. */
  lemma AccessIff(host: Host, level: Option<Level>, tabIds: seq<int>, domains: seq<Text>, a: Access)
    ensures NormalizeSessionAccess(host, level, tabIds, domains) == Ok(a) <==>
      && TakenTabs(tabIds, a.tabIds) && TakenDomains(host, domains, a.domains) && Consistent(a)
      && a.level == if level.Some? then level.value else SelectedTabs
  {
    TabsIff(tabIds, a.tabIds);
    DomainsIff(host, domains, a.domains);
  }

  /** A delta names tabs only, or domains only, or nothing for full access. */
  predicate Single(d: Delta) {
    match d.kind
    case TabsKind => d.tabIds != [] && d.domains == []
    case DomainsKind => d.domains != [] && d.tabIds == []
    case FullKind => d.tabIds == [] && d.domains == []
  }

  lemma DeltaIff(host: Host, given: Delta, d: Delta)
    ensures NormalizeSessionAccessDelta(host, given) == Ok(d) <==>
      && TakenTabs(given.tabIds, d.tabIds) && TakenDomains(host, given.domains, d.domains) && Single(d)
      && d.kind == given.kind
  {
    TabsIff(given.tabIds, d.tabIds);
    DomainsIff(host, given.domains, d.domains);
  }

  // ----- upgrades

  /** The tab IDs of both lists, at least one of them new. */
  ghost predicate MoreTabs(before: seq<int>, added: seq<int>, after: seq<int>) {
    && Rising(after) && (forall t :: t in after <==> t in before || t in added)
    && exists t :: t in added && t !in before
  }

  /** The domains of both lists, at least one of them new. */
  ghost predicate MoreDomains(before: seq<Text>, added: seq<Text>, after: seq<Text>) {
    && Alphabetical(after) && (forall t :: t in after <==> t in before || t in added)
    && exists t :: t in added && t !in before
  }

  /** What an upgrade adds to access that is not full: everything, some tabs, or some domains and so the level. */
  ghost predicate Widens(current: Access, d: Delta, u: Access) {
    && !current.level.Full?
    && match d.kind
       case FullKind => u == Access(Full, [], [])
       case TabsKind =>
         u == Access(current.level, u.tabIds, current.domains) && MoreTabs(current.tabIds, d.tabIds, u.tabIds)
       case DomainsKind =>
         u == Access(Domains, current.tabIds, u.domains) && MoreDomains(current.domains, d.domains, u.domains)
  }

  lemma TabsMerged(current: Access, d: Delta, after: seq<int>)
    requires d.kind.TabsKind? && Rising(current.tabIds)
    ensures MergedTabIds(current, d) == after && after != current.tabIds <==>
      MoreTabs(current.tabIds, d.tabIds, after)
  {
    var both := current.tabIds + d.tabIds;
    var s := MergedTabIds(current, d);
    IntOrder();
    SortedSet(IntLess, both);
    assert Rising(s) <==> Ascending(IntLess, s);
    assert Rising(after) <==> Ascending(IntLess, after);
    assert Ascending(IntLess, current.tabIds);
    if MoreTabs(current.tabIds, d.tabIds, after) {
      AscendingUnique(IntLess, s, after);
    }
    if s == after && forall t :: t in d.tabIds ==> t in current.tabIds {
      AscendingUnique(IntLess, s, current.tabIds);
    }
  }

  lemma DomainsMerged(current: Access, d: Delta, after: seq<Text>)
    requires d.kind.DomainsKind? && Ascending(TextLess, current.domains)
    ensures MergedDomains(current, d) == after && after != current.domains <==>
      MoreDomains(current.domains, d.domains, after)
  {
    var both := current.domains + d.domains;
    var s := MergedDomains(current, d);
    TextOrder();
    SortedSet(TextLess, both);
    AlphabeticalIff(s);
    AlphabeticalIff(after);
    if MoreDomains(current.domains, d.domains, after) {
      AscendingUnique(TextLess, s, after);
    }
    if s == after && forall t :: t in d.domains ==> t in current.domains {
      AscendingUnique(TextLess, s, current.domains);
    }
  }

  lemma MergedWidens(host: Host, current: Access, d: Delta, u: Access)
    requires Lawful(host) && IsSessionAccess(host, current) && IsSessionAccessDelta(host, d)
    requires !current.level.Full? && !d.kind.FullKind?
    ensures Merged(current, d) == u && u != current <==> Widens(current, d, u)
  {
    AccessFacts(host, current);
    DeltaFacts(host, d);
    IntOrder();
    TextOrder();
    SortedAlready(IntLess, current.tabIds);
    SortedAlready(TextLess, current.domains);
    assert current.tabIds + [] == current.tabIds && current.domains + [] == current.domains;
    MergedNonEmpty(current.domains + AddedDomains(d));
    if d.kind.TabsKind? {
      TabsMerged(current, d, u.tabIds);
      assert MergedDomains(current, d) == current.domains;
    } else {
      DomainsMerged(current, d, u.domains);
      assert MergedTabIds(current, d) == current.tabIds;
    }
  }

  /**
   * Both sides grant exactly what widens the access: the host as long as the two lists together have at most 64
   * members, repetitions counted, the extension as long as the union has.
   */
  lemma UpgradeIff(host: Host, current: Access, d: Delta, u: Access)
    requires Lawful(host) && IsSessionAccess(host, current) && IsSessionAccessDelta(host, d)
    ensures UpgradeSessionAccess(host, current, d) == Ok(u) <==>
      && Widens(current, d, u)
      && (d.kind.TabsKind? ==> |current.tabIds| + |d.tabIds| <= 64)
      && (d.kind.DomainsKind? ==> |current.domains| + |d.domains| <= 64)
    ensures ExtensionUpgradedAccess(current, d) == Some(u) <==>
      Widens(current, d, u) && |u.tabIds| <= 64 && |u.domains| <= 64
  {
    if !current.level.Full? && !d.kind.FullKind? {
      HostMerge(host, current, d);
      ExtensionMerge(host, current, d);
      MergedWidens(host, current, d, u);
    }
  }
}
