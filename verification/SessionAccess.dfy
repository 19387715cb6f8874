/**
 * Session access: normalization, the upgrade algebra of the host and of the extension, and what access admits.
 * Trimming, lower-casing and the URL parser's host name stay opaque.
 */
module SessionAccess {
  import opened Bytes
  import opened Results
  import opened Sorting

  const MAX_ACCESS_TAB_IDS := 64
  const MAX_ACCESS_DOMAINS := 64

  datatype Level = SelectedTabs | Domains | Full

  datatype Access = Access(level: Level, tabIds: seq<int>, domains: seq<Text>)

  datatype Kind = TabsKind | DomainsKind | FullKind

  datatype Delta = Delta(kind: Kind, tabIds: seq<int>, domains: seq<Text>)

  datatype AccessError =
    | BadTabIds | TooManyDomains | BadDomain | LevelMismatch | KindMismatch | AlreadyFull | NothingAdded

  /** `clean` trims and lower-cases; `hostname` is what the URL parser makes of https://<text>. */
  datatype Host = Host(clean: Text -> Text, hostname: Text -> Option<Text>)

  predicate IsDomainUnit(u: Unit) {
    0x61 <= u <= 0x7A || 0x30 <= u <= 0x39 || u == 0x2E || u == 0x2D
  }

  predicate IsDomainText(t: Text) {
    forall i :: 0 <= i < |t| ==> IsDomainUnit(t[i])
  }

  /** Text of [a-z0-9.-] has nothing to trim and nothing to lower. */
  ghost predicate Lawful(host: Host) {
    forall t :: IsDomainText(t) ==> host.clean(t) == t
  }

  // ----- normalization

  function NormalizedTabIds(values: seq<int>): Outcome<seq<int>, AccessError> {
    if |values| > MAX_ACCESS_TAB_IDS || exists i :: 0 <= i < |values| && values[i] < 0 then Err(BadTabIds)
    else Ok(Sort(IntLess, Dedupe(values)))
  }

  function StripStar(t: Text): Text {
    if |t| >= 2 && t[0] == 0x2A && t[1] == 0x2E then t[2..] else t
  }

  function StripDot(t: Text): Text {
    if t != [] && t[|t| - 1] == 0x2E then t[..|t| - 1] else t
  }

  /** hostname.split("."). */
  function Labels(t: Text): (r: seq<Text>)
    ensures |r| > 0
  {
    if t == [] then [[]]
    else if t[|t| - 1] == 0x2E then Labels(t[..|t| - 1]) + [[]]
    else
      var r := Labels(t[..|t| - 1]);
      r[..|r| - 1] + [r[|r| - 1] + [t[|t| - 1]]]
  }

  predicate IsLabel(t: Text) {
    0 < |t| <= 63 && t[0] != 0x2D && t[|t| - 1] != 0x2D
  }

  function NormalizeDomain(host: Host, value: Text): Outcome<Text, AccessError> {
    var raw := StripDot(StripStar(host.clean(value)));
    if raw == [] || |raw| > 253 || 0x2F in raw || 0x3A in raw then Err(BadDomain)
    else if host.hostname(raw) != Some(raw) || !IsDomainText(raw) then Err(BadDomain)
    else if exists l :: l in Labels(raw) && !IsLabel(l) then Err(BadDomain)
    else Ok(raw)
  }

  function NormalizeEach(host: Host, values: seq<Text>): (r: Outcome<seq<Text>, AccessError>)
    ensures r.Ok? ==> |r.value| == |values|
  {
    if values == [] then Ok([])
    else
      match NormalizeDomain(host, values[0])
      case Err(e) => Err(e)
      case Ok(first) =>
        match NormalizeEach(host, values[1..])
        case Err(e) => Err(e)
        case Ok(rest) => Ok([first] + rest)
  }

  function NormalizedDomains(host: Host, values: seq<Text>): Outcome<seq<Text>, AccessError> {
    if |values| > MAX_ACCESS_DOMAINS then Err(TooManyDomains)
    else
      match NormalizeEach(host, values)
      case Err(e) => Err(e)
      case Ok(domains) => Ok(Sort(TextLess, Dedupe(domains)))
  }

  predicate LevelFits(level: Level, tabIds: seq<int>, domains: seq<Text>) {
    match level
    case SelectedTabs => domains == []
    case Domains => domains != []
    case Full => tabIds == [] && domains == []
  }

  /** An absent level reads as selected tabs. */
  function NormalizeSessionAccess(host: Host, level: Option<Level>, tabIds: seq<int>, domains: seq<Text>)
    : Outcome<Access, AccessError>
  {
    match (NormalizedTabIds(tabIds), NormalizedDomains(host, domains))
    case (Err(e), _) => Err(e)
    case (_, Err(e)) => Err(e)
    case (Ok(tabs), Ok(names)) =>
      var chosen := if level.Some? then level.value else SelectedTabs;
      if LevelFits(chosen, tabs, names) then Ok(Access(chosen, tabs, names)) else Err(LevelMismatch)
  }

  predicate KindFits(kind: Kind, tabIds: seq<int>, domains: seq<Text>) {
    match kind
    case TabsKind => tabIds != [] && domains == []
    case DomainsKind => domains != [] && tabIds == []
    case FullKind => tabIds == [] && domains == []
  }

  function NormalizeSessionAccessDelta(host: Host, d: Delta): Outcome<Delta, AccessError> {
    match (NormalizedTabIds(d.tabIds), NormalizedDomains(host, d.domains))
    case (Err(e), _) => Err(e)
    case (_, Err(e)) => Err(e)
    case (Ok(tabs), Ok(names)) =>
      if KindFits(d.kind, tabs, names) then Ok(Delta(d.kind, tabs, names)) else Err(KindMismatch)
  }

  /** isSessionAccess: a record that normalizes to itself. */
  predicate IsSessionAccess(host: Host, a: Access) {
    NormalizeSessionAccess(host, Some(a.level), a.tabIds, a.domains) == Ok(a)
  }

  predicate IsSessionAccessDelta(host: Host, d: Delta) {
    NormalizeSessionAccessDelta(host, d) == Ok(d)
  }

  // ----- upgrades

  /** The host's upgradeSessionAccess. */
  function UpgradeSessionAccess(host: Host, current: Access, delta: Delta): Outcome<Access, AccessError> {
    match NormalizeSessionAccessDelta(host, delta)
    case Err(e) => Err(e)
    case Ok(d) =>
      if current.level.Full? then Err(AlreadyFull)
      else if d.kind.FullKind? then Ok(Access(Full, [], []))
      else
        var tabIds := if d.kind.TabsKind? then current.tabIds + d.tabIds else current.tabIds;
        var domains := if d.kind.DomainsKind? then current.domains + d.domains else current.domains;
        match NormalizeSessionAccess(host, Some(if domains != [] then Domains else SelectedTabs), tabIds, domains)
        case Err(e) => Err(e)
        case Ok(upgraded) => if current == upgraded then Err(NothingAdded) else Ok(upgraded)
  }

  predicate LegalTabIds(tabIds: seq<int>) {
    |tabIds| <= 64 && forall i :: 0 <= i < |tabIds| ==> tabIds[i] >= 0
  }

  /** Each domain matches /^[a-z0-9.-]+$/. */
  predicate LegalDomains(domains: seq<Text>) {
    |domains| <= 64 && forall i :: 0 <= i < |domains| ==> domains[i] != [] && IsDomainText(domains[i])
  }

  /** The extension's normalizeAccess: refuses anything that is not already normalized. */
  function ExtensionNormalizeAccess(a: Access): Option<Access> {
    if !LegalTabIds(a.tabIds) || !LegalDomains(a.domains) then None
    else
      var tabIds := Sort(IntLess, Dedupe(a.tabIds));
      var domains := Sort(TextLess, Dedupe(a.domains));
      if tabIds != a.tabIds || domains != a.domains || !LevelFits(a.level, a.tabIds, a.domains) then None
      else Some(Access(a.level, tabIds, domains))
  }

  /** The extension's normalizeAccessDelta. */
  function ExtensionNormalizeDelta(d: Delta): Option<Delta> {
    if !LegalTabIds(d.tabIds) || !LegalDomains(d.domains) then None
    else
      var tabIds := Sort(IntLess, Dedupe(d.tabIds));
      var domains := Sort(TextLess, Dedupe(d.domains));
      if tabIds != d.tabIds || domains != d.domains || !KindFits(d.kind, d.tabIds, d.domains) then None
      else Some(Delta(d.kind, tabIds, domains))
  }

  /** The extension's upgradedAccess. */
  function ExtensionUpgradedAccess(current: Access, delta: Delta): Option<Access> {
    if current.level.Full? then None
    else if delta.kind.FullKind? then Some(Access(Full, [], []))
    else
      var tabIds := Sort(IntLess, Dedupe(current.tabIds + if delta.kind.TabsKind? then delta.tabIds else []));
      var domains := Sort(TextLess, Dedupe(current.domains + if delta.kind.DomainsKind? then delta.domains else []));
      var upgraded :=
        ExtensionNormalizeAccess(Access(if domains != [] then Domains else SelectedTabs, tabIds, domains));
      if upgraded.Some? && upgraded.value != current then upgraded else None
  }

  // ----- what access admits

  datatype Scheme = Http | Https | OtherScheme

  /** A parsed URL: its host name lower-cased, without a final dot. */
  datatype Url = Url(scheme: Scheme, aboutBlank: bool, hostname: Text)

  datatype Tab = Tab(id: int, sessionPage: bool, url: Option<Url>)

  predicate EndsWith(t: Text, suffix: Text) {
    |suffix| <= |t| && t[|t| - |suffix|..] == suffix
  }

  predicate SessionAllowsUrl(a: Access, url: Option<Url>) {
    url.Some? &&
    match a.level
    case Full => !url.value.scheme.OtherScheme? || url.value.aboutBlank
    case Domains =>
      && !url.value.scheme.OtherScheme?
      && exists i :: 0 <= i < |a.domains| &&
           (url.value.hostname == a.domains[i] || EndsWith(url.value.hostname, [0x2E] + a.domains[i]))
    case SelectedTabs => false
  }

  predicate SessionCanAdoptTab(a: Access, tab: Tab) {
    && !tab.sessionPage
    && (a.level.Full? || tab.id in a.tabIds || (a.level.Domains? && SessionAllowsUrl(a, tab.url)))
  }

  // ----- normalization is sorted, duplicate-free and idempotent

  lemma SortedSet<T(!new)>(less: (T, T) -> bool, values: seq<T>)
    requires StrictOrder(less)
    ensures var s := Sort(less, Dedupe(values));
      && Ascending(less, s) && Distinct(s) && |s| <= |values|
      && (forall x :: x in s <==> x in values)
      && Sort(less, Dedupe(s)) == s
  {
    var s := Sort(less, Dedupe(values));
    DedupeMembers(values);
    SortAscending(less, Dedupe(values));
    SortMembers(less, Dedupe(values));
    DedupeDistinct(s);
    SortIdempotent(less, s);
  }

  lemma SortedTabs(values: seq<int>)
    ensures var s := Sort(IntLess, Dedupe(values));
      |s| <= |values| && (forall x :: x in s <==> x in values) && Sort(IntLess, Dedupe(s)) == s
  {
    IntOrder();
    SortedSet(IntLess, values);
  }

  lemma SortedNames(values: seq<Text>)
    ensures var s := Sort(TextLess, Dedupe(values));
      |s| <= |values| && (forall x :: x in s <==> x in values) && Sort(TextLess, Dedupe(s)) == s
  {
    TextOrder();
    SortedSet(TextLess, values);
  }

  lemma LastLabel(t: Text)
    requires t != [] && t[|t| - 1] == 0x2E
    ensures [] in Labels(t)
  {
    assert Labels(t) == Labels(t[..|t| - 1]) + [[]];
    assert Labels(t)[|Labels(t)| - 1] == [];
  }

  /** A normalized domain normalizes to itself. */
  lemma NormalizeDomainIdempotent(host: Host, value: Text)
    requires Lawful(host) && NormalizeDomain(host, value).Ok?
    ensures var d := NormalizeDomain(host, value).value;
      NormalizeDomain(host, d) == Ok(d) && d != [] && IsDomainText(d)
  {
    var d := NormalizeDomain(host, value).value;
    if d[|d| - 1] == 0x2E {
      LastLabel(d);
    }
    assert IsDomainUnit(d[0]);
  }

  lemma {:induction false} NormalizeEachResults(host: Host, values: seq<Text>)
    requires NormalizeEach(host, values).Ok?
    ensures forall i :: 0 <= i < |values| ==>
      NormalizeDomain(host, values[i]) == Ok(NormalizeEach(host, values).value[i])
  {
    if values != [] {
      NormalizeEachResults(host, values[1..]);
    }
  }

  /** Domains that are each in normal form. */
  ghost predicate Normalized(host: Host, values: seq<Text>) {
    forall i :: 0 <= i < |values| ==> NormalizeDomain(host, values[i]) == Ok(values[i])
  }

  lemma {:induction false} NormalizeEachFixed(host: Host, values: seq<Text>)
    requires Normalized(host, values)
    ensures NormalizeEach(host, values) == Ok(values)
  {
    if values != [] {
      assert Normalized(host, values[1..]) by {
        forall i | 0 <= i < |values[1..]| ensures NormalizeDomain(host, values[1..][i]) == Ok(values[1..][i]) {
          assert values[1..][i] == values[i + 1];
        }
      }
      NormalizeEachFixed(host, values[1..]);
      assert values == [values[0]] + values[1..];
    }
  }

  lemma NormalizedMembers(host: Host, values: seq<Text>, from: seq<Text>)
    requires Normalized(host, from) && forall x :: x in values ==> x in from
    ensures Normalized(host, values)
  {
    forall i | 0 <= i < |values| ensures NormalizeDomain(host, values[i]) == Ok(values[i]) {
      assert values[i] in from;
    }
  }

  lemma NormalizedDomainsResult(host: Host, values: seq<Text>)
    requires Lawful(host) && NormalizedDomains(host, values).Ok?
    ensures Normalized(host, NormalizedDomains(host, values).value)
    ensures NormalizedDomains(host, NormalizedDomains(host, values).value) == NormalizedDomains(host, values)
    ensures Ascending(TextLess, NormalizedDomains(host, values).value)
  {
    var each := NormalizeEach(host, values).value;
    NormalizeEachResults(host, values);
    forall i | 0 <= i < |each| ensures NormalizeDomain(host, each[i]) == Ok(each[i]) {
      NormalizeDomainIdempotent(host, values[i]);
    }
    var s := NormalizedDomains(host, values).value;
    TextOrder();
    SortedSet(TextLess, each);
    NormalizedMembers(host, s, each);
    NormalizeEachFixed(host, s);
  }

  lemma NormalizedTabIdsResult(values: seq<int>)
    requires NormalizedTabIds(values).Ok?
    ensures NormalizedTabIds(NormalizedTabIds(values).value) == NormalizedTabIds(values)
    ensures Ascending(IntLess, NormalizedTabIds(values).value)
  {
    var s := NormalizedTabIds(values).value;
    IntOrder();
    SortedSet(IntLess, values);
    forall i | 0 <= i < |s| ensures s[i] >= 0 {
      assert s[i] in values;
    }
  }

  /** Normalization is idempotent, and its lists are strictly sorted. */
  lemma NormalizationIdempotent(host: Host, level: Option<Level>, tabIds: seq<int>, domains: seq<Text>)
    requires Lawful(host) && NormalizeSessionAccess(host, level, tabIds, domains).Ok?
    ensures var a := NormalizeSessionAccess(host, level, tabIds, domains).value;
      IsSessionAccess(host, a) && Ascending(IntLess, a.tabIds) && Ascending(TextLess, a.domains)
  {
    NormalizedTabIdsResult(tabIds);
    NormalizedDomainsResult(host, domains);
  }

  lemma AccessFacts(host: Host, a: Access)
    requires Lawful(host) && IsSessionAccess(host, a)
    ensures |a.tabIds| <= 64 && |a.domains| <= 64 && Distinct(a.tabIds) && Distinct(a.domains)
    ensures Ascending(IntLess, a.tabIds) && Ascending(TextLess, a.domains) && Normalized(host, a.domains)
    ensures forall i :: 0 <= i < |a.tabIds| ==> a.tabIds[i] >= 0
    ensures LevelFits(a.level, a.tabIds, a.domains)
  {
    NormalizedTabIdsResult(a.tabIds);
    NormalizedDomainsResult(host, a.domains);
    IntOrder();
    TextOrder();
  }

  lemma DeltaFacts(host: Host, d: Delta)
    requires Lawful(host) && IsSessionAccessDelta(host, d)
    ensures |d.tabIds| <= 64 && |d.domains| <= 64 && Normalized(host, d.domains)
    ensures forall i :: 0 <= i < |d.tabIds| ==> d.tabIds[i] >= 0
    ensures KindFits(d.kind, d.tabIds, d.domains)
  {
    NormalizedTabIdsResult(d.tabIds);
    NormalizedDomainsResult(host, d.domains);
  }

  // ----- the two implementations

  /** The merged lists both implementations compute, before either bounds their length. */
  function MergedTabIds(current: Access, d: Delta): seq<int> {
    Sort(IntLess, Dedupe(current.tabIds + if d.kind.TabsKind? then d.tabIds else []))
  }

  function MergedDomains(current: Access, d: Delta): seq<Text> {
    Sort(TextLess, Dedupe(current.domains + if d.kind.DomainsKind? then d.domains else []))
  }

  predicate ListsFit(current: Access, d: Delta) {
    && (d.kind.TabsKind? ==> |current.tabIds| + |d.tabIds| <= 64)
    && (d.kind.DomainsKind? ==> |current.domains| + |d.domains| <= 64)
  }

  function Merged(current: Access, d: Delta): Access {
    Access(if MergedDomains(current, d) != [] then Domains else SelectedTabs,
      MergedTabIds(current, d), MergedDomains(current, d))
  }

  lemma MergeTabIds(current: seq<int>, added: seq<int>)
    requires forall i :: 0 <= i < |current| ==> current[i] >= 0
    requires forall i :: 0 <= i < |added| ==> added[i] >= 0
    ensures NormalizedTabIds(current + added) ==
      if |current| + |added| > 64 then Err(BadTabIds) else Ok(Sort(IntLess, Dedupe(current + added)))
  {
  }

  lemma MergeDomains(host: Host, current: seq<Text>, added: seq<Text>)
    requires Normalized(host, current) && Normalized(host, added)
    ensures NormalizedDomains(host, current + added) ==
      if |current| + |added| > 64 then Err(TooManyDomains) else Ok(Sort(TextLess, Dedupe(current + added)))
  {
    var domains := current + added;
    forall i | 0 <= i < |domains| ensures NormalizeDomain(host, domains[i]) == Ok(domains[i]) {
      if i >= |current| {
        assert domains[i] == added[i - |current|];
      }
    }
    NormalizeEachFixed(host, domains);
  }

  lemma MergedNonEmpty(values: seq<Text>)
    ensures Sort(TextLess, Dedupe(values)) == [] <==> values == []
  {
    SortedNames(values);
    var s := Sort(TextLess, Dedupe(values));
    assert values != [] ==> values[0] in s;
    assert s != [] ==> s[0] in values;
  }

  function AddedTabIds(d: Delta): seq<int> { if d.kind.TabsKind? then d.tabIds else [] }

  function AddedDomains(d: Delta): seq<Text> { if d.kind.DomainsKind? then d.domains else [] }

  /** The host's upgrade, written with the merged lists. */
  lemma HostUnfolded(host: Host, current: Access, d: Delta)
    requires Lawful(host) && IsSessionAccessDelta(host, d) && !current.level.Full? && !d.kind.FullKind?
    ensures var tabIds, domains := current.tabIds + AddedTabIds(d), current.domains + AddedDomains(d);
      var n := NormalizeSessionAccess(host, Some(if domains != [] then Domains else SelectedTabs), tabIds, domains);
      UpgradeSessionAccess(host, current, d) ==
        if n.Err? then Err(n.error) else if current == n.value then Err(NothingAdded) else Ok(n.value)
  {
    assert current.tabIds + [] == current.tabIds && current.domains + [] == current.domains;
  }

  lemma HostMerge(host: Host, current: Access, d: Delta)
    requires Lawful(host) && IsSessionAccess(host, current) && IsSessionAccessDelta(host, d)
    requires !current.level.Full? && !d.kind.FullKind?
    ensures UpgradeSessionAccess(host, current, d).Ok? <==> ListsFit(current, d) && Merged(current, d) != current
    ensures UpgradeSessionAccess(host, current, d).Ok? ==>
      UpgradeSessionAccess(host, current, d).value == Merged(current, d)
  {
    AccessFacts(host, current);
    DeltaFacts(host, d);
    HostUnfolded(host, current, d);
    MergeTabIds(current.tabIds, AddedTabIds(d));
    MergeDomains(host, current.domains, AddedDomains(d));
    MergedNonEmpty(current.domains + AddedDomains(d));
  }

  lemma SortedTabsLegal(values: seq<int>)
    requires forall i :: 0 <= i < |values| ==> values[i] >= 0
    ensures var s := Sort(IntLess, Dedupe(values)); LegalTabIds(s) <==> |s| <= 64
  {
    SortedTabs(values);
    var s := Sort(IntLess, Dedupe(values));
    forall i | 0 <= i < |s| ensures s[i] >= 0 {
      var tab := s[i];
      assert tab in s && tab in values;
    }
  }

  lemma SortedNamesLegal(values: seq<Text>)
    requires forall i :: 0 <= i < |values| ==> values[i] != [] && IsDomainText(values[i])
    ensures var s := Sort(TextLess, Dedupe(values)); LegalDomains(s) <==> |s| <= 64
  {
    SortedNames(values);
    var s := Sort(TextLess, Dedupe(values));
    forall i | 0 <= i < |s| ensures s[i] != [] && IsDomainText(s[i]) {
      var name := s[i];
      assert name in s && name in values;
    }
  }

  lemma ExtensionAcceptsSorted(a: Access)
    requires Sort(IntLess, Dedupe(a.tabIds)) == a.tabIds && Sort(TextLess, Dedupe(a.domains)) == a.domains
    requires LevelFits(a.level, a.tabIds, a.domains)
    ensures ExtensionNormalizeAccess(a) == if LegalTabIds(a.tabIds) && LegalDomains(a.domains) then Some(a) else None
  {
  }

  /** The extension accepts any sorted, duplicate-free lists of legal members that fit. */
  lemma ExtensionAccepts(tabs: seq<int>, names: seq<Text>)
    requires forall i :: 0 <= i < |tabs| ==> tabs[i] >= 0
    requires forall i :: 0 <= i < |names| ==> names[i] != [] && IsDomainText(names[i])
    ensures var a := Access(if Sort(TextLess, Dedupe(names)) != [] then Domains else SelectedTabs,
                Sort(IntLess, Dedupe(tabs)), Sort(TextLess, Dedupe(names)));
      ExtensionNormalizeAccess(a) == if |a.tabIds| <= 64 && |a.domains| <= 64 then Some(a) else None
  {
    var ts, ns := Sort(IntLess, Dedupe(tabs)), Sort(TextLess, Dedupe(names));
    var a := Access(if ns != [] then Domains else SelectedTabs, ts, ns);
    SortedTabs(tabs);
    SortedNames(names);
    ExtensionAcceptsSorted(a);
    SortedTabsLegal(tabs);
    SortedNamesLegal(names);
  }

  lemma NormalizedText(host: Host, values: seq<Text>)
    requires Lawful(host) && Normalized(host, values)
    ensures forall i :: 0 <= i < |values| ==> values[i] != [] && IsDomainText(values[i])
  {
    forall i | 0 <= i < |values| ensures values[i] != [] && IsDomainText(values[i]) {
      NormalizeDomainIdempotent(host, values[i]);
    }
  }

  lemma ExtensionMerge(host: Host, current: Access, d: Delta)
    requires Lawful(host) && IsSessionAccess(host, current) && IsSessionAccessDelta(host, d)
    requires !current.level.Full? && !d.kind.FullKind?
    ensures ExtensionUpgradedAccess(current, d) ==
      if |MergedTabIds(current, d)| <= 64 && |MergedDomains(current, d)| <= 64 && Merged(current, d) != current
      then Some(Merged(current, d)) else None
  {
    AccessFacts(host, current);
    DeltaFacts(host, d);
    NormalizedText(host, current.domains);
    NormalizedText(host, d.domains);
    ExtensionAccepts(current.tabIds + AddedTabIds(d), current.domains + AddedDomains(d));
  }

  lemma SortedAlready<T(!new)>(less: (T, T) -> bool, s: seq<T>)
    requires StrictOrder(less) && Ascending(less, s)
    ensures Sort(less, Dedupe(s)) == s
  {
    assert Distinct(s);
    DedupeDistinct(s);
    SortIdempotent(less, s);
  }

  lemma SortedLists(host: Host, tabIds: seq<int>, domains: seq<Text>)
    requires Lawful(host) && NormalizedTabIds(tabIds) == Ok(tabIds) && NormalizedDomains(host, domains) == Ok(domains)
    ensures Sort(IntLess, Dedupe(tabIds)) == tabIds && Sort(TextLess, Dedupe(domains)) == domains
    ensures LegalTabIds(tabIds) && LegalDomains(domains)
  {
    NormalizedTabIdsResult(tabIds);
    NormalizedDomainsResult(host, domains);
    NormalizedText(host, domains);
    IntOrder();
    TextOrder();
    SortedAlready(IntLess, tabIds);
    SortedAlready(TextLess, domains);
  }

  /** Whatever the host has normalized the extension accepts, unchanged. */
  lemma ExtensionAcceptsNormalized(host: Host, a: Access, d: Delta)
    requires Lawful(host) && IsSessionAccess(host, a) && IsSessionAccessDelta(host, d)
    ensures ExtensionNormalizeAccess(a) == Some(a) && ExtensionNormalizeDelta(d) == Some(d)
  {
    SortedLists(host, a.tabIds, a.domains);
    SortedLists(host, d.tabIds, d.domains);
  }

  lemma MergeSize(host: Host, current: Access, d: Delta)
    requires Lawful(host) && IsSessionAccess(host, current) && IsSessionAccessDelta(host, d)
    ensures ListsFit(current, d) ==> |MergedTabIds(current, d)| <= 64 && |MergedDomains(current, d)| <= 64
  {
    AccessFacts(host, current);
    SortedTabs(current.tabIds + if d.kind.TabsKind? then d.tabIds else []);
    SortedNames(current.domains + if d.kind.DomainsKind? then d.domains else []);
  }

  /**
   * On normalized inputs the extension computes exactly what the host does whenever the host succeeds; the host
   * refuses what the extension grants exactly when the lists fit only after removing duplicates.
   */
  lemma ImplementationsAgree(host: Host, current: Access, d: Delta)
    requires Lawful(host) && IsSessionAccess(host, current) && IsSessionAccessDelta(host, d)
    ensures UpgradeSessionAccess(host, current, d).Ok? ==>
      ExtensionUpgradedAccess(current, d) == Some(UpgradeSessionAccess(host, current, d).value)
    ensures UpgradeSessionAccess(host, current, d).Ok? <==>
      ExtensionUpgradedAccess(current, d).Some? && ListsFit(current, d)
  {
    if !current.level.Full? && !d.kind.FullKind? {
      HostMerge(host, current, d);
      ExtensionMerge(host, current, d);
      MergeSize(host, current, d);
    }
  }

  /** Tabs 0, 1, …, n - 1. */
  function FirstTabs(n: nat): (r: seq<int>)
    ensures |r| == n
  {
    seq(n, i requires 0 <= i < n => i)
  }

  lemma SortedTabList(host: Host, tabIds: seq<int>)
    requires |tabIds| <= 64 && Ascending(IntLess, tabIds) && forall i :: 0 <= i < |tabIds| ==> tabIds[i] >= 0
    ensures NormalizedTabIds(tabIds) == Ok(tabIds) && NormalizedDomains(host, []) == Ok([])
  {
    IntOrder();
    SortedAlready(IntLess, tabIds);
    assert Dedupe<Text>([]) == [] && Sort(TextLess, []) == [];
  }

  lemma MergeOfFirstTabs()
    ensures Sort(IntLess, Dedupe(FirstTabs(63) + [62, 63])) == FirstTabs(64)
  {
    var values := FirstTabs(63) + [62, 63];
    IntOrder();
    SortedSet(IntLess, values);
    forall x ensures x in values <==> x in FirstTabs(64) {
      if x in FirstTabs(64) {
        assert x < 63 ==> values[x] == x;
        assert values[64] == 63;
      }
      if x in values {
        assert 0 <= x < 64 && FirstTabs(64)[x] == x;
      }
    }
    AscendingUnique(IntLess, Sort(IntLess, Dedupe(values)), FirstTabs(64));
  }

  /** They do differ: 63 tabs and a delta that repeats one of them and adds one more. */
  lemma HostRefusesWhatExtensionGrants(host: Host) returns (current: Access, d: Delta)
    requires Lawful(host)
    ensures current == Access(SelectedTabs, FirstTabs(63), []) && d == Delta(TabsKind, [62, 63], [])
    ensures IsSessionAccess(host, current) && IsSessionAccessDelta(host, d)
    ensures UpgradeSessionAccess(host, current, d).Err?
    ensures ExtensionUpgradedAccess(current, d) == Some(Access(SelectedTabs, FirstTabs(64), []))
  {
    current, d := Access(SelectedTabs, FirstTabs(63), []), Delta(TabsKind, [62, 63], []);
    SortedTabList(host, current.tabIds);
    SortedTabList(host, d.tabIds);
    MergeOfFirstTabs();
    assert Dedupe<Text>([] + []) == [] && Sort(TextLess, []) == [];
    ImplementationsAgree(host, current, d);
    ExtensionMerge(host, current, d);
  }

  // ----- access only grows

  lemma EndsWithMember(a: Access, b: Access, url: Option<Url>)
    requires a.level.Domains? && b.level.Domains? && SessionAllowsUrl(a, url)
    requires forall x :: x in a.domains ==> x in b.domains
    ensures SessionAllowsUrl(b, url)
  {
    var i :| 0 <= i < |a.domains|
      && (url.value.hostname == a.domains[i] || EndsWith(url.value.hostname, [0x2E] + a.domains[i]));
    assert a.domains[i] in b.domains;
    var j :| 0 <= j < |b.domains| && b.domains[j] == a.domains[i];
  }

  /** Every access has a weight of at most 129, and every successful upgrade adds to it. */
  function Weight(a: Access): nat {
    if a.level.Full? then 129 else |a.tabIds| + |a.domains|
  }

  lemma {:induction false} DedupeExtends<T(!new)>(s: seq<T>, t: seq<T>)
    requires Distinct(s)
    ensures s <= Dedupe(s + t)
    decreases |t|
  {
    if t == [] {
      assert s + t == s;
      DedupeDistinct(s);
    } else {
      assert (s + t)[..|s + t| - 1] == s + t[..|t| - 1];
      DedupeExtends(s, t[..|t| - 1]);
    }
  }

  lemma MergeGrows<T(!new)>(less: (T, T) -> bool, s: seq<T>, t: seq<T>)
    requires StrictOrder(less) && Ascending(less, s)
    ensures var m := Sort(less, Dedupe(s + t));
      |m| >= |s| && (|m| == |s| ==> m == s) && (forall x :: x in m <==> x in s || x in t)
  {
    DedupeExtends(s, t);
    SortedSet(less, s + t);
    if |Dedupe(s + t)| == |s| {
      assert Dedupe(s + t) == s;
      SortIdempotent(less, s);
    }
  }

  lemma MergedGrows(host: Host, current: Access, d: Delta)
    requires Lawful(host) && IsSessionAccess(host, current)
    ensures var m := Merged(current, d);
      && |m.tabIds| >= |current.tabIds| && (|m.tabIds| == |current.tabIds| ==> m.tabIds == current.tabIds)
      && |m.domains| >= |current.domains| && (|m.domains| == |current.domains| ==> m.domains == current.domains)
      && (forall t :: t in m.tabIds <==> t in current.tabIds || t in AddedTabIds(d))
      && (forall n :: n in m.domains <==> n in current.domains || n in AddedDomains(d))
  {
    AccessFacts(host, current);
    IntOrder();
    TextOrder();
    MergeGrows(IntLess, current.tabIds, AddedTabIds(d));
    MergeGrows(TextLess, current.domains, AddedDomains(d));
  }

  /** Every successful upgrade yields normalized access of strictly greater weight. */
  lemma UpgradeWeighs(host: Host, current: Access, d: Delta)
    requires Lawful(host) && IsSessionAccess(host, current) && IsSessionAccessDelta(host, d)
    requires UpgradeSessionAccess(host, current, d).Ok?
    ensures var u := UpgradeSessionAccess(host, current, d).value;
      IsSessionAccess(host, u) && Weight(current) < Weight(u) <= 129
  {
    var u := UpgradeSessionAccess(host, current, d).value;
    UpgradeNormalized(host, current, d);
    AccessFacts(host, current);
    AccessFacts(host, u);
    if !d.kind.FullKind? {
      HostMerge(host, current, d);
      MergedGrows(host, current, d);
    }
  }

  /** Every successful upgrade admits what the old access admitted and names exactly the old and the requested. */
  lemma UpgradeAdmits(host: Host, current: Access, d: Delta)
    requires Lawful(host) && IsSessionAccess(host, current) && IsSessionAccessDelta(host, d)
    requires UpgradeSessionAccess(host, current, d).Ok?
    ensures var u := UpgradeSessionAccess(host, current, d).value;
      && (forall url :: SessionAllowsUrl(current, url) ==> SessionAllowsUrl(u, url))
      && (forall tab :: SessionCanAdoptTab(current, tab) ==> SessionCanAdoptTab(u, tab))
      && (!u.level.Full? ==>
            && (forall t :: t in u.tabIds <==> t in current.tabIds || t in d.tabIds)
            && (forall n :: n in u.domains <==> n in current.domains || n in d.domains))
  {
    var u := UpgradeSessionAccess(host, current, d).value;
    AccessFacts(host, current);
    DeltaFacts(host, d);
    if !d.kind.FullKind? {
      HostMerge(host, current, d);
      MergedGrows(host, current, d);
      forall url | SessionAllowsUrl(current, url) ensures SessionAllowsUrl(u, url) {
        assert current.domains != [] && current.domains[0] in u.domains;
        EndsWithMember(current, u, url);
      }
    }
  }

  lemma FullAccess(host: Host)
    ensures IsSessionAccess(host, Access(Full, [], []))
  {
  }

  lemma UpgradeNormalized(host: Host, current: Access, d: Delta)
    requires Lawful(host) && UpgradeSessionAccess(host, current, d).Ok?
    ensures IsSessionAccess(host, UpgradeSessionAccess(host, current, d).value)
  {
    match NormalizeSessionAccessDelta(host, d) {
      case Err(_) =>
      case Ok(n) =>
        if n.kind.FullKind? {
          FullAccess(host);
        } else {
          var tabIds := if n.kind.TabsKind? then current.tabIds + n.tabIds else current.tabIds;
          var domains := if n.kind.DomainsKind? then current.domains + n.domains else current.domains;
          NormalizationIdempotent(host, Some(if domains != [] then Domains else SelectedTabs), tabIds, domains);
        }
    }
  }

  /** A run of upgrades of one session's access: each access is the previous one upgraded by some request. */
  ghost predicate UpgradeChain(host: Host, chain: seq<Access>, deltas: seq<Delta>) {
    && |chain| == |deltas| + 1
    && IsSessionAccess(host, chain[0])
    && (forall k :: 0 <= k < |deltas| ==> ChainLink(host, chain[k], deltas[k], chain[k + 1]))
  }

  predicate ChainLink(host: Host, before: Access, d: Delta, after: Access) {
    IsSessionAccessDelta(host, d) && UpgradeSessionAccess(host, before, d) == Ok(after)
  }

  lemma LinkWeighs(host: Host, before: Access, d: Delta, after: Access)
    requires Lawful(host) && IsSessionAccess(host, before) && ChainLink(host, before, d, after)
    ensures IsSessionAccess(host, after) && Weight(before) < Weight(after) <= 129
  {
    UpgradeWeighs(host, before, d);
  }

  lemma ChainNormal(host: Host, chain: seq<Access>, deltas: seq<Delta>, k: nat)
    requires Lawful(host) && UpgradeChain(host, chain, deltas) && k < |chain|
    ensures IsSessionAccess(host, chain[k])
  {
    if k > 0 {
      assert ChainLink(host, chain[k - 1], deltas[k - 1], chain[k - 1 + 1]);
      UpgradeNormalized(host, chain[k - 1], deltas[k - 1]);
    }
  }

  lemma ChainRises(host: Host, chain: seq<Access>, deltas: seq<Delta>, k: nat)
    requires Lawful(host) && UpgradeChain(host, chain, deltas) && k < |deltas|
    ensures Weight(chain[k]) < Weight(chain[k + 1]) <= 129
  {
    ChainNormal(host, chain, deltas, k);
    assert ChainLink(host, chain[k], deltas[k], chain[k + 1]);
    LinkWeighs(host, chain[k], deltas[k], chain[k + 1]);
  }

  lemma {:induction false} Climb(weights: seq<nat>, k: nat)
    requires k < |weights| && forall i :: 0 <= i < |weights| - 1 ==> weights[i] < weights[i + 1]
    ensures k <= weights[k]
  {
    if k > 0 {
      Climb(weights, k - 1);
      assert weights[k - 1] < weights[k - 1 + 1];
    }
  }

  /** At most 129 upgrades of a session ever succeed. */
  lemma AtMost129Upgrades(host: Host, chain: seq<Access>, deltas: seq<Delta>)
    requires Lawful(host) && UpgradeChain(host, chain, deltas)
    ensures |deltas| <= 129
  {
    var weights: seq<nat> := seq(|chain|, i requires 0 <= i < |chain| => Weight(chain[i]));
    forall k | 0 <= k < |deltas| ensures weights[k] < weights[k + 1] {
      ChainRises(host, chain, deltas, k);
    }
    Climb(weights, |deltas|);
    if deltas != [] {
      ChainRises(host, chain, deltas, |deltas| - 1);
    }
  }
}
