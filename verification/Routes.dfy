/** Route provenance and the record it is printed as. */
module Routes {
  import opened Bytes
  import opened Results
  import opened SessionAccess
  import opened CanonicalJson
  import JsonReading
  import Sorting

  datatype RouteKind = Local | Routed

  datatype RoutePolicy = LocalOnly | RoutedPolicy

  datatype Route = Route(
    kind: RouteKind, endpointId: Text, controllerPrincipalId: Text, routePolicy: RoutePolicy, accessCeiling: Access,
    hubId: Option<Text>, routeId: Option<Text>, streamId: Option<Text>)

  function LocalRoute(endpointId: Text, controllerPrincipalId: Text, access: Access): Route {
    Route(Local, endpointId, controllerPrincipalId, LocalOnly, access, None, None, None)
  }

  // ----- validity

  /** [A-Za-z0-9+/=_-] */
  predicate FingerprintUnit(u: Unit) {
    || 0x41 <= u <= 0x5A || 0x61 <= u <= 0x7A || 0x30 <= u <= 0x39
    || u == 0x2B || u == 0x2F || u == 0x3D || u == 0x5F || u == 0x2D
  }

  predicate IsFingerprint(t: Text) {
    && 7 < |t| <= 256
    && t[..7] == Ascii("sha256/")
    && forall i :: 7 <= i < |t| ==> FingerprintUnit(t[i])
  }

  predicate IsNullableIdentifier(id: Option<Text>) { id.Some? ==> 0 < |id.value| <= 256 }

  predicate IsRouteProvenance(host: Host, r: Route) {
    && IsFingerprint(r.endpointId) && IsFingerprint(r.controllerPrincipalId)
    && IsSessionAccess(host, r.accessCeiling)
    && IsNullableIdentifier(r.hubId) && IsNullableIdentifier(r.routeId) && IsNullableIdentifier(r.streamId)
    && (|| (r.kind.Local? && r.routePolicy.LocalOnly? && r.hubId.None? && r.routeId.None? && r.streamId.None?)
        || (r.kind.Routed? && r.routePolicy.RoutedPolicy?))
  }

  // ----- the record that is printed

  function LevelName(level: Level): Text {
    match level
    case SelectedTabs => Ascii("selectedTabs")
    case Domains => Ascii("domains")
    case Full => Ascii("full")
  }

  function Numbers(values: seq<int>): Value {
    Array(seq(|values|, i requires 0 <= i < |values| => Number(values[i])))
  }

  function Strings(values: seq<Text>): Value {
    Array(seq(|values|, i requires 0 <= i < |values| => Str(values[i])))
  }

  function AccessFields(a: Access): seq<Field> {
    [Field(Ascii("level"), Str(LevelName(a.level))), Field(Ascii("tabIds"), Numbers(a.tabIds)),
     Field(Ascii("domains"), Strings(a.domains))]
  }

  function Nullable(id: Option<Text>): Value { if id.Some? then Str(id.value) else Null }

  function KindName(kind: RouteKind): Text { if kind.Local? then Ascii("local") else Ascii("routed") }

  function PolicyName(policy: RoutePolicy): Text { if policy.LocalOnly? then Ascii("localOnly") else Ascii("routed") }

  function RouteFields(r: Route): seq<Field> {
    [Field(Ascii("kind"), Str(KindName(r.kind))), Field(Ascii("endpointId"), Str(r.endpointId)),
     Field(Ascii("controllerPrincipalId"), Str(r.controllerPrincipalId)),
     Field(Ascii("routePolicy"), Str(PolicyName(r.routePolicy))),
     Field(Ascii("accessCeiling"), Record(AccessFields(r.accessCeiling))),
     Field(Ascii("hubId"), Nullable(r.hubId)), Field(Ascii("routeId"), Nullable(r.routeId)),
     Field(Ascii("streamId"), Nullable(r.streamId))]
  }

  function RouteValue(r: Route): Value { Record(RouteFields(r)) }

  // ----- comparing records is comparing routes

  predicate SafeTabIds(a: Access) {
    forall i :: 0 <= i < |a.tabIds| ==> -MAX_SAFE_INTEGER <= a.tabIds[i] <= MAX_SAFE_INTEGER
  }

  lemma AccessKeyed(a: Access)
    ensures Sorting.Distinct(Keys(AccessFields(a))) && WellKeyed(Record(AccessFields(a)))
    ensures Supported(Record(AccessFields(a))) <==> SafeTabIds(a)
  {
    var fields := AccessFields(a);
    var keys := Keys(fields);
    forall i, j | 0 <= i < j < |keys| ensures keys[i] != keys[j] {
      assert |keys[0]| == 5 && |keys[1]| == 6 && |keys[2]| == 7;
    }
    assert Supported(fields[0].value) && Supported(fields[2].value);
    assert Supported(fields[1].value) <==> SafeTabIds(a) by {
      forall i | 0 <= i < |a.tabIds| ensures fields[1].value.items[i] == Number(a.tabIds[i]) {}
    }
    assert Supported(Record(fields)) <==> Supported(fields[1].value);
  }

  lemma RouteKeyed(r: Route)
    ensures Sorting.Distinct(Keys(RouteFields(r))) && WellKeyed(RouteValue(r))
    ensures Supported(RouteValue(r)) <==> SafeTabIds(r.accessCeiling)
  {
    var fields := RouteFields(r);
    var keys := Keys(fields);
    forall i, j | 0 <= i < j < |keys| ensures keys[i] != keys[j] {
      assert |keys[0]| == 4 && |keys[1]| == 10 && |keys[2]| == 21 && |keys[3]| == 11;
      assert |keys[4]| == 13 && |keys[5]| == 5 && |keys[6]| == 7 && |keys[7]| == 8;
    }
    AccessKeyed(r.accessCeiling);
    forall i | 0 <= i < |fields| && i != 4 ensures Supported(fields[i].value) && WellKeyed(fields[i].value) {}
    assert Supported(RouteValue(r)) <==> Supported(fields[4].value);
  }

  /** Two records with the same keys in the same places are the same exactly when their values are, one by one. */
  lemma SameByPosition(f: seq<Field>, g: seq<Field>)
    requires Keys(f) == Keys(g) && Sorting.Distinct(Keys(f))
    ensures Same(Record(f), Record(g)) <==> forall i :: 0 <= i < |f| ==> Same(f[i].value, g[i].value)
  {
    assert |Keys(f)| == |f| && |Keys(g)| == |g|;
    forall i | 0 <= i < |f| ensures f[i].key in Keys(g) && Lookup(g, f[i].key) == g[i].value {
      assert Keys(f)[i] == Keys(g)[i];
      JsonReading.LookupAt(g, i);
    }
  }

  lemma SameNumbers(a: seq<int>, b: seq<int>)
    ensures Same(Numbers(a), Numbers(b)) <==> a == b
  {
    if a == b {
      assert SameItems(Numbers(a).items, Numbers(b).items);
    }
    if Same(Numbers(a), Numbers(b)) {
      assert SameItems(Numbers(a).items, Numbers(b).items);
      forall i | 0 <= i < |a| ensures a[i] == b[i] {
        assert Same(Numbers(a).items[i], Numbers(b).items[i]);
      }
    }
  }

  lemma SameStrings(a: seq<Text>, b: seq<Text>)
    ensures Same(Strings(a), Strings(b)) <==> a == b
  {
    if a == b {
      assert SameItems(Strings(a).items, Strings(b).items);
    }
    if Same(Strings(a), Strings(b)) {
      assert SameItems(Strings(a).items, Strings(b).items);
      forall i | 0 <= i < |a| ensures a[i] == b[i] {
        assert Same(Strings(a).items[i], Strings(b).items[i]);
      }
    }
  }

  predicate Atom(v: Value) { !v.Array? && !v.Record? }

  lemma SameAtoms(v: Value, w: Value)
    requires Atom(v)
    ensures Same(v, w) <==> v == w
  {
  }

  lemma SameAccessRecord(a: Access, b: Access)
    ensures Same(Record(AccessFields(a)), Record(AccessFields(b))) <==> a == b
  {
    var f, g := AccessFields(a), AccessFields(b);
    AccessKeyed(a);
    assert Keys(f) == Keys(g);
    SameByPosition(f, g);
    SameNumbers(a.tabIds, b.tabIds);
    SameStrings(a.domains, b.domains);
    SameAtoms(f[0].value, g[0].value);
    assert |Ascii("selectedTabs")| == 12 && |Ascii("domains")| == 7 && |Ascii("full")| == 4;
    AllThree(f, g);
  }

  lemma AllThree(f: seq<Field>, g: seq<Field>)
    requires |f| == |g| == 3
    ensures (forall i :: 0 <= i < |f| ==> Same(f[i].value, g[i].value)) <==>
      Same(f[0].value, g[0].value) && Same(f[1].value, g[1].value) && Same(f[2].value, g[2].value)
  {
  }

  /** What comparing two route-shaped records comes to: the ceilings as records, all else as it stands. */
  ghost predicate SameParts(f: seq<Field>, g: seq<Field>)
    requires |f| == |g| == 8
  {
    Same(f[4].value, g[4].value) && forall i :: 0 <= i < 8 && i != 4 ==> f[i].value == g[i].value
  }

  lemma AllEight(f: seq<Field>, g: seq<Field>)
    requires |f| == |g| == 8
    requires Keys(f) == Keys(g) && Sorting.Distinct(Keys(f))
    requires forall i :: 0 <= i < 8 && i != 4 ==> Atom(f[i].value)
    ensures Same(Record(f), Record(g)) <==> SameParts(f, g)
  {
    SameByPosition(f, g);
    forall i | 0 <= i < 8 && i != 4 ensures Same(f[i].value, g[i].value) <==> f[i].value == g[i].value {
      SameAtoms(f[i].value, g[i].value);
    }
  }

  lemma SameNames(a: Route, b: Route)
    ensures KindName(a.kind) == KindName(b.kind) <==> a.kind == b.kind
    ensures PolicyName(a.routePolicy) == PolicyName(b.routePolicy) <==> a.routePolicy == b.routePolicy
  {
    assert |Ascii("local")| == 5 && |Ascii("routed")| == 6 && |Ascii("localOnly")| == 9;
  }

  lemma PartsEqual(a: Route, b: Route)
    ensures SameParts(RouteFields(a), RouteFields(b)) <==> a == b
  {
    var f, g := RouteFields(a), RouteFields(b);
    SameNames(a, b);
    SameAccessRecord(a.accessCeiling, b.accessCeiling);
    if SameParts(f, g) {
      assert f[0].value == g[0].value && f[1].value == g[1].value && f[2].value == g[2].value
        && f[3].value == g[3].value;
      assert f[5].value == g[5].value && f[6].value == g[6].value && f[7].value == g[7].value;
    }
  }

  lemma RouteShape(a: Route, b: Route)
    ensures |RouteFields(a)| == |RouteFields(b)| == 8
    ensures Keys(RouteFields(a)) == Keys(RouteFields(b)) && Sorting.Distinct(Keys(RouteFields(a)))
    ensures forall i :: 0 <= i < 8 && i != 4 ==> Atom(RouteFields(a)[i].value)
  {
    RouteKeyed(a);
  }

  lemma SameRouteRecord(a: Route, b: Route)
    ensures Same(RouteValue(a), RouteValue(b)) <==> a == b
  {
    RouteShape(a, b);
    AllEight(RouteFields(a), RouteFields(b));
    PartsEqual(a, b);
  }
}
