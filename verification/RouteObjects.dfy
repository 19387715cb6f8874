/**
 * Route objects as the validators meet them: records in whatever property order they were built. Validity looks at
 * the order inside the access ceiling; canonical bytes look at no order at all.
 */
module RouteObjects {
  import opened Bytes
  import opened Results
  import opened SessionAccess
  import opened CanonicalJson
  import opened JsonReading
  import opened Routes
  import Sorting

  // ----- reading properties

  /** A property by name; a missing one reads as undefined. */
  function Get(fields: seq<Field>, key: Text): Value {
    if key in Keys(fields) then Lookup(fields, key) else Unsupported
  }

  predicate HasExactly(fields: seq<Field>, keys: seq<Text>) {
    |fields| == |keys| && forall i :: 0 <= i < |keys| ==> keys[i] in Keys(fields)
  }

  function ReadLevel(v: Value): Option<Level> {
    if v == Str(LevelName(SelectedTabs)) then Some(SelectedTabs)
    else if v == Str(LevelName(Domains)) then Some(Domains)
    else if v == Str(LevelName(Full)) then Some(Full)
    else None
  }

  function ReadNumbers(v: Value): Option<seq<int>> {
    if v.Array? && forall i :: 0 <= i < |v.items| ==> v.items[i].Number?
    then Some(seq(|v.items|, i requires 0 <= i < |v.items| => v.items[i].n)) else None
  }

  function ReadStrings(v: Value): Option<seq<Text>> {
    if v.Array? && forall i :: 0 <= i < |v.items| ==> v.items[i].Str?
    then Some(seq(|v.items|, i requires 0 <= i < |v.items| => v.items[i].s)) else None
  }

  function AccessKeys(): seq<Text> { [Ascii("level"), Ascii("tabIds"), Ascii("domains")] }

  function ReadAccess(fields: seq<Field>): Option<Access> {
    var keys := AccessKeys();
    match (ReadLevel(Get(fields, keys[0])), ReadNumbers(Get(fields, keys[1])), ReadStrings(Get(fields, keys[2])))
    case (Some(level), Some(tabIds), Some(domains)) => Some(Access(level, tabIds, domains))
    case _ => None
  }

  // ----- validity of objects

  /** isSessionAccess: JSON.stringify lists properties in order, so its texts agree when the ordered records do. */
  predicate IsSessionAccessValue(host: Host, v: Value) {
    && v.Record? && HasExactly(v.fields, AccessKeys())
    && match ReadAccess(v.fields)
       case None => false
       case Some(a) =>
         match NormalizeSessionAccess(host, Some(a.level), a.tabIds, a.domains)
         case Err(_) => false
         case Ok(normalized) => v == Record(AccessFields(normalized))
  }

  function RouteKeys(): seq<Text> {
    [Ascii("kind"), Ascii("endpointId"), Ascii("controllerPrincipalId"), Ascii("routePolicy"), Ascii("accessCeiling"),
     Ascii("hubId"), Ascii("routeId"), Ascii("streamId")]
  }

  /** The eight properties of a route object. */
  datatype Parts = Parts(
    kind: Value, endpointId: Value, controllerPrincipalId: Value, routePolicy: Value, accessCeiling: Value,
    hubId: Value, routeId: Value, streamId: Value)

  function PartsOf(fields: seq<Field>): Parts {
    var keys := RouteKeys();
    Parts(Get(fields, keys[0]), Get(fields, keys[1]), Get(fields, keys[2]), Get(fields, keys[3]), Get(fields, keys[4]),
      Get(fields, keys[5]), Get(fields, keys[6]), Get(fields, keys[7]))
  }

  predicate IsFingerprintValue(v: Value) { v.Str? && IsFingerprint(v.s) }

  predicate IsNullableValue(v: Value) { v.Null? || (v.Str? && 0 < |v.s| <= 256) }

  predicate KindPolicyFit(p: Parts) {
    || (&& p.kind == Str(Ascii("local")) && p.routePolicy == Str(Ascii("localOnly"))
        && p.hubId.Null? && p.routeId.Null? && p.streamId.Null?)
    || (p.kind == Str(Ascii("routed")) && p.routePolicy == Str(Ascii("routed")))
  }

  predicate ValidParts(host: Host, p: Parts) {
    && IsFingerprintValue(p.endpointId) && IsFingerprintValue(p.controllerPrincipalId)
    && IsSessionAccessValue(host, p.accessCeiling)
    && IsNullableValue(p.hubId) && IsNullableValue(p.routeId) && IsNullableValue(p.streamId)
    && KindPolicyFit(p)
  }

  /** isRouteProvenance. */
  predicate IsRouteValue(host: Host, v: Value) {
    v.Record? && HasExactly(v.fields, RouteKeys()) && ValidParts(host, PartsOf(v.fields))
  }

  // ----- canonical records

  datatype RouteError = InvalidRoute | UnsafeNumber

  /** The route of a session or grant record; of anything else, itself. */
  function Subject(v: Value): Value {
    if v.Record? && Ascii("route") in Keys(v.fields) then Lookup(v.fields, Ascii("route")) else v
  }

  function CanonicalRouteAwareRecord(host: Host, v: Value): Outcome<seq<Byte>, RouteError> {
    if !IsRouteValue(host, Subject(v)) then Err(InvalidRoute)
    else
      match CanonicalBytes(v)
      case Ok(bytes) => Ok(bytes)
      case Err(_) => Err(UnsafeNumber)
  }

  function Compared(left: Outcome<seq<Byte>, RouteError>, right: Outcome<seq<Byte>, RouteError>)
    : Outcome<bool, RouteError>
  {
    if left.Err? then Err(left.error) else if right.Err? then Err(right.error) else Ok(left.value == right.value)
  }

  function SameRouteProvenance(host: Host, left: Value, right: Value): Outcome<bool, RouteError> {
    Compared(CanonicalRouteAwareRecord(host, left), CanonicalRouteAwareRecord(host, right))
  }

  // ----- structural equality, member by member

  lemma SameSymmetric(v: Value, w: Value)
    requires WellKeyed(v) && WellKeyed(w) && Same(v, w)
    ensures Same(w, v)
  {
    SameNormal(v, w);
    NormalSame(w, v);
  }

  lemma {:induction false} SameSupported(v: Value, w: Value)
    requires Same(v, w) && Supported(w)
    ensures Supported(v)
  {
    match v {
      case Array(items) =>
        forall i | 0 <= i < |items| ensures Supported(items[i]) {
          assert Same(items[i], w.items[i]);
          SameSupported(items[i], w.items[i]);
        }
      case Record(fields) =>
        forall i | 0 <= i < |fields| ensures Supported(fields[i].value) {
          SameSupported(fields[i].value, Lookup(w.fields, fields[i].key));
        }
      case _ =>
    }
  }

  lemma SameMember(f: seq<Field>, g: seq<Field>, i: nat)
    requires WellKeyed(Record(f)) && WellKeyed(Record(g)) && Same(Record(f), Record(g)) && i < |g|
    ensures g[i].key in Keys(f) && Same(Get(f, g[i].key), g[i].value) && WellKeyed(Get(f, g[i].key))
  {
    PigeonholeMembers(Keys(f), Keys(g));
    assert Keys(g)[i] in Keys(f);
    LookupWellKeyed(f, g[i].key);
    var j :| 0 <= j < |f| && f[j].key == g[i].key && f[j].value == Lookup(f, g[i].key);
    LookupAt(g, i);
  }

  lemma SameAsAtom(v: Value, w: Value)
    requires Same(v, w) && Atom(w)
    ensures v == w
  {
  }

  lemma SameAsNumbers(v: Value, values: seq<int>)
    requires Same(v, Numbers(values))
    ensures v == Numbers(values)
  {
    var items := Numbers(values).items;
    assert SameItems(v.items, items);
    forall i | 0 <= i < |items| ensures v.items[i] == items[i] {
      assert Same(v.items[i], items[i]);
    }
  }

  lemma SameAsStrings(v: Value, values: seq<Text>)
    requires Same(v, Strings(values))
    ensures v == Strings(values)
  {
    var items := Strings(values).items;
    assert SameItems(v.items, items);
    forall i | 0 <= i < |items| ensures v.items[i] == items[i] {
      assert Same(v.items[i], items[i]);
    }
  }

  // ----- access objects

  /** The keys stand in the order the normalizer lists them. */
  predicate InOrder(v: Value) { v.Record? && Keys(v.fields) == AccessKeys() }

  lemma AccessFieldKeys(a: Access)
    ensures Keys(AccessFields(a)) == AccessKeys() && Sorting.Distinct(AccessKeys())
  {
    AccessKeyed(a);
    assert Keys(AccessFields(a)) == AccessKeys();
  }

  /** Listed in that order, an access object is the record of its access. */
  lemma OrderedAccess(f: seq<Field>, a: Access)
    requires Keys(f) == AccessKeys() && Same(Record(f), Record(AccessFields(a)))
    ensures f == AccessFields(a)
  {
    var g := AccessFields(a);
    AccessFieldKeys(a);
    SameByPosition(f, g);
    assert |f| == |Keys(f)| == 3;
    assert Same(f[0].value, g[0].value) && Same(f[1].value, g[1].value) && Same(f[2].value, g[2].value);
    SameAsAtom(f[0].value, g[0].value);
    SameAsNumbers(f[1].value, a.tabIds);
    SameAsStrings(f[2].value, a.domains);
    forall i | 0 <= i < 3 ensures f[i] == g[i] {
      assert f[i].key == Keys(f)[i] && g[i].key == Keys(g)[i];
    }
  }

  lemma LevelReads(level: Level)
    ensures ReadLevel(Str(LevelName(level))) == Some(level)
  {
    assert |Ascii("selectedTabs")| == 12 && |Ascii("domains")| == 7 && |Ascii("full")| == 4;
  }

  lemma NumbersRead(values: seq<int>)
    ensures ReadNumbers(Numbers(values)) == Some(values)
  {
    assert ReadNumbers(Numbers(values)).value == values;
  }

  lemma StringsRead(values: seq<Text>)
    ensures ReadStrings(Strings(values)) == Some(values)
  {
    assert ReadStrings(Strings(values)).value == values;
  }

  lemma AccessReads(a: Access)
    ensures HasExactly(AccessFields(a), AccessKeys()) && ReadAccess(AccessFields(a)) == Some(a)
  {
    var f := AccessFields(a);
    AccessFieldKeys(a);
    forall i | 0 <= i < 3 ensures AccessKeys()[i] in Keys(f) && Get(f, AccessKeys()[i]) == f[i].value {
      LookupAt(f, i);
      assert f[i].key == Keys(f)[i];
    }
    LevelReads(a.level);
    assert Get(f, AccessKeys()[0]) == f[0].value && Get(f, AccessKeys()[1]) == f[1].value
      && Get(f, AccessKeys()[2]) == f[2].value;
    assert f[0].value == Str(LevelName(a.level)) && f[1].value == Numbers(a.tabIds) && f[2].value == Strings(a.domains);
    NumbersRead(a.tabIds);
    StringsRead(a.domains);
  }

  /** What isSessionAccess accepts: the records of normalized access, listed in order, and nothing else. */
  lemma SessionAccessValues(host: Host, a: Access)
    ensures IsSessionAccessValue(host, Record(AccessFields(a))) <==> IsSessionAccess(host, a)
  {
    AccessReads(a);
    var n := NormalizeSessionAccess(host, Some(a.level), a.tabIds, a.domains);
    if n.Ok? && AccessFields(a) == AccessFields(n.value) {
      AccessReads(n.value);
    }
  }

  lemma AccessObject(host: Host, v: Value, a: Access)
    requires WellKeyed(v) && Same(v, Record(AccessFields(a)))
    ensures IsSessionAccessValue(host, v) <==> IsSessionAccess(host, a) && InOrder(v)
  {
    SessionAccessValues(host, a);
    if InOrder(v) {
      OrderedAccess(v.fields, a);
    } else if IsSessionAccessValue(host, v) {
      var b := ReadAccess(v.fields).value;
      AccessFieldKeys(NormalizeSessionAccess(host, Some(b.level), b.tabIds, b.domains).value);
      assert false;
    }
  }

  // ----- route objects

  /** A route object: the eight properties with the route's values, in any order. */
  ghost predicate Presents(v: Value, r: Route) { WellKeyed(v) && Same(v, RouteValue(r)) }

  predicate CeilingInOrder(v: Value) { v.Record? && InOrder(PartsOf(v.fields).accessCeiling) }

  lemma RouteFieldKeys(r: Route)
    ensures Keys(RouteFields(r)) == RouteKeys() && Sorting.Distinct(RouteKeys())
    ensures Ascii("route") !in RouteKeys()
  {
    RouteKeyed(r);
    assert Keys(RouteFields(r)) == RouteKeys();
    var keys := RouteKeys();
    assert |keys[0]| == 4 && |keys[1]| == 10 && |keys[2]| == 21 && |keys[3]| == 11;
    assert |keys[4]| == 13 && |keys[6]| == 7 && |keys[7]| == 8;
    assert keys[5][0] == 0x68 && Ascii("route")[0] == 0x72;
  }

  function RouteParts(r: Route): Parts {
    Parts(Str(KindName(r.kind)), Str(r.endpointId), Str(r.controllerPrincipalId), Str(PolicyName(r.routePolicy)),
      Record(AccessFields(r.accessCeiling)), Nullable(r.hubId), Nullable(r.routeId), Nullable(r.streamId))
  }

  /** The parts are the route's; the ceiling, a record of its own, up to key order. */
  ghost predicate PartsFit(p: Parts, r: Route) {
    && p == RouteParts(r).(accessCeiling := p.accessCeiling)
    && WellKeyed(p.accessCeiling) && Same(p.accessCeiling, Record(AccessFields(r.accessCeiling)))
  }

  lemma NamesApart(r: Route)
    ensures KindName(r.kind) == Ascii("local") <==> r.kind.Local?
    ensures KindName(r.kind) == Ascii("routed") <==> r.kind.Routed?
    ensures PolicyName(r.routePolicy) == Ascii("localOnly") <==> r.routePolicy.LocalOnly?
    ensures PolicyName(r.routePolicy) == Ascii("routed") <==> r.routePolicy.RoutedPolicy?
  {
    assert |Ascii("local")| == 5 && |Ascii("routed")| == 6 && |Ascii("localOnly")| == 9;
  }

  lemma ValidPartsIff(host: Host, p: Parts, r: Route)
    requires PartsFit(p, r)
    ensures ValidParts(host, p) <==> IsRouteProvenance(host, r) && InOrder(p.accessCeiling)
  {
    NamesApart(r);
    AccessObject(host, p.accessCeiling, r.accessCeiling);
  }

  lemma RouteFieldParts(r: Route)
    ensures var g, p := RouteFields(r), RouteParts(r);
      && |g| == 8
      && g[0].value == p.kind && g[1].value == p.endpointId && g[2].value == p.controllerPrincipalId
      && g[3].value == p.routePolicy && g[4].value == p.accessCeiling
      && g[5].value == p.hubId && g[6].value == p.routeId && g[7].value == p.streamId
  {
  }

  lemma AtomMember(f: seq<Field>, g: seq<Field>, i: nat)
    requires WellKeyed(Record(f)) && WellKeyed(Record(g)) && Same(Record(f), Record(g)) && i < |g| && Atom(g[i].value)
    ensures Get(f, Keys(g)[i]) == g[i].value
  {
    SameMember(f, g, i);
    SameAsAtom(Get(f, g[i].key), g[i].value);
  }

  lemma SameKeySet(f: seq<Field>, g: seq<Field>)
    requires WellKeyed(Record(f)) && WellKeyed(Record(g)) && Same(Record(f), Record(g))
    ensures HasExactly(f, Keys(g)) && forall k :: k in Keys(f) <==> k in Keys(g)
  {
    assert SameFields(f, g);
    forall k | k in Keys(f) ensures k in Keys(g) {
      var i :| 0 <= i < |f| && Keys(f)[i] == k;
      assert f[i].key == k;
    }
    PigeonholeMembers(Keys(f), Keys(g));
  }

  lemma PresentedParts(f: seq<Field>, r: Route)
    requires Presents(Record(f), r)
    ensures HasExactly(f, RouteKeys()) && Ascii("route") !in Keys(f)
    ensures PartsFit(PartsOf(f), r)
  {
    var g := RouteFields(r);
    RouteKeyed(r);
    RouteFieldKeys(r);
    RouteFieldParts(r);
    SameKeySet(f, g);
    AllMembers(f, g, r);
  }

  lemma AllMembers(f: seq<Field>, g: seq<Field>, r: Route)
    requires WellKeyed(Record(f)) && WellKeyed(Record(g)) && Same(Record(f), Record(g)) && Keys(g) == RouteKeys()
    requires |g| == 8 && g[4].value == RouteParts(r).accessCeiling
    requires var p := RouteParts(r);
      && g[0].value == p.kind && g[1].value == p.endpointId && g[2].value == p.controllerPrincipalId
      && g[3].value == p.routePolicy && g[5].value == p.hubId && g[6].value == p.routeId && g[7].value == p.streamId
    ensures PartsFit(PartsOf(f), r)
  {
    AtomMember(f, g, 0);
    AtomMember(f, g, 1);
    AtomMember(f, g, 2);
    AtomMember(f, g, 3);
    SameMember(f, g, 4);
    assert Keys(g)[4] == g[4].key;
    AtomMember(f, g, 5);
    AtomMember(f, g, 6);
    AtomMember(f, g, 7);
  }

  /** A route object is valid exactly when its route is and its ceiling lists its keys in the normalizer's order. */
  lemma RouteObjectValid(host: Host, v: Value, r: Route)
    requires Presents(v, r)
    ensures IsRouteValue(host, v) <==> IsRouteProvenance(host, r) && CeilingInOrder(v)
    ensures Subject(v) == v
  {
    PresentedParts(v.fields, r);
    ValidPartsIff(host, PartsOf(v.fields), r);
  }

  /** Why the canonical bytes of a route object are refused, if they are. */
  function Fault(host: Host, v: Value, r: Route): Option<RouteError> {
    if !IsRouteProvenance(host, r) || !CeilingInOrder(v) then Some(InvalidRoute)
    else if !SafeTabIds(r.accessCeiling) then Some(UnsafeNumber)
    else None
  }

  lemma SupportedObject(v: Value, r: Route)
    requires Presents(v, r)
    ensures Supported(v) <==> SafeTabIds(r.accessCeiling)
  {
    RouteKeyed(r);
    SameSymmetric(v, RouteValue(r));
    if Supported(v) {
      SameSupported(RouteValue(r), v);
    } else if SafeTabIds(r.accessCeiling) {
      SameSupported(v, RouteValue(r));
    }
  }

  lemma CanonicalIff(host: Host, v: Value)
    ensures CanonicalRouteAwareRecord(host, v).Ok? <==> IsRouteValue(host, Subject(v)) && Supported(v)
    ensures !IsRouteValue(host, Subject(v)) ==> CanonicalRouteAwareRecord(host, v) == Err(InvalidRoute)
    ensures IsRouteValue(host, Subject(v)) && !Supported(v) ==> CanonicalRouteAwareRecord(host, v) == Err(UnsafeNumber)
  {
  }

  /**
   * A route object has canonical bytes if and only if its route is valid, its tab IDs are safe integers and its
   * ceiling's keys stand in the order level, tabIds, domains.
   */
  lemma RouteObjectBytes(host: Host, v: Value, r: Route)
    requires Presents(v, r)
    ensures CanonicalRouteAwareRecord(host, v).Ok? <==>
      IsRouteProvenance(host, r) && SafeTabIds(r.accessCeiling) && CeilingInOrder(v)
    ensures Fault(host, v, r) ==
      if CanonicalRouteAwareRecord(host, v).Ok? then None else Some(CanonicalRouteAwareRecord(host, v).error)
  {
    RouteObjectValid(host, v, r);
    SupportedObject(v, r);
    CanonicalIff(host, v);
  }

  lemma SameThrough(v: Value, p: Value, w: Value, q: Value)
    requires WellKeyed(v) && WellKeyed(p) && WellKeyed(w) && WellKeyed(q) && Same(v, p) && Same(w, q)
    ensures Same(v, w) <==> Same(p, q)
  {
    SameNormal(v, p);
    SameNormal(w, q);
    if Same(v, w) {
      SameNormal(v, w);
      NormalSame(p, q);
    }
    if Same(p, q) {
      SameNormal(p, q);
      NormalSame(v, w);
    }
  }

  lemma PresentedSame(v: Value, a: Route, w: Value, b: Route)
    requires Presents(v, a) && Presents(w, b)
    ensures Same(v, w) <==> a == b
  {
    RouteKeyed(a);
    RouteKeyed(b);
    SameThrough(v, RouteValue(a), w, RouteValue(b));
    SameRouteRecord(a, b);
  }

  /** Session and grant records included: two records with canonical bytes share them iff they are equal as values. */
  lemma RecordBytesIff(host: Host, v: Value, w: Value)
    requires WellKeyed(v) && WellKeyed(w)
    requires CanonicalRouteAwareRecord(host, v).Ok? && CanonicalRouteAwareRecord(host, w).Ok?
    ensures CanonicalRouteAwareRecord(host, v) == CanonicalRouteAwareRecord(host, w) <==> Same(v, w)
  {
    CanonicalBytesIff(v, w);
  }

  /**
   * sameRouteProvenance of any two route objects: it throws on the first one that has no canonical bytes, and
   * otherwise is structural equality of the routes. So no order shows but the one inside the ceilings.
   */
  lemma SameRouteProvenanceExact(host: Host, v: Value, a: Route, w: Value, b: Route)
    requires Presents(v, a) && Presents(w, b)
    ensures SameRouteProvenance(host, v, w) ==
      if Fault(host, v, a).Some? then Err(Fault(host, v, a).value)
      else if Fault(host, w, b).Some? then Err(Fault(host, w, b).value)
      else Ok(a == b)
  {
    RouteObjectBytes(host, v, a);
    RouteObjectBytes(host, w, b);
    PresentedSame(v, a, w, b);
    EqualRecords(host, v, w, a == b);
    ComparedBytes(CanonicalRouteAwareRecord(host, v), Fault(host, v, a), CanonicalRouteAwareRecord(host, w),
      Fault(host, w, b), a == b);
  }

  lemma EqualRecords(host: Host, v: Value, w: Value, same: bool)
    requires WellKeyed(v) && WellKeyed(w) && (Same(v, w) <==> same)
    ensures CanonicalRouteAwareRecord(host, v).Ok? && CanonicalRouteAwareRecord(host, w).Ok? ==>
      (CanonicalRouteAwareRecord(host, v).value == CanonicalRouteAwareRecord(host, w).value <==> same)
  {
    if CanonicalRouteAwareRecord(host, v).Ok? && CanonicalRouteAwareRecord(host, w).Ok? {
      RecordBytesIff(host, v, w);
    }
  }

  lemma ComparedBytes(
      left: Outcome<seq<Byte>, RouteError>, fault: Option<RouteError>,
      right: Outcome<seq<Byte>, RouteError>, fault': Option<RouteError>, same: bool)
    requires fault == if left.Ok? then None else Some(left.error)
    requires fault' == if right.Ok? then None else Some(right.error)
    requires left.Ok? && right.Ok? ==> (left.value == right.value <==> same)
    ensures Compared(left, right) ==
      if fault.Some? then Err(fault.value) else if fault'.Some? then Err(fault'.value) else Ok(same)
  {
  }

  lemma PlainRoute(r: Route) returns (v: Value)
    ensures v == RouteValue(r) && Presents(v, r) && CeilingInOrder(v)
  {
    v := RouteValue(r);
    RouteKeyed(r);
    SameRouteRecord(r, r);
    PlainCeiling(r);
  }

  lemma PlainCeiling(r: Route)
    ensures CeilingInOrder(RouteValue(r))
  {
    var g := RouteFields(r);
    RouteFieldKeys(r);
    LookupAt(g, 4);
    assert g[4].key == RouteKeys()[4];
    AccessFieldKeys(r.accessCeiling);
  }

  // ----- every accepted object presents a route

  function ReadNullable(v: Value): Option<Text> { if v.Str? then Some(v.s) else None }

  function ReadParts(host: Host, p: Parts): Route
    requires ValidParts(host, p)
  {
    Route(if p.kind == Str(Ascii("local")) then Local else Routed, p.endpointId.s, p.controllerPrincipalId.s,
      if p.kind == Str(Ascii("local")) then LocalOnly else RoutedPolicy, ReadAccess(p.accessCeiling.fields).value,
      ReadNullable(p.hubId), ReadNullable(p.routeId), ReadNullable(p.streamId))
  }

  lemma AccessValueRead(host: Host, v: Value)
    requires IsSessionAccessValue(host, v)
    ensures ReadAccess(v.fields).Some? && v == Record(AccessFields(ReadAccess(v.fields).value))
  {
    var a := ReadAccess(v.fields).value;
    AccessReads(NormalizeSessionAccess(host, Some(a.level), a.tabIds, a.domains).value);
  }

  lemma PartsRead(host: Host, p: Parts)
    requires ValidParts(host, p)
    ensures p == RouteParts(ReadParts(host, p))
  {
    AccessValueRead(host, p.accessCeiling);
    assert |Ascii("local")| == 5 && |Ascii("routed")| == 6;
  }

  /** Members fit one by one: then so do the records. */
  lemma SameFromParts(f: seq<Field>, r: Route)
    requires HasExactly(f, RouteKeys()) && PartsOf(f) == RouteParts(r) && WellKeyed(Record(f))
    ensures Presents(Record(f), r)
  {
    var g := RouteFields(r);
    RouteKeyed(r);
    RouteFieldKeys(r);
    RouteFieldParts(r);
    SameRouteRecord(r, r);
    SameByPosition(g, g);
    forall i | 0 <= i < 8 ensures g[i].key in Keys(f) && Same(g[i].value, Lookup(f, g[i].key)) {
      assert g[i].key == RouteKeys()[i];
      PartAt(f, g, i);
    }
    assert SameFields(g, f);
    SameSymmetric(Record(g), Record(f));
  }

  lemma PartAt(f: seq<Field>, g: seq<Field>, i: nat)
    requires i < 8 == |g| && HasExactly(f, RouteKeys())
    requires var p := PartsOf(f);
      && g[0].value == p.kind && g[1].value == p.endpointId && g[2].value == p.controllerPrincipalId
      && g[3].value == p.routePolicy && g[4].value == p.accessCeiling
      && g[5].value == p.hubId && g[6].value == p.routeId && g[7].value == p.streamId
    ensures RouteKeys()[i] in Keys(f) && g[i].value == Lookup(f, RouteKeys()[i])
  {
    var keys := RouteKeys();
    assert keys[i] in Keys(f) && Get(f, keys[i]) == Lookup(f, keys[i]);
  }

  /** Whatever bare object has canonical bytes presents a valid route. */
  lemma AcceptedPresentsRoute(host: Host, v: Value) returns (r: Route)
    requires WellKeyed(v) && Subject(v) == v && CanonicalRouteAwareRecord(host, v).Ok?
    ensures Presents(v, r) && IsRouteProvenance(host, r)
  {
    var p := PartsOf(v.fields);
    r := ReadParts(host, p);
    PartsRead(host, p);
    SameFromParts(v.fields, r);
    RouteObjectValid(host, v, r);
  }

  // ----- two routes that have no canonical bytes

  function PlainId(): Text { Ascii("sha256/A") }

  lemma PlainIdFits()
    ensures IsFingerprint(PlainId())
  {
    assert PlainId()[..7] == Ascii("sha256/");
    assert PlainId()[7] == 0x41;
  }

  lemma EmptyAccessFits(host: Host)
    ensures IsSessionAccess(host, Access(SelectedTabs, [], []))
  {
    assert Sorting.Dedupe<int>([]) == [] && Sorting.Sort(Sorting.IntLess, []) == [];
    assert Sorting.Dedupe<Text>([]) == [] && Sorting.Sort(Sorting.TextLess, []) == [];
  }

  /** A route with its ceiling written tabIds, level, domains: the printer sees no difference, the validator does. */
  lemma ReorderedCeilingRefused(host: Host) returns (r: Route, v: Value, w: Value)
    ensures IsRouteProvenance(host, r) && SafeTabIds(r.accessCeiling) && v == RouteValue(r) && Presents(w, r)
    ensures CanonicalBytes(w).Ok? && CanonicalBytes(w) == CanonicalBytes(v)
    ensures CanonicalRouteAwareRecord(host, v).Ok? && CanonicalRouteAwareRecord(host, w) == Err(InvalidRoute)
  {
    var a := Access(SelectedTabs, [], []);
    r := LocalRoute(PlainId(), PlainId(), a);
    PlainIdFits();
    EmptyAccessFits(host);
    assert IsRouteProvenance(host, r) && SafeTabIds(r.accessCeiling);
    v := PlainRoute(r);
    w := Reordered(r);
    OnlyTheOrderDiffers(host, r, v, w);
  }

  lemma OnlyTheOrderDiffers(host: Host, r: Route, v: Value, w: Value)
    requires IsRouteProvenance(host, r) && SafeTabIds(r.accessCeiling)
    requires Presents(v, r) && Presents(w, r) && CeilingInOrder(v) && !CeilingInOrder(w)
    ensures CanonicalBytes(w).Ok? && CanonicalBytes(w) == CanonicalBytes(v)
    ensures CanonicalRouteAwareRecord(host, v).Ok? && CanonicalRouteAwareRecord(host, w) == Err(InvalidRoute)
  {
    SupportedObject(v, r);
    SupportedObject(w, r);
    PresentedSame(w, r, v, r);
    CanonicalBytesIff(w, v);
    RouteObjectBytes(host, v, r);
    RouteObjectBytes(host, w, r);
  }

  lemma RouteRecord(r: Route)
    ensures var g := RouteFields(r);
      && Keys(g) == RouteKeys() && Sorting.Distinct(RouteKeys()) && WellKeyed(Record(g)) && Same(Record(g), Record(g))
      && |g| == 8 && g[4].value == Record(AccessFields(r.accessCeiling))
  {
    RouteKeyed(r);
    RouteFieldKeys(r);
    SameRouteRecord(r, r);
  }

  lemma Reordered(r: Route) returns (w: Value)
    ensures Presents(w, r) && !CeilingInOrder(w)
  {
    var f := AccessFields(r.accessCeiling);
    ReorderedAccess(r.accessCeiling);
    RouteRecord(r);
    w := SwapCeiling(RouteFields(r), f, [f[1], f[0], f[2]]);
  }

  lemma SwapCeiling(g: seq<Field>, f: seq<Field>, swapped: seq<Field>) returns (w: Value)
    requires Keys(g) == RouteKeys() && Sorting.Distinct(RouteKeys()) && WellKeyed(Record(g))
    requires Same(Record(g), Record(g))
    requires |g| == 8 && g[4].value == Record(f)
    requires WellKeyed(Record(swapped)) && Same(Record(swapped), Record(f)) && swapped != [] && |swapped[0].key| == 6
    ensures WellKeyed(w) && Same(w, Record(g)) && !CeilingInOrder(w)
  {
    var h := g[4 := Field(g[4].key, Record(swapped))];
    assert Keys(g) == Keys(h);
    ReplacedMember(g, h, 4);
    SwappedCeiling(h, swapped);
    w := Record(h);
  }

  lemma SwappedCeiling(h: seq<Field>, swapped: seq<Field>)
    requires |h| == 8 && Keys(h) == RouteKeys() && Sorting.Distinct(Keys(h)) && h[4].value == Record(swapped)
    requires swapped != [] && |swapped[0].key| == 6
    ensures !CeilingInOrder(Record(h))
  {
    LookupAt(h, 4);
    assert h[4].key == Keys(h)[4];
    assert PartsOf(h).accessCeiling == Record(swapped);
    assert Keys(swapped)[0] == swapped[0].key && |AccessKeys()[0]| == 5;
  }

  /** Replacing a member by one that is equal to it as a value keeps the record equal as a value. */
  lemma ReplacedMember(g: seq<Field>, h: seq<Field>, k: nat)
    requires k < |g| == |h| && Keys(g) == Keys(h) && WellKeyed(Record(g)) && Same(Record(g), Record(g))
    requires forall i :: 0 <= i < |g| && i != k ==> h[i] == g[i]
    requires WellKeyed(h[k].value) && Same(h[k].value, g[k].value)
    ensures WellKeyed(Record(h)) && Same(Record(h), Record(g))
  {
    SameByPosition(g, g);
    SameByPosition(h, g);
  }

  lemma ReorderedAccess(a: Access)
    ensures var f := AccessFields(a);
      && WellKeyed(Record([f[1], f[0], f[2]])) && Same(Record([f[1], f[0], f[2]]), Record(f)) && |f[1].key| == 6
  {
    var f := AccessFields(a);
    var swapped := [f[1], f[0], f[2]];
    AccessKeyed(a);
    AccessFieldKeys(a);
    SameAccessRecord(a, a);
    SameByPosition(f, f);
    LookupAt(f, 0);
    LookupAt(f, 1);
    LookupAt(f, 2);
    assert Keys(swapped) == [f[1].key, f[0].key, f[2].key];
    assert |f[0].key| == 5 && |f[1].key| == 6 && |f[2].key| == 7;
    assert SameFields(swapped, f);
  }

  const TWO_TO_THE_53 := 0x20_0000_0000_0000

  lemma OneTabFits(host: Host, tab: nat)
    ensures IsSessionAccess(host, Access(SelectedTabs, [tab], []))
  {
    EmptyAccessFits(host);
    var tabIds := [tab as int];
    assert tabIds[..0] == [] && Sorting.Dedupe(tabIds) == tabIds && Sorting.Sort(Sorting.IntLess, tabIds) == tabIds;
  }

  /** A valid local route for tab 2^53 has no canonical bytes, and comparing it throws. */
  lemma UnsafeTabIdThrows(host: Host) returns (r: Route, v: Value)
    ensures IsRouteProvenance(host, r) && r.accessCeiling.tabIds == [TWO_TO_THE_53] && v == RouteValue(r)
    ensures CanonicalRouteAwareRecord(host, v) == Err(UnsafeNumber)
    ensures SameRouteProvenance(host, v, v) == Err(UnsafeNumber)
  {
    r := LocalRoute(PlainId(), PlainId(), Access(SelectedTabs, [TWO_TO_THE_53], []));
    PlainIdFits();
    OneTabFits(host, TWO_TO_THE_53);
    v := PlainRoute(r);
    RouteObjectBytes(host, v, r);
    SameRouteProvenanceExact(host, v, r, v, r);
  }
}
