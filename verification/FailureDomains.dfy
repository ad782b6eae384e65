/**
  Failure domains of a VSphereCluster: the v1beta1 map and v1beta2 list forms with the conversions between the two
  statuses, and the list that the VSphereCluster controller publishes from its deployment zones.
 */
module FailureDomains {
  import opened Common
  import opened Ordering

  type Attributes = map<string, string>

  datatype FailureDomainSpec = FailureDomainSpec(controlPlane: bool, attributes: Attributes)
  datatype FailureDomain = FailureDomain(name: string, controlPlane: Option<bool>, attributes: Attributes)

  /** Conditions of either API version; the conversions only move them. */
  type Conditions = seq<string>

  /** None is Go's nil. `v1beta2` is a pointer to a struct holding a slice. */
  datatype StatusV1Beta1 = StatusV1Beta1(
    conditions: Option<Conditions>, failureDomains: Option<map<string, FailureDomainSpec>>,
    vCenterVersion: string, v1beta2: Option<Option<Conditions>>)

  /** `deprecated` is a pointer to a struct holding a pointer to a struct holding the legacy conditions. */
  datatype StatusV1Beta2 = StatusV1Beta2(
    conditions: Option<Conditions>, failureDomains: Option<seq<FailureDomain>>,
    vCenterVersion: string, deprecated: Option<Option<Option<Conditions>>>)

  // ---------------------------------------------------------------------------------------------
  // Conversions
  // ---------------------------------------------------------------------------------------------

  function SpecOf(fd: FailureDomain): FailureDomainSpec {
    FailureDomainSpec(fd.controlPlane == Some(true), fd.attributes)
  }

  function DomainOf(name: string, spec: FailureDomainSpec): FailureDomain {
    FailureDomain(name, Some(spec.controlPlane), spec.attributes)
  }

  function ToMap(list: seq<FailureDomain>): map<string, FailureDomainSpec> {
    if list == [] then map[] else ToMap(list[..|list| - 1])[list[|list| - 1].name := SpecOf(list[|list| - 1])]
  }

  function ListOf(names: seq<string>, m: map<string, FailureDomainSpec>): seq<FailureDomain>
    requires forall i :: 0 <= i < |names| ==> names[i] in m
  {
    seq(|names|, i requires 0 <= i < |names| => DomainOf(names[i], m[names[i]]))
  }

  ghost function ToList(m: map<string, FailureDomainSpec>): seq<FailureDomain> {
    var names := Sorted(m.Keys);
    assert forall i :: 0 <= i < |names| ==> names[i] in names;
    ListOf(names, m)
  }

  ghost function Down(s: StatusV1Beta2): StatusV1Beta1 {
    StatusV1Beta1(
      if s.deprecated.Some? && s.deprecated.value.Some? then s.deprecated.value.value else None,
      if s.failureDomains.Some? then Some(ToMap(s.failureDomains.value)) else None,
      s.vCenterVersion,
      if s.conditions.Some? then Some(s.conditions) else None)
  }

  ghost function Up(s: StatusV1Beta1): StatusV1Beta2 {
    StatusV1Beta2(
      if s.v1beta2.Some? then s.v1beta2.value else None,
      if s.failureDomains.Some? then Some(ToList(s.failureDomains.value)) else None,
      s.vCenterVersion,
      if s.conditions.Some? then Some(Some(s.conditions)) else None)
  }

  method ConvertStatusToV1Beta1(s: StatusV1Beta2) returns (out: StatusV1Beta1)
    ensures out == Down(s)
  {
    out := StatusV1Beta1(None, None, s.vCenterVersion, None);
    if s.deprecated.Some? && s.deprecated.value.Some? {
      if s.deprecated.value.value.Some? {
        out := out.(conditions := s.deprecated.value.value);
      }
    }
    if s.failureDomains.Some? {
      var list := s.failureDomains.value;
      var domains: map<string, FailureDomainSpec> := map[];
      for i := 0 to |list|
        invariant domains == ToMap(list[..i])
      {
        assert list[..i + 1][..i] == list[..i];
        domains := domains[list[i].name := FailureDomainSpec(list[i].controlPlane == Some(true), list[i].attributes)];
      }
      assert list[..|list|] == list;
      out := out.(failureDomains := Some(domains));
    }
    if s.conditions.None? {
      return;
    }
    out := out.(v1beta2 := Some(s.conditions));
  }

  method ConvertStatusToV1Beta2(s: StatusV1Beta1) returns (out: StatusV1Beta2)
    ensures out == Up(s)
  {
    out := StatusV1Beta2(None, None, s.vCenterVersion, None);
    if s.v1beta2.Some? {
      out := out.(conditions := s.v1beta2.value);
    }
    if s.failureDomains.Some? {
      var domains := s.failureDomains.value;
      var names := SortNames(domains.Keys);
      assert forall i :: 0 <= i < |names| ==> names[i] in names;
      var list: seq<FailureDomain> := [];
      for i := 0 to |names|
        invariant list == ListOf(names[..i], domains)
      {
        var fd := domains[names[i]];
        list := list + [FailureDomain(names[i], Some(fd.controlPlane), fd.attributes)];
      }
      assert names[..|names|] == names;
      out := out.(failureDomains := Some(list));
    }
    if s.conditions.None? {
      return;
    }
    out := out.(deprecated := Some(Some(s.conditions)));
  }

  // ---------------------------------------------------------------------------------------------
  // Round trips
  // ---------------------------------------------------------------------------------------------

  function DomainNames(list: seq<FailureDomain>): seq<string> {
    seq(|list|, i requires 0 <= i < |list| => list[i].name)
  }

  ghost predicate SortedByName(list: seq<FailureDomain>) {
    forall i, j :: 0 <= i < j < |list| ==> Less(list[i].name, list[j].name)
  }

  /** The lists that the map form can represent: sorted by name without duplicates, with every flag set. */
  ghost predicate Canonical(list: seq<FailureDomain>) {
    SortedByName(list) && forall i :: 0 <= i < |list| ==> list[i].controlPlane.Some?
  }

  lemma {:induction false} ToMapKeys(list: seq<FailureDomain>)
    ensures forall name :: name in ToMap(list) <==> name in DomainNames(list)
  {
    if list != [] {
      var front, last := list[..|list| - 1], list[|list| - 1];
      ToMapKeys(front);
      assert DomainNames(list) == DomainNames(front) + [last.name];
    }
  }

  /** The last entry of a name decides. */
  lemma {:induction false} ToMapLast(list: seq<FailureDomain>, i: nat)
    requires i < |list| && forall j :: i < j < |list| ==> list[j].name != list[i].name
    ensures list[i].name in ToMap(list) && ToMap(list)[list[i].name] == SpecOf(list[i])
  {
    if i < |list| - 1 {
      ToMapLast(list[..|list| - 1], i);
    }
  }

  /** In a converted list each name has the flag, false when missing, and the attributes of its last entry. */
  lemma DowngradedEntry(list: seq<FailureDomain>, i: nat)
    requires i < |list| && forall j :: i < j < |list| ==> list[j].name != list[i].name
    ensures list[i].name in ToMap(list)
    ensures var spec := ToMap(list)[list[i].name];
            spec.controlPlane == (list[i].controlPlane == Some(true)) && spec.attributes == list[i].attributes
  {
    ToMapLast(list, i);
  }

  /** Legacy and new conditions never turn into one another, and the vCenter version is kept. */
  lemma ConditionsStayApart(down: StatusV1Beta2, up: StatusV1Beta1)
    ensures (down.deprecated.Some? && down.deprecated.value.Some? ==> Down(down).conditions == down.deprecated.value.value)
            && (down.deprecated == None || down.deprecated == Some(None) ==> Down(down).conditions == None)
            && (if down.conditions.Some? then Down(down).v1beta2 == Some(down.conditions) else Down(down).v1beta2 == None)
            && Down(down).vCenterVersion == down.vCenterVersion
    ensures (up.v1beta2.Some? ==> Up(up).conditions == up.v1beta2.value) && (up.v1beta2.None? ==> Up(up).conditions == None)
            && (if up.conditions.Some? then Up(up).deprecated == Some(Some(up.conditions)) else Up(up).deprecated == None)
            && Up(up).vCenterVersion == up.vCenterVersion
  {
  }

  lemma SortedLast(list: seq<FailureDomain>, i: nat)
    requires SortedByName(list) && i < |list|
    ensures forall j :: i < j < |list| ==> list[j].name != list[i].name
  {
    LessIrreflexive(list[i].name);
  }

  /** A sorted list and its map have the same contents. */
  lemma ToMapSorted(list: seq<FailureDomain>, i: nat)
    requires SortedByName(list) && i < |list|
    ensures list[i].name in ToMap(list) && ToMap(list)[list[i].name] == SpecOf(list[i])
  {
    SortedLast(list, i);
    ToMapLast(list, i);
  }

  lemma ToListExact(m: map<string, FailureDomainSpec>)
    ensures var list := ToList(m);
            && Canonical(list)
            && DomainNames(list) == Sorted(m.Keys)
            && forall i :: 0 <= i < |list| ==> list[i].name in m && list[i] == DomainOf(list[i].name, m[list[i].name])
  {
    var names := Sorted(m.Keys);
    assert forall i :: 0 <= i < |names| ==> names[i] in names;
    assert DomainNames(ToList(m)) == names;
  }

  /** Every v1beta1 map survives. */
  lemma MapRoundTrip(m: map<string, FailureDomainSpec>)
    ensures ToMap(ToList(m)) == m
  {
    var list := ToList(m);
    ToListExact(m);
    ToMapKeys(list);
    forall name | name in m ensures name in ToMap(list) && ToMap(list)[name] == m[name] {
      assert name in DomainNames(list);
      var i :| 0 <= i < |list| && DomainNames(list)[i] == name;
      ToMapSorted(list, i);
    }
  }

  lemma NamesSurvive(list: seq<FailureDomain>)
    requires SortedByName(list)
    ensures DomainNames(ToList(ToMap(list))) == DomainNames(list)
  {
    ToListExact(ToMap(list));
    ToMapKeys(list);
    SortedUnique(DomainNames(list), Sorted(ToMap(list).Keys));
  }

  lemma EntrySurvives(list: seq<FailureDomain>, i: nat)
    requires Canonical(list) && i < |list|
    ensures |ToList(ToMap(list))| == |list| && ToList(ToMap(list))[i] == list[i]
  {
    var back := ToList(ToMap(list));
    NamesSurvive(list);
    assert |DomainNames(back)| == |back| && DomainNames(back)[i] == back[i].name && DomainNames(list)[i] == list[i].name;
    ToListExact(ToMap(list));
    ToMapSorted(list, i);
    assert back[i] == DomainOf(list[i].name, SpecOf(list[i]));
    FlagKept(list[i].controlPlane);
  }

  lemma FlagKept(flag: Option<bool>)
    requires flag.Some?
    ensures Some(flag == Some(true)) == flag
  {
    if flag.value {
      assert flag == Some(true);
    } else {
      assert flag == Some(false);
    }
  }

  lemma CanonicalSurvives(list: seq<FailureDomain>)
    requires Canonical(list)
    ensures ToList(ToMap(list)) == list
  {
    var back := ToList(ToMap(list));
    NamesSurvive(list);
    assert |back| == |DomainNames(back)| == |list|;
    forall i | 0 <= i < |list| ensures back[i] == list[i] {
      EntrySurvives(list, i);
    }
  }

  /** A v1beta2 list survives exactly when it is canonical. */
  lemma ListRoundTrip(list: seq<FailureDomain>)
    ensures ToList(ToMap(list)) == list <==> Canonical(list)
  {
    ToListExact(ToMap(list));
    if Canonical(list) {
      CanonicalSurvives(list);
    }
  }

  /** v1beta1 statuses survive exactly when the v1beta2 group is absent or holds conditions. */
  lemma StatusRoundTripV1Beta1(s: StatusV1Beta1)
    ensures Down(Up(s)) == s <==> s.v1beta2 != Some(None)
  {
    if s.failureDomains.Some? {
      MapRoundTrip(s.failureDomains.value);
    }
  }

  /** v1beta2 statuses survive exactly with a canonical list and a deprecated group that is absent or complete. */
  lemma StatusRoundTripV1Beta2(s: StatusV1Beta2)
    ensures Up(Down(s)) == s <==>
            && (s.failureDomains.Some? ==> Canonical(s.failureDomains.value))
            && (s.deprecated.Some? ==> s.deprecated.value.Some? && s.deprecated.value.value.Some?)
  {
    if s.failureDomains.Some? {
      ListRoundTrip(s.failureDomains.value);
    }
  }

  // ---------------------------------------------------------------------------------------------
  // Publishing the zones
  // ---------------------------------------------------------------------------------------------

  datatype DeploymentZone = DeploymentZone(name: string, server: string, controlPlane: Option<bool>, ready: Option<bool>)

  /** A zone of the cluster's server that has not reported that it is not ready. */
  predicate Selected(zone: DeploymentZone, server: string) {
    zone.server == server && zone.ready != Some(false)
  }

  function Published(zones: seq<DeploymentZone>, server: string): seq<FailureDomain> {
    if zones == [] then []
    else
      var last := zones[|zones| - 1];
      Published(zones[..|zones| - 1], server)
      + if Selected(last, server) then [FailureDomain(last.name, last.controlPlane, map[])] else []
  }

  /** The domain stands for a zone of the server that has not reported that it is not ready. */
  ghost predicate IsPublished(fd: FailureDomain, zones: seq<DeploymentZone>, server: string) {
    exists i :: && 0 <= i < |zones| && zones[i].server == server && zones[i].ready != Some(false)
                && fd == FailureDomain(zones[i].name, zones[i].controlPlane, map[])
  }

  function InsertDomain(s: seq<FailureDomain>, fd: FailureDomain): seq<FailureDomain> {
    if s == [] then [fd] else if Less(s[0].name, fd.name) then [s[0]] + InsertDomain(s[1..], fd) else [fd] + s
  }

  lemma {:induction false} InsertDomainElements(s: seq<FailureDomain>, fd: FailureDomain)
    ensures multiset(InsertDomain(s, fd)) == multiset(s) + multiset{fd}
  {
    if s != [] {
      assert s == [s[0]] + s[1..];
      InsertDomainElements(s[1..], fd);
    }
  }

  lemma {:induction false} InsertDomainSorted(s: seq<FailureDomain>, fd: FailureDomain)
    requires SortedByName(s) && forall x :: x in s ==> x.name != fd.name
    ensures SortedByName(InsertDomain(s, fd))
  {
    if s != [] {
      var first, rest := s[0], s[1..];
      LessTotal(first.name, fd.name);
      if Less(first.name, fd.name) {
        InsertDomainSorted(rest, fd);
        InsertDomainElements(rest, fd);
        var t := InsertDomain(rest, fd);
        forall i | 0 <= i < |t| ensures Less(first.name, t[i].name) {
          assert t[i] in multiset(t);
          if t[i] != fd {
            assert t[i] in rest;
          }
        }
      } else {
        assert first in s;
        forall i | 0 <= i < |s| ensures Less(fd.name, s[i].name) {
          if i > 0 {
            LessTransitive(fd.name, first.name, s[i].name);
          }
        }
      }
    }
  }

  ghost predicate DistinctNames(zones: seq<DeploymentZone>) {
    forall i, j :: 0 <= i < j < |zones| ==> zones[i].name != zones[j].name
  }

  /** `list` is what the controller publishes: the selected zones, sorted by name. */
  ghost predicate PublishedSorted(list: seq<FailureDomain>, zones: seq<DeploymentZone>, server: string) {
    multiset(list) == multiset(Published(zones, server)) && SortedByName(list)
  }

  lemma {:induction false} PublishedNames(zones: seq<DeploymentZone>, server: string, name: string)
    requires name in DomainNames(Published(zones, server))
    ensures exists i :: 0 <= i < |zones| && zones[i].name == name
  {
    var last := |zones| - 1;
    var front := Published(zones[..last], server);
    if name in DomainNames(front) {
      PublishedNames(zones[..last], server, name);
      var i :| 0 <= i < last && zones[..last][i].name == name;
      assert zones[i].name == name;
    } else {
      assert DomainNames(Published(zones, server))[..|front|] == DomainNames(front);
      assert zones[last].name == name;
    }
  }

  /** Zone names are unique, as for every cluster-scoped object. */
  method ReconcileDeploymentZones(zones: seq<DeploymentZone>, server: string)
    returns (failureDomains: seq<FailureDomain>, ok: bool)
    requires DistinctNames(zones)
    ensures PublishedSorted(failureDomains, zones, server)
    ensures forall fd :: fd in failureDomains <==> IsPublished(fd, zones, server)
    ensures ok <==> forall i :: 0 <= i < |zones| && zones[i].server == server ==> zones[i].ready.Some?
  {
    failureDomains := [];
    var readyNotReported := 0;
    for i := 0 to |zones|
      invariant failureDomains == Published(zones[..i], server)
      invariant readyNotReported >= 0
      invariant readyNotReported == 0 <==> forall j :: 0 <= j < i && zones[j].server == server ==> zones[j].ready.Some?
    {
      assert zones[..i + 1][..i] == zones[..i];
      var zone := zones[i];
      if zone.server != server {
        continue;
      }
      if zone.ready.None? {
        readyNotReported := readyNotReported + 1;
        failureDomains := failureDomains + [FailureDomain(zone.name, zone.controlPlane, map[])];
        continue;
      }
      if zone.ready.value {
        failureDomains := failureDomains + [FailureDomain(zone.name, zone.controlPlane, map[])];
        continue;
      }
    }
    assert zones[..|zones|] == zones;
    PublishedDistinct(zones, server);
    failureDomains := SortDomains(failureDomains);
    PublishedMembers(failureDomains, zones, server);
    ok := readyNotReported == 0;
  }

  lemma {:induction false} PublishedDistinct(zones: seq<DeploymentZone>, server: string)
    requires DistinctNames(zones)
    ensures Distinct(DomainNames(Published(zones, server)))
  {
    if zones != [] {
      var n := |zones| - 1;
      PublishedDistinct(zones[..n], server);
      var front, all := Published(zones[..n], server), Published(zones, server);
      forall i, j | 0 <= i < j < |all| ensures DomainNames(all)[i] != DomainNames(all)[j] {
        assert DomainNames(all)[i] == DomainNames(front)[i];
        if j < |front| {
          assert DomainNames(all)[j] == DomainNames(front)[j];
        } else {
          PublishedNames(zones[..n], server, DomainNames(front)[i]);
          var k :| 0 <= k < n && zones[..n][k].name == DomainNames(front)[i];
          assert zones[k].name != zones[n].name;
        }
      }
    }
  }

  method SortDomains(list: seq<FailureDomain>) returns (r: seq<FailureDomain>)
    requires Distinct(DomainNames(list))
    ensures multiset(r) == multiset(list) && SortedByName(r)
  {
    r := [];
    for i := 0 to |list|
      invariant multiset(r) == multiset(list[..i])
      invariant SortedByName(r)
    {
      assert list[..i + 1] == list[..i] + [list[i]];
      forall x | x in r ensures x.name != list[i].name {
        assert x in multiset(list[..i]);
        var j :| 0 <= j < i && list[j] == x;
        assert DomainNames(list)[j] != DomainNames(list)[i];
      }
      InsertDomainElements(r, list[i]);
      InsertDomainSorted(r, list[i]);
      r := InsertDomain(r, list[i]);
    }
    assert list[..|list|] == list;
  }

  /** The published domains are those of the server's zones that have not reported that they are not ready. */
  lemma PublishedMembers(list: seq<FailureDomain>, zones: seq<DeploymentZone>, server: string)
    requires PublishedSorted(list, zones, server)
    ensures forall fd :: fd in list <==> IsPublished(fd, zones, server)
  {
    var published := Published(zones, server);
    forall fd ensures fd in list <==> IsPublished(fd, zones, server) {
      PublishedExact(zones, server, fd);
      assert fd in multiset(list) <==> fd in multiset(published);
    }
  }

  /** Every published zone sets its control-plane flag. */
  ghost predicate AllFlagged(zones: seq<DeploymentZone>, server: string) {
    forall i :: 0 <= i < |zones| && zones[i].server == server && zones[i].ready != Some(false) ==> zones[i].controlPlane.Some?
  }

  lemma FlaggedExact(list: seq<FailureDomain>, zones: seq<DeploymentZone>, server: string)
    requires PublishedSorted(list, zones, server)
    ensures Canonical(list) <==> AllFlagged(zones, server)
  {
    PublishedMembers(list, zones, server);
    if Canonical(list) {
      forall i | 0 <= i < |zones| && zones[i].server == server && zones[i].ready != Some(false) ensures zones[i].controlPlane.Some? {
        var fd := FailureDomain(zones[i].name, zones[i].controlPlane, map[]);
        assert IsPublished(fd, zones, server);
        var k :| 0 <= k < |list| && list[k] == fd;
      }
    } else {
      var k :| 0 <= k < |list| && list[k].controlPlane.None?;
      assert IsPublished(list[k], zones, server);
    }
  }

  /** What the controller publishes survives the trip through v1beta1 exactly when every published zone sets its flag. */
  lemma PublishedSurvives(list: seq<FailureDomain>, zones: seq<DeploymentZone>, server: string)
    requires PublishedSorted(list, zones, server)
    ensures ToList(ToMap(list)) == list <==> AllFlagged(zones, server)
  {
    ListRoundTrip(list);
    FlaggedExact(list, zones, server);
  }

  lemma {:induction false} PublishedExact(zones: seq<DeploymentZone>, server: string, fd: FailureDomain)
    ensures fd in Published(zones, server) <==> IsPublished(fd, zones, server)
  {
    if zones != [] {
      var n := |zones| - 1;
      PublishedExact(zones[..n], server, fd);
      assert forall i :: 0 <= i < n ==> zones[..n][i] == zones[i];
    }
  }
}
