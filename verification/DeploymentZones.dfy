/**
  VSphereDeploymentZones and the VSphereFailureDomains they share. The owner references of a failure domain are its
  reference count: a zone adds its own before it reports Ready, takes it away before it gives up its finalizer, and the
  last zone to be deleted deletes the domain. Each reconcile is one step; zones keep their domain, and nobody else edits
  domains.
 */
module DeploymentZones {
  import opened Common
  import opened OwnerReferences

  datatype Zone = Zone(name: string, uid: string, failureDomain: string, ready: Option<bool>, deleting: bool, finalizer: bool)
  datatype Domain = Domain(owners: seq<OwnerReference>, deleting: bool)
  datatype Machine = Machine(failureDomain: string, active: bool)

  /** Outcomes of the vCenter checks and API calls of a normal reconcile. */
  datatype Checks = Checks(
    readDomain: bool, session: bool, placementConstraint: bool, failureDomainValid: bool, patchDomain: bool, patchZone: bool)

  /** Outcomes of the API calls of a delete reconcile. */
  datatype Calls = Calls(listMachines: bool, readDomain: bool, patchDomain: bool, deleteDomain: bool, patchZone: bool)

  function ZoneReference(name: string, uid: string): OwnerReference {
    InfrastructureReference("VSphereDeploymentZone", name, uid)
  }

  /** The owner reference that a zone writes, with its uid. */
  function ReferenceOf(zone: Zone): OwnerReference {
    OwnerReference(INFRASTRUCTURE_GROUP + "/" + "v1beta2", "VSphereDeploymentZone", zone.name, zone.uid, false)
  }

  predicate InUse(machines: seq<Machine>, zone: string) {
    exists i :: 0 <= i < |machines| && machines[i].active && machines[i].failureDomain == zone
  }

  predicate IsReady(zone: Zone) {
    zone.ready == Some(true) && !zone.deleting
  }

  predicate HoldsReference(domain: Domain, zone: string) {
    Owned(domain.owners, ZoneReference(zone, ""))
  }

  /** The domain has no owner but, possibly, this zone. */
  predicate NoOtherOwner(domain: Domain, zone: string) {
    forall i :: 0 <= i < |domain.owners| ==> SameObject(domain.owners[i], ZoneReference(zone, ""))
  }

  // ---------------------------------------------------------------------------------------------
  // Reconciling one zone
  // ---------------------------------------------------------------------------------------------

  datatype System = System(zones: map<string, Zone>, domains: map<string, Domain>)

  /** The zone as the deferred patch leaves it. */
  function Patched(s: System, zone: Zone, patchZone: bool): System {
    if patchZone then s.(zones := s.zones[zone.name := zone]) else s
  }

  function AfterNormal(s: System, zone: Zone, c: Checks): System {
    if zone.failureDomain !in s.domains || !c.readDomain then s
    else if !c.session || !c.placementConstraint || !c.failureDomainValid || !c.patchDomain then
      Patched(s, zone.(ready := Some(false)), c.patchZone)
    else
      var domain := s.domains[zone.failureDomain];
      var owned := domain.(owners := Ensure(domain.owners, ZoneReference(zone.name, zone.uid)));
      Patched(s.(domains := s.domains[zone.failureDomain := owned]), zone.(ready := Some(true)), c.patchZone)
  }

  function AfterDelete(s: System, zone: Zone, machines: seq<Machine>, c: Calls): System {
    if !c.listMachines || InUse(machines, zone.name) then s
    else if zone.failureDomain !in s.domains then Patched(s, zone.(finalizer := false), c.patchZone)
    else if !c.readDomain || !c.patchDomain then s
    else
      var domain := s.domains[zone.failureDomain];
      var left := domain.(owners := Remove(domain.owners, ZoneReference(zone.name, "")));
      if left.owners != [] || left.deleting then
        Patched(s.(domains := s.domains[zone.failureDomain := left]), zone.(finalizer := false), c.patchZone)
      else if !c.deleteDomain then s.(domains := s.domains[zone.failureDomain := left])
      else Patched(s.(domains := s.domains - {zone.failureDomain}), zone.(finalizer := false), c.patchZone)
  }

  class ZoneReconciler {
    var zones: map<string, Zone>
    var domains: map<string, Domain>

    function View(): System reads this {
      System(zones, domains)
    }

    method ReconcileNormal(name: string, c: Checks) returns (ok: bool)
      requires name in zones && zones[name].name == name && !zones[name].deleting
      modifies this
      ensures View() == AfterNormal(old(View()), old(zones[name]), c)
      ensures ok <==> && old(zones[name]).failureDomain in old(domains) && c.readDomain
                      && c.session && c.placementConstraint && c.failureDomainValid && c.patchDomain
      ensures zones == if old(zones[name]).failureDomain in old(domains) && c.readDomain && c.patchZone
                       then old(zones)[name := old(zones[name]).(ready := Some(ok))] else old(zones)
      ensures !ok ==> domains == old(domains)
      ensures ok ==> var d := old(zones[name]).failureDomain;
                     && domains == old(domains)[d := old(domains)[d].(owners := domains[d].owners)]
                     && HoldsReference(domains[d], name)
                     && ReferenceOf(old(zones[name])) in domains[d].owners
    {
      var zone := zones[name];
      if zone.failureDomain !in domains || !c.readDomain {
        return false;
      }
      ok := c.session && c.placementConstraint && c.failureDomainValid;
      if ok {
        ok := UpdateOwnerReferences(zone.failureDomain,
          Ensure(domains[zone.failureDomain].owners, ZoneReference(zone.name, zone.uid)), c.patchDomain);
      }
      if ok {
        EnsureHolds(old(domains)[zone.failureDomain], zone, name);
        EnsureWrites(old(domains)[zone.failureDomain].owners, ZoneReference(zone.name, zone.uid));
      }
      zone := zone.(ready := Some(ok));
      if c.patchZone {
        zones := zones[name := zone];
      }
    }

    method UpdateOwnerReferences(domain: string, owners: seq<OwnerReference>, patched: bool) returns (ok: bool)
      requires domain in domains
      modifies this`domains
      ensures ok == patched
      ensures domains == if patched then old(domains)[domain := old(domains)[domain].(owners := owners)] else old(domains)
    {
      if patched {
        domains := domains[domain := domains[domain].(owners := owners)];
      }
      return patched;
    }

    method ReconcileDelete(name: string, machines: seq<Machine>, c: Calls) returns (ok: bool)
      requires name in zones && zones[name].name == name && zones[name].deleting
      modifies this
      ensures View() == AfterDelete(old(View()), old(zones[name]), machines, c)
      ensures InUse(machines, name) ==> !ok && domains == old(domains)
      ensures zones == if ok && c.patchZone then old(zones)[name := old(zones[name]).(finalizer := false)] else old(zones)
      ensures ok ==> c.listMachines && (old(zones[name]).failureDomain in old(domains) ==> c.readDomain && c.patchDomain)
      ensures var d := old(zones[name]).failureDomain;
              d in old(domains) && OnePerObject(old(domains)[d].owners) ==>
                && (ok && d in domains ==> !HoldsReference(domains[d], name))
                && (d !in domains <==> ok && NoOtherOwner(old(domains)[d], name) && !old(domains)[d].deleting)
    {
      var zone := zones[name];
      if !c.listMachines || InUse(machines, name) {
        return false;
      }
      if zone.failureDomain in domains {
        if !c.readDomain {
          return false;
        }
        var patched := UpdateOwnerReferences(zone.failureDomain,
          Remove(domains[zone.failureDomain].owners, ZoneReference(zone.name, "")), c.patchDomain);
        if !patched {
          return false;
        }
        DropsReference(old(domains)[zone.failureDomain], name);
        var domain := domains[zone.failureDomain];
        if |domain.owners| == 0 && !domain.deleting {
          if !c.deleteDomain {
            return false;
          }
          domains := domains - {zone.failureDomain};
          assert domains == old(domains) - {zone.failureDomain};
        }
      }
      if c.patchZone {
        zones := zones[name := zone.(finalizer := false)];
      }
      return true;
    }
  }

  // ---------------------------------------------------------------------------------------------
  // Runs
  // ---------------------------------------------------------------------------------------------

  datatype Action =
    | CreateZone(zone: Zone)
    | CreateDomain(name: string, domain: Domain)
    | AddFinalizer(name: string)
    | MarkDeleting(name: string)
    | Vanish(name: string)
    | ReconcileNormal(name: string, checks: Checks)
    | ReconcileDelete(name: string, machines: seq<Machine>, calls: Calls)

  ghost predicate Next(s: System, a: Action, t: System) {
    match a
    case CreateZone(zone) =>
      zone.name !in s.zones && zone.ready == None && !zone.deleting && t == s.(zones := s.zones[zone.name := zone])
    case CreateDomain(name, domain) =>
      && name !in s.domains && OnePerObject(domain.owners) && (forall zone :: !HoldsReference(domain, zone))
      && t == s.(domains := s.domains[name := domain])
    case AddFinalizer(name) =>
      name in s.zones && !s.zones[name].deleting && t == s.(zones := s.zones[name := s.zones[name].(finalizer := true)])
    case MarkDeleting(name) =>
      name in s.zones && t == s.(zones := s.zones[name := s.zones[name].(deleting := true)])
    case Vanish(name) =>
      name in s.zones && s.zones[name].deleting && !s.zones[name].finalizer && t == s.(zones := s.zones - {name})
    case ReconcileNormal(name, checks) =>
      name in s.zones && !s.zones[name].deleting && s.zones[name].finalizer && t == AfterNormal(s, s.zones[name], checks)
    case ReconcileDelete(name, machines, calls) =>
      name in s.zones && s.zones[name].deleting && t == AfterDelete(s, s.zones[name], machines, calls)
  }

  /** A Ready zone that is not being deleted has its domain, and counts as one of its owners. */
  ghost predicate Counted(s: System, name: string) {
    name in s.zones && IsReady(s.zones[name]) ==>
      s.zones[name].failureDomain in s.domains && HoldsReference(s.domains[s.zones[name].failureDomain], name)
  }

  /** Each object owns the domain at most once, and a zone that does still has the finalizer under which it lets go. */
  ghost predicate Backed(s: System, domain: string) {
    domain in s.domains ==>
      && OnePerObject(s.domains[domain].owners)
      && forall zone :: HoldsReference(s.domains[domain], zone) ==>
           zone in s.zones && s.zones[zone].finalizer && s.zones[zone].failureDomain == domain
  }

  ghost predicate Inv(s: System) {
    && (forall name :: name in s.zones ==> s.zones[name].name == name)
    && (forall name :: Counted(s, name))
    && (forall domain :: Backed(s, domain))
  }

  lemma EnsureHolds(domain: Domain, zone: Zone, other: string)
    ensures var owned := domain.(owners := Ensure(domain.owners, ZoneReference(zone.name, zone.uid)));
            HoldsReference(owned, other) <==> HoldsReference(domain, other) || other == zone.name
  {
    InfrastructureGroup("VSphereDeploymentZone", zone.name, zone.uid);
    InfrastructureGroup("VSphereDeploymentZone", other, "");
    EnsureOwned(domain.owners, ZoneReference(zone.name, zone.uid), ZoneReference(other, ""));
  }

  /** Removing a zone's reference leaves those of others, and nothing exactly when there was no other owner. */
  lemma DropsReference(domain: Domain, zone: string)
    ensures var left := domain.(owners := Remove(domain.owners, ZoneReference(zone, "")));
            && (forall other :: other != zone ==> (HoldsReference(left, other) <==> HoldsReference(domain, other)))
            && (OnePerObject(domain.owners) ==>
                  && OnePerObject(left.owners) && !HoldsReference(left, zone)
                  && (left.owners == [] <==> NoOtherOwner(domain, zone)))
  {
    var ref := ZoneReference(zone, "");
    var left := domain.(owners := Remove(domain.owners, ref));
    forall other | other != zone ensures HoldsReference(left, other) <==> HoldsReference(domain, other) {
      RemoveKeepsOthers(domain.owners, ref, ZoneReference(other, ""));
    }
    if OnePerObject(domain.owners) {
      RemoveOnePerObject(domain.owners, ref);
      RemoveLast(domain.owners, ref);
    }
  }

  lemma NormalKeepsCount(s: System, name: string, c: Checks, other: string)
    requires Inv(s) && name in s.zones && !s.zones[name].deleting
    ensures Counted(AfterNormal(s, s.zones[name], c), other)
  {
    var zone := s.zones[name];
    assert Counted(s, other);
    if zone.failureDomain in s.domains {
      EnsureHolds(s.domains[zone.failureDomain], zone, other);
    }
  }

  lemma DeletedKeepsCount(s: System, name: string, machines: seq<Machine>, c: Calls, other: string)
    requires Inv(s) && name in s.zones && s.zones[name].deleting
    ensures Counted(AfterDelete(s, s.zones[name], machines, c), other)
  {
    var zone := s.zones[name];
    assert Counted(s, other);
    if zone.failureDomain in s.domains {
      DropsReference(s.domains[zone.failureDomain], name);
    }
  }

  /** A normal reconcile adds a reference only for its own zone, which has its finalizer. */
  lemma NormalKeepsBacked(s: System, name: string, c: Checks, domain: string)
    requires Inv(s) && name in s.zones && !s.zones[name].deleting && s.zones[name].finalizer
    ensures Backed(AfterNormal(s, s.zones[name], c), domain)
  {
    var zone := s.zones[name];
    assert Backed(s, domain);
    if domain == zone.failureDomain && domain in s.domains {
      InfrastructureGroup("VSphereDeploymentZone", zone.name, zone.uid);
      EnsureOnePerObject(s.domains[domain].owners, ZoneReference(zone.name, zone.uid));
      forall other ensures
        var owned := s.domains[domain].(owners := Ensure(s.domains[domain].owners, ZoneReference(zone.name, zone.uid)));
        HoldsReference(owned, other) <==> HoldsReference(s.domains[domain], other) || other == zone.name
      {
        EnsureHolds(s.domains[domain], zone, other);
      }
    }
  }

  /** A delete reconcile gives up the finalizer only after the reference. */
  lemma DeletedKeepsBacked(s: System, name: string, machines: seq<Machine>, c: Calls, domain: string)
    requires Inv(s) && name in s.zones && s.zones[name].deleting
    ensures Backed(AfterDelete(s, s.zones[name], machines, c), domain)
  {
    var t := AfterDelete(s, s.zones[name], machines, c);
    assert Backed(s, domain);
    if domain in t.domains {
      var before, after := s.domains[domain], t.domains[domain];
      DropsReference(before, name);
      assert after == before || after == before.(owners := Remove(before.owners, ZoneReference(name, "")));
      forall zone | HoldsReference(after, zone)
        ensures zone in t.zones && t.zones[zone].finalizer && t.zones[zone].failureDomain == domain
      {
        assert HoldsReference(before, zone);
      }
    }
  }

  lemma NextKeepsInv(s: System, a: Action, t: System)
    requires Inv(s) && Next(s, a, t)
    ensures Inv(t)
  {
    forall other ensures Counted(t, other) {
      assert Counted(s, other);
      match a
      case ReconcileNormal(name, checks) => NormalKeepsCount(s, name, checks, other);
      case ReconcileDelete(name, machines, calls) => DeletedKeepsCount(s, name, machines, calls, other);
      case _ =>
    }
    forall domain ensures Backed(t, domain) {
      assert Backed(s, domain);
      match a
      case ReconcileNormal(name, checks) => NormalKeepsBacked(s, name, checks, domain);
      case ReconcileDelete(name, machines, calls) => DeletedKeepsBacked(s, name, machines, calls, domain);
      case _ =>
    }
  }

  ghost predicate Run(states: seq<System>, actions: seq<Action>) {
    && |states| == |actions| + 1
    && Inv(states[0])
    && forall i :: 0 <= i < |actions| ==> Next(states[i], actions[i], states[i + 1])
  }

  /**
    The reference count in every reachable state: each Ready, non-deleting zone holds a reference on its existing failure
    domain, and whichever zone holds one still exists with its finalizer and uses that domain.
   */
  lemma {:induction false} ReadyZonesAreCounted(states: seq<System>, actions: seq<Action>, i: nat)
    requires Run(states, actions) && i < |states|
    ensures Inv(states[i])
  {
    if i > 0 {
      ReadyZonesAreCounted(states, actions, i - 1);
      NextKeepsInv(states[i - 1], actions[i - 1], states[i]);
    }
  }

  /**
    Over every run a normal reconcile that reads its domain and patches its zone leaves the zone Ready exactly when every
    check passed, and then the domain carries its reference; any other one leaves zone and domains alone.
   */
  lemma ReadyExactly(states: seq<System>, actions: seq<Action>, i: nat)
    requires Run(states, actions) && i < |actions| && actions[i].ReconcileNormal?
    ensures var s, t, name, c := states[i], states[i + 1], actions[i].name, actions[i].checks;
            var zone := s.zones[name];
            var passed := c.session && c.placementConstraint && c.failureDomainValid && c.patchDomain;
            if zone.failureDomain !in s.domains || !c.readDomain then t == s
            else
              && (c.patchZone ==> (IsReady(t.zones[name]) <==> passed))
              && t.zones == (if c.patchZone then s.zones[name := zone.(ready := Some(passed))] else s.zones)
              && (if passed then zone.failureDomain in t.domains && ReferenceOf(zone) in t.domains[zone.failureDomain].owners
                  else t.domains == s.domains)
  {
    ReadyZonesAreCounted(states, actions, i);
    var s, name := states[i], actions[i].name;
    assert Next(s, actions[i], states[i + 1]);
    var zone := s.zones[name];
    if zone.failureDomain in s.domains {
      EnsureWrites(s.domains[zone.failureDomain].owners, ZoneReference(zone.name, zone.uid));
    }
  }

  /** No step of any run deletes a failure domain that a Ready, non-deleting zone uses. */
  lemma UsedDomainSurvives(states: seq<System>, actions: seq<Action>, i: nat, zone: string)
    requires Run(states, actions) && i < |actions|
    requires zone in states[i].zones && IsReady(states[i].zones[zone])
    ensures states[i].zones[zone].failureDomain in states[i].domains
    ensures states[i].zones[zone].failureDomain in states[i + 1].domains
  {
    ReadyZonesAreCounted(states, actions, i);
    var s, t := states[i], states[i + 1];
    assert Counted(s, zone);
    assert Next(s, actions[i], t);
    if actions[i].ReconcileDelete? {
      DeletedKeepsCount(s, actions[i].name, actions[i].machines, actions[i].calls, zone);
    }
  }

  /**
    The delete reconcile of `zone` that removes the failure domain: it gets through to the delete call, the zone is the
    last owner, and nobody is deleting the domain yet.
   */
  ghost predicate RemovesDomain(s: System, a: Action, domain: string) {
    && a.ReconcileDelete? && a.name in s.zones && s.zones[a.name].failureDomain == domain && domain in s.domains
    && a.calls.listMachines && !InUse(a.machines, a.name) && a.calls.readDomain && a.calls.patchDomain
    && NoOtherOwner(s.domains[domain], a.name) && !s.domains[domain].deleting && a.calls.deleteDomain
  }

  /** A step of a run makes a failure domain disappear exactly when it is the delete reconcile of the last owner. */
  lemma DomainGoneExactly(states: seq<System>, actions: seq<Action>, i: nat, domain: string)
    requires Run(states, actions) && i < |actions| && domain in states[i].domains
    ensures domain !in states[i + 1].domains <==> RemovesDomain(states[i], actions[i], domain)
  {
    ReadyZonesAreCounted(states, actions, i);
    var s, a := states[i], actions[i];
    assert Backed(s, domain);
    assert Next(s, a, states[i + 1]);
    if a.ReconcileDelete? {
      DropsReference(s.domains[domain], a.name);
    }
  }

  /** The finalizer goes only in a delete reconcile that finds the zone unused. */
  lemma StepLetsGo(s: System, a: Action, t: System, name: string)
    requires Inv(s) && Next(s, a, t) && name in s.zones && s.zones[name].finalizer
    requires name !in t.zones || !t.zones[name].finalizer
    ensures a.ReconcileDelete? && a.name == name && s.zones[name].deleting && !InUse(a.machines, name)
  {
  }

  /**
    Over every run a delete reconcile gives up the finalizer exactly when the machines could be listed and none that is
    active uses the zone, the zone could be patched, and its domain is gone or could be read and patched and, if nobody
    else owns it and nobody is deleting it, deleted.
   */
  lemma LetsGoExactly(states: seq<System>, actions: seq<Action>, i: nat)
    requires Run(states, actions) && i < |actions| && actions[i].ReconcileDelete?
    requires actions[i].name in states[i].zones && states[i].zones[actions[i].name].finalizer
    ensures var s, a := states[i], actions[i];
            var domain := s.zones[a.name].failureDomain;
            !states[i + 1].zones[a.name].finalizer <==>
              && a.calls.listMachines && a.calls.patchZone
              && (forall k :: 0 <= k < |a.machines| && a.machines[k].active ==> a.machines[k].failureDomain != a.name)
              && (domain in s.domains ==>
                    && a.calls.readDomain && a.calls.patchDomain
                    && (NoOtherOwner(s.domains[domain], a.name) && !s.domains[domain].deleting ==> a.calls.deleteDomain))
  {
    ReadyZonesAreCounted(states, actions, i);
    var s, a := states[i], actions[i];
    assert Next(s, a, states[i + 1]);
    var domain := s.zones[a.name].failureDomain;
    if domain in s.domains {
      assert Backed(s, domain);
      RemoveLast(s.domains[domain].owners, ZoneReference(a.name, ""));
    }
  }

  /** A delete reconcile that gives up the finalizer got past the deletion of an otherwise unowned domain. */
  lemma LetsGoAfterDomain(s: System, zone: Zone, machines: seq<Machine>, c: Calls)
    requires zone.name in s.zones && s.zones[zone.name] == zone && zone.finalizer && zone.failureDomain in s.domains
    requires OnePerObject(s.domains[zone.failureDomain].owners)
    requires NoOtherOwner(s.domains[zone.failureDomain], zone.name) && !s.domains[zone.failureDomain].deleting
    requires !AfterDelete(s, zone, machines, c).zones[zone.name].finalizer
    ensures zone.failureDomain !in AfterDelete(s, zone, machines, c).domains
  {
    RemoveLast(s.domains[zone.failureDomain].owners, ZoneReference(zone.name, ""));
  }

  /**
    Over every run, a zone gives up its finalizer only in a delete reconcile that finds no active machine using it.
    Afterwards it holds no reference on any failure domain, and its own domain is gone exactly when nobody else owned it
    and nobody was deleting it.
   */
  lemma LetsGoOnce(states: seq<System>, actions: seq<Action>, i: nat, name: string)
    requires Run(states, actions) && i < |actions|
    requires name in states[i].zones && states[i].zones[name].finalizer
    requires name !in states[i + 1].zones || !states[i + 1].zones[name].finalizer
    ensures var a, s, t := actions[i], states[i], states[i + 1];
            && a.ReconcileDelete? && a.name == name && s.zones[name].deleting && !InUse(a.machines, name)
            && (forall domain :: domain in t.domains ==> !HoldsReference(t.domains[domain], name))
            && var domain := s.zones[name].failureDomain;
               domain in s.domains ==>
                 (domain !in t.domains <==> NoOtherOwner(s.domains[domain], name) && !s.domains[domain].deleting)
  {
    var s, t := states[i], states[i + 1];
    ReadyZonesAreCounted(states, actions, i);
    ReadyZonesAreCounted(states, actions, i + 1);
    assert Next(s, actions[i], t);
    StepLetsGo(s, actions[i], t, name);
    forall domain | domain in t.domains ensures !HoldsReference(t.domains[domain], name) {
      assert Backed(t, domain);
    }
    var domain := s.zones[name].failureDomain;
    if domain in s.domains {
      DomainGoneExactly(states, actions, i, domain);
      assert Backed(s, domain);
      if NoOtherOwner(s.domains[domain], name) && !s.domains[domain].deleting {
        LetsGoAfterDomain(s, s.zones[name], actions[i].machines, actions[i].calls);
      }
    }
  }
}
