/**
  What the MachineDeployment-to-zone mapping means: which zone a MachineDeployment gets and why,
  what the written annotations and members say, and that recomputing changes nothing.
 */
module PlacementRules {
  import opened Common
  import opened Ordering
  import opened OwnerReferences
  import opened VirtualMachineGroup

  /** MachineDeployment names as the API server guarantees them: non-empty and unique. */
  ghost predicate WellNamed(mds: seq<MachineDeployment>) {
    && (forall i :: 0 <= i < |mds| ==> mds[i].name != "")
    && (forall i, j :: 0 <= i < j < |mds| ==> mds[i].name != mds[j].name)
  }

  /** The placement rule for one MachineDeployment on its own. */
  function Decide(md: MachineDeployment, zone: string, existing: Option<Group>, vmToMd: map<string, string>)
    : (r: Option<string>)
    ensures r.Some? ==> r.value != ""
  {
    if md.deleting then None
    else if md.failureDomain != "" then Some(md.failureDomain)
    else if existing.None? then (if zone != "" then Some(zone) else None)
    else if ZoneOf(existing.value, md.name) != "" then Some(ZoneOf(existing.value, md.name))
    else
      FirstReportedNonEmpty(existing.value.status, md.name, vmToMd);
      match FirstReported(existing.value.status, md.name, vmToMd)
      case Some(z) => Some(z)
      case None =>
        if zone != "" && !HasMemberOf(MemberNames(existing.value), md.name, vmToMd) then Some(zone) else None
  }

  lemma {:induction false} FirstReportedNonEmpty(status: seq<MemberStatus>, md: string, vmToMd: map<string, string>)
    ensures FirstReported(status, md, vmToMd).Some? ==> FirstReported(status, md, vmToMd).value != ""
  {
    if status != [] {
      FirstReportedNonEmpty(status[1..], md, vmToMd);
    }
  }

  /** Only listed MachineDeployments have an entry. */
  lemma {:induction false} PlaceKeys(mds: seq<MachineDeployment>, zone: string, existing: Option<Group>, vmToMd: map<string, string>, name: string)
    requires name in Place(mds, zone, existing, vmToMd)
    ensures exists i :: 0 <= i < |mds| && mds[i].name == name
  {
    var last := |mds| - 1;
    if mds[last].name != name {
      PlaceKeys(mds[..last], zone, existing, vmToMd, name);
      var i :| 0 <= i < last && mds[..last][i].name == name;
      assert mds[i].name == name;
    }
  }

  /** The entry of one MachineDeployment follows from its own rule. */
  lemma {:induction false} PlaceEntry(mds: seq<MachineDeployment>, zone: string, existing: Option<Group>, vmToMd: map<string, string>, i: nat)
    requires WellNamed(mds) && i < |mds|
    ensures var p, md := Place(mds, zone, existing, vmToMd), mds[i];
            (if md.name in p then Some(p[md.name]) else None) == Decide(md, zone, existing, vmToMd)
  {
    var last := |mds| - 1;
    var q := Place(mds[..last], zone, existing, vmToMd);
    if mds[last].name in q {
      PlaceKeys(mds[..last], zone, existing, vmToMd, mds[last].name);
    }
    PlaceOneExact(q, mds[last], zone, existing, vmToMd);
    if i < last {
      PlaceEntry(mds[..last], zone, existing, vmToMd, i);
    }
  }

  /** The mapping loop, which reads the mapping it is building, treats every MachineDeployment by its own rule. */
  lemma PlaceExact(mds: seq<MachineDeployment>, zone: string, existing: Option<Group>, vmToMd: map<string, string>)
    requires WellNamed(mds)
    ensures var p := Place(mds, zone, existing, vmToMd);
            && (forall name :: name in p ==> exists i :: 0 <= i < |mds| && mds[i].name == name)
            && (forall i :: 0 <= i < |mds| ==>
                  && (mds[i].name in p <==> Decide(mds[i], zone, existing, vmToMd).Some?)
                  && (mds[i].name in p ==> Some(p[mds[i].name]) == Decide(mds[i], zone, existing, vmToMd)))
  {
    var p := Place(mds, zone, existing, vmToMd);
    forall name | name in p ensures exists i :: 0 <= i < |mds| && mds[i].name == name {
      PlaceKeys(mds, zone, existing, vmToMd, name);
    }
    forall i | 0 <= i < |mds|
      ensures mds[i].name in p <==> Decide(mds[i], zone, existing, vmToMd).Some?
      ensures mds[i].name in p ==> Some(p[mds[i].name]) == Decide(mds[i], zone, existing, vmToMd)
    {
      PlaceEntry(mds, zone, existing, vmToMd, i);
    }
  }

  lemma PlaceOneExact(acc: map<string, string>, md: MachineDeployment, zone: string, existing: Option<Group>, vmToMd: map<string, string>)
    requires md.name !in acc
    ensures PlaceOne(acc, md, zone, existing, vmToMd)
         == match Decide(md, zone, existing, vmToMd) case None => acc case Some(z) => acc[md.name := z]
  {
  }

  /** Two groups that give every MachineDeployment the same decision give the same mapping. */
  lemma {:induction false} PlaceCongruent(mds: seq<MachineDeployment>, zone: string, a: Option<Group>, b: Option<Group>, vmToMd: map<string, string>)
    requires WellNamed(mds)
    requires forall i :: 0 <= i < |mds| ==> Decide(mds[i], zone, a, vmToMd) == Decide(mds[i], zone, b, vmToMd)
    ensures Place(mds, zone, a, vmToMd) == Place(mds, zone, b, vmToMd)
  {
    PlaceExact(mds, zone, a, vmToMd);
    PlaceExact(mds, zone, b, vmToMd);
    var p, q := Place(mds, zone, a, vmToMd), Place(mds, zone, b, vmToMd);
    forall name ensures name in p <==> name in q
                ensures name in p ==> name in q && p[name] == q[name]
    {
      if name in p || name in q {
        var i :| 0 <= i < |mds| && mds[i].name == name;
        assert mds[i].name == name;
      }
    }
    assert p == q;
  }

  // ---------------------------------------------------------------------------------------------
  // The written object
  // ---------------------------------------------------------------------------------------------

  /** The zone annotations of the desired group are exactly the placement; all other annotations survive. */
  lemma DesiredAnnotations(cluster: Cluster, placement: map<string, string>, existing: Option<Group>, vmToMd: map<string, string>)
    ensures var g := Desired(cluster, placement, existing, vmToMd);
            && (forall md :: (ZoneKey(md) in g.annotations <==> md in placement)
                             && (md in placement ==> g.annotations[ZoneKey(md)] == placement[md]))
            && (forall key :: !IsZoneKey(key) ==>
                  && (key in g.annotations <==> existing.Some? && key in existing.value.annotations)
                  && (key in g.annotations ==> g.annotations[key] == existing.value.annotations[key]))
            && NonZone(g.annotations) == NonZone(if existing.Some? then existing.value.annotations else map[])
  {
    var base := if existing.Some? then existing.value.annotations else map[];
    var zones := ZoneAnnotations(placement);
    forall md ensures IsZoneKey(ZoneKey(md)) && ZoneKey(md)[|ZONE_ANNOTATION_PREFIX| + 1..] == md {
      ZoneKeyDrop(md);
    }
    forall md ensures ZoneKey(md) in zones <==> md in placement {
      if ZoneKey(md) in zones {
        var other :| other in placement && ZoneKey(other) == ZoneKey(md);
        assert other == ZoneKey(other)[|ZONE_ANNOTATION_PREFIX| + 1..] == md;
      }
    }
    NonZoneMerge(base, zones);
  }

  /** An annotation without the zone prefix survives. */
  lemma OtherAnnotationKept(cluster: Cluster, placement: map<string, string>, group: Group, vmToMd: map<string, string>, key: string)
    requires !(ZONE_ANNOTATION_PREFIX + "/" <= key)
    ensures var g := Desired(cluster, placement, Some(group), vmToMd);
            && (key in g.annotations <==> key in group.annotations)
            && (key in g.annotations ==> g.annotations[key] == group.annotations[key])
  {
    DesiredAnnotations(cluster, placement, Some(group), vmToMd);
  }

  lemma NonZoneMerge(base: map<string, string>, zones: map<string, string>)
    requires forall key :: key in zones ==> IsZoneKey(key)
    ensures NonZone(NonZone(base) + zones) == NonZone(base)
  {
  }

  /** `Select` filters: order is kept and exactly the admitted names remain. */
  lemma {:induction false} SelectExact(names: seq<string>, existing: Option<Group>, placement: map<string, string>, vmToMd: map<string, string>)
    requires StrictlySorted(names)
    ensures var s := Select(names, existing, placement, vmToMd);
            && StrictlySorted(s)
            && (forall vm :: vm in s <==> vm in names && Admitted(vm, existing, placement, vmToMd))
  {
    if names != [] {
      var front, last := names[..|names| - 1], names[|names| - 1];
      assert names == front + [last];
      SelectExact(front, existing, placement, vmToMd);
      var r := Select(front, existing, placement, vmToMd);
      forall i | 0 <= i < |r| ensures Less(r[i], last) {
        assert r[i] in front;
      }
    }
  }

  /** The members of the desired group: strictly sorted, and exactly the admitted live VirtualMachines. */
  lemma DesiredMembers(cluster: Cluster, placement: map<string, string>, existing: Option<Group>, vmToMd: map<string, string>)
    ensures var g := Desired(cluster, placement, existing, vmToMd);
            && StrictlySorted(MemberNames(g))
            && g.bootOrder == [Members(MemberNames(g))]
            && (forall vm :: vm in MemberNames(g) <==> vm in vmToMd && Admitted(vm, existing, placement, vmToMd))
  {
    var names := Sorted(vmToMd.Keys);
    SelectExact(names, existing, placement, vmToMd);
    var s := Select(names, existing, placement, vmToMd);
    assert NamesOf(Members(s)) == s;
  }

  /** The recorded zone is the one decided for the MachineDeployment, empty while there is none. */
  lemma WrittenZone(cluster: Cluster, mds: seq<MachineDeployment>, zone: string, existing: Option<Group>, vmToMd: map<string, string>, k: nat)
    requires WellNamed(mds) && k < |mds|
    ensures ZoneOf(Desired(cluster, Place(mds, zone, existing, vmToMd), existing, vmToMd), mds[k].name)
         == match Decide(mds[k], zone, existing, vmToMd) case None => "" case Some(z) => z
  {
    var placement := Place(mds, zone, existing, vmToMd);
    PlaceEntry(mds, zone, existing, vmToMd, k);
    DesiredAnnotations(cluster, placement, existing, vmToMd);
    assert ZoneKey(mds[k].name) in Desired(cluster, placement, existing, vmToMd).annotations <==> mds[k].name in placement;
  }

  /**
    A pinned MachineDeployment is recorded with its own failure domain, whatever was recorded or reported before; on
    creation an unpinned one gets the only zone, or none.
   */
  lemma RecordedOnWrite(namer: Namer, cluster: Cluster, snapshot: Snapshot, existing: Option<Group>, k: nat)
    requires WellNamed(snapshot.mds) && VmToMd(namer, snapshot.machines).Some?
    requires k < |snapshot.mds| && !snapshot.mds[k].deleting
    ensures var g, md := Compute(namer, cluster, snapshot, existing).value, snapshot.mds[k];
            && (md.failureDomain != "" ==> ZoneOf(g, md.name) == md.failureDomain)
            && (md.failureDomain == "" && existing.None? ==>
                  ZoneOf(g, md.name) == if |snapshot.zones| == 1 then snapshot.zones[0] else "")
  {
    var vmToMd := VmToMd(namer, snapshot.machines).value;
    WrittenZone(cluster, snapshot.mds, SingleZoneName(snapshot.zones), existing, vmToMd, k);
  }

  /** A MachineDeployment that is deleting or no longer listed loses its zone annotation. */
  lemma ForgottenWhenGone(namer: Namer, cluster: Cluster, snapshot: Snapshot, existing: Option<Group>, md: string)
    requires WellNamed(snapshot.mds) && VmToMd(namer, snapshot.machines).Some?
    requires forall i :: 0 <= i < |snapshot.mds| && snapshot.mds[i].name == md ==> snapshot.mds[i].deleting
    ensures ZoneKey(md) !in Compute(namer, cluster, snapshot, existing).value.annotations
  {
    var vmToMd := VmToMd(namer, snapshot.machines).value;
    PlaceExact(snapshot.mds, SingleZoneName(snapshot.zones), existing, vmToMd);
    DesiredAnnotations(cluster, PlacementFor(snapshot, existing, vmToMd), existing, vmToMd);
  }

  /**
    The written group carries the cluster label and the controller reference with the cluster's uid; other labels, the
    references to other objects and the status are those of the existing group.
   */
  lemma BelongsToCluster(namer: Namer, cluster: Cluster, snapshot: Snapshot, existing: Option<Group>)
    requires VmToMd(namer, snapshot.machines).Some?
    ensures var g, base := Compute(namer, cluster, snapshot, existing).value, if existing.Some? then existing.value else EMPTY_GROUP;
            var ref := OwnerReference(CLUSTER_API_GROUP + "/" + "v1beta2", "Cluster", cluster.name, cluster.uid, true);
            && CLUSTER_NAME_LABEL in g.labels && g.labels[CLUSTER_NAME_LABEL] == cluster.name
            && (forall key :: key != CLUSTER_NAME_LABEL ==>
                  && (key in g.labels <==> key in base.labels)
                  && (key in g.labels ==> g.labels[key] == base.labels[key]))
            && ref in g.ownerReferences
            && (forall r :: r in base.ownerReferences && !SameObject(r, ref) ==> r in g.ownerReferences)
            && (forall r :: r in g.ownerReferences ==> r == ref || r in base.ownerReferences)
            && g.status == base.status
  {
    EnsureWrites(if existing.Some? then existing.value.ownerReferences else [], ClusterReference(cluster));
  }

  /** A non-empty zone is the single zone exactly when it is the only one. */
  lemma SingleZoneExact(zones: seq<string>, zone: string)
    requires zone != ""
    ensures SingleZoneName(zones) == zone <==> zones == [zone]
  {
  }

  // ---------------------------------------------------------------------------------------------
  // The single-zone fallback
  // ---------------------------------------------------------------------------------------------

  /** The entry is placement-ready and names `zone`: as its placement or, without one, as the message of AlreadyPlaced. */
  predicate NamesZone(entry: MemberStatus, zone: string) {
    && zone != "" && entry.placementReady.Some? && entry.placementReady.value.status == True
    && (|| entry.zone == Some(zone)
        || (&& (entry.zone == None || entry.zone == Some(""))
            && entry.placementReady.value.reason == "AlreadyPlaced" && entry.placementReady.value.message == zone))
  }

  /** The entry names no zone. */
  predicate NamesNone(entry: MemberStatus) {
    || entry.placementReady.None? || entry.placementReady.value.status != True
    || (&& (entry.zone == None || entry.zone == Some(""))
        && (entry.placementReady.value.reason != "AlreadyPlaced" || entry.placementReady.value.message == ""))
  }

  /** The zone that the code reads from an entry is the one the entry names. */
  lemma ReportedExact(entry: MemberStatus)
    ensures forall zone :: ReportedZone(entry) == Some(zone) <==> NamesZone(entry, zone)
    ensures ReportedZone(entry) == None <==> NamesNone(entry)
    ensures NamesNone(entry) <==> forall zone :: !NamesZone(entry, zone)
  {
    if !NamesNone(entry) {
      assert NamesZone(entry, ReportedZone(entry).value);
    }
  }

  /** A status entry of a live VirtualMachine of `md` is placement-ready and names `zone`. */
  predicate Reports(entry: MemberStatus, md: string, vmToMd: map<string, string>, zone: string) {
    entry.name in vmToMd && vmToMd[entry.name] == md && NamesZone(entry, zone)
  }

  predicate Silent(entry: MemberStatus, md: string, vmToMd: map<string, string>) {
    entry.name in vmToMd && vmToMd[entry.name] == md ==> NamesNone(entry)
  }

  /** Some member of the group is a live VirtualMachine of `md`. */
  predicate HasLiveMember(group: Group, md: string, vmToMd: map<string, string>) {
    exists vm :: vm in MemberNames(group) && vm in vmToMd && vmToMd[vm] == md
  }

  lemma {:induction false} FirstReportedExact(status: seq<MemberStatus>, md: string, vmToMd: map<string, string>, zone: string)
    requires md != ""
    ensures FirstReported(status, md, vmToMd) == Some(zone) <==>
            exists i :: 0 <= i < |status| && Reports(status[i], md, vmToMd, zone)
                        && forall j :: 0 <= j < i ==> Silent(status[j], md, vmToMd)
    ensures FirstReported(status, md, vmToMd) == None <==>
            forall j :: 0 <= j < |status| ==> Silent(status[j], md, vmToMd)
  {
    if status != [] {
      FirstReportedExact(status[1..], md, vmToMd, zone);
      ReportedExact(status[0]);
      assert forall j :: 0 < j < |status| ==> status[j] == status[1..][j - 1];
      if Silent(status[0], md, vmToMd) {
        if FirstReported(status[1..], md, vmToMd) == Some(zone) {
          var i :| 0 <= i < |status| - 1 && Reports(status[1..][i], md, vmToMd, zone)
                   && forall j :: 0 <= j < i ==> Silent(status[1..][j], md, vmToMd);
          assert Reports(status[i + 1], md, vmToMd, zone);
          assert forall j :: 0 <= j < i + 1 ==> Silent(status[j], md, vmToMd);
        }
        if exists i :: 0 <= i < |status| && Reports(status[i], md, vmToMd, zone)
                       && forall j :: 0 <= j < i ==> Silent(status[j], md, vmToMd)
        {
          var i :| 0 <= i < |status| && Reports(status[i], md, vmToMd, zone)
                   && forall j :: 0 <= j < i ==> Silent(status[j], md, vmToMd);
          assert i > 0 && Reports(status[1..][i - 1], md, vmToMd, zone);
          assert forall j :: 0 <= j < i - 1 ==> Silent(status[1..][j], md, vmToMd);
        }
      } else {
        assert Reports(status[0], md, vmToMd, ReportedZone(status[0]).value);
      }
    }
  }

  /**
    On an existing group, an undecided MachineDeployment without explicit failure domain is placed in `z` exactly when
    vm-operator's first report for one of its live members says so, or when there is no report, no live member,
    and `z` is the only zone: the fallback never pre-empts a placement decision, finished or in progress.
   */
  lemma FallbackExact(mds: seq<MachineDeployment>, k: nat, zone: string, group: Group, vmToMd: map<string, string>, z: string)
    requires WellNamed(mds) && k < |mds|
    requires !mds[k].deleting && mds[k].failureDomain == "" && ZoneOf(group, mds[k].name) == ""
    ensures var md, p := mds[k].name, Place(mds, zone, Some(group), vmToMd);
            (md in p && p[md] == z) <==>
            || (exists i :: 0 <= i < |group.status| && Reports(group.status[i], md, vmToMd, z)
                            && forall j :: 0 <= j < i ==> Silent(group.status[j], md, vmToMd))
            || (&& z == zone && zone != ""
                && !HasLiveMember(group, md, vmToMd)
                && forall j :: 0 <= j < |group.status| ==> Silent(group.status[j], md, vmToMd))
  {
    PlaceExact(mds, zone, Some(group), vmToMd);
    FirstReportedExact(group.status, mds[k].name, vmToMd, z);
    HasMemberExact(group, mds[k].name, vmToMd);
    var first := FirstReported(group.status, mds[k].name, vmToMd);
    if first.Some? {
      FirstReportedExact(group.status, mds[k].name, vmToMd, first.value);
    }
  }

  lemma HasMemberExact(group: Group, md: string, vmToMd: map<string, string>)
    requires md != ""
    ensures HasMemberOf(MemberNames(group), md, vmToMd) <==> HasLiveMember(group, md, vmToMd)
  {
    var names := MemberNames(group);
    if HasMemberOf(names, md, vmToMd) {
      var i :| 0 <= i < |names| && Lookup(vmToMd, names[i]) == md;
      assert names[i] in names;
    }
    if HasLiveMember(group, md, vmToMd) {
      var vm :| vm in names && vm in vmToMd && vmToMd[vm] == md;
      var i :| 0 <= i < |names| && names[i] == vm;
      assert Lookup(vmToMd, names[i]) == md;
    }
  }

  // ---------------------------------------------------------------------------------------------
  // Recomputing
  // ---------------------------------------------------------------------------------------------

  /** A decision that has been written is read back; an open one stays open, since its blocking member is kept. */
  lemma DecideAgain(md: MachineDeployment, zone: string, existing: Option<Group>, vmToMd: map<string, string>,
                    placement: map<string, string>, group: Group)
    requires md.name != ""
    requires (md.name in placement <==> Decide(md, zone, existing, vmToMd).Some?)
             && (md.name in placement ==> Some(placement[md.name]) == Decide(md, zone, existing, vmToMd))
    requires ZoneOf(group, md.name) == Lookup(placement, md.name)
    requires group.status == if existing.Some? then existing.value.status else []
    requires forall vm :: vm in MemberNames(group) <==> vm in vmToMd && Admitted(vm, existing, placement, vmToMd)
    ensures Decide(md, zone, Some(group), vmToMd) == Decide(md, zone, existing, vmToMd)
  {
    HasMemberExact(group, md.name, vmToMd);
    if existing.Some? {
      HasMemberExact(existing.value, md.name, vmToMd);
    }
  }

  /** The placement read back from the object it was written to is the same placement. */
  lemma PlaceAgain(cluster: Cluster, mds: seq<MachineDeployment>, zone: string, existing: Option<Group>, vmToMd: map<string, string>)
    requires WellNamed(mds)
    ensures var placement := Place(mds, zone, existing, vmToMd);
            Place(mds, zone, Some(Desired(cluster, placement, existing, vmToMd)), vmToMd) == placement
  {
    var placement := Place(mds, zone, existing, vmToMd);
    var group := Desired(cluster, placement, existing, vmToMd);
    PlaceExact(mds, zone, existing, vmToMd);
    DesiredAnnotations(cluster, placement, existing, vmToMd);
    DesiredMembers(cluster, placement, existing, vmToMd);
    forall i | 0 <= i < |mds| ensures Decide(mds[i], zone, Some(group), vmToMd) == Decide(mds[i], zone, existing, vmToMd) {
      DecideAgain(mds[i], zone, existing, vmToMd, placement, group);
    }
    PlaceCongruent(mds, zone, existing, Some(group), vmToMd);
  }

  /** Reconciling again in an unchanged environment, after an update or after the creation, rewrites the same object. */
  lemma ComputeIdempotent(namer: Namer, cluster: Cluster, snapshot: Snapshot, existing: Option<Group>)
    requires WellNamed(snapshot.mds)
    requires VmToMd(namer, snapshot.machines).Some?
    ensures var once := Compute(namer, cluster, snapshot, existing);
            Compute(namer, cluster, snapshot, once) == once
  {
    var vmToMd := VmToMd(namer, snapshot.machines).value;
    PlaceAgain(cluster, snapshot.mds, SingleZoneName(snapshot.zones), existing, vmToMd);
    DesiredAgain(cluster, PlacementFor(snapshot, existing, vmToMd), existing, vmToMd);
  }

  lemma DesiredAgain(cluster: Cluster, placement: map<string, string>, existing: Option<Group>, vmToMd: map<string, string>)
    ensures var once := Desired(cluster, placement, existing, vmToMd);
            Desired(cluster, placement, Some(once), vmToMd) == once
  {
    var base := if existing.Some? then existing.value else EMPTY_GROUP;
    var once := Desired(cluster, placement, existing, vmToMd);
    MembersAgain(cluster, placement, existing, vmToMd);
    AnnotationsAgain(cluster, placement, existing, vmToMd);
    OwnersAgain(cluster, base.ownerReferences);
    LabelsAgain(cluster, base.labels);
  }

  lemma LabelsAgain(cluster: Cluster, labels: map<string, string>)
    ensures labels[CLUSTER_NAME_LABEL := cluster.name][CLUSTER_NAME_LABEL := cluster.name] == labels[CLUSTER_NAME_LABEL := cluster.name]
  {
  }

  lemma AnnotationsAgain(cluster: Cluster, placement: map<string, string>, existing: Option<Group>, vmToMd: map<string, string>)
    ensures var once := Desired(cluster, placement, existing, vmToMd);
            Desired(cluster, placement, Some(once), vmToMd).annotations == once.annotations
  {
    DesiredAnnotations(cluster, placement, existing, vmToMd);
  }

  lemma OwnersAgain(cluster: Cluster, refs: seq<OwnerReference>)
    ensures var once := Ensure(refs, ClusterReference(cluster));
            Ensure(once, ClusterReference(cluster)) == once
  {
    assert GroupOf(ClusterReference(cluster).apiVersion).Some? by {
      GroupOfPrinted(CLUSTER_API_GROUP, "v1beta2");
    }
    EnsureIdempotent(refs, ClusterReference(cluster));
  }

  lemma MembersAgain(cluster: Cluster, placement: map<string, string>, existing: Option<Group>, vmToMd: map<string, string>)
    ensures var once := Desired(cluster, placement, existing, vmToMd);
            Desired(cluster, placement, Some(once), vmToMd).bootOrder == once.bootOrder
  {
    var once := Desired(cluster, placement, existing, vmToMd);
    DesiredMembers(cluster, placement, existing, vmToMd);
    DesiredMembers(cluster, placement, Some(once), vmToMd);
    SortedUnique(MemberNames(once), MemberNames(Desired(cluster, placement, Some(once), vmToMd)));
  }
}
