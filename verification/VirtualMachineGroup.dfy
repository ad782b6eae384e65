/**
  The VirtualMachineGroup controller: the creation gate, the MachineDeployment-to-zone mapping, and the
  desired group computed from one snapshot of the cluster. Every loop of the controller is a method proved
  equal to a function; the protocol modules reason about those functions.
 */
module VirtualMachineGroup {
  import opened Common
  import opened Ordering
  import opened OwnerReferences

  const ZONE_ANNOTATION_PREFIX := "zone.vmware.infrastructure.cluster.x-k8s.io"
  const CLUSTER_API_GROUP := "cluster.x-k8s.io"

  /** The name of the VirtualMachine of a machine, from machine name and naming template; None is a template error. */
  type Namer = (string, string) -> Option<string>

  datatype MachineDeployment = MachineDeployment(name: string, deleting: bool, replicas: Option<int>, failureDomain: string)

  /** `mdLabel` is the MachineDeployment name label, empty when absent. */
  datatype VSphereMachine = VSphereMachine(name: string, naming: string, deleting: bool, mdLabel: string)

  datatype ConditionStatus = True | False | Unknown
  datatype Condition = Condition(status: ConditionStatus, reason: string, message: string)

  /** One entry of the group status; `zone` is None when no placement is reported. */
  datatype MemberStatus = MemberStatus(name: string, placementReady: Option<Condition>, zone: Option<string>)

  datatype GroupMember = GroupMember(name: string, kind: string)

  datatype Group = Group(
    annotations: map<string, string>,
    labels: map<string, string>,
    ownerReferences: seq<OwnerReference>,
    bootOrder: seq<seq<GroupMember>>,
    status: seq<MemberStatus>)

  datatype Cluster = Cluster(name: string, uid: string)

  /** What one reconcile reads besides the group: MachineDeployments, labelled machines and zone names. */
  datatype Snapshot = Snapshot(mds: seq<MachineDeployment>, machines: seq<VSphereMachine>, zones: seq<string>)

  function SingleZoneName(zones: seq<string>): string {
    if |zones| == 1 then zones[0] else ""
  }

  function ZoneKey(md: string): string {
    ZONE_ANNOTATION_PREFIX + "/" + md
  }

  /** Is an annotation one of the zone annotations that this controller owns? */
  predicate IsZoneKey(key: string) {
    ZONE_ANNOTATION_PREFIX + "/" <= key
  }

  /** The zone a group records for a MachineDeployment, empty when it records none. */
  function ZoneOf(group: Group, md: string): string {
    Lookup(group.annotations, ZoneKey(md))
  }

  function NamesOf(members: seq<GroupMember>): seq<string> {
    seq(|members|, i requires 0 <= i < |members| => members[i].name)
  }

  function MemberNames(group: Group): seq<string> {
    if |group.bootOrder| > 0 then NamesOf(group.bootOrder[0]) else []
  }

  // ---------------------------------------------------------------------------------------------
  // VirtualMachine name to MachineDeployment
  // ---------------------------------------------------------------------------------------------

  /** The machine is live and labelled, and its VirtualMachine is called `vm`. */
  predicate StandsFor(namer: Namer, machine: VSphereMachine, vm: string) {
    !machine.deleting && machine.mdLabel != "" && namer(machine.name, machine.naming) == Some(vm)
  }

  predicate Unnameable(namer: Namer, machine: VSphereMachine) {
    !machine.deleting && namer(machine.name, machine.naming) == None
  }

  function AddMachine(namer: Namer, m: map<string, string>, machine: VSphereMachine): Option<map<string, string>> {
    if machine.deleting then Some(m)
    else
      match namer(machine.name, machine.naming)
      case None => None
      case Some(vm) => if machine.mdLabel != "" then Some(m[vm := machine.mdLabel]) else Some(m)
  }

  function VmToMd(namer: Namer, machines: seq<VSphereMachine>): Option<map<string, string>> {
    if machines == [] then Some(map[])
    else
      match VmToMd(namer, machines[..|machines| - 1])
      case None => None
      case Some(m) => AddMachine(namer, m, machines[|machines| - 1])
  }

  method GetVirtualMachineNameToMachineDeploymentMapping(namer: Namer, machines: seq<VSphereMachine>)
    returns (r: Option<map<string, string>>)
    ensures r == VmToMd(namer, machines)
  {
    var m: map<string, string> := map[];
    for i := 0 to |machines|
      invariant VmToMd(namer, machines[..i]) == Some(m)
    {
      assert machines[..i + 1][..i] == machines[..i];
      var machine := machines[i];
      if !machine.deleting {
        var name := namer(machine.name, machine.naming);
        if name.None? {
          VmToMdFails(namer, machines, i);
          return None;
        }
        if machine.mdLabel != "" {
          m := m[name.value := machine.mdLabel];
        }
      }
    }
    assert machines[..|machines|] == machines;
    return Some(m);
  }

  lemma {:induction false} VmToMdFails(namer: Namer, machines: seq<VSphereMachine>, i: nat)
    requires i < |machines| && Unnameable(namer, machines[i])
    ensures VmToMd(namer, machines) == None
  {
    if i < |machines| - 1 {
      VmToMdFails(namer, machines[..|machines| - 1], i);
    }
  }

  /** The mapping is undefined exactly when some live machine cannot be named. */
  lemma {:induction false} VmToMdDefined(namer: Namer, machines: seq<VSphereMachine>)
    ensures VmToMd(namer, machines) == None <==> exists i :: 0 <= i < |machines| && Unnameable(namer, machines[i])
  {
    if machines != [] {
      var last := |machines| - 1;
      VmToMdDefined(namer, machines[..last]);
      assert forall i :: 0 <= i < last ==> machines[..last][i] == machines[i];
    }
  }

  /** The name of every live labelled machine is mapped, to the label of the last machine with that name. */
  lemma {:induction false} VmToMdLast(namer: Namer, machines: seq<VSphereMachine>, i: nat, vm: string)
    requires VmToMd(namer, machines).Some?
    requires i < |machines| && StandsFor(namer, machines[i], vm)
    ensures vm in VmToMd(namer, machines).value
    ensures (forall j :: i < j < |machines| ==> !StandsFor(namer, machines[j], vm)) ==>
              VmToMd(namer, machines).value[vm] == machines[i].mdLabel
  {
    var last := |machines| - 1;
    if i < last {
      VmToMdLast(namer, machines[..last], i, vm);
    }
  }

  /** Keys of the mapping come from a machine whose label is the mapped, non-empty MachineDeployment name. */
  lemma {:induction false} VmToMdOrigin(namer: Namer, machines: seq<VSphereMachine>, vm: string)
    requires VmToMd(namer, machines).Some?
    requires vm in VmToMd(namer, machines).value
    ensures exists i :: 0 <= i < |machines| && StandsFor(namer, machines[i], vm)
                        && machines[i].mdLabel == VmToMd(namer, machines).value[vm]
  {
    var last := |machines| - 1;
    var front := VmToMd(namer, machines[..last]).value;
    if StandsFor(namer, machines[last], vm) {
    } else {
      VmToMdOrigin(namer, machines[..last], vm);
      var i :| 0 <= i < last && StandsFor(namer, machines[..last][i], vm) && machines[..last][i].mdLabel == front[vm];
      assert machines[i] == machines[..last][i];
    }
  }

  /** The mapping holds exactly the names of live labelled machines. */
  lemma VmToMdDomain(namer: Namer, machines: seq<VSphereMachine>, vm: string)
    requires VmToMd(namer, machines).Some?
    ensures vm in VmToMd(namer, machines).value <==> exists i :: 0 <= i < |machines| && StandsFor(namer, machines[i], vm)
  {
    if vm in VmToMd(namer, machines).value {
      VmToMdOrigin(namer, machines, vm);
    }
    if i :| 0 <= i < |machines| && StandsFor(namer, machines[i], vm) {
      VmToMdLast(namer, machines, i, vm);
    }
  }

  // ---------------------------------------------------------------------------------------------
  // MachineDeployment to failure domain
  // ---------------------------------------------------------------------------------------------

  /** The zone that one status entry names, if its placement is ready. */
  function ReportedZone(entry: MemberStatus): Option<string> {
    if entry.placementReady.None? || entry.placementReady.value.status != True then None
    else if entry.zone.Some? && entry.zone.value != "" then entry.zone
    else if entry.placementReady.value.reason == "AlreadyPlaced" && entry.placementReady.value.message != "" then
      Some(entry.placementReady.value.message)
    else None
  }

  /** The first zone that the status reports for a member of `md`. */
  function FirstReported(status: seq<MemberStatus>, md: string, vmToMd: map<string, string>): Option<string> {
    if status == [] then None
    else if Lookup(vmToMd, status[0].name) == md && ReportedZone(status[0]).Some? then ReportedZone(status[0])
    else FirstReported(status[1..], md, vmToMd)
  }

  predicate HasMemberOf(members: seq<string>, md: string, vmToMd: map<string, string>) {
    exists i :: 0 <= i < |members| && Lookup(vmToMd, members[i]) == md
  }

  /** One iteration of the mapping loop, on the mapping built so far. */
  function PlaceOne(acc: map<string, string>, md: MachineDeployment, zone: string, existing: Option<Group>,
                    vmToMd: map<string, string>): map<string, string>
  {
    if md.deleting then acc
    else if md.failureDomain != "" then acc[md.name := md.failureDomain]
    else if existing.None? then (if zone != "" then acc[md.name := zone] else acc)
    else if ZoneOf(existing.value, md.name) != "" then acc[md.name := ZoneOf(existing.value, md.name)]
    else
      match FirstReported(existing.value.status, md.name, vmToMd)
      case Some(z) => acc[md.name := z]
      case None =>
        if md.name !in acc && zone != "" && !HasMemberOf(MemberNames(existing.value), md.name, vmToMd)
        then acc[md.name := zone]
        else acc
  }

  function Place(mds: seq<MachineDeployment>, zone: string, existing: Option<Group>, vmToMd: map<string, string>)
    : map<string, string>
  {
    if mds == [] then map[]
    else PlaceOne(Place(mds[..|mds| - 1], zone, existing, vmToMd), mds[|mds| - 1], zone, existing, vmToMd)
  }

  method GetMachineDeploymentToFailureDomainMapping(
    mds: seq<MachineDeployment>, zone: string, existing: Option<Group>, vmToMd: map<string, string>)
    returns (mapping: map<string, string>)
    ensures mapping == Place(mds, zone, existing, vmToMd)
  {
    mapping := map[];
    for k := 0 to |mds|
      invariant mapping == Place(mds[..k], zone, existing, vmToMd)
    {
      assert mds[..k + 1][..k] == mds[..k];
      var md := mds[k];
      if md.deleting {
        continue;
      }
      if md.failureDomain != "" {
        mapping := mapping[md.name := md.failureDomain];
        continue;
      }
      if existing.None? {
        if zone != "" {
          mapping := mapping[md.name := zone];
        }
        continue;
      }
      var recorded := Lookup(existing.value.annotations, ZoneKey(md.name));
      if recorded != "" {
        mapping := mapping[md.name := recorded];
        continue;
      }
      var reported := ScanStatus(existing.value.status, md.name, vmToMd);
      if reported.Some? {
        mapping := mapping[md.name := reported.value];
      }
      if md.name !in mapping && zone != "" {
        var hasMember := false;
        if |existing.value.bootOrder| > 0 {
          hasMember := ScanMembers(existing.value.bootOrder[0], md.name, vmToMd);
        }
        if !hasMember {
          mapping := mapping[md.name := zone];
        }
      }
    }
    assert mds[..|mds|] == mds;
  }

  /** The status loop, which stops at the first entry of `md` that names a zone. */
  method ScanStatus(status: seq<MemberStatus>, md: string, vmToMd: map<string, string>) returns (zone: Option<string>)
    ensures zone == FirstReported(status, md, vmToMd)
  {
    for i := 0 to |status|
      invariant FirstReported(status, md, vmToMd) == FirstReported(status[i..], md, vmToMd)
    {
      var entry := status[i];
      assert status[i..][0] == entry && status[i..][1..] == status[i + 1..];
      if Lookup(vmToMd, entry.name) != md {
        continue;
      }
      if entry.placementReady.None? || entry.placementReady.value.status != True {
        continue;
      }
      if entry.zone.Some? && entry.zone.value != "" {
        return entry.zone;
      }
      if entry.placementReady.value.reason == "AlreadyPlaced" && entry.placementReady.value.message != "" {
        return Some(entry.placementReady.value.message);
      }
    }
    return None;
  }

  /** The member loop, which stops at the first member of `md`. */
  method ScanMembers(members: seq<GroupMember>, md: string, vmToMd: map<string, string>) returns (found: bool)
    ensures found == HasMemberOf(NamesOf(members), md, vmToMd)
  {
    for i := 0 to |members|
      invariant forall j :: 0 <= j < i ==> Lookup(vmToMd, NamesOf(members)[j]) != md
    {
      if Lookup(vmToMd, members[i].name) == md {
        assert NamesOf(members)[i] == members[i].name;
        return true;
      }
    }
    return false;
  }

  // ---------------------------------------------------------------------------------------------
  // The desired group
  // ---------------------------------------------------------------------------------------------

  function NonZone(annotations: map<string, string>): map<string, string> {
    map key | key in annotations && !IsZoneKey(key) :: annotations[key]
  }

  function ZoneKeys(placement: map<string, string>): set<string> {
    set md | md in placement :: ZoneKey(md)
  }

  /** The zone annotations for a placement; dropping the prefix of a key gives back the MachineDeployment. */
  function ZoneAnnotations(placement: map<string, string>): map<string, string> {
    map key | key in ZoneKeys(placement) :: placement[key[|ZONE_ANNOTATION_PREFIX| + 1..]]
  }

  /** May a VirtualMachine be in the new member list? */
  predicate Admitted(vm: string, existing: Option<Group>, placement: map<string, string>, vmToMd: map<string, string>) {
    existing.None? || vm in MemberNames(existing.value) || Lookup(vmToMd, vm) in placement
  }

  function Select(names: seq<string>, existing: Option<Group>, placement: map<string, string>, vmToMd: map<string, string>)
    : seq<string>
  {
    if names == [] then []
    else
      var last := names[|names| - 1];
      Select(names[..|names| - 1], existing, placement, vmToMd)
      + if Admitted(last, existing, placement, vmToMd) then [last] else []
  }

  function Members(names: seq<string>): seq<GroupMember> {
    seq(|names|, i requires 0 <= i < |names| => GroupMember(names[i], "VirtualMachine"))
  }

  function ClusterReference(cluster: Cluster): OwnerReference {
    OwnerReference(CLUSTER_API_GROUP + "/" + "v1beta2", "Cluster", cluster.name, cluster.uid, true)
  }

  const EMPTY_GROUP := Group(map[], map[], [], [], [])

  ghost function Desired(cluster: Cluster, placement: map<string, string>, existing: Option<Group>, vmToMd: map<string, string>)
    : Group
  {
    var base := if existing.Some? then existing.value else EMPTY_GROUP;
    base.(annotations := NonZone(base.annotations) + ZoneAnnotations(placement),
          labels := base.labels[CLUSTER_NAME_LABEL := cluster.name],
          ownerReferences := Ensure(base.ownerReferences, ClusterReference(cluster)),
          bootOrder := [Members(Select(Sorted(vmToMd.Keys), existing, placement, vmToMd))])
  }

  function PlacementFor(snapshot: Snapshot, existing: Option<Group>, vmToMd: map<string, string>): map<string, string> {
    Place(snapshot.mds, SingleZoneName(snapshot.zones), existing, vmToMd)
  }

  ghost function Compute(namer: Namer, cluster: Cluster, snapshot: Snapshot, existing: Option<Group>): Option<Group> {
    match VmToMd(namer, snapshot.machines)
    case None => None
    case Some(vmToMd) => Some(Desired(cluster, PlacementFor(snapshot, existing, vmToMd), existing, vmToMd))
  }

  method ComputeVirtualMachineGroup(namer: Namer, cluster: Cluster, snapshot: Snapshot, existing: Option<Group>)
    returns (r: Option<Group>)
    ensures r == Compute(namer, cluster, snapshot, existing)
  {
    var group := EMPTY_GROUP;
    if existing.Some? {
      group := existing.value.(annotations := NonZone(existing.value.annotations));
    }
    group := group.(labels := group.labels[CLUSTER_NAME_LABEL := cluster.name]);
    group := group.(ownerReferences := Ensure(group.ownerReferences, ClusterReference(cluster)));

    var vmToMd := GetVirtualMachineNameToMachineDeploymentMapping(namer, snapshot.machines);
    if vmToMd.None? {
      return None;
    }
    var sorted := SortNames(vmToMd.value.Keys);
    var placement := GetMachineDeploymentToFailureDomainMapping(
      snapshot.mds, SingleZoneName(snapshot.zones), existing, vmToMd.value);
    var annotations := WriteZones(group.annotations, placement);
    var members := SelectMembers(sorted, existing, placement, vmToMd.value);
    group := group.(annotations := annotations, bootOrder := [members]);
    return Some(group);
  }

  /** Writes one annotation for each placed MachineDeployment, in any order. */
  method WriteZones(annotations: map<string, string>, placement: map<string, string>) returns (r: map<string, string>)
    ensures r == annotations + ZoneAnnotations(placement)
  {
    r := annotations;
    var todo := placement.Keys;
    while todo != {}
      invariant todo <= placement.Keys
      invariant r == annotations + ZoneAnnotations(placement - todo)
      decreases todo
    {
      var md :| md in todo;
      ZoneAnnotationsStep(annotations, placement, todo, md);
      r := r[ZoneKey(md) := placement[md]];
      todo := todo - {md};
    }
    assert placement - todo == placement;
  }

  lemma ZoneAnnotationsStep(annotations: map<string, string>, placement: map<string, string>, todo: set<string>, md: string)
    requires md in todo && todo <= placement.Keys
    ensures annotations + ZoneAnnotations(placement - (todo - {md}))
         == (annotations + ZoneAnnotations(placement - todo))[ZoneKey(md) := placement[md]]
  {
    var done := placement - todo;
    SubtractLess(placement, todo, md);
    ZoneAnnotationsAdd(done, md, placement[md]);
    UpdateMerged(annotations, ZoneAnnotations(done), ZoneKey(md), placement[md]);
  }

  lemma ZoneAnnotationsAdd(placement: map<string, string>, md: string, zone: string)
    ensures ZoneAnnotations(placement[md := zone]) == ZoneAnnotations(placement)[ZoneKey(md) := zone]
  {
    ZoneKeyDrop(md);
    forall other | other in placement ensures ZoneKey(other)[|ZONE_ANNOTATION_PREFIX| + 1..] == other {
      ZoneKeyDrop(other);
    }
    assert ZoneKeys(placement[md := zone]) == ZoneKeys(placement) + {ZoneKey(md)};
  }

  lemma ZoneKeyDrop(md: string)
    ensures IsZoneKey(ZoneKey(md)) && ZoneKey(md)[|ZONE_ANNOTATION_PREFIX| + 1..] == md
  {
    assert |ZONE_ANNOTATION_PREFIX + "/"| == |ZONE_ANNOTATION_PREFIX| + 1;
  }

  method SelectMembers(sorted: seq<string>, existing: Option<Group>, placement: map<string, string>, vmToMd: map<string, string>)
    returns (members: seq<GroupMember>)
    ensures members == Members(Select(sorted, existing, placement, vmToMd))
  {
    members := [];
    for i := 0 to |sorted|
      invariant members == Members(Select(sorted[..i], existing, placement, vmToMd))
    {
      assert sorted[..i + 1][..i] == sorted[..i];
      var vm := sorted[i];
      if existing.None? || vm in MemberNames(existing.value) || Lookup(vmToMd, vm) in placement {
        members := members + [GroupMember(vm, "VirtualMachine")];
      }
    }
    assert sorted[..|sorted|] == sorted;
  }

  // ---------------------------------------------------------------------------------------------
  // The creation gate
  // ---------------------------------------------------------------------------------------------

  const INT32_MIN := -0x8000_0000
  const INT32_MAX := 0x7fff_ffff

  /** The value an `int32` holds after arithmetic that yields `x`. */
  function Int32(x: int): int {
    (x - INT32_MIN) % 0x1_0000_0000 + INT32_MIN
  }

  /** Wrapping after every addition is wrapping once at the end. */
  lemma Int32Sum(a: int, b: int)
    ensures Int32(Int32(a) + b) == Int32(a + b)
  {
    var q := (a - INT32_MIN) / 0x1_0000_0000;
    assert Int32(a) == a - q * 0x1_0000_0000;
  }

  function Replicas(md: MachineDeployment): int {
    if md.replicas.Some? then md.replicas.value else 0
  }

  /** The sum of the replicas of the MachineDeployments that are not being deleted. */
  function ExpectedReplicas(mds: seq<MachineDeployment>): int {
    if mds == [] then 0
    else
      ExpectedReplicas(mds[..|mds| - 1])
      + if mds[|mds| - 1].deleting then 0 else Replicas(mds[|mds| - 1])
  }

  function LiveNames(mds: seq<MachineDeployment>): set<string> {
    set md | md in mds && !md.deleting :: md.name
  }

  /** How many machines are labelled with one of the given MachineDeployments. */
  function CountOwned(machines: seq<VSphereMachine>, owners: set<string>): nat {
    if machines == [] then 0
    else
      CountOwned(machines[..|machines| - 1], owners)
      + if machines[|machines| - 1].mdLabel in owners then 1 else 0
  }

  predicate NoneDeleting(machines: seq<VSphereMachine>, owners: set<string>) {
    forall i :: 0 <= i < |machines| && machines[i].mdLabel in owners ==> !machines[i].deleting
  }

  predicate GateOpen(mds: seq<MachineDeployment>, machines: seq<VSphereMachine>) {
    && Int32(ExpectedReplicas(mds)) != 0
    && NoneDeleting(machines, LiveNames(mds))
    && Int32(CountOwned(machines, LiveNames(mds))) >= Int32(ExpectedReplicas(mds))
  }

  method ShouldCreateVirtualMachineGroup(mds: seq<MachineDeployment>, machines: seq<VSphereMachine>) returns (open: bool)
    ensures open == GateOpen(mds, machines)
  {
    var expected, mdNames := SumReplicas(mds);
    if expected == 0 {
      return false;
    }
    var waiting, current := CountMachines(machines, mdNames);
    if waiting {
      return false;
    }
    return current >= expected;
  }

  /** The first loop of the gate. */
  method SumReplicas(mds: seq<MachineDeployment>) returns (expected: int, mdNames: set<string>)
    ensures expected == Int32(ExpectedReplicas(mds)) && mdNames == LiveNames(mds)
  {
    expected, mdNames := 0, {};
    for i := 0 to |mds|
      invariant expected == Int32(ExpectedReplicas(mds[..i]))
      invariant mdNames == LiveNames(mds[..i])
    {
      assert mds[..i + 1][..i] == mds[..i];
      assert mds[..i + 1] == mds[..i] + [mds[i]];
      if mds[i].deleting {
        continue;
      }
      Int32Sum(ExpectedReplicas(mds[..i]), Replicas(mds[i]));
      expected := Int32(expected + Replicas(mds[i]));
      mdNames := mdNames + {mds[i].name};
    }
    assert mds[..|mds|] == mds;
  }

  /** The second loop of the gate, which stops at the first deleting machine. */
  method CountMachines(machines: seq<VSphereMachine>, mdNames: set<string>) returns (waiting: bool, current: int)
    ensures waiting == !NoneDeleting(machines, mdNames)
    ensures !waiting ==> current == Int32(CountOwned(machines, mdNames))
  {
    current := 0;
    for i := 0 to |machines|
      invariant current == Int32(CountOwned(machines[..i], mdNames))
      invariant NoneDeleting(machines[..i], mdNames)
    {
      assert machines[..i + 1][..i] == machines[..i];
      if machines[i].mdLabel !in mdNames {
        continue;
      }
      if machines[i].deleting {
        return true, current;
      }
      Int32Sum(CountOwned(machines[..i], mdNames), 1);
      current := Int32(current + 1);
    }
    assert machines[..|machines|] == machines;
    return false, current;
  }

  // ---------------------------------------------------------------------------------------------
  // One reconcile
  // ---------------------------------------------------------------------------------------------

  /** The request a reconcile sends to the API server. */
  datatype Request = NoRequest | CreateGroup(group: Group) | PatchGroup(group: Group)

  ghost function Plan(namer: Namer, cluster: Cluster, snapshot: Snapshot, current: Option<Group>): Request {
    match current
    case None =>
      if !GateOpen(snapshot.mds, snapshot.machines) then NoRequest
      else (match Compute(namer, cluster, snapshot, None) case None => NoRequest case Some(g) => CreateGroup(g))
    case Some(_) =>
      match Compute(namer, cluster, snapshot, current) case None => NoRequest case Some(g) => PatchGroup(g)
  }

  method ReconcileNormal(namer: Namer, cluster: Cluster, snapshot: Snapshot, current: Option<Group>) returns (request: Request)
    ensures request == Plan(namer, cluster, snapshot, current)
  {
    if current.None? {
      var open := ShouldCreateVirtualMachineGroup(snapshot.mds, snapshot.machines);
      if !open {
        return NoRequest;
      }
      var created := ComputeVirtualMachineGroup(namer, cluster, snapshot, None);
      return if created.None? then NoRequest else CreateGroup(created.value);
    }
    var updated := ComputeVirtualMachineGroup(namer, cluster, snapshot, current);
    return if updated.None? then NoRequest else PatchGroup(updated.value);
  }
}
