/**
  The VirtualMachineGroup controller as a protocol. Any number of reconcilers read the group, possibly from a stale
  cache, compute from whatever MachineDeployments, machines and zones they list, and later create the group or patch it
  under an optimistic lock, while vm-operator and others write the rest of the object. Theorems hold for every run.
 */
module PlacementProtocol {
  import opened Common
  import opened Ordering
  import opened VirtualMachineGroup
  import opened PlacementRules
  import opened CreationGate

  // ---------------------------------------------------------------------------------------------
  // One computation on an existing group
  // ---------------------------------------------------------------------------------------------

  /** The snapshot lists `md` as a live MachineDeployment that leaves its failure domain to the placement decision. */
  ghost predicate Unpinned(snapshot: Snapshot, md: string) {
    && WellNamed(snapshot.mds)
    && exists i :: 0 <= i < |snapshot.mds| && snapshot.mds[i].name == md && !snapshot.mds[i].deleting && snapshot.mds[i].failureDomain == ""
  }

  lemma ComputeKeepsZone(namer: Namer, cluster: Cluster, snapshot: Snapshot, group: Group, md: string)
    requires Unpinned(snapshot, md) && ZoneOf(group, md) != ""
    requires VmToMd(namer, snapshot.machines).Some?
    ensures ZoneOf(Compute(namer, cluster, snapshot, Some(group)).value, md) == ZoneOf(group, md)
  {
    var vmToMd := VmToMd(namer, snapshot.machines).value;
    PlaceExact(snapshot.mds, SingleZoneName(snapshot.zones), Some(group), vmToMd);
    DesiredAnnotations(cluster, PlacementFor(snapshot, Some(group), vmToMd), Some(group), vmToMd);
    var i :| 0 <= i < |snapshot.mds| && snapshot.mds[i].name == md && !snapshot.mds[i].deleting && snapshot.mds[i].failureDomain == "";
    assert snapshot.mds[i].name == md;
  }

  /** `vm` is the VirtualMachine of a live machine of `md`. */
  predicate RunsFor(namer: Namer, snapshot: Snapshot, vm: string, md: string) {
    exists i :: 0 <= i < |snapshot.machines| && StandsFor(namer, snapshot.machines[i], vm) && snapshot.machines[i].mdLabel == md
  }

  /** Some live labelled machine of the snapshot has `vm` as its VirtualMachine. */
  predicate IsLive(namer: Namer, snapshot: Snapshot, vm: string) {
    exists i :: 0 <= i < |snapshot.machines| && StandsFor(namer, snapshot.machines[i], vm)
  }

  /** A VirtualMachine joins an existing group only with the zone of its MachineDeployment in the same object. */
  lemma ComputeJoins(namer: Namer, cluster: Cluster, snapshot: Snapshot, group: Group, vm: string) returns (md: string)
    requires WellNamed(snapshot.mds)
    requires VmToMd(namer, snapshot.machines).Some?
    ensures var next := Compute(namer, cluster, snapshot, Some(group)).value;
            vm in MemberNames(next) && vm !in MemberNames(group) ==>
              RunsFor(namer, snapshot, vm, md) && ZoneOf(next, md) != ""
  {
    md := "";
    if vm in MemberNames(Compute(namer, cluster, snapshot, Some(group)).value) && vm !in MemberNames(group) {
      var vmToMd := VmToMd(namer, snapshot.machines).value;
      var placement := PlacementFor(snapshot, Some(group), vmToMd);
      DesiredMembers(cluster, placement, Some(group), vmToMd);
      VmToMdOrigin(namer, snapshot.machines, vm);
      md := vmToMd[vm];
      assert md in placement;
      PlaceExact(snapshot.mds, SingleZoneName(snapshot.zones), Some(group), vmToMd);
      var k :| 0 <= k < |snapshot.mds| && snapshot.mds[k].name == md;
      assert Decide(snapshot.mds[k], SingleZoneName(snapshot.zones), Some(group), vmToMd) == Some(placement[md]);
      DesiredAnnotations(cluster, placement, Some(group), vmToMd);
    }
  }

  /** The members of an update: live VirtualMachines that were members or whose MachineDeployment has a zone in the same object. */
  lemma ComputeMembers(namer: Namer, cluster: Cluster, snapshot: Snapshot, group: Group, vm: string)
    requires WellNamed(snapshot.mds) && VmToMd(namer, snapshot.machines).Some?
    ensures var next, vmToMd := Compute(namer, cluster, snapshot, Some(group)).value, VmToMd(namer, snapshot.machines).value;
            vm in MemberNames(next) <==> vm in vmToMd && (vm in MemberNames(group) || ZoneOf(next, vmToMd[vm]) != "")
  {
    var vmToMd := VmToMd(namer, snapshot.machines).value;
    var zone := SingleZoneName(snapshot.zones);
    var placement := PlacementFor(snapshot, Some(group), vmToMd);
    DesiredMembers(cluster, placement, Some(group), vmToMd);
    if vm in vmToMd {
      var md := vmToMd[vm];
      PlacedExact(cluster, snapshot.mds, zone, group, vmToMd, md);
    }
  }

  lemma PlacedExact(cluster: Cluster, mds: seq<MachineDeployment>, zone: string, group: Group, vmToMd: map<string, string>, md: string)
    requires WellNamed(mds)
    ensures var placement := Place(mds, zone, Some(group), vmToMd);
            md in placement <==> ZoneOf(Desired(cluster, placement, Some(group), vmToMd), md) != ""
  {
    var placement := Place(mds, zone, Some(group), vmToMd);
    DesiredAnnotations(cluster, placement, Some(group), vmToMd);
    assert ZoneKey(md) in Desired(cluster, placement, Some(group), vmToMd).annotations <==> md in placement;
    if md in placement {
      PlaceKeys(mds, zone, Some(group), vmToMd, md);
      var k :| 0 <= k < |mds| && mds[k].name == md;
      PlaceEntry(mds, zone, Some(group), vmToMd, k);
    }
  }

  /** A member stays exactly as long as a live labelled machine stands for it. */
  lemma ComputeStays(namer: Namer, cluster: Cluster, snapshot: Snapshot, group: Group, vm: string)
    requires VmToMd(namer, snapshot.machines).Some?
    requires vm in MemberNames(group)
    ensures vm in MemberNames(Compute(namer, cluster, snapshot, Some(group)).value) <==> IsLive(namer, snapshot, vm)
  {
    var vmToMd := VmToMd(namer, snapshot.machines).value;
    DesiredMembers(cluster, PlacementFor(snapshot, Some(group), vmToMd), Some(group), vmToMd);
    VmToMdDomain(namer, snapshot.machines, vm);
  }

  // ---------------------------------------------------------------------------------------------
  // The state machine
  // ---------------------------------------------------------------------------------------------

  /** The group as the API server holds it, with its resource version. */
  datatype Stored = Stored(group: Group, version: nat)

  /** `seen` holds every version ever stored: what a cache may still return. `observed` is what each reconciler last read. */
  datatype State = State(store: Option<Stored>, seen: set<Stored>, nextVersion: nat, observed: map<nat, Option<Stored>>)

  datatype Action =
    | Read(worker: nat, result: Option<Stored>)       // a possibly stale read, or a stale not-found
    | Submit(worker: nat, snapshot: Snapshot)         // list, compute, create or patch
    | OtherWrite(group: Group)                        // vm-operator, users: anything but the zone annotations
    | Skip                                            // a failed call

  predicate SameZones(a: Group, b: Group) {
    && (forall key :: key in a.annotations && IsZoneKey(key) ==> key in b.annotations && b.annotations[key] == a.annotations[key])
    && (forall key :: key in b.annotations && IsZoneKey(key) ==> key in a.annotations)
  }

  function Write(s: State, group: Group): State {
    var stored := Stored(group, s.nextVersion);
    s.(store := Some(stored), seen := s.seen + {stored}, nextVersion := s.nextVersion + 1)
  }

  /** The API server: create only when absent, patch only the version that was read. */
  function Serve(s: State, read: Option<Stored>, request: Request): State {
    match request
    case NoRequest => s
    case CreateGroup(g) => if s.store.None? then Write(s, g) else s
    case PatchGroup(g) =>
      if s.store.Some? && read.Some? && read.value.version == s.store.value.version then Write(s, g) else s
  }

  function GroupRead(read: Option<Stored>): Option<Group> {
    if read.Some? then Some(read.value.group) else None
  }

  ghost predicate Next(namer: Namer, cluster: Cluster, s: State, a: Action, t: State) {
    match a
    case Read(worker, result) =>
      (result.Some? ==> result.value in s.seen) && t == s.(observed := s.observed[worker := result])
    case Submit(worker, snapshot) =>
      worker in s.observed && t == Serve(s, s.observed[worker], Plan(namer, cluster, snapshot, GroupRead(s.observed[worker])))
    case OtherWrite(group) =>
      s.store.Some? && SameZones(s.store.value.group, group) && t == Write(s, group)
    case Skip => t == s
  }

  /** Resource versions identify stored objects. */
  ghost predicate Inv(s: State) {
    && (forall a, b :: a in s.seen && b in s.seen && a.version == b.version ==> a == b)
    && (forall a :: a in s.seen ==> a.version < s.nextVersion)
    && (s.store.Some? ==> s.store.value in s.seen)
    && (forall w :: w in s.observed && s.observed[w].Some? ==> s.observed[w].value in s.seen)
  }

  ghost predicate StepAt(namer: Namer, cluster: Cluster, states: seq<State>, actions: seq<Action>, i: nat)
    requires i < |actions| && |states| == |actions| + 1
  {
    Next(namer, cluster, states[i], actions[i], states[i + 1])
  }

  ghost predicate Run(namer: Namer, cluster: Cluster, states: seq<State>, actions: seq<Action>) {
    && |states| == |actions| + 1
    && Inv(states[0])
    && forall i :: 0 <= i < |actions| ==> StepAt(namer, cluster, states, actions, i)
  }

  lemma NextKeepsInv(namer: Namer, cluster: Cluster, s: State, a: Action, t: State)
    requires Inv(s) && Next(namer, cluster, s, a, t)
    ensures Inv(t)
    ensures s.store.Some? ==> t.store.Some?
  {
  }

  lemma {:induction false} RunInv(namer: Namer, cluster: Cluster, states: seq<State>, actions: seq<Action>, i: nat)
    requires Run(namer, cluster, states, actions) && i < |states|
    ensures Inv(states[i])
  {
    if i > 0 {
      RunInv(namer, cluster, states, actions, i - 1);
      assert StepAt(namer, cluster, states, actions, i - 1);
      NextKeepsInv(namer, cluster, states[i - 1], actions[i - 1], states[i]);
    }
  }

  lemma StepIsCurrent(namer: Namer, cluster: Cluster, s: State, a: Action, t: State)
    requires Inv(s) && a.Submit? && Next(namer, cluster, s, a, t) && s.store.Some? && t.store != s.store
    ensures t.store.Some?
    ensures Compute(namer, cluster, a.snapshot, Some(s.store.value.group)) == Some(t.store.value.group)
  {
    var read := s.observed[a.worker];
    assert read.Some? && read.value == s.store.value;
  }

  /** The optimistic lock: a submit that changes an existing group computed from exactly the group it replaces. */
  lemma SubmitIsCurrent(namer: Namer, cluster: Cluster, states: seq<State>, actions: seq<Action>, k: nat)
    requires Run(namer, cluster, states, actions) && k < |actions| && actions[k].Submit?
    requires states[k].store.Some? && states[k + 1].store != states[k].store
    ensures states[k + 1].store.Some?
    ensures Compute(namer, cluster, actions[k].snapshot, Some(states[k].store.value.group)) == Some(states[k + 1].store.value.group)
  {
    RunInv(namer, cluster, states, actions, k);
    assert StepAt(namer, cluster, states, actions, k);
    StepIsCurrent(namer, cluster, states[k], actions[k], states[k + 1]);
  }

  /** A submit whose read is still current writes what it computed, provided names can be computed and a new group may be created. */
  lemma CurrentSubmitWrites(namer: Namer, cluster: Cluster, states: seq<State>, actions: seq<Action>, k: nat)
    requires Run(namer, cluster, states, actions) && k < |actions| && actions[k].Submit?
    requires actions[k].worker in states[k].observed && states[k].observed[actions[k].worker] == states[k].store
    requires VmToMd(namer, actions[k].snapshot.machines).Some?
    requires states[k].store.None? ==> GateOpen(actions[k].snapshot.mds, actions[k].snapshot.machines)
    ensures states[k + 1].store.Some? && states[k + 1].store != states[k].store
    ensures Compute(namer, cluster, actions[k].snapshot, GroupRead(states[k].store)) == Some(states[k + 1].store.value.group)
  {
    RunInv(namer, cluster, states, actions, k);
    assert StepAt(namer, cluster, states, actions, k);
  }

  // ---------------------------------------------------------------------------------------------
  // Theorems over runs
  // ---------------------------------------------------------------------------------------------

  function Zone(s: State, md: string): string {
    if s.store.Some? then ZoneOf(s.store.value.group, md) else ""
  }

  function MembersOf(s: State): seq<string> {
    if s.store.Some? then MemberNames(s.store.value.group) else []
  }

  /** The action is a submit that changed the stored group: its snapshot was used. */
  predicate Used(s: State, a: Action, t: State) {
    a.Submit? && t.store != s.store
  }

  lemma StepKeepsZone(namer: Namer, cluster: Cluster, s: State, a: Action, t: State, md: string)
    requires Inv(s) && Next(namer, cluster, s, a, t)
    requires Zone(s, md) != "" && (Used(s, a, t) ==> Unpinned(a.snapshot, md))
    ensures Zone(t, md) == Zone(s, md)
  {
    match a
    case Read(_, _) =>
    case Skip =>
    case OtherWrite(group) =>
      ZoneKeyDrop(md);
    case Submit(worker, snapshot) =>
      if t.store != s.store {
        StepIsCurrent(namer, cluster, s, a, t);
        ComputeKeepsZone(namer, cluster, snapshot, s.store.value.group, md);
      }
  }

  /**
    Placement is sticky: once a zone is recorded it stays, whatever happens to machines, member status, zones and
    other reconcilers, as long as the snapshots of writes that take effect list the MachineDeployment as live and unpinned.
   */
  lemma {:induction false} PlacementIsSticky(
    namer: Namer, cluster: Cluster, states: seq<State>, actions: seq<Action>, md: string, i: nat, j: nat)
    requires Run(namer, cluster, states, actions) && i <= j < |states|
    requires Zone(states[i], md) != ""
    requires forall k :: i <= k < j && Used(states[k], actions[k], states[k + 1]) ==> Unpinned(actions[k].snapshot, md)
    ensures Zone(states[j], md) == Zone(states[i], md)
  {
    if i < j {
      PlacementIsSticky(namer, cluster, states, actions, md, i, j - 1);
      RunInv(namer, cluster, states, actions, j - 1);
      assert StepAt(namer, cluster, states, actions, j - 1);
      StepKeepsZone(namer, cluster, states[j - 1], actions[j - 1], states[j], md);
    }
  }

  /**
    Deferral is safe: a VirtualMachine that a reconciler adds to an existing group belongs to a MachineDeployment whose
    zone the same write records, and that zone then stays as in `PlacementIsSticky`.
   */
  lemma JoinsUnderItsZone(
    namer: Namer, cluster: Cluster, states: seq<State>, actions: seq<Action>, k: nat, vm: string) returns (md: string)
    requires Run(namer, cluster, states, actions) && k < |actions|
    requires actions[k].Submit? && WellNamed(actions[k].snapshot.mds) && states[k].store.Some?
    requires vm in MembersOf(states[k + 1]) && vm !in MembersOf(states[k])
    ensures RunsFor(namer, actions[k].snapshot, vm, md) && Zone(states[k + 1], md) != ""
    ensures forall j :: k < j < |states| && (forall m :: k < m < j && Used(states[m], actions[m], states[m + 1]) ==> Unpinned(actions[m].snapshot, md))
                        ==> Zone(states[j], md) == Zone(states[k + 1], md)
  {
    SubmitIsCurrent(namer, cluster, states, actions, k);
    md := ComputeJoins(namer, cluster, actions[k].snapshot, states[k].store.value.group, vm);
    forall j | k < j < |states| && (forall m :: k < m < j && Used(states[m], actions[m], states[m + 1]) ==> Unpinned(actions[m].snapshot, md))
      ensures Zone(states[j], md) == Zone(states[k + 1], md)
    {
      PlacementIsSticky(namer, cluster, states, actions, md, k + 1, j);
    }
  }

  /** A reconciler removes a member only if the snapshot it used has no live labelled machine for it. */
  lemma LeavesOnlyWhenGone(namer: Namer, cluster: Cluster, states: seq<State>, actions: seq<Action>, k: nat, vm: string)
    requires Run(namer, cluster, states, actions) && k < |actions| && actions[k].Submit?
    requires vm in MembersOf(states[k]) && vm !in MembersOf(states[k + 1])
    ensures !IsLive(namer, actions[k].snapshot, vm)
  {
    SubmitIsCurrent(namer, cluster, states, actions, k);
    ComputeStays(namer, cluster, actions[k].snapshot, states[k].store.value.group, vm);
  }

  /** Nobody but the reconcilers touches the member list in this step. */
  predicate LeavesMembers(s: State, a: Action, t: State) {
    a.OtherWrite? ==> MembersOf(t) == MembersOf(s)
  }

  /** Nothing live is lost: a member that is live in every snapshot used stays, if others leave the member list alone. */
  lemma {:induction false} LiveMembersStay(
    namer: Namer, cluster: Cluster, states: seq<State>, actions: seq<Action>, vm: string, i: nat, j: nat)
    requires Run(namer, cluster, states, actions) && i <= j < |states|
    requires vm in MembersOf(states[i])
    requires forall k :: i <= k < j && Used(states[k], actions[k], states[k + 1]) ==> IsLive(namer, actions[k].snapshot, vm)
    requires forall k :: i <= k < j ==> LeavesMembers(states[k], actions[k], states[k + 1])
    ensures vm in MembersOf(states[j])
  {
    if i < j {
      LiveMembersStay(namer, cluster, states, actions, vm, i, j - 1);
      RunInv(namer, cluster, states, actions, j - 1);
      assert StepAt(namer, cluster, states, actions, j - 1);
      StepKeepsLiveMember(namer, cluster, states[j - 1], actions[j - 1], states[j], vm);
    }
  }

  lemma StepKeepsLiveMember(namer: Namer, cluster: Cluster, s: State, a: Action, t: State, vm: string)
    requires Inv(s) && Next(namer, cluster, s, a, t) && vm in MembersOf(s)
    requires Used(s, a, t) ==> IsLive(namer, a.snapshot, vm)
    requires LeavesMembers(s, a, t)
    ensures vm in MembersOf(t)
  {
    if Used(s, a, t) {
      StepIsCurrent(namer, cluster, s, a, t);
      ComputeStays(namer, cluster, a.snapshot, s.store.value.group, vm);
    }
  }

  /** The group comes into being only through the gate, with the whole batch as its members. */
  lemma CreatedAsBatch(namer: Namer, cluster: Cluster, states: seq<State>, actions: seq<Action>, k: nat)
    requires Run(namer, cluster, states, actions) && k < |actions|
    requires states[k].store.None? && states[k + 1].store.Some?
    ensures actions[k].Submit? && GateOpen(actions[k].snapshot.mds, actions[k].snapshot.machines)
    ensures Compute(namer, cluster, actions[k].snapshot, None) == Some(states[k + 1].store.value.group)
    ensures var s := actions[k].snapshot;
            && WellNamed(s.mds) && NamesApart(namer, s.machines)
            && 0 <= ExpectedReplicas(s.mds) <= INT32_MAX && |s.machines| <= INT32_MAX
            ==>
              && StrictlySorted(MembersOf(states[k + 1]))
              && 0 < ExpectedReplicas(s.mds) <= |MembersOf(states[k + 1])|
              && forall i :: 0 <= i < |s.machines| && s.machines[i].mdLabel in LiveNames(s.mds) ==>
                   var m := s.machines[i];
                   !m.deleting && namer(m.name, m.naming).Some? && namer(m.name, m.naming).value in MembersOf(states[k + 1])
  {
    assert StepAt(namer, cluster, states, actions, k);
    var s := actions[k].snapshot;
    if WellNamed(s.mds) && NamesApart(namer, s.machines)
       && 0 <= ExpectedReplicas(s.mds) <= INT32_MAX && |s.machines| <= INT32_MAX
    {
      BatchCreation(namer, cluster, s);
    }
  }

  /** A reconcile that finds the environment and the group as its last write left them asks for that same object again. */
  lemma SettledReconcile(namer: Namer, cluster: Cluster, states: seq<State>, actions: seq<Action>, k: nat)
    requires Run(namer, cluster, states, actions) && k < |actions|
    requires actions[k].Submit? && WellNamed(actions[k].snapshot.mds) && states[k + 1].store != states[k].store
    ensures states[k + 1].store.Some?
    ensures var g := states[k + 1].store.value.group; Plan(namer, cluster, actions[k].snapshot, Some(g)) == PatchGroup(g)
  {
    var snapshot := actions[k].snapshot;
    assert StepAt(namer, cluster, states, actions, k);
    if states[k].store.Some? {
      SubmitIsCurrent(namer, cluster, states, actions, k);
      ComputeIdempotent(namer, cluster, snapshot, Some(states[k].store.value.group));
    } else {
      ComputeIdempotent(namer, cluster, snapshot, None);
    }
  }
}
