/**
  Cluster-module reconciliation: recorded modules are matched against live owners through a map that the first loop
  consumes, and the second loop creates modules for the owners that are left, in whatever order the map yields them.
  The answers of the cluster-module service are inputs; the calls made to it are recorded in order.
 */
module ClusterModules {
  import opened Common

  datatype ClusterModule = ClusterModule(controlPlane: Option<bool>, targetObjectName: string, moduleUUID: string)

  /** A KubeadmControlPlane or a MachineDeployment. */
  datatype Owner = Owner(name: string, controlPlane: bool)

  /** An owner as listed from the API server. */
  datatype Listed = Listed(name: string, deleting: bool)

  function AppendKCPKey(name: string): string {
    "kcp" + name
  }

  function OwnerKey(owner: Owner): string {
    if owner.controlPlane then AppendKCPKey(owner.name) else owner.name
  }

  function IsControlPlane(mod: ClusterModule): bool {
    mod.controlPlane == Some(true)
  }

  function ModuleKey(mod: ClusterModule): string {
    if IsControlPlane(mod) then AppendKCPKey(mod.targetObjectName) else mod.targetObjectName
  }

  /** The entry written for an owner. */
  function Entry(owner: Owner, uuid: string): ClusterModule {
    ClusterModule(Some(owner.controlPlane), owner.name, uuid)
  }

  // ---------------------------------------------------------------------------------------------
  // The owners
  // ---------------------------------------------------------------------------------------------

  type Owners = map<string, Owner>

  function AddDeployments(objects: Owners, mds: seq<Listed>): Owners {
    if mds == [] then objects
    else
      var rest := AddDeployments(objects, mds[..|mds| - 1]);
      var md := mds[|mds| - 1];
      if md.deleting then rest else rest[md.name := Owner(md.name, false)]
  }

  function ControlPlaneOwners(kcps: seq<Listed>): Owners {
    if kcps != [] && !kcps[0].deleting then map[AppendKCPKey(kcps[0].name) := Owner(kcps[0].name, true)] else map[]
  }

  /** None when more than one control plane is listed. */
  function FetchOwners(kcps: seq<Listed>, mds: seq<Listed>): Option<Owners> {
    if |kcps| > 1 then None else Some(AddDeployments(ControlPlaneOwners(kcps), mds))
  }

  method FetchMachineOwnerObjects(kcps: seq<Listed>, mds: seq<Listed>) returns (r: Option<Owners>)
    ensures r == FetchOwners(kcps, mds)
  {
    if |kcps| > 1 {
      return None;
    }
    var objects: Owners := map[];
    if |kcps| != 0 {
      if !kcps[0].deleting {
        objects := objects[AppendKCPKey(kcps[0].name) := Owner(kcps[0].name, true)];
      }
    }
    assert objects == ControlPlaneOwners(kcps);
    for i := 0 to |mds|
      invariant objects == AddDeployments(ControlPlaneOwners(kcps), mds[..i])
    {
      assert mds[..i + 1][..i] == mds[..i];
      if !mds[i].deleting {
        objects := objects[mds[i].name := Owner(mds[i].name, false)];
      }
    }
    assert mds[..|mds|] == mds;
    return Some(objects);
  }

  /** Every owner sits under its own key. */
  ghost predicate WellKeyed(owners: Owners) {
    forall key :: key in owners ==> OwnerKey(owners[key]) == key
  }

  ghost predicate OneControlPlane(owners: Owners) {
    forall a, b :: a in owners && b in owners && owners[a].controlPlane && owners[b].controlPlane ==> a == b
  }

  ghost predicate LiveIn(list: seq<Listed>, name: string) {
    exists i :: 0 <= i < |list| && list[i].name == name && !list[i].deleting
  }

  lemma {:induction false} AddDeploymentsExact(objects: Owners, mds: seq<Listed>)
    ensures var r := AddDeployments(objects, mds);
            forall key :: && (key in r <==> key in objects || LiveIn(mds, key))
                          && (LiveIn(mds, key) ==> key in r && r[key] == Owner(key, false))
                          && (!LiveIn(mds, key) && key in r ==> r[key] == objects[key])
  {
    if mds != [] {
      var front, last := mds[..|mds| - 1], mds[|mds| - 1];
      AddDeploymentsExact(objects, front);
      forall key ensures LiveIn(mds, key) <==> LiveIn(front, key) || (last.name == key && !last.deleting) {
        if LiveIn(front, key) {
          var i :| 0 <= i < |front| && front[i].name == key && !front[i].deleting;
          assert mds[i] == front[i];
        }
        if LiveIn(mds, key) {
          var i :| 0 <= i < |mds| && mds[i].name == key && !mds[i].deleting;
          assert i < |front| ==> front[i] == mds[i];
        }
        assert mds[|mds| - 1] == last;
      }
    }
  }

  /**
    Owners are keyed by their own key with at most one control plane; every live MachineDeployment is found; and the
    live control plane is found exactly when no live MachineDeployment carries its prefixed name.
   */
  lemma OwnersExact(kcps: seq<Listed>, mds: seq<Listed>)
    requires |kcps| <= 1
    ensures var owners := FetchOwners(kcps, mds).value;
            && WellKeyed(owners) && OneControlPlane(owners)
            && (forall name :: LiveIn(mds, name) ==> name in owners && owners[name] == Owner(name, false))
            && (forall key :: key in owners ==> if owners[key].controlPlane then LiveIn(kcps, owners[key].name) else LiveIn(mds, key))
            && (forall name :: LiveIn(kcps, name) ==>
                  (!LiveIn(mds, AppendKCPKey(name)) <==> Owner(name, true) in owners.Values))
  {
    var first := ControlPlaneOwners(kcps);
    var owners := FetchOwners(kcps, mds).value;
    AddDeploymentsExact(first, mds);
    forall name | LiveIn(kcps, name)
      ensures !LiveIn(mds, AppendKCPKey(name)) <==> Owner(name, true) in owners.Values
    {
      assert kcps[0].name == name && !kcps[0].deleting;
      var key := AppendKCPKey(name);
      if !LiveIn(mds, key) {
        assert key in owners && owners[key] == Owner(name, true);
      }
      if Owner(name, true) in owners.Values {
        var k :| k in owners && owners[k] == Owner(name, true);
        assert k == key;
      }
    }
    forall key | key in owners ensures if owners[key].controlPlane then LiveIn(kcps, owners[key].name) else LiveIn(mds, key) {
      if owners[key].controlPlane {
        assert key in first;
        assert kcps[0].name == owners[key].name;
      }
    }
  }

  // ---------------------------------------------------------------------------------------------
  // The two loops
  // ---------------------------------------------------------------------------------------------

  /** The answer of DoesExist for a recorded module. */
  datatype Existence = Exists | Missing | CheckFailed(incompatibleOwner: bool)

  /** The answer of Create; an empty UUID means that the service skipped the owner. */
  datatype Creation = Created(uuid: string) | CreateFailed(incompatibleOwner: bool)

  datatype Call = Check(key: string, uuid: string) | Remove(uuid: string) | Create(key: string)

  datatype ModError = ModError(name: string, incompatibleOwner: bool)

  /** The variables of the reconcile: module list, owners still without module, errors, and calls made so far. */
  datatype Progress = Progress(modules: seq<ClusterModule>, pending: Owners, errors: seq<ModError>, calls: seq<Call>)

  function Verify(p: Progress, mod: ClusterModule, answer: Existence): Progress {
    var key := ModuleKey(mod);
    if key !in p.pending then p.(calls := p.calls + [Remove(mod.moduleUUID)])
    else
      var owner := p.pending[key];
      var checked := p.(calls := p.calls + [Check(key, mod.moduleUUID)]);
      match answer
      case Missing => checked
      case Exists =>
        checked.(modules := p.modules + [Entry(owner, mod.moduleUUID)], pending := p.pending - {key})
      case CheckFailed(incompatible) =>
        checked.(modules := p.modules + [Entry(owner, mod.moduleUUID)], pending := p.pending - {key},
                 errors := p.errors + [ModError(owner.name, incompatible)])
  }

  function VerifyAll(owners: Owners, recorded: seq<ClusterModule>, answers: seq<Existence>): Progress
    requires |answers| == |recorded|
  {
    if recorded == [] then Progress([], owners, [], [])
    else
      var n := |recorded| - 1;
      Verify(VerifyAll(owners, recorded[..n], answers[..n]), recorded[n], answers[n])
  }

  function CreateOne(p: Progress, key: string, owner: Owner, answer: Creation): Progress {
    var called := p.(calls := p.calls + [Create(key)]);
    match answer
    case CreateFailed(incompatible) => called.(errors := p.errors + [ModError(owner.name, incompatible)])
    case Created(uuid) => if uuid == "" then called else called.(modules := p.modules + [Entry(owner, uuid)])
  }

  type Creator = string -> Creation

  function CreateAll(p: Progress, order: seq<string>, creator: Creator): Progress
    requires forall i :: 0 <= i < |order| ==> order[i] in p.pending
  {
    if order == [] then p
    else
      var n := |order| - 1;
      CreateOne(CreateAll(p, order[..n], creator), order[n], p.pending[order[n]], creator(order[n]))
  }

  ghost predicate Enumerates(order: seq<string>, keys: set<string>) {
    Distinct(order) && forall key :: key in order <==> key in keys
  }

  /** `result` is what one reconcile may end with, for some enumeration of the owners that the first loop left over. */
  ghost predicate Reconciled(owners: Owners, recorded: seq<ClusterModule>, answers: seq<Existence>, creator: Creator, result: Progress)
    requires |answers| == |recorded|
  {
    var verified := VerifyAll(owners, recorded, answers);
    exists order :: Enumerates(order, verified.pending.Keys) && result == CreateAll(verified, order, creator)
  }

  method VerifyModules(owners: Owners, recorded: seq<ClusterModule>, answers: seq<Existence>) returns (p: Progress)
    requires |answers| == |recorded|
    ensures p == VerifyAll(owners, recorded, answers)
  {
    var objectMap := owners;
    var modules: seq<ClusterModule>, errors: seq<ModError>, calls: seq<Call> := [], [], [];
    for i := 0 to |recorded|
      invariant Progress(modules, objectMap, errors, calls) == VerifyAll(owners, recorded[..i], answers[..i])
    {
      assert recorded[..i + 1][..i] == recorded[..i] && answers[..i + 1][..i] == answers[..i];
      var mod := recorded[i];
      var curr := mod.targetObjectName;
      if mod.controlPlane == Some(true) {
        curr := AppendKCPKey(curr);
      }
      if curr !in objectMap {
        calls := calls + [Remove(mod.moduleUUID)];
        assert objectMap - {curr} == objectMap;
        objectMap := objectMap - {curr};
      } else {
        var obj := objectMap[curr];
        calls := calls + [Check(curr, mod.moduleUUID)];
        if answers[i].CheckFailed? {
          errors := errors + [ModError(obj.name, answers[i].incompatibleOwner)];
          modules := modules + [Entry(obj, mod.moduleUUID)];
          objectMap := objectMap - {curr};
          continue;
        }
        if answers[i].Exists? {
          modules := modules + [Entry(obj, mod.moduleUUID)];
          objectMap := objectMap - {curr};
        }
      }
    }
    assert recorded[..|recorded|] == recorded && answers[..|answers|] == answers;
    p := Progress(modules, objectMap, errors, calls);
  }

  method ReconcileModules(owners: Owners, recorded: seq<ClusterModule>, answers: seq<Existence>, creator: Creator)
    returns (result: Progress)
    requires |answers| == |recorded|
    ensures Reconciled(owners, recorded, answers, creator, result)
  {
    var verified := VerifyModules(owners, recorded, answers);
    result := verified;
    var todo := verified.pending.Keys;
    ghost var order: seq<string> := [];
    while todo != {}
      invariant todo <= verified.pending.Keys
      invariant Enumerates(order, verified.pending.Keys - todo)
      invariant forall i :: 0 <= i < |order| ==> order[i] in verified.pending
      invariant result == CreateAll(verified, order, creator)
      decreases todo
    {
      var key :| key in todo;
      var answer := creator(key);
      assert (order + [key])[..|order|] == order;
      order := order + [key];
      todo := todo - {key};
      result := CreateOne(result, key, verified.pending[key], answer);
    }
  }

  /** The VSphereCluster fields that the reconcile writes. */
  class VSphereCluster {
    var clusterModules: seq<ClusterModule>
    var modulesReady: Option<bool>

    /** Returns an error exactly when some failure is not an incompatible owner; `owners` is None when listing failed. */
    method ReconcileClusterModules(compatibleVCenter: bool, owners: Option<Owners>, answers: seq<Existence>, creator: Creator)
      returns (failed: bool, ghost result: Progress)
      requires |answers| == |clusterModules|
      modifies this
      ensures !compatibleVCenter ==>
                !failed && modulesReady == Some(false) && clusterModules == old(clusterModules)
      ensures compatibleVCenter && owners.None? ==>
                failed && modulesReady == old(modulesReady) && clusterModules == old(clusterModules)
      ensures compatibleVCenter && owners.Some? ==>
                && Reconciled(owners.value, old(clusterModules), answers, creator, result)
                && clusterModules == result.modules
                && modulesReady == Some(result.errors == [])
                && (failed <==> exists i :: 0 <= i < |result.errors| && !result.errors[i].incompatibleOwner)
    {
      result := Progress([], map[], [], []);
      if !compatibleVCenter {
        modulesReady := Some(false);
        return false, result;
      }
      if owners.None? {
        return true, result;
      }
      var r := ReconcileModules(owners.value, clusterModules, answers, creator);
      result := r;
      clusterModules := r.modules;
      failed := false;
      if |r.errors| > 0 {
        var incompatible := CountIncompatible(r.errors);
        failed := incompatible != |r.errors|;
        modulesReady := Some(false);
      } else {
        modulesReady := Some(true);
      }
    }
  }

  method CountIncompatible(errors: seq<ModError>) returns (n: nat)
    ensures n <= |errors|
    ensures n == |errors| <==> forall i :: 0 <= i < |errors| ==> errors[i].incompatibleOwner
  {
    n := 0;
    for i := 0 to |errors|
      invariant n <= i
      invariant n == i <==> forall j :: 0 <= j < i ==> errors[j].incompatibleOwner
    {
      if errors[i].incompatibleOwner {
        n := n + 1;
      }
    }
  }
}
