# Verified models of Cluster API Provider vSphere

This project models the controllers of Cluster API Provider vSphere (CAPV) that carry state from one reconcile to the
next, and proves what they keep over every run. Check it with `dafny verify dfyconfig.toml`.

| files | what they model |
|---|---|
| `VirtualMachineGroup.dfy`, `PlacementRules.dfy`, `CreationGate.dfy`, `PlacementProtocol.dfy` | the VirtualMachineGroup controller: creation gate, MachineDeployment-to-zone placement, member list, and the protocol under stale reads and an optimistic lock |
| `ClusterModules.dfy`, `ClusterModuleRules.dfy`, `ModuleCompare.dfy` | cluster-module reconciliation and the comparison of module lists |
| `Converter.dfy`, `ConverterRules.dfy` | the hub/spoke converter registry |
| `IPAddressClaimNames.dfy`, `IPAddressClaims.dfy`, `IPAddressClaimProtocol.dfy` | IPAddressClaim names and the protection-finalizer protocol |
| `IdentitySecret.dfy` | exclusive ownership of a credentials Secret |
| `DeploymentZones.dfy` | owner references of a failure domain as a reference count |
| `SessionCache.dfy` | the vCenter session cache |
| `VSphereVMSpec.dfy` | the mutation of a VSphereVM, with failure-domain overrides and network-device merges |
| `FeatureGates.dfy`, `FailureDomains.dfy`, `LabelTruncation.dfy` | transformations that must keep their meaning |
| `Common.dfy`, `Text.dfy`, `Ordering.dfy`, `OwnerReferences.dfy` | shared data types, Go string functions, string order and sorting, owner references |

How the models are built:

- Every loop of the source is a method with invariants, proved equal to a function; objects whose fields the source
  updates are classes. The theorems are about those functions, so they hold of the methods.
- What comes from outside is an input: listed objects, answers and failures of vCenter and of the API server, and the
  VirtualMachine naming function (`Namer`). Nothing is assumed of those inputs unless a contract says so.
- A protocol is a relation `Next` between states, with one constructor of `Action` for each reconciler and for the
  environment; a run is any sequence of such steps from any state that satisfies the invariant.
- `int32` counters of the creation gate wrap around explicitly (`Int32`). Strings are sequences of characters ordered as
  Go orders them; Kubernetes names are ASCII, where characters and bytes coincide.
- `EnsureOwnerRef`, `RemoveOwnerRef` and `IsOwnedByObject` belong to Cluster API, which is not part of this model; they
  are taken to match API group, kind and name, and to act on the first match.

Where code and documentation differ, the model follows the code:

- The comment above the VirtualMachineGroup reconciler says that creation waits until all MachineDeployment replicas have
  a machine. The gate compares totals over all MachineDeployments. `CreationGate.GateExact` states when the two differ: the
  gate opens although some MachineDeployment lacks machines if and only if no counted machine is deleting, replicas are
  expected, and 0 < shortage <= surplus, the sums of what the live MachineDeployments lack and have in excess.
  `CreationGate.SurgeHidesShortage` is the smallest such input.
- `clustermodule.Compare` is documented as telling whether two lists are the same. It ignores order between different
  targets but not between a control plane and a MachineDeployment of the same name; `ModuleCompare.CompareExact` states
  the exact condition and `ModuleCompare.SameNameOrderMatters` the smallest difference.
- A module listed twice is kept once and also removed (`ClusterModuleRules.DuplicateIsRemoved`); the list is atomic, so
  the API admits it. With distinct UUIDs no kept module is removed (`ClusterModuleRules.KeptNotRemoved`).
- The session key joins its fields with '#' and does not escape it. A request can get a session that was opened for another
  server, datacenter or user if and only if one of its own three fields contains '#' (`SessionCache.SeparationExact`).
- The clone spec of a VSphereVM is documented to take its server from the failure domain, else from the VSphereMachine, else
  from the VSphereCluster. A deployment zone without a server makes the code skip the VSphereMachine;
  `VSphereVMSpec.ServerPrecedence` states the exact condition and `VSphereVMSpec.ZoneHidesServer` an input.
- A control plane is found among the machine owners only if no live MachineDeployment is named like its prefixed key
  (`ClusterModules.OwnersExact`).
- Converting a status to v1beta1 and back keeps exactly the canonical failure-domain lists; the controller publishes
  such a list exactly when every published zone sets its control-plane flag (`FailureDomains.PublishedSurvives`).

## Model

| member | source | states |
|---|---|---|
| `VirtualMachineGroup.GetVirtualMachineNameToMachineDeploymentMapping` | controllers/vmware/virtualmachinegroup_reconciler.go:422-438 | the loop over machines computes `VmToMd`, including the early return on a naming error |
| `VirtualMachineGroup.VmToMdDefined` | controllers/vmware/virtualmachinegroup_reconciler.go:424-432 | the mapping fails exactly when some machine that is not deleting cannot be named |
| `VirtualMachineGroup.VmToMdDomain` | controllers/vmware/virtualmachinegroup_reconciler.go:424-437 | exactly the VirtualMachine names of live labelled machines are mapped |
| `VirtualMachineGroup.VmToMdLast` | controllers/vmware/virtualmachinegroup_reconciler.go:433-435 | when names clash the last live labelled machine decides |
| `VirtualMachineGroup.VmToMdOrigin` | controllers/vmware/virtualmachinegroup_reconciler.go:424-437 | a mapped name comes from a live machine whose label is the mapped MachineDeployment |
| `Ordering.SortNames` | controllers/vmware/virtualmachinegroup_reconciler.go:241-242 | whatever order the map yields, the result is the one strictly sorted list of its keys |
| `Ordering.LessExact` | controllers/vmware/virtualmachinegroup_reconciler.go:241-242 | a proper prefix sorts first; otherwise the first differing character decides |
| `VirtualMachineGroup.GetMachineDeploymentToFailureDomainMapping` | controllers/vmware/virtualmachinegroup_reconciler.go:323-416 | the three nested loops, which read the mapping being built, compute `Place` |
| `VirtualMachineGroup.ScanStatus` | controllers/vmware/virtualmachinegroup_reconciler.go:361-390 | the status loop yields the first zone that an entry of the MachineDeployment names, by placement or by AlreadyPlaced message |
| `VirtualMachineGroup.ScanMembers` | controllers/vmware/virtualmachinegroup_reconciler.go:396-408 | finds whether some member belongs to the MachineDeployment |
| `VirtualMachineGroup.ComputeVirtualMachineGroup` | controllers/vmware/virtualmachinegroup_reconciler.go:196-308 | computes the desired group `Compute`, field by field, for creation and for update |
| `VirtualMachineGroup.WriteZones` | controllers/vmware/virtualmachinegroup_reconciler.go:251-256 | writing one annotation per placed MachineDeployment in any order gives the same annotations |
| `VirtualMachineGroup.SelectMembers` | controllers/vmware/virtualmachinegroup_reconciler.go:258-305 | the member loops keep the sorted order and select the admitted names |
| `VirtualMachineGroup.ShouldCreateVirtualMachineGroup` | controllers/vmware/virtualmachinegroup_reconciler.go:441-497 | the gate is open exactly as `GateOpen` says, with int32 wrap-around |
| `VirtualMachineGroup.SumReplicas` | controllers/vmware/virtualmachinegroup_reconciler.go:444-454 | sums the replicas and collects the names of live MachineDeployments |
| `VirtualMachineGroup.CountMachines` | controllers/vmware/virtualmachinegroup_reconciler.go:462-477 | stops on a deleting machine of a live MachineDeployment, otherwise counts theirs |
| `VirtualMachineGroup.ReconcileNormal` | controllers/vmware/virtualmachinegroup_reconciler.go:111-193 | nothing, a create through the gate, or a patch of the group that was read |
| `PlacementRules.PlaceExact` | controllers/vmware/virtualmachinegroup_reconciler.go:323-416 | with unique names the accumulating loop gives each MachineDeployment its own rule and nobody else an entry |
| `PlacementRules.DesiredAnnotations` | controllers/vmware/virtualmachinegroup_reconciler.go:206-256 | the zone annotations written are exactly the placement, and every other annotation survives unchanged |
| `PlacementRules.OtherAnnotationKept` | controllers/vmware/virtualmachinegroup_reconciler.go:212-217 | an annotation without the zone prefix keeps its value |
| `PlacementRules.DesiredMembers` | controllers/vmware/virtualmachinegroup_reconciler.go:258-305 | members are strictly sorted and are exactly the admitted live VirtualMachines |
| `PlacementRules.RecordedOnWrite` | controllers/vmware/virtualmachinegroup_reconciler.go:332-348 | an explicit failure domain always wins; on creation an unpinned MachineDeployment gets the zone if there is exactly one, else none |
| `PlacementRules.SingleZoneExact` | controllers/vmware/virtualmachinegroup_reconciler.go:533-543 | a zone is the single zone exactly when it is the only one |
| `PlacementRules.ForgottenWhenGone` | controllers/vmware/virtualmachinegroup_reconciler.go:251-256 | a deleting or unlisted MachineDeployment loses its zone annotation |
| `PlacementRules.BelongsToCluster` | controllers/vmware/virtualmachinegroup_reconciler.go:219-230 | the written group has the cluster label and the controller reference with the uid of the cluster; other labels, references to other objects and the status are kept |
| `PlacementRules.ReportedExact` | controllers/vmware/virtualmachinegroup_reconciler.go:365-389 | an entry names a zone exactly when its placement is ready and it reports that zone or, reporting none, is AlreadyPlaced with that message |
| `PlacementRules.FirstReportedExact` | controllers/vmware/virtualmachinegroup_reconciler.go:357-390 | a zone is inferred from the status exactly when the first live entry of the MachineDeployment that names a zone names it |
| `PlacementRules.FallbackExact` | controllers/vmware/virtualmachinegroup_reconciler.go:357-413 | an undecided MachineDeployment is placed in a zone exactly when its first report says so, or when there is no report, no live member, and it is the only zone |
| `PlacementRules.DecideAgain` | controllers/vmware/virtualmachinegroup_reconciler.go:350-413 | a written decision is read back; an open one stays open because the member that blocks the fallback is kept |
| `PlacementRules.PlaceAgain` | controllers/vmware/virtualmachinegroup_reconciler.go:323-416 | the placement computed from the object that records a placement is that placement |
| `PlacementRules.ComputeIdempotent` | controllers/vmware/virtualmachinegroup_reconciler.go:196-308 | recomputing in an unchanged environment, after an update or after creation, gives the identical object |
| `CreationGate.NobodyLeavesExact` | controllers/vmware/virtualmachinegroup_reconciler.go:462-474 | the gate waits exactly for deleting machines of MachineDeployments that are not deleting themselves |
| `CreationGate.GateCounts` | controllers/vmware/virtualmachinegroup_reconciler.go:444-496 | without overflow the gate opens exactly when no machine of a live MachineDeployment is deleting and the count reaches the positive sum of replicas |
| `CreationGate.BatchCreation` | controllers/vmware/virtualmachinegroup_reconciler.go:242-269 | behind an open gate members are strictly sorted, include every counted machine, and are at least as many as the positive sum of replicas |
| `CreationGate.CreatedMembers` | controllers/vmware/virtualmachinegroup_reconciler.go:260-269 | a new group has every mapped VirtualMachine as a member exactly once |
| `CreationGate.CountIsSum` | controllers/vmware/virtualmachinegroup_reconciler.go:462-477 | the gate's count is the sum of the machines of the single MachineDeployments |
| `CreationGate.CountExact` | controllers/vmware/virtualmachinegroup_reconciler.go:462-477 | the count is the number of machines that carry one of the labels |
| `CreationGate.TotalsBalance` | controllers/vmware/virtualmachinegroup_reconciler.go:444-477 | the machines counted plus the shortage equal the replicas expected plus the surplus |
| `CreationGate.NoShortage` | controllers/vmware/virtualmachinegroup_reconciler.go:479-496 | nothing is short exactly when every live MachineDeployment has a machine for each replica |
| `CreationGate.GateExact` | controllers/vmware/virtualmachinegroup_reconciler.go:441-497 | the gate opens exactly when no counted machine is deleting, replicas are expected and shortage <= surplus; it opens with a MachineDeployment not covered exactly when moreover the shortage is positive |
| `CreationGate.GateWithoutSurge` | controllers/vmware/virtualmachinegroup_reconciler.go:479-496 | corollary: when no MachineDeployment has more machines than replicas, the gate opens exactly when each is covered |
| `CreationGate.SurgeHidesShortage` | controllers/vmware/virtualmachinegroup_reconciler.go:479-496 | an input with surge on which the gate opens although one MachineDeployment has no machine |
| `PlacementProtocol.ComputeKeepsZone` | controllers/vmware/virtualmachinegroup_reconciler.go:350-355 | one computation keeps the recorded zone of a live unpinned MachineDeployment |
| `PlacementProtocol.ComputeJoins` | controllers/vmware/virtualmachinegroup_reconciler.go:294-304 | a VirtualMachine joins an existing group only with the zone of its MachineDeployment recorded in the same object |
| `PlacementProtocol.ComputeStays` | controllers/vmware/virtualmachinegroup_reconciler.go:280-291 | a member stays exactly while a live labelled machine stands for it |
| `PlacementProtocol.ComputeMembers` | controllers/vmware/virtualmachinegroup_reconciler.go:280-305 | the members of an update are exactly the live VirtualMachines that were members or whose MachineDeployment has a zone in the same object |
| `PlacementProtocol.SubmitIsCurrent` | controllers/vmware/virtualmachinegroup_reconciler.go:185-191 | under the optimistic lock a write that takes effect was computed from exactly the group it replaces, even with stale reads |
| `PlacementProtocol.CurrentSubmitWrites` | controllers/vmware/virtualmachinegroup_reconciler.go:111-193 | over every run a submit whose read is current writes what it computed, if names can be computed and a new group passes the gate |
| `PlacementProtocol.PlacementIsSticky` | controllers/vmware/virtualmachinegroup_reconciler.go:206-256 | over every run a recorded zone never changes while the snapshots of writes that take effect list the MachineDeployment as live and unpinned |
| `PlacementProtocol.JoinsUnderItsZone` | controllers/vmware/virtualmachinegroup_reconciler.go:280-305 | over every run a joining VirtualMachine belongs to a MachineDeployment whose zone that write records, and the zone then stays |
| `PlacementProtocol.LeavesOnlyWhenGone` | controllers/vmware/virtualmachinegroup_reconciler.go:280-305 | over every run a member is removed only if the snapshot used has no live labelled machine for it |
| `PlacementProtocol.LiveMembersStay` | controllers/vmware/virtualmachinegroup_reconciler.go:282-291 | over every run a member that is live in every snapshot whose write takes effect is never lost |
| `PlacementProtocol.CreatedAsBatch` | controllers/vmware/virtualmachinegroup_reconciler.go:132-157 | the group only comes into being through the open gate, holding the whole batch |
| `PlacementProtocol.SettledReconcile` | controllers/vmware/virtualmachinegroup_reconciler.go:159-192 | after a successful write the same snapshot asks for the object already stored |
| `ClusterModules.FetchMachineOwnerObjects` | controllers/clustermodule_reconciler.go:277-316 | the owner map of live control plane and MachineDeployments, or an error for several control planes |
| `ClusterModules.OwnersExact` | controllers/clustermodule_reconciler.go:293-323 | owners sit under their own keys with at most one control plane, which is found exactly when no live MachineDeployment carries its prefixed name |
| `ClusterModules.VerifyModules` | controllers/clustermodule_reconciler.go:89-144 | the first loop, consuming the owner map, computes `VerifyAll` |
| `ClusterModules.ReconcileModules` | controllers/clustermodule_reconciler.go:89-167 | both loops end in a result of `Reconciled`, for whatever order the map yields |
| `ClusterModules.VSphereCluster.ReconcileClusterModules` | controllers/clustermodule_reconciler.go:68-199 | writes the module list and readiness, and returns an error exactly when some failure is not an incompatible owner |
| `ClusterModules.CountIncompatible` | controllers/clustermodule_reconciler.go:325-333 | all errors are counted exactly when all are incompatible-owner errors |
| `ClusterModuleRules.OneEntryPerOwner` | controllers/clustermodule_reconciler.go:91-167 | the result has at most one entry per owner, with that live owner's name and control-plane flag, and at most one control-plane entry |
| `ClusterModuleRules.ReconcileExact` | controllers/clustermodule_reconciler.go:89-167 | the modules are the kept entries followed by the made ones; the errors are the failed lookups followed by one error per failed creation in call order, none for a skipped one; Create runs once for each owner whose records are all missing |
| `ClusterModuleRules.EveryOwnerAccounted` | controllers/clustermodule_reconciler.go:91-167 | the answers decide each owner's fate: a kept entry carries the UUID of the first record not answered missing, a made one the UUID that Create returned, a failure is reported, a skipped or failed owner has no entry; Create is called once exactly when nothing was kept |
| `ClusterModuleRules.KeptExact` | controllers/clustermodule_reconciler.go:104-143 | an owner keeps a module exactly when some module recorded for it was not confirmed missing |
| `ClusterModuleRules.VerifyExact` | controllers/clustermodule_reconciler.go:91-144 | the loop that consumes the owner map equals a rule for each record alone: kept entries, lookup errors, and pending owners are those all of whose records are missing |
| `ClusterModuleRules.CallFor` | controllers/clustermodule_reconciler.go:108-143 | one call per record in order: a lookup while its live owner has no module yet, Remove otherwise |
| `ClusterModuleRules.CreateCalls` | controllers/clustermodule_reconciler.go:146-166 | the second loop calls Create once for each remaining owner and makes no other call |
| `ClusterModuleRules.CreatedOnlyIfMissing` | controllers/clustermodule_reconciler.go:104-166 | Create runs for an owner only if every module recorded for it was looked up and confirmed missing |
| `ClusterModuleRules.NothingDropped` | controllers/clustermodule_reconciler.go:108-143 | a record that is looked up is in the result unless confirmed missing; Remove is called for every other record |
| `ClusterModuleRules.RemovedExact` | controllers/clustermodule_reconciler.go:108-114 | a UUID is removed exactly when some record of it is not looked up |
| `ClusterModuleRules.KeptNotRemoved` | controllers/clustermodule_reconciler.go:91-144 | with distinct recorded UUIDs no module that the first loop keeps is removed |
| `ClusterModuleRules.DuplicateIsRemoved` | controllers/clustermodule_reconciler.go:91-144 | the same existing module listed twice is kept and removed |
| `ClusterModuleRules.VerifyFixpoint` | controllers/clustermodule_reconciler.go:130-142 | a list of one entry per owner, none of them missing, passes the first loop unchanged and in order |
| `ClusterModuleRules.SecondReconcile` | controllers/clustermodule_reconciler.go:92-167 | with unchanged owners, existing modules and no new creation, a second reconcile returns the same list in the same order |
| `ModuleCompare.SortInPlace` | pkg/clustermodule/util.go:35-40 | the slice is overwritten with its stable sort by target name |
| `ModuleCompare.StableSortExact` | pkg/clustermodule/util.go:35-40 | the sort is ordered, a permutation, and keeps the order of modules of one target |
| `ModuleCompare.Compare` | pkg/clustermodule/util.go:30-51 | answers `CompareResult` and leaves both slices, which may be one, sorted, or untouched when lengths differ |
| `ModuleCompare.SameInOrder` | pkg/clustermodule/util.go:42-50 | position by position equality, a missing flag reading as false |
| `ModuleCompare.SameExact` | pkg/clustermodule/util.go:43-45 | modules are the same exactly when target, UUID and control-plane flag, missing as false, agree |
| `ModuleCompare.CompareExact` | pkg/clustermodule/util.go:30-51 | true exactly when both lists hold the same modules for each target in the same order |
| `ModuleCompare.CompareSound` | pkg/clustermodule/util.go:30-51 | true implies that the lists are permutations of each other, up to missing flags |
| `ModuleCompare.CompareComplete` | pkg/clustermodule/util.go:30-51 | for distinct targets every permutation is accepted |
| `ModuleCompare.SameNameOrderMatters` | pkg/clustermodule/util.go:35-40 | a control plane and a MachineDeployment of one name, listed the other way round, compare as different |
| `Converter.ConverterState.constructor` | pkg/conversion/converter.go:54-63 | a new converter has four empty maps |
| `Converter.ConverterState.AddHubTypes` | pkg/conversion/converter.go:66-100 | registers types up to the first invalid or clashing one |
| `Converter.ConverterState.AddConversion` | pkg/conversion/converter.go:132-197 | registers spoke type and both functions, keeping the parts done before a failure |
| `Converter.ConverterState.Register` | pkg/conversion/converter.go:179-194 | registers one direction unless a different function is known |
| `Converter.ConverterState.Convert` | pkg/conversion/converter.go:203-237 | converts along a registered function, rejects a hub with another source, and pins a hub destination to the source version |
| `ConverterRules.AddHubTypesExact` | pkg/conversion/converter.go:66-100 | hub types are bound in order up to the first that is no object type, not convertible or clashes; success exactly when there is none; no conversion changes |
| `ConverterRules.AddHubsKeeps` | pkg/conversion/converter.go:75-99 | hub registrations keep the registry well formed and change nothing registered |
| `ConverterRules.AddFuncExact` | pkg/conversion/converter.go:179-194 | one registration fails exactly on a different known function and otherwise adds exactly one pair |
| `ConverterRules.AddConversionExact` | pkg/conversion/converter.go:132-197 | succeeds exactly when all checks pass and neither direction knows another function; then the spoke type is bound as a spoke, each function is stored for its own direction, and all else is as before |
| `ConverterRules.AddConversionKeeps` | pkg/conversion/converter.go:132-197 | a conversion registration, failing half way or not, keeps the registry well formed and changes nothing registered |
| `ConverterRules.RegistrationsKeep` | pkg/conversion/converter.go:66-197 | so does any sequence of calls: maps stay inverse, flags cover them, pairs stay symmetric siblings, nothing is rebound or replaced |
| `ConverterRules.RegistryAlwaysWellFormed` | pkg/conversion/converter.go:54-197 | every registry built from an empty converter is well formed |
| `ConverterRules.PinnedToItsSource` | pkg/conversion/converter.go:203-237 | a hub object read from a spoke converts exactly to that spoke's type and GVK, whatever is registered in between |
| `ConverterRules.ConvertsExactly` | pkg/conversion/converter.go:203-237 | converts exactly along a registered function that succeeds, from a hub only if unpinned or pinned to the destination; a hub destination is pinned to the source version |
| `ConverterRules.RegisteredConverts` | pkg/conversion/converter.go:132-237 | after a successful registration and any later calls the pair converts both ways by its own functions, and the hub is pinned to the spoke |
| `ConverterRules.PanicsExactly` | pkg/conversion/converter.go:214-235 | the unchecked type assertion fails exactly for a hub source that is not Convertible, which is a list type |
| `ConverterRules.SpokeIsConvertible` | pkg/conversion/converter.go:250-286 | the chosen spoke has the selected version and, for items, conversions in both directions |
| `ConverterRules.SpokeFound` | pkg/conversion/converter.go:250-286 | a spoke is found exactly for a hub type, or the list of one, whose selected version has a conversion |
| `IPAddressClaimNames.ClaimNameRoundTrip` | pkg/util/ipaddress_claim.go:23-25 | parsing a claim name from the right gives back VM name and indices |
| `IPAddressClaimNames.ClaimNameInjective` | pkg/util/ipaddress_claim.go:23-25 | no two VMs and no two pool slots share a claim name |
| `IPAddressClaims.VmReconciler.ReconcileIPAddressClaims` | controllers/vspherevm_ipaddress_reconciler.go:47-112 | the nested claim loops with their counters, early return and collected failures |
| `IPAddressClaims.VmReconciler.ReconcileClaim` | controllers/vspherevm_ipaddress_reconciler.go:60-86 | one slot: unreadable, not written, or claimed |
| `IPAddressClaims.VmReconciler.CreateOrPatchIPAddressClaim` | controllers/vspherevm_ipaddress_reconciler.go:176-221 | the claim gains owner, finalizer, label and pool, and only that claim changes |
| `IPAddressClaims.VmReconciler.DeleteIPAddressClaims` | controllers/vspherevm_ipaddress_reconciler.go:225-252 | the nested release loops, stopping at the first failure |
| `IPAddressClaims.VmReconciler.ReleaseClaim` | controllers/vspherevm_ipaddress_reconciler.go:229-248 | one slot: missing counts as released, a protected claim loses the finalizer |
| `IPAddressClaims.VmReconciler.ReconcileDelete` | controllers/vspherevm_controller.go:377-425 | the VSphereVM finalizer goes only after the VM is not found and the claims are released |
| `IPAddressClaims.SlotIndex` | controllers/vspherevm_ipaddress_reconciler.go:58-66 | every slot the loops visit belongs to a device and pool |
| `IPAddressClaims.SlotListed` | controllers/vspherevm_ipaddress_reconciler.go:58-66 | every device and pool is visited, with its own pool reference |
| `IPAddressClaimProtocol.NormalComplete` | controllers/vspherevm_ipaddress_reconciler.go:47-95 | a pass without failure leaves each slot with its own protected claim on the right pool |
| `IPAddressClaimProtocol.ClaimAllEffect` | controllers/vspherevm_ipaddress_reconciler.go:47-95 | a claim pass touches only slots of its VSphereVM and adds no other owner |
| `IPAddressClaimProtocol.ClaimOneChange` | controllers/vspherevm_ipaddress_reconciler.go:176-221 | one slot changes at most its own claim and points it to its pool |
| `IPAddressClaimProtocol.ClaimAllChange` | controllers/vspherevm_ipaddress_reconciler.go:176-221 | a slot's claim gains the owner reference with the uid of the VSphereVM and the protection finalizer, and gets label and pool; other owners, other finalizers and the bound address stay |
| `IPAddressClaimProtocol.ClaimSucceeds` | controllers/vspherevm_ipaddress_reconciler.go:67-112 | the pass succeeds exactly when no call for a slot fails |
| `IPAddressClaimProtocol.CountersExact` | controllers/vspherevm_ipaddress_reconciler.go:76-86 | a successful pass counts as created the slots without claim and as fulfilled those with a bound address |
| `IPAddressClaimProtocol.ReleaseAllEffect` | controllers/vspherevm_ipaddress_reconciler.go:225-252 | a release pass keeps claims and owners, and if it completes leaves no slot protected |
| `IPAddressClaimProtocol.ReleaseAllChange` | controllers/vspherevm_ipaddress_reconciler.go:240-248 | a release leaves a claim alone, or takes the protection finalizer, and nothing else, from the claim of a slot |
| `IPAddressClaimProtocol.ReleaseCompletes` | controllers/vspherevm_ipaddress_reconciler.go:225-252 | it completes exactly when every slot can be read and, where protected, written |
| `IPAddressClaimProtocol.FinalizerGoesExactly` | controllers/vspherevm_controller.go:377-425 | the VSphereVM finalizer goes exactly when the VM is not found and the release completes; before that no claim changes |
| `IPAddressClaimProtocol.DeleteReleases` | controllers/vspherevm_controller.go:386-422 | removal of the VSphereVM finalizer implies that the VM is not found and all its claims are released |
| `IPAddressClaimProtocol.NextKeepsInv` | controllers/vspherevm_ipaddress_reconciler.go:172-252 | every step of every VSphereVM and of others keeps the ownership invariant |
| `IPAddressClaimProtocol.ProtectedHasItsVM` | controllers/vspherevm_ipaddress_reconciler.go:172-252 | in every reachable state a protected claim still has its VSphereVM, with finalizer, to release it |
| `IPAddressClaimProtocol.ReleasedBeforeRecordGoes` | controllers/vspherevm_controller.go:377-425 | over every run claims are released before the VSphereVM record can go |
| `IdentitySecret.Secret.ClaimForCluster` | controllers/vspherecluster_reconciler.go:339-380 | the claim is refused exactly when the Secret has another exclusive owner; otherwise owner and finalizer are set |
| `IdentitySecret.Secret.ClaimForIdentity` | controllers/vsphereclusteridentity_controller.go:140-186 | likewise for an identity, with the readiness it reports |
| `IdentitySecret.TakersExact` | pkg/identity/identity.go:139-152 | the scan finds an owner exactly when some reference takes the Secret |
| `IdentitySecret.EnsureTakes` | controllers/vspherecluster_reconciler.go:354-372 | an allowed claim makes the claimant the only exclusive owner |
| `IdentitySecret.StepTakers` | controllers/vsphereclusteridentity_controller.go:140-161 | an allowed claim that is written makes the claimant, with its uid, the only exclusive owner; any other step changes no exclusive owner |
| `IdentitySecret.FreeForAll` | pkg/identity/identity.go:139-152 | everybody may claim a Secret without exclusive owner |
| `IdentitySecret.AtMostOneOwner` | controllers/vspherecluster_reconciler.go:339-380 | every interleaving of claims keeps at most one exclusive owner |
| `IdentitySecret.HolderDecides` | controllers/vspherecluster_reconciler.go:354-357 | on a taken Secret a claim is allowed exactly to the holder's kind and name |
| `IdentitySecret.FirstClaimantKeeps` | controllers/vsphereclusteridentity_controller.go:140-166 | over every interleaving the first claimant stays the owner and everyone else is refused |
| `DeploymentZones.ZoneReconciler.ReconcileNormal` | controllers/vspheredeploymentzone_controller.go:187-229 | Ready becomes the outcome of the checks, together with the owner reference on success; on failure no domain changes |
| `DeploymentZones.ZoneReconciler.UpdateOwnerReferences` | controllers/vspheredeploymentzone_controller.go:376-390 | replaces the owner references of one domain, or nothing when the patch fails |
| `DeploymentZones.ZoneReconciler.ReconcileDelete` | controllers/vspheredeploymentzone_controller.go:309-374 | refuses while in use; success gives up the finalizer and leaves no reference of the zone on a remaining domain, and the domain is gone exactly after success as last owner of a domain not yet deleting |
| `DeploymentZones.EnsureHolds` | controllers/vspheredeploymentzone_controller_domain.go:72-91 | adding a reference makes exactly this zone an additional owner |
| `DeploymentZones.DropsReference` | controllers/vspheredeploymentzone_controller.go:354-362 | removing a reference makes exactly this zone no owner, and leaves no owner exactly when there was no other |
| `DeploymentZones.NormalKeepsCount` | controllers/vspheredeploymentzone_controller.go:187-229 | a normal reconcile keeps every Ready zone counted |
| `DeploymentZones.DeletedKeepsCount` | controllers/vspheredeploymentzone_controller.go:354-374 | deleting one zone keeps every other Ready zone counted and its domain in place |
| `DeploymentZones.NormalKeepsBacked` | controllers/vspheredeploymentzone_controller.go:187-229 | a normal reconcile adds a reference only for its own zone, which has its finalizer, and no second one |
| `DeploymentZones.DeletedKeepsBacked` | controllers/vspheredeploymentzone_controller.go:354-374 | a delete reconcile gives up the finalizer only after the reference |
| `DeploymentZones.ReadyZonesAreCounted` | controllers/vspheredeploymentzone_controller.go:104-374 | in every reachable state each Ready, non-deleting zone holds a reference on its existing domain, each object holds at most one, and a zone that holds one exists with its finalizer and uses that domain |
| `DeploymentZones.ReadyExactly` | controllers/vspheredeploymentzone_controller.go:187-229 | over every run a normal reconcile that reads its domain and patches its zone leaves it Ready exactly when every check passed; a failed one takes Ready away and changes no domain |
| `DeploymentZones.UsedDomainSurvives` | controllers/vspheredeploymentzone_controller.go:354-370 | no step of any run deletes a domain that a Ready, non-deleting zone uses |
| `DeploymentZones.DomainGoneExactly` | controllers/vspheredeploymentzone_controller.go:328-370 | a step of a run makes a domain disappear exactly when it is an unhindered delete reconcile of its last owner, the domain is not yet deleting and the delete call succeeds |
| `DeploymentZones.LetsGoOnce` | controllers/vspheredeploymentzone_controller.go:328-374 | over every run a finalizer goes only in a delete reconcile that finds no active machine; afterwards no domain is referenced by the zone, and its own domain is gone exactly when nobody else owned it and it was not yet deleting |
| `DeploymentZones.LetsGoExactly` | controllers/vspheredeploymentzone_controller.go:328-374 | over every run a delete reconcile gives up the finalizer exactly when no active machine uses the zone and each call it needs succeeds |
| `SessionCache.Cache.constructor` | pkg/session/session.go:43-50 | the cache starts empty |
| `SessionCache.Cache.GetOrCreate` | pkg/session/session.go:116-230 | reuse of an active session, or logout and a new login, with every failure path |
| `SessionCache.StepExact` | pkg/session/session.go:132-229 | the cached session is returned exactly when both its logins are active; otherwise both are logged out and a new session opens exactly when every step succeeds |
| `SessionCache.StepAccounts` | pkg/session/session.go:132-229 | one call keeps every login accounted for and returns the session cached for its key |
| `SessionCache.NoLoginLeaks` | pkg/session/session.go:116-230 | over every sequence of calls and failures each login is cached or had a logout attempted |
| `SessionCache.KeysSeparate` | pkg/session/session.go:126-131 | without '#' in server and datacenter, equal keys mean equal server, datacenter, user and password hash |
| `SessionCache.OwnKey` | pkg/session/session.go:126-131 | a request without '#' in server, datacenter and user shares its key exactly with the requests for the same fields |
| `SessionCache.SharedKey` | pkg/session/session.go:130-131 | every request with '#' in one of them shares its key with a different request |
| `SessionCache.KeyExact` | pkg/session/session.go:126-131 | a key identifies its four fields if and only if none of the three contains '#' |
| `SessionCache.SessionsAreSeparate` | pkg/session/session.go:116-230 | after any calls a returned session was opened for the same server, datacenter, user and password |
| `SessionCache.SeparationExact` | pkg/session/session.go:116-230 | over all histories of calls a request only ever gets sessions opened for its own fields if and only if none of them contains '#' |
| `FeatureGates.CleanGates` | feature/gates.go:139-183 | the filter loop computes `Cleaned` |
| `FeatureGates.CleanedSplits` | feature/gates.go:145-183 | the joined output splits into exactly the kept items |
| `FeatureGates.OnlyFalseDropped` | feature/gates.go:146-182 | exactly the items that set a versioned, unknown gate to a spelling of false are removed |
| `FeatureGates.TrueKept` | feature/gates.go:175-182 | an item that sets a gate to true, unknown versioned gates included, stays |
| `FeatureGates.TrimExact` | feature/gates.go:155-174 | names and values are read without surrounding space, and only space is cut off |
| `FeatureGates.AssignmentsPreserved` | feature/gates.go:139-183 | the last-wins value of every known or unversioned gate is unchanged |
| `FeatureGates.CleanedIdempotent` | feature/gates.go:139-183 | filtering twice is filtering once |
| `FailureDomains.ConvertStatusToV1Beta1` | api/govmomi/v1beta1/conversion.go:59-96 | conditions and failure domains move to the v1beta1 fields, the last entry of a name deciding |
| `FailureDomains.ConvertStatusToV1Beta2` | api/govmomi/v1beta1/conversion.go:98-142 | conditions and failure domains move back, sorted by name |
| `FailureDomains.MapRoundTrip` | api/govmomi/v1beta1/conversion.go:112-125 | every v1beta1 failure-domain map survives the round trip |
| `FailureDomains.ListRoundTrip` | api/govmomi/v1beta1/conversion.go:78-87 | a v1beta2 list survives exactly when it is sorted by name, free of duplicates, and sets every flag |
| `FailureDomains.DowngradedEntry` | api/govmomi/v1beta1/conversion.go:78-87 | the last entry of a name gives its attributes and its flag, a missing flag reading as false |
| `FailureDomains.ConditionsStayApart` | api/govmomi/v1beta1/conversion.go:65-141 | legacy and new conditions move to their own fields and never turn into one another |
| `FailureDomains.StatusRoundTripV1Beta1` | api/govmomi/v1beta1/conversion.go:59-142 | a v1beta1 status survives exactly unless its v1beta2 group is present without conditions |
| `FailureDomains.StatusRoundTripV1Beta2` | api/govmomi/v1beta1/conversion.go:59-142 | a v1beta2 status survives exactly with a canonical list and an absent or complete deprecated group |
| `FailureDomains.ReconcileDeploymentZones` | controllers/vspherecluster_reconciler.go:430-474 | publishes exactly the server's zones that are not reported unready, sorted; waits exactly while one has not reported |
| `FailureDomains.PublishedMembers` | controllers/vspherecluster_reconciler.go:430-463 | a domain is published exactly when a zone of the server carries its name and flag and has not reported that it is not ready |
| `FailureDomains.SortDomains` | controllers/vspherecluster_reconciler.go:456-462 | sorts by name, keeping all entries |
| `FailureDomains.PublishedSurvives` | controllers/vspherecluster_reconciler.go:430-463 | a published list survives conversion exactly when every published zone sets its control-plane flag |
| `LabelTruncation.TruncateLabelLength` | pkg/util/label.go:58-74 | keeps a short label, else the longest dot-boundary prefix of at most 63 characters, else the first 63 |
| `VSphereVMSpec.OverrideNetworkDeviceSpecs` | pkg/services/vimmachine.go:503-524 | both loops: as many devices as the longer list, each merged with the definition at its position, or an empty device merged |
| `VSphereVMSpec.DomainDevicesExact` | pkg/services/vimmachine.go:489-494 | networks and then configurations act position by position, with as many devices as the longest of the three lists |
| `VSphereVMSpec.DevicePrecedence` | pkg/services/vimmachine.go:526-562 | field by field a configuration wins over a network name, which wins over the device |
| `VSphereVMSpec.DomainDevicesIdempotent` | pkg/services/vimmachine.go:489-562 | overriding overridden devices changes nothing |
| `VSphereVMSpec.VSphereVM.Mutate` | pkg/services/vimmachine.go:344-403 | the mutation computes `Mutated`, field by field |
| `VSphereVMSpec.VSphereVM.OverrideWithFailureDomain` | pkg/services/vimmachine.go:477-495 | the overrides of zone and failure domain compute `WithDomain` |
| `VSphereVMSpec.MutateSettled` | pkg/services/vimmachine.go:344-403 | mutating the VSphereVM again with the same inputs leaves it as it is |
| `VSphereVMSpec.MutatedFields` | pkg/services/vimmachine.go:344-403 | the owner reference has the uid of the VSphereMachine; other owners and labels stay; labels, bootstrap secret and power settings come from the machine |
| `VSphereVMSpec.WithDomainIdempotent` | pkg/services/vimmachine.go:477-495 | overriding an overridden clone spec changes nothing |
| `VSphereVMSpec.ServerPrecedence` | pkg/services/vimmachine.go:386-397 | the documented order of servers is followed exactly unless a zone without a server hides that of the machine |
| `VSphereVMSpec.ClonePrecedence` | pkg/services/vimmachine.go:386-494 | folder, resource pool, datastore and datacenter come from the failure domain where it sets them, the thumbprint from the machine before the cluster |
| `VSphereVMSpec.ZoneHidesServer` | pkg/services/vimmachine.go:477-479 | an input on which the machine's own server is ignored |

## Left out

- Controller wiring, watches, predicates, flags and manager start-up, and the skip of deleted or uninitialised clusters.
- The vSphere and Kubernetes clients: their answers are inputs, and the API server is a versioned store.
- Conditions, events, log lines and error texts, except where they decide a result.
- Deletion of the VirtualMachineGroup: a run covers a period in which the group is not deleted.
- Rendering of the VirtualMachine naming template: naming is an arbitrary function, required to be injective only for the size of the initial batch.
- Races between the read and the write of a Secret, a failure domain or an IPAddressClaim: each such reconcile is one step and reads are current, so a stale not-found of a claim does not occur.
- Deletion of the Secret by its owner, and device lists that change during the life of a VSphereVM.
- The effect of a conversion function on anything but the source version of the destination.
- Clearing the session cache, and separation of cached sessions by thumbprint, which the key does not contain.
- Building the sets of known and versioned gates, and the rewriting of errors after the filter.
- The v1beta1 `Ready` field, and generated field-by-field conversions.
- VSphereVM names, the wait for readiness, and the addresses and provider ID copied back to the VSphereMachine.
- Failure domains created with references to deployment zones or with two references to one object: a new domain has neither.
- ModuleCompare.SortInPlace: the library's merge steps are not modelled, only the stable sort they must produce.
