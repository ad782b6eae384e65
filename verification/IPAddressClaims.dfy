/**
  IPAddressClaims of a VSphereVM: one claim for each pool of each network device, created with a protection finalizer
  and an owner reference, and released before the VSphereVM gives up its own finalizer.
 */
module IPAddressClaims {
  import opened OwnerReferences
  import opened IPAddressClaimNames

  const IP_ADDRESS_CLAIM_FINALIZER := "vspherevm.infrastructure.cluster.x-k8s.io/ip-claim-protection"

  datatype PoolRef = PoolRef(apiGroup: string, kind: string, name: string)

  /** `addressRef` is the name of the bound IPAddress, empty until the claim is fulfilled. */
  datatype Claim = Claim(
    owners: seq<OwnerReference>, finalizers: set<string>, clusterLabel: string, pool: PoolRef, addressRef: string)

  /** `devices` lists the address pools of each network device; `finalizer` is the VSphereVM finalizer. */
  datatype VirtualMachine = VirtualMachine(
    name: string, uid: string, clusterLabel: string, devices: seq<seq<PoolRef>>, deleting: bool, finalizer: bool)

  /** The API calls of one pass that fail, by claim name. A missing object is not a fault. */
  datatype Faults = Faults(get: set<string>, write: set<string>)

  type Claims = map<string, Claim>

  predicate Protected(claim: Claim) {
    IP_ADDRESS_CLAIM_FINALIZER in claim.finalizers
  }

  function VmReference(name: string, uid: string): OwnerReference {
    InfrastructureReference("VSphereVM", name, uid)
  }

  /** The claim has an owner reference to the VSphereVM of that name. */
  predicate OwnedBy(claim: Claim, vm: string) {
    Owned(claim.owners, VmReference(vm, ""))
  }

  // ---------------------------------------------------------------------------------------------
  // Slots
  // ---------------------------------------------------------------------------------------------

  datatype Slot = Slot(claim: string, pool: PoolRef)

  /** The slots of the first `n` pools of device `d`. */
  function DeviceSlots(vm: string, d: nat, pools: seq<PoolRef>, n: nat): seq<Slot>
    requires n <= |pools|
  {
    if n == 0 then [] else DeviceSlots(vm, d, pools, n - 1) + [Slot(IPAddressClaimName(vm, d, n - 1), pools[n - 1])]
  }

  /** The slots of the first `n` devices. */
  function SlotsUpTo(vm: string, devices: seq<seq<PoolRef>>, n: nat): seq<Slot>
    requires n <= |devices|
  {
    if n == 0 then []
    else SlotsUpTo(vm, devices, n - 1) + DeviceSlots(vm, n - 1, devices[n - 1], |devices[n - 1]|)
  }

  function Slots(vm: VirtualMachine): seq<Slot> {
    SlotsUpTo(vm.name, vm.devices, |vm.devices|)
  }

  predicate IsSlotOf(vm: VirtualMachine, claim: string) {
    exists d, p :: 0 <= d < |vm.devices| && 0 <= p < |vm.devices[d]| && claim == IPAddressClaimName(vm.name, d, p)
  }

  lemma {:induction false} DeviceSlotsExact(vm: string, d: nat, pools: seq<PoolRef>, n: nat)
    requires n <= |pools|
    ensures var s := DeviceSlots(vm, d, pools, n);
            |s| == n && forall p :: 0 <= p < n ==> s[p] == Slot(IPAddressClaimName(vm, d, p), pools[p])
  {
    if n > 0 {
      DeviceSlotsExact(vm, d, pools, n - 1);
    }
  }

  /** Every listed slot belongs to a device and pool. */
  lemma {:induction false} SlotIndex(vm: string, devices: seq<seq<PoolRef>>, n: nat, k: nat) returns (d: nat, p: nat)
    requires n <= |devices| && k < |SlotsUpTo(vm, devices, n)|
    ensures d < n && p < |devices[d]| && SlotsUpTo(vm, devices, n)[k].claim == IPAddressClaimName(vm, d, p)
  {
    var earlier := SlotsUpTo(vm, devices, n - 1);
    if k < |earlier| {
      d, p := SlotIndex(vm, devices, n - 1, k);
    } else {
      DeviceSlotsExact(vm, n - 1, devices[n - 1], |devices[n - 1]|);
      d, p := n - 1, k - |earlier|;
    }
  }

  /** Every device and pool has a listed slot. */
  lemma {:induction false} SlotListed(vm: string, devices: seq<seq<PoolRef>>, n: nat, d: nat, p: nat) returns (k: nat)
    requires d < n <= |devices| && p < |devices[d]|
    ensures k < |SlotsUpTo(vm, devices, n)|
    ensures SlotsUpTo(vm, devices, n)[k] == Slot(IPAddressClaimName(vm, d, p), devices[d][p])
  {
    if d < n - 1 {
      k := SlotListed(vm, devices, n - 1, d, p);
    } else {
      DeviceSlotsExact(vm, n - 1, devices[n - 1], |devices[n - 1]|);
      k := |SlotsUpTo(vm, devices, n - 1)| + p;
    }
  }

  lemma {:induction false} DeviceSlotsPrefix(vm: string, d: nat, pools: seq<PoolRef>, n: nat, m: nat)
    requires n <= m <= |pools|
    ensures DeviceSlots(vm, d, pools, n) <= DeviceSlots(vm, d, pools, m)
  {
    if n < m {
      DeviceSlotsPrefix(vm, d, pools, n, m - 1);
    }
  }

  lemma {:induction false} SlotsUpToPrefix(vm: string, devices: seq<seq<PoolRef>>, n: nat, m: nat)
    requires n <= m <= |devices|
    ensures SlotsUpTo(vm, devices, n) <= SlotsUpTo(vm, devices, m)
  {
    if n < m {
      SlotsUpToPrefix(vm, devices, n, m - 1);
    }
  }

  /** The slots that two nested loops have dealt with. */
  function SlotsBefore(vm: VirtualMachine, d: nat, n: nat): seq<Slot>
    requires d < |vm.devices| && n <= |vm.devices[d]|
  {
    SlotsUpTo(vm.name, vm.devices, d) + DeviceSlots(vm.name, d, vm.devices[d], n)
  }

  lemma SlotsBeforeStep(vm: VirtualMachine, d: nat, n: nat)
    requires d < |vm.devices| && n < |vm.devices[d]|
    ensures SlotsBefore(vm, d, n + 1) == SlotsBefore(vm, d, n) + [Slot(IPAddressClaimName(vm.name, d, n), vm.devices[d][n])]
  {
  }

  lemma SlotsBeforeFirst(vm: VirtualMachine, d: nat)
    requires d < |vm.devices|
    ensures SlotsBefore(vm, d, 0) == SlotsUpTo(vm.name, vm.devices, d)
    ensures SlotsBefore(vm, d, |vm.devices[d]|) == SlotsUpTo(vm.name, vm.devices, d + 1)
  {
  }

  /** The position of two nested loops is a prefix of the slot list. */
  lemma LoopPrefix(vm: VirtualMachine, d: nat, n: nat)
    requires d < |vm.devices| && n <= |vm.devices[d]|
    ensures SlotsBefore(vm, d, n) <= Slots(vm)
  {
    DeviceSlotsPrefix(vm.name, d, vm.devices[d], n, |vm.devices[d]|);
    SlotsUpToPrefix(vm.name, vm.devices, d + 1, |vm.devices|);
  }

  // ---------------------------------------------------------------------------------------------
  // Creating claims
  // ---------------------------------------------------------------------------------------------

  /** The counters of the claim pass. `aborted` is the early return on a failed read. */
  datatype Counters = Counters(total: nat, created: nat, fulfilled: nat, failures: nat, aborted: bool)

  datatype Pass = Pass(claims: Claims, counters: Counters)

  /** The mutate function of CreateOrPatch. */
  function Mutate(claim: Claim, vm: VirtualMachine, pool: PoolRef): Claim {
    claim.(owners := Ensure(claim.owners, VmReference(vm.name, vm.uid)),
           finalizers := claim.finalizers + {IP_ADDRESS_CLAIM_FINALIZER},
           clusterLabel := vm.clusterLabel,
           pool := pool)
  }

  const NEW_CLAIM := Claim([], {}, "", PoolRef("", "", ""), "")

  function ClaimAt(claims: Claims, name: string): Claim {
    if name in claims then claims[name] else NEW_CLAIM
  }

  datatype ClaimOutcome = Unreadable | WriteFailed | Claimed(created: bool, fulfilled: bool)

  function ClaimSlot(vm: VirtualMachine, faults: Faults, claims: Claims, slot: Slot): (Claims, ClaimOutcome) {
    if slot.claim in faults.get then (claims, Unreadable)
    else if slot.claim in faults.write then (claims, WriteFailed)
    else
      var claim := Mutate(ClaimAt(claims, slot.claim), vm, slot.pool);
      (claims[slot.claim := claim], Claimed(slot.claim !in claims, claim.addressRef != ""))
  }

  function Count(c: Counters, outcome: ClaimOutcome): Counters {
    var counted := c.(total := c.total + 1);
    match outcome
    case Unreadable => counted.(aborted := true)
    case WriteFailed => counted.(failures := c.failures + 1)
    case Claimed(created, fulfilled) =>
      counted.(created := c.created + (if created then 1 else 0), fulfilled := c.fulfilled + (if fulfilled then 1 else 0))
  }

  function ClaimOne(vm: VirtualMachine, faults: Faults, pass: Pass, slot: Slot): Pass {
    if pass.counters.aborted then pass
    else
      var (claims, outcome) := ClaimSlot(vm, faults, pass.claims, slot);
      Pass(claims, Count(pass.counters, outcome))
  }

  function ClaimAll(vm: VirtualMachine, faults: Faults, pass: Pass, slots: seq<Slot>): Pass {
    if slots == [] then pass
    else ClaimOne(vm, faults, ClaimAll(vm, faults, pass, slots[..|slots| - 1]), slots[|slots| - 1])
  }

  lemma ClaimSnoc(vm: VirtualMachine, faults: Faults, pass: Pass, slots: seq<Slot>, slot: Slot)
    ensures ClaimAll(vm, faults, pass, slots + [slot]) == ClaimOne(vm, faults, ClaimAll(vm, faults, pass, slots), slot)
  {
    assert (slots + [slot])[..|slots|] == slots;
  }

  function Start(claims: Claims): Pass {
    Pass(claims, Counters(0, 0, 0, 0, false))
  }

  lemma {:induction false} ClaimAborted(vm: VirtualMachine, faults: Faults, pass: Pass, done: seq<Slot>, all: seq<Slot>)
    requires done <= all && ClaimAll(vm, faults, pass, done).counters.aborted
    ensures ClaimAll(vm, faults, pass, all) == ClaimAll(vm, faults, pass, done)
  {
    if |done| < |all| {
      ClaimAborted(vm, faults, pass, done, all[..|all| - 1]);
    } else {
      assert done == all;
    }
  }

  // ---------------------------------------------------------------------------------------------
  // Releasing claims
  // ---------------------------------------------------------------------------------------------

  datatype Release = Release(claims: Claims, aborted: bool)

  function ReleaseOne(faults: Faults, r: Release, slot: Slot): Release {
    if r.aborted then r
    else if slot.claim in faults.get then r.(aborted := true)
    else if slot.claim !in r.claims || !Protected(r.claims[slot.claim]) then r
    else if slot.claim in faults.write then r.(aborted := true)
    else
      var claim := r.claims[slot.claim];
      r.(claims := r.claims[slot.claim := claim.(finalizers := claim.finalizers - {IP_ADDRESS_CLAIM_FINALIZER})])
  }

  function ReleaseAll(faults: Faults, r: Release, slots: seq<Slot>): Release {
    if slots == [] then r
    else ReleaseOne(faults, ReleaseAll(faults, r, slots[..|slots| - 1]), slots[|slots| - 1])
  }

  lemma ReleaseSnoc(faults: Faults, r: Release, slots: seq<Slot>, slot: Slot)
    ensures ReleaseAll(faults, r, slots + [slot]) == ReleaseOne(faults, ReleaseAll(faults, r, slots), slot)
  {
    assert (slots + [slot])[..|slots|] == slots;
  }

  lemma {:induction false} ReleaseAborted(faults: Faults, r: Release, done: seq<Slot>, all: seq<Slot>)
    requires done <= all && ReleaseAll(faults, r, done).aborted
    ensures ReleaseAll(faults, r, all) == ReleaseAll(faults, r, done)
  {
    if |done| < |all| {
      ReleaseAborted(faults, r, done, all[..|all| - 1]);
    } else {
      assert done == all;
    }
  }

  /** The answer of DestroyVM. */
  datatype Destroy = DestroyFailed | Requeue | Destroyed(notFound: bool)

  /** The claims after reconcileDelete, and whether the VSphereVM finalizer was removed. */
  function DeleteOutcome(vm: VirtualMachine, claims: Claims, faults: Faults, destroy: Destroy): (Claims, bool) {
    if destroy != Destroyed(true) then (claims, false)
    else
      var r := ReleaseAll(faults, Release(claims, false), Slots(vm));
      (r.claims, !r.aborted)
  }

  // ---------------------------------------------------------------------------------------------
  // The reconciler
  // ---------------------------------------------------------------------------------------------

  class VmReconciler {
    var claims: Claims

    constructor (claims: Claims)
      ensures this.claims == claims
    {
      this.claims := claims;
    }

    /** Fails on an unreadable claim at once, and after the pass if some claim could not be written. */
    method ReconcileIPAddressClaims(vm: VirtualMachine, faults: Faults) returns (ok: bool, counters: Counters)
      modifies this
      ensures Pass(claims, counters) == ClaimAll(vm, faults, Start(old(claims)), Slots(vm))
      ensures ok == (!counters.aborted && counters.failures == 0)
    {
      counters := Counters(0, 0, 0, 0, false);
      ghost var start := Start(claims);
      for d := 0 to |vm.devices|
        invariant Pass(claims, counters) == ClaimAll(vm, faults, start, SlotsUpTo(vm.name, vm.devices, d))
        invariant !counters.aborted
      {
        SlotsBeforeFirst(vm, d);
        for p := 0 to |vm.devices[d]|
          invariant Pass(claims, counters) == ClaimAll(vm, faults, start, SlotsBefore(vm, d, p))
          invariant !counters.aborted
        {
          var name := IPAddressClaimName(vm.name, d, p);
          SlotsBeforeStep(vm, d, p);
          ClaimSnoc(vm, faults, start, SlotsBefore(vm, d, p), Slot(name, vm.devices[d][p]));
          var outcome := ReconcileClaim(vm, name, vm.devices[d][p], faults);
          counters := Count(counters, outcome);
          if counters.aborted {
            LoopPrefix(vm, d, p + 1);
            ClaimAborted(vm, faults, start, SlotsBefore(vm, d, p + 1), Slots(vm));
            return false, counters;
          }
        }
      }
      ok := counters.failures == 0;
    }

    /** One iteration of the claim loops. */
    method ReconcileClaim(vm: VirtualMachine, name: string, pool: PoolRef, faults: Faults) returns (outcome: ClaimOutcome)
      modifies this
      ensures (claims, outcome) == ClaimSlot(vm, faults, old(claims), Slot(name, pool))
    {
      if name in faults.get {
        return Unreadable;
      }
      if name in faults.write {
        return WriteFailed;
      }
      var claim, created := CreateOrPatchIPAddressClaim(vm, name, pool);
      return Claimed(created, claim.addressRef != "");
    }

    method CreateOrPatchIPAddressClaim(vm: VirtualMachine, name: string, pool: PoolRef) returns (claim: Claim, created: bool)
      modifies this
      ensures claim == Mutate(ClaimAt(old(claims), name), vm, pool)
      ensures claims == old(claims)[name := claim] && created == (name !in old(claims))
    {
      created := name !in claims;
      claim := if created then NEW_CLAIM else claims[name];
      claim := claim.(owners := Ensure(claim.owners, VmReference(vm.name, vm.uid)));
      claim := claim.(finalizers := claim.finalizers + {IP_ADDRESS_CLAIM_FINALIZER});
      claim := claim.(clusterLabel := vm.clusterLabel, pool := pool);
      claims := claims[name := claim];
    }

    method DeleteIPAddressClaims(vm: VirtualMachine, faults: Faults) returns (ok: bool)
      modifies this
      ensures Release(claims, !ok) == ReleaseAll(faults, Release(old(claims), false), Slots(vm))
    {
      ghost var start := Release(claims, false);
      for d := 0 to |vm.devices|
        invariant Release(claims, false) == ReleaseAll(faults, start, SlotsUpTo(vm.name, vm.devices, d))
      {
        SlotsBeforeFirst(vm, d);
        for p := 0 to |vm.devices[d]|
          invariant Release(claims, false) == ReleaseAll(faults, start, SlotsBefore(vm, d, p))
        {
          ghost var slot := Slot(IPAddressClaimName(vm.name, d, p), vm.devices[d][p]);
          SlotsBeforeStep(vm, d, p);
          ReleaseSnoc(faults, start, SlotsBefore(vm, d, p), slot);
          var released := ReleaseClaim(IPAddressClaimName(vm.name, d, p), faults, slot);
          if !released {
            LoopPrefix(vm, d, p + 1);
            ReleaseAborted(faults, start, SlotsBefore(vm, d, p + 1), Slots(vm));
            return false;
          }
        }
      }
      return true;
    }

    /** One iteration of the release loops: a missing claim counts as released. */
    method ReleaseClaim(name: string, faults: Faults, ghost slot: Slot) returns (ok: bool)
      requires slot.claim == name
      modifies this
      ensures Release(claims, !ok) == ReleaseOne(faults, Release(old(claims), false), slot)
    {
      if name in faults.get {
        return false;
      }
      if name !in claims {
        return true;
      }
      var claim := claims[name];
      if IP_ADDRESS_CLAIM_FINALIZER in claim.finalizers {
        if name in faults.write {
          return false;
        }
        claims := claims[name := claim.(finalizers := claim.finalizers - {IP_ADDRESS_CLAIM_FINALIZER})];
      }
      return true;
    }

    /** The VSphereVM finalizer goes only after the VM is gone and every claim is released. */
    method ReconcileDelete(vm: VirtualMachine, faults: Faults, destroy: Destroy) returns (finalizerRemoved: bool)
      modifies this
      ensures (claims, finalizerRemoved) == DeleteOutcome(vm, old(claims), faults, destroy)
    {
      if destroy.DestroyFailed? || destroy.Requeue? {
        return false;
      }
      if !destroy.notFound {
        return false;
      }
      var ok := DeleteIPAddressClaims(vm, faults);
      return ok;
    }
  }
}
