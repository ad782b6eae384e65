/**
  The life of IPAddressClaims across all VSphereVMs of a namespace: creation, deletion and failures in any order,
  together with the IPAM provider and garbage collection. A protected claim always has a VSphereVM that will release it.
 */
module IPAddressClaimProtocol {
  import opened OwnerReferences
  import opened IPAddressClaimNames
  import opened IPAddressClaims

  datatype System = System(vms: map<string, VirtualMachine>, claims: Claims)

  datatype Action =
    | CreateVM(vm: VirtualMachine)
    | AddFinalizer(name: string)
    | MarkDeleting(name: string)
    | Vanish(name: string)                                          // the API server drops a record without finalizer
    | ReconcileNormal(name: string, faults: Faults)                 // the claim step of a live VSphereVM
    | ReconcileDelete(name: string, faults: Faults, destroy: Destroy)
    | Others(claims: Claims)                                        // IPAM provider, garbage collector, users

  /** Others neither protect claims nor hand them to a VSphereVM, and cannot make a protected claim disappear. */
  ghost predicate OthersMay(before: Claims, after: Claims) {
    && (forall n :: n in before && Protected(before[n]) ==> n in after)
    && (forall n :: n in after ==>
          if n in before then after[n].owners == before[n].owners && (Protected(after[n]) ==> Protected(before[n]))
          else !Protected(after[n]) && forall v :: !OwnedBy(after[n], v))
  }

  ghost predicate Next(s: System, a: Action, t: System) {
    match a
    case CreateVM(vm) =>
      vm.name !in s.vms && !vm.deleting && !vm.finalizer && t == s.(vms := s.vms[vm.name := vm])
    case AddFinalizer(name) =>
      name in s.vms && !s.vms[name].deleting && t == s.(vms := s.vms[name := s.vms[name].(finalizer := true)])
    case MarkDeleting(name) =>
      name in s.vms && t == s.(vms := s.vms[name := s.vms[name].(deleting := true)])
    case Vanish(name) =>
      name in s.vms && s.vms[name].deleting && !s.vms[name].finalizer && t == s.(vms := s.vms - {name})
    case ReconcileNormal(name, faults) =>
      && name in s.vms && !s.vms[name].deleting && s.vms[name].finalizer
      && t == s.(claims := ClaimAll(s.vms[name], faults, Start(s.claims), Slots(s.vms[name])).claims)
    case ReconcileDelete(name, faults, destroy) =>
      && name in s.vms && s.vms[name].deleting
      && (var (claims, removed) := DeleteOutcome(s.vms[name], s.claims, faults, destroy);
         var vm := if removed then s.vms[name].(finalizer := false) else s.vms[name];
         t == System(s.vms[name := vm], claims))
    case Others(claims) =>
      OthersMay(s.claims, claims) && t == s.(claims := claims)
  }

  /** The claim's name is one of the names a VSphereVM uses. */
  ghost predicate NamedFor(claim: string, vm: string) {
    exists d: nat, p: nat :: claim == IPAddressClaimName(vm, d, p)
  }

  ghost predicate Inv(s: System) {
    && (forall name :: name in s.vms ==> s.vms[name].name == name)
    && (forall n, v :: n in s.claims && OwnedBy(s.claims[n], v) ==> NamedFor(n, v))
    && (forall n, v :: n in s.claims && Protected(s.claims[n]) && OwnedBy(s.claims[n], v) ==>
          v in s.vms && s.vms[v].finalizer && IsSlotOf(s.vms[v], n))
  }

  // ---------------------------------------------------------------------------------------------
  // What the passes do to claims
  // ---------------------------------------------------------------------------------------------

  function ClaimNames(slots: seq<Slot>): set<string> {
    set s | s in slots :: s.claim
  }

  lemma MutateOwners(claim: Claim, vm: VirtualMachine, pool: PoolRef, v: string)
    ensures OwnedBy(Mutate(claim, vm, pool), v) <==> OwnedBy(claim, v) || v == vm.name
    ensures Protected(Mutate(claim, vm, pool))
  {
    InfrastructureGroup("VSphereVM", vm.name, vm.uid);
    InfrastructureGroup("VSphereVM", v, "");
    EnsureOwned(claim.owners, VmReference(vm.name, vm.uid), VmReference(v, ""));
  }

  /** Apart from slots of `vm`, nothing changes; a slot may gain `vm` as an owner. */
  ghost predicate ClaimedOnly(before: Claims, after: Claims, vm: string, names: set<string>) {
    && (forall n :: n in before ==> n in after)
    && (forall n :: n in after && n !in names ==> n in before && after[n] == before[n])
    && (forall n, v :: n in after && OwnedBy(after[n], v) ==> (n in before && OwnedBy(before[n], v)) || v == vm)
  }

  lemma {:induction false} ClaimAllEffect(vm: VirtualMachine, faults: Faults, pass: Pass, slots: seq<Slot>)
    ensures ClaimedOnly(pass.claims, ClaimAll(vm, faults, pass, slots).claims, vm.name, ClaimNames(slots))
  {
    if slots != [] {
      var front, slot := slots[..|slots| - 1], slots[|slots| - 1];
      assert slots == front + [slot];
      ClaimAllEffect(vm, faults, pass, front);
      var mid := ClaimAll(vm, faults, pass, front);
      ClaimOneEffect(vm, faults, mid, slot);
      var end := ClaimOne(vm, faults, mid, slot);
      assert ClaimNames(slots) == ClaimNames(front) + {slot.claim};
    }
  }

  lemma ClaimOneEffect(vm: VirtualMachine, faults: Faults, pass: Pass, slot: Slot)
    ensures ClaimedOnly(pass.claims, ClaimOne(vm, faults, pass, slot).claims, vm.name, {slot.claim})
  {
    forall v ensures OwnedBy(Mutate(ClaimAt(pass.claims, slot.claim), vm, slot.pool), v)
                     <==> OwnedBy(ClaimAt(pass.claims, slot.claim), v) || v == vm.name
    {
      MutateOwners(ClaimAt(pass.claims, slot.claim), vm, slot.pool, v);
    }
  }

  /**
    What a claim pass may do to one claim: add this VSphereVM as an owner, with its uid, and the protection finalizer, and
    set cluster label and pool. Other owners, other finalizers and the bound address stay.
   */
  ghost predicate ClaimedBy(before: Claim, after: Claim, vm: VirtualMachine) {
    var ref := OwnerReference(INFRASTRUCTURE_GROUP + "/" + "v1beta2", "VSphereVM", vm.name, vm.uid, false);
    && ref in after.owners
    && (forall r :: r in before.owners && !SameObject(r, ref) ==> r in after.owners)
    && (forall r :: r in after.owners ==> r == ref || r in before.owners)
    && after.finalizers == before.finalizers + {IP_ADDRESS_CLAIM_FINALIZER}
    && after.clusterLabel == vm.clusterLabel && after.addressRef == before.addressRef
  }

  lemma ClaimedTwice(before: Claim, mid: Claim, after: Claim, vm: VirtualMachine)
    requires ClaimedBy(before, mid, vm) && ClaimedBy(mid, after, vm)
    ensures ClaimedBy(before, after, vm)
  {
  }

  /** One slot changes at most its own claim, as `ClaimedBy` says, and points it to its pool. */
  lemma ClaimOneChange(vm: VirtualMachine, faults: Faults, pass: Pass, slot: Slot, n: string)
    requires n in ClaimOne(vm, faults, pass, slot).claims
    ensures var after := ClaimOne(vm, faults, pass, slot).claims;
            || (n in pass.claims && after[n] == pass.claims[n])
            || (n == slot.claim && ClaimedBy(ClaimAt(pass.claims, n), after[n], vm) && after[n].pool == slot.pool)
  {
    EnsureWrites(ClaimAt(pass.claims, slot.claim).owners, VmReference(vm.name, vm.uid));
  }

  /** A pass leaves a claim alone, or it is the claim of a slot and changes as `ClaimedBy` says. */
  lemma {:induction false} ClaimAllChange(vm: VirtualMachine, faults: Faults, pass: Pass, slots: seq<Slot>, n: string)
    requires n in ClaimAll(vm, faults, pass, slots).claims
    ensures var after := ClaimAll(vm, faults, pass, slots).claims;
            || (n in pass.claims && after[n] == pass.claims[n])
            || (n in ClaimNames(slots) && ClaimedBy(ClaimAt(pass.claims, n), after[n], vm))
  {
    if slots != [] {
      var front, slot := slots[..|slots| - 1], slots[|slots| - 1];
      assert slots == front + [slot];
      assert ClaimNames(slots) == ClaimNames(front) + {slot.claim};
      var mid := ClaimAll(vm, faults, pass, front);
      var end := ClaimOne(vm, faults, mid, slot);
      ClaimOneChange(vm, faults, mid, slot, n);
      if n in mid.claims {
        ClaimAllChange(vm, faults, pass, front, n);
        if mid.claims[n] != ClaimAt(pass.claims, n) && end.claims[n] != mid.claims[n] {
          ClaimedTwice(ClaimAt(pass.claims, n), mid.claims[n], end.claims[n], vm);
        }
      } else {
        ClaimAllEffect(vm, faults, pass, front);
      }
    }
  }

  predicate Faulty(faults: Faults, slot: Slot) {
    slot.claim in faults.get || slot.claim in faults.write
  }

  /** The pass reports success exactly when no call for a slot failed. */
  lemma {:induction false} ClaimSucceeds(vm: VirtualMachine, faults: Faults, claims: Claims, slots: seq<Slot>)
    ensures var counters := ClaimAll(vm, faults, Start(claims), slots).counters;
            !counters.aborted && counters.failures == 0 <==> forall k :: 0 <= k < |slots| ==> !Faulty(faults, slots[k])
  {
    if slots != [] {
      var n := |slots| - 1;
      ClaimSucceeds(vm, faults, claims, slots[..n]);
      assert forall k :: 0 <= k < n ==> slots[..n][k] == slots[k];
      if forall k :: 0 <= k < |slots| ==> !Faulty(faults, slots[k]) {
        assert !Faulty(faults, slots[n]);
      }
    }
  }

  /** How many slots had no claim before the pass. */
  function NewSlots(claims: Claims, slots: seq<Slot>): nat {
    if slots == [] then 0
    else NewSlots(claims, slots[..|slots| - 1]) + if slots[|slots| - 1].claim in claims then 0 else 1
  }

  /** How many slots had a claim with a bound address before the pass. */
  function BoundSlots(claims: Claims, slots: seq<Slot>): nat {
    if slots == [] then 0
    else
      var last := slots[|slots| - 1].claim;
      BoundSlots(claims, slots[..|slots| - 1]) + if last in claims && claims[last].addressRef != "" then 1 else 0
  }

  /** A successful pass counts as created the slots that had no claim, and as fulfilled those with a bound address. */
  lemma {:induction false} CountersExact(vm: VirtualMachine, faults: Faults, claims: Claims, slots: seq<Slot>)
    requires forall i, j :: 0 <= i < j < |slots| ==> slots[i].claim != slots[j].claim
    requires var counters := ClaimAll(vm, faults, Start(claims), slots).counters; !counters.aborted && counters.failures == 0
    ensures var counters := ClaimAll(vm, faults, Start(claims), slots).counters;
            counters.created == NewSlots(claims, slots) && counters.fulfilled == BoundSlots(claims, slots)
  {
    if slots != [] {
      var n := |slots| - 1;
      var front, slot := slots[..n], slots[n];
      var mid := ClaimAll(vm, faults, Start(claims), front);
      ClaimOneComplete(vm, faults, mid, slot);
      assert forall i :: 0 <= i < n ==> front[i] == slots[i];
      CountersExact(vm, faults, claims, front);
      ClaimAllEffect(vm, faults, Start(claims), front);
      assert slot.claim !in ClaimNames(front);
    }
  }

  lemma {:induction false} ClaimAllTotal(vm: VirtualMachine, faults: Faults, claims: Claims, slots: seq<Slot>)
    ensures var pass := ClaimAll(vm, faults, Start(claims), slots);
            !pass.counters.aborted ==> pass.counters.total == |slots|
  {
    if slots != [] {
      ClaimAllTotal(vm, faults, claims, slots[..|slots| - 1]);
    }
  }

  predicate Fulfils(claim: Claim, vm: VirtualMachine, pool: PoolRef) {
    Protected(claim) && OwnedBy(claim, vm.name) && claim.pool == pool && claim.clusterLabel == vm.clusterLabel
  }

  /** A slot that does not fail leaves a claim that fulfils it, and other claims alone. */
  lemma ClaimOneComplete(vm: VirtualMachine, faults: Faults, pass: Pass, slot: Slot)
    requires var end := ClaimOne(vm, faults, pass, slot); !end.counters.aborted && end.counters.failures == 0
    ensures !pass.counters.aborted && pass.counters.failures == 0
    ensures var end := ClaimOne(vm, faults, pass, slot);
            && slot.claim in end.claims && Fulfils(end.claims[slot.claim], vm, slot.pool)
            && forall n :: n in pass.claims && n != slot.claim ==> n in end.claims && end.claims[n] == pass.claims[n]
  {
    MutateOwners(ClaimAt(pass.claims, slot.claim), vm, slot.pool, vm.name);
  }

  /** After a pass without failures each slot has a protected claim on the right pool, owned by the VSphereVM. */
  lemma {:induction false} ClaimAllComplete(vm: VirtualMachine, faults: Faults, claims: Claims, slots: seq<Slot>, k: nat)
    requires forall i, j :: 0 <= i < j < |slots| ==> slots[i].claim != slots[j].claim
    requires k < |slots|
    requires var pass := ClaimAll(vm, faults, Start(claims), slots); !pass.counters.aborted && pass.counters.failures == 0
    ensures var pass := ClaimAll(vm, faults, Start(claims), slots);
            slots[k].claim in pass.claims && Fulfils(pass.claims[slots[k].claim], vm, slots[k].pool)
  {
    var n := |slots| - 1;
    var front, slot := slots[..n], slots[n];
    ClaimOneComplete(vm, faults, ClaimAll(vm, faults, Start(claims), front), slot);
    if k < n {
      assert forall i :: 0 <= i < n ==> front[i] == slots[i];
      ClaimAllComplete(vm, faults, claims, front, k);
    }
  }

  lemma {:induction false} SlotsDistinct(vm: string, devices: seq<seq<PoolRef>>, n: nat, i: nat, j: nat)
    requires n <= |devices| && i < j < |SlotsUpTo(vm, devices, n)|
    ensures SlotsUpTo(vm, devices, n)[i].claim != SlotsUpTo(vm, devices, n)[j].claim
  {
    var earlier, s := SlotsUpTo(vm, devices, n - 1), SlotsUpTo(vm, devices, n);
    DeviceSlotsExact(vm, n - 1, devices[n - 1], |devices[n - 1]|);
    if j < |earlier| {
      SlotsDistinct(vm, devices, n - 1, i, j);
    } else if s[i].claim == s[j].claim {
      var d, p := if i < |earlier| then 0 else n - 1, if i < |earlier| then 0 else i - |earlier|;
      if i < |earlier| {
        d, p := SlotIndex(vm, devices, n - 1, i);
      }
      ClaimNameInjective(vm, d, p, vm, n - 1, j - |earlier|);
    }
  }

  /** A successful pass counts every slot and leaves each with a protected claim of its own. */
  lemma NormalComplete(vm: VirtualMachine, faults: Faults, claims: Claims, d: nat, p: nat)
    requires d < |vm.devices| && p < |vm.devices[d]|
    requires var pass := ClaimAll(vm, faults, Start(claims), Slots(vm)); !pass.counters.aborted && pass.counters.failures == 0
    ensures var pass, name := ClaimAll(vm, faults, Start(claims), Slots(vm)), IPAddressClaimName(vm.name, d, p);
            && pass.counters.total == |Slots(vm)|
            && name in pass.claims && Fulfils(pass.claims[name], vm, vm.devices[d][p])
  {
    var slots := Slots(vm);
    forall i, j | 0 <= i < j < |slots| ensures slots[i].claim != slots[j].claim {
      SlotsDistinct(vm.name, vm.devices, |vm.devices|, i, j);
    }
    ClaimAllTotal(vm, faults, claims, slots);
    var k := SlotListed(vm.name, vm.devices, |vm.devices|, d, p);
    ClaimAllComplete(vm, faults, claims, slots, k);
  }

  /** The claim without this controller's finalizer, and with everything else. */
  function Unprotected(claim: Claim): Claim {
    claim.(finalizers := claim.finalizers - {IP_ADDRESS_CLAIM_FINALIZER})
  }

  /** A release leaves a claim alone, or takes the protection finalizer from the claim of a slot and nothing else. */
  lemma {:induction false} ReleaseAllChange(faults: Faults, r: Release, slots: seq<Slot>, n: string)
    requires n in r.claims
    ensures var after := ReleaseAll(faults, r, slots).claims;
            n in after && (after[n] == r.claims[n] || (n in ClaimNames(slots) && after[n] == Unprotected(r.claims[n])))
  {
    if slots != [] {
      var front, slot := slots[..|slots| - 1], slots[|slots| - 1];
      assert slots == front + [slot];
      ReleaseAllChange(faults, r, front, n);
      assert n in ClaimNames(front) ==> n in ClaimNames(slots);
      assert slot.claim in ClaimNames(slots);
    }
  }

  /** Releasing keeps claims and owners, protects nothing, and if it completes no slot stays protected. */
  lemma {:induction false} ReleaseAllEffect(faults: Faults, r: Release, slots: seq<Slot>)
    ensures var end := ReleaseAll(faults, r, slots);
            && end.claims.Keys == r.claims.Keys
            && (forall n :: n in r.claims ==> end.claims[n].owners == r.claims[n].owners
                                              && (Protected(end.claims[n]) ==> Protected(r.claims[n])))
            && (!end.aborted ==> forall k :: 0 <= k < |slots| && slots[k].claim in end.claims ==> !Protected(end.claims[slots[k].claim]))
  {
    if slots != [] {
      var n := |slots| - 1;
      ReleaseAllEffect(faults, r, slots[..n]);
      assert forall k :: 0 <= k < n ==> slots[..n][k] == slots[k];
    }
  }

  /** Releasing this slot fails: its claim cannot be read, or is protected and cannot be written. */
  predicate Stuck(claims: Claims, faults: Faults, slot: Slot) {
    slot.claim in faults.get || (slot.claim in claims && Protected(claims[slot.claim]) && slot.claim in faults.write)
  }

  /** The release completes exactly when no slot is stuck. */
  lemma {:induction false} ReleaseCompletes(faults: Faults, claims: Claims, slots: seq<Slot>)
    ensures !ReleaseAll(faults, Release(claims, false), slots).aborted <==> forall k :: 0 <= k < |slots| ==> !Stuck(claims, faults, slots[k])
  {
    if slots != [] {
      var n := |slots| - 1;
      var mid := ReleaseAll(faults, Release(claims, false), slots[..n]);
      ReleaseCompletes(faults, claims, slots[..n]);
      ReleaseAllEffect(faults, Release(claims, false), slots[..n]);
      assert forall k :: 0 <= k < n ==> slots[..n][k] == slots[k];
      if slots[n].claim in claims {
        ReleaseAllChange(faults, Release(claims, false), slots[..n], slots[n].claim);
      }
      if slots[n].claim in ClaimNames(slots[..n]) {
        var s :| s in slots[..n] && s.claim == slots[n].claim;
        var k :| 0 <= k < n && slots[..n][k] == s;
        assert Stuck(claims, faults, slots[k]) == Stuck(claims, faults, slots[n]);
      }
      if forall k :: 0 <= k < |slots| ==> !Stuck(claims, faults, slots[k]) {
        assert !Stuck(claims, faults, slots[n]);
      }
    }
  }

  /** The VSphereVM finalizer goes exactly when the VM is not found and no slot is stuck; claims wait for the VM to be gone. */
  lemma FinalizerGoesExactly(vm: VirtualMachine, claims: Claims, faults: Faults, destroy: Destroy)
    ensures DeleteOutcome(vm, claims, faults, destroy).1 <==>
            destroy == Destroyed(true) && forall k :: 0 <= k < |Slots(vm)| ==> !Stuck(claims, faults, Slots(vm)[k])
    ensures destroy != Destroyed(true) ==> DeleteOutcome(vm, claims, faults, destroy).0 == claims
  {
    ReleaseCompletes(faults, claims, Slots(vm));
  }

  // ---------------------------------------------------------------------------------------------
  // The invariant
  // ---------------------------------------------------------------------------------------------

  lemma SlotNamed(vm: VirtualMachine, claim: string)
    requires claim in ClaimNames(Slots(vm))
    ensures IsSlotOf(vm, claim) && NamedFor(claim, vm.name)
  {
    var s :| s in Slots(vm) && s.claim == claim;
    var k :| 0 <= k < |Slots(vm)| && Slots(vm)[k] == s;
    var d, p := SlotIndex(vm.name, vm.devices, |vm.devices|, k);
  }

  /** Claim names tell VSphereVMs apart. */
  lemma NamedForOne(claim: string, v: string, w: string)
    requires NamedFor(claim, v) && NamedFor(claim, w)
    ensures v == w
  {
    var d: nat, p: nat :| claim == IPAddressClaimName(v, d, p);
    var d': nat, p': nat :| claim == IPAddressClaimName(w, d', p');
    ClaimNameInjective(v, d, p, w, d', p');
  }

  lemma NormalKeepsInv(s: System, name: string, faults: Faults, t: System)
    requires Inv(s) && Next(s, ReconcileNormal(name, faults), t)
    ensures Inv(t)
  {
    var vm := s.vms[name];
    ClaimAllEffect(vm, faults, Start(s.claims), Slots(vm));
    forall n, v | n in t.claims && OwnedBy(t.claims[n], v)
      ensures NamedFor(n, v)
      ensures Protected(t.claims[n]) ==> v in t.vms && t.vms[v].finalizer && IsSlotOf(t.vms[v], n)
    {
      if n in ClaimNames(Slots(vm)) {
        SlotNamed(vm, n);
        if v != name {
          assert NamedFor(n, v);
          NamedForOne(n, v, name);
        }
      } else {
        assert n in s.claims && t.claims[n] == s.claims[n];
      }
    }
  }

  /** No claim of the VSphereVM carries the protection finalizer. */
  ghost predicate AllReleased(claims: Claims, vm: string) {
    forall n :: n in claims && OwnedBy(claims[n], vm) ==> !Protected(claims[n])
  }

  /** Where the finalizer goes, the claims have been released. */
  lemma DeleteReleases(s: System, name: string, faults: Faults, destroy: Destroy)
    requires Inv(s) && name in s.vms
    requires DeleteOutcome(s.vms[name], s.claims, faults, destroy).1
    ensures destroy == Destroyed(true)
    ensures AllReleased(DeleteOutcome(s.vms[name], s.claims, faults, destroy).0, name)
  {
    var vm := s.vms[name];
    var claims := DeleteOutcome(vm, s.claims, faults, destroy).0;
    ReleaseAllEffect(faults, Release(s.claims, false), Slots(vm));
    forall n | n in claims && OwnedBy(claims[n], name) ensures !Protected(claims[n]) {
      assert n in s.claims && OwnedBy(s.claims[n], name);
      if Protected(s.claims[n]) {
        var d, p :| 0 <= d < |vm.devices| && 0 <= p < |vm.devices[d]| && n == IPAddressClaimName(vm.name, d, p);
        var k := SlotListed(vm.name, vm.devices, |vm.devices|, d, p);
        assert Slots(vm)[k].claim == n;
      }
    }
  }

  lemma DeleteKeepsInv(s: System, name: string, faults: Faults, destroy: Destroy, t: System)
    requires Inv(s) && Next(s, ReconcileDelete(name, faults, destroy), t)
    ensures Inv(t)
  {
    var vm := s.vms[name];
    ReleaseAllEffect(faults, Release(s.claims, false), Slots(vm));
    if DeleteOutcome(vm, s.claims, faults, destroy).1 {
      DeleteReleases(s, name, faults, destroy);
    }
    forall n, v | n in t.claims && OwnedBy(t.claims[n], v)
      ensures NamedFor(n, v)
      ensures Protected(t.claims[n]) ==> v in t.vms && t.vms[v].finalizer && IsSlotOf(t.vms[v], n)
    {
      assert n in s.claims && OwnedBy(s.claims[n], v);
    }
  }

  lemma NextKeepsInv(s: System, a: Action, t: System)
    requires Inv(s) && Next(s, a, t)
    ensures Inv(t)
  {
    match a
    case ReconcileNormal(name, faults) => NormalKeepsInv(s, name, faults, t);
    case ReconcileDelete(name, faults, destroy) => DeleteKeepsInv(s, name, faults, destroy, t);
    case Others(claims) =>
      forall n, v | n in t.claims && OwnedBy(t.claims[n], v)
        ensures NamedFor(n, v)
        ensures Protected(t.claims[n]) ==> v in t.vms && t.vms[v].finalizer && IsSlotOf(t.vms[v], n)
      {
        assert n in s.claims && OwnedBy(s.claims[n], v);
      }
    case _ => RecordsKeepInv(s, a, t);
  }

  lemma RecordsKeepInv(s: System, a: Action, t: System)
    requires Inv(s) && Next(s, a, t)
    requires a.CreateVM? || a.AddFinalizer? || a.MarkDeleting? || a.Vanish?
    ensures Inv(t)
  {
    forall n, v | n in t.claims && Protected(t.claims[n]) && OwnedBy(t.claims[n], v)
      ensures v in t.vms && t.vms[v].finalizer && IsSlotOf(t.vms[v], n)
    {
      assert v in s.vms && s.vms[v].finalizer && IsSlotOf(s.vms[v], n);
    }
  }

  // ---------------------------------------------------------------------------------------------
  // Theorems over runs
  // ---------------------------------------------------------------------------------------------

  ghost predicate Run(states: seq<System>, actions: seq<Action>) {
    && |states| == |actions| + 1
    && Inv(states[0])
    && forall i :: 0 <= i < |actions| ==> Next(states[i], actions[i], states[i + 1])
  }

  lemma {:induction false} RunInv(states: seq<System>, actions: seq<Action>, i: nat)
    requires Run(states, actions) && i < |states|
    ensures Inv(states[i])
  {
    if i > 0 {
      RunInv(states, actions, i - 1);
      NextKeepsInv(states[i - 1], actions[i - 1], states[i]);
    }
  }

  /** In every reachable state a protected claim owned by a VSphereVM still has that VSphereVM, with its finalizer, to release it. */
  lemma ProtectedHasItsVM(states: seq<System>, actions: seq<Action>, i: nat, claim: string, vm: string)
    requires Run(states, actions) && i < |states|
    requires claim in states[i].claims && Protected(states[i].claims[claim]) && OwnedBy(states[i].claims[claim], vm)
    ensures vm in states[i].vms && states[i].vms[vm].finalizer
  {
    RunInv(states, actions, i);
  }

  /** When reconcileDelete removes the VSphereVM finalizer, the VM is not found and no claim of it is still protected. */
  lemma ReleasedBeforeRecordGoes(states: seq<System>, actions: seq<Action>, i: nat, vm: string)
    requires Run(states, actions) && i < |actions|
    requires actions[i].ReconcileDelete? && actions[i].name == vm
    requires vm in states[i].vms && states[i].vms[vm].finalizer
    requires vm in states[i + 1].vms && !states[i + 1].vms[vm].finalizer
    ensures actions[i].destroy == Destroyed(true)
    ensures AllReleased(states[i + 1].claims, vm)
  {
    RunInv(states, actions, i);
    assert Next(states[i], actions[i], states[i + 1]);
    DeleteReleases(states[i], vm, actions[i].faults, actions[i].destroy);
  }
}
