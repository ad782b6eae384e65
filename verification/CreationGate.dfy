/**
  The creation gate: what an open gate promises about the batch of machines that becomes the initial group, and what its
  aggregate count says about each MachineDeployment.
 */
module CreationGate {
  import opened Common
  import opened Ordering
  import opened VirtualMachineGroup
  import opened PlacementRules

  /** Different live labelled machines have different VirtualMachine names. */
  ghost predicate NamesApart(namer: Namer, machines: seq<VSphereMachine>) {
    forall i, j, vm :: 0 <= i < j < |machines| && StandsFor(namer, machines[i], vm) ==> !StandsFor(namer, machines[j], vm)
  }

  lemma {:induction false} OwnedAreMapped(namer: Namer, machines: seq<VSphereMachine>, owners: set<string>)
    requires "" !in owners && NoneDeleting(machines, owners) && NamesApart(namer, machines)
    requires VmToMd(namer, machines).Some?
    ensures CountOwned(machines, owners) <= |VmToMd(namer, machines).value|
  {
    if machines != [] {
      var last := |machines| - 1;
      var front := machines[..last];
      assert forall i :: 0 <= i < last ==> front[i] == machines[i];
      OwnedAreMapped(namer, front, owners);
      var m := VmToMd(namer, front).value;
      var name := namer(machines[last].name, machines[last].naming);
      if name.Some? {
        UpdateSize(m, name.value, machines[last].mdLabel);
      }
      if machines[last].mdLabel in owners {
        assert StandsFor(namer, machines[last], name.value);
        if name.value in m {
          VmToMdOrigin(namer, front, name.value);
        }
      }
    }
  }

  /**
    When the gate opens, no machine of a live MachineDeployment is deleting, each of them is a member, members are
    strictly sorted, and there are at least as many as the positive sum of replicas.
   */
  lemma BatchCreation(namer: Namer, cluster: Cluster, snapshot: Snapshot)
    requires WellNamed(snapshot.mds) && NamesApart(namer, snapshot.machines)
    requires 0 <= ExpectedReplicas(snapshot.mds) <= INT32_MAX && |snapshot.machines| <= INT32_MAX
    requires GateOpen(snapshot.mds, snapshot.machines)
    requires VmToMd(namer, snapshot.machines).Some?
    ensures var members := MemberNames(Compute(namer, cluster, snapshot, None).value);
            && StrictlySorted(members)
            && 0 < ExpectedReplicas(snapshot.mds) <= |members|
            && forall i :: 0 <= i < |snapshot.machines| && snapshot.machines[i].mdLabel in LiveNames(snapshot.mds) ==>
                 var m := snapshot.machines[i];
                 !m.deleting && namer(m.name, m.naming).Some? && namer(m.name, m.naming).value in members
  {
    var machines, owners := snapshot.machines, LiveNames(snapshot.mds);
    var group := Compute(namer, cluster, snapshot, None).value;
    LiveNamesNonEmpty(snapshot.mds);
    GateCounts(snapshot.mds, machines);
    NobodyLeavesExact(snapshot.mds, machines);
    OwnedAreMapped(namer, machines, owners);
    CreatedMembers(namer, cluster, snapshot);
    BatchIncludes(namer, cluster, snapshot);
  }

  /** No machine of a live MachineDeployment is deleting; machines of a deleting one do not matter. */
  ghost predicate NobodyLeaves(mds: seq<MachineDeployment>, machines: seq<VSphereMachine>) {
    forall i, j :: 0 <= i < |machines| && 0 <= j < |mds| && !mds[j].deleting && machines[i].mdLabel == mds[j].name ==> !machines[i].deleting
  }

  lemma NobodyLeavesExact(mds: seq<MachineDeployment>, machines: seq<VSphereMachine>)
    ensures NoneDeleting(machines, LiveNames(mds)) <==> NobodyLeaves(mds, machines)
  {
    forall i | 0 <= i < |machines|
      ensures machines[i].mdLabel in LiveNames(mds) <==>
              exists j :: 0 <= j < |mds| && !mds[j].deleting && machines[i].mdLabel == mds[j].name
    {
      if machines[i].mdLabel in LiveNames(mds) {
        var md :| md in mds && !md.deleting && md.name == machines[i].mdLabel;
        var j :| 0 <= j < |mds| && mds[j] == md;
      }
    }
  }

  /** Without int32 overflow the gate compares the true counts. */
  lemma GateCounts(mds: seq<MachineDeployment>, machines: seq<VSphereMachine>)
    requires 0 <= ExpectedReplicas(mds) <= INT32_MAX && |machines| <= INT32_MAX
    ensures GateOpen(mds, machines) <==>
            && NobodyLeaves(mds, machines)
            && 0 < ExpectedReplicas(mds) <= CountOwned(machines, LiveNames(mds))
  {
    NobodyLeavesExact(mds, machines);
    CountBounded(machines, LiveNames(mds));
    assert Int32(ExpectedReplicas(mds)) == ExpectedReplicas(mds);
    assert Int32(CountOwned(machines, LiveNames(mds))) == CountOwned(machines, LiveNames(mds));
  }

  lemma BatchIncludes(namer: Namer, cluster: Cluster, snapshot: Snapshot)
    requires WellNamed(snapshot.mds) && NoneDeleting(snapshot.machines, LiveNames(snapshot.mds))
    requires VmToMd(namer, snapshot.machines).Some?
    ensures forall i :: 0 <= i < |snapshot.machines| && snapshot.machines[i].mdLabel in LiveNames(snapshot.mds) ==>
              var m := snapshot.machines[i];
              && !m.deleting && namer(m.name, m.naming).Some?
              && namer(m.name, m.naming).value in MemberNames(Compute(namer, cluster, snapshot, None).value)
  {
    LiveNamesNonEmpty(snapshot.mds);
    CreatedMembers(namer, cluster, snapshot);
    forall i | 0 <= i < |snapshot.machines| && snapshot.machines[i].mdLabel in LiveNames(snapshot.mds)
      ensures var m := snapshot.machines[i];
              && !m.deleting && namer(m.name, m.naming).Some?
              && namer(m.name, m.naming).value in VmToMd(namer, snapshot.machines).value
    {
      LiveIsMapped(namer, snapshot.machines, i);
    }
  }

  lemma LiveNamesNonEmpty(mds: seq<MachineDeployment>)
    requires WellNamed(mds)
    ensures "" !in LiveNames(mds)
  {
    forall md | md in mds && !md.deleting ensures md.name != "" {
      var i :| 0 <= i < |mds| && mds[i] == md;
    }
  }

  lemma LiveIsMapped(namer: Namer, machines: seq<VSphereMachine>, i: nat)
    requires i < |machines| && !machines[i].deleting && machines[i].mdLabel != ""
    requires VmToMd(namer, machines).Some?
    ensures namer(machines[i].name, machines[i].naming).Some?
    ensures namer(machines[i].name, machines[i].naming).value in VmToMd(namer, machines).value
  {
    VmToMdDefined(namer, machines);
    assert !Unnameable(namer, machines[i]);
    VmToMdLast(namer, machines, i, namer(machines[i].name, machines[i].naming).value);
  }

  /** A new group has every mapped VirtualMachine as a member, once. */
  lemma CreatedMembers(namer: Namer, cluster: Cluster, snapshot: Snapshot)
    requires VmToMd(namer, snapshot.machines).Some?
    ensures var members, vmToMd := MemberNames(Compute(namer, cluster, snapshot, None).value), VmToMd(namer, snapshot.machines).value;
            && StrictlySorted(members)
            && |members| == |vmToMd|
            && forall vm :: vm in members <==> vm in vmToMd
  {
    var vmToMd := VmToMd(namer, snapshot.machines).value;
    var members := MemberNames(Compute(namer, cluster, snapshot, None).value);
    DesiredMembers(cluster, PlacementFor(snapshot, None, vmToMd), None, vmToMd);
    SortedDistinct(members);
    DistinctElements(members);
    assert Elements(members) == vmToMd.Keys;
  }

  lemma {:induction false} CountBounded(machines: seq<VSphereMachine>, owners: set<string>)
    ensures CountOwned(machines, owners) <= |machines|
  {
    if machines != [] {
      CountBounded(machines[..|machines| - 1], owners);
    }
  }

  // ---------------------------------------------------------------------------------------------
  // The aggregate count and the single MachineDeployments
  // ---------------------------------------------------------------------------------------------

  /** How many machines carry the label of one MachineDeployment. */
  function MachinesOf(machines: seq<VSphereMachine>, md: MachineDeployment): nat {
    CountOwned(machines, {md.name})
  }

  /** Each labelled machine counts once. */
  lemma {:induction false} CountExact(machines: seq<VSphereMachine>, owners: set<string>)
    ensures CountOwned(machines, owners) == |set i | 0 <= i < |machines| && machines[i].mdLabel in owners|
  {
    if machines != [] {
      var n := |machines| - 1;
      CountExact(machines[..n], owners);
      var front := set i | 0 <= i < n && machines[..n][i].mdLabel in owners;
      var all := set i | 0 <= i < |machines| && machines[i].mdLabel in owners;
      assert all == front + if machines[n].mdLabel in owners then {n} else {};
    }
  }

  lemma {:induction false} CountSplits(machines: seq<VSphereMachine>, a: set<string>, b: set<string>)
    requires a !! b
    ensures CountOwned(machines, a + b) == CountOwned(machines, a) + CountOwned(machines, b)
  {
    if machines != [] {
      CountSplits(machines[..|machines| - 1], a, b);
    }
  }

  /** The sum over the live MachineDeployments of the machines each of them has. */
  function SumOfMachines(mds: seq<MachineDeployment>, machines: seq<VSphereMachine>): nat {
    if mds == [] then 0
    else
      SumOfMachines(mds[..|mds| - 1], machines)
      + if mds[|mds| - 1].deleting then 0 else MachinesOf(machines, mds[|mds| - 1])
  }

  lemma {:induction false} CountOwnedNone(machines: seq<VSphereMachine>)
    ensures CountOwned(machines, {}) == 0
  {
    if machines != [] {
      CountOwnedNone(machines[..|machines| - 1]);
    }
  }

  /** The gate's count is the sum of the counts of the single MachineDeployments. */
  lemma {:induction false} CountIsSum(mds: seq<MachineDeployment>, machines: seq<VSphereMachine>)
    requires WellNamed(mds)
    ensures CountOwned(machines, LiveNames(mds)) == SumOfMachines(mds, machines)
  {
    if mds == [] {
      assert LiveNames(mds) == {};
      CountOwnedNone(machines);
    } else {
      var front, last := mds[..|mds| - 1], mds[|mds| - 1];
      assert mds == front + [last];
      CountIsSum(front, machines);
      if last.deleting {
        assert LiveNames(mds) == LiveNames(front);
      } else {
        assert LiveNames(mds) == LiveNames(front) + {last.name};
        LastNameIsNew(mds);
        CountSplits(machines, LiveNames(front), {last.name});
      }
    }
  }

  lemma LastNameIsNew(mds: seq<MachineDeployment>)
    requires WellNamed(mds) && mds != []
    ensures mds[|mds| - 1].name !in LiveNames(mds[..|mds| - 1])
  {
    var front := mds[..|mds| - 1];
    forall md | md in front ensures md.name != mds[|mds| - 1].name {
      var i :| 0 <= i < |front| && front[i] == md;
      assert mds[i] == md;
    }
  }

  /** Every live MachineDeployment has a machine for each of its replicas. */
  ghost predicate Covered(mds: seq<MachineDeployment>, machines: seq<VSphereMachine>) {
    forall i :: 0 <= i < |mds| && !mds[i].deleting ==>
      mds[i].replicas.Some? ==> mds[i].replicas.value <= MachinesOf(machines, mds[i])
  }

  function Excess(a: int, b: int): nat {
    if a > b then a - b else 0
  }

  /** How many machines the live MachineDeployments lack, added up over those that lack some. */
  function Shortage(mds: seq<MachineDeployment>, machines: seq<VSphereMachine>): nat {
    if mds == [] then 0
    else
      var last := mds[|mds| - 1];
      Shortage(mds[..|mds| - 1], machines) + if last.deleting then 0 else Excess(Replicas(last), MachinesOf(machines, last))
  }

  /** How many machines they have beyond their replicas, added up over those that have too many. */
  function Surplus(mds: seq<MachineDeployment>, machines: seq<VSphereMachine>): nat {
    if mds == [] then 0
    else
      var last := mds[|mds| - 1];
      Surplus(mds[..|mds| - 1], machines) + if last.deleting then 0 else Excess(MachinesOf(machines, last), Replicas(last))
  }

  /** The totals that the gate compares differ by surplus less shortage. */
  lemma {:induction false} TotalsBalance(mds: seq<MachineDeployment>, machines: seq<VSphereMachine>)
    ensures SumOfMachines(mds, machines) + Shortage(mds, machines) == ExpectedReplicas(mds) + Surplus(mds, machines)
  {
    if mds != [] {
      TotalsBalance(mds[..|mds| - 1], machines);
    }
  }

  lemma {:induction false} NoShortage(mds: seq<MachineDeployment>, machines: seq<VSphereMachine>)
    ensures Shortage(mds, machines) == 0 <==> Covered(mds, machines)
  {
    if mds != [] {
      var n := |mds| - 1;
      assert forall i :: 0 <= i < n ==> mds[..n][i] == mds[i];
      NoShortage(mds[..n], machines);
    }
  }

  /**
    What the aggregate gate says about the single MachineDeployments: it opens exactly when the surplus of some makes up
    for the shortage of others, and so it opens although one of them lacks machines exactly when that shortage is not
    zero.
   */
  lemma GateExact(mds: seq<MachineDeployment>, machines: seq<VSphereMachine>)
    requires WellNamed(mds)
    requires 0 <= ExpectedReplicas(mds) <= INT32_MAX && |machines| <= INT32_MAX
    ensures GateOpen(mds, machines) <==>
            && NobodyLeaves(mds, machines) && 0 < ExpectedReplicas(mds)
            && Shortage(mds, machines) <= Surplus(mds, machines)
    ensures GateOpen(mds, machines) && !Covered(mds, machines) <==>
            && NobodyLeaves(mds, machines) && 0 < ExpectedReplicas(mds)
            && 0 < Shortage(mds, machines) <= Surplus(mds, machines)
  {
    GateCounts(mds, machines);
    CountIsSum(mds, machines);
    TotalsBalance(mds, machines);
    NoShortage(mds, machines);
  }

  /** No live MachineDeployment has more machines than replicas. */
  ghost predicate NoSurge(mds: seq<MachineDeployment>, machines: seq<VSphereMachine>) {
    forall i :: 0 <= i < |mds| && !mds[i].deleting ==> MachinesOf(machines, mds[i]) <= Replicas(mds[i])
  }

  lemma {:induction false} NoSurplus(mds: seq<MachineDeployment>, machines: seq<VSphereMachine>)
    ensures Surplus(mds, machines) == 0 <==> NoSurge(mds, machines)
  {
    if mds != [] {
      var n := |mds| - 1;
      assert forall i :: 0 <= i < n ==> mds[..n][i] == mds[i];
      NoSurplus(mds[..n], machines);
    }
  }

  /** Without surge the gate opens precisely when every live MachineDeployment has all its machines. */
  lemma GateWithoutSurge(mds: seq<MachineDeployment>, machines: seq<VSphereMachine>)
    requires WellNamed(mds) && NoSurge(mds, machines)
    requires 0 <= ExpectedReplicas(mds) <= INT32_MAX && |machines| <= INT32_MAX
    ensures GateOpen(mds, machines) <==>
            NobodyLeaves(mds, machines) && 0 < ExpectedReplicas(mds) && Covered(mds, machines)
  {
    GateExact(mds, machines);
    NoSurplus(mds, machines);
    NoShortage(mds, machines);
  }

  /** The smallest input that opens the gate too early: two machines of one MachineDeployment stand in for another that has none. */
  lemma SurgeHidesShortage(namingA: string, namingB: string)
    ensures var mds := [MachineDeployment("a", false, Some(1), ""), MachineDeployment("b", false, Some(1), "")];
            var machines := [VSphereMachine("a-1", namingA, false, "a"), VSphereMachine("a-2", namingB, false, "a")];
            GateOpen(mds, machines) && MachinesOf(machines, mds[1]) == 0 && Replicas(mds[1]) == 1
  {
    var a, b := MachineDeployment("a", false, Some(1), ""), MachineDeployment("b", false, Some(1), "");
    var x, y := VSphereMachine("a-1", namingA, false, "a"), VSphereMachine("a-2", namingB, false, "a");
    var mds, machines := [a, b], [x, y];
    assert mds[..1] == [a] && [a][..0] == [];
    assert machines[..1] == [x] && [x][..0] == [];
    assert ExpectedReplicas([a]) == 1 && ExpectedReplicas(mds) == 2;
    assert a in mds;
    assert "a" in LiveNames(mds);
    assert CountOwned([x], LiveNames(mds)) == 1;
    assert CountOwned(machines, LiveNames(mds)) == 2;
    assert CountOwned([x], {"b"}) == 0;
  }
}
