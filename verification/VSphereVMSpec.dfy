/**
  The VSphereVM that a VSphereMachine asks for: the mutation that `CreateOrPatch` applies on every reconcile, with the
  overrides of a failure domain and the merges of network devices. Zone and failure domain are read before; when one of
  them cannot be read there is no override.
 */
module VSphereVMSpec {
  import opened Common
  import opened OwnerReferences

  const CONTROL_PLANE_LABEL := "cluster.x-k8s.io/control-plane"

  // ---------------------------------------------------------------------------------------------
  // Network devices
  // ---------------------------------------------------------------------------------------------

  /** `rest` stands for the fields of a device that no override touches. */
  datatype NetworkDevice = NetworkDevice(
    networkName: string, dhcp4: Option<bool>, dhcp6: Option<bool>, nameservers: seq<string>, searchDomains: seq<string>,
    dhcp4Overrides: Option<string>, dhcp6Overrides: Option<string>, pools: seq<string>, rest: string)

  datatype NetworkConfiguration = NetworkConfiguration(
    networkName: string, dhcp4: Option<bool>, dhcp6: Option<bool>, nameservers: seq<string>, searchDomains: seq<string>,
    dhcp4Overrides: Option<string>, dhcp6Overrides: Option<string>, pools: seq<string>)

  const EMPTY_DEVICE := NetworkDevice("", None, None, [], [], None, None, [], "")

  function MergeNetworkName(device: NetworkDevice, network: string): NetworkDevice {
    device.(networkName := network)
  }

  function OrSeq<T>(s: seq<T>, t: seq<T>): seq<T> {
    if |s| > 0 then s else t
  }

  function OrOption<T>(a: Option<T>, b: Option<T>): Option<T> {
    if a.Some? then a else b
  }

  function MergeConfiguration(device: NetworkDevice, nc: NetworkConfiguration): NetworkDevice {
    NetworkDevice(
      OrSeq(nc.networkName, device.networkName),
      OrOption(nc.dhcp4, device.dhcp4), OrOption(nc.dhcp6, device.dhcp6),
      OrSeq(nc.nameservers, device.nameservers), OrSeq(nc.searchDomains, device.searchDomains),
      OrOption(nc.dhcp4Overrides, device.dhcp4Overrides), OrOption(nc.dhcp6Overrides, device.dhcp6Overrides),
      OrSeq(nc.pools, device.pools), device.rest)
  }

  type Merge<!T> = (NetworkDevice, T) -> NetworkDevice

  /** A device past the end of the list is an empty one. */
  function DeviceAt(devices: seq<NetworkDevice>, i: nat): NetworkDevice {
    if i < |devices| then devices[i] else EMPTY_DEVICE
  }

  function Max(a: nat, b: nat): nat {
    if a < b then b else a
  }

  /** The device at each position, merged with the definition at the same position. */
  function MergedAt<T>(devices: seq<NetworkDevice>, networks: seq<T>, merge: Merge<T>, i: nat): NetworkDevice {
    if i < |networks| then merge(DeviceAt(devices, i), networks[i]) else DeviceAt(devices, i)
  }

  function Overridden<T>(devices: seq<NetworkDevice>, networks: seq<T>, merge: Merge<T>): seq<NetworkDevice> {
    seq(Max(|devices|, |networks|), i requires 0 <= i => MergedAt(devices, networks, merge, i))
  }

  /** Both loops: definitions are merged by position, and those left over are appended as new devices. */
  method OverrideNetworkDeviceSpecs<T>(deviceSpecs: seq<NetworkDevice>, networks: seq<T>, merge: Merge<T>)
    returns (devices: seq<NetworkDevice>)
    ensures |devices| == Max(|deviceSpecs|, |networks|)
    ensures forall i :: 0 <= i < |devices| ==> devices[i] == MergedAt(deviceSpecs, networks, merge, i)
  {
    var index := 0;
    devices := [];
    for i := 0 to |deviceSpecs|
      invariant index == (if i < |networks| then i else |networks|) && |devices| == i
      invariant forall k :: 0 <= k < i ==> devices[k] == MergedAt(deviceSpecs, networks, merge, k)
    {
      var device := deviceSpecs[i];
      if i < |networks| {
        index := index + 1;
        device := merge(device, networks[i]);
      }
      devices := devices + [device];
    }
    while index < |networks|
      invariant index <= |networks| && |devices| == Max(|deviceSpecs|, index)
      invariant index < |networks| ==> |devices| == index
      invariant forall k :: 0 <= k < |devices| ==> devices[k] == MergedAt(deviceSpecs, networks, merge, k)
    {
      devices := devices + [merge(EMPTY_DEVICE, networks[index])];
      index := index + 1;
    }
  }

  /** The devices after the networks and then the network configurations of a failure domain. */
  function DomainDevices(devices: seq<NetworkDevice>, fd: DomainOverride): seq<NetworkDevice> {
    Overridden(Overridden(devices, fd.networks, MergeNetworkName), fd.configurations, MergeConfiguration)
  }

  /** What both overrides make of the device at one position. */
  function DomainDeviceAt(device: NetworkDevice, fd: DomainOverride, i: nat): NetworkDevice {
    var named := if i < |fd.networks| then MergeNetworkName(device, fd.networks[i]) else device;
    if i < |fd.configurations| then MergeConfiguration(named, fd.configurations[i]) else named
  }

  /** Position by position, with as many devices as the longest of the three lists. */
  lemma DomainDevicesExact(devices: seq<NetworkDevice>, fd: DomainOverride)
    ensures var r := DomainDevices(devices, fd);
            && |r| == Max(Max(|devices|, |fd.networks|), |fd.configurations|)
            && forall i :: 0 <= i < |r| ==> r[i] == DomainDeviceAt(DeviceAt(devices, i), fd, i)
  {
    var named := Overridden(devices, fd.networks, MergeNetworkName);
    var r := DomainDevices(devices, fd);
    forall i | 0 <= i < |r| ensures r[i] == DomainDeviceAt(DeviceAt(devices, i), fd, i) {
      assert DeviceAt(named, i) == MergedAt(devices, fd.networks, MergeNetworkName, i);
      assert r[i] == MergedAt(named, fd.configurations, MergeConfiguration, i);
    }
  }

  /** The definition at position `i`, or one that sets nothing. */
  function ConfigurationAt(fd: DomainOverride, i: nat): NetworkConfiguration {
    if i < |fd.configurations| then fd.configurations[i] else NetworkConfiguration("", None, None, [], [], None, None, [])
  }

  /** A configuration wins over a network name, which wins over the device; a device keeps what neither sets. */
  lemma DevicePrecedence(devices: seq<NetworkDevice>, fd: DomainOverride, i: nat)
    requires i < |DomainDevices(devices, fd)|
    ensures var r, nc, device := DomainDevices(devices, fd)[i], ConfigurationAt(fd, i), DeviceAt(devices, i);
            && r.networkName == OrSeq(nc.networkName, if i < |fd.networks| then fd.networks[i] else device.networkName)
            && r.dhcp4 == OrOption(nc.dhcp4, device.dhcp4) && r.dhcp6 == OrOption(nc.dhcp6, device.dhcp6)
            && r.dhcp4Overrides == OrOption(nc.dhcp4Overrides, device.dhcp4Overrides)
            && r.dhcp6Overrides == OrOption(nc.dhcp6Overrides, device.dhcp6Overrides)
            && r.nameservers == OrSeq(nc.nameservers, device.nameservers)
            && r.searchDomains == OrSeq(nc.searchDomains, device.searchDomains)
            && r.pools == OrSeq(nc.pools, device.pools) && r.rest == device.rest
  {
    DomainDevicesExact(devices, fd);
  }

  /** Overriding devices that are already overridden changes nothing, although the two overrides compete for the name. */
  lemma DomainDevicesIdempotent(devices: seq<NetworkDevice>, fd: DomainOverride)
    ensures DomainDevices(DomainDevices(devices, fd), fd) == DomainDevices(devices, fd)
  {
    var once := DomainDevices(devices, fd);
    var twice := DomainDevices(once, fd);
    DomainDevicesExact(devices, fd);
    DomainDevicesExact(once, fd);
    forall i | 0 <= i < |once| ensures twice[i] == once[i] {
      assert once[i] == DomainDeviceAt(DeviceAt(devices, i), fd, i);
      assert twice[i] == DomainDeviceAt(once[i], fd, i);
      DeviceAgain(DeviceAt(devices, i), fd, i);
    }
  }

  lemma DeviceAgain(device: NetworkDevice, fd: DomainOverride, i: nat)
    ensures DomainDeviceAt(DomainDeviceAt(device, fd, i), fd, i) == DomainDeviceAt(device, fd, i)
  {
  }

  // ---------------------------------------------------------------------------------------------
  // The VSphereVM
  // ---------------------------------------------------------------------------------------------

  /** `rest` stands for the fields of the clone spec that are only copied. */
  datatype CloneSpec = CloneSpec(
    server: string, thumbprint: string, datacenter: string, folder: string, datastore: string, resourcePool: string,
    devices: seq<NetworkDevice>, rest: string)

  /** What the deployment zone and its failure domain set. */
  datatype DomainOverride = DomainOverride(
    server: string, folder: string, resourcePool: string, datacenter: string, datastore: string,
    networks: seq<string>, configurations: seq<NetworkConfiguration>)

  /** Everything a reconcile reads besides the VSphereVM; `foundUUID` is the BIOS UUID of the VSphereVM found before. */
  datatype Inputs = Inputs(
    machineName: string, machineUid: string, machineLabels: map<string, string>, dataSecret: string,
    clone: CloneSpec, powerOffMode: string, powerOffTimeout: int,
    clusterServer: string, clusterThumbprint: string, failureDomain: Option<DomainOverride>, foundUUID: Option<string>)

  datatype VM = VM(
    owners: seq<OwnerReference>, labels: map<string, string>, clone: CloneSpec, dataSecret: string, biosUUID: string,
    powerOffMode: string, powerOffTimeout: int)

  function MachineReference(inputs: Inputs): OwnerReference {
    InfrastructureReference("VSphereMachine", inputs.machineName, inputs.machineUid)
  }

  function WithDomain(clone: CloneSpec, fd: DomainOverride): CloneSpec {
    clone.(server := fd.server, datacenter := fd.datacenter,
           folder := OrSeq(fd.folder, clone.folder), resourcePool := OrSeq(fd.resourcePool, clone.resourcePool),
           datastore := OrSeq(fd.datastore, clone.datastore), devices := DomainDevices(clone.devices, fd))
  }

  /** Failure domain over VSphereMachine over VSphereCluster. */
  function DesiredClone(inputs: Inputs): CloneSpec {
    var clone := if inputs.failureDomain.Some? then WithDomain(inputs.clone, inputs.failureDomain.value) else inputs.clone;
    clone.(server := OrSeq(clone.server, inputs.clusterServer), thumbprint := OrSeq(clone.thumbprint, inputs.clusterThumbprint))
  }

  function DesiredLabels(labels: map<string, string>, inputs: Inputs): map<string, string> {
    var named := labels[CLUSTER_NAME_LABEL := Lookup(inputs.machineLabels, CLUSTER_NAME_LABEL)];
    if CONTROL_PLANE_LABEL in inputs.machineLabels
    then named[CONTROL_PLANE_LABEL := inputs.machineLabels[CONTROL_PLANE_LABEL]] else named
  }

  function Mutated(vm: VM, inputs: Inputs): VM {
    VM(Ensure(vm.owners, MachineReference(inputs)), DesiredLabels(vm.labels, inputs), DesiredClone(inputs), inputs.dataSecret,
       if inputs.foundUUID.Some? then inputs.foundUUID.value else vm.biosUUID, inputs.powerOffMode, inputs.powerOffTimeout)
  }

  class VSphereVM {
    var owners: seq<OwnerReference>
    var labels: map<string, string>
    var clone: CloneSpec
    var dataSecret: string
    var biosUUID: string
    var powerOffMode: string
    var powerOffTimeout: int

    function View(): VM reads this {
      VM(owners, labels, clone, dataSecret, biosUUID, powerOffMode, powerOffTimeout)
    }

    method Mutate(inputs: Inputs)
      modifies this
      ensures View() == Mutated(old(View()), inputs)
    {
      owners := Ensure(owners, MachineReference(inputs));
      dataSecret := inputs.dataSecret;
      labels := labels[CLUSTER_NAME_LABEL := Lookup(inputs.machineLabels, CLUSTER_NAME_LABEL)];
      if CONTROL_PLANE_LABEL in inputs.machineLabels {
        labels := labels[CONTROL_PLANE_LABEL := inputs.machineLabels[CONTROL_PLANE_LABEL]];
      }
      clone := inputs.clone;
      if inputs.failureDomain.Some? {
        OverrideWithFailureDomain(inputs.failureDomain.value);
      }
      if clone.server == "" {
        clone := clone.(server := inputs.clusterServer);
      }
      if clone.thumbprint == "" {
        clone := clone.(thumbprint := inputs.clusterThumbprint);
      }
      assert clone == DesiredClone(inputs);
      if inputs.foundUUID.Some? {
        biosUUID := inputs.foundUUID.value;
      }
      powerOffMode := inputs.powerOffMode;
      powerOffTimeout := inputs.powerOffTimeout;
    }

    /** An empty list of networks or configurations skips its loops, which would change nothing. */
    method OverrideWithFailureDomain(fd: DomainOverride)
      modifies this`clone
      ensures clone == WithDomain(old(clone), fd)
    {
      clone := clone.(server := fd.server, datacenter := fd.datacenter);
      if fd.folder != "" {
        clone := clone.(folder := fd.folder);
      }
      if fd.resourcePool != "" {
        clone := clone.(resourcePool := fd.resourcePool);
      }
      if fd.datastore != "" {
        clone := clone.(datastore := fd.datastore);
      }
      var devices := clone.devices;
      if |fd.networks| > 0 {
        devices := OverrideNetworkDeviceSpecs(devices, fd.networks, MergeNetworkName);
      }
      assert devices == Overridden(clone.devices, fd.networks, MergeNetworkName);
      if |fd.configurations| > 0 {
        devices := OverrideNetworkDeviceSpecs(devices, fd.configurations, MergeConfiguration);
      }
      assert devices == DomainDevices(clone.devices, fd);
      clone := clone.(devices := devices);
    }
  }

  /**
    Fixpoint: a reconcile that finds the inputs as they were, and the VSphereVM as its last mutation left it or not at all
    in its first read, asks for no change.
   */
  lemma MutateSettled(vm: VM, inputs: Inputs, found: Option<string>)
    requires var once := Mutated(vm, inputs); found == None || found == Some(once.biosUUID)
    ensures var once := Mutated(vm, inputs); Mutated(once, inputs.(foundUUID := found)) == once
  {
    InfrastructureGroup("VSphereMachine", inputs.machineName, inputs.machineUid);
    EnsureIdempotent(vm.owners, MachineReference(inputs));
  }

  /** Overriding again on top of the stored clone spec would give the same, so the copy is not what makes it settle. */
  lemma WithDomainIdempotent(clone: CloneSpec, fd: DomainOverride)
    ensures WithDomain(WithDomain(clone, fd), fd) == WithDomain(clone, fd)
  {
    DomainDevicesIdempotent(clone.devices, fd);
  }

  /** The server of the zone, if there is a failure domain. */
  function ZoneServer(inputs: Inputs): string {
    if inputs.failureDomain.Some? then inputs.failureDomain.value.server else ""
  }

  /**
    The documented order of servers is zone, VSphereMachine, VSphereCluster. The code follows it exactly unless a zone
    without a server hides that of the machine.
   */
  lemma ServerPrecedence(inputs: Inputs)
    ensures DesiredClone(inputs).server == OrSeq(ZoneServer(inputs), OrSeq(inputs.clone.server, inputs.clusterServer)) <==>
            !(&& inputs.failureDomain.Some? && ZoneServer(inputs) == ""
              && inputs.clone.server != "" && inputs.clone.server != inputs.clusterServer)
  {
  }

  /**
    The other fields of the clone spec: folder, resource pool and datastore come from the failure domain where it sets them,
    the datacenter from any failure domain, the thumbprint from the VSphereMachine before the VSphereCluster.
   */
  lemma ClonePrecedence(inputs: Inputs)
    ensures var r, machine := DesiredClone(inputs), inputs.clone;
            && (match inputs.failureDomain
                case None =>
                  && r.folder == machine.folder && r.resourcePool == machine.resourcePool && r.datastore == machine.datastore
                  && r.datacenter == machine.datacenter && r.devices == machine.devices
                case Some(fd) =>
                  && r.folder == (if fd.folder != "" then fd.folder else machine.folder)
                  && r.resourcePool == (if fd.resourcePool != "" then fd.resourcePool else machine.resourcePool)
                  && r.datastore == (if fd.datastore != "" then fd.datastore else machine.datastore)
                  && r.datacenter == fd.datacenter && r.devices == DomainDevices(machine.devices, fd))
            && r.thumbprint == (if machine.thumbprint != "" then machine.thumbprint else inputs.clusterThumbprint)
            && r.rest == machine.rest
  {
  }

  /**
    Besides the clone spec, a mutation writes the owner reference with the machine's uid, the two labels and the fields
    copied from the machine; other owners, other labels and, unless one was found, the BIOS UUID are kept.
   */
  lemma MutatedFields(vm: VM, inputs: Inputs)
    ensures var r := Mutated(vm, inputs);
            var ref := OwnerReference(INFRASTRUCTURE_GROUP + "/" + "v1beta2", "VSphereMachine", inputs.machineName, inputs.machineUid, false);
            && ref in r.owners
            && (forall o :: o in vm.owners && !SameObject(o, ref) ==> o in r.owners)
            && (forall o :: o in r.owners ==> o == ref || o in vm.owners)
            && Lookup(r.labels, CLUSTER_NAME_LABEL) == Lookup(inputs.machineLabels, CLUSTER_NAME_LABEL)
            && (CONTROL_PLANE_LABEL in inputs.machineLabels ==>
                  CONTROL_PLANE_LABEL in r.labels && r.labels[CONTROL_PLANE_LABEL] == inputs.machineLabels[CONTROL_PLANE_LABEL])
            && (forall key :: key != CLUSTER_NAME_LABEL && (key != CONTROL_PLANE_LABEL || key !in inputs.machineLabels) ==>
                  && (key in r.labels <==> key in vm.labels)
                  && (key in r.labels ==> r.labels[key] == vm.labels[key]))
            && r.biosUUID == (match inputs.foundUUID case Some(uuid) => uuid case None => vm.biosUUID)
            && r.dataSecret == inputs.dataSecret
            && r.powerOffMode == inputs.powerOffMode && r.powerOffTimeout == inputs.powerOffTimeout
  {
    EnsureWrites(vm.owners, MachineReference(inputs));
  }

  /** A zone without a server: the VSphereMachine asks for one server and gets that of the VSphereCluster. */
  lemma ZoneHidesServer(inputs: Inputs)
    requires inputs.clone.server == "machine" && inputs.clusterServer == "cluster"
    requires inputs.failureDomain == Some(DomainOverride("", "", "", "dc", "", [], []))
    ensures DesiredClone(inputs).server == "cluster"
  {
  }
}
