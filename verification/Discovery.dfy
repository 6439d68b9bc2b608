/** Device discovery: the loop that turns the list of NVIDIA PCI devices into the two indexes every other
    component reads, and the stable group-by those indexes amount to. */
module Discovery {
  import opened Sequences
  import opened Text

  const PCI_VGA_CONTROLLER_CLASS := 0x030000
  const PCI_3D_CONTROLLER_CLASS := 0x030200
  const PCI_NVSWITCH_CLASS := 0x068000

  /** A device as the index keeps it. */
  datatype NvDevice = NvDevice(
    address: string, deviceID: UInt16, deviceName: string, iommuGroup: GoInt, iommuFD: string, isNVSwitch: bool)

  /** A device as the PCI scan reports it. */
  datatype PciDevice = PciDevice(
    address: string, pciClass: nat, device: UInt16, deviceName: string, driver: string,
    iommuGroup: GoInt, iommuFD: string)
  {
    predicate IsGPU() {
      pciClass == PCI_VGA_CONTROLLER_CLASS || pciClass == PCI_3D_CONTROLLER_CLASS
    }

    predicate IsNVSwitch() {
      pciClass == PCI_NVSWITCH_CLASS
    }

    predicate Eligible() {
      (IsGPU() || IsNVSwitch()) && driver == "vfio-pci"
    }

    /** The handle without its prefix where IOMMUFD is in use and the device has one, else the group number. */
    function Key(iommufd: bool): string {
      if iommufd && iommuFD != "" then TrimPrefix(iommuFD, "vfio") else Itoa(iommuGroup)
    }

    function Id(): string {
      Hex4(device)
    }

    function Record(): NvDevice {
      NvDevice(address, device, deviceName, iommuGroup, iommuFD, IsNVSwitch())
    }
  }

  /** The three package-level indexes. */
  datatype Index = Index(
    iommuMap: map<string, seq<NvDevice>>, deviceMap: map<string, seq<string>>, nvSwitchDeviceIDs: set<string>)

  const EMPTY_INDEX := Index(map[], map[], {})

  // ---------------------------------------------------------------- the group-by

  /** Position i holds an eligible device with key k. */
  predicate HasKey(fd: bool, devs: seq<PciDevice>, i: nat, k: string) {
    i < |devs| && devs[i].Eligible() && devs[i].Key(fd) == k
  }

  predicate Occurs(fd: bool, devs: seq<PciDevice>, k: string) {
    exists i | 0 <= i < |devs| :: HasKey(fd, devs, i, k)
  }

  /** The first device with key k is at position i. */
  ghost predicate FirstAt(fd: bool, devs: seq<PciDevice>, k: string, i: nat) {
    HasKey(fd, devs, i, k) && forall j | 0 <= j < i :: !HasKey(fd, devs, j, k)
  }

  function EligibleDevices(devs: seq<PciDevice>): seq<PciDevice> {
    if devs == [] then [] else
      var last := devs[|devs| - 1];
      EligibleDevices(devs[..|devs| - 1]) + if last.Eligible() then [last] else []
  }

  /** The eligible devices with key k, in input order. */
  function Bucket(fd: bool, devs: seq<PciDevice>, k: string): seq<NvDevice> {
    if devs == [] then [] else
      var last := devs[|devs| - 1];
      Bucket(fd, devs[..|devs| - 1], k) + if last.Eligible() && last.Key(fd) == k then [last.Record()] else []
  }

  /** The keys first seen on a device with the given id, in order of first appearance. */
  function KeysFor(fd: bool, devs: seq<PciDevice>, id: string): seq<string> {
    if devs == [] then [] else
      var init, last := devs[..|devs| - 1], devs[|devs| - 1];
      KeysFor(fd, init, id)
      + if last.Eligible() && last.Id() == id && !Occurs(fd, init, last.Key(fd)) then [last.Key(fd)] else []
  }

  predicate SwitchWithId(devs: seq<PciDevice>, i: nat, id: string) {
    i < |devs| && devs[i].Eligible() && devs[i].IsNVSwitch() && devs[i].Id() == id
  }

  ghost predicate SpecifiedBy(ix: Index, fd: bool, devs: seq<PciDevice>) {
    && (forall k :: k in ix.iommuMap <==> Occurs(fd, devs, k))
    && (forall k | k in ix.iommuMap :: ix.iommuMap[k] == Bucket(fd, devs, k))
    && (forall id :: id in ix.deviceMap <==> KeysFor(fd, devs, id) != [])
    && (forall id | id in ix.deviceMap :: ix.deviceMap[id] == KeysFor(fd, devs, id))
    && (forall id :: id in ix.nvSwitchDeviceIDs <==>
                     exists i | 0 <= i < |devs| :: SwitchWithId(devs, i, id))
  }

  // ---------------------------------------------------------------- the loop

  function AppendAt<V>(m: map<string, seq<V>>, k: string, v: V): map<string, seq<V>> {
    m[k := (if k in m then m[k] else []) + [v]]
  }

  /** The effect of one eligible or ineligible device on the indexes. */
  function AfterDevice(ix: Index, fd: bool, dev: PciDevice): Index {
    if !dev.Eligible() then ix
    else Index(
      AppendAt(ix.iommuMap, dev.Key(fd), dev.Record()),
      if dev.Key(fd) in ix.iommuMap then ix.deviceMap else AppendAt(ix.deviceMap, dev.Id(), dev.Key(fd)),
      if dev.IsNVSwitch() then ix.nvSwitchDeviceIDs + {dev.Id()} else ix.nvSwitchDeviceIDs)
  }

  lemma OccursSnoc(fd: bool, devs: seq<PciDevice>, dev: PciDevice, k: string)
    ensures Occurs(fd, devs + [dev], k) <==> Occurs(fd, devs, k) || (dev.Eligible() && dev.Key(fd) == k)
  {
    var all := devs + [dev];
    if Occurs(fd, devs, k) {
      var i :| 0 <= i < |devs| && HasKey(fd, devs, i, k);
      assert HasKey(fd, all, i, k);
    }
    if dev.Eligible() && dev.Key(fd) == k {
      assert HasKey(fd, all, |devs|, k);
    }
    if Occurs(fd, all, k) {
      var i :| 0 <= i < |all| && HasKey(fd, all, i, k);
      assert i < |devs| ==> HasKey(fd, devs, i, k);
    }
  }

  lemma BucketSnoc(fd: bool, devs: seq<PciDevice>, dev: PciDevice, k: string)
    ensures Bucket(fd, devs + [dev], k)
         == Bucket(fd, devs, k) + if dev.Eligible() && dev.Key(fd) == k then [dev.Record()] else []
  {
    assert (devs + [dev])[..|devs|] == devs;
  }

  lemma KeysForSnoc(fd: bool, devs: seq<PciDevice>, dev: PciDevice, id: string)
    ensures KeysFor(fd, devs + [dev], id)
         == KeysFor(fd, devs, id)
            + if dev.Eligible() && dev.Id() == id && !Occurs(fd, devs, dev.Key(fd)) then [dev.Key(fd)] else []
  {
    assert (devs + [dev])[..|devs|] == devs;
  }

  lemma {:induction false} BucketNonEmpty(fd: bool, devs: seq<PciDevice>, k: string)
    ensures Bucket(fd, devs, k) != [] <==> Occurs(fd, devs, k)
  {
    if devs != [] {
      var init, last := devs[..|devs| - 1], devs[|devs| - 1];
      BucketNonEmpty(fd, init, k);
      OccursSnoc(fd, init, last, k);
      assert devs == init + [last];
    }
  }

  lemma SwitchIdsSnoc(ix: Index, fd: bool, devs: seq<PciDevice>, dev: PciDevice)
    requires SpecifiedBy(ix, fd, devs)
    ensures forall id :: id in AfterDevice(ix, fd, dev).nvSwitchDeviceIDs
                    <==> exists i | 0 <= i < |devs| + 1 :: SwitchWithId(devs + [dev], i, id)
  {
    var all := devs + [dev];
    forall id ensures id in AfterDevice(ix, fd, dev).nvSwitchDeviceIDs
                 <==> exists i | 0 <= i < |all| :: SwitchWithId(all, i, id) {
      if i :| 0 <= i < |devs| && SwitchWithId(devs, i, id) {
        assert SwitchWithId(all, i, id);
      }
      if dev.Eligible() && dev.IsNVSwitch() && dev.Id() == id {
        assert SwitchWithId(all, |devs|, id);
      }
      if i :| 0 <= i < |all| && SwitchWithId(all, i, id) {
        assert i < |devs| ==> SwitchWithId(devs, i, id);
      }
    }
  }

  lemma StepSpecified(ix: Index, fd: bool, devs: seq<PciDevice>, dev: PciDevice)
    requires SpecifiedBy(ix, fd, devs)
    ensures SpecifiedBy(AfterDevice(ix, fd, dev), fd, devs + [dev])
  {
    var after, all := AfterDevice(ix, fd, dev), devs + [dev];
    forall k ensures k in after.iommuMap <==> Occurs(fd, all, k)
             ensures k in after.iommuMap ==> after.iommuMap[k] == Bucket(fd, all, k) {
      OccursSnoc(fd, devs, dev, k);
      BucketSnoc(fd, devs, dev, k);
      BucketNonEmpty(fd, devs, k);
    }
    forall id ensures id in after.deviceMap <==> KeysFor(fd, all, id) != []
              ensures id in after.deviceMap ==> after.deviceMap[id] == KeysFor(fd, all, id) {
      KeysForSnoc(fd, devs, dev, id);
    }
    SwitchIdsSnoc(ix, fd, devs, dev);
  }

  class Registry {
    var iommuMap: map<string, seq<NvDevice>>
    var deviceMap: map<string, seq<string>>
    var nvSwitchDeviceIDs: set<string>

    ghost function View(): Index
      reads this
    {
      Index(iommuMap, deviceMap, nvSwitchDeviceIDs)
    }

    constructor ()
      ensures View() == EMPTY_INDEX
    {
      iommuMap, deviceMap, nvSwitchDeviceIDs := map[], map[], {};
    }

    /** The body of the loop: one device of the scan. */
    method AddDevice(fd: bool, dev: PciDevice)
      modifies this
      ensures View() == AfterDevice(old(View()), fd, dev)
    {
      if !dev.Eligible() {
        return;
      }
      var iommuKey := dev.Key(fd);
      var deviceID := dev.Id();
      if iommuKey !in iommuMap {
        deviceMap := deviceMap[deviceID := (if deviceID in deviceMap then deviceMap[deviceID] else []) + [iommuKey]];
      }
      if dev.IsNVSwitch() {
        nvSwitchDeviceIDs := nvSwitchDeviceIDs + {deviceID};
      }
      iommuMap := iommuMap[iommuKey := (if iommuKey in iommuMap then iommuMap[iommuKey] else []) + [dev.Record()]];
    }

    /** A failed IOMMUFD probe leaves the indexes alone; a failed scan leaves them empty. */
    method CreateIommuDeviceMap(probe: Result<bool, string>, scan: Result<seq<PciDevice>, string>)
      modifies this
      ensures probe.Err? ==> View() == old(View())
      ensures probe.Ok? && scan.Err? ==> View() == EMPTY_INDEX
      ensures probe.Ok? && scan.Ok? ==> SpecifiedBy(View(), probe.value, scan.value)
    {
      if probe.Err? {
        return;
      }
      iommuMap, deviceMap, nvSwitchDeviceIDs := map[], map[], {};
      if scan.Err? {
        return;
      }
      var fd, devices := probe.value, scan.value;
      for n := 0 to |devices|
        invariant SpecifiedBy(View(), fd, devices[..n])
      {
        var dev := devices[n];
        StepSpecified(View(), fd, devices[..n], dev);
        AddDevice(fd, dev);
        assert devices[..n + 1] == devices[..n] + [dev];
      }
      assert devices[..|devices|] == devices;
    }
  }

  // ---------------------------------------------------------------- what the group-by guarantees

  lemma {:induction false} FirstExists(fd: bool, devs: seq<PciDevice>, k: string, i: nat) returns (first: nat)
    requires HasKey(fd, devs, i, k)
    ensures first <= i && FirstAt(fd, devs, k, first)
  {
    first := i;
    if j :| 0 <= j < i && HasKey(fd, devs, j, k) {
      first := FirstExists(fd, devs, k, j);
    }
  }

  /** A key is listed under an id exactly when the first device with that key has that id. */
  lemma {:induction false} ListedUnderFirstId(fd: bool, devs: seq<PciDevice>, id: string, k: string)
    ensures k in KeysFor(fd, devs, id) <==> exists i | 0 <= i < |devs| :: FirstAt(fd, devs, k, i) && devs[i].Id() == id
  {
    if devs != [] {
      var init, last := devs[..|devs| - 1], devs[|devs| - 1];
      ListedUnderFirstId(fd, init, id, k);
      assert forall j | 0 <= j < |init| :: HasKey(fd, init, j, k) == HasKey(fd, devs, j, k);
      assert forall i | 0 <= i < |init| :: FirstAt(fd, init, k, i) == FirstAt(fd, devs, k, i);
      if last.Eligible() && last.Id() == id && !Occurs(fd, init, last.Key(fd)) && last.Key(fd) == k {
        assert FirstAt(fd, devs, k, |init|);
      }
      if i :| 0 <= i < |devs| && FirstAt(fd, devs, k, i) && devs[i].Id() == id && i == |init| {
        assert !Occurs(fd, init, k);
      }
    }
  }

  /** Bound to vfio-pci, and of a class the plugin serves. */
  predicate Considered(d: PciDevice) {
    d.driver == "vfio-pci" && d.pciClass in {0x030000, 0x030200, 0x068000}
  }

  /** The record is that of a GPU or an NVSwitch bound to vfio-pci. */
  predicate Recorded(d: PciDevice, r: NvDevice) {
    && Considered(d)
    && r.address == d.address && r.deviceID == d.device && r.deviceName == d.deviceName
    && r.iommuGroup == d.iommuGroup && r.iommuFD == d.iommuFD && (r.isNVSwitch <==> d.pciClass == 0x068000)
  }

  predicate Prefixed(handle: string) {
    HasPrefix(handle, "vfio")
  }

  /** What a device is filed under: its handle without the driver's prefix, or else its group in decimal. */
  predicate FiledUnder(fd: bool, d: PciDevice, k: string) {
    if fd && d.iommuFD != "" then k == (if Prefixed(d.iommuFD) then d.iommuFD[4..] else d.iommuFD)
    else k == Itoa(d.iommuGroup)
  }

  /** A bucket holds the records of the devices filed under its key, each once, in the order of the scan. */
  lemma {:induction false} BucketInScanOrder(fd: bool, devs: seq<PciDevice>, k: string) returns (at: seq<nat>)
    ensures |at| == |Bucket(fd, devs, k)| && forall m, n | 0 <= m < n < |at| :: at[m] < at[n]
    ensures forall n | 0 <= n < |at| :: at[n] < |devs| && Recorded(devs[at[n]], Bucket(fd, devs, k)[n])
    ensures forall i | 0 <= i < |devs| :: i in at <==> Considered(devs[i]) && FiledUnder(fd, devs[i], k)
  {
    at := [];
    if devs != [] {
      var n := |devs| - 1;
      at := BucketInScanOrder(fd, devs[..n], k);
      assert devs[n].Eligible() && devs[n].Key(fd) == k <==> Considered(devs[n]) && FiledUnder(fd, devs[n], k);
      if devs[n].Eligible() && devs[n].Key(fd) == k {
        at := at + [n];
      }
    }
  }

  /** The keys of one id are listed in order of first appearance, so none is listed twice. */
  lemma {:induction false} ListedInOrder(fd: bool, devs: seq<PciDevice>, id: string, a: nat, b: nat, p: nat, q: nat)
    requires a < b < |KeysFor(fd, devs, id)|
    requires FirstAt(fd, devs, KeysFor(fd, devs, id)[a], p)
    requires FirstAt(fd, devs, KeysFor(fd, devs, id)[b], q)
    ensures p < q
    decreases |devs|
  {
    var init := devs[..|devs| - 1];
    var keys, earlier := KeysFor(fd, devs, id), KeysFor(fd, init, id);
    assert forall k, j | 0 <= j < |init| :: HasKey(fd, init, j, k) == HasKey(fd, devs, j, k);
    assert keys[a] in earlier;
    ListedUnderFirstId(fd, init, id, keys[a]);
    var p' :| 0 <= p' < |init| && FirstAt(fd, init, keys[a], p');
    assert p' == p;
    if b < |earlier| {
      assert keys[b] in earlier;
      ListedUnderFirstId(fd, init, id, keys[b]);
      var q' :| 0 <= q' < |init| && FirstAt(fd, init, keys[b], q');
      assert q' == q;
      ListedInOrder(fd, init, id, a, b, p, q);
    } else {
      var k := keys[b];
      assert forall j | 0 <= j < |init| :: !HasKey(fd, init, j, k);
    }
  }

  lemma KeysForNoDup(fd: bool, devs: seq<PciDevice>, id: string)
    ensures NoDup(KeysFor(fd, devs, id))
  {
    var keys := KeysFor(fd, devs, id);
    forall a, b | 0 <= a < b < |keys| ensures keys[a] != keys[b] {
      if keys[a] == keys[b] {
        assert keys[a] in keys;
        ListedUnderFirstId(fd, devs, id, keys[a]);
        var p :| 0 <= p < |devs| && FirstAt(fd, devs, keys[a], p);
        ListedInOrder(fd, devs, id, a, b, p, p);
      }
    }
  }

  ghost predicate Lists(ix: Index, id: string, k: string) {
    id in ix.deviceMap && k in ix.deviceMap[id]
  }

  /** No list is empty, and every key is advertised exactly once, under exactly one id. */
  ghost predicate Partitioned(ix: Index) {
    && (forall k | k in ix.iommuMap :: ix.iommuMap[k] != [])
    && (forall id | id in ix.deviceMap :: ix.deviceMap[id] != [] && NoDup(ix.deviceMap[id]))
    && (forall id, k | id in ix.deviceMap && k in ix.deviceMap[id] :: k in ix.iommuMap)
    && (forall k | k in ix.iommuMap :: exists id :: Lists(ix, id, k))
    && (forall id, id', k | Lists(ix, id, k) && Lists(ix, id', k) :: id == id')
  }

  lemma OneFirstDevice(fd: bool, devs: seq<PciDevice>, k: string, i: nat, j: nat)
    requires FirstAt(fd, devs, k, i) && FirstAt(fd, devs, k, j)
    ensures i == j
  {
    assert HasKey(fd, devs, i, k) && HasKey(fd, devs, j, k);
  }

  lemma DiscoveryPartitions(ix: Index, fd: bool, devs: seq<PciDevice>)
    requires SpecifiedBy(ix, fd, devs)
    ensures Partitioned(ix)
  {
    forall k | k in ix.iommuMap ensures ix.iommuMap[k] != [] && exists id :: Lists(ix, id, k) {
      BucketNonEmpty(fd, devs, k);
      var i :| 0 <= i < |devs| && HasKey(fd, devs, i, k);
      var first := FirstExists(fd, devs, k, i);
      ListedUnderFirstId(fd, devs, devs[first].Id(), k);
      assert Lists(ix, devs[first].Id(), k);
    }
    forall id | id in ix.deviceMap ensures NoDup(ix.deviceMap[id]) {
      KeysForNoDup(fd, devs, id);
    }
    forall id, id', k | Lists(ix, id, k) && Lists(ix, id', k) ensures k in ix.iommuMap && id == id' {
      ListedUnderFirstId(fd, devs, id, k);
      ListedUnderFirstId(fd, devs, id', k);
      var i :| 0 <= i < |devs| && FirstAt(fd, devs, k, i) && devs[i].Id() == id;
      var j :| 0 <= j < |devs| && FirstAt(fd, devs, k, j) && devs[j].Id() == id';
      OneFirstDevice(fd, devs, k, i, j);
      assert HasKey(fd, devs, i, k);
    }
    assert forall id, k | id in ix.deviceMap && k in ix.deviceMap[id] :: Lists(ix, id, k);
  }

  /** The group-by leaves the loop no freedom. */
  lemma SpecificationUnique(ix: Index, ix': Index, fd: bool, devs: seq<PciDevice>)
    requires SpecifiedBy(ix, fd, devs) && SpecifiedBy(ix', fd, devs)
    ensures ix == ix'
  {
    assert ix.iommuMap.Keys == ix'.iommuMap.Keys;
    assert ix.iommuMap == ix'.iommuMap;
    assert ix.deviceMap.Keys == ix'.deviceMap.Keys;
    assert ix.deviceMap == ix'.deviceMap;
    assert ix.nvSwitchDeviceIDs == ix'.nvSwitchDeviceIDs;
  }

  /** A record is in a bucket exactly when some eligible device with that key has it. */
  lemma {:induction false} BucketMember(fd: bool, devs: seq<PciDevice>, k: string, r: NvDevice)
    ensures r in Bucket(fd, devs, k) <==> exists i | 0 <= i < |devs| :: HasKey(fd, devs, i, k) && devs[i].Record() == r
  {
    if devs != [] {
      var init, last := devs[..|devs| - 1], devs[|devs| - 1];
      BucketMember(fd, init, k, r);
      assert forall j | 0 <= j < |init| :: HasKey(fd, init, j, k) == HasKey(fd, devs, j, k);
      if last.Eligible() && last.Key(fd) == k && last.Record() == r {
        assert HasKey(fd, devs, |init|, k);
      }
    }
  }

  // ---------------------------------------------------------------- which devices are indexed

  /** The index holds the records of exactly the GPUs and NVSwitches that are bound to vfio-pci. */
  lemma IndexedExactly(ix: Index, fd: bool, devs: seq<PciDevice>, r: NvDevice)
    requires SpecifiedBy(ix, fd, devs)
    ensures (exists k | k in ix.iommuMap :: r in ix.iommuMap[k]) <==> exists i | 0 <= i < |devs| :: Recorded(devs[i], r)
  {
    if k :| k in ix.iommuMap && r in ix.iommuMap[k] {
      BucketMember(fd, devs, k, r);
    }
    if i :| 0 <= i < |devs| && Recorded(devs[i], r) {
      var k := devs[i].Key(fd);
      assert HasKey(fd, devs, i, k) && devs[i].Record() == r;
      assert Occurs(fd, devs, k);
      BucketMember(fd, devs, k, r);
    }
  }

  predicate BoundSwitch(d: PciDevice, id: string) {
    d.driver == "vfio-pci" && d.pciClass == 0x068000 && Hex4(d.device) == id
  }

  /** And the NVSwitch ids are exactly those of the NVSwitches among them. */
  lemma SwitchIdsExactly(ix: Index, fd: bool, devs: seq<PciDevice>, id: string)
    requires SpecifiedBy(ix, fd, devs)
    ensures id in ix.nvSwitchDeviceIDs <==> exists i | 0 <= i < |devs| :: BoundSwitch(devs[i], id)
  {
    if i :| 0 <= i < |devs| && BoundSwitch(devs[i], id) {
      assert SwitchWithId(devs, i, id);
    }
    if i :| 0 <= i < |devs| && SwitchWithId(devs, i, id) {
      assert BoundSwitch(devs[i], id);
    }
  }

  // ---------------------------------------------------------------- conservation

  function BucketSize(fd: bool, devs: seq<PciDevice>): string -> nat {
    k => |Bucket(fd, devs, k)|
  }

  lemma {:induction false} OneBucketGrows(fd: bool, devs: seq<PciDevice>, dev: PciDevice, keys: seq<string>)
    requires NoDup(keys)
    ensures Sum(BucketSize(fd, devs + [dev]), keys)
         == Sum(BucketSize(fd, devs), keys) + if dev.Eligible() && dev.Key(fd) in keys then 1 else 0
  {
    if keys != [] {
      OneBucketGrows(fd, devs, dev, keys[1..]);
      BucketSnoc(fd, devs, dev, keys[0]);
      assert keys == [keys[0]] + keys[1..];
      assert forall j | 0 <= j < |keys[1..]| :: keys[1..][j] == keys[j + 1];
    }
  }

  lemma {:induction false} AllZero(f: string -> nat, keys: seq<string>)
    requires forall k :: f(k) == 0
    ensures Sum(f, keys) == 0
  {
    if keys != [] {
      AllZero(f, keys[1..]);
    }
  }

  lemma {:induction false} SizesSumOver(fd: bool, devs: seq<PciDevice>, keys: seq<string>)
    requires NoDup(keys) && forall i | 0 <= i < |devs| && devs[i].Eligible() :: devs[i].Key(fd) in keys
    ensures Sum(BucketSize(fd, devs), keys) == |EligibleDevices(devs)|
  {
    if devs == [] {
      AllZero(BucketSize(fd, devs), keys);
    } else {
      var init, last := devs[..|devs| - 1], devs[|devs| - 1];
      assert devs == init + [last];
      SizesSumOver(fd, init, keys);
      OneBucketGrows(fd, init, last, keys);
    }
  }

  function SizeIn(ix: Index): string -> nat {
    k => if k in ix.iommuMap then |ix.iommuMap[k]| else 0
  }

  /** Over any iteration of the index, bucket sizes add up to the number of eligible devices. */
  lemma DevicesConserved(ix: Index, fd: bool, devs: seq<PciDevice>, order: seq<string>)
    requires SpecifiedBy(ix, fd, devs) && IterationOf(order, ix.iommuMap.Keys)
    ensures Sum(SizeIn(ix), order) == |EligibleDevices(devs)|
  {
    forall i | 0 <= i < |devs| && devs[i].Eligible() ensures devs[i].Key(fd) in order {
      assert HasKey(fd, devs, i, devs[i].Key(fd));
      assert Occurs(fd, devs, devs[i].Key(fd));
    }
    SizesSumOver(fd, devs, order);
    SumAgree(SizeIn(ix), BucketSize(fd, devs), order);
  }

  // ---------------------------------------------------------------- what a key identifies

  /** Two different handles strip to the same key only if one is the other without its prefix. */
  lemma StrippedHandlesCollide(h: string, h': string)
    ensures TrimPrefix(h, "vfio") == TrimPrefix(h', "vfio")
       <==> h == h' || (!Prefixed(h') && h == "vfio" + h') || (!Prefixed(h) && h' == "vfio" + h)
  {
    assert Prefixed(h) ==> h == "vfio" + h[4..];
    assert Prefixed(h') ==> h' == "vfio" + h'[4..];
    assert ("vfio" + h')[4..] == h' && ("vfio" + h)[4..] == h;
  }

  /** The devices are one unit of isolation: one handle where both have one, one group where neither has. */
  predicate SameUnit(d: PciDevice, e: PciDevice) {
    if d.iommuFD == "" && e.iommuFD == "" then d.iommuGroup == e.iommuGroup else d.iommuFD == e.iommuFD
  }

  /** Devices i and j of the scan are eligible, and their records stand in one bucket. */
  ghost predicate ShareBucket(ix: Index, devs: seq<PciDevice>, i: nat, j: nat) {
    && i < |devs| && j < |devs| && devs[i].Eligible() && devs[j].Eligible()
    && exists k | k in ix.iommuMap :: devs[i].Record() in ix.iommuMap[k] && devs[j].Record() in ix.iommuMap[k]
  }

  lemma ShareBucketIffKeys(ix: Index, fd: bool, devs: seq<PciDevice>, i: nat, j: nat)
    requires SpecifiedBy(ix, fd, devs) && i < |devs| && j < |devs| && devs[i].Eligible() && devs[j].Eligible()
    ensures ShareBucket(ix, devs, i, j) <==> devs[i].Key(fd) == devs[j].Key(fd)
  {
    if k :| k in ix.iommuMap && devs[i].Record() in ix.iommuMap[k] && devs[j].Record() in ix.iommuMap[k] {
      BucketMember(fd, devs, k, devs[i].Record());
      BucketMember(fd, devs, k, devs[j].Record());
    }
    if devs[i].Key(fd) == devs[j].Key(fd) {
      var k := devs[i].Key(fd);
      assert HasKey(fd, devs, i, k) && HasKey(fd, devs, j, k);
      assert Occurs(fd, devs, k);
      BucketMember(fd, devs, k, devs[i].Record());
      BucketMember(fd, devs, k, devs[j].Record());
    }
  }

  /** Legacy mode: devices share a bucket exactly when they share an IOMMU group. */
  lemma LegacyKeysFaithful(ix: Index, devs: seq<PciDevice>, i: nat, j: nat)
    requires SpecifiedBy(ix, false, devs) && i < |devs| && j < |devs| && devs[i].Eligible() && devs[j].Eligible()
    ensures ShareBucket(ix, devs, i, j) <==> devs[i].iommuGroup == devs[j].iommuGroup
  {
    ShareBucketIffKeys(ix, false, devs, i, j);
    if devs[i].Key(false) == devs[j].Key(false) {
      ItoaInjective(devs[i].iommuGroup, devs[j].iommuGroup);
    }
  }

  /** Two devices that are not one unit of isolation have one key. */
  predicate KeysClash(d: PciDevice, e: PciDevice) {
    || (d.iommuFD == "" != e.iommuFD && TrimPrefix(e.iommuFD, "vfio") == Itoa(d.iommuGroup))
    || (e.iommuFD == "" != d.iommuFD && TrimPrefix(d.iommuFD, "vfio") == Itoa(e.iommuGroup))
    || (d.iommuFD != "" && !Prefixed(d.iommuFD) && e.iommuFD == "vfio" + d.iommuFD)
    || (e.iommuFD != "" && !Prefixed(e.iommuFD) && d.iommuFD == "vfio" + e.iommuFD)
  }

  /** IOMMUFD mode: devices share a bucket exactly when they are one unit of isolation, or one has no handle and its
      group number is the other's stripped handle, or one handle is the other without its prefix. */
  lemma IommufdKeysCollide(ix: Index, devs: seq<PciDevice>, i: nat, j: nat)
    requires SpecifiedBy(ix, true, devs) && i < |devs| && j < |devs| && devs[i].Eligible() && devs[j].Eligible()
    ensures ShareBucket(ix, devs, i, j) <==> SameUnit(devs[i], devs[j]) || KeysClash(devs[i], devs[j])
    ensures !(SameUnit(devs[i], devs[j]) && KeysClash(devs[i], devs[j]))
  {
    ShareBucketIffKeys(ix, true, devs, i, j);
    var d, e := devs[i], devs[j];
    StrippedHandlesCollide(d.iommuFD, e.iommuFD);
    if d.iommuFD == "" && e.iommuFD == "" && d.Key(true) == e.Key(true) {
      ItoaInjective(d.iommuGroup, e.iommuGroup);
    }
  }

  /** With every handle prefixed, a bucket holds exactly the devices of one handle. */
  lemma PrefixedKeysFaithful(ix: Index, devs: seq<PciDevice>, i: nat, j: nat)
    requires SpecifiedBy(ix, true, devs) && i < |devs| && j < |devs| && devs[i].Eligible() && devs[j].Eligible()
    requires Prefixed(devs[i].iommuFD) && Prefixed(devs[j].iommuFD)
    ensures ShareBucket(ix, devs, i, j) <==> devs[i].iommuFD == devs[j].iommuFD
  {
    ShareBucketIffKeys(ix, true, devs, i, j);
    StrippedHandlesCollide(devs[i].iommuFD, devs[j].iommuFD);
  }
}
